/**
 How a ClientHello is cut up for sending: first what lies outside two cuts, then the cuts.
 The plan decides how often each byte is sent.
 */
module CryptoPlan {
  import opened Protocol
  import opened Wire
  import opened ClientHello

  /** The bytes [start, end); no cut if `start` is invalid. */
  datatype Cut = Cut(start: int, end: int)

  const NO_CUT := Cut(INVALID_BYTE_COUNT, INVALID_BYTE_COUNT)

  predicate Live(c: Cut) { c.start != INVALID_BYTE_COUNT }

  predicate Has(c: Cut, x: int) { Live(c) && c.start <= x < c.end }

  function Size(c: Cut): int { if Live(c) then c.end - c.start else 0 }

  function One(b: bool): int { if b then 1 else 0 }

  /** How many of the frames carry offset `x`. */
  function Times(frames: seq<CryptoFrame>, x: int): (n: nat) {
    if frames == [] then 0
    else
      var f := frames[|frames| - 1];
      Times(frames[..|frames| - 1], x) + (if f.offset <= x < f.offset + |f.data| then 1 else 0)
  }

  lemma TimesAppend(frames: seq<CryptoFrame>, f: CryptoFrame, x: int)
    ensures Times(frames + [f], x) == Times(frames, x) + One(f.offset <= x < f.offset + |f.data|)
  {
    assert (frames + [f])[..|frames|] == frames;
  }

  // ---------------------------------------------------------------- plans

  /** Two cuts of [0, end), in the order they are kept. */
  datatype Plan = Plan(a: Cut, b: Cut, end: int)

  predicate CutOk(c: Cut, end: int) { Live(c) ==> 0 <= c.start <= c.end <= end }

  predicate PlanOk(p: Plan) {
    0 <= p.end && CutOk(p.a, p.end) && CutOk(p.b, p.end) && (Live(p.a) && Live(p.b) ==> p.a.start <= p.b.start)
  }

  /** Is the first cut left out of the first pass?  It is found only while it is still ahead. */
  predicate SkipsA(p: Plan) { Live(p.a) && p.a.start > 0 }

  predicate SkipsB(p: Plan) { Live(p.b) && p.b.start > (if SkipsA(p) then p.a.end else 0) }

  predicate Skipped(p: Plan, x: int) { (SkipsA(p) && Has(p.a, x)) || (SkipsB(p) && Has(p.b, x)) }

  /** How often the plan sends offset `x`: once with each cut, and in the first pass unless skipped. */
  function Total(p: Plan, x: int): (n: int)
    ensures n >= 1
  {
    One(Has(p.a, x)) + One(Has(p.b, x)) + One(!Skipped(p, x))
  }

  /** No cut is empty, starts at 0, or touches or overlaps the cut before it. */
  predicate Separated(p: Plan) {
    && (Live(p.a) ==> 0 < p.a.start < p.a.end)
    && (Live(p.b) ==> 0 < p.b.start < p.b.end)
    && (Live(p.a) && Live(p.b) ==> p.a.end < p.b.start)
  }

  predicate NonEmpty(c: Cut) { Live(c) ==> c.start < c.end }

  /** A plan without empty cuts sends every byte exactly once if and only if its cuts are separated. */
  lemma OnceIffSeparated(p: Plan)
    requires PlanOk(p) && NonEmpty(p.a) && NonEmpty(p.b)
    ensures Separated(p) <==> forall x :: 0 <= x < p.end ==> Total(p, x) == 1
  {
    if !Separated(p) {
      var x := if Live(p.a) && p.a.start == 0 then 0 else p.b.start;
      assert 0 <= x < p.end && Total(p, x) != 1;
    }
  }

  // ---------------------------------------------------------------- making a plan

  /** The two cuts for what was found, in the order of the array. */
  function SniCut(r: Lookup): Cut
    requires r.Found?
  {
    Cut(r.sniPos + r.sniLen / 2, r.sniPos + r.sniLen)
  }

  function EchCut(r: Lookup, len: int): Cut
    requires r.Found?
  {
    if r.echPos > 0 then Cut(r.echPos + 1, Min(r.echPos + 1 + 16, len)) else NO_CUT
  }

  /** The comparison the cuts are sorted with. */
  function Compare(a: Cut, b: Cut): int {
    if a.start == INVALID_BYTE_COUNT then 1 else if a.start > b.start then 1 else -1
  }

  function PlanFor(r: Lookup, len: int): Plan
    requires r.Found?
  {
    var s, e := SniCut(r), EchCut(r, len);
    if Compare(e, s) < 0 then Plan(e, s, len) else Plan(s, e, len)
  }

  lemma PlanForOk(d: seq<byte>, r: Lookup)
    requires r.Found? && InBounds(d, r)
    ensures PlanOk(PlanFor(r, |d|))
  {
  }

  /** With a server name of two bytes or more, one of the cuts starts inside it. */
  lemma CutsServerName(d: seq<byte>, r: Lookup)
    requires r.Found? && InBounds(d, r) && r.sniPos != -1 && r.sniLen >= 2
    ensures var p := PlanFor(r, |d|);
            || (Live(p.a) && r.sniPos < p.a.start < r.sniPos + r.sniLen)
            || (Live(p.b) && r.sniPos < p.b.start < r.sniPos + r.sniLen)
  {
  }

  /** Whether everything can be sent: the first cut is there, and no cut is empty. */
  predicate SendableAt(d: seq<byte>, r: Lookup)
    requires r.Found?
  {
    var p := PlanFor(r, |d|);
    && (Live(p.a) && NonEmpty(p.a) && NonEmpty(p.b) <==> r.sniLen >= (if r.sniPos == -1 then 2 else 1))
    && (!Live(p.a) <==> r.sniPos == -1 && r.sniLen < 2)
  }

  /**
   It can be read off the positions.  The comparison does not order a missing cut last: with an
   encrypted hello and no name, the missing cut stays first.
   */
  lemma SendableIff(d: seq<byte>, r: Lookup)
    requires r.Found? && InBounds(d, r)
    ensures r.sniPos != -1 || r.echPos != -1 ==> SendableAt(d, r)
  {
  }

  /**
   For a ClientHello with a server name, whether the cuts are separated can be read off the
   positions: the name is not empty, and an encrypted hello that starts before the middle of the
   name starts more than 17 bytes before it.
   */
  lemma SeparatedIff(d: seq<byte>, r: Lookup)
    requires r.Found? && InBounds(d, r) && r.sniPos != -1
    ensures Separated(PlanFor(r, |d|)) <==>
      && r.sniLen >= 1
      && (r.echPos == -1 || r.sniPos + r.sniLen <= r.echPos || r.echPos + 17 < r.sniPos + r.sniLen / 2)
  {
  }

  /** ClientHellos whose cuts touch, so that a byte is sent twice: those with a name of eight bytes. */
  lemma TouchingCutsRepeat(name: seq<byte>)
    requires |name| == 8
    ensures var d := EchThenName(name);
            var r := FindSniAndEch(d);
            r.Found? && var p := PlanFor(r, |d|);
            p == Plan(Cut(45, 61), Cut(61, 65), 65) && !Separated(p) && Total(p, 61) == 2
  {
    hide FindSniAndEch, EchThenName;
    EchThenNameFound(name);
  }

  /** A ClientHello whose first cut is missing, so that nothing is ever sent. */
  lemma MissingCutStalls()
    ensures var d := Minimal(ECH_ONLY);
            var r := FindSniAndEch(d);
            r.Found? && PlanFor(r, |d|) == Plan(NO_CUT, Cut(45, 48), 48)
  {
    hide FindSniAndEch, Minimal;
    EchOnly();
  }

  /** A ClientHello with an empty cut, so that sending never ends. */
  lemma EmptyCutNeverEnds()
    ensures var d := Minimal(EMPTY_NAME);
            var r := FindSniAndEch(d);
            r.Found? && PlanFor(r, |d|) == Plan(Cut(53, 53), NO_CUT, 53)
  {
    hide FindSniAndEch, Minimal;
    EmptyName();
  }

  // ---------------------------------------------------------------- carrying out a plan

  /** What is left of cut `o` is `c`: an end of it, or nothing.  Nothing is ever sent of an empty cut. */
  predicate Remains(o: Cut, c: Cut) {
    if Live(c) then Live(o) && o.start <= c.start && c.end == o.end && (c.start == o.start || c.start < c.end)
    else if Live(o) then o.start < o.end && c == NO_CUT
    else c == o
  }

  /** In the first pass, `w` is before or behind each cut that is left out. */
  predicate InPass(p: Plan, w: int) {
    && 0 <= w < p.end
    && (SkipsA(p) ==> w < p.a.start || p.a.end <= w)
    && (SkipsB(p) ==> w < p.b.start || p.b.end <= w)
  }

  /** Offset `x` is still to be sent in the first pass, or after it; a popped tail [tail, len) is not. */
  predicate Pending(p: Plan, w: int, tail: int, len: int, x: int) {
    w <= x && !Skipped(p, x) && !(tail <= x < len)
  }

  function Accounted(frames: seq<CryptoFrame>, p: Plan, a: Cut, b: Cut, w: int, tail: int, len: int, x: int): int {
    Times(frames, x) + One(Has(a, x)) + One(Has(b, x)) + One(Pending(p, w, tail, len, x))
  }

  /** How many of the parts hold offset `x`. */
  function Again(parts: seq<Cut>, x: int): (n: nat) {
    if parts == [] then 0 else Again(parts[..|parts| - 1], x) + One(Has(parts[|parts| - 1], x))
  }

  lemma AgainAppend(parts: seq<Cut>, c: Cut, d: Cut, x: int)
    ensures Again(parts + [c, d], x) == Again(parts, x) + One(Has(c, x)) + One(Has(d, x))
  {
    var q := parts + [c];
    assert (parts + [c, d])[..|q|] == q && q[..|parts|] == parts;
  }

  /** No part reaches beyond `end`. */
  predicate AgainOk(parts: seq<Cut>, end: int) {
    forall i :: 0 <= i < |parts| ==> CutOk(parts[i], end)
  }

  lemma {:induction false} AgainBeyond(parts: seq<Cut>, end: int, x: int)
    requires AgainOk(parts, end) && end <= x
    ensures Again(parts, x) == 0
  {
    if parts != [] {
      AgainBeyond(parts[..|parts| - 1], end, x);
    }
  }

  /**
   Every offset was sent, or is yet to be sent, as often as the plan says, and once more for each
   part that was sent before the cuts were started over.
   */
  ghost predicate Balance(frames: seq<CryptoFrame>, p: Plan, a: Cut, b: Cut, w: int, tail: int, len: int,
                          again: seq<Cut>)
  {
    forall x :: 0 <= x ==> Accounted(frames, p, a, b, w, tail, len, x) == Total(p, x) + Again(again, x)
  }

  /** The cut the first pass runs into next. */
  function NextCut(a: Cut, b: Cut, w: int): Cut {
    if Live(a) && a.start > w then a else if Live(b) && b.start > w then b else NO_CUT
  }

  function PassLimit(p: Plan, w: int): int {
    var next := NextCut(p.a, p.b, w);
    if Live(next) then next.start else p.end
  }

  function AfterPass(p: Plan, w: int, n: int): int {
    var next := NextCut(p.a, p.b, w);
    if w + n == next.start then next.end else w + n
  }

  /** Up to the next cut nothing is left out, and a cut that is jumped over is one of those left out. */
  lemma PassGoesOn(p: Plan, w: int, n: int)
    requires PlanOk(p) && InPass(p, w) && 0 < n <= PassLimit(p, w) - w
    ensures forall x :: w <= x < w + n ==> !Skipped(p, x)
    ensures var w' := AfterPass(p, w, n);
            && w + n <= w' <= p.end && (forall x :: w + n <= x < w' ==> Skipped(p, x))
            && (w' < p.end ==> InPass(p, w'))
  {
  }

  lemma PassBalance(frames: seq<CryptoFrame>, p: Plan, f: CryptoFrame, w: int, len: int, again: seq<Cut>)
    requires PlanOk(p) && InPass(p, w) && 0 < |f.data| <= PassLimit(p, w) - w && f.offset == w
    requires Balance(frames, p, p.a, p.b, w, len, len, again)
    ensures Balance(frames + [f], p, p.a, p.b, AfterPass(p, w, |f.data|), len, len, again)
  {
    PassGoesOn(p, w, |f.data|);
    forall x | 0 <= x
      ensures Accounted(frames + [f], p, p.a, p.b, AfterPass(p, w, |f.data|), len, len, x)
              == Accounted(frames, p, p.a, p.b, w, len, len, x)
    {
      TimesAppend(frames, f, x);
    }
  }

  /** What is left of a cut after `n` more bytes of it. */
  function CutShort(c: Cut, n: int): Cut {
    if c.start + n == c.end then NO_CUT else Cut(c.start + n, c.end)
  }

  lemma CutRemains(o: Cut, c: Cut, n: int, end: int)
    requires Remains(o, c) && Live(c) && CutOk(o, end) && 0 < n <= c.end - c.start
    ensures Remains(o, CutShort(c, n))
    ensures forall x :: One(Has(c, x)) == One(Has(CutShort(c, n), x)) + One(c.start <= x < c.start + n)
  {
  }

  /** Sending the start of a cut in the second pass. */
  lemma CutBalance(frames: seq<CryptoFrame>, p: Plan, a: Cut, b: Cut, f: CryptoFrame, w: int, len: int, again: seq<Cut>)
    requires PlanOk(p) && Remains(p.a, a) && Remains(p.b, b) && |f.data| > 0
    requires Balance(frames, p, a, b, w, len, len, again)
    ensures Live(a) && f.offset == a.start && |f.data| <= a.end - a.start ==>
      Balance(frames + [f], p, CutShort(a, |f.data|), b, w, len, len, again) && Remains(p.a, CutShort(a, |f.data|))
    ensures Live(b) && f.offset == b.start && |f.data| <= b.end - b.start ==>
      Balance(frames + [f], p, a, CutShort(b, |f.data|), w, len, len, again) && Remains(p.b, CutShort(b, |f.data|))
  {
    hide Pending, Has;
    var n := |f.data|;
    forall x | 0 <= x
      ensures Times(frames + [f], x) == Times(frames, x) + One(f.offset <= x < f.offset + |f.data|)
    {
      TimesAppend(frames, f, x);
    }
    if Live(a) && f.offset == a.start && n <= a.end - a.start {
      CutRemains(p.a, a, n, p.end);
    }
    if Live(b) && f.offset == b.start && n <= b.end - b.start {
      CutRemains(p.b, b, n, p.end);
    }
  }

  /** Sending from the front, after the cuts, if there were any. */
  lemma FrontBalance(frames: seq<CryptoFrame>, p: Plan, f: CryptoFrame, w: int, tail: int, len: int, again: seq<Cut>)
    requires PlanOk(p) && p.end <= w && f.offset == w && w + |f.data| <= tail <= len
    requires Balance(frames, p, NO_CUT, NO_CUT, w, tail, len, again)
    ensures Balance(frames + [f], p, NO_CUT, NO_CUT, w + |f.data|, tail, len, again)
  {
    forall x | 0 <= x
      ensures Accounted(frames + [f], p, NO_CUT, NO_CUT, w + |f.data|, tail, len, x)
              == Accounted(frames, p, NO_CUT, NO_CUT, w, tail, len, x)
    {
      TimesAppend(frames, f, x);
    }
  }

  /** Sending from the back. */
  lemma TailBalance(frames: seq<CryptoFrame>, p: Plan, f: CryptoFrame, w: int, tail: int, len: int, again: seq<Cut>)
    requires PlanOk(p) && p.end <= w <= f.offset && f.offset + |f.data| == tail <= len
    requires Balance(frames, p, NO_CUT, NO_CUT, w, tail, len, again)
    ensures Balance(frames + [f], p, NO_CUT, NO_CUT, w, f.offset, len, again)
  {
    forall x | 0 <= x
      ensures Accounted(frames + [f], p, NO_CUT, NO_CUT, w, f.offset, len, x)
              == Accounted(frames, p, NO_CUT, NO_CUT, w, tail, len, x)
    {
      TimesAppend(frames, f, x);
    }
  }

  /** More is written, behind everything. */
  lemma GrowBalance(frames: seq<CryptoFrame>, p: Plan, a: Cut, b: Cut, w: int, len: int, more: int, again: seq<Cut>)
    requires Balance(frames, p, a, b, w, len, len, again) && len <= more
    ensures Balance(frames, p, a, b, w, more, more, again)
  {
    forall x | 0 <= x
      ensures Accounted(frames, p, a, b, w, more, more, x) == Accounted(frames, p, a, b, w, len, len, x)
    {
    }
  }

  /** Before anything was sent, any plan is in balance. */
  lemma StartBalance(p: Plan, len: int)
    requires PlanOk(p)
    ensures Balance([], p, p.a, p.b, 0, len, len, [])
  {
  }

  /** The part of cut `o` that was sent when `c` is left of it. */
  function Used(o: Cut, c: Cut): Cut {
    if !Live(o) then NO_CUT else Cut(o.start, if Live(c) then c.start else o.end)
  }

  /** Starting over with the cuts sends again what was sent of them. */
  lemma RewindBalance(frames: seq<CryptoFrame>, p: Plan, a: Cut, b: Cut, w: int, len: int, again: seq<Cut>)
    requires Balance(frames, p, a, b, w, len, len, again) && Remains(p.a, a) && Remains(p.b, b)
    requires PlanOk(p) && AgainOk(again, p.end)
    ensures var again' := again + [Used(p.a, a), Used(p.b, b)];
            Balance(frames, p, p.a, p.b, w, len, len, again') && AgainOk(again', p.end)
  {
    var c, d := Used(p.a, a), Used(p.b, b);
    forall x | 0 <= x
      ensures Accounted(frames, p, p.a, p.b, w, len, len, x) == Total(p, x) + Again(again + [c, d], x)
    {
      AgainAppend(again, c, d, x);
      assert Accounted(frames, p, a, b, w, len, len, x) == Total(p, x) + Again(again, x);
    }
  }

  // ---------------------------------------------------------------- what the frames carry

  ghost predicate Carries(f: CryptoFrame, written: seq<byte>) {
    0 <= f.offset && f.offset + |f.data| <= |written| && f.data == written[f.offset..f.offset + |f.data|]
  }

  /** A separated cut is sent apart from what comes before it. */
  predicate Apart(f: CryptoFrame, p: Plan) {
    Separated(p) ==>
      && (Live(p.a) ==> !(f.offset < p.a.start < f.offset + |f.data|))
      && (Live(p.b) ==> !(f.offset < p.b.start < f.offset + |f.data|))
  }

  ghost predicate Faithful(frames: seq<CryptoFrame>, written: seq<byte>, p: Plan) {
    forall i :: 0 <= i < |frames| ==> Carries(frames[i], written) && Apart(frames[i], p)
  }

  lemma FaithfulAppend(frames: seq<CryptoFrame>, f: CryptoFrame, written: seq<byte>, p: Plan)
    requires Faithful(frames, written, p) && Carries(f, written) && Apart(f, p)
    ensures Faithful(frames + [f], written, p)
  {
  }

  lemma FaithfulGrow(frames: seq<CryptoFrame>, written: seq<byte>, more: seq<byte>, p: Plan)
    requires Faithful(frames, written, p)
    ensures Faithful(frames, written + more, p)
  {
    forall i | 0 <= i < |frames|
      ensures Carries(frames[i], written + more) && Apart(frames[i], p)
    {
      assert Carries(frames[i], written);
    }
  }

  lemma DeadBalance(frames: seq<CryptoFrame>, p: Plan, a: Cut, b: Cut, w: int, tail: int, len: int, again: seq<Cut>)
    requires Balance(frames, p, a, b, w, tail, len, again) && !Live(a) && !Live(b)
    ensures Balance(frames, p, NO_CUT, NO_CUT, w, tail, len, again)
  {
    forall x | 0 <= x
      ensures Accounted(frames, p, a, b, w, tail, len, x) == Accounted(frames, p, NO_CUT, NO_CUT, w, tail, len, x)
    {
    }
  }

  function CutAt(p: Plan, i: int): Cut { if i == 0 then p.a else p.b }

  lemma CutInside(p: Plan, i: int, c: Cut)
    requires PlanOk(p) && 0 <= i < 2 && Remains(CutAt(p, i), c) && Live(c)
    ensures 0 <= c.start <= c.end <= p.end
  {
  }

  /** What is sent of a cut does not reach across the start of a cut. */
  lemma CutApart(p: Plan, i: int, c: Cut, f: CryptoFrame)
    requires PlanOk(p) && 0 <= i < 2 && Remains(CutAt(p, i), c) && Live(c)
    requires f.offset == c.start && |f.data| <= c.end - c.start
    ensures Apart(f, p)
  {
  }

  lemma DeadCuts(p: Plan, a: Cut, b: Cut)
    requires Remains(p.a, a) && Remains(p.b, b) && !Live(a) && !Live(b)
    ensures NonEmpty(p.a) && NonEmpty(p.b)
  {
  }

  lemma PassBounds(p: Plan, w: int)
    requires PlanOk(p) && InPass(p, w)
    ensures w < PassLimit(p, w) <= p.end
  {
  }

  lemma PassApart(p: Plan, f: CryptoFrame, w: int)
    requires PlanOk(p) && InPass(p, w) && f.offset == w && |f.data| <= PassLimit(p, w) - w
    ensures Apart(f, p)
  {
  }

  lemma StartFaithful(written: seq<byte>, p: Plan)
    ensures Faithful([], written, p)
  {
  }
}
