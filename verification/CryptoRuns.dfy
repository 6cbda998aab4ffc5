/**
 Whole runs of the Initial crypto stream: writes and pops in any order and of any size, then pops
 until nothing is left; and the delivery of the frames, in any order, to the other side.
 */
module CryptoRuns {
  import opened Protocol
  import opened Wire
  import opened ClientHello
  import opened CryptoPlan
  import opened CryptoStreams
  import FrameSorting
  import Reassembly

  datatype Step = Write(p: seq<byte>) | Pop(maxLen: int)

  /** A stream whose first cut is missing never gets to send anything. */
  ghost predicate Stalled(s: CryptoStream)
    reads s, s.cuts
  {
    s.plan != NO_PLAN && !Live(s.plan.a) ==> s.scramble && s.writeOffset == 0 && s.frames == []
  }

  ghost predicate RunOk(s: CryptoStream)
    reads s, s.cuts
  {
    s.Valid() && s.Busy() && Stalled(s) && (s.scramble ==> s.tail == |s.written|)
  }

  /** The plan that a complete ClientHello leads to; without anything to cut, scrambling is given up. */
  ghost predicate PlanFrom(hello: seq<byte>, scrambling: bool, plan: Plan) {
    var r := FindSniAndEch(hello);
    r.Found? &&
    if r.sniPos == -1 && r.echPos == -1 then plan == NO_PLAN && !scrambling else plan == PlanFor(r, |hello|)
  }

  /** All that is outside the cuts was sent, and an empty cut is next: nothing more comes. */
  ghost predicate AtEmptyCut(s: CryptoStream)
    requires s.cuts.Length == 2
    reads s, s.cuts
  {
    s.writeOffset == s.end && EmptyNext(s.cuts[0], s.cuts[1])
  }

  predicate EmptyNext(a: Cut, b: Cut) {
    var c := if Live(a) then a else b;
    Live(c) && c.start == c.end
  }

  lemma PlannedLong(p: Plan, written: seq<byte>)
    ensures Planned(p, written) ==> 0 < p.end <= |written|
  {
  }

  method Start(scramble: bool) returns (s: CryptoStream)
    ensures fresh(s) && fresh(s.cuts) && RunOk(s) && s.tail == 0 && s.written == [] && s.plan == NO_PLAN
    ensures s.again == [] && s.scramble == scramble
  {
    s := new CryptoStream(scramble);
  }

  method Take(s: CryptoStream, step: Step) returns (ok: bool, f: Option<CryptoFrame>)
    requires RunOk(s) && s.tail == |s.written|
    modifies s, s.cuts
    ensures RunOk(s) && s.tail == |s.written|
    ensures !old(s.scramble) ==> !s.scramble && s.plan == old(s.plan)
    ensures old(s.plan) != NO_PLAN ==> s.plan == old(s.plan)
    ensures old(s.scramble) && old(s.plan) == NO_PLAN ==>
      if step.Write? && FindSniAndEch(s.written).Found? then PlanFrom(s.written, s.scramble, s.plan)
      else s.scramble && s.plan == NO_PLAN
    ensures step != Write([]) ==> s.again == old(s.again)
    ensures s.written == if step.Write? then old(s.written) + step.p else old(s.written)
    ensures s.frames == old(s.frames) + (if f.Some? then [f.value] else [])
    ensures step.Pop? && old(!s.scramble && s.writeBuf != []) ==>
      (f.None? <==> MaxCryptoDataLen(old(s.writeOffset), step.maxLen) == 0)
  {
    hide Faithful, Balance, FindSniAndEch, PlanFor, InPass, Planned, CryptoStream.PlainOk;
    ok, f := true, None;
    match step
    case Write(p) => ok := s.Write(p);
    case Pop(maxLen) =>
      if s.HasData() {
        f := s.PopCryptoFrame(maxLen);
      }
  }

  /** Pops until there is nothing left, or nothing comes. */
  method Drain(s: CryptoStream, budgets: nat -> int)
    requires RunOk(s) && s.tail == |s.written| && forall i :: budgets(i) >= ENOUGH
    modifies s, s.cuts
    ensures RunOk(s) && s.tail == |s.written| && s.again == old(s.again)
    ensures s.written == old(s.written) && s.plan == old(s.plan)
    ensures s.plan != NO_PLAN && Live(s.plan.a) && NonEmpty(s.plan.a) && NonEmpty(s.plan.b) ==>
      !s.scramble && s.writeBuf == []
    ensures (!s.scramble ==> s.writeBuf == []) && (s.scramble ==> old(s.scramble))
    ensures old(s.scramble) && s.plan == NO_PLAN ==> s.scramble
    ensures s.scramble && s.plan != NO_PLAN && Live(s.plan.a) ==> AtEmptyCut(s)
  {
    hide Faithful, Balance, FindSniAndEch, PlanFor, InPass, Planned, CryptoStream.PlainOk;
    var i := 0;
    PlannedLong(s.plan, s.written);
    while s.HasData()
      invariant RunOk(s) && s.tail == |s.written| && s.again == old(s.again)
      invariant s.written == old(s.written) && s.plan == old(s.plan)
      invariant (s.scramble ==> old(s.scramble)) && (old(s.scramble) && s.plan == NO_PLAN ==> s.scramble)
      decreases s.Left()
    {
      LeftNat(s);
      ghost var c := if Live(s.cuts[0]) then s.cuts[0] else s.cuts[1];
      EnoughFits(s.writeOffset, budgets(i));
      EnoughFits(c.start, budgets(i));
      var f := s.PopCryptoFrame(budgets(i));
      if f.None? {
        return;
      }
      i := i + 1;
    }
  }

  lemma LeftNat(s: CryptoStream)
    requires s.Valid()
    ensures s.Left() >= 0
  {
    hide Faithful, Balance, FindSniAndEch, PlanFor, InPass, Planned;
  }

  /** What the steps write, end to end. */
  ghost function Written(steps: seq<Step>): (w: seq<byte>) {
    if steps == [] then [] else
      var last := steps[|steps| - 1];
      Written(steps[..|steps| - 1]) + (if last.Write? then last.p else [])
  }

  /** After `k` steps, what was written is a complete ClientHello. */
  ghost predicate HelloAt(steps: seq<Step>, k: int)
    requires 0 <= k <= |steps|
  {
    FindSniAndEch(Written(steps[..k])).Found?
  }

  /** The plan is the one for the ClientHello written in the first `n` steps, if there was one. */
  ghost predicate PlanRight(steps: seq<Step>, n: int, scrambling: bool, plan: Plan)
    requires 0 <= n <= |steps|
  {
    && (forall k :: 0 <= k <= n && HelloAt(steps, k) ==> PlanFrom(Written(steps[..k]), scrambling, plan))
    && ((forall k :: 0 <= k <= n ==> !HelloAt(steps, k)) ==> scrambling && plan == NO_PLAN)
  }

  lemma {:induction false} WrittenGrows(steps: seq<Step>, k: int, n: int)
    requires 0 <= k <= n <= |steps|
    ensures Written(steps[..k]) <= Written(steps[..n])
  {
    if k < n {
      WrittenGrows(steps, k, n - 1);
      assert steps[..n][..n - 1] == steps[..n - 1];
    }
  }

  /** There is only one complete ClientHello. */
  lemma OneHello(steps: seq<Step>, k: int, n: int)
    requires 0 <= k <= n <= |steps| && HelloAt(steps, k) && HelloAt(steps, n)
    ensures Written(steps[..k]) == Written(steps[..n])
  {
    hide FindSniAndEch, Written;
    WrittenGrows(steps, k, n);
    var h, w := Written(steps[..k]), Written(steps[..n]);
    if |h| < |w| {
      assert w == h + w[|h|..];
      LongerIsIncomplete(h, w[|h|..]);
    }
  }

  /** A step keeps the plan right: it is made when the ClientHello is complete, and then stays. */
  lemma PlanStaysRight(steps: seq<Step>, n: int, was: bool, now: bool, before: Plan, after: Plan)
    requires 0 <= n < |steps| && PlanRight(steps, n, was, before)
    requires !was ==> !now && after == before
    requires before != NO_PLAN ==> after == before
    requires was && before == NO_PLAN ==>
      if steps[n].Write? && HelloAt(steps, n + 1) then PlanFrom(Written(steps[..n + 1]), now, after)
      else now && after == NO_PLAN
    ensures PlanRight(steps, n + 1, now, after)
  {
    hide FindSniAndEch, PlanFor, Written;
    if exists k :: 0 <= k <= n && HelloAt(steps, k) {
      var k :| 0 <= k <= n && HelloAt(steps, k);
      assert PlanFrom(Written(steps[..k]), was, before);
      forall j | 0 <= j <= n + 1 && HelloAt(steps, j)
        ensures PlanFrom(Written(steps[..j]), now, after)
      {
        if j <= k {
          OneHello(steps, j, k);
        } else {
          OneHello(steps, k, j);
        }
        SamePlan(Written(steps[..k]), was, now, before, after);
      }
    } else if !steps[n].Write? {
      PopWritesNothing(steps, n);
    }
  }

  lemma SamePlan(hello: seq<byte>, was: bool, now: bool, before: Plan, after: Plan)
    requires PlanFrom(hello, was, before) && (!was ==> !now && after == before)
    requires before != NO_PLAN ==> after == before
    ensures PlanFrom(hello, now, after)
  {
    hide FindSniAndEch;
    PlanForIsPlan(hello);
  }

  /** A plan that was made is a plan. */
  lemma PlanForIsPlan(hello: seq<byte>)
    ensures var r := FindSniAndEch(hello);
            r.Found? && (r.sniPos != -1 || r.echPos != -1) ==> PlanFor(r, |hello|) != NO_PLAN
  {
    hide FindSniAndEch;
  }

  lemma PopWritesNothing(steps: seq<Step>, n: int)
    requires 0 <= n < |steps| && !steps[n].Write?
    ensures Written(steps[..n + 1]) == Written(steps[..n])
  {
    assert steps[..n + 1][..n] == steps[..n];
  }

  ghost predicate SentOnce(frames: seq<CryptoFrame>, written: seq<byte>) {
    forall x :: 0 <= x < |written| ==> Times(frames, x) == 1
  }

  ghost predicate SentAll(frames: seq<CryptoFrame>, written: seq<byte>) {
    forall x :: 0 <= x < |written| ==> Times(frames, x) >= 1
  }

  /** No byte of `written` is in one of the parts. */
  ghost predicate Nowhere(again: seq<Cut>, written: seq<byte>) {
    forall x :: 0 <= x < |written| ==> Again(again, x) == 0
  }

  lemma PlannedOnce(p: Plan, frames: seq<CryptoFrame>, written: seq<byte>, again: seq<Cut>)
    requires PlanOk(p) && NonEmpty(p.a) && NonEmpty(p.b) && p.end <= |written|
    requires forall x :: 0 <= x < |written| ==> Times(frames, x) == Total(p, x) + Again(again, x)
    ensures Separated(p) && Nowhere(again, written) <==> SentOnce(frames, written)
  {
    hide Total, Separated, Again, Times;
    OnceIffSeparated(p);
    BeyondPlan(p);
  }

  lemma BeyondPlan(p: Plan)
    requires PlanOk(p)
    ensures forall x :: p.end <= x ==> Total(p, x) == 1
  {
  }

  /** What holds when a run is over. */
  lemma Finished(s: CryptoStream)
    requires RunOk(s)
    ensures Faithful(s.frames, s.written, s.plan)
    ensures s.plan != NO_PLAN ==> Planned(s.plan, s.written)
    ensures s.plan != NO_PLAN && !Live(s.plan.a) ==> s.scramble && s.frames == []
    ensures s.plan != NO_PLAN && !s.scramble ==> Live(s.plan.a) && NonEmpty(s.plan.a) && NonEmpty(s.plan.b)
    ensures forall x :: 0 <= x ==> Times(s.frames, x) <= Total(s.plan, x) + Again(s.again, x)
    ensures !s.scramble && s.writeBuf == [] ==>
      && SentAll(s.frames, s.written)
      && (Separated(s.plan) && Nowhere(s.again, s.written) <==> SentOnce(s.frames, s.written))
  {
    hide Faithful, Balance, Planned, FindSniAndEch, PlanFor, Total, Separated, InPass, Again, Nowhere, Times;
    s.AtMostPlanned();
    if !s.scramble && s.writeBuf == [] {
      s.AllSent();
      PlannedOnce(s.plan, s.frames, s.written, s.again);
    }
  }

  /** A plan that comes to an empty cut only after everything: its first cut is not empty, or the only one. */
  predicate EmptyLast(p: Plan) {
    Live(p.a) && (p.a.start < p.a.end || !Live(p.b))
  }

  /** Sending that comes to an empty cut has sent everything planned exactly if that cut comes last. */
  lemma SentBeforeEmptyCut(frames: seq<CryptoFrame>, p: Plan, a: Cut, b: Cut, written: seq<byte>,
                           again: seq<Cut>)
    requires PlanOk(p) && Live(p.a) && p.end <= |written|
    requires Remains(p.a, a) && Remains(p.b, b) && (Live(a) ==> b == p.b)
    requires Balance(frames, p, a, b, p.end, |written|, |written|, again) && AgainOk(again, p.end) && EmptyNext(a, b)
    requires p.a.start == p.a.end ==> again == [] && (Live(p.b) ==> SkipsB(p) && p.b.start < p.b.end)
    ensures SentAll(frames, written) <==> |written| == p.end && EmptyLast(p)
  {
    var len := |written|;
    if len == p.end && EmptyLast(p) {
      forall x | 0 <= x < len
        ensures Times(frames, x) >= 1
      {
        assert Accounted(frames, p, a, b, p.end, len, len, x) == Total(p, x) + Again(again, x);
      }
    } else {
      var x := if len > p.end then p.end else p.b.start;
      AgainBeyond(if len > p.end then again else [], p.end, Max(x, p.end));
      assert Accounted(frames, p, a, b, p.end, len, len, x) == Total(p, x) + Again(again, x);
      assert Times(frames, x) == 0;
    }
  }

  lemma EmptyIsPlanned(p: Plan, a: Cut, b: Cut)
    requires Remains(p.a, a) && Remains(p.b, b) && EmptyNext(a, b)
    ensures !(NonEmpty(p.a) && NonEmpty(p.b))
  {
  }

  /** Where an empty server name leaves the cuts. */
  lemma EmptyNameCuts(d: seq<byte>, r: Lookup)
    requires r.Found? && InBounds(d, r) && (r.sniPos != -1 || r.echPos != -1)
    ensures var p := PlanFor(r, |d|);
            && (Live(p.a) && p.a.start == p.a.end && Live(p.b) ==> SkipsB(p) && p.b.start < p.b.end)
            && (Live(p.a) && !(NonEmpty(p.a) && NonEmpty(p.b)) <==> r.sniPos != -1 && r.sniLen == 0)
            && (r.sniPos != -1 && r.sniLen == 0 ==> (EmptyLast(p) <==> r.echPos == -1 || r.echPos < r.sniPos))
  {
  }

  /** For what was found in the ClientHello: sending it ends with an empty server name, behind everything else. */
  predicate EndsEmpty(r: Lookup) {
    r.Found? && r.sniPos != -1 && r.sniLen == 0 && (r.echPos == -1 || r.echPos < r.sniPos)
  }

  /** Exactly when everything was sent, though the stream is not done. */
  lemma SentThoughStuck(s: CryptoStream, hello: seq<byte>)
    requires RunOk(s) && s.scramble && s.plan != NO_PLAN && (Live(s.plan.a) ==> AtEmptyCut(s)) && hello <= s.written
    requires var r := FindSniAndEch(hello);
             r.Found? && (r.sniPos != -1 || r.echPos != -1) && s.plan == PlanFor(r, |hello|)
    ensures SentAll(s.frames, s.written) <==> s.written == hello && EndsEmpty(FindSniAndEch(hello))
  {
    hide Faithful, Balance, FindSniAndEch, PlanFor, InPass, Planned, Remains, SkipsB;
    var r, p := FindSniAndEch(hello), s.plan;
    EmptyNameCuts(hello, r);
    SendableIff(hello, r);
    PlannedLong(p, s.written);
    PlanEnd(r, |hello|);
    assert |s.written| == |hello| ==> s.written == hello;
    if Live(p.a) {
      EmptyIsPlanned(p, s.cuts[0], s.cuts[1]);
      SentBeforeEmptyCut(s.frames, p, s.cuts[0], s.cuts[1], s.written, s.again);
    } else {
      assert Times(s.frames, 0) == 0;
    }
  }

  lemma PlanEnd(r: Lookup, len: int)
    requires r.Found?
    ensures PlanFor(r, len).end == len
  {
  }

  /**
   Every frame carries what was written at its offset.  Until the ClientHello is complete nothing
   is sent; then the plan is the one for its positions.  The stream finishes if and only if the
   server name is not empty (or, without one, the last other name has two bytes).  If it does not,
   everything is sent all the same if nothing follows the ClientHello and the empty name is behind
   all else that was cut; without any name nothing is ever sent.  A stream that finishes has sent
   every byte as often as planned, and the parts in `again` once more: so exactly once if and only
   if the cuts are separated and were not started over, which takes an empty write.
   */
  method Run(scramble: bool, steps: seq<Step>, budgets: nat -> int)
    returns (frames: seq<CryptoFrame>, written: seq<byte>, plan: Plan, again: seq<Cut>, drained: bool)
    requires forall i :: budgets(i) >= ENOUGH
    ensures written == Written(steps)
    ensures Faithful(frames, written, plan)
    ensures !scramble ==> drained && plan == NO_PLAN
    // before the ClientHello is complete
    ensures scramble && (forall k :: 0 <= k <= |steps| ==> !HelloAt(steps, k)) ==>
      frames == [] && plan == NO_PLAN && !drained
    // the plan, and what it means for the ClientHello
    ensures scramble ==> forall k :: 0 <= k <= |steps| && HelloAt(steps, k) ==>
      var hello := Written(steps[..k]);
      var r := FindSniAndEch(hello);
      if r.sniPos == -1 && r.echPos == -1 then drained && plan == NO_PLAN
      else
        && plan == PlanFor(r, |hello|)
        && (drained <==> r.sniLen >= (if r.sniPos == -1 then 2 else 1))
        && (SentAll(frames, written) <==> drained || (written == hello && EndsEmpty(r)))
        && (r.sniPos == -1 && r.sniLen < 2 ==> frames == [])
    // how often
    ensures forall x :: 0 <= x ==> Times(frames, x) <= Total(plan, x) + Again(again, x)
    ensures drained ==>
      SentAll(frames, written) && (SentOnce(frames, written) <==> Separated(plan) && Nowhere(again, written))
    ensures Write([]) !in steps ==> again == []
  {
    hide Faithful, Balance, Planned, FindSniAndEch, PlanFor, Total, Separated, InPass, SentAll, SentOnce, RunOk,
      PlanRight, AtEmptyCut, Again, Nowhere, EndsEmpty, Times;
    var s := Start(scramble);
    written := [];
    if scramble {
      NoPlanYet(steps);
    }
    for i := 0 to |steps|
      invariant fresh(s) && fresh(s.cuts) && RunOk(s) && s.tail == |s.written|
      invariant written == s.written == Written(steps[..i])
      invariant Write([]) !in steps[..i] ==> s.again == []
      invariant if scramble then PlanRight(steps, i, s.scramble, s.plan) else !s.scramble && s.plan == NO_PLAN
    {
      assert steps[..i + 1][..i] == steps[..i];
      ghost var was, before := s.scramble, s.plan;
      var _, _ := Take(s, steps[i]);
      if steps[i].Write? {
        written := written + steps[i].p;
      }
      if scramble {
        PlanStaysRight(steps, i, was, s.scramble, before, s.plan);
      }
    }
    assert steps[..|steps|] == steps;
    ghost var was := s.scramble;
    Drain(s, budgets);
    Finished(s);
    drained := !s.scramble && s.writeBuf == [];
    if scramble {
      Conclude(steps, was, s, drained);
      ConcludeSent(steps, was, s, drained);
    }
    return s.frames, written, s.plan, s.again, drained;
  }

  /** Whether everything was sent, once the stream was drained. */
  lemma ConcludeSent(steps: seq<Step>, was: bool, s: CryptoStream, drained: bool)
    requires PlanRight(steps, |steps|, was, s.plan) && RunOk(s) && drained == (!s.scramble && s.writeBuf == [])
    requires (!s.scramble ==> s.writeBuf == []) && s.written == Written(steps)
    requires s.scramble && s.plan != NO_PLAN && Live(s.plan.a) ==> AtEmptyCut(s)
    requires drained ==> SentAll(s.frames, s.written)
    ensures forall k :: 0 <= k <= |steps| && HelloAt(steps, k) ==>
      var hello := Written(steps[..k]);
      var r := FindSniAndEch(hello);
      r.sniPos != -1 || r.echPos != -1 ==>
        (SentAll(s.frames, s.written) <==> drained || (s.written == hello && EndsEmpty(r)))
  {
    hide FindSniAndEch, PlanFor, RunOk, Written, SentAll, EndsEmpty, AtEmptyCut;
    forall k | 0 <= k <= |steps| && HelloAt(steps, k)
      ensures var hello := Written(steps[..k]);
              var r := FindSniAndEch(hello);
              r.sniPos != -1 || r.echPos != -1 ==>
                (SentAll(s.frames, s.written) <==> drained || (s.written == hello && EndsEmpty(r)))
    {
      var hello := Written(steps[..k]);
      var r := FindSniAndEch(hello);
      if !drained && (r.sniPos != -1 || r.echPos != -1) {
        assert PlanFrom(hello, was, s.plan);
        PlanForIsPlan(hello);
        WrittenGrows(steps, k, |steps|);
        assert steps[..|steps|] == steps;
        SentThoughStuck(s, hello);
      }
    }
  }

  /** Pops until the first cut was sent. */
  method SendFirstCut(s: CryptoStream, budgets: nat -> int)
    requires RunOk(s) && s.tail == |s.written| && s.scramble && s.plan != NO_PLAN && forall i :: budgets(i) >= ENOUGH
    requires Live(s.plan.a) && NonEmpty(s.plan.a) && Live(s.plan.b) && s.cuts[0] == s.plan.a && s.cuts[1] == s.plan.b
    modifies s, s.cuts
    ensures RunOk(s) && s.tail == |s.written| && s.scramble && s.cuts[0] == NO_CUT && s.cuts[1] == s.plan.b
    ensures s.written == old(s.written) && s.again == old(s.again) && s.plan == old(s.plan)
  {
    hide Faithful, Balance, Planned, FindSniAndEch, PlanFor, InPass, CryptoStream.PlainOk;
    var i := 0;
    while Live(s.cuts[0])
      invariant RunOk(s) && s.tail == |s.written| && s.scramble && s.cuts[1] == s.plan.b
      invariant s.written == old(s.written) && s.again == old(s.again) && s.plan == old(s.plan)
      decreases s.Left()
    {
      LeftNat(s);
      EnoughFits(s.writeOffset, budgets(i));
      EnoughFits(s.cuts[0].start, budgets(i));
      var _ := s.PopCryptoFrame(budgets(i));
      i := i + 1;
    }
  }

  /**
   An empty write between the two cuts starts them over, for every ClientHello with a server name
   and an encrypted hello: every byte of the first cut is sent once more.
   */
  method EmptyWriteRepeats(hello: seq<byte>, budgets: nat -> int) returns (frames: seq<CryptoFrame>, plan: Plan)
    requires forall i :: budgets(i) >= ENOUGH
    requires var r := FindSniAndEch(hello);
             r.Found? && r.sniPos != -1 && r.sniLen > 0 && r.echPos != -1
    ensures plan == PlanFor(FindSniAndEch(hello), |hello|) && plan.a.start < plan.a.end
    ensures forall x :: 0 <= x < |hello| ==> Times(frames, x) == Total(plan, x) + One(Has(plan.a, x))
  {
    hide Faithful, Balance, Planned, FindSniAndEch, PlanFor, Total, InPass, Again, Times, CryptoStream.PlainOk;
    var s := WriteHello(hello);
    plan := s.plan;
    SendFirstCut(s, budgets);
    assert s.written + [] == hello;
    var _ := s.Write([]);
    Drain(s, budgets);
    s.AllSent();
    FirstCutAgain(plan);
    frames := s.frames;
  }

  method WriteHello(hello: seq<byte>) returns (s: CryptoStream)
    requires var r := FindSniAndEch(hello);
             r.Found? && r.sniPos != -1 && r.sniLen > 0 && r.echPos != -1
    ensures fresh(s) && fresh(s.cuts) && RunOk(s) && s.tail == |s.written| && s.written == hello && s.scramble
    ensures s.plan == PlanFor(FindSniAndEch(hello), |hello|) && s.plan != NO_PLAN && s.again == []
    ensures Live(s.plan.a) && Live(s.plan.b) && s.plan.a.start < s.plan.a.end && s.plan.b.start < s.plan.b.end
    ensures s.cuts[0] == s.plan.a && s.cuts[1] == s.plan.b
  {
    hide Faithful, Balance, Planned, FindSniAndEch, PlanFor, InPass, CryptoStream.PlainOk;
    s := Start(true);
    var _ := s.Write(hello);
    assert [] + hello == hello;
    BothCuts(hello, FindSniAndEch(hello));
    PlanForIsPlan(hello);
  }

  lemma FirstCutAgain(p: Plan)
    ensures forall x :: Again([] + [Used(p.a, NO_CUT), Used(p.b, p.b)], x) == One(Has(p.a, x))
  {
    forall x
      ensures Again([] + [Used(p.a, NO_CUT), Used(p.b, p.b)], x) == One(Has(p.a, x))
    {
      AgainAppend([], Used(p.a, NO_CUT), Used(p.b, p.b), x);
    }
  }

  /**
   With an empty server name the stream never finishes: it has data, and however often and with
   whatever budget one pops, nothing comes.
   */
  method EmptyNameNeverEnds(hello: seq<byte>, budgets: nat -> int, later: seq<int>)
    returns (frames: seq<CryptoFrame>, pops: seq<Option<CryptoFrame>>, hasData: bool)
    requires forall i :: budgets(i) >= ENOUGH
    requires var r := FindSniAndEch(hello);
             r.Found? && r.sniPos != -1 && r.sniLen == 0
    ensures hasData && |pops| == |later| && forall i :: 0 <= i < |pops| ==> pops[i].None?
    ensures SentAll(frames, hello) <==> EndsEmpty(FindSniAndEch(hello))
  {
    hide Faithful, Balance, Planned, FindSniAndEch, PlanFor, InPass, SentAll, EndsEmpty, CryptoStream.PlainOk;
    var s := Start(true);
    var _ := s.Write(hello);
    assert [] + hello == hello;
    PlanForIsPlan(hello);
    SendableIff(hello, FindSniAndEch(hello));
    PlannedLong(s.plan, s.written);
    Drain(s, budgets);
    Finished(s);
    SentThoughStuck(s, hello);
    frames := s.frames;
    pops, hasData := PopLater(s, later);
  }

  /** Nothing comes of an empty cut. */
  method PopLater(s: CryptoStream, later: seq<int>) returns (pops: seq<Option<CryptoFrame>>, hasData: bool)
    requires RunOk(s) && s.scramble && AtEmptyCut(s) && 0 < s.end <= |s.writeBuf|
    modifies s, s.cuts
    ensures hasData && |pops| == |later| && forall i :: 0 <= i < |pops| ==> pops[i].None?
  {
    hide Faithful, Balance, Planned, FindSniAndEch, PlanFor, InPass, CryptoStream.PlainOk;
    pops := [];
    for i := 0 to |later|
      invariant RunOk(s) && s.scramble && AtEmptyCut(s) && 0 < s.end <= |s.writeBuf|
      invariant |pops| == i && forall k :: 0 <= k < i ==> pops[k].None?
    {
      var f := s.PopCryptoFrame(later[i]);
      pops := pops + [f];
    }
    hasData := s.HasData();
  }

  lemma BothCuts(d: seq<byte>, r: Lookup)
    requires r.Found? && InBounds(d, r) && r.sniPos != -1 && r.sniLen > 0 && r.echPos != -1
    ensures var p := PlanFor(r, |d|);
            p.a.start < p.a.end && p.b.start < p.b.end && Live(p.a) && Live(p.b)
  {
  }

  lemma NoPlanYet(steps: seq<Step>)
    ensures PlanRight(steps, 0, true, NO_PLAN)
  {
  }

  /** What the plan means for the ClientHello, once the stream was drained. */
  lemma Conclude(steps: seq<Step>, was: bool, s: CryptoStream, drained: bool)
    requires PlanRight(steps, |steps|, was, s.plan) && RunOk(s) && drained == (!s.scramble && s.writeBuf == [])
    requires (s.scramble ==> was) && (!s.scramble ==> s.writeBuf == []) && (was && s.plan == NO_PLAN ==> s.scramble)
    requires s.plan != NO_PLAN ==> (drained <==> Live(s.plan.a) && NonEmpty(s.plan.a) && NonEmpty(s.plan.b))
    requires s.plan != NO_PLAN && !Live(s.plan.a) ==> s.frames == []
    ensures (forall k :: 0 <= k <= |steps| ==> !HelloAt(steps, k)) ==> s.frames == [] && s.plan == NO_PLAN && !drained
    ensures forall k :: 0 <= k <= |steps| && HelloAt(steps, k) ==>
      var r := FindSniAndEch(Written(steps[..k]));
      if r.sniPos == -1 && r.echPos == -1 then drained && s.plan == NO_PLAN
      else
        && s.plan == PlanFor(r, |Written(steps[..k])|)
        && (drained <==> r.sniLen >= (if r.sniPos == -1 then 2 else 1))
        && (r.sniPos == -1 && r.sniLen < 2 ==> s.frames == [])
  {
    hide FindSniAndEch, PlanFor, Balance, Faithful, InPass, Written;
    NoPlan(s.written);
    forall k | 0 <= k <= |steps| && HelloAt(steps, k)
      ensures var h := Written(steps[..k]);
              PlanFrom(h, was, s.plan) && InBounds(h, FindSniAndEch(h))
    {
    }
    forall k | 0 <= k <= |steps| && HelloAt(steps, k)
      ensures var h := Written(steps[..k]);
              var r := FindSniAndEch(h);
              (r.sniPos == -1 && r.echPos == -1) || (PlanFor(r, |h|) != NO_PLAN && SendableAt(h, r))
    {
      PlanForIsPlan(Written(steps[..k]));
      SendableIff(Written(steps[..k]), FindSniAndEch(Written(steps[..k])));
    }
  }

  // ---------------------------------------------------------------- delivery

  /** A pop yields something if the next byte was pushed. */
  lemma PopYields(ops: seq<Reassembly.Op>, outs: seq<seq<byte>>, pushes: nat, i: nat)
    requires pushes <= i < |ops| == |outs| && Reassembly.PopsRight(ops, outs) && ops[i].PopOp?
    requires Reassembly.PushedWithin(ops, pushes, |Reassembly.Concat(outs[..i])|)
    ensures |Reassembly.Concat(outs[..i + 1])| > |Reassembly.Concat(outs[..i])|
  {
    hide Reassembly.Concat;
    assert Reassembly.PushedWithin(ops, i, |Reassembly.Concat(outs[..i])|);
    Reassembly.ConcatAppend(outs[..i], outs[i]);
    assert outs[..i + 1] == outs[..i] + [outs[i]];
  }

  /** After all pushes, every pop yields something until everything was popped. */
  lemma {:induction false} PopsAll(ops: seq<Reassembly.Op>, outs: seq<seq<byte>>, pushes: nat, stream: seq<byte>,
                                   j: nat)
    requires pushes + j <= |ops| == |outs| && Reassembly.PopsRight(ops, outs)
    requires forall i :: pushes <= i < |ops| ==> ops[i].PopOp?
    requires forall x :: 0 <= x < |stream| ==> Reassembly.PushedWithin(ops, pushes, x)
    ensures |Reassembly.Concat(outs[..pushes + j])| >= Min(j, |stream|)
  {
    hide Reassembly.Concat, Reassembly.PopsRight, Reassembly.PushedWithin;
    if j > 0 {
      PopsAll(ops, outs, pushes, stream, j - 1);
      var i := pushes + j - 1;
      if |Reassembly.Concat(outs[..i])| < |stream| {
        PopYields(ops, outs, pushes, i);
      } else {
        Reassembly.ConcatAppend(outs[..i], outs[i]);
        assert outs[..i + 1] == outs[..i] + [outs[i]];
      }
    }
  }

  function Deliveries(frames: seq<CryptoFrame>, pops: nat): seq<Reassembly.Op> {
    seq(|frames|, i requires 0 <= i < |frames| => Reassembly.PushOp(frames[i].offset, |frames[i].data|, None))
    + seq(pops, _ => Reassembly.PopOp)
  }

  lemma DeliveriesShape(frames: seq<CryptoFrame>, pops: nat)
    ensures var ops := Deliveries(frames, pops);
            |ops| == |frames| + pops && forall i :: |frames| <= i < |ops| ==> ops[i].PopOp?
  {
  }

  lemma {:induction false} DeliveryPushes(frames: seq<CryptoFrame>, pops: nat, n: nat)
    requires n <= |frames| + pops
    ensures Reassembly.NumPushes(Deliveries(frames, pops), n) <= |frames|
    ensures n <= |frames| ==> Reassembly.NumPushes(Deliveries(frames, pops), n) <= n
  {
    if n > 0 {
      DeliveryPushes(frames, pops, n - 1);
    }
  }

  lemma SentIsPushed(frames: seq<CryptoFrame>, order: seq<CryptoFrame>, pops: nat, x: int)
    requires Times(frames, x) >= 1 && forall f :: f in frames ==> f in order
    ensures Reassembly.PushedWithin(Deliveries(order, pops), |order|, x)
  {
    var i := CarriedBy(frames, x);
    assert frames[i] in order;
    var j :| 0 <= j < |order| && order[j] == frames[i];
    assert Deliveries(order, pops)[j].PushOp?;
  }

  lemma CarriedBy(frames: seq<CryptoFrame>, x: int) returns (i: int)
    requires Times(frames, x) >= 1
    ensures 0 <= i < |frames| && frames[i].offset <= x < frames[i].offset + |frames[i].data|
  {
    var n := |frames| - 1;
    if frames[n].offset <= x < frames[n].offset + |frames[n].data| {
      i := n;
    } else {
      i := CarriedBy(frames[..n], x);
    }
  }

  /**
   Pushing the frames of a run into a frame sorter, in any order and any of them repeatedly, and
   popping, yields exactly what was written; fewer than 20000 frames are never refused.
   */
  method Deliver(frames: seq<CryptoFrame>, order: seq<CryptoFrame>, written: seq<byte>, plan: Plan)
    returns (ok: bool, data: seq<byte>)
    requires |written| <= MAX_BYTE_COUNT && Faithful(frames, written, plan) && SentAll(frames, written)
    requires (forall f :: f in frames ==> f in order) && (forall f :: f in order ==> f in frames)
    ensures ok ==> data == written
    ensures |order| < MAX_STREAM_FRAME_SORTER_GAPS ==> ok
  {
    hide Deliveries, SentAll, Faithful, Reassembly.PopsRight, Reassembly.Concat, Reassembly.PushedWithin,
      Reassembly.CutFrom,
      Reassembly.Issued, Reassembly.NumPushes, FrameSorting.Holders;
    var ops := Deliveries(order, |written|);
    DeliveriesShape(order, |written|);
    DeliveryPushes(order, |written|, |ops|);
    Reordered(frames, order, written, plan);
    var outs, called, handed, queue;
    ok, outs, called, handed, queue := Reassembly.Reassemble(written, ops);
    data := Reassembly.Concat(outs);
    if ok {
      PopsAll(ops, outs, |order|, written, |written|);
      assert outs[..|order| + |written|] == outs;
    }
  }

  lemma Reordered(frames: seq<CryptoFrame>, order: seq<CryptoFrame>, written: seq<byte>, plan: Plan)
    requires Faithful(frames, written, plan) && SentAll(frames, written)
    requires (forall f :: f in frames ==> f in order) && (forall f :: f in order ==> f in frames)
    ensures Reassembly.CutFrom(Deliveries(order, |written|), written)
    ensures forall x :: 0 <= x < |written| ==> Reassembly.PushedWithin(Deliveries(order, |written|), |order|, x)
  {
    forall i | 0 <= i < |order|
      ensures Carries(order[i], written)
    {
      assert order[i] in frames;
      var j :| 0 <= j < |frames| && frames[j] == order[i];
      assert Carries(frames[j], written);
    }
    forall x | 0 <= x < |written|
      ensures Reassembly.PushedWithin(Deliveries(order, |written|), |order|, x)
    {
      SentIsPushed(frames, order, |written|, x);
    }
  }
}
