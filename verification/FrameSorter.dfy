/**
 Reassembly of a stream from frames that arrive out of order, overlapping and repeated.

 The state is a map from start offset to stored frame and a tree of gaps.  The values are
 related by `Partition`: bytes already popped, stored frames and gaps tile the offset space.
 */
module FrameSorting {
  import opened Protocol
  import opened GapTree

  /** Names a buffer-release callback; the code only ever invokes or stores it. */
  type Callback = nat

  datatype Entry = Entry(data: seq<byte>, doneCb: Option<Callback>)

  datatype PushResult = Pushed | Duplicate | TooManyGaps

  // ---------------------------------------------------------------- pure view

  ghost function End(q: map<int, Entry>, k: int): (e: int)
    requires k in q
  {
    k + |q[k].data|
  }

  /** Stored frames are non-empty, disjoint and below the maximum offset. */
  ghost predicate EntriesApart(q: map<int, Entry>) {
    && (forall k {:trigger End(q, k)} :: k in q ==> k < End(q, k) <= MAX_BYTE_COUNT)
    && (forall k, l {:trigger End(q, k), End(q, l)} :: k in q && l in q && k < l ==> End(q, k) <= l)
  }

  ghost predicate GapsApart(gs: set<ByteInterval>) {
    Separated(gs) && forall g :: g in gs ==> g.end <= MAX_BYTE_COUNT
  }

  /** Nothing is stored or missing below `readPos`. */
  ghost predicate Unread(q: map<int, Entry>, gs: set<ByteInterval>, readPos: int) {
    && (forall k :: k in q ==> readPos <= k)
    && (forall g :: g in gs ==> readPos <= g.start)
  }

  ghost predicate EntriesOffGaps(q: map<int, Entry>, gs: set<ByteInterval>) {
    forall k, g {:trigger End(q, k), g in gs} :: k in q && g in gs ==> End(q, k) <= g.start || g.end <= k
  }

  ghost predicate GapAt(gs: set<ByteInterval>, p: int) {
    exists g :: g in gs && g.start == p
  }

  /** Something begins at `p`: a stored frame, a gap, or the end of the offset space. */
  ghost predicate Border(q: map<int, Entry>, gs: set<ByteInterval>, p: int) {
    p == MAX_BYTE_COUNT || p in q || GapAt(gs, p)
  }

  /** Whatever ends, the next piece begins right there, starting from `readPos`. */
  ghost predicate Tiled(q: map<int, Entry>, gs: set<ByteInterval>, readPos: int) {
    && Border(q, gs, readPos)
    && (forall k {:trigger Border(q, gs, End(q, k))} :: k in q ==> Border(q, gs, End(q, k)))
    && (forall g {:trigger Border(q, gs, g.end)} :: g in gs ==> Border(q, gs, g.end))
  }

  ghost predicate Partition(q: map<int, Entry>, gs: set<ByteInterval>, readPos: int) {
    && 0 <= readPos <= MAX_BYTE_COUNT
    && EntriesApart(q)
    && GapsApart(gs)
    && EntriesOffGaps(q, gs)
    && Unread(q, gs, readPos)
    && Tiled(q, gs, readPos)
  }

  ghost predicate Missing(gs: set<ByteInterval>, x: int) {
    exists g :: g in gs && g.start <= x < g.end
  }

  ghost predicate HeldBy(q: map<int, Entry>, k: int, x: int) {
    k in q && k <= x < End(q, k)
  }

  /** The gaps `gs` minus [s, e); `sg` and `eg` are the gaps `s` and `e` may fall into. */
  ghost predicate Subtracted(gs: set<ByteInterval>, gs': set<ByteInterval>, s: int, e: int,
                             sg: ByteInterval, eg: ByteInterval)
  {
    && sg in gs && eg in gs
    && (forall g :: g in gs && (g.end <= s || e <= g.start) ==> g in gs')
    && (sg.start < s < sg.end ==> ByteInterval(sg.start, s) in gs')
    && (eg.start < e < eg.end ==> ByteInterval(e, eg.end) in gs')
    && (forall h :: h in gs' ==>
          || (h in gs && (h.end <= s || e <= h.start))
          || (h == ByteInterval(sg.start, s) && sg.start < s < sg.end)
          || (h == ByteInterval(e, eg.end) && eg.start < e < eg.end))
    && (forall g :: g in gs && g.start < s < g.end ==> g == sg)
    && (forall g :: g in gs && g.start < e < g.end ==> g == eg)
  }

  /** The frames `q` with everything inside [s, e) replaced by one frame starting at `s`. */
  ghost predicate Replaced(q: map<int, Entry>, q': map<int, Entry>, s: int, e: int, entry: Entry) {
    && (forall k :: k in q ==> End(q, k) <= s || e <= k || (s <= k && End(q, k) <= e))
    && (forall k :: k in q' <==> k == s || (k in q && !(s <= k < e)))
    && (forall k :: k in q' && k != s ==> k in q && q'[k] == q[k])
    && q'[s] == entry
  }

  lemma FillEntries(q: map<int, Entry>, q': map<int, Entry>, s: int, e: int, entry: Entry)
    requires EntriesApart(q) && Replaced(q, q', s, e, entry)
    requires s < e <= MAX_BYTE_COUNT && |entry.data| == e - s
    ensures EntriesApart(q')
  {
    forall k | k in q'
      ensures k < End(q', k) <= MAX_BYTE_COUNT
    {
      assert k != s ==> k < End(q, k) <= MAX_BYTE_COUNT;
    }
    forall k, l | k in q' && l in q' && k < l
      ensures End(q', k) <= l
    {
      if k != s && l != s {
        assert End(q, k) <= l by { assert k in q && l in q && l < End(q, l); }
      } else if k != s {
        assert k in q && k < End(q, k);
      }
    }
  }

  lemma FillGaps(gs: set<ByteInterval>, gs': set<ByteInterval>, s: int, e: int,
                 sg: ByteInterval, eg: ByteInterval)
    requires GapsApart(gs) && Subtracted(gs, gs', s, e, sg, eg)
    requires s < e <= MAX_BYTE_COUNT
    ensures GapsApart(gs')
  {
  }

  lemma FillOffGaps(q: map<int, Entry>, gs: set<ByteInterval>, q': map<int, Entry>, gs': set<ByteInterval>,
                    s: int, e: int, entry: Entry, sg: ByteInterval, eg: ByteInterval)
    requires EntriesOffGaps(q, gs) && Separated(gs)
    requires Replaced(q, q', s, e, entry) && Subtracted(gs, gs', s, e, sg, eg)
    requires s < e && |entry.data| == e - s
    ensures EntriesOffGaps(q', gs')
  {
    forall k, h | k in q' && h in gs'
      ensures End(q', k) <= h.start || h.end <= k
    {
      if k != s {
        assert k in q;
        assert End(q, k) <= sg.start || sg.end <= k;
        assert End(q, k) <= eg.start || eg.end <= k;
      }
    }
  }

  /** A border outside (s, e) stays a border. */
  lemma BorderKept(q: map<int, Entry>, gs: set<ByteInterval>, q': map<int, Entry>, gs': set<ByteInterval>,
                   s: int, e: int, entry: Entry, sg: ByteInterval, eg: ByteInterval, p: int)
    requires Replaced(q, q', s, e, entry) && Subtracted(gs, gs', s, e, sg, eg)
    requires Separated(gs) && s < e
    requires Border(q, gs, p) && (p <= s || e <= p)
    ensures Border(q', gs', p)
  {
    if GapAt(gs, p) && p != s {
      var g :| g in gs && g.start == p;
      if g.end <= s || e <= g.start {
        assert g in gs';
      } else {
        assert ByteInterval(sg.start, s) in gs' || g.end <= s;
      }
    }
  }

  /** The position right after the new frame is a border. */
  lemma BorderAtEnd(q: map<int, Entry>, gs: set<ByteInterval>, q': map<int, Entry>, gs': set<ByteInterval>,
                    s: int, e: int, entry: Entry, sg: ByteInterval, eg: ByteInterval)
    requires Replaced(q, q', s, e, entry) && Subtracted(gs, gs', s, e, sg, eg)
    requires Separated(gs) && s < e
    requires Border(q, gs, e) || Missing(gs, e)
    ensures Border(q', gs', e)
  {
    if Border(q, gs, e) {
      BorderKept(q, gs, q', gs', s, e, entry, sg, eg, e);
    } else {
      var g :| g in gs && g.start <= e < g.end;
      assert g.start != e && g == eg && ByteInterval(e, eg.end) in gs';
    }
  }

  lemma BorderAfterGap(q: map<int, Entry>, gs: set<ByteInterval>, q': map<int, Entry>, gs': set<ByteInterval>,
                       s: int, e: int, entry: Entry, sg: ByteInterval, eg: ByteInterval, h: ByteInterval)
    requires Replaced(q, q', s, e, entry) && Subtracted(gs, gs', s, e, sg, eg)
    requires Separated(gs) && s < e
    requires forall g {:trigger Border(q, gs, g.end)} :: g in gs ==> Border(q, gs, g.end)
    requires h in gs'
    ensures Border(q', gs', h.end)
  {
    if h.end != s {
      var g := if h in gs && (h.end <= s || e <= h.start) then h else eg;
      assert g in gs && g.end == h.end;
      BorderKept(q, gs, q', gs', s, e, entry, sg, eg, h.end);
    }
  }

  lemma BorderAfterEntry(q: map<int, Entry>, gs: set<ByteInterval>, q': map<int, Entry>, gs': set<ByteInterval>,
                         s: int, e: int, entry: Entry, sg: ByteInterval, eg: ByteInterval, k: int)
    requires Replaced(q, q', s, e, entry) && Subtracted(gs, gs', s, e, sg, eg)
    requires Separated(gs) && s < e && |entry.data| == e - s
    requires Border(q', gs', e)
    requires forall k {:trigger Border(q, gs, End(q, k))} :: k in q ==> Border(q, gs, End(q, k))
    requires forall k {:trigger End(q, k)} :: k in q ==> k < End(q, k)
    requires k in q'
    ensures Border(q', gs', End(q', k))
  {
    if k != s {
      assert k in q && End(q', k) == End(q, k);
      BorderKept(q, gs, q', gs', s, e, entry, sg, eg, End(q, k));
    }
  }

  lemma FillTiled(q: map<int, Entry>, gs: set<ByteInterval>, readPos: int,
                  q': map<int, Entry>, gs': set<ByteInterval>,
                  s: int, e: int, entry: Entry, sg: ByteInterval, eg: ByteInterval)
    requires Tiled(q, gs, readPos) && EntriesApart(q) && Separated(gs)
    requires readPos <= s < e && |entry.data| == e - s
    requires Replaced(q, q', s, e, entry)
    requires Subtracted(gs, gs', s, e, sg, eg)
    requires Border(q, gs, e) || Missing(gs, e)
    ensures Tiled(q', gs', readPos)
  {
    BorderKept(q, gs, q', gs', s, e, entry, sg, eg, readPos);
    BorderAtEnd(q, gs, q', gs', s, e, entry, sg, eg);
    forall k | k in q'
      ensures Border(q', gs', End(q', k))
    {
      BorderAfterEntry(q, gs, q', gs', s, e, entry, sg, eg, k);
    }
    forall h | h in gs'
      ensures Border(q', gs', h.end)
    {
      BorderAfterGap(q, gs, q', gs', s, e, entry, sg, eg, h);
    }
  }

  lemma FillMissing(gs: set<ByteInterval>, gs': set<ByteInterval>, s: int, e: int,
                    sg: ByteInterval, eg: ByteInterval, x: int)
    requires Subtracted(gs, gs', s, e, sg, eg) && s < e
    ensures Missing(gs', x) <==> Missing(gs, x) && !(s <= x < e)
  {
    if Missing(gs, x) && !(s <= x < e) {
      var g :| g in gs && g.start <= x < g.end;
      if g.end <= s || e <= g.start {
        assert g in gs';
      } else if x < s {
        assert g == sg && ByteInterval(sg.start, s) in gs';
      } else {
        assert g == eg && ByteInterval(e, eg.end) in gs';
      }
    }
    if Missing(gs', x) {
      var h :| h in gs' && h.start <= x < h.end;
      assert h in gs || h.end == s || h.start == e;
      assert sg in gs && eg in gs;
    }
  }

  /** Filling [s, e) with one frame keeps the partition, provided no stored frame straddles a cut. */
  lemma FillKeepsPartition(q: map<int, Entry>, gs: set<ByteInterval>, readPos: int,
                           q': map<int, Entry>, gs': set<ByteInterval>,
                           s: int, e: int, entry: Entry, sg: ByteInterval, eg: ByteInterval)
    requires Partition(q, gs, readPos)
    requires readPos <= s < e <= MAX_BYTE_COUNT && |entry.data| == e - s
    requires Replaced(q, q', s, e, entry)
    requires Subtracted(gs, gs', s, e, sg, eg)
    requires Border(q, gs, e) || Missing(gs, e)
    ensures Partition(q', gs', readPos)
    ensures forall x :: Missing(gs', x) <==> Missing(gs, x) && !(s <= x < e)
  {
    FillEntries(q, q', s, e, entry);
    FillGaps(gs, gs', s, e, sg, eg);
    FillOffGaps(q, gs, q', gs', s, e, entry, sg, eg);
    FillTiled(q, gs, readPos, q', gs', s, e, entry, sg, eg);
    forall x
      ensures Missing(gs', x) <==> Missing(gs, x) && !(s <= x < e)
    {
      FillMissing(gs, gs', s, e, sg, eg, x);
    }
  }

  /** Every offset from a border on is missing or held by a stored frame. */
  lemma {:induction false} Covered(q: map<int, Entry>, gs: set<ByteInterval>, readPos: int, p: int, x: int)
    requires Partition(q, gs, readPos)
    requires Border(q, gs, p) && p <= x < MAX_BYTE_COUNT
    ensures Missing(gs, x) || exists k :: HeldBy(q, k, x)
    decreases MAX_BYTE_COUNT - p
  {
    if p in q {
      if x < End(q, p) {
        assert HeldBy(q, p, x);
      } else {
        Covered(q, gs, readPos, End(q, p), x);
      }
    } else {
      var g :| g in gs && g.start == p;
      if g.end <= x {
        Covered(q, gs, readPos, g.end, x);
      }
    }
  }

  // ---------------------------------------------------------------- callbacks

  /** Keys of the stored frames that hold callback `c`. */
  ghost function Holders(q: map<int, Entry>, c: Callback): (s: set<int>) {
    set k | k in q && q[k].doneCb == Some(c)
  }

  function One(cb: Option<Callback>): (m: multiset<Callback>) {
    if cb.Some? then multiset{cb.value} else multiset{}
  }

  lemma HoldersRemove(q: map<int, Entry>, k: int, c: Callback)
    requires k in q
    ensures |Holders(q - {k}, c)| == |Holders(q, c)| - One(q[k].doneCb)[c]
  {
    assert Holders(q - {k}, c) == Holders(q, c) - {k};
  }

  lemma HoldersAdd(q: map<int, Entry>, k: int, e: Entry, c: Callback)
    requires k !in q
    ensures |Holders(q[k := e], c)| == |Holders(q, c)| + One(e.doneCb)[c]
  {
    if e.doneCb == Some(c) {
      assert Holders(q[k := e], c) == Holders(q, c) + {k};
    } else {
      assert Holders(q[k := e], c) == Holders(q, c);
    }
  }

  /** `q` without the frames starting in [a, b). */
  ghost function Without(q: map<int, Entry>, a: int, b: int): (r: map<int, Entry>) {
    q - (set k | k in q && a <= k < b)
  }

  /** `q'` is `q` without its unbroken run of frames covering [start, stop). */
  ghost predicate RunRemoved(q: map<int, Entry>, q': map<int, Entry>, gs: set<ByteInterval>, start: int, stop: int) {
    && start <= stop
    && q' == Without(q, start, stop)
    && (stop == start || exists k :: k in q && start <= k && End(q, k) == stop)
    && (forall k :: k in q && start <= k < stop ==> End(q, k) <= stop)
    && (forall g :: g in gs ==> stop <= g.start || g.start < start)
  }

  lemma RunStep(q: map<int, Entry>, q': map<int, Entry>, gs: set<ByteInterval>, start: int, pos: int)
    requires RunRemoved(q, q', gs, start, pos) && pos in q && pos < End(q, pos)
    requires Separated(gs) && EntriesOffGaps(q, gs)
    requires forall k, l {:trigger End(q, k), End(q, l)} :: k in q && l in q && k < l ==> End(q, k) <= l
    ensures RunRemoved(q, q' - {pos}, gs, start, End(q, pos))
  {
    forall k | k in q && start <= k < End(q, pos)
      ensures End(q, k) <= End(q, pos) && (k < pos || k == pos)
    {
    }
    assert Without(q, start, End(q, pos)) == q' - {pos};
  }

  /** `gaps` is an ascending stretch of `gs` without omissions. */
  ghost predicate InOrder(gs: set<ByteInterval>, gaps: seq<ByteInterval>) {
    && (forall i :: 0 <= i < |gaps| ==> gaps[i] in gs)
    && (forall i, j :: 0 <= i < j < |gaps| ==> gaps[i].end < gaps[j].start)
    && (forall g, i, j :: g in gs && 0 <= i && j == i + 1 && j < |gaps| ==>
          g.start <= gaps[i].start || gaps[j].start <= g.start)
  }

  /** Between neighbouring gaps the frames still form unbroken runs (or are all gone, after the first gap). */
  ghost predicate RunsBetween(q: map<int, Entry>, gs: set<ByteInterval>, gaps: seq<ByteInterval>)
    requires |gaps| > 1
  {
    && (forall k {:trigger Border(q, gs, End(q, k))} :: k in q && gaps[0].end <= k ==> Border(q, gs, End(q, k)))
    && (forall i {:trigger Border(q, gs, gaps[i].end)} :: 0 < i < |gaps| ==> Border(q, gs, gaps[i].end))
    && (Border(q, gs, gaps[0].end) || forall k :: k in q && gaps[0].end <= k ==> gaps[1].start <= k)
  }

  lemma RunReachesNextGap(q: map<int, Entry>, q': map<int, Entry>, gs: set<ByteInterval>,
                          gaps: seq<ByteInterval>, i: int, stop: int)
    requires Separated(gs) && InOrder(gs, gaps) && 0 <= i < |gaps| - 1
    requires EntriesOffGaps(q, gs)
    requires forall k {:trigger Border(q, gs, End(q, k))} :: k in q && gaps[i].end <= k ==> Border(q, gs, End(q, k))
    requires forall k {:trigger End(q, k)} :: k in q ==> k < End(q, k)
    requires Border(q, gs, gaps[i].end) || forall k :: k in q && gaps[i].end <= k ==> gaps[i + 1].start <= k
    requires RunRemoved(q, q', gs, gaps[i].end, stop) && stop !in q
    requires gaps[i + 1].end <= MAX_BYTE_COUNT
    ensures q' == Without(q, gaps[i].end, gaps[i + 1].start)
  {
    assert gaps[i + 1] in gs && stop <= gaps[i + 1].start;
    if Border(q, gs, gaps[i].end) {
      assert Border(q, gs, stop);
      var g :| g in gs && g.start == stop;
      assert stop == gaps[i + 1].start;
    }
  }

  lemma RunsBetweenShrink(q: map<int, Entry>, q': map<int, Entry>, gs: set<ByteInterval>,
                          gaps: seq<ByteInterval>, i: int)
    requires |gaps| > 1 && RunsBetween(q, gs, gaps) && InOrder(gs, gaps) && 0 < i < |gaps|
    requires Separated(gs)
    requires forall k {:trigger End(q, k)} :: k in q ==> k < End(q, k)
    requires q' == Without(q, gaps[0].end, gaps[i].start)
    ensures forall k {:trigger Border(q', gs, End(q', k))} :: k in q' && gaps[i].end <= k ==> Border(q', gs, End(q', k))
    ensures Border(q', gs, gaps[i].end)
  {
    assert gaps[i] in gs;
    assert Border(q, gs, gaps[i].end);
    forall k | k in q' && gaps[i].end <= k
      ensures Border(q', gs, End(q', k))
    {
      assert k in q && Border(q, gs, End(q, k)) && End(q, k) == End(q', k);
    }
  }

  lemma FewerEntries(q: map<int, Entry>, q': map<int, Entry>, gs: set<ByteInterval>)
    requires EntriesApart(q) && EntriesOffGaps(q, gs)
    requires forall k :: k in q' ==> k in q && q'[k] == q[k]
    ensures EntriesApart(q') && EntriesOffGaps(q', gs)
  {
    forall k | k in q'
      ensures End(q', k) == End(q, k)
    {
    }
  }

  /** The gaps lying strictly between `a` and `b`. */
  ghost function Within(gs: set<ByteInterval>, a: ByteInterval, b: ByteInterval): (s: set<ByteInterval>) {
    set g | g in gs && a.start < g.start < b.start
  }

  lemma WithinFirst(gs: set<ByteInterval>, gaps: seq<ByteInterval>)
    requires InOrder(gs, gaps) && |gaps| > 1
    ensures Within(gs, gaps[0], gaps[1]) == {}
  {
  }

  lemma LastInOrder(gs: set<ByteInterval>, gaps: seq<ByteInterval>, i: int)
    requires InOrder(gs, gaps) && 0 <= i < |gaps|
    requires gaps[|gaps| - 1].start <= gaps[i].end
    ensures i == |gaps| - 1
  {
  }

  lemma WithinStep(gs: set<ByteInterval>, gaps: seq<ByteInterval>, i: int)
    requires InOrder(gs, gaps) && Separated(gs) && 0 < i < |gaps| - 1
    ensures Within(gs, gaps[0], gaps[i + 1]) == Within(gs, gaps[0], gaps[i]) + {gaps[i]}
  {
    assert gaps[0] in gs && gaps[i] in gs && gaps[0].end < gaps[i].start && gaps[i].end < gaps[i + 1].start;
  }

  lemma RemoveTwice(q0: map<int, Entry>, q1: map<int, Entry>, q2: map<int, Entry>, gs: set<ByteInterval>,
                    gaps: seq<ByteInterval>, i: int)
    requires InOrder(gs, gaps) && Separated(gs) && EntriesOffGaps(q0, gs) && 0 <= i < |gaps| - 1
    requires forall k {:trigger End(q0, k)} :: k in q0 ==> k < End(q0, k)
    requires q1 == Without(q0, gaps[0].end, gaps[i].start)
    requires q2 == Without(q1, gaps[i].end, gaps[i + 1].start)
    ensures q2 == Without(q0, gaps[0].end, gaps[i + 1].start)
  {
    assert gaps[i] in gs;
    forall k | k in q0 && gaps[0].end <= k < gaps[i + 1].start
      ensures k !in q2
    {
      assert End(q0, k) <= gaps[i].start || gaps[i].end <= k;
    }
  }

  /** The situation in which the stretch between the first and last of `gaps` can be cleared. */
  ghost predicate Clearable(q: map<int, Entry>, gs: set<ByteInterval>, gaps: seq<ByteInterval>) {
    && |gaps| > 1 && InOrder(gs, gaps)
    && EntriesApart(q) && GapsApart(gs) && EntriesOffGaps(q, gs)
    && RunsBetween(q, gs, gaps)
  }

  /** From `q`, `v` to `q'`, `v'`: frames and gaps between gap 0 and gap `i` are gone, nothing else. */
  ghost predicate Cleared(q: map<int, Entry>, v: set<ByteInterval>, q': map<int, Entry>, v': set<ByteInterval>,
                          gs: set<ByteInterval>, gaps: seq<ByteInterval>, i: int)
    requires 0 <= i < |gaps|
  {
    && q' == Without(q, gaps[0].end, gaps[i].start)
    && v' == v - Within(gs, gaps[0], gaps[i])
  }

  // ---------------------------------------------------------------- one push, case by case

  /** A frame [start, end) that matches `gaps` and is not obviously old. */
  ghost predicate Situated(q: map<int, Entry>, gs: set<ByteInterval>, gaps: seq<ByteInterval>, start: int, end: int) {
    && EntriesApart(q) && GapsApart(gs) && EntriesOffGaps(q, gs)
    && (forall k {:trigger Border(q, gs, End(q, k))} :: k in q ==> Border(q, gs, End(q, k)))
    && (forall g {:trigger Border(q, gs, g.end)} :: g in gs ==> Border(q, gs, g.end))
    && 0 <= start < end <= MAX_BYTE_COUNT
    && |gaps| > 0 && InOrder(gs, gaps)
    && (forall g :: g in gs && Touches(g, ByteInterval(start, end)) ==>
          gaps[0].start <= g.start <= gaps[|gaps| - 1].start)
    && (forall i :: 0 <= i < |gaps| ==> Touches(gaps[i], ByteInterval(start, end)))
    && (|gaps| == 1 ==> gaps[0].start < end)
  }

  lemma FirstGap(q: map<int, Entry>, gs: set<ByteInterval>, gaps: seq<ByteInterval>, start: int, end: int)
    requires Situated(q, gs, gaps, start, end)
    ensures |gaps| > 0 && gaps[0] in gs
  {
  }

  lemma MatchesSkipNothing(gs: set<ByteInterval>, c: ByteInterval, gaps: seq<ByteInterval>, g: ByteInterval, i: int)
    requires Separated(gs) && Matches(gs, c, gaps) && 0 <= i < |gaps| - 1 && g in gs
    requires gaps[i] in gs && gaps[i + 1] in gs && Touches(gaps[i], c) && Touches(gaps[i + 1], c)
    ensures g.start <= gaps[i].start || gaps[i + 1].start <= g.start
  {
  }

  lemma MatchesBounds(gs: set<ByteInterval>, c: ByteInterval, gaps: seq<ByteInterval>, g: ByteInterval)
    requires Separated(gs) && Matches(gs, c, gaps) && |gaps| > 0
    requires g in gs && Touches(g, c)
    ensures gaps[0].start <= g.start <= gaps[|gaps| - 1].start
  {
    var m :| 0 <= m < |gaps| && gaps[m] == g;
    assert m == 0 || Less(gaps[0], gaps[m]);
    assert m == |gaps| - 1 || Less(gaps[m], gaps[|gaps| - 1]);
  }

  lemma MatchesSorted(gs: set<ByteInterval>, c: ByteInterval, gaps: seq<ByteInterval>)
    requires Separated(gs) && Matches(gs, c, gaps)
    ensures forall i :: 0 <= i < |gaps| ==> gaps[i] in gs && Touches(gaps[i], c)
    ensures forall i, j :: 0 <= i < j < |gaps| ==> gaps[i].end < gaps[j].start
  {
    forall i | 0 <= i < |gaps|
      ensures gaps[i] in gs && Touches(gaps[i], c)
    {
      assert gaps[i] in gaps;
    }
  }

  lemma MatchesInOrder(gs: set<ByteInterval>, c: ByteInterval, gaps: seq<ByteInterval>)
    requires Separated(gs) && Matches(gs, c, gaps) && |gaps| > 0
    ensures InOrder(gs, gaps)
    ensures forall i :: 0 <= i < |gaps| ==> Touches(gaps[i], c)
    ensures forall g :: g in gs && Touches(g, c) ==> gaps[0].start <= g.start <= gaps[|gaps| - 1].start
  {
    MatchesSorted(gs, c, gaps);
    forall g, i, j | g in gs && 0 <= i && j == i + 1 && j < |gaps|
      ensures g.start <= gaps[i].start || gaps[j].start <= g.start
    {
      MatchesSkipNothing(gs, c, gaps, g, i);
    }
    forall g | g in gs && Touches(g, c)
      ensures gaps[0].start <= g.start <= gaps[|gaps| - 1].start
    {
      MatchesBounds(gs, c, gaps, g);
    }
  }

  lemma SituatedByMatch(q: map<int, Entry>, gs: set<ByteInterval>, readPos: int, gaps: seq<ByteInterval>, start: int,
                        end: int)
    requires Partition(q, gs, readPos) && Matches(gs, ByteInterval(start, end), gaps)
    requires 0 <= start < end <= MAX_BYTE_COUNT
    requires |gaps| > 0 && (|gaps| == 1 ==> gaps[0].start < end)
    ensures Situated(q, gs, gaps, start, end) && Unread(q, gs, readPos)
    ensures Touches(gaps[0], ByteInterval(start, end))
  {
    MatchesInOrder(gs, ByteInterval(start, end), gaps);
  }

  /** Where the leading run of covered frames can end. */
  lemma AfterReplace(q: map<int, Entry>, q': map<int, Entry>, gs: set<ByteInterval>, gaps: seq<ByteInterval>,
                     start: int, end: int, pos: int, replaced: bool, longer: bool)
    requires Situated(q, gs, gaps, start, end)
    requires RunRemoved(q, q', gs, start, pos) && pos <= end
    requires replaced <==> start < pos
    requires replaced ==> start in q
    requires longer <==> pos in q
    requires longer ==> replaced && end < End(q, pos)
    ensures gaps[0].end == start ==> replaced
    ensures gaps[0].end == start && |gaps| == 1 ==> Border(q, gs, pos) && (longer || pos == end)
    ensures gaps[0].end == start && |gaps| > 1 ==> !longer && pos == gaps[1].start
    ensures gaps[0].start <= start < gaps[0].end ==> !replaced && !longer
    ensures start < gaps[0].start ==> !longer && (replaced ==> pos == gaps[0].start)
  {
    var sg := gaps[0];
    assert sg in gs && Touches(sg, ByteInterval(start, end));
    if sg.end == start {
      assert Border(q, gs, sg.end);
      assert start in q;
    }
    if replaced {
      var k :| k in q && start <= k && End(q, k) == pos;
      assert Border(q, gs, End(q, k));
    }
  }

  /** The facts `AfterReplace` establishes, as one predicate. */
  ghost predicate RunEndsWell(q: map<int, Entry>, gs: set<ByteInterval>, gaps: seq<ByteInterval>,
                              start: int, end: int, pos: int)
    requires |gaps| > 0
  {
    && start <= pos <= end
    && (start < pos ==> start in q)
    && (gaps[0].end == start ==> start < pos)
    && (gaps[0].end == start && |gaps| == 1 ==> Border(q, gs, pos))
    && (gaps[0].end == start && |gaps| > 1 ==> pos == gaps[1].start)
    && (gaps[0].start <= start < gaps[0].end ==> start == pos)
    && (start < gaps[0].start && start < pos ==> pos == gaps[0].start)
  }

  lemma ClearableAfterReplace(q: map<int, Entry>, q': map<int, Entry>, gs: set<ByteInterval>,
                              gaps: seq<ByteInterval>, start: int, end: int, pos: int)
    requires Situated(q, gs, gaps, start, end) && |gaps| > 1
    requires RunEndsWell(q, gs, gaps, start, end, pos) && q' == Without(q, start, pos)
    ensures Clearable(q', gs, gaps)
  {
    FewerEntries(q, q', gs);
    assert gaps[0] in gs && gaps[1] in gs && Touches(gaps[0], ByteInterval(start, end));
    forall k | k in q' && gaps[0].end <= k
      ensures Border(q', gs, End(q', k))
    {
      assert k in q && Border(q, gs, End(q, k)) && k < End(q, k) && End(q', k) == End(q, k);
    }
    forall i | 0 < i < |gaps|
      ensures Border(q', gs, gaps[i].end)
    {
      assert gaps[i] in gs && Border(q, gs, gaps[i].end);
    }
    if gaps[0].end != start {
      assert Border(q, gs, gaps[0].end);
    }
  }

  /** Start of the stored frame: `start`, or the first gap when the frame begins inside old data. */
  ghost function FinalStart(gaps: seq<ByteInterval>, start: int, pos: int): int
    requires |gaps| > 0
  {
    if start < gaps[0].start && pos == start then gaps[0].start else start
  }

  /** End of the stored frame: cut back to the last gap, or to the run when only old data is replaced. */
  ghost function FinalEnd(gaps: seq<ByteInterval>, start: int, end: int, pos: int): int
    requires |gaps| > 0
  {
    if |gaps| == 1 && gaps[0].end == start then pos else Min(end, gaps[|gaps| - 1].end)
  }

  /** The queue after both rounds of deletions. */
  ghost function FinalQueue(q: map<int, Entry>, gaps: seq<ByteInterval>, start: int, pos: int): map<int, Entry>
    requires |gaps| > 0
  {
    var q1 := Without(q, start, pos);
    if |gaps| == 1 then q1 else Without(q1, gaps[0].end, gaps[|gaps| - 1].start)
  }

  /** A stored frame survives exactly when it starts outside the new frame, and none straddles it. */
  lemma FinalKey(q: map<int, Entry>, gs: set<ByteInterval>, gaps: seq<ByteInterval>,
                 start: int, end: int, pos: int, k: int)
    requires Situated(q, gs, gaps, start, end)
    requires RunRemoved(q, Without(q, start, pos), gs, start, pos) && RunEndsWell(q, gs, gaps, start, end, pos)
    requires k in q
    ensures var s, e := FinalStart(gaps, start, pos), FinalEnd(gaps, start, end, pos);
            && (End(q, k) <= s || e <= k || (s <= k && End(q, k) <= e))
            && (k in FinalQueue(q, gaps, start, pos) <==> !(s <= k < e))
  {
    var sg, eg := gaps[0], gaps[|gaps| - 1];
    var g1 := if |gaps| > 1 then gaps[1] else eg;
    assert sg in gs && eg in gs && g1 in gs;
    assert Touches(sg, ByteInterval(start, end)) && Touches(eg, ByteInterval(start, end));
    assert k < End(q, k);
    assert End(q, k) <= sg.start || sg.end <= k;
    assert End(q, k) <= eg.start || eg.end <= k;
    assert start < pos && k < start ==> End(q, k) <= start by {
      if start < pos {
        assert start < End(q, start);
      }
    }
    assert start <= k < pos ==> End(q, k) <= pos;
    assert |gaps| > 1 ==> sg.end < g1.start <= eg.start;
  }

  lemma ReplacedFromKeys(q: map<int, Entry>, q2: map<int, Entry>, s: int, e: int, entry: Entry)
    requires s < e
    requires forall k :: k in q2 ==> k in q && q2[k] == q[k]
    requires forall k :: k in q ==> End(q, k) <= s || e <= k || (s <= k && End(q, k) <= e)
    requires forall k :: k in q ==> (k in q2 <==> !(s <= k < e))
    ensures Replaced(q, q2[s := entry], s, e, entry) && s !in q2
  {
  }

  lemma FinalQueueReplaced(q: map<int, Entry>, gs: set<ByteInterval>, gaps: seq<ByteInterval>,
                           start: int, end: int, pos: int, entry: Entry)
    requires Situated(q, gs, gaps, start, end)
    requires RunRemoved(q, Without(q, start, pos), gs, start, pos) && RunEndsWell(q, gs, gaps, start, end, pos)
    ensures var s, e := FinalStart(gaps, start, pos), FinalEnd(gaps, start, end, pos);
            s < e ==>
              && Replaced(q, FinalQueue(q, gaps, start, pos)[s := entry], s, e, entry)
              && s !in FinalQueue(q, gaps, start, pos)
  {
    var s, e := FinalStart(gaps, start, pos), FinalEnd(gaps, start, end, pos);
    forall k | k in q
      ensures End(q, k) <= s || e <= k || (s <= k && End(q, k) <= e)
      ensures k in FinalQueue(q, gaps, start, pos) <==> !(s <= k < e)
    {
      FinalKey(q, gs, gaps, start, end, pos, k);
    }
    if s < e {
      ReplacedFromKeys(q, FinalQueue(q, gaps, start, pos), s, e, entry);
    }
  }

  /** The gap tree after the first gap was deleted, shortened or left alone; `e1` is the end before the last cut. */
  ghost function StartCut(gs: set<ByteInterval>, sg: ByteInterval, s: int, e1: int, replaced: bool): set<ByteInterval> {
    if s <= sg.start then
      if e1 >= sg.end then gs - {sg} else gs - {sg} + {ByteInterval(e1, sg.end)}
    else if !replaced then gs - {sg} + {ByteInterval(sg.start, s)}
    else gs
  }

  /** The gap tree after the last gap was deleted, shortened or split off. */
  ghost function EndCut(v: set<ByteInterval>, sg: ByteInterval, eg: ByteInterval, single: bool, adjusted: bool, e: int)
    : set<ByteInterval>
  {
    if e == eg.end then (if single then v else v - {eg})
    else if single then (if adjusted then v + {ByteInterval(e, sg.end)} else v)
    else v - {eg} + {ByteInterval(e, eg.end)}
  }

  ghost function FinalGaps(gs: set<ByteInterval>, gaps: seq<ByteInterval>, start: int, end: int,
                           pos: int): set<ByteInterval>
    requires |gaps| > 0
  {
    var sg, eg, single := gaps[0], gaps[|gaps| - 1], |gaps| == 1;
    var s, e := FinalStart(gaps, start, pos), FinalEnd(gaps, start, end, pos);
    var v := StartCut(gs, sg, s, if single && sg.end == start then pos else end, start < pos);
    EndCut(if single then v else v - Within(gs, sg, eg), sg, eg, single, sg.start < s && start == pos, e)
  }

  lemma ReplaceOne(gs: set<ByteInterval>, g: ByteInterval, h: ByteInterval)
    ensures |gs - {g}| == |gs| - (if g in gs then 1 else 0)
    ensures |gs - {g} + {h}| <= |gs| + (if g in gs then 0 else 1) && |gs + {h}| <= |gs| + 1
  {
    CardOfInsert(gs - {g}, h);
    CardOfInsert(gs, h);
    if g !in gs {
      assert gs - {g} == gs;
    }
  }

  /** Whatever a push cuts, it leaves at most one more gap. */
  lemma OneMoreGap(gs: set<ByteInterval>, gaps: seq<ByteInterval>, start: int, end: int, pos: int)
    requires |gaps| > 0 && gaps[0] in gs
    ensures |FinalGaps(gs, gaps, start, end, pos)| <= |gs| + 1
  {
    hide FinalStart, FinalEnd, Within;
    var sg, eg, single := gaps[0], gaps[|gaps| - 1], |gaps| == 1;
    var s, e := FinalStart(gaps, start, pos), FinalEnd(gaps, start, end, pos);
    var e1 := if single && sg.end == start then pos else end;
    var v := StartCut(gs, sg, s, e1, start < pos);
    ReplaceOne(gs, sg, ByteInterval(e1, sg.end));
    ReplaceOne(gs, sg, ByteInterval(sg.start, s));
    assert |v| <= |gs|;
    var w := if single then v else v - Within(gs, sg, eg);
    FewerGaps(w, v);
    ReplaceOne(w, eg, ByteInterval(e, eg.end));
    ReplaceOne(w, eg, ByteInterval(e, sg.end));
  }

  lemma FewerGaps(w: set<ByteInterval>, v: set<ByteInterval>)
    requires w <= v
    ensures |w| <= |v|
  {
    assert v == w + (v - w);
  }

  lemma FinalGapsSingle(q: map<int, Entry>, gs: set<ByteInterval>, gaps: seq<ByteInterval>,
                        start: int, end: int, pos: int)
    requires Situated(q, gs, gaps, start, end) && RunEndsWell(q, gs, gaps, start, end, pos) && |gaps| == 1
    ensures Subtracted(gs, FinalGaps(gs, gaps, start, end, pos),
                       FinalStart(gaps, start, pos), FinalEnd(gaps, start, end, pos), gaps[0], gaps[0])
  {
    var sg := gaps[0];
    var s, e := FinalStart(gaps, start, pos), FinalEnd(gaps, start, end, pos);
    assert sg in gs && Touches(sg, ByteInterval(start, end));
    forall g | g in gs && g != sg
      ensures g.end <= s || e <= g.start
      ensures !(g.start < s < g.end) && !(g.start < e < g.end)
    {
      assert !Touches(g, ByteInterval(start, end)) || g.start == sg.start;
    }
  }

  lemma FinalGapsMany(q: map<int, Entry>, gs: set<ByteInterval>, gaps: seq<ByteInterval>,
                      start: int, end: int, pos: int)
    requires Situated(q, gs, gaps, start, end) && RunEndsWell(q, gs, gaps, start, end, pos) && |gaps| > 1
    ensures Subtracted(gs, FinalGaps(gs, gaps, start, end, pos),
                       FinalStart(gaps, start, pos), FinalEnd(gaps, start, end, pos), gaps[0], gaps[|gaps| - 1])
  {
    var sg, eg := gaps[0], gaps[|gaps| - 1];
    var s, e := FinalStart(gaps, start, pos), FinalEnd(gaps, start, end, pos);
    assert sg in gs && eg in gs && sg.end < eg.start;
    assert Touches(sg, ByteInterval(start, end)) && Touches(eg, ByteInterval(start, end));
    forall g | g in gs && g != sg && g != eg
      ensures OutsideOrWithin(g, sg, eg, s, e)
    {
      if !(sg.start < g.start < eg.start) {
        assert !Touches(g, ByteInterval(start, end));
      }
    }
    CutBoth(gs, sg, eg, s, e, FinalGaps(gs, gaps, start, end, pos));
  }

  ghost predicate OutsideOrWithin(g: ByteInterval, sg: ByteInterval, eg: ByteInterval, s: int, e: int) {
    && ((sg.start < g.start < eg.start) <==> !(g.end <= s || e <= g.start))
    && !(g.start < s < g.end) && !(g.start < e < g.end)
  }

  /** Deleting what lies within, and cutting both ends, subtracts [s, e). */
  lemma CutBoth(gs: set<ByteInterval>, sg: ByteInterval, eg: ByteInterval, s: int, e: int, v: set<ByteInterval>)
    requires sg in gs && eg in gs && sg.start < sg.end < eg.start < eg.end && eg.start <= e <= eg.end && s <= sg.end
    requires forall g :: g in gs && g != sg && g != eg ==> OutsideOrWithin(g, sg, eg, s, e)
    requires v == (if s <= sg.start then gs - {sg}
                   else if s < sg.end then gs - {sg} + {ByteInterval(sg.start, s)} else gs)
                  - Within(gs, sg, eg) - {eg} + (if e == eg.end then {} else {ByteInterval(e, eg.end)})
    ensures Subtracted(gs, v, s, e, sg, eg)
  {
  }

  lemma FinalBounds(q: map<int, Entry>, gs: set<ByteInterval>, gaps: seq<ByteInterval>,
                    start: int, end: int, pos: int, readPos: int)
    requires Situated(q, gs, gaps, start, end) && RunEndsWell(q, gs, gaps, start, end, pos)
    requires Unread(q, gs, readPos)
    ensures var s, e := FinalStart(gaps, start, pos), FinalEnd(gaps, start, end, pos);
            && start <= s < e <= end && readPos <= s
            && (Border(q, gs, e) || Missing(gs, e))
  {
    var sg, eg := gaps[0], gaps[|gaps| - 1];
    assert sg in gs && eg in gs;
    assert Touches(sg, ByteInterval(start, end)) && Touches(eg, ByteInterval(start, end));
    assert Border(q, gs, eg.end);
  }

  /** What was cut off the frame had been received before. */
  lemma CutOffIsOld(q: map<int, Entry>, gs: set<ByteInterval>, gaps: seq<ByteInterval>,
                    start: int, end: int, pos: int, x: int)
    requires Situated(q, gs, gaps, start, end) && RunEndsWell(q, gs, gaps, start, end, pos)
    requires start <= x < end && Missing(gs, x)
    ensures FinalStart(gaps, start, pos) <= x < FinalEnd(gaps, start, end, pos)
  {
    var g :| g in gs && g.start <= x < g.end;
    assert Touches(g, ByteInterval(start, end));
    var eg := gaps[|gaps| - 1];
    assert eg in gs && gaps[0] in gs;
  }

  lemma PartitionParts(q: map<int, Entry>, gs: set<ByteInterval>, readPos: int)
    requires Partition(q, gs, readPos)
    ensures EntriesOffGaps(q, gs) && Separated(gs) && Unread(q, gs, readPos) && readPos <= MAX_BYTE_COUNT
  {
  }

  /** A frame that reaches no gap, or only touches the start of one, holds nothing new. */
  lemma NoGapReached(gs: set<ByteInterval>, start: int, end: int, gaps: seq<ByteInterval>)
    requires Matches(gs, ByteInterval(start, end), gaps)
    requires |gaps| == 0 || (|gaps| == 1 && end <= gaps[0].start)
    ensures forall x :: start <= x < end ==> !Missing(gs, x)
  {
    forall g | g in gs
      ensures start >= end || g.end <= start || end <= g.start
    {
      if Touches(g, ByteInterval(start, end)) {
        assert g in gaps;
      }
    }
  }

  /** A frame inside a stored one holds nothing new. */
  lemma CoveredByEntry(q: map<int, Entry>, gs: set<ByteInterval>, start: int, end: int)
    requires EntriesOffGaps(q, gs) && start in q && end <= End(q, start)
    ensures forall x :: start <= x < end ==> !Missing(gs, x)
  {
  }

  /** The effect of a stored push: [s, e), cut from the frame, is filled; everything new was kept. */
  ghost predicate Filled(q: map<int, Entry>, gs: set<ByteInterval>, q': map<int, Entry>, gs': set<ByteInterval>,
                         s: int, e: int, entry: Entry, data: seq<byte>, offset: int)
  {
    && offset <= s < e <= offset + |data|
    && Replaced(q, q', s, e, entry)
    && entry.data == data[s - offset..e - offset]
    && (forall x :: Missing(gs', x) <==> Missing(gs, x) && !(s <= x < e))
    && (forall x :: offset <= x < offset + |data| && Missing(gs, x) ==> s <= x < e)
  }

  /** Every byte of [a, b) was received before. */
  ghost predicate AllOld(gs: set<ByteInterval>, a: int, b: int) {
    forall x :: a <= x < b ==> !Missing(gs, x)
  }

  ghost predicate AllMissing(gs: set<ByteInterval>, a: int, b: int) {
    forall x :: a <= x < b ==> Missing(gs, x)
  }

  /**
   The callback under which [s, e) of the frame at `offset` is stored: its own, unless the frame
   was cut to fewer than 128 bytes.  A frame without new bytes also counts as cut where a stored
   frame starts right after it.
   */
  ghost function KeptCallback(q: map<int, Entry>, gs: set<ByteInterval>, offset: int, len: int, s: int, e: int,
                              cb: Option<Callback>): (kept: Option<Callback>)
  {
    var cut := e - s < len || (AllOld(gs, offset, offset + len) && offset + len in q);
    if cut && e - s < MIN_STREAM_FRAME_BUFFER_SIZE then None else cb
  }

  /** What a push leaves: all as it was, or [s, e) of the frame in the place of the frames it covers. */
  ghost predicate StoredPart(q: map<int, Entry>, gs: set<ByteInterval>, q': map<int, Entry>,
                             data: seq<byte>, offset: int, cb: Option<Callback>, s: int, e: int)
  {
    && offset <= s < e <= offset + |data|
    && (forall x :: offset <= x < offset + |data| && Missing(gs, x) ==> s <= x < e)
    && (forall k :: k in q ==> End(q, k) <= s || e <= k || (s <= k && End(q, k) <= e))
    && q' == Without(q, s, e)[s := Entry(data[s - offset..e - offset], KeptCallback(q, gs, offset, |data|, s, e, cb))]
  }

  ghost predicate Settled(q: map<int, Entry>, gs: set<ByteInterval>, q': map<int, Entry>,
                          data: seq<byte>, offset: int, cb: Option<Callback>)
  {
    || (q' == q && AllOld(gs, offset, offset + |data|))
    || exists s, e :: StoredPart(q, gs, q', data, offset, cb, s, e)
  }

  /** When `CutFrame` counts an uncut frame as cut, in terms of what was stored before. */
  lemma CutMeans(q: map<int, Entry>, gs: set<ByteInterval>, gaps: seq<ByteInterval>, start: int, end: int, pos: int)
    requires Planned(q, gs, gaps, start, end, pos) && |gaps| > 0
    requires FinalStart(gaps, start, pos) == start && FinalEnd(gaps, start, end, pos) == end
    ensures (start < pos == end && pos in q) <==> (AllOld(gs, start, end) && end in q)
  {
    assert Touches(gaps[0], ByteInterval(start, end)) && gaps[0] in gs;
    assert gaps[0].start <= start < gaps[0].end ==> Missing(gs, start);
    assert start <= gaps[0].start < end ==> Missing(gs, gaps[0].start);
    if |gaps| > 1 {
      assert gaps[1] in gs && Touches(gaps[1], ByteInterval(start, end));
      assert gaps[1].start < end ==> Missing(gs, gaps[1].start);
    }
    if start < pos == end && pos in q {
      forall x | start <= x < end
        ensures !Missing(gs, x)
      {
        assert start in q && start < End(q, start);
      }
    }
    if end in q {
      assert end < End(q, end);
    }
  }

  lemma KeptWhenCut(q: map<int, Entry>, gs: set<ByteInterval>, gaps: seq<ByteInterval>, offset: int, len: int,
                    pos: int, s: int, e: int, wasCut: bool, cb: Option<Callback>)
    requires Planned(q, gs, gaps, offset, offset + len, pos) && |gaps| > 0
    requires s == FinalStart(gaps, offset, pos) && e == FinalEnd(gaps, offset, offset + len, pos)
    requires offset <= s <= e <= offset + len
    requires wasCut <==> e - s < len || (offset < pos == offset + len && pos in q)
    ensures KeptCallback(q, gs, offset, len, s, e, cb) ==
            if wasCut && e - s < MIN_STREAM_FRAME_BUFFER_SIZE then None else cb
  {
    hide Planned, FinalStart, FinalEnd, AllOld;
    if e - s == len {
      CutMeans(q, gs, gaps, offset, offset + len, pos);
    }
  }

  lemma FilledStores(q: map<int, Entry>, gs: set<ByteInterval>, q': map<int, Entry>, gs': set<ByteInterval>,
                     s: int, e: int, entry: Entry, data: seq<byte>, offset: int, cb: Option<Callback>)
    requires Filled(q, gs, q', gs', s, e, entry, data, offset)
    requires entry.doneCb == KeptCallback(q, gs, offset, |data|, s, e, cb)
    ensures Settled(q, gs, q', data, offset, cb)
  {
    var stored := Without(q, s, e)[s := entry];
    forall k
      ensures k in q' <==> k in stored
      ensures k in q' ==> q'[k] == stored[k]
    {
      assert k in q' <==> k == s || (k in q && !(s <= k < e));
    }
    assert q' == stored;
    assert StoredPart(q, gs, q', data, offset, cb, s, e);
  }

  /** A frame of nothing but new bytes is stored whole, under its own callback, beside all others. */
  lemma NewFrameStored(q: map<int, Entry>, gs: set<ByteInterval>, readPos: int, q': map<int, Entry>,
                       data: seq<byte>, offset: int, cb: Option<Callback>)
    requires Partition(q, gs, readPos) && Settled(q, gs, q', data, offset, cb)
    requires |data| > 0 && AllMissing(gs, offset, offset + |data|)
    ensures offset !in q && q' == q[offset := Entry(data, cb)]
    ensures forall c :: |Holders(q', c)| == |Holders(q, c)| + One(cb)[c]
  {
    hide StoredPart, AllOld, Holders, One, Partition, Without, Missing;
    assert AllOld(gs, offset, offset + |data|) ==> false by { SomeMissing(gs, offset, offset + |data|); }
    var s, e :| StoredPart(q, gs, q', data, offset, cb, s, e);
    WholePart(q, gs, q', data, offset, cb, s, e);
    NoneInside(q, gs, readPos, offset, offset + |data|);
    forall c
      ensures |Holders(q', c)| == |Holders(q, c)| + One(cb)[c]
    {
      HoldersAdd(q, offset, Entry(data, cb), c);
    }
  }

  lemma SomeMissing(gs: set<ByteInterval>, a: int, b: int)
    requires a < b && AllMissing(gs, a, b)
    ensures !AllOld(gs, a, b)
  {
    assert Missing(gs, a);
  }

  /** No stored frame starts where every byte is missing. */
  lemma NoneInside(q: map<int, Entry>, gs: set<ByteInterval>, readPos: int, a: int, b: int)
    requires Partition(q, gs, readPos) && a < b && AllMissing(gs, a, b)
    ensures a !in q && Without(q, a, b) == q
  {
    forall k | k in q
      ensures !(a <= k < b)
    {
      assert k < End(q, k);
      assert a <= k < b ==> Missing(gs, k);
    }
  }

  /** All of a frame is stored if all of it is new. */
  lemma WholePart(q: map<int, Entry>, gs: set<ByteInterval>, q': map<int, Entry>, data: seq<byte>, offset: int,
                  cb: Option<Callback>, s: int, e: int)
    requires StoredPart(q, gs, q', data, offset, cb, s, e) && |data| > 0
    requires AllMissing(gs, offset, offset + |data|)
    ensures s == offset && e == offset + |data| && q' == Without(q, s, e)[s := Entry(data, cb)]
  {
    hide Missing, AllOld, Without, KeptCallback;
    assert Missing(gs, offset) && Missing(gs, offset + |data| - 1);
    assert s == offset && e == offset + |data|;
    KeptIfWhole(q, gs, offset, |data|, cb);
    assert data == data[0..|data|];
  }

  lemma KeptIfWhole(q: map<int, Entry>, gs: set<ByteInterval>, offset: int, len: int, cb: Option<Callback>)
    requires len > 0 && AllMissing(gs, offset, offset + len)
    ensures KeptCallback(q, gs, offset, len, offset, offset + len, cb) == cb
  {
    hide Missing;
    SomeMissing(gs, offset, offset + len);
  }

  /** A stored frame inside [a, b) holds callback `c`. */
  ghost predicate HeldWithin(q: map<int, Entry>, a: int, b: int, c: Callback) {
    exists k :: k in q && a <= k && End(q, k) <= b && q[k].doneCb == Some(c)
  }

  /** The frame brought nothing new, or was cut to fewer than 128 bytes. */
  ghost predicate OwnReleased(q: map<int, Entry>, gs: set<ByteInterval>, q': map<int, Entry>,
                              data: seq<byte>, offset: int, cb: Option<Callback>)
  {
    || AllOld(gs, offset, offset + |data|)
    || exists s, e :: StoredPart(q, gs, q', data, offset, cb, s, e) && e - s < Min(|data|, MIN_STREAM_FRAME_BUFFER_SIZE)
  }

  /** A push may call `c`: for a stored frame that it covers, or for itself. */
  ghost predicate MayCall(q: map<int, Entry>, gs: set<ByteInterval>, q': map<int, Entry>,
                          data: seq<byte>, offset: int, cb: Option<Callback>, c: Callback)
  {
    || HeldWithin(q, offset, offset + |data|, c)
    || (cb == Some(c) && OwnReleased(q, gs, q', data, offset, cb))
  }

  lemma DuplicateSettles(q: map<int, Entry>, gs: set<ByteInterval>, data: seq<byte>, offset: int,
                         cb: Option<Callback>)
    requires AllOld(gs, offset, offset + |data|)
    ensures Settled(q, gs, q, data, offset, cb) && OldOrNew(q, q, data, offset)
    ensures |data| > 0 ==> !AllMissing(gs, offset, offset + |data|)
    ensures forall c :: cb == Some(c) ==> MayCall(q, gs, q, data, offset, cb, c)
  {
    assert |data| > 0 ==> !Missing(gs, offset);
  }

  lemma NoneHeld(q: map<int, Entry>, s: int, e: int, a: int, b: int, c: Callback)
    requires forall k :: k in q ==> End(q, k) <= s || e <= k || (s <= k && End(q, k) <= e)
    requires a <= s < e <= b && !HeldWithin(q, a, b, c)
    ensures Holders(Without(q, s, e), c) == Holders(q, c)
  {
    forall k | k in q && q[k].doneCb == Some(c)
      ensures !(s <= k < e)
    {
    }
  }

  lemma PartCalls(q: map<int, Entry>, gs: set<ByteInterval>, q': map<int, Entry>, data: seq<byte>, offset: int,
                  cb: Option<Callback>, s: int, e: int, c: Callback)
    requires StoredPart(q, gs, q', data, offset, cb, s, e) && !MayCall(q, gs, q', data, offset, cb, c)
    ensures |Holders(q', c)| == |Holders(q, c)| + One(cb)[c]
  {
    hide Holders, AllOld, Missing;
    var rest := Without(q, s, e);
    NoneHeld(q, s, e, offset, offset + |data|, c);
    HoldersAdd(rest, s, q'[s], c);
  }

  lemma CallsExplained(q: map<int, Entry>, gs: set<ByteInterval>, q': map<int, Entry>,
                       data: seq<byte>, offset: int, cb: Option<Callback>, c: Callback)
    requires Settled(q, gs, q', data, offset, cb)
    ensures MayCall(q, gs, q', data, offset, cb, c) || |Holders(q', c)| == |Holders(q, c)| + One(cb)[c]
  {
    hide StoredPart, AllOld, Holders, HeldWithin;
    if !MayCall(q, gs, q', data, offset, cb, c) && exists s, e :: StoredPart(q, gs, q', data, offset, cb, s, e) {
      var s, e :| StoredPart(q, gs, q', data, offset, cb, s, e);
      PartCalls(q, gs, q', data, offset, cb, s, e, c);
    }
  }

  lemma Resliced<T>(s: seq<T>, a: int, b: int, c: int, d: int)
    requires 0 <= a <= b <= |s| && 0 <= c <= d <= b - a
    ensures s[a..b][c..d] == s[a + c..a + d]
  {
    var l, r := s[a..b][c..d], s[a + c..a + d];
    assert forall i :: 0 <= i < |l| ==> l[i] == r[i];
  }

  ghost predicate Planned(q: map<int, Entry>, gs: set<ByteInterval>, gaps: seq<ByteInterval>,
                          start: int, end: int, pos: int)
  {
    && Situated(q, gs, gaps, start, end)
    && RunRemoved(q, Without(q, start, pos), gs, start, pos)
    && RunEndsWell(q, gs, gaps, start, end, pos)
  }

  lemma PlanSubtracts(q: map<int, Entry>, gs: set<ByteInterval>, gaps: seq<ByteInterval>, start: int, end: int,
                      pos: int)
    requires Planned(q, gs, gaps, start, end, pos)
    ensures Subtracted(gs, FinalGaps(gs, gaps, start, end, pos), FinalStart(gaps, start, pos),
                       FinalEnd(gaps, start, end, pos), gaps[0], gaps[|gaps| - 1])
  {
    if |gaps| == 1 {
      FinalGapsSingle(q, gs, gaps, start, end, pos);
    } else {
      FinalGapsMany(q, gs, gaps, start, end, pos);
    }
  }

  lemma PlanKeepsAllNew(q: map<int, Entry>, gs: set<ByteInterval>, gaps: seq<ByteInterval>, start: int, end: int,
                        pos: int)
    requires Planned(q, gs, gaps, start, end, pos)
    ensures forall x :: start <= x < end && Missing(gs, x) ==>
              FinalStart(gaps, start, pos) <= x < FinalEnd(gaps, start, end, pos)
  {
    forall x | start <= x < end && Missing(gs, x)
      ensures FinalStart(gaps, start, pos) <= x < FinalEnd(gaps, start, end, pos)
    {
      CutOffIsOld(q, gs, gaps, start, end, pos, x);
    }
  }

  lemma PlanBounds(q: map<int, Entry>, gs: set<ByteInterval>, gaps: seq<ByteInterval>,
                   start: int, end: int, pos: int, readPos: int)
    requires Planned(q, gs, gaps, start, end, pos) && Unread(q, gs, readPos)
    ensures |gaps| > 0 && start <= pos <= end
    ensures start <= FinalStart(gaps, start, pos) < FinalEnd(gaps, start, end, pos) <= end
    ensures start < gaps[0].start ==> pos == start || pos == gaps[0].start
    ensures gaps[0].start < end && start <= gaps[0].end
  {
    FinalBounds(q, gs, gaps, start, end, pos, readPos);
    assert Touches(gaps[0], ByteInterval(start, end));
  }

  /** Everything `FillKeepsPartition` needs, from the plan. */
  ghost predicate Fits(q: map<int, Entry>, gs: set<ByteInterval>, q': map<int, Entry>, gs': set<ByteInterval>,
                       s: int, e: int, entry: Entry, sg: ByteInterval, eg: ByteInterval)
  {
    && s < e
    && Replaced(q, q', s, e, entry)
    && Subtracted(gs, gs', s, e, sg, eg)
    && (Border(q, gs, e) || Missing(gs, e))
  }

  lemma PlanFits(q: map<int, Entry>, gs: set<ByteInterval>, gaps: seq<ByteInterval>, readPos: int,
                 start: int, end: int, pos: int, q': map<int, Entry>, gs': set<ByteInterval>, entry: Entry)
    requires Planned(q, gs, gaps, start, end, pos) && Unread(q, gs, readPos)
    requires q' == FinalQueue(q, gaps, start, pos)[FinalStart(gaps, start, pos) := entry]
    requires gs' == FinalGaps(gs, gaps, start, end, pos)
    ensures var s, e := FinalStart(gaps, start, pos), FinalEnd(gaps, start, end, pos);
            && Fits(q, gs, q', gs', s, e, entry, gaps[0], gaps[|gaps| - 1])
            && start <= s < e <= end && readPos <= s
            && s !in FinalQueue(q, gaps, start, pos)
  {
    FinalBounds(q, gs, gaps, start, end, pos, readPos);
    PlanSubtracts(q, gs, gaps, start, end, pos);
    FinalQueueReplaced(q, gs, gaps, start, end, pos, entry);
  }

  lemma FitFills(q: map<int, Entry>, gs: set<ByteInterval>, readPos: int, q': map<int, Entry>, gs': set<ByteInterval>,
                 s: int, e: int, entry: Entry, sg: ByteInterval, eg: ByteInterval, data: seq<byte>, offset: int)
    requires Partition(q, gs, readPos) && Fits(q, gs, q', gs', s, e, entry, sg, eg)
    requires readPos <= s && offset <= s < e <= offset + |data| <= MAX_BYTE_COUNT
    requires entry.data == data[s - offset..e - offset]
    requires forall x :: offset <= x < offset + |data| && Missing(gs, x) ==> s <= x < e
    ensures Partition(q', gs', readPos)
    ensures Filled(q, gs, q', gs', s, e, entry, data, offset)
  {
    FillKeepsPartition(q, gs, readPos, q', gs', s, e, entry, sg, eg);
  }

  /** The outcome of storing `data`, cut from `data0`, once the plan was carried out. */
  lemma PlanFills(q0: map<int, Entry>, gs: set<ByteInterval>, readPos: int, q: map<int, Entry>, v: set<ByteInterval>,
                  gaps: seq<ByteInterval>, data0: seq<byte>, offset: int, end0: int, pos: int,
                  start: int, end: int, entry: Entry)
    requires Partition(q0, gs, readPos) && Unread(q0, gs, readPos)
    requires Planned(q0, gs, gaps, offset, end0, pos) && |gaps| > 0
    requires end0 == offset + |data0| && end0 <= MAX_BYTE_COUNT
    requires q == FinalQueue(q0, gaps, offset, pos) && v == FinalGaps(gs, gaps, offset, end0, pos)
    requires start == FinalStart(gaps, offset, pos) && end == FinalEnd(gaps, offset, end0, pos)
    requires offset <= start <= end <= end0 && entry.data == data0[start - offset..end - offset]
    ensures start !in q
    ensures Partition(q[start := entry], v, readPos)
    ensures Filled(q0, gs, q[start := entry], v, start, end, entry, data0, offset)
  {
    hide *;
    PlanFits(q0, gs, gaps, readPos, offset, end0, pos, q[start := entry], v, entry);
    PlanKeepsAllNew(q0, gs, gaps, offset, end0, pos);
    FitFills(q0, gs, readPos, q[start := entry], v, start, end, entry, gaps[0], gaps[|gaps| - 1], data0, offset);
  }

  /** So storing it keeps the partition, and adds at most one gap. */
  lemma PlanStores(q0: map<int, Entry>, gs: set<ByteInterval>, readPos: int, q: map<int, Entry>, v: set<ByteInterval>,
                   gaps: seq<ByteInterval>, data0: seq<byte>, offset: int, end0: int, pos: int,
                   start: int, end: int, entry: Entry)
    requires Partition(q0, gs, readPos) && Unread(q0, gs, readPos)
    requires Planned(q0, gs, gaps, offset, end0, pos) && |gaps| > 0
    requires end0 == offset + |data0| && end0 <= MAX_BYTE_COUNT
    requires q == FinalQueue(q0, gaps, offset, pos) && v == FinalGaps(gs, gaps, offset, end0, pos)
    requires start == FinalStart(gaps, offset, pos) && end == FinalEnd(gaps, offset, end0, pos)
    requires offset <= start <= end <= end0 && entry.data == data0[start - offset..end - offset]
    ensures start !in q && Partition(q[start := entry], v, readPos) && |v| <= |gs| + 1
    ensures Filled(q0, gs, q[start := entry], v, start, end, entry, data0, offset)
  {
    hide *;
    PlannedSituated(q0, gs, gaps, offset, end0, pos);
    FirstGap(q0, gs, gaps, offset, end0);
    OneMoreGap(gs, gaps, offset, end0, pos);
    PlanFills(q0, gs, readPos, q, v, gaps, data0, offset, end0, pos, start, end, entry);
  }

  /** And its callback is kept, unless it was cut short. */
  lemma PlanKeeps(q0: map<int, Entry>, gs: set<ByteInterval>, readPos: int, q: map<int, Entry>, v: set<ByteInterval>,
                  gaps: seq<ByteInterval>, data0: seq<byte>, offset: int, end0: int, pos: int,
                  start: int, end: int, wasCut: bool, entry: Entry, cb: Option<Callback>)
    requires Partition(q0, gs, readPos) && Unread(q0, gs, readPos)
    requires Planned(q0, gs, gaps, offset, end0, pos) && |gaps| > 0
    requires end0 == offset + |data0| && end0 <= MAX_BYTE_COUNT
    requires q == FinalQueue(q0, gaps, offset, pos) && v == FinalGaps(gs, gaps, offset, end0, pos)
    requires start == FinalStart(gaps, offset, pos) && end == FinalEnd(gaps, offset, end0, pos)
    requires offset <= start <= end <= end0 && entry.data == data0[start - offset..end - offset]
    requires wasCut <==> |entry.data| < |data0| || (offset < pos == end0 && pos in q0)
    requires entry.doneCb == if wasCut && |entry.data| < MIN_STREAM_FRAME_BUFFER_SIZE then None else cb
    ensures start !in q && Partition(q[start := entry], v, readPos) && |v| <= |gs| + 1
    ensures Filled(q0, gs, q[start := entry], v, start, end, entry, data0, offset)
    ensures entry.doneCb == KeptCallback(q0, gs, offset, |data0|, start, end, cb)
  {
    hide *;
    PlanStores(q0, gs, readPos, q, v, gaps, data0, offset, end0, pos, start, end, entry);
    KeptWhenCut(q0, gs, gaps, offset, |data0|, pos, start, end, wasCut, cb);
  }

  lemma PlannedSituated(q: map<int, Entry>, gs: set<ByteInterval>, gaps: seq<ByteInterval>, start: int, end: int,
                        pos: int)
    requires Planned(q, gs, gaps, start, end, pos)
    ensures Situated(q, gs, gaps, start, end)
  {
  }

  /** Every stored byte is the one stored before at that offset, or the one the frame carries there. */
  ghost predicate OldOrNew(q: map<int, Entry>, q': map<int, Entry>, data: seq<byte>, offset: int) {
    forall k :: k in q' ==>
      || (k in q && q'[k].data == q[k].data)
      || (offset <= k && End(q', k) <= offset + |data| && q'[k].data == data[k - offset..End(q', k) - offset])
  }

  lemma FilledBytes(q: map<int, Entry>, gs: set<ByteInterval>, q': map<int, Entry>, gs': set<ByteInterval>,
                    s: int, e: int, entry: Entry, data: seq<byte>, offset: int)
    requires Filled(q, gs, q', gs', s, e, entry, data, offset)
    ensures OldOrNew(q, q', data, offset)
    ensures forall x :: Missing(gs', x) <==> Missing(gs, x) && !(offset <= x < offset + |data|)
  {
  }

  lemma PopNothing(q: map<int, Entry>, gs: set<ByteInterval>, readPos: int)
    requires Partition(q, gs, readPos) && readPos !in q
    ensures readPos == MAX_BYTE_COUNT || Missing(gs, readPos)
    ensures q - {readPos} == q
  {
    if readPos < MAX_BYTE_COUNT {
      var g :| g in gs && g.start == readPos;
    }
  }

  lemma PopKeepsPartition(q: map<int, Entry>, gs: set<ByteInterval>, readPos: int)
    requires Partition(q, gs, readPos) && readPos in q
    ensures Partition(q - {readPos}, gs, End(q, readPos))
    ensures !Missing(gs, readPos) && readPos < MAX_BYTE_COUNT && |q[readPos].data| > 0
  {
    var q' := q - {readPos};
    var p := End(q, readPos);
    FewerEntries(q, q', gs);
    forall k | k in q'
      ensures p <= k && Border(q', gs, End(q', k))
    {
      assert End(q', k) == End(q, k) && Border(q, gs, End(q, k)) && k < End(q, k);
    }
    forall g | g in gs
      ensures p <= g.start && Border(q', gs, g.end)
    {
      assert Border(q, gs, g.end) && readPos <= g.start;
    }
    assert Border(q, gs, p);
  }

  /** Some stored frame carries byte `b` at offset `x`. */
  ghost predicate StoredAt(q: map<int, Entry>, x: int, b: byte) {
    exists k :: HeldBy(q, k, x) && q[k].data[x - k] == b
  }

  /** A frame starts at `a`, and no byte of [a, b) is missing. */
  ghost predicate RunCovers(q: map<int, Entry>, gs: set<ByteInterval>, a: int, b: int) {
    a in q && b <= MAX_BYTE_COUNT && forall x :: a <= x < b ==> !Missing(gs, x)
  }

  lemma BorderNotStored(q: map<int, Entry>, gs: set<ByteInterval>, readPos: int, p: int)
    requires Partition(q, gs, readPos) && Border(q, gs, p) && p !in q
    ensures p == MAX_BYTE_COUNT || Missing(gs, p)
  {
    if p != MAX_BYTE_COUNT {
      var g :| g in gs && g.start == p;
    }
  }

  lemma EntryInRun(q: map<int, Entry>, gs: set<ByteInterval>, readPos: int, pos: int)
    requires Partition(q, gs, readPos) && pos in q
    ensures pos < End(q, pos) <= MAX_BYTE_COUNT && Border(q, gs, End(q, pos))
    ensures forall x :: pos <= x < End(q, pos) ==> !Missing(gs, x)
  {
    CoveredByEntry(q, gs, pos, End(q, pos));
  }

  lemma NextInRun(q: map<int, Entry>, gs: set<ByteInterval>, readPos: int, a: int, b: int, pos: int)
    requires Partition(q, gs, readPos) && RunCovers(q, gs, a, b) && pos in q && a <= pos
    ensures |q[pos].data| > 0
    ensures pos + |q[pos].data| < b ==> pos + |q[pos].data| in q
  {
    assert pos < End(q, pos) && Border(q, gs, End(q, pos));
    if End(q, pos) < b && End(q, pos) !in q {
      BorderNotStored(q, gs, readPos, End(q, pos));
    }
  }

  lemma StoredRun(q: map<int, Entry>, pos: int, data: seq<byte>)
    requires pos in q && q[pos].data == data
    ensures forall j :: 0 <= j < |data| ==> StoredAt(q, pos + j, data[j])
  {
    forall j | 0 <= j < |data|
      ensures StoredAt(q, pos + j, data[j])
    {
      assert HeldBy(q, pos, pos + j);
    }
  }

  /** Go's `copy(p[from:], data)`. */
  method CopyInto(p: array<byte>, from: int, data: seq<byte>) returns (n: int)
    requires 0 <= from <= p.Length
    modifies p
    ensures n == Min(p.Length - from, |data|)
    ensures p[..] == old(p[..from]) + data[..n] + old(p[from + n..])
  {
    n := Min(p.Length - from, |data|);
    forall i | from <= i < from + n {
      p[i] := data[i - from];
    }
  }

  class FrameSorter {
    var queue: map<int, Entry>
    var readPos: int
    const gapTree: Btree

    /** Invocations of buffer callbacks so far, and callbacks handed to the caller by `Pop`. */
    var called: multiset<Callback>
    var handed: multiset<Callback>

    ghost predicate Valid()
      reads this, gapTree
    {
      && gapTree.Valid()
      && Partition(queue, gapTree.values, readPos)
    }

    /** How often callback `c` was called, was handed out, or is stored. */
    ghost function Places(c: Callback): (n: nat)
      reads this
    {
      called[c] + handed[c] + |Holders(queue, c)|
    }

    constructor ()
      ensures Valid() && fresh(gapTree)
      ensures readPos == 0 && queue == map[]
      ensures gapTree.values == {ByteInterval(0, MAX_BYTE_COUNT)}
      ensures called == multiset{} && handed == multiset{}
    {
      var t := new Btree();
      t.InsertValue(ByteInterval(0, MAX_BYTE_COUNT));
      gapTree := t;
      queue, readPos := map[], 0;
      called, handed := multiset{}, multiset{};
      new;
      assert ByteInterval(0, MAX_BYTE_COUNT) in gapTree.values;
    }

    /** Removes the frame at `k` and releases its buffer. */
    method Release(k: int)
      requires k in queue
      modifies this`queue, this`called
      ensures queue == old(queue) - {k}
      ensures forall c :: Places(c) == old(Places(c))
    {
      forall c
        ensures |Holders(queue - {k}, c)| == |Holders(queue, c)| - One(queue[k].doneCb)[c]
      {
        HoldersRemove(queue, k, c);
      }
      var oldEntry := queue[k];
      queue := queue - {k};
      if oldEntry.doneCb.Some? {
        called := called + multiset{oldEntry.doneCb.value};
      }
    }

    /**
     Deletes the unbroken run of frames starting at `pos`.  `stop` is where the run ended;
     no gap of `gs` begins inside the run.
     */
    method DeleteConsecutive(start: int, ghost gs: set<ByteInterval>) returns (ghost stop: int)
      requires EntriesApart(queue)
      requires Separated(gs) && EntriesOffGaps(queue, gs)
      modifies this`queue, this`called
      ensures RunRemoved(old(queue), queue, gs, start, stop) && stop !in old(queue)
      ensures forall c :: Places(c) == old(Places(c))
    {
      var pos := start;
      ghost var q0 := queue;
      while pos in queue
        invariant RunRemoved(q0, queue, gs, start, pos)
        invariant forall c :: Places(c) == old(Places(c))
        decreases MAX_BYTE_COUNT - pos
      {
        var oldEntryLen := |queue[pos].data|;
        RunStep(q0, queue, gs, start, pos);
        Release(pos);
        pos := pos + oldEntryLen;
      }
      stop := pos;
    }

    /**
     The loop at the head of `push`: removes the run of frames at `start` that the new frame
     [start, end) covers.  `longer` says that it stopped at a frame the new one does not cover.
     */
    method ReplaceCovered(start: int, end: int, ghost gs: set<ByteInterval>)
      returns (pos: int, replaced: bool, longer: bool)
      requires start < end
      requires EntriesApart(queue)
      requires Separated(gs) && EntriesOffGaps(queue, gs)
      modifies this`queue, this`called
      ensures RunRemoved(old(queue), queue, gs, start, pos)
      ensures replaced <==> start < pos
      ensures replaced ==> start in old(queue)
      ensures !replaced ==> queue == old(queue) && called == old(called)
      ensures pos <= end
      ensures longer <==> pos in old(queue)
      ensures longer ==> end < End(old(queue), pos) || (!replaced && end <= End(old(queue), pos))
      ensures forall c :: Places(c) == old(Places(c))
    {
      pos, replaced, longer := start, false, false;
      ghost var q0 := queue;
      while pos in queue
        invariant RunRemoved(q0, queue, gs, start, pos)
        invariant replaced <==> start < pos
        invariant replaced ==> start in q0
        invariant !replaced ==> queue == old(queue) && called == old(called)
        invariant pos <= end && !longer
        invariant forall c :: Places(c) == old(Places(c))
        decreases MAX_BYTE_COUNT - pos
      {
        var oldEntryLen := |queue[pos].data|;
        if end - pos > oldEntryLen || (replaced && end - pos == oldEntryLen) {
          RunStep(q0, queue, gs, start, pos);
          Release(pos);
          pos := pos + oldEntryLen;
          replaced := true;
        } else {
          longer := true;
          break;
        }
      }
    }

    /** Deletes the frames between gap `i` and the next one; `q0` is the queue before the first deletion. */
    method ClearAfter(gaps: seq<ByteInterval>, i: int, ghost q0: map<int, Entry>, ghost gs: set<ByteInterval>)
      requires 0 <= i < |gaps| - 1 && Clearable(q0, gs, gaps)
      requires queue == Without(q0, gaps[0].end, gaps[i].start)
      modifies this`queue, this`called
      ensures queue == Without(q0, gaps[0].end, gaps[i + 1].start)
      ensures forall c :: Places(c) == old(Places(c))
    {
      ghost var q1 := queue;
      FewerEntries(q0, q1, gs);
      if i == 0 {
        assert q1 == q0;
      } else {
        RunsBetweenShrink(q0, q1, gs, gaps, i);
      }
      ghost var stop := DeleteConsecutive(gaps[i].end, gs);
      RunReachesNextGap(q1, queue, gs, gaps, i, stop);
      RemoveTwice(q0, q1, queue, gs, gaps, i);
    }

    /** The deletion before the clearing loop: frames after the first gap. */
    method ClearFirst(gaps: seq<ByteInterval>, ghost gs: set<ByteInterval>)
      requires Clearable(queue, gs, gaps)
      modifies this`queue, this`called
      ensures Cleared(old(queue), gapTree.values, queue, gapTree.values, gs, gaps, 1)
      ensures forall c :: Places(c) == old(Places(c))
    {
      WithinFirst(gs, gaps);
      assert Without(queue, gaps[0].end, gaps[0].start) == queue by {
        assert gaps[0] in gs;
      }
      ClearAfter(gaps, 0, queue, gs);
    }

    /** One round of the clearing loop: frames after gap `i`, then gap `i` itself. */
    method ClearGap(gaps: seq<ByteInterval>, i: int, ghost q0: map<int, Entry>, ghost v0: set<ByteInterval>,
                    ghost gs: set<ByteInterval>)
      requires 0 < i < |gaps| - 1 && Clearable(q0, gs, gaps)
      requires gapTree.Valid() && Cleared(q0, v0, queue, gapTree.values, gs, gaps, i)
      modifies this`queue, this`called, gapTree
      ensures gapTree.Valid() && Cleared(q0, v0, queue, gapTree.values, gs, gaps, i + 1)
      ensures forall c :: Places(c) == old(Places(c))
    {
      assert gapTree.values - {gaps[i]} == v0 - Within(gs, gaps[0], gaps[i + 1]) by {
        WithinStep(gs, gaps, i);
      }
      ClearAfter(gaps, i, q0, gs);
      gapTree.DeleteValue(gaps[i]);
    }

    /**
     The part of `push` that clears what lies between the first and the last matching gap:
     every stored frame and every gap in there.
     */
    method ClearBetween(gaps: seq<ByteInterval>, ghost gs: set<ByteInterval>)
      requires Clearable(queue, gs, gaps) && gapTree.Valid()
      modifies this`queue, this`called, gapTree
      ensures gapTree.Valid()
      ensures Cleared(old(queue), old(gapTree.values), queue, gapTree.values, gs, gaps, |gaps| - 1)
      ensures forall c :: Places(c) == old(Places(c))
    {
      var endGapStart := gaps[|gaps| - 1].start;
      ghost var q0, v0 := queue, gapTree.values;
      ClearFirst(gaps, gs);
      var i := 1;
      while gaps[i].end < endGapStart  // the last gap always ends the loop
        invariant 1 <= i < |gaps|
        invariant gapTree.Valid()
        invariant Cleared(q0, v0, queue, gapTree.values, gs, gaps, i)
        invariant forall c :: Places(c) == old(Places(c))
        decreases |gaps| - i
      {
        ClearGap(gaps, i, q0, v0, gs);
        i := i + 1;
      }
      LastInOrder(gs, gaps, i);
    }

    /** Deletes, shortens or keeps the first matching gap. */
    method CutStartGap(startGap: ByteInterval, start: int, end: int, replaced: bool) returns (adjusted: bool)
      requires gapTree.Valid()
      modifies gapTree
      ensures gapTree.Valid() && gapTree.values == StartCut(old(gapTree.values), startGap, start, end, replaced)
      ensures adjusted <==> startGap.start < start && !replaced
    {
      adjusted := false;
      if start <= startGap.start {
        if end >= startGap.end {
          gapTree.DeleteValue(startGap);
        } else {
          gapTree.DeleteValue(startGap);
          gapTree.InsertValue(ByteInterval(end, startGap.end));
        }
      } else if !replaced {
        gapTree.DeleteValue(startGap);
        gapTree.InsertValue(ByteInterval(startGap.start, start));
        adjusted := true;
      }
    }

    /** Deletes or shortens the last matching gap, or splits the only one. */
    method CutEndGap(startGap: ByteInterval, endGap: ByteInterval, single: bool, adjusted: bool, end: int)
      requires gapTree.Valid()
      modifies gapTree
      ensures gapTree.Valid() && gapTree.values == EndCut(old(gapTree.values), startGap, endGap, single, adjusted, end)
    {
      if end == endGap.end {
        if !single {
          gapTree.DeleteValue(endGap);
        }
      } else {
        if single && adjusted {
          gapTree.InsertValue(ByteInterval(end, startGap.end));
        } else if !single {
          gapTree.DeleteValue(endGap);
          gapTree.InsertValue(ByteInterval(end, endGap.end));
        }
      }
    }

    /** Short remainders of a cut frame are copied, so that the buffer can be released at once. */
    method CopyIfShort(wasCut: bool, data: seq<byte>, doneCb: Option<Callback>) returns (kept: Option<Callback>)
      modifies this`called
      ensures kept == if wasCut && |data| < MIN_STREAM_FRAME_BUFFER_SIZE then None else doneCb
      ensures forall c :: Places(c) + One(kept)[c] == old(Places(c)) + One(doneCb)[c]
    {
      kept := doneCb;
      if wasCut && |data| < MIN_STREAM_FRAME_BUFFER_SIZE {
        if doneCb.Some? {
          called := called + multiset{doneCb.value};
        }
        kept := None;
      }
    }

    /** Removes the leading covered frames and records how that went. */
    method ReplaceLeading(gaps: seq<ByteInterval>, start: int, end: int)
      returns (pos: int, replaced: bool, longer: bool)
      requires Situated(queue, gapTree.values, gaps, start, end)
      modifies this`queue, this`called
      ensures longer && !replaced ==>
        unchanged(this) && start in queue && end <= End(queue, start)
      ensures !(longer && !replaced) ==>
        Planned(old(queue), gapTree.values, gaps, start, end, pos) && queue == Without(old(queue), start, pos)
      ensures start <= pos <= end && (replaced <==> start < pos)
      ensures longer && replaced ==> |gaps| == 1 && gaps[0].end == start
      ensures |gaps| == 1 && gaps[0].end == start && !longer ==> pos == end
      ensures longer <==> pos in old(queue)
      ensures forall c :: Places(c) == old(Places(c))
    {
      ghost var q0, gs := queue, gapTree.values;
      pos, replaced, longer := ReplaceCovered(start, end, gs);
      if replaced || !longer {
        AfterReplace(q0, queue, gs, gaps, start, end, pos, replaced, longer);
      } else {
        assert queue == q0;
      }
    }

    /**
     Carves [start, end) out of the gap tree, with everything stored in between.  Returns the end
     of the frame, cut back to the end of the last gap where it sticks out into old data.
     */
    method CarveOut(gaps: seq<ByteInterval>, start: int, end: int, replaced: bool,
                    ghost q0: map<int, Entry>, ghost offset: int, ghost end0: int, ghost pos: int) returns (newEnd: int)
      requires gapTree.Valid() && Planned(q0, gapTree.values, gaps, offset, end0, pos)
      requires queue == Without(q0, offset, pos)
      requires start == FinalStart(gaps, offset, pos) && (replaced <==> offset < pos)
      requires end == if |gaps| == 1 && gaps[0].end == offset then pos else end0
      modifies this`queue, this`called, gapTree
      ensures gapTree.Valid()
      ensures gapTree.values == FinalGaps(old(gapTree.values), gaps, offset, end0, pos)
      ensures queue == FinalQueue(q0, gaps, offset, pos)
      ensures newEnd == FinalEnd(gaps, offset, end0, pos) && newEnd <= end
      ensures forall c :: Places(c) == old(Places(c))
    {
      ghost var gs := gapTree.values;
      var startGap, endGap, single := gaps[0], gaps[|gaps| - 1], |gaps| == 1;
      assert Touches(startGap, ByteInterval(offset, end0)) && Touches(endGap, ByteInterval(offset, end0));
      var endsInGap := endGap.start <= end < endGap.end;
      var adjusted := CutStartGap(startGap, start, end, replaced);
      if !single {
        ClearableAfterReplace(q0, queue, gs, gaps, offset, end0, pos);
        ClearBetween(gaps, gs);
      }
      newEnd := end;
      if !endsInGap && start != endGap.end && end > endGap.end {
        newEnd := endGap.end;
      }
      CutEndGap(startGap, endGap, single, adjusted, newEnd);
    }

    /** Replaces what the frame covers from its start on, and cuts the frame to where it goes on. */
    method CutLeading(gaps: seq<ByteInterval>, data0: seq<byte>, offset: int)
      returns (duplicate: bool, data: seq<byte>, start: int, tail: int, wasCut: bool, replaced: bool, pos: int)
      requires |data0| > 0 && |gaps| > 0 && Unread(queue, gapTree.values, readPos)
      requires Situated(queue, gapTree.values, gaps, offset, offset + |data0|)
      requires Touches(gaps[0], ByteInterval(offset, offset + |data0|))
      modifies this`queue, this`called
      ensures duplicate ==> unchanged(this) && offset in queue && offset + |data0| <= End(queue, offset)
      ensures !duplicate ==>
        && Planned(old(queue), gapTree.values, gaps, offset, offset + |data0|, pos)
        && queue == Without(old(queue), offset, pos)
        && start == FinalStart(gaps, offset, pos) && (replaced <==> offset < pos)
        && tail == (if |gaps| == 1 && gaps[0].end == offset then pos else offset + |data0|)
        && start <= FinalEnd(gaps, offset, offset + |data0|, pos)
        && offset <= start <= tail <= offset + |data0| && data == data0[start - offset..tail - offset]
        && (wasCut <==> |data| < |data0| || (offset < pos == offset + |data0| && pos in old(queue)))
      ensures forall c :: Places(c) == old(Places(c))
    {
      hide Situated, Planned, Partition, Unread, Without, Places, Border, Missing, RunEndsWell;
      ghost var q0, gs := queue, gapTree.values;
      var longer;
      duplicate, data, start, tail, wasCut := false, data0, offset, offset + |data0|, false;
      var startsInGap := gaps[0].start <= start <= gaps[0].end;
      pos, replaced, longer := ReplaceLeading(gaps, start, tail);
      if longer {
        if !replaced {
          duplicate := true;
          return;
        }
        data := data[..pos - start];
        tail := pos;
        wasCut := true;
      }
      PlanBounds(q0, gs, gaps, offset, offset + |data0|, pos, readPos);
      if !startsInGap && !replaced {
        Resliced(data0, 0, tail - offset, gaps[0].start - start, tail - offset);
        data := data[gaps[0].start - start..];
        start := gaps[0].start;
        wasCut := true;
      }
    }

    /** Cuts the frame to what is new, and removes the gaps and frames it covers. */
    method CutFrame(gaps: seq<ByteInterval>, data0: seq<byte>, offset: int)
      returns (duplicate: bool, data: seq<byte>, start: int, wasCut: bool, ghost end: int, ghost pos: int)
      requires gapTree.Valid() && |data0| > 0 && |gaps| > 0 && Unread(queue, gapTree.values, readPos)
      requires Situated(queue, gapTree.values, gaps, offset, offset + |data0|)
      requires Touches(gaps[0], ByteInterval(offset, offset + |data0|))
      modifies this`queue, this`called, gapTree
      ensures duplicate ==>
        unchanged(this) && unchanged(gapTree) && offset in queue && offset + |data0| <= End(queue, offset)
      ensures gapTree.Valid()
      ensures !duplicate ==>
        && Planned(old(queue), old(gapTree.values), gaps, offset, offset + |data0|, pos)
        && gapTree.values == FinalGaps(old(gapTree.values), gaps, offset, offset + |data0|, pos)
        && queue == FinalQueue(old(queue), gaps, offset, pos)
        && start == FinalStart(gaps, offset, pos)
        && end == FinalEnd(gaps, offset, offset + |data0|, pos)
        && offset <= start <= end <= offset + |data0|
        && data == data0[start - offset..end - offset]
        // it counts as cut also if a stored frame starts where it ends, and it replaces one
        && (wasCut <==> |data| < |data0| || (offset < pos == offset + |data0| && pos in old(queue)))
      ensures forall c :: Places(c) == old(Places(c))
    {
      hide Situated, Planned, Partition, Unread, FinalGaps, FinalQueue, FinalStart, FinalEnd, Without, Places;
      ghost var q0, end0 := queue, offset + |data0|;
      var replaced, tail;
      end := 0;
      duplicate, data, start, tail, wasCut, replaced, pos := CutLeading(gaps, data0, offset);
      if duplicate {
        return;
      }
      var newEnd := CarveOut(gaps, start, tail, replaced, q0, offset, end0, pos);
      data, wasCut := CutEnd(data0, data, offset, start, tail, newEnd, wasCut);
      end := newEnd;
    }

    /** Cuts [start, tail) of the frame back to `newEnd`. */
    method CutEnd(ghost data0: seq<byte>, data: seq<byte>, ghost offset: int, start: int, tail: int, newEnd: int,
                  wasCut: bool)
      returns (data': seq<byte>, wasCut': bool)
      requires offset <= start <= newEnd <= tail <= offset + |data0|
      requires data == data0[start - offset..tail - offset]
      ensures data' == data0[start - offset..newEnd - offset]
      ensures if newEnd < tail then |data'| < |data0| && wasCut' else data' == data && wasCut' == wasCut
    {
      data', wasCut' := data, wasCut;
      if newEnd < tail {
        Resliced(data0, start - offset, tail - offset, 0, newEnd - start);
        data' := data[..newEnd - start];
        wasCut' := true;
      }
    }

    /** Stores a frame under a free key. */
    method Put(k: int, entry: Entry)
      requires k !in queue
      modifies this`queue
      ensures queue == old(queue)[k := entry]
      ensures forall c :: Places(c) == old(Places(c)) + One(entry.doneCb)[c]
    {
      forall c
        ensures |Holders(queue[k := entry], c)| == |Holders(queue, c)| + One(entry.doneCb)[c]
      {
        HoldersAdd(queue, k, entry, c);
      }
      queue := queue[k := entry];
    }

    /** The end of `push`: stores the cut frame, unless there are too many gaps now. */
    method PutIfFewGaps(data: seq<byte>, start: int, wasCut: bool, doneCb: Option<Callback>) returns (r: PushResult)
      requires gapTree.Valid() && start !in queue
      modifies this`queue, this`called
      ensures !r.Duplicate? && (r.TooManyGaps? <==> |gapTree.values| > MAX_STREAM_FRAME_SORTER_GAPS)
      ensures r.Pushed? ==>
        var kept := if wasCut && |data| < MIN_STREAM_FRAME_BUFFER_SIZE then None else doneCb;
        queue == old(queue)[start := Entry(data, kept)]
      ensures r.Pushed? ==> forall c :: Places(c) == old(Places(c)) + One(doneCb)[c]
    {
      gapTree.LenIsCount();
      var kept := CopyIfShort(wasCut, data, doneCb);
      if gapTree.len > MAX_STREAM_FRAME_SORTER_GAPS {
        return TooManyGaps;
      }
      Put(start, Entry(data, kept));
      r := Pushed;
    }

    /** The second half of `push`: the frame is known to reach the gaps in `gaps`. */
    method StoreFrame(gaps: seq<ByteInterval>, data0: seq<byte>, offset: int, doneCb: Option<Callback>)
      returns (r: PushResult, ghost s: int, ghost e: int, ghost entry: Entry)
      requires gapTree.Valid() && Partition(queue, gapTree.values, readPos) && Unread(queue, gapTree.values, readPos)
      requires |data0| > 0 && |gaps| > 0 && offset + |data0| <= MAX_BYTE_COUNT
      requires Situated(queue, gapTree.values, gaps, offset, offset + |data0|)
      requires Touches(gaps[0], ByteInterval(offset, offset + |data0|))
      modifies this`queue, this`called, gapTree
      ensures r.Duplicate? ==> unchanged(this) && unchanged(gapTree)
      ensures r.Duplicate? ==> offset in queue && offset + |data0| <= End(queue, offset)
      ensures r.Pushed? ==> gapTree.Valid() && Partition(queue, gapTree.values, readPos)
      ensures r.Pushed? ==>
        Filled(old(queue), old(gapTree.values), queue, gapTree.values, s, e, entry, data0, offset)
      ensures r.Pushed? ==>
        entry.doneCb == KeptCallback(old(queue), old(gapTree.values), offset, |data0|, s, e, doneCb)
      ensures |gapTree.values| <= |old(gapTree.values)| + 1
      ensures !r.Duplicate? ==> (r.TooManyGaps? <==> |gapTree.values| > MAX_STREAM_FRAME_SORTER_GAPS)
      ensures r.Pushed? ==> forall c :: Places(c) == old(Places(c)) + One(doneCb)[c]
    {
      hide *;
      ghost var q0, gs, end0, pos := queue, gapTree.values, offset + |data0|, 0;
      var duplicate, data, start, wasCut;
      duplicate, data, start, wasCut, e, pos := CutFrame(gaps, data0, offset);
      if duplicate {
        return Duplicate, 0, 0, Entry([], None);
      }
      s, entry := start, Entry(data, if wasCut && |data| < MIN_STREAM_FRAME_BUFFER_SIZE then None else doneCb);
      PlanKeeps(q0, gs, readPos, queue, gapTree.values, gaps, data0, offset, end0, pos, start, e, wasCut, entry,
                doneCb);
      r := PutIfFewGaps(data, start, wasCut, doneCb);
    }

    /** `push`: cuts, replaces and stores one frame, or finds that it holds nothing new. */
    method PushFrame(data: seq<byte>, offset: int, doneCb: Option<Callback>)
      returns (r: PushResult, ghost s: int, ghost e: int, ghost entry: Entry)
      requires gapTree.Valid() && Partition(queue, gapTree.values, readPos)
      requires 0 <= offset && offset + |data| <= MAX_BYTE_COUNT
      modifies this`queue, this`called, gapTree
      ensures r.Duplicate? ==> unchanged(this) && unchanged(gapTree)
      ensures r.Duplicate? ==> forall x :: offset <= x < offset + |data| ==> !Missing(gapTree.values, x)
      ensures r.Pushed? ==> gapTree.Valid() && Partition(queue, gapTree.values, readPos)
      ensures r.Pushed? ==> Filled(old(queue), old(gapTree.values), queue, gapTree.values, s, e, entry, data, offset)
      ensures r.Pushed? ==> entry.doneCb == KeptCallback(old(queue), old(gapTree.values), offset, |data|, s, e, doneCb)
      ensures |gapTree.values| <= |old(gapTree.values)| + 1
      ensures !r.Duplicate? ==> (r.TooManyGaps? <==> |gapTree.values| > MAX_STREAM_FRAME_SORTER_GAPS)
      ensures r.Pushed? ==> forall c :: Places(c) == old(Places(c)) + One(doneCb)[c]
    {
      hide *;
      s, e, entry := 0, 0, Entry([], None);
      if |data| == 0 {
        return Duplicate, s, e, entry;
      }
      var start, end := offset, offset + |data|;
      var covInterval := ByteInterval(start, end);
      ghost var q0, gs := queue, gapTree.values;
      PartitionParts(q0, gs, readPos);

      var gaps := gapTree.MatchValues(covInterval);
      if |gaps| == 0 || (|gaps| == 1 && end <= gaps[0].start) {
        NoGapReached(gs, start, end, gaps);
        return Duplicate, s, e, entry;
      }
      SituatedByMatch(q0, gs, readPos, gaps, start, end);
      r, s, e, entry := StoreFrame(gaps, data, offset, doneCb);
      if r.Duplicate? {
        CoveredByEntry(q0, gs, start, end);
      }
    }

    /** Takes one frame.  Data that was received before is no error; its buffer is released at once. */
    method Push(data: seq<byte>, offset: int, doneCb: Option<Callback>) returns (ok: bool)
      requires Valid() && 0 <= offset && offset + |data| <= MAX_BYTE_COUNT
      modifies this`queue, this`called, gapTree
      ensures ok ==> Valid()
      ensures ok ==> forall x ::
        Missing(gapTree.values, x) <==> old(Missing(gapTree.values, x)) && !(offset <= x < offset + |data|)
      ensures ok ==> OldOrNew(old(queue), queue, data, offset)
      ensures ok ==> forall c :: Places(c) == old(Places(c)) + One(doneCb)[c]
      ensures ok ==> Settled(old(queue), old(gapTree.values), queue, data, offset, doneCb)
      ensures ok ==> forall c :: called[c] > old(called)[c] ==>
        MayCall(old(queue), old(gapTree.values), queue, data, offset, doneCb, c)
      // a frame of new bytes only keeps its callback and releases nothing
      ensures ok && |data| > 0 && AllMissing(old(gapTree.values), offset, offset + |data|) ==>
        offset !in old(queue) && queue == old(queue)[offset := Entry(data, doneCb)] && called == old(called)
      // it adds at most one gap, and fails only when that is one too many
      ensures |gapTree.values| <= |old(gapTree.values)| + 1 && (!ok ==> |gapTree.values| > MAX_STREAM_FRAME_SORTER_GAPS)
    {
      hide Partition, Filled, Settled, MayCall, Holders, OldOrNew;
      ghost var q, gs := queue, gapTree.values;
      var r, s, e, entry := PushFrame(data, offset, doneCb);
      if r.Duplicate? {
        DuplicateSettles(q, gs, data, offset, doneCb);
        if doneCb.Some? {
          called := called + multiset{doneCb.value};
        }
        return true;
      }
      ok := r.Pushed?;
      if ok {
        FilledBytes(q, gs, queue, gapTree.values, s, e, entry, data, offset);
        FilledStores(q, gs, queue, gapTree.values, s, e, entry, data, offset, doneCb);
        forall c
          ensures called[c] > old(called)[c] ==> MayCall(q, gs, queue, data, offset, doneCb, c)
        {
          CallsExplained(q, gs, queue, data, offset, doneCb, c);
        }
        if |data| > 0 && AllMissing(gs, offset, offset + |data|) {
          NewFrameStored(q, gs, readPos, queue, data, offset, doneCb);
          forall c
            ensures called[c] == old(called)[c]
          {
            assert Places(c) == old(Places(c)) + One(doneCb)[c];
          }
          assert called == old(called);
        }
      }
    }

    /** Removes the frame at `k` and hands its buffer to the caller. */
    method Take(k: int) returns (entry: Entry)
      requires k in queue
      modifies this`queue, this`handed
      ensures entry == old(queue)[k] && queue == old(queue) - {k}
      ensures handed == old(handed) + One(entry.doneCb)
      ensures forall c :: Places(c) == old(Places(c))
    {
      forall c
        ensures |Holders(queue - {k}, c)| == |Holders(queue, c)| - One(queue[k].doneCb)[c]
      {
        HoldersRemove(queue, k, c);
      }
      entry := queue[k];
      queue := queue - {k};
      handed := handed + One(entry.doneCb);
    }

    /** The next chunk, or nothing: exactly when the byte at `readPos` has not been received. */
    method Pop() returns (offset: int, data: seq<byte>, doneCb: Option<Callback>)
      requires Valid()
      modifies this`queue, this`readPos, this`handed
      ensures Valid()
      ensures offset == old(readPos) && readPos == offset + |data|
      ensures data == [] <==> offset == MAX_BYTE_COUNT || Missing(gapTree.values, offset)
      ensures data == [] ==> doneCb == None && offset !in old(queue)
      ensures data != [] ==> offset in old(queue) && data == old(queue)[offset].data
      ensures queue == old(queue) - {offset}
      ensures forall c :: Places(c) == old(Places(c))
      ensures handed == old(handed) + One(doneCb)
    {
      hide Partition, Missing;
      offset := readPos;
      if readPos !in queue {
        PopNothing(queue, gapTree.values, readPos);
        return offset, [], None;
      }
      PopKeepsPartition(queue, gapTree.values, readPos);
      var entry := Take(readPos);
      readPos := readPos + |entry.data|;
      data, doneCb := entry.data, entry.doneCb;
    }

    method HasMoreData() returns (more: bool)
      requires Valid()
      ensures more <==> queue != map[]
    {
      more := |queue| > 0;
    }

    /** The first loop of `Peek`: are there `n` consecutive bytes from the start of a frame on? */
    method PeekCheck(offset: int, n: int) returns (ok: bool)
      requires Valid() && n > 0
      ensures ok <==> RunCovers(queue, gapTree.values, offset, offset + n)
    {
      hide Partition, Missing, Border;
      var pos, remaining := offset, n;
      while remaining > 0
        invariant 0 < remaining <= n && pos + remaining == offset + n
        invariant pos == offset || (offset in queue && Border(queue, gapTree.values, pos))
        invariant forall x :: offset <= x < pos ==> !Missing(gapTree.values, x)
        decreases remaining
      {
        if pos !in queue {
          if pos > offset {
            BorderNotStored(queue, gapTree.values, readPos, pos);
          }
          return false;
        }
        var entryLen := |queue[pos].data|;
        EntryInRun(queue, gapTree.values, readPos, pos);
        if remaining <= entryLen {
          break;
        }
        remaining := remaining - entryLen;
        pos := pos + entryLen;
      }
      ok := true;
    }

    /** The second loop of `Peek`: copies the run found by the first. */
    method PeekCopy(offset: int, p: array<byte>)
      requires Partition(queue, gapTree.values, readPos)
      requires offset in queue && RunCovers(queue, gapTree.values, offset, offset + p.Length)
      modifies p
      ensures forall i :: 0 <= i < p.Length ==> StoredAt(queue, offset + i, p[i])
    {
      hide Partition, RunCovers, StoredAt;
      ghost var q, gs, rp := queue, gapTree.values, readPos;
      var pos, copied := offset, 0;
      while copied < p.Length
        invariant 0 <= copied <= p.Length
        invariant copied < p.Length ==> pos == offset + copied && pos in q
        invariant forall i :: 0 <= i < copied ==> StoredAt(q, offset + i, p[i])
      {
        var data := queue[pos].data;
        var n := CopyInto(p, copied, data);
        NextInRun(q, gs, rp, offset, offset + p.Length, pos);
        StoredRun(q, pos, data);
        forall i | copied <= i < copied + n
          ensures StoredAt(q, offset + i, p[i])
        {
          assert p[..][i] == data[i - copied] && offset + i == pos + (i - copied);
        }
        copied := copied + n;
        pos := pos + |data|;
      }
    }

    /**
     Copies `p.Length` bytes from `offset` on into `p`, without removing them.  It fails, and leaves
     `p` alone, exactly when no frame starts at `offset` or one of the bytes is missing.
     */
    method Peek(offset: int, p: array<byte>) returns (ok: bool)
      requires Valid()
      modifies p
      ensures ok <==> p.Length == 0 || RunCovers(queue, gapTree.values, offset, offset + p.Length)
      ensures ok ==> forall i :: 0 <= i < p.Length ==> StoredAt(queue, offset + i, p[i])
      ensures !ok ==> p[..] == old(p[..])
    {
      if p.Length == 0 {
        return true;
      }
      ok := PeekCheck(offset, p.Length);
      if ok {
        PeekCopy(offset, p);
      }
    }
  }
}
