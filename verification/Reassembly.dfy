/**
 Whole runs of the frame sorter: any interleaving of pushes and pops, in any order, with any
 overlap and repetition of frames cut from one byte string.
 */
module Reassembly {
  import opened Protocol
  import opened GapTree
  import opened FrameSorting

  datatype Op = PushOp(offset: int, len: int, doneCb: Option<Callback>) | PopOp

  ghost predicate CutFrom(ops: seq<Op>, stream: seq<byte>) {
    forall i :: 0 <= i < |ops| && ops[i].PushOp? ==>
      0 <= ops[i].offset && 0 <= ops[i].len && ops[i].offset + ops[i].len <= |stream|
  }

  /** One of the first `n` operations pushes the byte at `x`. */
  ghost predicate PushedWithin(ops: seq<Op>, n: int, x: int)
    requires 0 <= n <= |ops|
  {
    exists j :: 0 <= j < n && ops[j].PushOp? && ops[j].offset <= x < ops[j].offset + ops[j].len
  }

  function Concat(chunks: seq<seq<byte>>): (s: seq<byte>) {
    if chunks == [] then [] else Concat(chunks[..|chunks| - 1]) + chunks[|chunks| - 1]
  }

  /** The callbacks given to the first `n` operations. */
  ghost function Issued(ops: seq<Op>, n: int): (m: multiset<Callback>)
    requires 0 <= n <= |ops|
  {
    if n == 0 then multiset{}
    else Issued(ops, n - 1) + (if ops[n - 1].PushOp? then One(ops[n - 1].doneCb) else multiset{})
  }

  ghost predicate Overlap(a: Op, b: Op)
    requires a.PushOp? && b.PushOp?
  {
    a.offset < b.offset + b.len && b.offset < a.offset + a.len
  }

  /** Operation `i` pushes bytes that no other operation pushes, under a callback that no other has. */
  ghost predicate Lone(ops: seq<Op>, i: int, c: Callback) {
    && 0 <= i < |ops| && ops[i].PushOp? && ops[i].len > 0 && ops[i].doneCb == Some(c)
    && forall j :: 0 <= j < |ops| && j != i && ops[j].PushOp? ==> !Overlap(ops[i], ops[j]) && ops[j].doneCb != Some(c)
  }

  lemma {:induction false} LoneIssued(ops: seq<Op>, i: int, c: Callback, n: int)
    requires Lone(ops, i, c) && 0 <= n <= |ops|
    ensures Issued(ops, n)[c] == if i < n then 1 else 0
  {
    if n > 0 {
      LoneIssued(ops, i, c, n - 1);
    }
  }

  /** After `n` operations: a lone frame's callback was not called, and only that frame holds it. */
  ghost predicate LoneKept(ops: seq<Op>, n: int, q: map<int, Entry>, called: multiset<Callback>) {
    forall i, c :: Lone(ops, i, c) ==> called[c] == 0 && OnlyHolder(ops[i], i < n, q, c)
  }

  /** A stored frame that holds `c` lies inside the frame that `op` pushed. */
  ghost predicate OnlyHolder(op: Op, pushed: bool, q: map<int, Entry>, c: Callback)
    requires op.PushOp?
  {
    forall k :: k in q && q[k].doneCb == Some(c) ==>
      pushed && op.offset <= k && k < End(q, k) <= op.offset + op.len
  }

  /** No other operation pushed a byte of a lone frame. */
  lemma LoneMissing(ops: seq<Op>, stream: seq<byte>, outs: seq<seq<byte>>, gs: set<ByteInterval>, readPos: int,
                    c: Callback)
    requires |outs| < |ops| && Tracks(ops, stream, outs, gs, readPos) && Lone(ops, |outs|, c)
    requires CutFrom(ops, stream) && |stream| <= MAX_BYTE_COUNT
    ensures AllMissing(gs, ops[|outs|].offset, ops[|outs|].offset + ops[|outs|].len)
  {
    var op := ops[|outs|];
    forall x | op.offset <= x < op.offset + op.len
      ensures Missing(gs, x)
    {
      if PushedWithin(ops, |outs|, x) {
        var j :| 0 <= j < |outs| && ops[j].PushOp? && ops[j].offset <= x < ops[j].offset + ops[j].len;
        assert Overlap(op, ops[j]);
      }
    }
  }

  /** How many of the first `n` operations are pushes. */
  function NumPushes(ops: seq<Op>, n: int): (k: nat)
    requires 0 <= n <= |ops|
    ensures k <= n
  {
    if n == 0 then 0 else NumPushes(ops, n - 1) + (if ops[n - 1].PushOp? then 1 else 0)
  }

  lemma {:induction false} NumPushesGrow(ops: seq<Op>, m: int, n: int)
    requires 0 <= m <= n <= |ops|
    ensures NumPushes(ops, m) <= NumPushes(ops, n)
  {
    if m < n {
      NumPushesGrow(ops, m, n - 1);
    }
  }

  ghost predicate Agrees(q: map<int, Entry>, stream: seq<byte>) {
    forall k :: k in q ==> 0 <= k && End(q, k) <= |stream| && q[k].data == stream[k..End(q, k)]
  }

  lemma NoHolders()
    ensures forall c :: |Holders(map[], c)| == 0
  {
    forall c
      ensures |Holders(map[], c)| == 0
    {
      assert Holders(map[], c) == {};
    }
  }

  lemma PushAgrees(q: map<int, Entry>, q': map<int, Entry>, stream: seq<byte>, offset: int, len: int)
    requires Agrees(q, stream) && 0 <= offset && 0 <= len && offset + len <= |stream|
    requires OldOrNew(q, q', stream[offset..offset + len], offset)
    ensures Agrees(q', stream)
  {
    forall k | k in q'
      ensures 0 <= k && End(q', k) <= |stream| && q'[k].data == stream[k..End(q', k)]
    {
      if k in q && q'[k].data == q[k].data {
        assert End(q', k) == End(q, k);
      } else {
        Resliced(stream, offset, offset + len, k - offset, End(q', k) - offset);
      }
    }
  }

  lemma ConcatAppend(chunks: seq<seq<byte>>, c: seq<byte>)
    ensures Concat(chunks + [c]) == Concat(chunks) + c
  {
    assert (chunks + [c])[..|chunks|] == chunks;
  }

  /** After `n` operations that produced `outs`, `readPos` and the gaps are what they should be. */
  ghost predicate Tracks(ops: seq<Op>, stream: seq<byte>, outs: seq<seq<byte>>, gs: set<ByteInterval>, readPos: int)
    requires |outs| <= |ops|
  {
    && 0 <= readPos <= |stream| && Concat(outs) == stream[..readPos]
    && forall x :: 0 <= x < MAX_BYTE_COUNT ==> (Missing(gs, x) <==> !PushedWithin(ops, |outs|, x))
  }

  /** Every pop so far came back empty exactly when the next byte had not been pushed yet. */
  ghost predicate PopsRight(ops: seq<Op>, outs: seq<seq<byte>>)
    requires |outs| <= |ops|
  {
    forall i :: 0 <= i < |outs| && ops[i].PopOp? ==>
      (outs[i] == [] <==> !PushedWithin(ops, i, |Concat(outs[..i])|))
  }

  lemma TracksPush(ops: seq<Op>, stream: seq<byte>, outs: seq<seq<byte>>, gs: set<ByteInterval>, gs': set<ByteInterval>,
                   readPos: int)
    requires |outs| < |ops| && Tracks(ops, stream, outs, gs, readPos) && PopsRight(ops, outs)
    requires ops[|outs|].PushOp?
    requires var op := ops[|outs|];
             forall x :: Missing(gs', x) <==> Missing(gs, x) && !(op.offset <= x < op.offset + op.len)
    ensures Tracks(ops, stream, outs + [[]], gs', readPos) && PopsRight(ops, outs + [[]])
  {
    var outs' := outs + [[]];
    ConcatAppend(outs, []);
    forall x | 0 <= x < MAX_BYTE_COUNT
      ensures Missing(gs', x) <==> !PushedWithin(ops, |outs'|, x)
    {
      var n := |outs|;
      assert PushedWithin(ops, n + 1, x) <==>
             PushedWithin(ops, n, x) || ops[n].offset <= x < ops[n].offset + ops[n].len;
    }
    forall i | 0 <= i < |outs'| && ops[i].PopOp?
      ensures outs'[i] == [] <==> !PushedWithin(ops, i, |Concat(outs'[..i])|)
    {
      assert outs'[..i] == outs[..i];
    }
  }

  lemma TracksPop(ops: seq<Op>, stream: seq<byte>, outs: seq<seq<byte>>, gs: set<ByteInterval>, readPos: int,
                  data: seq<byte>)
    requires |outs| < |ops| && Tracks(ops, stream, outs, gs, readPos) && PopsRight(ops, outs)
    requires ops[|outs|].PopOp? && CutFrom(ops, stream) && |stream| <= MAX_BYTE_COUNT
    requires data == [] <==> readPos == MAX_BYTE_COUNT || Missing(gs, readPos)
    requires readPos + |data| <= |stream| && data == stream[readPos..readPos + |data|]
    ensures Tracks(ops, stream, outs + [data], gs, readPos + |data|) && PopsRight(ops, outs + [data])
  {
    var n, outs' := |outs|, outs + [data];
    ConcatAppend(outs, data);
    assert stream[..readPos] + data == stream[..readPos + |data|];
    forall x | 0 <= x < MAX_BYTE_COUNT
      ensures Missing(gs, x) <==> !PushedWithin(ops, n + 1, x)
    {
      assert PushedWithin(ops, n + 1, x) <==> PushedWithin(ops, n, x);
    }
    forall i | 0 <= i < |outs'| && ops[i].PopOp?
      ensures outs'[i] == [] <==> !PushedWithin(ops, i, |Concat(outs'[..i])|)
    {
      assert outs'[..i] == outs[..i];
      if i == n {
        assert outs[..n] == outs && |Concat(outs)| == readPos;
      }
    }
  }

  /** What holds of the sorter's state between operations. */
  ghost predicate Sound(q: map<int, Entry>, gs: set<ByteInterval>, readPos: int,
                        ops: seq<Op>, stream: seq<byte>, outs: seq<seq<byte>>)
  {
    && |outs| <= |ops|
    && Agrees(q, stream)
    && Tracks(ops, stream, outs, gs, readPos)
    && PopsRight(ops, outs)
  }

  lemma SoundPush(q: map<int, Entry>, q': map<int, Entry>, gs: set<ByteInterval>, gs': set<ByteInterval>, readPos: int,
                  ops: seq<Op>, stream: seq<byte>, outs: seq<seq<byte>>)
    requires Sound(q, gs, readPos, ops, stream, outs) && CutFrom(ops, stream)
    requires |outs| < |ops| && ops[|outs|].PushOp?
    requires var op := ops[|outs|];
             0 <= op.offset && 0 <= op.len && op.offset + op.len <= |stream|
    requires var op := ops[|outs|];
             && OldOrNew(q, q', stream[op.offset..op.offset + op.len], op.offset)
             && forall x :: Missing(gs', x) <==> Missing(gs, x) && !(op.offset <= x < op.offset + op.len)
    ensures Sound(q', gs', readPos, ops, stream, outs + [[]])
  {
    var op := ops[|outs|];
    TracksPush(ops, stream, outs, gs, gs', readPos);
    PushAgrees(q, q', stream, op.offset, op.len);
  }

  lemma SoundPop(q: map<int, Entry>, gs: set<ByteInterval>, readPos: int,
                 ops: seq<Op>, stream: seq<byte>, outs: seq<seq<byte>>, data: seq<byte>)
    requires Sound(q, gs, readPos, ops, stream, outs) && CutFrom(ops, stream) && |stream| <= MAX_BYTE_COUNT
    requires |outs| < |ops| && ops[|outs|].PopOp?
    requires data == [] <==> readPos == MAX_BYTE_COUNT || Missing(gs, readPos)
    requires data != [] ==> readPos in q && data == q[readPos].data
    ensures Sound(q - {readPos}, gs, readPos + |data|, ops, stream, outs + [data])
  {
    assert data != [] ==> End(q, readPos) == readPos + |data|;
    TracksPop(ops, stream, outs, gs, readPos, data);
    forall k | k in q - {readPos}
      ensures End(q - {readPos}, k) == End(q, k)
    {
    }
  }

  lemma SoundPrefix(q: map<int, Entry>, gs: set<ByteInterval>, readPos: int,
                    ops: seq<Op>, stream: seq<byte>, outs: seq<seq<byte>>)
    requires Sound(q, gs, readPos, ops, stream, outs)
    ensures |outs| <= |ops| && Concat(outs) <= stream && PopsRight(ops, outs)
    ensures Tracks(ops, stream, outs, gs, readPos)
  {
  }

  /** A push by another operation neither calls nor moves the callback of a lone frame. */
  lemma LoneAside(ops: seq<Op>, n: int, i: int, c: Callback, q: map<int, Entry>, gs: set<ByteInterval>,
                  q': map<int, Entry>, data: seq<byte>)
    requires Lone(ops, i, c) && 0 <= n < |ops| && ops[n].PushOp? && n != i && |data| == ops[n].len
    requires OnlyHolder(ops[i], i < n, q, c) && Settled(q, gs, q', data, ops[n].offset, ops[n].doneCb)
    ensures !MayCall(q, gs, q', data, ops[n].offset, ops[n].doneCb, c)
    ensures OnlyHolder(ops[i], i < n + 1, q', c)
  {
    assert !Overlap(ops[i], ops[n]);
    forall k | k in q' && q'[k].doneCb == Some(c)
      ensures k in q && q'[k] == q[k]
    {
    }
    forall k | k in q' && q'[k].doneCb == Some(c)
      ensures i < n && ops[i].offset <= k && k < End(q', k) <= ops[i].offset + ops[i].len
    {
      assert End(q', k) == End(q, k);
    }
  }

  /** What one push does to the callbacks of the lone frames. */
  lemma LonePush(ops: seq<Op>, stream: seq<byte>, outs: seq<seq<byte>>, gs: set<ByteInterval>, readPos: int,
                 q: map<int, Entry>, q': map<int, Entry>, data: seq<byte>,
                 called: multiset<Callback>, called': multiset<Callback>)
    requires |outs| < |ops| && Tracks(ops, stream, outs, gs, readPos) && CutFrom(ops, stream)
    requires |stream| <= MAX_BYTE_COUNT && ops[|outs|].PushOp? && |data| == ops[|outs|].len
    requires LoneKept(ops, |outs|, q, called)
    requires var op := ops[|outs|];
             && Settled(q, gs, q', data, op.offset, op.doneCb)
             && (forall c :: called'[c] > called[c] ==> MayCall(q, gs, q', data, op.offset, op.doneCb, c))
             && (|data| > 0 && AllMissing(gs, op.offset, op.offset + |data|) ==>
                  q' == q[op.offset := Entry(data, op.doneCb)] && called' == called)
    ensures LoneKept(ops, |outs| + 1, q', called')
  {
    var n := |outs|;
    forall i, c | Lone(ops, i, c)
      ensures called'[c] == 0 && OnlyHolder(ops[i], i < n + 1, q', c)
    {
      if i == n {
        LoneMissing(ops, stream, outs, gs, readPos, c);
      } else {
        LoneAside(ops, n, i, c, q, gs, q', data);
      }
    }
  }

  lemma LonePop(ops: seq<Op>, n: int, q: map<int, Entry>, k: int, called: multiset<Callback>)
    requires LoneKept(ops, n, q, called)
    ensures LoneKept(ops, n + 1, q - {k}, called)
  {
    forall i, c | Lone(ops, i, c)
      ensures OnlyHolder(ops[i], i < n + 1, q - {k}, c)
    {
      assert OnlyHolder(ops[i], i < n, q, c);
      forall l | l in q - {k}
        ensures End(q - {k}, l) == End(q, l)
      {
      }
    }
  }

  /** The sorter after the operations that gave `outs`: its state, and where the callbacks are. */
  ghost predicate Running(s: FrameSorter, ops: seq<Op>, stream: seq<byte>, outs: seq<seq<byte>>)
    reads s, s.gapTree
  {
    && s.Valid() && Sound(s.queue, s.gapTree.values, s.readPos, ops, stream, outs)
    && (forall c :: s.Places(c) == Issued(ops, |outs|)[c])
    && LoneKept(ops, |outs|, s.queue, s.called)
  }

  /** What one more operation issues. */
  lemma IssuedNext(ops: seq<Op>, n: int)
    requires 0 <= n < |ops|
    ensures forall c :: Issued(ops, n + 1)[c] ==
              Issued(ops, n)[c] + (if ops[n].PushOp? then One(ops[n].doneCb)[c] else 0)
  {
    hide One;
  }

  lemma RunningParts(s: FrameSorter, ops: seq<Op>, stream: seq<byte>, outs: seq<seq<byte>>)
    requires Running(s, ops, stream, outs) && CutFrom(ops, stream) && |outs| < |ops|
    ensures s.Valid() && Sound(s.queue, s.gapTree.values, s.readPos, ops, stream, outs)
    ensures Tracks(ops, stream, outs, s.gapTree.values, s.readPos)
    ensures forall c :: s.Places(c) == Issued(ops, |outs|)[c]
    ensures LoneKept(ops, |outs|, s.queue, s.called)
    ensures ops[|outs|].PushOp? ==>
      0 <= ops[|outs|].offset && 0 <= ops[|outs|].len && ops[|outs|].offset + ops[|outs|].len <= |stream|
  {
    hide Sound, LoneKept, FrameSorter.Valid, Issued, Tracks;
    SoundPrefix(s.queue, s.gapTree.values, s.readPos, ops, stream, outs);
  }

  lemma RunningOn(s: FrameSorter, ops: seq<Op>, stream: seq<byte>, outs: seq<seq<byte>>)
    requires s.Valid() && |outs| <= |ops| && Sound(s.queue, s.gapTree.values, s.readPos, ops, stream, outs)
    requires forall c :: s.Places(c) == Issued(ops, |outs|)[c]
    requires LoneKept(ops, |outs|, s.queue, s.called)
    ensures Running(s, ops, stream, outs)
  {
  }

  method StepPush(s: FrameSorter, ops: seq<Op>, stream: seq<byte>, outs: seq<seq<byte>>) returns (ok: bool)
    requires |stream| <= MAX_BYTE_COUNT && CutFrom(ops, stream) && |outs| < |ops| && ops[|outs|].PushOp?
    requires Running(s, ops, stream, outs)
    modifies s, s.gapTree
    ensures ok ==> Running(s, ops, stream, outs + [[]])
    ensures |s.gapTree.values| <= |old(s.gapTree.values)| + 1
    ensures !ok ==> |s.gapTree.values| > MAX_STREAM_FRAME_SORTER_GAPS
  {
    hide *;
    ghost var gs, q, rp, called, n := s.gapTree.values, s.queue, s.readPos, s.called, |outs|;
    RunningParts(s, ops, stream, outs);
    IssuedNext(ops, n);
    var op := ops[|outs|];
    var data := stream[op.offset..op.offset + op.len];
    ok := s.Push(data, op.offset, op.doneCb);
    if ok {
      SoundPush(q, s.queue, gs, s.gapTree.values, rp, ops, stream, outs);
      LonePush(ops, stream, outs, gs, rp, q, s.queue, data, called, s.called);
      RunningOn(s, ops, stream, outs + [[]]);
    }
  }

  method StepPop(s: FrameSorter, ops: seq<Op>, stream: seq<byte>, outs: seq<seq<byte>>) returns (data: seq<byte>)
    requires |stream| <= MAX_BYTE_COUNT && CutFrom(ops, stream) && |outs| < |ops| && ops[|outs|].PopOp?
    requires Running(s, ops, stream, outs)
    modifies s
    ensures Running(s, ops, stream, outs + [data])
  {
    hide Sound, Partition, Missing, FrameSorter.Places, LoneKept;
    ghost var q, rp, called := s.queue, s.readPos, s.called;
    var offset, chunk, doneCb := s.Pop();
    SoundPop(q, s.gapTree.values, rp, ops, stream, outs, chunk);
    LonePop(ops, |outs|, q, offset, called);
    data := chunk;
  }

  method Step(s: FrameSorter, ops: seq<Op>, stream: seq<byte>, outs: seq<seq<byte>>)
    returns (ok: bool, outs': seq<seq<byte>>)
    requires |stream| <= MAX_BYTE_COUNT && CutFrom(ops, stream) && |outs| < |ops|
    requires Running(s, ops, stream, outs)
    modifies s, s.gapTree
    ensures ok ==> |outs'| == |outs| + 1 && Running(s, ops, stream, outs')
    ensures !ok ==> outs' == outs
    ensures |s.gapTree.values| <= |old(s.gapTree.values)| + (if ops[|outs|].PushOp? then 1 else 0)
    ensures !ok ==> |s.gapTree.values| > MAX_STREAM_FRAME_SORTER_GAPS
  {
    hide Running, CutFrom;
    if ops[|outs|].PushOp? {
      ok := StepPush(s, ops, stream, outs);
      outs' := if ok then outs + [[]] else outs;
    } else {
      var data := StepPop(s, ops, stream, outs);
      outs', ok := outs + [data], true;
    }
  }

  lemma SoundStart(gs: set<ByteInterval>, ops: seq<Op>, stream: seq<byte>)
    requires gs == {ByteInterval(0, MAX_BYTE_COUNT)}
    ensures Sound(map[], gs, 0, ops, stream, [])
  {
    assert ByteInterval(0, MAX_BYTE_COUNT) in gs;
  }

  /**
   Runs any operations against a new sorter, up to the first push that fails because of too many
   gaps, of which there is none among the first 19999.  The popped chunks are a prefix of the
   stream; a pop is empty exactly when the next byte was never pushed; and every callback is in
   exactly one place.  The callback of a frame that overlaps no other is never called: its buffer
   is still stored, or was handed out.
   */
  method Reassemble(stream: seq<byte>, ops: seq<Op>)
    returns (ok: bool, outs: seq<seq<byte>>, called: multiset<Callback>, handed: multiset<Callback>,
             queue: map<int, Entry>)
    requires |stream| <= MAX_BYTE_COUNT && CutFrom(ops, stream)
    ensures |outs| <= |ops| && (ok <==> |outs| == |ops|)
    ensures NumPushes(ops, |ops|) < MAX_STREAM_FRAME_SORTER_GAPS ==> ok
    ensures Concat(outs) <= stream
    ensures PopsRight(ops, outs)
    ensures ok ==> forall c :: called[c] + handed[c] + |Holders(queue, c)| == Issued(ops, |ops|)[c]
    ensures ok ==> forall i, c :: Lone(ops, i, c) ==> called[c] == 0 && handed[c] + |Holders(queue, c)| == 1
  {
    hide Sound, Partition, Tracks, Agrees, PopsRight, Concat, CutFrom, Holders;
    var s := new FrameSorter();
    outs := [];
    ok := true;
    SoundStart(s.gapTree.values, ops, stream);
    SoundPrefix(s.queue, s.gapTree.values, s.readPos, ops, stream, outs);
    NoHolders();
    while |outs| < |ops| && ok
      invariant |outs| <= |ops| && fresh(s) && fresh(s.gapTree)
      invariant ok ==> Running(s, ops, stream, outs)
      invariant Concat(outs) <= stream && PopsRight(ops, outs)
      invariant !ok ==> |outs| < |ops|
      invariant ok ==> |s.gapTree.values| <= 1 + NumPushes(ops, |outs|)
      invariant !ok ==> NumPushes(ops, |ops|) >= MAX_STREAM_FRAME_SORTER_GAPS
      decreases |ops| - |outs|, ok
    {
      NumPushesGrow(ops, |outs| + 1, |ops|);
      ok, outs := Step(s, ops, stream, outs);
      if ok {
        SoundPrefix(s.queue, s.gapTree.values, s.readPos, ops, stream, outs);
      }
    }
    called, handed, queue := s.called, s.handed, s.queue;
    if ok {
      forall i, c | Lone(ops, i, c)
        ensures called[c] == 0 && handed[c] + |Holders(queue, c)| == 1
      {
        LoneIssued(ops, i, c, |ops|);
        assert s.Places(c) == Issued(ops, |ops|)[c];
      }
    }
  }
}
