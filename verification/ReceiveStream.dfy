/**
 The receiving side of a stream: STREAM and RESET_STREAM frames come in, the application reads
 and peeks.  Where the code waits for data, a method here returns `Blocked`; the wait is over when
 the method is called again.
 */
module ReceiveStreams {
  import opened Protocol
  import opened GapTree
  import opened FrameSorting
  import opened Reassembly
  import opened FlowControl

  datatype Outcome = Ok | Eof | Cancelled | Shutdown | Deadline | Blocked

  /** Reading did not go on for an error. */
  predicate Ended(out: Outcome) { out.Cancelled? || out.Shutdown? || out.Deadline? }

  /** What becomes of a frame; everything but `Accepted` closes the connection. */
  datatype Verdict = Accepted | WrongFinalSize | WindowExceeded | GapsExceeded

  function VerdictOf(err: FlowError): Verdict {
    match err
    case NoError => Accepted
    case FinalSizeError => WrongFinalSize
    case FlowControlError => WindowExceeded
  }

  /** What was received, and what may be. */
  function Limits(w: ReceiveWindow): (int, int) { (w.highestReceived, w.receiveWindow) }

  /** What was popped from the sorter ends at `popped`; the application has read up to `readPos`. */
  ghost predicate Reading(stream: seq<byte>, readPos: int, frame: Option<seq<byte>>, posInFrame: int, popped: int) {
    && 0 <= readPos <= popped <= |stream|
    && match frame {
         case None => popped == readPos
         case Some(d) =>
           && 0 <= posInFrame <= |d| && |d| > 0 && popped == readPos + |d| - posInFrame
           && |d| <= popped && d == stream[popped - |d|..popped]
       }
  }

  lemma AllRead(stream: seq<byte>, readPos: int, frame: Option<seq<byte>>, posInFrame: int, popped: int)
    requires Reading(stream, readPos, frame, posInFrame, popped)
    requires frame.None? || posInFrame >= |frame.value|
    ensures popped == readPos && 0 <= readPos <= |stream|
  {
  }

  lemma NextRead(stream: seq<byte>, readPos: int, data: seq<byte>)
    requires 0 <= readPos <= |stream|
    requires data != [] ==> readPos + |data| <= |stream| && data == stream[readPos..readPos + |data|]
    ensures Reading(stream, readPos, if |data| == 0 then None else Some(data), 0, readPos + |data|)
  {
  }

  lemma InFrame(stream: seq<byte>, readPos: int, d: seq<byte>, posInFrame: int, popped: int)
    requires Reading(stream, readPos, Some(d), posInFrame, popped)
    ensures 0 <= readPos <= |stream| && popped - readPos == |d| - posInFrame
  {
  }

  /** Reading `m` bytes of the current frame yields the next `m` bytes of the stream. */
  lemma ReadSome(stream: seq<byte>, readPos: int, d: seq<byte>, posInFrame: int, popped: int, m: int)
    requires Reading(stream, readPos, Some(d), posInFrame, popped) && 0 <= m <= |d| - posInFrame
    ensures 0 <= readPos <= readPos + m <= |stream| && 0 <= posInFrame
    ensures d[posInFrame..posInFrame + m] == stream[readPos..readPos + m]
    ensures Reading(stream, readPos + m, Some(d), posInFrame + m, popped)
  {
    Resliced(stream, popped - |d|, popped, posInFrame, posInFrame + m);
  }

  /** The buffer `p` with `s` written at index `at`. */
  function Written(p: seq<byte>, at: int, s: seq<byte>): (r: seq<byte>)
    requires 0 <= at && at + |s| <= |p|
    ensures |r| == |p|
  {
    p[..at] + s + p[at + |s|..]
  }

  method Copy(p: array<byte>, at: int, s: seq<byte>)
    requires 0 <= at && at + |s| <= p.Length
    modifies p
    ensures p[..] == Written(old(p[..]), at, s)
  {
    forall i | 0 <= i < |s| {
      p[at + i] := s[i];
    }
  }

  lemma WrittenNone(p: seq<byte>, at: int, stream: seq<byte>, a: int)
    requires 0 <= a <= |stream| && 0 <= at <= |p|
    ensures Written(p, at, stream[a..a]) == p
  {
  }

  lemma WrittenTwice(p: seq<byte>, stream: seq<byte>, a: int, b: int, c: int)
    requires 0 <= a <= b <= c <= |stream| && c - a <= |p|
    ensures Written(Written(p, 0, stream[a..b]), b - a, stream[b..c]) == Written(p, 0, stream[a..c])
  {
    assert stream[a..b] + stream[b..c] == stream[a..c];
  }

  /** The buffer held `p0` and holds `p`, since the bytes [a, b) of the stream were read. */
  predicate ReadInto(p0: seq<byte>, p: seq<byte>, stream: seq<byte>, a: int, b: int) {
    |p| == |p0| && 0 <= a <= b <= |stream| && b - a <= |p| && p == Written(p0, 0, stream[a..b])
  }

  lemma ReadIntoNone(p: seq<byte>, stream: seq<byte>, a: int)
    requires 0 <= a <= |stream|
    ensures ReadInto(p, p, stream, a, a)
  {
    WrittenNone(p, 0, stream, a);
  }

  lemma ReadOn(p0: seq<byte>, p: seq<byte>, p': seq<byte>, stream: seq<byte>, a: int, b: int, c: int)
    requires ReadInto(p0, p, stream, a, b) && b <= c <= |stream| && c - a <= |p|
    requires p' == Written(p, b - a, stream[b..c])
    ensures ReadInto(p0, p', stream, a, c)
  {
    hide Written;
    WrittenTwice(p0, stream, a, b, c);
  }

  lemma StoredByte(q: map<int, Entry>, stream: seq<byte>, x: int, b: byte)
    requires Agrees(q, stream) && StoredAt(q, x, b)
    ensures 0 <= x < |stream| && b == stream[x]
  {
    var k :| HeldBy(q, k, x) && q[k].data[x - k] == b;
  }

  lemma StoredIsStream(q: map<int, Entry>, stream: seq<byte>, a: int, s: seq<byte>)
    requires Agrees(q, stream) && |s| > 0
    requires forall i :: 0 <= i < |s| ==> StoredAt(q, a + i, s[i])
    ensures 0 <= a && a + |s| <= |stream| && s == stream[a..a + |s|]
  {
    hide *;
    StoredByte(q, stream, a + 0, s[0]);
    StoredByte(q, stream, a + (|s| - 1), s[|s| - 1]);
    forall i | 0 <= i < |s|
      ensures s[i] == stream[a + i]
    {
      StoredByte(q, stream, a + i, s[i]);
    }
  }

  /** Some byte of [a, b) has not arrived. */
  ghost predicate Waiting(gs: set<ByteInterval>, a: int, b: int) {
    exists x :: a <= x < b && Missing(gs, x)
  }

  lemma NothingMissingBelow(q: map<int, Entry>, gs: set<ByteInterval>, popped: int, a: int, b: int)
    requires Partition(q, gs, popped) && b <= popped
    ensures !Waiting(gs, a, b)
  {
  }

  lemma WaitingAt(gs: set<ByteInterval>, a: int, b: int)
    requires Missing(gs, a) && a < b
    ensures Waiting(gs, a, b)
  {
  }

  /** A run from the popped bytes on covers [a, b) exactly if no byte there is missing. */
  lemma RunCoversIff(q: map<int, Entry>, gs: set<ByteInterval>, popped: int, a: int, b: int)
    requires Partition(q, gs, popped) && a <= popped < b <= MAX_BYTE_COUNT
    ensures RunCovers(q, gs, popped, b) <==> !Waiting(gs, a, b)
  {
    NothingMissingBelow(q, gs, popped, a, popped);
    if popped !in q {
      PopNothing(q, gs, popped);
    }
  }

  /** `m` bytes of the current frame, before those peeked beyond it, if any. */
  lemma PeekedBytes(p: seq<byte>, stream: seq<byte>, a: int, m: int, total: int, r: seq<byte>)
    requires 0 <= a && 0 <= m && 0 <= total <= |p| && a + total <= |stream| && a + m <= |stream| && m <= |p|
    requires r == Written(if total > m then Written(p, m, stream[a + m..a + total]) else p, 0, stream[a..a + m])
    ensures r[..total] == stream[a..a + total]
  {
  }

  lemma NothingRead(stream: seq<byte>, readPos: int, posInFrame: int, m: int, popped: int)
    requires Reading(stream, readPos, None, posInFrame, popped) && m == 0
    ensures Reading(stream, readPos + m, None, posInFrame + m, popped)
  {
  }

  /** No stored frame reaches beyond `limit`. */
  ghost predicate Below(q: map<int, Entry>, limit: int) {
    forall k :: k in q ==> End(q, k) <= limit
  }

  lemma PoppedAgrees(q: map<int, Entry>, stream: seq<byte>, p: int, data: seq<byte>, limit: int)
    requires Agrees(q, stream) && (data != [] ==> p in q && data == q[p].data) && Below(q, limit)
    ensures Agrees(q - {p}, stream) && Below(q - {p}, limit)
    ensures data != [] ==> p + |data| <= limit
    ensures data != [] ==> 0 <= p && p + |data| <= |stream| && data == stream[p..p + |data|] && End(q, p) == p + |data|
  {
    forall k | k in q - {p}
      ensures End(q - {p}, k) == End(q, k)
    {
    }
  }

  lemma PushBelow(q: map<int, Entry>, q': map<int, Entry>, data: seq<byte>, offset: int, limit: int)
    requires OldOrNew(q, q', data, offset) && Below(q, limit) && offset + |data| <= limit
    ensures Below(q', limit)
  {
    forall k | k in q'
      ensures End(q', k) <= limit
    {
      assert k in q && q'[k].data == q[k].data ==> End(q', k) == End(q, k);
    }
  }

  lemma BelowMore(q: map<int, Entry>, limit: int, more: int)
    requires Below(q, limit) && limit <= more
    ensures Below(q, more)
  {
  }

  lemma NoCallback()
    ensures One(None) == multiset{}
  {
  }

  class ReceiveStream {
    /** The bytes the peer sends on this stream. */
    ghost const stream: seq<byte>

    const frameQueue: FrameSorter
    const flowController: StreamFlowController
    var finalOffset: int
    var currentFrame: Option<seq<byte>>
    var currentFrameDone: Option<Callback>
    var readPosInFrame: int
    var currentFrameIsLast: bool
    var cancelledRemotely: bool
    var cancelledLocally: bool
    var shutdown: bool
    var readPos: int
    var reliableSize: int

    /** Buffers of popped frames that were released. */
    var released: multiset<Callback>

    ghost predicate SorterOk()
      reads frameQueue, frameQueue.gapTree
    {
      frameQueue.Valid() && Agrees(frameQueue.queue, stream)
    }

    ghost predicate ReadOk()
      reads this`readPos, this`currentFrame, this`readPosInFrame, frameQueue`readPos
    {
      Reading(stream, readPos, currentFrame, readPosInFrame, frameQueue.readPos)
    }

    /** The final offset is the one flow control settled on, and nothing lies beyond it. */
    ghost predicate FinalOk()
      reads this`finalOffset, this`currentFrameIsLast, flowController`recv, flowController`receivedFinalOffset,
            this`cancelledRemotely, this`reliableSize, frameQueue`queue, frameQueue`readPos
    {
      && (cancelledRemotely ==> flowController.receivedFinalOffset)
      && 0 <= reliableSize <= finalOffset && (!flowController.receivedFinalOffset ==> reliableSize == 0)
      && (if flowController.receivedFinalOffset then finalOffset == flowController.recv.highestReceived
          else finalOffset == MAX_BYTE_COUNT)
      && flowController.recv.highestReceived <= finalOffset <= MAX_BYTE_COUNT
      && frameQueue.readPos <= flowController.recv.highestReceived
      && Below(frameQueue.queue, flowController.recv.highestReceived)
      && (currentFrameIsLast ==> frameQueue.readPos == finalOffset)
    }

    /** Every popped buffer was released, except the one being read. */
    ghost predicate BuffersOk()
      reads this`released, this`currentFrameDone, this`currentFrame, this`currentFrameIsLast, frameQueue`handed
    {
      frameQueue.handed == released + (if AtEof() then multiset{} else One(currentFrameDone))
    }

    /** Credit was returned for what was read, or for everything once a reset took effect. */
    ghost predicate CreditOk()
      reads this`readPos, this`cancelledRemotely, this`cancelledLocally, this`reliableSize, flowController`recv
    {
      && !cancelledLocally ==>
        flowController.recv.bytesRead ==
          if RemoteCancellationEffective() then flowController.recv.highestReceived else readPos
    }

    ghost predicate Valid()
      reads this, frameQueue, frameQueue.gapTree, flowController, flowController.connection
    {
      && |stream| <= MAX_BYTE_COUNT
      && SorterOk() && ReadOk() && FinalOk() && BuffersOk() && CreditOk()
    }

    /** There is something to read in the current frame, or nothing at the read position. */
    ghost predicate Fetched()
      reads this`currentFrame, this`readPosInFrame, this`currentFrameDone, this`currentFrameIsLast, this`readPos,
            this`finalOffset, this`cancelledRemotely, frameQueue`readPos, frameQueue.gapTree`values
    {
      if currentFrame.Some? then
        readPosInFrame < |currentFrame.value|
      else
        && currentFrameDone == None
        && (readPos == MAX_BYTE_COUNT || Missing(frameQueue.gapTree.values, readPos))
        && FlagFits()
    }

    /** `Read` was told that the stream is over. */
    predicate AtEof()
      reads this`currentFrame, this`currentFrameIsLast
    {
      currentFrameIsLast && currentFrame.None?
    }

    /** The last flag of the current frame fits what is known about the end of the stream. */
    predicate FlagFits()
      reads this`currentFrameIsLast, this`finalOffset, this`cancelledRemotely, frameQueue`readPos
    {
      currentFrameIsLast <==> frameQueue.readPos >= finalOffset && !cancelledRemotely
    }

    /** The frame being read ends the stream, but was fetched before that was known. */
    predicate EndUnnoticed()
      reads this`currentFrame, this`readPosInFrame, this`currentFrameIsLast, this`finalOffset, frameQueue`readPos
    {
      && currentFrame.Some? && readPosInFrame < |currentFrame.value|
      && frameQueue.readPos == finalOffset && !currentFrameIsLast
    }

    /** No frame fetched since it was not `unnoticed` ends the stream unnoticed. */
    predicate StaysNoticed(unnoticed: bool)
      reads this`currentFrame, this`readPosInFrame, this`currentFrameIsLast, this`finalOffset, this`cancelledRemotely,
            frameQueue`readPos
    {
      EndUnnoticed() && !cancelledRemotely ==> unnoticed
    }

    /** Where a peek has to stop waiting: at the final offset, or before it at the reliable size of a reset. */
    function PeekLimit(): int
      reads this`finalOffset, this`cancelledRemotely, this`reliableSize
    {
      if cancelledRemotely then Min(reliableSize, finalOffset) else finalOffset
    }

    /** The bytes [a, b) have all arrived. */
    ghost predicate Present(a: int, b: int)
      reads frameQueue.gapTree`values
    {
      b <= MAX_BYTE_COUNT && !Waiting(frameQueue.gapTree.values, a, b)
    }

    /** At `pos`, neither the application nor a reset has ended reading. */
    predicate Readable(pos: int)
      reads this`shutdown, this`cancelledLocally, this`cancelledRemotely, this`reliableSize
    {
      Open() && !(cancelledRemotely && pos >= reliableSize)
    }

    /** Reading changes nothing about what was received and may be. */
    predicate LimitsKept(w: ReceiveWindow, c: ReceiveWindow)
      reads flowController`recv, flowController.connection`recv
    {
      Limits(flowController.recv) == Limits(w) && Limits(flowController.connection.recv) == Limits(c)
    }

    /** A frame up to `end` counts as received, here and on the connection; the windows stay. */
    predicate Counted(w: ReceiveWindow, c: ReceiveWindow, end: int)
      reads this`shutdown, flowController`recv, flowController.connection`recv
    {
      var more := if shutdown then 0 else Max(0, end - w.highestReceived);
      && Limits(flowController.recv) == (w.highestReceived + more, w.receiveWindow)
      && Limits(flowController.connection.recv) == (c.highestReceived + more, c.receiveWindow)
    }

    /** Neither cancelled by the application nor shut down. */
    predicate Open()
      reads this`shutdown, this`cancelledLocally
    {
      !shutdown && !cancelledLocally
    }

    /** Reading is open, and the bytes from here to the end of the stream have all arrived. */
    ghost predicate AllHere()
      reads this`shutdown, this`cancelledLocally, this`cancelledRemotely, this`readPos, this`finalOffset,
            frameQueue.gapTree`values
    {
      Open() && !cancelledRemotely && Present(readPos, finalOffset)
    }

    /** The frame at the read position is the current one, and was taken from the queue `q`. */
    ghost predicate NextFetched(q: map<int, Entry>)
      reads this`currentFrame, this`readPosInFrame, this`currentFrameIsLast, this`finalOffset, this`cancelledRemotely,
            this`readPos, frameQueue`readPos
    {
      && FlagFits() && readPosInFrame == 0
      && currentFrame == (if readPos in q then Some(q[readPos].data) else None)
      && frameQueue.readPos == (if readPos in q then End(q, readPos) else readPos)
    }

    /** Byte `x` has not arrived. */
    ghost predicate Lacks(x: int)
      reads frameQueue.gapTree`values
    {
      Missing(frameQueue.gapTree.values, x)
    }

    /**
     A read at `pos` into a buffer that held `p0` and now holds `p` returned `n` bytes, the next
     ones of the stream, and ended for its reason.  `unnoticed` says whether the current frame was
     then `EndUnnoticed`.
     */
    ghost predicate ReadResult(p0: seq<byte>, p: seq<byte>, pos: int, n: int, out: Outcome, deadline: Option<nat>,
                               unnoticed: bool)
      reads this`readPos, this`currentFrame, this`currentFrameIsLast, this`finalOffset, this`cancelledLocally,
            this`cancelledRemotely, this`reliableSize, this`shutdown, this`readPosInFrame, frameQueue`readPos,
            frameQueue.gapTree`values
    {
      && 0 <= n <= |p| && readPos == pos + n && ReadInto(p0, p, stream, pos, readPos)
      && Present(pos, readPos) && (n > 0 ==> Readable(pos)) && StaysNoticed(unnoticed)
      && match out
         case Ok =>
           && (if n < |p| then n > 0 && (readPos == MAX_BYTE_COUNT || Lacks(readPos))
               else !RemoteCancellationEffective())
           && (n > 0 && readPos == finalOffset && !cancelledRemotely ==> unnoticed)
         case Eof => AtEof() && readPos == finalOffset && !unnoticed
         case Cancelled => cancelledLocally || RemoteCancellationEffective()
         case Shutdown => shutdown
         case Deadline => deadline.Some? && deadline.value <= n < |p|
         case Blocked =>
           && Readable(readPos) && readPos < PeekLimit()
           && n == 0 && |p| > 0 && !AtEof() && currentFrame.None? && Lacks(readPos)
    }

    /** A peek returned the `n` bytes `b[..n]` that follow the read position, and ended for its reason. */
    ghost predicate PeekResult(b: seq<byte>, n: int, out: Outcome, expired: bool)
      reads this`readPos, this`currentFrame, this`currentFrameIsLast, this`finalOffset, this`cancelledLocally,
            this`cancelledRemotely, this`reliableSize, this`shutdown, frameQueue.gapTree`values
    {
      && 0 <= n <= |b| && 0 <= readPos && readPos + n <= |stream| && b[..n] == stream[readPos..readPos + n]
      && Present(readPos, readPos + n) && (n > 0 ==> Readable(readPos))
      && match out
         case Ok => n == |b|
         case Eof => readPos + n == finalOffset
         case Cancelled =>
           if n == 0 then cancelledLocally || RemoteCancellationEffective()
           else cancelledRemotely && readPos + n == reliableSize
         case Shutdown => shutdown && n == 0
         case Deadline => expired && n == 0
         case Blocked =>
           && Readable(readPos) && n == 0 && !AtEof()
           && Waiting(frameQueue.gapTree.values, readPos, Min(readPos + |b|, PeekLimit()))
    }

    predicate RemoteCancellationEffective()
      reads this`cancelledRemotely, this`readPos, this`reliableSize
    {
      cancelledRemotely && readPos >= reliableSize
    }

    constructor (ghost stream: seq<byte>, flowController: StreamFlowController)
      requires |stream| <= MAX_BYTE_COUNT
      requires flowController.recv.bytesRead == flowController.recv.highestReceived == 0
      requires !flowController.receivedFinalOffset
      ensures Valid() && fresh(frameQueue) && fresh(frameQueue.gapTree)
      ensures this.stream == stream && this.flowController == flowController && readPos == 0
      ensures finalOffset == MAX_BYTE_COUNT && currentFrame.None? && !currentFrameIsLast
      ensures Open() && !cancelledRemotely && reliableSize == 0
      ensures frameQueue.gapTree.values == {ByteInterval(0, MAX_BYTE_COUNT)}
      ensures frameQueue.queue == map[] && frameQueue.readPos == 0
    {
      this.stream := stream;
      this.flowController := flowController;
      frameQueue := new FrameSorter();
      finalOffset, currentFrame, currentFrameDone := MAX_BYTE_COUNT, None, None;
      readPosInFrame, currentFrameIsLast := 0, false;
      cancelledRemotely, cancelledLocally, shutdown := false, false, false;
      readPos, reliableSize, released := 0, 0, multiset{};
    }

    // ---------------------------------------------------------------- frames from the peer

    /** A STREAM frame: the bytes [offset, offset + len) of the stream, `fin` if they are the last. */
    method HandleStreamFrame(data: seq<byte>, offset: int, fin: bool, doneCb: Option<Callback>) returns (v: Verdict)
      requires Valid() && 0 <= offset && offset + |data| <= |stream| && data == stream[offset..offset + |data|]
      modifies this`finalOffset, frameQueue`queue, frameQueue`called, frameQueue.gapTree,
               flowController`recv, flowController`receivedFinalOffset, flowController.connection`recv
      ensures v == Accepted ==> Valid()
      ensures v == Accepted && old(flowController.receivedFinalOffset) ==> finalOffset == old(finalOffset)
      ensures v == Accepted && !shutdown ==> finalOffset == if fin then offset + |data| else old(finalOffset)
      ensures v == Accepted && Open() ==> forall x ::
        Lacks(x) <==> old(Lacks(x)) && !(offset <= x < offset + |data|)
      ensures v == Accepted && Open() ==>
        Settled(old(frameQueue.queue), old(frameQueue.gapTree.values), frameQueue.queue, data, offset, doneCb)
      ensures v == Accepted ==>
        Counted(old(flowController.recv), old(flowController.connection.recv), offset + |data|)
      ensures v == Accepted ==>
        flowController.receivedFinalOffset == (old(flowController.receivedFinalOffset) || (fin && !shutdown))
      // when it is refused
      ensures shutdown ==> v == Accepted && finalOffset == old(finalOffset)
      ensures !shutdown ==> (v == WrongFinalSize <==> old(flowController.WrongFinalSize(offset + |data|, fin)))
      ensures !shutdown ==> (v == WindowExceeded <==>
        old(!flowController.WrongFinalSize(offset + |data|, fin) && flowController.ExceedsWindow(offset + |data|)))
      ensures |frameQueue.gapTree.values| <= |old(frameQueue.gapTree.values)| + 1
      ensures v == GapsExceeded ==> Open() && |frameQueue.gapTree.values| > MAX_STREAM_FRAME_SORTER_GAPS
    {
      hide SorterOk, ReadOk, BuffersOk, Missing, Settled;
      if shutdown {
        return Accepted;
      }
      var maxOffset := offset + |data|;
      var err := flowController.UpdateHighestReceived(maxOffset, fin);
      if !err.NoError? {
        return VerdictOf(err);
      }
      if fin {
        finalOffset := maxOffset;
      }
      if cancelledLocally {
        return Accepted;
      }
      var ok := StoreData(data, offset, doneCb);
      v := if ok then Accepted else GapsExceeded;
    }

    method StoreData(data: seq<byte>, offset: int, doneCb: Option<Callback>) returns (ok: bool)
      requires SorterOk() && FinalOk() && 0 <= offset && offset + |data| <= |stream| <= MAX_BYTE_COUNT
      requires data == stream[offset..offset + |data|] && offset + |data| <= flowController.recv.highestReceived
      modifies frameQueue`queue, frameQueue`called, frameQueue.gapTree
      ensures ok ==> SorterOk() && FinalOk()
      ensures ok ==>
        Settled(old(frameQueue.queue), old(frameQueue.gapTree.values), frameQueue.queue, data, offset, doneCb)
      ensures ok ==> forall x :: Lacks(x) <==> old(Lacks(x)) && !(offset <= x < offset + |data|)
      ensures |frameQueue.gapTree.values| <= |old(frameQueue.gapTree.values)| + 1
      ensures !ok ==> |frameQueue.gapTree.values| > MAX_STREAM_FRAME_SORTER_GAPS
    {
      hide Partition, Missing, OldOrNew, Agrees, Below, Settled, MayCall, AllMissing;
      ghost var q := frameQueue.queue;
      ok := frameQueue.Push(data, offset, doneCb);
      if ok {
        PushAgrees(q, frameQueue.queue, stream, offset, |data|);
        PushBelow(q, frameQueue.queue, data, offset, flowController.recv.highestReceived);
      }
    }

    /** The stream ends at `finalSize`, unless flow control objects. */
    method LearnFinalSize(finalSize: int) returns (v: Verdict)
      requires FinalOk() && 0 <= finalSize <= MAX_BYTE_COUNT
      modifies this`finalOffset, flowController`recv, flowController`receivedFinalOffset, flowController.connection`recv
      ensures v == Accepted ==> FinalOk() && flowController.receivedFinalOffset && finalOffset == finalSize
      ensures v == Accepted && old(flowController.receivedFinalOffset) ==> finalOffset == old(finalOffset)
      ensures v == Accepted ==> flowController.recv.bytesRead == old(flowController.recv.bytesRead)
      ensures v == Accepted && !shutdown ==>
        Counted(old(flowController.recv), old(flowController.connection.recv), finalSize)
      ensures v == Accepted && old(flowController.receivedFinalOffset) ==>
        flowController.recv.highestReceived == old(flowController.recv.highestReceived)
      ensures v == WrongFinalSize <==> old(flowController.WrongFinalSize(finalSize, true))
      ensures v == WindowExceeded <==>
        old(!flowController.WrongFinalSize(finalSize, true) && flowController.ExceedsWindow(finalSize))
      ensures v != GapsExceeded
    {
      hide Below;
      ghost var limit := flowController.recv.highestReceived;
      var err := flowController.UpdateHighestReceived(finalSize, true);
      if !err.NoError? {
        return VerdictOf(err);
      }
      finalOffset := finalSize;
      BelowMore(frameQueue.queue, limit, flowController.recv.highestReceived);
      v := Accepted;
    }

    /** The reliable size after a reset: that of the first one, or a smaller one of a later one. */
    function SmallestReliable(frameReliableSize: int): int
      reads this`reliableSize, this`cancelledRemotely
    {
      if !cancelledRemotely && reliableSize == 0 then frameReliableSize else Min(reliableSize, frameReliableSize)
    }

    /** The reliable size only shrinks; once everything below it was read, all credit is given back. */
    method TakeReset(frameReliableSize: int, threshold: real)
      requires FinalOk() && flowController.receivedFinalOffset && 0 <= frameReliableSize <= finalOffset
      requires !cancelledLocally ==> flowController.recv.bytesRead <= flowController.recv.highestReceived
      requires !cancelledLocally && !RemoteCancellationEffective() ==> flowController.recv.bytesRead == readPos
      requires !cancelledLocally && RemoteCancellationEffective() ==>
        flowController.recv.bytesRead == flowController.recv.highestReceived
      modifies this`reliableSize, this`cancelledRemotely, flowController`recv, flowController.connection`recv
      ensures FinalOk() && CreditOk()
      ensures LimitsKept(old(flowController.recv), old(flowController.connection.recv))
      ensures cancelledRemotely == (old(cancelledRemotely) || !cancelledLocally)
      ensures reliableSize == old(SmallestReliable(frameReliableSize))
    {
      hide Below;
      if (!cancelledRemotely && reliableSize == 0) || frameReliableSize < reliableSize {
        reliableSize := frameReliableSize;
      }
      if readPos >= reliableSize {
        flowController.Abandon(threshold);
      }
      if cancelledRemotely {
        return;
      }
      if cancelledLocally {
        return;
      }
      cancelledRemotely := true;
    }

    /** A RESET_STREAM frame; data below `frameReliableSize` is still to be delivered. */
    method HandleResetStreamFrame(finalSize: int, frameReliableSize: int, threshold: real) returns (v: Verdict)
      requires Valid() && 0 <= frameReliableSize <= finalSize <= MAX_BYTE_COUNT
      modifies this`finalOffset, this`reliableSize, this`cancelledRemotely,
               flowController`recv, flowController`receivedFinalOffset, flowController.connection`recv
      ensures v == Accepted ==> Valid()
      ensures v == Accepted && old(flowController.receivedFinalOffset) ==> finalOffset == old(finalOffset)
      ensures v == Accepted && !shutdown ==> finalOffset == finalSize
      ensures v == Accepted ==> cancelledRemotely == (old(cancelledRemotely) || Open())
      ensures v == Accepted && !shutdown ==> reliableSize == old(SmallestReliable(frameReliableSize))
      ensures v == Accepted ==> Counted(old(flowController.recv), old(flowController.connection.recv), finalSize)
      ensures v == Accepted ==>
        flowController.receivedFinalOffset == (old(flowController.receivedFinalOffset) || !shutdown)
      ensures shutdown ==> v == Accepted && unchanged(this)
      // when it is refused
      ensures !shutdown ==> (v == WrongFinalSize <==> old(flowController.WrongFinalSize(finalSize, true)))
      ensures !shutdown ==> (v == WindowExceeded <==>
        old(!flowController.WrongFinalSize(finalSize, true) && flowController.ExceedsWindow(finalSize)))
      ensures v != GapsExceeded
    {
      hide SorterOk, ReadOk, BuffersOk, Below;
      if shutdown {
        return Accepted;
      }
      ReadWithinReceived();
      v := LearnFinalSize(finalSize);
      if v == Accepted {
        TakeReset(frameReliableSize, threshold);
      }
    }

    /** Whatever was read has arrived. */
    lemma ReadIsPresent(a: int)
      requires Valid()
      ensures Present(a, readPos)
    {
      hide FinalOk, BuffersOk, CreditOk, Waiting, Missing, Agrees, EntriesApart, GapsApart, EntriesOffGaps, Unread,
        Tiled;
      NothingMissingBelow(frameQueue.queue, frameQueue.gapTree.values, frameQueue.readPos, a, readPos);
    }

    /** Whatever was popped has arrived. */
    lemma PoppedIsPresent(a: int)
      requires Valid()
      ensures !Waiting(frameQueue.gapTree.values, a, frameQueue.readPos) && 0 <= frameQueue.readPos <= MAX_BYTE_COUNT
    {
      hide FinalOk, BuffersOk, CreditOk, Waiting, Missing, Agrees, EntriesApart, GapsApart, EntriesOffGaps, Unread,
        Tiled;
      NothingMissingBelow(frameQueue.queue, frameQueue.gapTree.values, frameQueue.readPos, a, frameQueue.readPos);
    }

    lemma ReadPosWithin()
      requires Valid()
      ensures 0 <= readPos <= |stream|
    {
      hide SorterOk, FinalOk, BuffersOk, CreditOk;
    }

    /** Reading stays within what was popped, which stays within the stream. */
    lemma ReadBounds()
      requires Valid()
      ensures readPos <= frameQueue.readPos <= finalOffset <= MAX_BYTE_COUNT
      ensures readPos < frameQueue.readPos <==> currentFrame.Some? && readPosInFrame < |currentFrame.value|
    {
      hide SorterOk, BuffersOk, CreditOk, Below;
    }

    lemma ReadWithinReceived()
      requires ReadOk() && FinalOk()
      ensures readPos <= flowController.recv.highestReceived
    {
      hide Below;
    }

    // ---------------------------------------------------------------- reading

    /** The buffer of the frame that was read goes back. */
    method ReleaseDone()
      requires BuffersOk() && (AtEof() ==> currentFrameDone == None)
      modifies this`released
      ensures frameQueue.handed == released
    {
      if currentFrameDone.Some? {
        released := released + multiset{currentFrameDone.value};
      }
    }

    /** Puts a popped frame, or nothing, in place of the current one. */
    method Install(data: seq<byte>, doneCb: Option<Callback>, isLast: bool)
      requires frameQueue.handed == released + One(doneCb) && (data == [] ==> doneCb == None)
      requires Reading(stream, readPos, if |data| == 0 then None else Some(data), 0, frameQueue.readPos)
      modifies this`currentFrame, this`currentFrameDone, this`currentFrameIsLast, this`readPosInFrame
      ensures BuffersOk() && ReadOk() && currentFrameIsLast == isLast
      ensures readPosInFrame == 0 && currentFrameDone == doneCb
      ensures currentFrame == if |data| == 0 then None else Some(data)
    {
      hide Reading, One;
      NoCallback();
      currentFrame := if |data| == 0 then None else Some(data);
      currentFrameDone := doneCb;
      currentFrameIsLast := isLast;
      readPosInFrame := 0;
    }

    /** Releases the frame that was read, and takes the next one from the sorter, if it is there. */
    method DequeueNextFrame()
      requires Valid() && (currentFrame.None? || readPosInFrame >= |currentFrame.value|)
      requires !AtEof()
      modifies this`currentFrame, this`currentFrameDone, this`currentFrameIsLast, this`readPosInFrame, this`released,
               frameQueue`queue, frameQueue`readPos, frameQueue`handed
      ensures Valid()
      ensures Fetched() && NextFetched(old(frameQueue.queue))
    {
      hide FrameSorter.Valid, FrameSorter.Places, Missing, CreditOk, Agrees, Below, Reading, BuffersOk;
      ghost var q, rp := frameQueue.queue, frameQueue.readPos;
      AllRead(stream, readPos, currentFrame, readPosInFrame, rp);
      ReleaseDone();
      var offset, data, doneCb := frameQueue.Pop();
      PoppedAgrees(q, stream, rp, data, flowController.recv.highestReceived);
      NextRead(stream, readPos, data);
      Install(data, doneCb, offset + |data| >= finalOffset && !cancelledRemotely);
    }

    /** Copies as much as fits from the current frame to `p`, from `at` on. */
    method CopyOut(p: array<byte>, at: int) returns (m: int)
      requires ReadOk() && 0 <= at <= p.Length
      modifies p
      ensures m == if currentFrame.None? then 0 else Min(p.Length - at, |currentFrame.value| - readPosInFrame)
      ensures 0 <= m && 0 <= readPos && at + m <= p.Length && readPos + m <= |stream|
      ensures p[..] == Written(old(p[..]), at, stream[readPos..readPos + m])
    {
      hide Written;
      var d := if currentFrame.None? then [] else currentFrame.value[readPosInFrame..];
      m := Min(p.Length - at, |d|);
      if currentFrame.Some? {
        ReadSome(stream, readPos, currentFrame.value, readPosInFrame, frameQueue.readPos, m);
      }
      Copy(p, at, d[..m]);
      assert d[..m] == stream[readPos..readPos + m];
    }

    /** Counts `m` bytes as read, here and in flow control. */
    method Consume(m: int, threshold: real)
      requires Valid() && !cancelledLocally && !RemoteCancellationEffective()
      requires 0 <= m <= if currentFrame.None? then 0 else |currentFrame.value| - readPosInFrame
      modifies this`readPosInFrame, this`readPos, flowController`recv, flowController.connection`recv
      ensures Valid() && readPos == old(readPos) + m && readPosInFrame == old(readPosInFrame) + m
      ensures LimitsKept(old(flowController.recv), old(flowController.connection.recv))
    {
      hide SorterOk, BuffersOk, Below, Reading;
      if currentFrame.Some? {
        ReadSome(stream, readPos, currentFrame.value, readPosInFrame, frameQueue.readPos, m);
      } else {
        NothingRead(stream, readPos, readPosInFrame, m, frameQueue.readPos);
      }
      if !RemoteCancellationEffective() {
        var _, _ := flowController.AddBytesRead(m, threshold);
      }
      readPosInFrame := readPosInFrame + m;
      readPos := readPos + m;
      if RemoteCancellationEffective() {
        flowController.Abandon(threshold);
      }
    }

    /** Reading the last frame to its end is reading up to the final offset. */
    lemma EndIsFinal()
      requires ReadOk() && FinalOk() && currentFrameIsLast
      requires currentFrame.None? || readPosInFrame >= |currentFrame.value|
      ensures readPos == finalOffset && Reading(stream, readPos, None, readPosInFrame, frameQueue.readPos)
    {
      hide Below;
    }

    method DropFrame()
      requires frameQueue.handed == released && currentFrameIsLast
      requires Reading(stream, readPos, None, readPosInFrame, frameQueue.readPos)
      modifies this`currentFrame
      ensures BuffersOk() && ReadOk() && AtEof()
    {
      hide Reading;
      currentFrame := None;
    }

    /** The last frame was read: its buffer goes back, and the stream is at its end. */
    method FinishLast()
      requires Valid() && currentFrameIsLast
      requires (if currentFrame.Some? then readPosInFrame >= |currentFrame.value| else currentFrameDone == None)
      modifies this`currentFrame, this`released
      ensures Valid() && AtEof() && readPos == finalOffset
    {
      hide SorterOk, ReadOk, FinalOk, BuffersOk, CreditOk, Reading, One;
      EndIsFinal();
      ReleaseDone();
      DropFrame();
    }

    /**
     One round of the loop in `Read`, once a frame was fetched: the checks, then the copy.
     `expired` says that the deadline has passed.
     */
    method ReadRound(p: array<byte>, bytesRead: int, expired: bool, threshold: real)
      returns (n: int, out: Option<Outcome>)
      requires Valid() && Fetched() && 0 <= bytesRead < p.Length
      modifies this`readPosInFrame, this`readPos, this`currentFrame, this`released, flowController`recv,
               flowController.connection`recv, p
      ensures Valid()
      ensures bytesRead <= n <= p.Length && 0 <= old(readPos) <= readPos == old(readPos) + n - bytesRead <= |stream|
      ensures p[..] == Written(old(p[..]), bytesRead, stream[old(readPos)..readPos])
      ensures out.None? ==>
        && n > bytesRead && !AtEof() && (readPos == finalOffset ==> !currentFrameIsLast)
        && (n < p.Length ==> currentFrame.Some? && readPosInFrame >= |currentFrame.value|)
      ensures out == Some(Eof) ==>
        AtEof() && readPos == finalOffset && (old(currentFrame).Some? ==> n > bytesRead)
      ensures out != Some(Ok) && (out == Some(Blocked) ==> old(currentFrame).None? && currentFrame.None?)
      ensures out == Some(Blocked) ==>
        Readable(readPos) && n == bytesRead && !AtEof() && Lacks(readPos) && readPos < PeekLimit()
      ensures n > bytesRead ==> Readable(old(readPos))
      ensures out == Some(Cancelled) ==> n == bytesRead && (cancelledLocally || RemoteCancellationEffective())
      ensures expired ==> n == bytesRead && out.Some? && Ended(out.value)
      ensures (out == Some(Deadline) ==> expired && n == bytesRead) && (out == Some(Shutdown) ==> shutdown)
      ensures LimitsKept(old(flowController.recv), old(flowController.connection.recv))
    {
      hide SorterOk, BuffersOk, Below, CreditOk, Missing, Written;
      n := bytesRead;
      WrittenNone(p[..], bytesRead, stream, readPos);
      if shutdown {
        return n, Some(Shutdown);
      }
      if cancelledLocally || RemoteCancellationEffective() {
        return n, Some(Cancelled);
      }
      if expired {
        return n, Some(Deadline);
      }
      if currentFrame.None? && !currentFrameIsLast {
        return n, Some(Blocked);
      }
      var m := CopyOut(p, bytesRead);
      Consume(m, threshold);
      n := bytesRead + m;
      if (currentFrame.None? || readPosInFrame >= |currentFrame.value|) && currentFrameIsLast {
        FinishLast();
        return n, Some(Eof);
      }
      out := None;
    }

    /** One round of the loop in `Read` that began at `pos` with a buffer that held `p0`, once a frame was fetched. */
    method FetchedRound(p: array<byte>, bytesRead: int, expired: bool, threshold: real, ghost p0: seq<byte>,
                        ghost pos: int, ghost unnoticed: bool)
      returns (n: int, out: Option<Outcome>)
      requires Valid() && Fetched() && 0 <= bytesRead < p.Length
      requires bytesRead > 0 ==> currentFrame.Some? && Readable(pos)
      requires readPos == pos + bytesRead && ReadInto(p0, p[..], stream, pos, readPos)
      requires frameQueue.readPos == finalOffset && !currentFrameIsLast && !cancelledRemotely ==> unnoticed
      requires unnoticed ==> if bytesRead == 0 then EndUnnoticed() else readPos == finalOffset
      modifies this`readPosInFrame, this`readPos, this`currentFrame, this`released, flowController`recv,
               flowController.connection`recv, p
      ensures Valid() && bytesRead <= n <= p.Length && readPos == pos + n && ReadInto(p0, p[..], stream, pos, readPos)
      ensures out.None? ==> n > bytesRead && Readable(pos) && !AtEof()
      ensures out.None? && n < p.Length ==> currentFrame.Some? && readPosInFrame >= |currentFrame.value|
      ensures out.None? ==> StaysNoticed(unnoticed) && (readPos == finalOffset && !cancelledRemotely ==> unnoticed)
      ensures out.None? && n < p.Length && unnoticed ==> readPos == finalOffset
      ensures out.Some? ==>
        ReadResult(p0, p[..], pos, n, out.value, if expired then Some(bytesRead) else None, unnoticed)
      ensures expired ==> n == bytesRead && out.Some? && Ended(out.value)
      ensures LimitsKept(old(flowController.recv), old(flowController.connection.recv))
    {
      hide Valid, Present, Missing, Written, ReadInto;
      ReadPosWithin();
      ghost var start, before := readPos, p[..];
      ReadBounds();
      n, out := ReadRound(p, bytesRead, expired, threshold);
      ReadBounds();
      ReadOn(p0, before, p[..], stream, pos, start, readPos);
      ReadIsPresent(pos);
    }

    /**
     The body of the loop in `Read`, for a buffer that held `p0` when `Read` began at `pos`: it fetches
     a frame, unless it just woke up with one, and goes for one round.
     */
    method NextRound(p: array<byte>, bytesRead: int, awake: bool, expired: bool, threshold: real, ghost p0: seq<byte>,
                     ghost pos: int, ghost unnoticed: bool)
      returns (n: int, out: Option<Outcome>)
      requires Valid() && 0 <= bytesRead < p.Length
      requires if awake then Fetched() && FlagFits() && bytesRead == 0 else !AtEof()
      requires readPos == pos + bytesRead && ReadInto(p0, p[..], stream, pos, readPos)
      requires bytesRead > 0 ==> Readable(pos) && currentFrame.Some? && readPosInFrame >= |currentFrame.value|
      requires bytesRead > 0 && readPos == finalOffset && !cancelledRemotely ==> unnoticed
      requires if bytesRead == 0 then unnoticed == (!awake && EndUnnoticed()) else unnoticed ==> readPos == finalOffset
      modifies this`readPosInFrame, this`readPos, this`currentFrame, this`currentFrameDone, this`currentFrameIsLast,
               this`released, frameQueue`queue, frameQueue`readPos, frameQueue`handed,
               flowController`recv, flowController.connection`recv, p
      ensures Valid() && bytesRead <= n <= p.Length && readPos == pos + n && ReadInto(p0, p[..], stream, pos, readPos)
      ensures out.None? ==> n > bytesRead && Readable(pos) && !AtEof()
      ensures out.None? && n < p.Length ==> currentFrame.Some? && readPosInFrame >= |currentFrame.value|
      ensures out.None? ==> StaysNoticed(unnoticed) && (readPos == finalOffset && !cancelledRemotely ==> unnoticed)
      ensures out.None? && n < p.Length && unnoticed ==> readPos == finalOffset
      ensures out.Some? ==>
        ReadResult(p0, p[..], pos, n, out.value, if expired then Some(bytesRead) else None, unnoticed)
      // nothing is read once the deadline has passed
      ensures expired ==> n == bytesRead && out.Some? && (bytesRead == 0 ==> Ended(out.value))
      ensures LimitsKept(old(flowController.recv), old(flowController.connection.recv))
    {
      hide Valid, Present, Missing, Written, ReadInto;
      n := bytesRead;
      if !awake && (currentFrame.None? || readPosInFrame >= |currentFrame.value|) {
        DequeueNextFrame();
      }
      ReadIsPresent(pos);
      if currentFrame.None? && n > 0 {
        return n, Some(if shutdown then Shutdown else Ok);
      }
      ReadBounds();
      n, out := FetchedRound(p, n, expired, threshold, p0, pos, unnoticed);
    }

    /**
     The loop in `Read`, from its start or, if `woken`, from where it waited.  The deadline, if
     there is one, passes after `deadline.value` looks at the clock.
     */
    method ReadLoop(p: array<byte>, woken: bool, deadline: Option<nat>, threshold: real) returns (n: int, out: Outcome)
      requires Valid() && !AtEof() && (woken ==> p.Length > 0 && currentFrame.None?)
      modifies this`readPosInFrame, this`readPos, this`currentFrame, this`currentFrameDone, this`currentFrameIsLast,
               this`released, frameQueue`queue, frameQueue`readPos, frameQueue`handed,
               flowController`recv, flowController.connection`recv, p
      ensures Valid()
      ensures ReadResult(old(p[..]), p[..], old(readPos), n, out, deadline, old(EndUnnoticed()))
      ensures deadline == Some(0) && p.Length > 0 ==> n == 0 && Ended(out)
      ensures out == Eof ==> p.Length > 0
      ensures LimitsKept(old(flowController.recv), old(flowController.connection.recv))
    {
      hide Valid, Present, Missing, ReadInto, Fetched, Readable;
      n := 0;
      ReadPosWithin();
      ReadIntoNone(p[..], stream, readPos);
      var round, awake := 0, woken;
      if woken {
        DequeueNextFrame();
      }
      while n < p.Length
        invariant Valid() && (if awake then Fetched() && FlagFits() && n == 0 else !AtEof())
        invariant 0 <= n <= p.Length && readPos == old(readPos) + n
        invariant ReadInto(old(p[..]), p[..], stream, old(readPos), readPos)
        invariant deadline == Some(0) ==> n == 0
        invariant 0 <= round <= n && (n > 0 ==> Readable(old(readPos)))
        invariant LimitsKept(old(flowController.recv), old(flowController.connection.recv))
        invariant 0 < n < p.Length ==> currentFrame.Some? && readPosInFrame >= |currentFrame.value|
        invariant n == 0 ==> old(EndUnnoticed()) == (!awake && EndUnnoticed())
        invariant n > 0 ==> StaysNoticed(old(EndUnnoticed()))
        invariant n > 0 && readPos == finalOffset && !cancelledRemotely ==> old(EndUnnoticed())
        invariant 0 < n < p.Length && old(EndUnnoticed()) ==> readPos == finalOffset
        decreases p.Length - n
      {
        var r;
        n, r := NextRound(p, n, awake, deadline.Some? && round >= deadline.value, threshold, old(p[..]), old(readPos),
                          old(EndUnnoticed()));
        awake, round := false, round + 1;
        if r.Some? {
          return n, r.value;
        }
      }
      ReadIsPresent(old(readPos));
      out := if RemoteCancellationEffective() then Cancelled else Ok;
    }

    /** What a read comes to when everything up to the end of the stream is there. */
    lemma ReadsToEnd(p0: seq<byte>, p: seq<byte>, pos: int, n: int, out: Outcome, deadline: Option<nat>,
                     unnoticed: bool)
      requires Valid() && ReadResult(p0, p, pos, n, out, deadline, unnoticed)
      requires Open() && !cancelledRemotely && Present(pos, finalOffset)
      requires out != Deadline
      ensures n == Min(|p|, finalOffset - pos) && (out == Ok || out == Eof)
      ensures out == Eof ==> finalOffset - pos <= |p| && !unnoticed
      ensures 0 < |p| && finalOffset - pos <= |p| && !unnoticed ==> out == Eof
    {
      hide SorterOk, BuffersOk, CreditOk, Missing, ReadInto, Below;
      ReadBounds();
      if Lacks(readPos) {
        assert !(pos <= readPos < finalOffset);
      }
    }

    /** Reads into `p` the bytes that follow the read position. */
    method Read(p: array<byte>, deadline: Option<nat>, threshold: real) returns (n: int, out: Outcome)
      requires Valid()
      modifies this`readPosInFrame, this`readPos, this`currentFrame, this`currentFrameDone, this`currentFrameIsLast,
               this`released,
               frameQueue`queue, frameQueue`readPos, frameQueue`handed,
               flowController`recv, flowController.connection`recv, p
      ensures Valid()
      ensures ReadResult(old(p[..]), p[..], old(readPos), n, out, deadline, old(EndUnnoticed()))
      ensures LimitsKept(old(flowController.recv), old(flowController.connection.recv))
      // what comes before any reading
      ensures old(AtEof()) ==> n == 0 && out == Eof
      ensures old(!AtEof() && (cancelledLocally || RemoteCancellationEffective())) ==> n == 0 && out == Cancelled
      ensures old(!AtEof() && Readable(readPos)) && deadline == Some(0) && p.Length > 0 ==> n == 0 && out == Deadline
      ensures old(!AtEof() && !cancelledLocally && !RemoteCancellationEffective() && shutdown) ==>
        n == 0 && out == Shutdown
      // with everything up to the end there, it returns that, and the end with it unless that went unnoticed
      ensures old(AllHere()) && (deadline.Some? ==> deadline.value >= p.Length) ==>
        var rest := finalOffset - old(readPos);
        && n == Min(p.Length, rest)
        && (out == Eof <==> old(AtEof()) || (0 < p.Length && rest <= p.Length && !old(EndUnnoticed())))
        && (out == Ok || out == Eof)
    {
      hide SorterOk, BuffersOk, CreditOk, Present, Missing, ReadInto, Below;
      ReadBounds();
      ReadIntoNone(p[..], stream, readPos);
      ReadIsPresent(readPos);
      if AtEof() {
        return 0, Eof;
      }
      if cancelledLocally || RemoteCancellationEffective() {
        return 0, Cancelled;
      }
      if shutdown {
        return 0, Shutdown;
      }
      n, out := ReadLoop(p, false, deadline, threshold);
      if old(AllHere()) && (deadline.Some? ==> deadline.value >= p.Length) {
        ReadsToEnd(old(p[..]), p[..], old(readPos), n, out, deadline, old(EndUnnoticed()));
      }
    }

    // ---------------------------------------------------------------- peeking

    /** Peeks into the sorter for `p[at..hi]`; leaves `p` alone if not all of it is there. */
    method PeekRest(p: array<byte>, at: int, hi: int) returns (ok: bool)
      requires SorterOk() && 0 <= at < hi <= p.Length
      modifies p
      ensures ok <==>
        RunCovers(frameQueue.queue, frameQueue.gapTree.values, frameQueue.readPos, frameQueue.readPos + hi - at)
      ensures ok ==> 0 <= frameQueue.readPos && frameQueue.readPos + hi - at <= |stream|
      ensures ok ==> p[..] == Written(old(p[..]), at, stream[frameQueue.readPos..frameQueue.readPos + hi - at])
      ensures !ok ==> p[..] == old(p[..])
    {
      hide Partition, RunCovers, Written, Agrees, StoredAt;
      var rest := new byte[hi - at];
      ok := frameQueue.Peek(frameQueue.readPos, rest);
      if ok {
        StoredIsStream(frameQueue.queue, stream, frameQueue.readPos, rest[..]);
        Copy(p, at, rest[..]);
      }
    }

    /** Peeks `total` bytes, first those beyond the current frame; leaves `b` alone if they are not there. */
    method PeekUpTo(b: array<byte>, total: int) returns (ok: bool)
      requires Valid() && currentFrame.Some? && 0 < total <= b.Length
      modifies b
      ensures ok ==> 0 <= readPos && readPos + total <= |stream| && b[..total] == stream[readPos..readPos + total]
      ensures ok <==> Present(readPos, readPos + total)
      ensures !ok ==> readPos + total > frameQueue.readPos
    {
      hide SorterOk, FinalOk, BuffersOk, CreditOk, Written, RunCovers, Present;
      var available := |currentFrame.value| - readPosInFrame;
      ghost var b0 := b[..];
      ok := true;
      if total > available {
        ok := PeekRest(b, available, total);
      }
      PeekedAll(total);
      if ok {
        var m := CopyOut(b, 0);
        PeekedBytes(b0, stream, readPos, m, total, b[..]);
      }
    }

    /** The bytes up to `total` are there exactly if those beyond the current frame are. */
    lemma PeekedAll(total: int)
      requires Valid()
      ensures var q, gs, popped := frameQueue.queue, frameQueue.gapTree.values, frameQueue.readPos;
              Present(readPos, readPos + total) <==>
                readPos + total <= popped || RunCovers(q, gs, popped, readPos + total)
    {
      hide FinalOk, BuffersOk, CreditOk, Waiting, Missing, Agrees, EntriesApart, GapsApart, EntriesOffGaps, Unread,
        Tiled;
      var q, gs, popped := frameQueue.queue, frameQueue.gapTree.values, frameQueue.readPos;
      NothingMissingBelow(q, gs, popped, readPos, Min(popped, readPos + total));
      if popped < readPos + total <= MAX_BYTE_COUNT {
        RunCoversIff(q, gs, popped, readPos, readPos + total);
      }
    }

    lemma AbsentIsWaiting(a: int, b: int)
      requires !Present(a, b) && b <= MAX_BYTE_COUNT
      ensures Waiting(frameQueue.gapTree.values, a, b)
    {
    }

    /** Fewer than `b.Length` bytes are there: is that all there will ever be? */
    method PeekEnd(b: array<byte>) returns (n: int, out: Outcome)
      requires Valid() && currentFrame.Some? && readPosInFrame < |currentFrame.value| && !RemoteCancellationEffective()
      requires !Present(readPos, readPos + b.Length)
      modifies b
      ensures 0 <= n <= b.Length && 0 <= readPos && readPos + n <= |stream| && b[..n] == stream[readPos..readPos + n]
      ensures out != Blocked ==> Present(readPos, readPos + n)
      ensures out == Eof ==> readPos + n == finalOffset
      ensures out == Cancelled ==> n > 0 && cancelledRemotely && readPos + n == reliableSize
      ensures out == Blocked ==> n == 0 && !Present(readPos, Min(readPos + b.Length, PeekLimit()))
      ensures out.Eof? || out.Cancelled? || out.Blocked?
    {
      hide SorterOk, Present, BuffersOk, CreditOk, Below, Reading;
      InFrame(stream, readPos, currentFrame.value, readPosInFrame, frameQueue.readPos);
      if cancelledRemotely && readPos + b.Length > reliableSize {
        var ok := PeekUpTo(b, reliableSize - readPos);
        if ok {
          return reliableSize - readPos, Cancelled;
        }
      }
      if readPos + b.Length > finalOffset {
        var ok := PeekUpTo(b, finalOffset - readPos);
        if ok {
          return finalOffset - readPos, Eof;
        }
      }
      return 0, Blocked;
    }

    /** Peeking with a current frame: `out` is `Blocked` if it has to wait for more. */
    method PeekFrame(b: array<byte>) returns (n: int, out: Outcome)
      requires Valid() && currentFrame.Some? && readPosInFrame < |currentFrame.value| && b.Length > 0
      requires !RemoteCancellationEffective()
      modifies b
      ensures 0 <= n <= b.Length && 0 <= readPos && readPos + n <= |stream| && b[..n] == stream[readPos..readPos + n]
      ensures out != Blocked ==> Present(readPos, readPos + n)
      ensures out == Ok ==> n == b.Length
      ensures out == Eof ==> readPos + n == finalOffset
      ensures out == Cancelled ==> n > 0 && cancelledRemotely && readPos + n == reliableSize
      ensures out == Blocked ==>
        n == 0 && !currentFrameIsLast && !Present(readPos, Min(readPos + b.Length, PeekLimit()))
      ensures out.Ok? || out.Eof? || out.Cancelled? || out.Blocked?
    {
      hide SorterOk, Present, BuffersOk, CreditOk, Below, Reading;
      InFrame(stream, readPos, currentFrame.value, readPosInFrame, frameQueue.readPos);
      var ok := PeekUpTo(b, b.Length);
      if ok {
        return b.Length, Ok;
      }
      if currentFrameIsLast {
        n := |currentFrame.value| - readPosInFrame;
        ok := PeekUpTo(b, n);
        return n, Eof;
      }
      n, out := PeekEnd(b);
    }

    /** The part of `Peek` after a frame was fetched. */
    method PeekFetched(b: array<byte>, ghost expired: bool) returns (n: int, out: Outcome)
      requires Valid() && Fetched() && Readable(readPos) && b.Length > 0
      modifies b
      ensures Valid() && PeekResult(b[..], n, out, expired)
    {
      hide SorterOk, BuffersOk, CreditOk, Present, Waiting, Below, Missing;
      ReadIsPresent(readPos);
      if currentFrame.Some? {
        n, out := PeekFrame(b);
        if out != Blocked {
          return;
        }
      }
      if currentFrameIsLast || readPos >= finalOffset {
        return 0, Eof;
      }
      if currentFrame.None? {
        WaitingAt(frameQueue.gapTree.values, readPos, Min(readPos + b.Length, PeekLimit()));
      } else {
        AbsentIsWaiting(readPos, Min(readPos + b.Length, PeekLimit()));
      }
      return 0, Blocked;
    }

    /** One round of the loop in `Peek`: the bytes that follow the read position, which stays put. */
    method Peek(b: array<byte>, expired: bool) returns (n: int, out: Outcome)
      requires Valid()
      modifies this`readPosInFrame, this`currentFrame, this`currentFrameDone, this`currentFrameIsLast, this`released,
               frameQueue`queue, frameQueue`readPos, frameQueue`handed, b
      ensures Valid()
      ensures PeekResult(b[..], n, out, expired)
      ensures StaysNoticed(old(EndUnnoticed()))
      // what comes before any peeking
      ensures b.Length == 0 ==> n == 0 && out == Ok
      ensures b.Length > 0 && old(AtEof()) ==> n == 0 && out == Eof
      ensures b.Length > 0 && old(!AtEof() && (cancelledLocally || RemoteCancellationEffective())) ==>
        n == 0 && out == Cancelled
      ensures b.Length > 0 && old(!AtEof() && !cancelledLocally && !RemoteCancellationEffective() && shutdown) ==>
        n == 0 && out == Shutdown
      ensures b.Length > 0 && old(!AtEof() && Readable(readPos)) && expired ==> n == 0 && out == Deadline
      // it fetches the next frame
      ensures old(Readable(readPos) && !AtEof() && frameQueue.readPos == readPos) && !expired && b.Length > 0 ==>
        NextFetched(old(frameQueue.queue))
    {
      hide SorterOk, BuffersOk, CreditOk, Present, Waiting, Below, Missing;
      ReadIsPresent(readPos);
      ReadBounds();
      if b.Length == 0 {
        return 0, Ok;
      }
      if AtEof() {
        return 0, Eof;
      }
      if cancelledLocally || RemoteCancellationEffective() {
        return 0, Cancelled;
      }
      if shutdown {
        return 0, Shutdown;
      }
      if expired {
        return 0, Deadline;
      }
      if currentFrame.None? || readPosInFrame >= |currentFrame.value| {
        DequeueNextFrame();
      }
      n, out := PeekFetched(b, expired);
    }

    /** `Peek` goes on after a wait. */
    method PeekAgain(b: array<byte>, expired: bool) returns (n: int, out: Outcome)
      requires Valid() && !AtEof()
      modifies this`readPosInFrame, this`currentFrame, this`currentFrameDone, this`currentFrameIsLast, this`released,
               frameQueue`queue, frameQueue`readPos, frameQueue`handed, b
      ensures Valid()
      ensures PeekResult(b[..], n, out, expired)
      ensures StaysNoticed(old(EndUnnoticed()))
      // the end of the stream is noticed even after the deadline
      ensures b.Length > 0 && old(readPos == finalOffset && !cancelledRemotely) ==> n == 0 && out == Eof
    {
      hide SorterOk, ReadOk, FinalOk, BuffersOk, CreditOk, Waiting;
      ReadBounds();
      if currentFrame.None? || readPosInFrame >= |currentFrame.value| {
        DequeueNextFrame();
      }
      ReadBounds();
      n, out := Peek(b, expired);
    }

    /** The application gives up reading: later frames are counted, but not stored. */
    method CancelRead()
      requires Valid()
      modifies this`cancelledLocally
      ensures Valid() && cancelledLocally == (old(cancelledLocally) || !shutdown)
    {
      hide SorterOk, ReadOk, FinalOk, BuffersOk;
      if cancelledLocally || shutdown {
        return;
      }
      cancelledLocally := true;
    }

    method CloseForShutdown()
      requires Valid()
      modifies this`shutdown
      ensures Valid() && shutdown
    {
      hide SorterOk, ReadOk, FinalOk, BuffersOk, CreditOk;
      shutdown := true;
    }
  }

  lemma FirstFrame(q: map<int, Entry>, data: seq<byte>)
    requires Settled(map[], {ByteInterval(0, MAX_BYTE_COUNT)}, q, data, 0, None) && 0 < |data| <= MAX_BYTE_COUNT
    ensures q == map[0 := Entry(data, None)]
  {
    var gs := {ByteInterval(0, MAX_BYTE_COUNT)};
    assert ByteInterval(0, MAX_BYTE_COUNT) in gs;
    NewFrameStored(map[], gs, 0, q, data, 0, None);
  }

  /** All of the stream is there and counted, `known` if it is known that this was all; none of it was read. */
  ghost predicate AllCounted(s: ReceiveStream, known: bool)
    reads s, s.flowController, s.flowController.connection, s.frameQueue.gapTree
  {
    && s.Open() && !s.cancelledRemotely && s.readPos == 0 && s.Present(0, |s.stream|) && !s.AtEof()
    && s.finalOffset == (if known then |s.stream| else MAX_BYTE_COUNT) && s.flowController.receivedFinalOffset == known
    && Limits(s.flowController.recv) == Limits(s.flowController.connection.recv) == (|s.stream|, MAX_BYTE_COUNT)
  }

  /** A new stream on a connection that lets all of it in, which one frame brings. */
  method InOneFrame(stream: seq<byte>) returns (s: ReceiveStream)
    requires 0 < |stream| < MAX_BYTE_COUNT
    ensures fresh(s) && fresh(s.frameQueue) && fresh(s.frameQueue.gapTree) && fresh(s.flowController)
    ensures fresh(s.flowController.connection) && s.stream == stream && s.Valid() && AllCounted(s, false)
    ensures s.frameQueue.queue == map[0 := Entry(stream, None)] && s.frameQueue.readPos == 0
    ensures |s.frameQueue.gapTree.values| <= 2
  {
    hide ReceiveStream.Valid, Missing, AllMissing, Settled;
    var conn := new ConnectionFlowController(MAX_BYTE_COUNT, MAX_BYTE_COUNT);
    var fc := new StreamFlowController(conn, MAX_BYTE_COUNT, MAX_BYTE_COUNT, 0);
    s := new ReceiveStream(stream, fc);
    assert stream[0..|stream|] == stream;
    var v := s.HandleStreamFrame(stream, 0, false, None);
    FirstFrame(s.frameQueue.queue, stream);
    forall x | 0 <= x < |stream|
      ensures !Missing(s.frameQueue.gapTree.values, x)
    {
      assert !s.Lacks(x);
    }
  }

  /** An empty frame says that the frame being read, all of the stream, was all. */
  method EmptyFin(s: ReceiveStream, end: int)
    requires end == |s.stream| && s.Valid() && AllCounted(s, false) && 0 < |s.stream| < MAX_BYTE_COUNT
    requires s.currentFrame == Some(s.stream) && s.readPosInFrame == 0 && s.frameQueue.readPos == |s.stream|
    requires !s.currentFrameIsLast && |s.frameQueue.gapTree.values| <= 2
    modifies s`finalOffset, s.frameQueue`queue, s.frameQueue`called, s.frameQueue.gapTree,
             s.flowController`recv, s.flowController`receivedFinalOffset, s.flowController.connection`recv
    ensures s.Valid() && AllCounted(s, true) && s.EndUnnoticed()
  {
    hide ReceiveStream.Valid, Missing, Settled;
    var v := s.HandleStreamFrame([], end, true, None);
    forall x | 0 <= x < end
      ensures !Missing(s.frameQueue.gapTree.values, x)
    {
      assert !s.Lacks(x);
    }
  }

  method PeekedThenEnded(stream: seq<byte>) returns (s: ReceiveStream)
    requires 0 < |stream| < MAX_BYTE_COUNT
    ensures fresh(s) && fresh(s.frameQueue) && fresh(s.frameQueue.gapTree) && fresh(s.flowController)
    ensures fresh(s.flowController.connection) && s.stream == stream
    ensures s.Valid() && AllCounted(s, true) && s.EndUnnoticed()
  {
    hide ReceiveStream.Valid, ReceiveStream.PeekResult, Missing;
    s := InOneFrame(stream);
    var b := new byte[1];
    var _, _ := s.Peek(b, false);
    EmptyFin(s, |stream|);
  }

  /**
   The end of a stream can go unnoticed: all of it arrives in one frame, is peeked at, and only then
   an empty frame says that this was all.  The next read returns everything without the end of the
   stream, which takes one more read.
   */
  method LateFin(stream: seq<byte>, threshold: real) returns (n: int, first: Outcome, second: Outcome)
    requires 0 < |stream| < MAX_BYTE_COUNT
    ensures n == |stream| && first == Ok && second == Eof
  {
    hide ReceiveStream.Valid, ReceiveStream.PeekResult, ReadInto, Missing;
    var s := PeekedThenEnded(stream);
    var p := new byte[|stream| + 1];
    n, first := s.Read(p, None, threshold);
    s.ReadBounds();
    var m;
    m, second := s.Read(p, None, threshold);
  }
}
