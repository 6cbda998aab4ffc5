/**
 The sending side of a stream, up to a reset or shutdown.

 Every region under the stream's mutex is one method, so any interleaving of an application that
 writes, a packer that pops frames, and acknowledgements is a sequence of calls.  `written` holds
 the bytes that finished writes accepted, `current` the slice of a write in progress, and `sent`
 the bytes of all first-time frames.
 */
module SendStreams {
  import opened Protocol
  import opened Wire
  import opened FrameLedger
  import opened FlowControl
  import opened Senders

  /** What a write of `len` bytes may return: everything, or an error for its reason. */
  predicate ReturnOk(r: WriteResult, len: int, expired: bool, limited: bool) {
    r.Returned? ==>
      && 0 <= r.n <= len && (r.err == Ok ==> r.n == len)
      && (r.err == Deadline ==> expired) && (r.err == LimitReached ==> limited && r.n < len)
  }

  /** A popped frame has a data length field, and fits unless it is empty. */
  predicate FitsBudget(streamID: int, r: Popped, maxBytes: int) {
    r.frame.Some? ==>
      var f := r.frame.value;
      f.dataLenPresent && (f.data != [] ==> Length(streamID, f) <= maxBytes)
  }

  lemma LostIsFaithful(l: Ledger)
    requires Balanced(l) && l.lost != []
    ensures l.lost[0].dataLenPresent
  {
    assert l.lost[0] in l.lost;
  }

  /**
   The bytes accepted so far, `written` and all of `current` but its `rest`, are the bytes sent
   and those waiting in the next frame, in order.
   */
  ghost predicate Streamed(written: seq<byte>, current: seq<byte>, rest: seq<byte>, sent: seq<byte>, next: seq<byte>) {
    && |rest| <= |current| && rest == current[|current| - |rest|..]
    && written + current[..|current| - |rest|] == sent + next
  }

  lemma StreamedStart(written: seq<byte>, p: seq<byte>, sent: seq<byte>, next: seq<byte>)
    requires Streamed(written, [], [], sent, next)
    ensures Streamed(written, p, p, sent, next)
  {
  }

  lemma StreamedFinish(written: seq<byte>, current: seq<byte>, rest: seq<byte>, sent: seq<byte>, next: seq<byte>)
    requires Streamed(written, current, rest, sent, next)
    ensures |rest| <= |current| && Streamed(written + current[..|current| - |rest|], [], [], sent, next)
  {
  }

  lemma StreamedAppend(written: seq<byte>, p: seq<byte>, sent: seq<byte>, next: seq<byte>)
    requires Streamed(written, [], [], sent, next)
    ensures Streamed(written + p, [], [], sent, next + p)
  {
    assert sent + (next + p) == (sent + next) + p;
  }

  lemma StreamedBuffer(written: seq<byte>, current: seq<byte>, rest: seq<byte>, sent: seq<byte>, next: seq<byte>)
    requires Streamed(written, current, rest, sent, next)
    ensures Streamed(written, current, [], sent, next + rest)
  {
    var k := |current| - |rest|;
    assert current[..|current|] == current[..k] + rest;
    assert written + (current[..k] + rest) == (written + current[..k]) + rest;
    assert sent + (next + rest) == (sent + next) + rest;
  }

  lemma StreamedFrame(written: seq<byte>, current: seq<byte>, rest: seq<byte>, sent: seq<byte>, next: seq<byte>, n: int)
    requires Streamed(written, current, rest, sent, next) && 0 <= n <= |next|
    ensures Streamed(written, current, rest, sent + next[..n], next[n..])
  {
    assert sent + next == (sent + next[..n]) + next[n..];
  }

  /** The last `m` elements of the last elements are the last `m` elements. */
  lemma LastOfLast(s: seq<byte>, k: int, n: int)
    requires 0 <= k <= |s| && 0 <= n <= |s| - k
    ensures s[k..][n..] == s[k + n..] && s[..k + n] == s[..k] + s[k..][..n]
  {
  }

  lemma StreamedSlice(written: seq<byte>, current: seq<byte>, rest: seq<byte>, sent: seq<byte>, n: int)
    requires Streamed(written, current, rest, sent, []) && 0 <= n <= |rest|
    ensures Streamed(written, current, rest[n..], sent + rest[..n], [])
  {
    var k := |current| - |rest|;
    LastOfLast(current, k, n);
    Regroup(written, current[..k], rest[..n], sent);
  }

  lemma Regroup(written: seq<byte>, before: seq<byte>, data: seq<byte>, sent: seq<byte>)
    requires written + before == sent + []
    ensures written + (before + data) == (sent + data) + []
  {
    assert written + (before + data) == (written + before) + data;
  }

  lemma StreamedPrefix(written: seq<byte>, current: seq<byte>, rest: seq<byte>, sent: seq<byte>, next: seq<byte>)
    requires Streamed(written, current, rest, sent, next)
    ensures sent + next <= written + current && sent <= written + current
    ensures rest == [] && next == [] ==> sent == written + current
  {
    var k := |current| - |rest|;
    assert written + current == (written + current[..k]) + current[k..];
  }

  class SendStream {
    const streamID: int
    const flowController: StreamFlowController

    var numOutstandingFrames: int
    var retransmissionQueue: seq<StreamFrame>
    var writeOffset: int
    /** The part of the slice being written that still needs to be sent; empty if there is none. */
    var dataForWriting: seq<byte>
    var writeLimiter: Option<int -> int>
    var writeLimited: bool
    var nextFrame: Option<StreamFrame>
    var nextFrameReserved: bool
    var finishedWriting: bool
    var finSent: bool
    var completed: bool
    /** The one-slot channel that wakes a blocked write. */
    var writeSignal: bool

    /** A call of `Write` is in progress (it holds `writeOnce`), with this argument. */
    var writing: bool
    var current: seq<byte>

    // What an observer has seen so far.
    var written: seq<byte>
    var sent: seq<byte>
    var acked: seq<StreamFrame>
    var inFlight: seq<StreamFrame>
    var completions: nat
    var limiterApproved: int
    var limitedFramed: int
    /** Connection credit that went to other streams. */
    var othersSent: int

    function NextData(): seq<byte>
      reads this`nextFrame
    {
      if nextFrame.Some? then nextFrame.value.data else []
    }

    /** Every accepted byte was sent or waits in `nextFrame`, in order, and nothing else was. */
    ghost predicate DataOk()
      reads this`dataForWriting, this`current, this`written, this`sent, this`nextFrame, this`writeOffset
    {
      && |sent| == writeOffset
      && Streamed(written, current, dataForWriting, sent, NextData())
      && (nextFrame.Some? ==>
            && nextFrame.value.offset == writeOffset && nextFrame.value.data != []
            && !nextFrame.value.fin && nextFrame.value.dataLenPresent)
    }

    ghost predicate FlagsOk()
      reads this`writing, this`current, this`dataForWriting, this`writeLimiter, this`writeLimited, this`nextFrame,
            this`nextFrameReserved, this`finishedWriting, this`finSent
    {
      && (!writing ==> |current| == 0 && |dataForWriting| == 0 && writeLimiter.None? && !writeLimited)
      && (nextFrameReserved ==> nextFrame.Some?) && (nextFrame.Some? ==> |dataForWriting| == |current|)
      && (writeLimited ==> writeLimiter.Some? && nextFrame.None?)
      && (finSent ==> finishedWriting && |dataForWriting| == 0 && nextFrame.None?)
    }

    /**
     A blocked write that can go on has a wake-up waiting, unless a part of the next frame is still to
     be sent: then it is woken up with the last byte of that frame (`Senders.LateWakeUp`).
     */
    ghost predicate WakeOk()
      reads this`writing, this`dataForWriting, this`writeLimiter, this`writeLimited, this`nextFrame,
            this`nextFrameReserved, this`writeSignal
    {
      writing && (|dataForWriting| == 0 || writeLimited || (nextFrame.None? && CanBuffer())) ==> writeSignal
    }

    ghost function TheLedger(): Ledger
      reads this`acked, this`inFlight, this`retransmissionQueue, this`sent, this`finSent
    {
      Ledger(acked, inFlight, retransmissionQueue, sent, finSent)
    }

    ghost predicate LedgerOk()
      reads this`acked, this`inFlight, this`retransmissionQueue, this`sent, this`finSent, this`numOutstandingFrames,
            this`completed, this`completions
    {
      && Balanced(TheLedger())
      && numOutstandingFrames == |inFlight|
      && (completed ==> finSent && inFlight == [] && retransmissionQueue == [])
      && completions == (if completed then 1 else 0)
    }

    function Reserved(): int
      reads this`nextFrame, this`nextFrameReserved
    {
      if nextFrameReserved then |NextData()| else 0
    }

    /** Credit was taken for every byte sent and for a reserved frame, once, and within both windows. */
    ghost predicate CreditOk()
      reads this`nextFrame, this`nextFrameReserved, this`writeOffset, this`limiterApproved, this`limitedFramed,
            this`othersSent,
            flowController`bytesSent, flowController`sendWindow,
            flowController.connection`bytesSent, flowController.connection`sendWindow
    {
      && flowController.bytesSent == writeOffset + Reserved()
      && flowController.connection.bytesSent == flowController.bytesSent + othersSent
      && flowController.bytesSent <= flowController.sendWindow
      && flowController.connection.bytesSent <= flowController.connection.sendWindow
      && limiterApproved == limitedFramed
    }

    ghost predicate Valid()
      reads this, flowController, flowController.connection
    {
      DataOk() && FlagsOk() && WakeOk() && LedgerOk() && CreditOk()
    }

    /** What the stream looks like from outside. */
    ghost function View(): Sender
      reads this, flowController, flowController.connection
    {
      Sender(streamID, WriteView(), SendView(), CreditView(), writeSignal)
    }

    ghost function WriteView(): Writing
      reads this`written, this`writing, this`current, this`writeLimiter, this`writeLimited
    {
      Writing(written, writing, current, writeLimiter, writeLimited)
    }

    ghost function SendView(): Sending
      reads this`sent, this`finishedWriting, this`finSent, this`completed, this`acked, this`inFlight,
            this`retransmissionQueue
    {
      Sending(sent, finishedWriting, finSent, completed, acked, inFlight, retransmissionQueue)
    }

    ghost function CreditView(): Credit
      reads this`nextFrameReserved, this`othersSent, flowController`sendWindow, flowController`lastBlockedAt,
            flowController.connection`sendWindow
    {
      Credit(nextFrameReserved, flowController.sendWindow, flowController.connection.sendWindow, othersSent,
             flowController.lastBlockedAt)
    }

    /** The next frame holds what was accepted and not sent. */
    lemma Counts()
      requires DataOk() && FlagsOk()
      ensures View().Buffered() == |NextData()| && View().Rest() == |dataForWriting| <= |current|
      ensures |sent| <= |View().All()| && (View().CanBuffer() <==> CanBuffer())
      ensures !writing ==> |sent| <= |written|
    {
    }

    lemma CreditCounts()
      requires DataOk() && FlagsOk() && CreditOk()
      ensures View().Charged() == flowController.bytesSent
      ensures View().Room() == flowController.SendWindowSize()
    {
      hide Streamed;
      Counts();
    }

    constructor (streamID: int, flowController: StreamFlowController)
      requires flowController.bytesSent == 0 <= flowController.sendWindow
      requires flowController.connection.bytesSent <= flowController.connection.sendWindow
      ensures Valid() && this.streamID == streamID && this.flowController == flowController
      ensures WriteView() == Writing([], false, [], None, false) && !writeSignal
      ensures SendView() == Sending([], false, false, false, [], [], [])
      ensures CreditView() == Credit(false, flowController.sendWindow, flowController.connection.sendWindow,
                                     flowController.connection.bytesSent, flowController.lastBlockedAt)
    {
      this.streamID, this.flowController := streamID, flowController;
      numOutstandingFrames, retransmissionQueue, writeOffset, dataForWriting := 0, [], 0, [];
      writeLimiter, writeLimited, nextFrame, nextFrameReserved := None, false, None, false;
      finishedWriting, finSent, completed, writeSignal, writing, current := false, false, false, false, false, [];
      written, sent, acked, inFlight, completions, limiterApproved, limitedFramed := [], [], [], [], 0, 0, 0;
      othersSent := flowController.connection.bytesSent;
    }

    predicate CanBuffer()
      reads this`writeLimiter, this`nextFrameReserved, this`nextFrame, this`dataForWriting
    {
      !writeLimiter.Some? && !nextFrameReserved && |NextData()| + |dataForWriting| <= MAX_PACKET_BUFFER_SIZE
    }

    // ---------------------------------------------------------------- writing

    /** Queues the whole slice, with credit, or nothing. */
    method TryWriteAll(p: seq<byte>) returns (err: WriteError, wouldBlock: bool)
      requires Valid()
      modifies this`nextFrame, this`nextFrameReserved, this`written,
               flowController`bytesSent, flowController.connection`bytesSent
      ensures Valid()
      ensures wouldBlock || err != Ok ==> unchanged(this) && flowController.bytesSent == old(flowController.bytesSent)
      ensures (View(), err, wouldBlock) == old(View()).TryWriteAll(p)
    {
      hide LedgerOk, DataOk, FlagsOk, WakeOk;
      if writing {
        return Ok, true;
      }
      if finishedWriting {
        return WriteOnClosed, false;
      }
      if |p| == 0 {
        return Ok, false;
      }
      var ok := Reserve(|p|);
      if !ok {
        return Ok, true;
      }
      AppendReserved(p);
      return Ok, false;
    }

    /** The next frame takes `p`, for which there is credit. */
    method AppendReserved(p: seq<byte>)
      requires DataOk() && FlagsOk() && !writing && !finishedWriting && p != []
      modifies this`nextFrame, this`nextFrameReserved, this`written
      ensures DataOk() && FlagsOk() && WakeOk() && Reserved() == |written| - writeOffset
      ensures WriteView() == old(WriteView()).(accepted := old(written) + p)
      ensures CreditView() == old(CreditView()).(reserved := true)
    {
      hide DataOk;
      Counts();
      SentLength();
      AppendToNext(p);
      nextFrameReserved := true;
    }

    /** Takes credit for `n` more bytes and for those that wait in the next frame, or for none. */
    method Reserve(n: nat) returns (ok: bool)
      requires DataOk() && FlagsOk() && CreditOk() && !writing
      modifies flowController`bytesSent, flowController.connection`bytesSent
      ensures ok <==> |written| + n <= flowController.sendWindow
                      && |written| + n + othersSent <= flowController.connection.sendWindow
      ensures flowController.bytesSent == if ok then |written| + n else old(flowController.bytesSent)
      ensures flowController.connection.bytesSent == flowController.bytesSent + othersSent
    {
      Counts();
      var bytesToReserve := n;
      if nextFrame.Some? && !nextFrameReserved {
        bytesToReserve := bytesToReserve + |nextFrame.value.data|;
      }
      ok := flowController.TryAddBytesSent(bytesToReserve);
    }

    /** Puts `p` behind what `nextFrame` holds. */
    method AppendToNext(p: seq<byte>)
      requires DataOk() && current == [] && dataForWriting == [] && p != []
      modifies this`nextFrame, this`written
      ensures DataOk() && nextFrame.Some? && |NextData()| == |old(NextData())| + |p| && written == old(written) + p
    {
      hide Streamed;
      StreamedAppend(written, p, sent, NextData());
      nextFrame := Some(StreamFrame(writeOffset, NextData() + p, false, true));
      written := written + p;
    }

    /** `Write` and `WriteWithLimit` up to the first wait; `expired` says that the deadline has passed. */
    method Write(p: seq<byte>, limiter: Option<int -> int>, expired: bool) returns (r: WriteResult)
      requires Valid() && !writing
      modifies this`writing, this`current, this`written, this`dataForWriting, this`writeLimiter, this`writeLimited,
               this`nextFrame
      ensures Valid()
      ensures ReturnOk(r, |p|, expired, false)
      ensures r.Returned? ==> !writing && written == old(written) + p[..r.n]
      ensures r == Blocked ==> writing && current == p && written == old(written) && p != []
      ensures finishedWriting <==> r.Returned? && r.err == WriteOnClosed
      ensures finishedWriting ==> r.n == 0
      ensures |old(sent)| <= |old(written)| && (WriteView(), r) == old(View()).Write(p, limiter, expired)
    {
      hide LedgerOk, DataOk, WakeOk, CreditOk;
      Counts();
      assert written + p[..0] == written;
      if finishedWriting {
        return Returned(0, WriteOnClosed);
      }
      if expired {
        return Returned(0, Deadline);
      }
      if |p| == 0 {
        return Returned(0, Ok);
      }
      StartWrite(p, limiter);
      r := WriteRound(expired);
    }

    method StartWrite(p: seq<byte>, limiter: Option<int -> int>)
      requires DataOk() && FlagsOk() && !writing && !finishedWriting
      modifies this`writing, this`current, this`dataForWriting, this`writeLimiter, this`writeLimited
      ensures DataOk() && FlagsOk() && writing && !writeLimited && current == p
      ensures WriteView() == Writing(old(written), true, p, limiter, false)
    {
      hide Streamed;
      StreamedStart(written, p, sent, NextData());
      writing, current, writeLimiter, writeLimited := true, p, limiter, false;
      dataForWriting := p;
    }

    /** A blocked write wakes up and goes round its loop once more. */
    method WriteAgain(expired: bool) returns (r: WriteResult)
      requires Valid() && writing
      modifies this`writing, this`current, this`written, this`dataForWriting, this`writeLimiter, this`writeLimited,
               this`nextFrame, this`writeSignal
      ensures Valid()
      ensures ReturnOk(r, |old(current)|, expired, old(writeLimited)) && (r.Returned? ==> r.err != WriteOnClosed)
      ensures r.Returned? ==> !writing && written == old(written) + old(current)[..r.n]
      ensures r == Blocked ==> writing && current == old(current) && written == old(written)
      ensures 0 <= old(View()).Rest() <= |old(current)|
      ensures (WriteView(), r) == old(View()).Go(expired) && !writeSignal
    {
      hide Streamed, FlagsOk, DataOk, LedgerOk, CreditOk;
      Counts();
      writeSignal := false;
      r := WriteRound(expired);
    }

    /** The call returns: `n` bytes of its slice were taken. */
    method FinishWrite() returns (n: int)
      requires DataOk() && writing
      modifies this`writing, this`current, this`written, this`dataForWriting, this`writeLimiter, this`writeLimited
      ensures DataOk() && !writing && current == [] && dataForWriting == [] && writeLimiter.None? && !writeLimited
      ensures 0 <= n == |old(current)| - |old(dataForWriting)| && written == old(written) + old(current)[..n]
      ensures WriteView() == old(WriteView()).Finish(n)
    {
      hide Streamed;
      StreamedFinish(written, current, dataForWriting, sent, NextData());
      n := |current| - |dataForWriting|;
      written := written + current[..n];
      writing, current, dataForWriting, writeLimiter, writeLimited := false, [], [], None, false;
    }

    /** The rest of the slice is buffered, and the call returns. */
    method BufferAndFinish() returns (n: int)
      requires DataOk() && FlagsOk() && CreditOk() && writing && CanBuffer() && dataForWriting != []
      modifies this`writing, this`current, this`written, this`dataForWriting, this`writeLimiter, this`writeLimited,
               this`nextFrame
      ensures DataOk() && FlagsOk() && CreditOk() && !writing
      ensures n == |old(current)| && written == old(written) + old(current)[..n]
      ensures WriteView() == old(WriteView()).Finish(n)
    {
      hide DataOk;
      BufferRest();
      n := FinishWrite();
    }

    method WriteRound(expired: bool) returns (r: WriteResult)
      requires DataOk() && FlagsOk() && LedgerOk() && CreditOk() && writing
      modifies this`writing, this`current, this`written, this`dataForWriting, this`writeLimiter, this`writeLimited,
               this`nextFrame
      ensures Valid()
      ensures ReturnOk(r, |old(current)|, expired, old(writeLimited)) && (r.Returned? ==> r.err != WriteOnClosed)
      ensures r.Returned? ==> !writing && written == old(written) + old(current)[..r.n]
      ensures r == Blocked ==> writing && current == old(current) && written == old(written)
      ensures 0 <= old(View()).Rest() <= |old(current)| && (WriteView(), r) == old(View()).Go(expired)
    {
      hide LedgerOk, CreditOk, Streamed;
      Counts();
      var len := |current|;
      if writeLimited {
        var n := FinishWrite();
        return Returned(n, if n == len then Ok else LimitReached);
      }
      if CanBuffer() && |dataForWriting| > 0 {
        var n := BufferAndFinish();
        return Returned(n, Ok);
      }
      if expired {
        var n := FinishWrite();
        return Returned(n, Deadline);
      }
      if |dataForWriting| == 0 {
        var n := FinishWrite();
        return Returned(n, Ok);
      }
      r := Blocked;
    }

    /** Moves the rest of the slice into the next frame. */
    method BufferRest()
      requires DataOk() && dataForWriting != []
      modifies this`nextFrame, this`dataForWriting
      ensures DataOk() && dataForWriting == [] && nextFrame.Some?
      ensures NextData() == old(NextData()) + old(dataForWriting)
    {
      hide Streamed;
      StreamedBuffer(written, current, dataForWriting, sent, NextData());
      if nextFrame.None? {
        nextFrame := Some(StreamFrame(writeOffset, [] + dataForWriting, false, true));
      } else {
        nextFrame := Some(nextFrame.value.(data := nextFrame.value.data + dataForWriting));
      }
      dataForWriting := [];
    }

    // ---------------------------------------------------------------- popping frames

    /** What is left of the pending frame stays pending, with its credit. */
    method KeepRest(rest: seq<byte>)
      requires FlagsOk() && WakeOk() && nextFrame.Some? && |rest| < |NextData()|
      modifies this`nextFrame, this`nextFrameReserved, this`writeSignal
      ensures FlagsOk() && WakeOk() && NextData() == rest
      ensures nextFrame == if |rest| > 0 then Some(StreamFrame(writeOffset, rest, false, true)) else None
      ensures nextFrameReserved == (old(nextFrameReserved) && |rest| > 0)
      ensures writeSignal == (old(writeSignal) || |rest| == 0)
    {
      if |rest| > 0 {
        nextFrame := Some(StreamFrame(writeOffset, rest, false, true));
      } else {
        nextFrame, nextFrameReserved, writeSignal := None, false, true;
      }
    }

    /** The next `n` bytes, from the pending frame. */
    method TakeFromFrame(n: int) returns (data: seq<byte>)
      requires DataOk() && FlagsOk() && WakeOk() && nextFrame.Some? && 0 < n <= |NextData()|
      modifies this`nextFrame, this`nextFrameReserved, this`writeSignal, this`sent, this`writeOffset
      ensures DataOk() && FlagsOk() && WakeOk()
      ensures |data| == n && sent == old(sent) + data && writeOffset == old(writeOffset) + n
      ensures |NextData()| == |old(NextData())| - n
      ensures nextFrameReserved == (old(nextFrameReserved) && n < |old(NextData())|)
      ensures writeSignal == (old(writeSignal) || n == |old(NextData())|)
    {
      hide Streamed, WakeOk, FlagsOk;
      var next := NextData();
      StreamedFrame(written, current, dataForWriting, sent, next, n);
      data := next[..n];
      sent, writeOffset := sent + data, writeOffset + n;
      KeepRest(next[n..]);
    }

    /** The next `n` bytes, from the slice being written. */
    method TakeFromSlice(n: int) returns (data: seq<byte>)
      requires DataOk() && FlagsOk() && WakeOk() && nextFrame.None? && 0 < n <= |dataForWriting|
      modifies this`dataForWriting, this`writeSignal, this`sent, this`writeOffset
      ensures DataOk() && FlagsOk() && WakeOk()
      ensures |data| == n && sent == old(sent) + data && writeOffset == old(writeOffset) + n
      ensures |dataForWriting| == |old(dataForWriting)| - n
      ensures writeSignal == (old(writeSignal) || |dataForWriting| == 0 || CanBuffer())
    {
      hide Streamed;
      data := dataForWriting[..n];
      StreamedSlice(written, current, dataForWriting, sent, n);
      dataForWriting := dataForWriting[n..];
      if |dataForWriting| == 0 || CanBuffer() {
        writeSignal := true;
      }
      sent := sent + data;
      writeOffset := writeOffset + n;
    }

    /** What was just sent is what came next. */
    lemma NextBytes(before: seq<byte>, data: seq<byte>)
      requires DataOk() && sent == before + data
      ensures |before| + |data| <= |View().All()| && data == View().All()[|before|..|before| + |data|]
    {
      hide Streamed;
      StreamedPrefix(written, current, dataForWriting, sent, NextData());
      assert data == sent[|before|..];
    }

    /** New data from the pending frame. */
    method NewFromFrame(n: int) returns (data: seq<byte>)
      requires DataOk() && FlagsOk() && WakeOk() && nextFrame.Some? && 0 < n <= |NextData()|
      modifies this`nextFrame, this`nextFrameReserved, this`writeSignal, this`sent, this`writeOffset
      ensures DataOk() && FlagsOk() && WakeOk() && writeOffset == old(writeOffset) + n
      ensures |old(sent)| + n <= |old(View()).All()| && n <= old(View()).Unsent()
      ensures data == old(View()).Next(n).data && View() == old(View()).Take(n) && sent == old(sent) + data
      ensures Reserved() == if old(nextFrameReserved) then old(Reserved()) - n else 0
    {
      hide DataOk, WakeOk, FlagsOk, Sender.Take, Sender.Next, Sender.Buffered, Sender.CanBuffer, CanBuffer;
      Counts();
      NextOrNot();
      ghost var was := View();
      data := TakeFromFrame(n);
      NextBytes(was.d.sent, data);
      Counts();
      TakeIs(was, View(), n, data);
    }

    /** New data from the slice being written. */
    method NewFromSlice(n: int) returns (data: seq<byte>)
      requires DataOk() && FlagsOk() && WakeOk() && nextFrame.None? && 0 < n <= |dataForWriting|
      modifies this`dataForWriting, this`writeSignal, this`sent, this`writeOffset
      ensures DataOk() && FlagsOk() && WakeOk() && writeOffset == old(writeOffset) + n
      ensures |old(sent)| + n <= |old(View()).All()| && n <= old(View()).Unsent()
      ensures data == old(View()).Next(n).data && View() == old(View()).Take(n) && sent == old(sent) + data
      ensures Reserved() == if old(nextFrameReserved) then old(Reserved()) - n else 0
    {
      hide DataOk, WakeOk, FlagsOk, Sender.Take, Sender.Next, Sender.Buffered, Sender.CanBuffer, CanBuffer;
      Counts();
      NextOrNot();
      ghost var was := View();
      data := TakeFromSlice(n);
      NextBytes(was.d.sent, data);
      Counts();
      TakeIs(was, View(), n, data);
    }

    /** `popNewStreamFrame`: `n` bytes of new data. */
    method TakeNew(n: int) returns (data: seq<byte>, hasMore: bool)
      requires DataOk() && FlagsOk() && WakeOk() && 0 < n
      requires n <= if nextFrame.Some? then |NextData()| else |dataForWriting|
      modifies this`nextFrame, this`nextFrameReserved, this`dataForWriting, this`writeSignal, this`sent,
               this`writeOffset
      ensures DataOk() && FlagsOk() && WakeOk() && writeOffset == old(writeOffset) + n
      ensures |old(sent)| + n <= |old(View()).All()| && n <= old(View()).Unsent()
      ensures data == old(View()).Next(n).data && View() == old(View()).Take(n) && sent == old(sent) + data
      ensures Reserved() == if old(nextFrameReserved) then old(Reserved()) - n else 0
      ensures dataForWriting == [] && nextFrame.None? <==> n == old(View()).Unsent()
      ensures hasMore <==> n < old(View()).Unsent() || (old(nextFrame).None? && finishedWriting)
    {
      hide DataOk, WakeOk, FlagsOk, Sender.Take, Sender.Next;
      Counts();
      NextOrNot();
      NextIs(View(), n);
      if nextFrame.Some? {
        data := NewFromFrame(n);
        hasMore := nextFrame.Some? || |dataForWriting| > 0;
      } else {
        data := NewFromSlice(n);
        hasMore := |dataForWriting| > 0 || nextFrame.Some? || finishedWriting;
      }
      Counts();
      NextOrNot();
    }

    lemma NextOrNot()
      requires DataOk() && FlagsOk()
      ensures if nextFrame.Some? then |NextData()| > 0 else |NextData()| == 0 && !nextFrameReserved
    {
    }

    /** A first-time frame for the `data` just taken goes out. */
    method EmitNew(offset: int, data: seq<byte>, ghost before: seq<byte>) returns (f: StreamFrame)
      requires FlagsOk() && !finSent && !completed && numOutstandingFrames == |inFlight| && completions == 0
      requires offset == |before| && sent == before + data
      requires Balanced(TheLedger().(sent := before))
      modifies this`finSent, this`inFlight, this`numOutstandingFrames
      ensures FlagsOk() && LedgerOk()
      ensures f.offset == offset && f.data == data && f.dataLenPresent && inFlight == old(inFlight) + [f]
      ensures f.fin <==> finishedWriting && dataForWriting == [] && nextFrame == None
      ensures finSent == f.fin && SendView() == old(SendView()).Emit(f)
    {
      hide Balanced;
      var fin := finishedWriting && |dataForWriting| == 0 && nextFrame.None? && !finSent;
      f := StreamFrame(offset, data, fin, true);
      SendNew(TheLedger().(sent := before), f);
      if fin {
        finSent := true;
      }
      inFlight := inFlight + [f];
      numOutstandingFrames := numOutstandingFrames + 1;
    }

    /** `maybeGetRetransmission`: the first lost frame, or as much of it as fits. */
    method PopRetransmission(maxBytes: int) returns (f: Option<StreamFrame>)
      requires LedgerOk() && retransmissionQueue != [] && maxBytes <= LONGEST_PACKET
      modifies this`retransmissionQueue, this`inFlight, this`numOutstandingFrames
      ensures LedgerOk() && (f.Some? ==> f.value.dataLenPresent && Length(streamID, f.value) <= maxBytes)
      ensures (SendView(), Popped(f, None, true)) == old(SendView()).Resend(streamID, maxBytes)
    {
      var g := retransmissionQueue[0];
      LostIsFaithful(TheLedger());
      hide Balanced;
      var (head, rest, needsSplit) := MaybeSplitOff(streamID, g, maxBytes);
      if needsSplit {
        if head.None? {
          return None;
        }
        ResendHead(TheLedger(), head.value, rest);
        retransmissionQueue := retransmissionQueue[0 := rest];
        f := head;
      } else {
        Resend(TheLedger());
        retransmissionQueue := retransmissionQueue[1..];
        f := Some(g);
      }
      inFlight := inFlight + [f.value];
      numOutstandingFrames := numOutstandingFrames + 1;
    }

    /** Other streams use connection credit between the look at the window and the charge. */
    method TakeOthers(others: nat)
      requires DataOk() && FlagsOk() && CreditOk()
      modifies this`othersSent, flowController.connection`bytesSent
      ensures CreditOk() && othersSent == old(othersSent) + old(View()).Taken(others)
    {
      hide DataOk, FlagsOk, Sender.Charged;
      CreditCounts();
      var taken := flowController.connection.TryAddBytesSent(others);
      if taken {
        othersSent := othersSent + others;
      }
    }

    /** Credit was taken for `n` bytes that are about to be sent. */
    ghost predicate Charged(n: int)
      reads this`nextFrame, this`nextFrameReserved, this`writeOffset, this`limiterApproved, this`limitedFramed,
            this`othersSent, this`writeLimiter, flowController`bytesSent, flowController`sendWindow,
            flowController.connection`bytesSent, flowController.connection`sendWindow
    {
      && flowController.bytesSent == writeOffset + (if nextFrameReserved then Reserved() else n)
      && flowController.connection.bytesSent == flowController.bytesSent + othersSent
      && flowController.bytesSent <= flowController.sendWindow
      && flowController.connection.bytesSent <= flowController.connection.sendWindow
      && limiterApproved == limitedFramed + (if writeLimiter.Some? && nextFrame.None? then n else 0)
    }

    /** The limiter held back: the write is over, and is woken up. */
    method LimitWrite()
      requires FlagsOk() && writeLimiter.Some? && nextFrame.None?
      modifies this`writeLimited, this`writeSignal
      ensures FlagsOk() && WakeOk() && View() == old(View()).Hold(true)
    {
      writeLimited, writeSignal := true, true;
    }

    /** Takes credit for as much of `want` as the limiter approves; if it holds back, the write is over. */
    method AskLimiter(want: int) returns (n: int, limited: bool)
      requires DataOk() && CreditOk() && FlagsOk() && WakeOk() && 0 < want && !writeLimited
      requires nextFrame.None? && writeLimiter.Some?
      modifies this`writeLimited, this`writeSignal, this`limiterApproved, flowController`bytesSent,
               flowController.connection`bytesSent
      ensures FlagsOk() && WakeOk() && Charged(n) && 0 <= n <= want
      ensures (n, limited) == old(View()).Grant(want) && View() == old(View()).Hold(limited)
    {
      hide FlagsOk, WakeOk, DataOk, SendView, CreditView, Sender.Charged, Sender.Buffered, Sender.Room;
      Counts();
      CreditCounts();
      NextOrNot();
      n, limited := flowController.AddBytesSentWithLimiter(want, writeLimiter.value);
      if limited {
        LimitWrite();
      }
      limiterApproved := limiterApproved + n;
    }

    /** Takes credit for up to `want` new bytes; a reserved frame has its credit already. */
    method TakeCredit(want: int) returns (n: int, hasMore: bool)
      requires DataOk() && CreditOk() && FlagsOk() && WakeOk() && 0 < want && !writeLimited
      requires nextFrame.None? ==> writing
      modifies this`writeLimited, this`writeSignal, this`limiterApproved, flowController`bytesSent,
               flowController.connection`bytesSent
      ensures FlagsOk() && WakeOk() && Charged(n) && 0 <= n <= want
      ensures (n, !hasMore) == old(View()).Grant(want) && View() == old(View()).Hold(!hasMore)
    {
      hide FlagsOk, WakeOk, DataOk, SendView, Sender.Charged, Sender.Buffered, Sender.Room;
      Counts();
      CreditCounts();
      NextOrNot();
      hasMore := true;
      if writeLimiter.Some? && nextFrame.None? {
        var limited;
        n, limited := AskLimiter(want);
        hasMore := !limited;
      } else if nextFrameReserved {
        n := want;
      } else {
        var ok := flowController.TryAddBytesSent(want);
        n := if ok then want else 0;
      }
    }

    /** `SendWindowSize` or the reserved length, cut to what fits the packet and what there is. */
    function NewDataLen(maxBytes: int): (n: int)
      reads this, flowController, flowController.connection
      requires CreditOk() && DataOk() && FlagsOk()
      ensures 0 <= n <= if nextFrame.Some? then |NextData()| else |dataForWriting|
      ensures n <= MaxStreamDataLen(streamID, writeOffset, true, maxBytes)
    {
      var credit := if nextFrameReserved then |NextData()| else flowController.SendWindowSize();
      var fit := Min(credit, MaxStreamDataLen(streamID, writeOffset, true, maxBytes));
      Min(fit, if nextFrame.Some? then |NextData()| else |dataForWriting|)
    }

    lemma NewDataLenIsWant(maxBytes: int)
      requires CreditOk() && DataOk() && FlagsOk()
      ensures NewDataLen(maxBytes) == View().Want(maxBytes)
    {
      hide Streamed, MaxStreamDataLen;
      Counts();
      CreditCounts();
      NextOrNot();
    }

    lemma LedgerParts()
      requires LedgerOk() && !finSent
      ensures !completed && numOutstandingFrames == |inFlight| && completions == 0 && Balanced(TheLedger())
    {
    }

    lemma SentLength()
      requires DataOk()
      ensures |sent| == writeOffset
    {
    }

    /** Frames and sends `n` new bytes for which credit was taken. */
    method SendData(n: int) returns (f: StreamFrame, hasMore: bool)
      requires DataOk() && FlagsOk() && WakeOk() && LedgerOk() && !finSent && 0 < n && |sent| == writeOffset
      requires n <= if nextFrame.Some? then |NextData()| else |dataForWriting|
      modifies this`nextFrame, this`nextFrameReserved, this`dataForWriting, this`writeSignal, this`sent,
               this`writeOffset, this`finSent, this`inFlight, this`numOutstandingFrames
      ensures DataOk() && FlagsOk() && WakeOk() && LedgerOk() && writeOffset == old(writeOffset) + n
      ensures |old(sent)| + n <= |old(View()).All()| && n <= old(View()).Unsent()
      ensures f == old(View()).Next(n) && View() == old(View()).Take(n).Emit(f)
      ensures Reserved() == if old(nextFrameReserved) then old(Reserved()) - n else 0
      ensures hasMore <==> n < old(View()).Unsent() || (old(nextFrame).None? && finishedWriting)
    {
      hide Balanced, DataOk, WakeOk, FlagsOk, LedgerOk, Sender.Take, Sender.Next,
        Sender.All, Sender.Unsent, Sending.Emit, WriteView, CreditView;
      LedgerParts();
      ghost var before, was := TheLedger(), View();
      var offset := writeOffset;
      var data;
      data, hasMore := TakeNew(n);
      NextIs(was, n);
      assert TheLedger().(sent := before.sent) == before;
      f := EmitNew(offset, data, before.sent);
    }

    /** Sends the `n` bytes for which credit was taken. */
    method SendCharged(n: int) returns (f: StreamFrame, hasMore: bool)
      requires DataOk() && FlagsOk() && WakeOk() && LedgerOk() && Charged(n) && !finSent && 0 < n
      requires n <= if nextFrame.Some? then |NextData()| else |dataForWriting|
      modifies this`nextFrame, this`nextFrameReserved, this`dataForWriting, this`writeSignal, this`sent,
               this`writeOffset, this`finSent, this`inFlight, this`numOutstandingFrames, this`limitedFramed
      ensures Valid()
      ensures |old(sent)| + n <= |old(View()).All()| && n <= old(View()).Unsent()
      ensures f == old(View()).Next(n) && View() == old(View()).Take(n).Emit(f)
      ensures hasMore <==> n < old(View()).Unsent() || (old(nextFrame).None? && finishedWriting)
    {
      hide Balanced, DataOk, WakeOk, LedgerOk, FlagsOk, Sender.Next, Sender.Take, Sender.Emit, Sender.Unsent,
        Sender.All, WriteView, SendView;
      SentLength();
      Counts();
      NextOrNot();
      var limitedWrite := writeLimiter.Some? && nextFrame.None?;
      f, hasMore := SendData(n);
      if limitedWrite {
        limitedFramed := limitedFramed + n;
      }
    }

    /** The part of `popNewOrRetransmittedStreamFrame` after the retransmissions. */
    method PopNew(maxBytes: int, others: nat) returns (r: Popped)
      requires Valid() && maxBytes <= LONGEST_PACKET
      modifies this`nextFrame, this`nextFrameReserved, this`dataForWriting, this`writeSignal, this`sent,
               this`writeOffset, this`limitedFramed, this`finSent, this`inFlight, this`numOutstandingFrames,
               this`writeLimited, this`limiterApproved, this`othersSent,
               flowController`bytesSent, flowController`lastBlockedAt, flowController.connection`bytesSent
      ensures Valid() && FitsBudget(streamID, r, maxBytes)
      ensures |old(sent)| <= |old(View()).All()| && (View(), r) == old(View()).PopNew(maxBytes, others)
    {
      hide Balanced, DataOk, WakeOk, LedgerOk, CreditOk, Sender.Spend;
      Counts();
      if writeLimited {
        return Popped(None, None, false);
      }
      if |dataForWriting| == 0 && nextFrame.None? {
        if finishedWriting && !finSent {
          r := SendFin();
          return;
        }
        return Popped(None, None, false);
      }
      r := PopData(maxBytes, others);
    }

    /** New data, as far as credit and packet allow. */
    method PopData(maxBytes: int, others: nat) returns (r: Popped)
      requires Valid() && maxBytes <= LONGEST_PACKET && !writeLimited && (dataForWriting != [] || nextFrame.Some?)
      modifies this`nextFrame, this`nextFrameReserved, this`dataForWriting, this`writeSignal, this`sent,
               this`writeOffset, this`limitedFramed, this`finSent, this`inFlight, this`numOutstandingFrames,
               this`writeLimited, this`limiterApproved, this`othersSent,
               flowController`bytesSent, flowController`lastBlockedAt, flowController.connection`bytesSent
      ensures Valid() && FitsBudget(streamID, r, maxBytes)
      ensures |old(sent)| <= |old(View()).All()| && (View(), r) == old(View()).PopNew(maxBytes, others)
    {
      hide DataOk, WakeOk, LedgerOk, CreditOk, MaxStreamDataLen, Sender.Spend, Sender.Want, Sender.Taken;
      Counts();
      NextOrNot();
      NewDataLenIsWant(maxBytes);
      var want := NewDataLen(maxBytes);
      if want == 0 {
        return Popped(None, None, true);
      }
      TakeOthers(others);
      r := Spend(want, maxBytes);
    }

    /** Up to `want` bytes, which fit, are charged and sent. */
    method Spend(want: int, maxBytes: int) returns (r: Popped)
      requires Valid() && maxBytes <= LONGEST_PACKET && !writeLimited && !finSent && (nextFrame.None? ==> writing)
      requires 0 < want <= if nextFrame.Some? then |NextData()| else |dataForWriting|
      requires want <= MaxStreamDataLen(streamID, writeOffset, true, maxBytes)
      modifies this`nextFrame, this`nextFrameReserved, this`dataForWriting, this`writeSignal, this`sent,
               this`writeOffset, this`limitedFramed, this`finSent, this`inFlight, this`numOutstandingFrames,
               this`writeLimited, this`limiterApproved,
               flowController`bytesSent, flowController`lastBlockedAt, flowController.connection`bytesSent
      ensures Valid() && FitsBudget(streamID, r, maxBytes)
      ensures |old(sent)| <= |old(View()).All()| && want <= old(View()).Unsent()
      ensures (View(), r) == old(View()).Spend(want)
    {
      hide DataOk, WakeOk, FlagsOk, LedgerOk, Charged, MaxStreamDataLen, Sender.SendNow, Sender.Grant, Sender.Buffered,
        SendView, CreditView;
      Counts();
      NextOrNot();
      var n, more := TakeCredit(want);
      if n == 0 {
        NoCharge();
        return Popped(None, None, more);
      }
      r := SendNow(n, !more, maxBytes);
    }

    /** The `n` bytes that were charged are sent; if that uses up the window, this is reported. */
    method SendNow(n: int, held: bool, maxBytes: int) returns (r: Popped)
      requires DataOk() && FlagsOk() && WakeOk() && LedgerOk() && Charged(n) && !finSent && 0 < n
      requires n <= if nextFrame.Some? then |NextData()| else |dataForWriting|
      requires n <= MaxStreamDataLen(streamID, writeOffset, true, maxBytes) && maxBytes <= LONGEST_PACKET
      requires writeLimited == held
      modifies this`nextFrame, this`nextFrameReserved, this`dataForWriting, this`writeSignal, this`sent,
               this`writeOffset, this`finSent, this`inFlight, this`numOutstandingFrames, this`limitedFramed,
               flowController`lastBlockedAt
      ensures Valid() && FitsBudget(streamID, r, maxBytes)
      ensures |old(sent)| <= |old(View()).All()| && n <= old(View()).Unsent()
      ensures (View(), r) == old(View()).SendNow(n, held)
    {
      hide DataOk, WakeOk, FlagsOk, LedgerOk, Charged, MaxStreamDataLen, StreamFrameLen, Sender.Take, Sender.Next,
        Sender.Buffered, Sender.Charged;
      Counts();
      NextOrNot();
      SentLength();
      MaxStreamDataLenIsMaximal(streamID, writeOffset, true, maxBytes, n);
      NextIs(View(), n);
      var f, hasMore := SendCharged(n);
      if writeLimited {
        hasMore := false;
      }
      CreditCounts();
      var isBlocked, at := flowController.IsNewlyBlocked();
      r := Popped(Some(f), if isBlocked then Some(at) else None, hasMore);
    }

    lemma NoCharge()
      requires Charged(0) && FlagsOk()
      ensures CreditOk()
    {
    }

    /** Everything was sent before the stream was closed: an empty frame carries the FIN. */
    method SendFin() returns (r: Popped)
      requires DataOk() && FlagsOk() && LedgerOk() && !finSent && finishedWriting
      requires dataForWriting == [] && nextFrame.None?
      modifies this`finSent, this`inFlight, this`numOutstandingFrames
      ensures FlagsOk() && LedgerOk() && |old(sent)| == |old(View()).All()|
      ensures r == Popped(Some(old(View()).Next(0)), None, false) && View() == old(View()).Emit(old(View()).Next(0))
    {
      hide Balanced;
      Counts();
      assert View().All()[|sent|..|sent|] == [];
      assert sent + [] == sent;
      assert TheLedger().(sent := sent) == TheLedger();
      var f := EmitNew(writeOffset, [], sent);
      r := Popped(Some(f), None, false);
    }

    /** `popStreamFrame`: retransmissions first, then new data. */
    method PopStreamFrame(maxBytes: int, others: nat) returns (r: Popped)
      requires Valid() && maxBytes <= LONGEST_PACKET
      modifies this`nextFrame, this`nextFrameReserved, this`dataForWriting, this`writeSignal, this`sent,
               this`writeOffset, this`limitedFramed, this`finSent, this`inFlight, this`numOutstandingFrames,
               this`writeLimited, this`limiterApproved, this`othersSent, this`retransmissionQueue,
               flowController`bytesSent, flowController`lastBlockedAt, flowController.connection`bytesSent
      ensures Valid() && FitsBudget(streamID, r, maxBytes)
      ensures |old(sent)| <= |old(View()).All()| && (View(), r) == old(View()).Pop(maxBytes, others)
    {
      hide Balanced, DataOk, WakeOk, FlagsOk, CreditOk, LedgerOk, Sender.PopNew, Sending.Resend, WriteView, CreditView;
      Counts();
      if |retransmissionQueue| > 0 {
        var f := PopRetransmission(maxBytes);
        return Popped(f, None, true);
      }
      r := PopNew(maxBytes, others);
    }

    // ---------------------------------------------------------------- acknowledgements

    /** After the FIN, everything accepted was sent. */
    lemma AllAccepted()
      requires DataOk() && FlagsOk()
      ensures finSent ==> sent == written + current
    {
      if finSent {
        assert current[..|current|] == current && sent + [] == sent;
      }
    }

    method IsNewlyCompleted() returns (newly: bool)
      requires LedgerOk() && FlagsOk()
      modifies this`completed, this`completions
      ensures LedgerOk()
      ensures newly <==> !old(completed) && old(SendView()).Done()
      ensures completed == (old(completed) || newly)
    {
      newly := false;
      if completed {
        return;
      }
      if nextFrame.Some? && |nextFrame.value.data| > 0 {
        return;
      }
      if numOutstandingFrames > 0 || |retransmissionQueue| > 0 {
        return;
      }
      if finSent {
        completed := true;
        completions := completions + 1;
        newly := true;
      }
    }

    /** Frame `i` of those in flight is acknowledged now. */
    method Settle(i: int)
      requires LedgerOk() && 0 <= i < |inFlight|
      modifies this`inFlight, this`acked, this`numOutstandingFrames
      ensures LedgerOk() && SendView() == old(SendView()).Move(i) && numOutstandingFrames == |inFlight|
    {
      hide Balanced;
      Acknowledge(TheLedger(), i);
      acked := acked + [inFlight[i]];
      inFlight := Without(inFlight, i);
      numOutstandingFrames := numOutstandingFrames - 1;
    }

    lemma DoneIsAll()
      requires LedgerOk() && SendView().Done()
      ensures finSent && Fins(acked) == 1 && forall x :: 0 <= x < |sent| ==> Count(acked, x) == 1
    {
      hide Balanced;
      AllAcknowledged(TheLedger());
    }

    /**
     Frame `i` of those in flight was acknowledged.  Completion is reported once, when the FIN and
     every byte are acknowledged.
     */
    method OnAcked(i: int) returns (completedNow: bool)
      requires Valid() && 0 <= i < |inFlight|
      modifies this`inFlight, this`acked, this`numOutstandingFrames, this`completed, this`completions
      ensures Valid()
      ensures (SendView(), completedNow) == old(SendView()).Ack(i) && numOutstandingFrames == |inFlight|
      ensures completedNow ==> sent == written + current
      ensures completedNow ==> Fins(acked) == 1 && forall x :: 0 <= x < |sent| ==> Count(acked, x) == 1
    {
      hide DataOk, FlagsOk, WakeOk, CreditOk, LedgerOk, Sending.Move, Sending.Done;
      AllAccepted();
      Settle(i);
      ghost var done := SendView().Done();
      if done {
        DoneIsAll();
      }
      completedNow := IsNewlyCompleted();
    }

    /** Frame `i` of those in flight was lost: it is queued for retransmission. */
    method OnLost(i: int)
      requires Valid() && 0 <= i < |inFlight|
      modifies this`inFlight, this`retransmissionQueue, this`numOutstandingFrames
      ensures Valid() && numOutstandingFrames >= 0 && SendView() == old(SendView()).Lose(i)
    {
      hide Balanced, DataOk, FlagsOk, WakeOk, CreditOk;
      Lose(TheLedger(), i);
      retransmissionQueue := retransmissionQueue + [inFlight[i]];
      inFlight := Without(inFlight, i);
      numOutstandingFrames := numOutstandingFrames - 1;
    }

    method Close() returns (completedNow: bool)
      requires Valid()
      modifies this`finishedWriting, this`completed, this`completions
      ensures Valid() && !completedNow && SendView() == old(SendView()).(closed := true)
    {
      hide Balanced, DataOk, WakeOk, CreditOk;
      if finishedWriting {
        return false;
      }
      finishedWriting := true;
      completedNow := IsNewlyCompleted();
    }

    method UpdateSendWindow(limit: int) returns (hasStreamData: bool)
      requires Valid()
      modifies flowController`sendWindow
      ensures Valid() && CreditView() == old(CreditView()).(granted := Max(limit, old(flowController.sendWindow)))
      ensures hasStreamData <==> limit > old(flowController.sendWindow) && (dataForWriting != [] || nextFrame.Some?)
    {
      hide LedgerOk, DataOk, FlagsOk, WakeOk;
      var updated := flowController.UpdateSendWindow(limit);
      hasStreamData := updated && (|dataForWriting| > 0 || nextFrame.Some?);
    }

    /** A MAX_DATA frame raises the limit all streams share. */
    method RaiseConnectionWindow(limit: int)
      requires Valid()
      modifies flowController.connection`sendWindow
      ensures Valid()
      ensures CreditView() == old(CreditView()).(connGranted := Max(limit, old(flowController.connection.sendWindow)))
    {
      hide LedgerOk, DataOk, FlagsOk, WakeOk;
      var _ := flowController.connection.UpdateSendWindow(limit);
    }

    lemma ViewSound()
      requires Valid()
      ensures View().Sound()
    {
      hide Streamed, WakeOk, LedgerOk, CreditOk;
      StreamedPrefix(written, current, dataForWriting, sent, NextData());
    }

    /** What a valid state says about the stream as a whole. */
    lemma Summary()
      requires Valid()
      ensures sent <= written + current
      ensures completed ==>
        && sent == written + current && Fins(acked) == 1
        && forall x :: 0 <= x < |sent| ==> Count(acked, x) == 1
      ensures flowController.bytesSent == View().Charged() <= flowController.sendWindow
      ensures flowController.connection.bytesSent == flowController.bytesSent + othersSent
      ensures flowController.connection.bytesSent <= flowController.connection.sendWindow
      ensures Balanced(TheLedger()) && numOutstandingFrames == |inFlight| && limiterApproved == limitedFramed
      ensures completions == if completed then 1 else 0
    {
      hide Balanced;
      AllAccepted();
      CreditCounts();
      if completed {
        AllAcknowledged(TheLedger());
      }
      StreamedPrefix(written, current, dataForWriting, sent, NextData());
    }
  }
}
