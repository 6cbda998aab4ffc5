/**
 Flow control on the two levels, stream and connection.

 `ReceiveWindow` is the part both controllers embed; the two classes add the send side, and the
 stream controller passes everything it counts on to the connection controller it shares.
 */
module FlowControl {
  import opened Protocol

  // ---------------------------------------------------------------- receiving, both levels

  datatype ReceiveWindow = ReceiveWindow(bytesRead: int, highestReceived: int, receiveWindow: int,
                                         receiveWindowSize: int, maxReceiveWindowSize: int, epochStartOffset: int)

  /** What auto-tuning depends on besides the counters: the clock, the RTT, and the memory limit. */
  datatype Tuning = Tuning(rttKnown: bool, consumedTooFast: bool, allowIncrease: bool)

  function NewWindow(size: int, max: int): ReceiveWindow {
    ReceiveWindow(0, 0, size, size, max, 0)
  }

  /** The limit below which so little of the window is left that an update is due. */
  function UpdateThreshold(size: int, threshold: real): int {
    (size as real * (1.0 - threshold)).Floor
  }

  predicate HasWindowUpdate(w: ReceiveWindow, threshold: real) {
    w.receiveWindow - w.bytesRead <= UpdateThreshold(w.receiveWindowSize, threshold)
  }

  /** At least the fraction `threshold` of the window was read since it was opened. */
  predicate Due(w: ReceiveWindow, threshold: real) {
    (w.bytesRead - (w.receiveWindow - w.receiveWindowSize)) as real >= threshold * w.receiveWindowSize as real
  }

  lemma UpdateIffDue(w: ReceiveWindow, threshold: real)
    ensures HasWindowUpdate(w, threshold) <==> Due(w, threshold)
  {
    var size, unread := w.receiveWindowSize as real, w.receiveWindow - w.bytesRead;
    assert size * (1.0 - threshold) == size - threshold * size;
    assert unread <= UpdateThreshold(w.receiveWindowSize, threshold) <==> unread as real <= size - threshold * size;
  }

  function MaybeAdjustWindowSize(w: ReceiveWindow, t: Tuning): ReceiveWindow {
    if w.bytesRead - w.epochStartOffset <= w.receiveWindowSize / 2 || !t.rttKnown then w
    else
      var newSize := Min(2 * w.receiveWindowSize, w.maxReceiveWindowSize);
      var grow := t.consumedTooFast && newSize > w.receiveWindowSize && t.allowIncrease;
      var size := if grow then newSize else w.receiveWindowSize;
      w.(receiveWindowSize := size, epochStartOffset := w.bytesRead)
  }

  /** The updated window and the offset to advertise, 0 if no update is due. */
  function GetWindowUpdate(w: ReceiveWindow, threshold: real, t: Tuning): (r: (ReceiveWindow, int))
    ensures if Due(w, threshold) then r.1 == r.0.receiveWindow == w.bytesRead + r.0.receiveWindowSize else r == (w, 0)
  {
    UpdateIffDue(w, threshold);
    if !HasWindowUpdate(w, threshold) then (w, 0)
    else
      var v := MaybeAdjustWindowSize(w, t);
      var u := v.(receiveWindow := v.bytesRead + v.receiveWindowSize);
      (u, u.receiveWindow)
  }

  /** Data up to `to` was received; the first data starts the auto-tuning epoch. */
  function AdvanceTo(w: ReceiveWindow, to: int): ReceiveWindow {
    if to <= w.highestReceived then w
    else w.(highestReceived := to,
            epochStartOffset := if w.highestReceived == 0 then w.bytesRead else w.epochStartOffset)
  }

  /** Counters of a controller on which no flow control error occurred; `cap` bounds the window size. */
  ghost predicate WindowOk(w: ReceiveWindow, cap: int) {
    && 0 <= w.bytesRead <= w.highestReceived <= w.receiveWindow
    && w.receiveWindow <= w.bytesRead + w.receiveWindowSize
    && 0 <= w.receiveWindowSize <= cap && w.maxReceiveWindowSize <= cap
    && 0 <= w.epochStartOffset <= w.bytesRead
  }

  lemma ThresholdBelowSize(size: int, threshold: real)
    requires 0.0 < threshold < 1.0 && size > 0
    ensures 0 <= UpdateThreshold(size, threshold) < size
  {
    var s := size as real;
    assert s * (1.0 - threshold) < s;
    assert 0.0 <= s * (1.0 - threshold);
  }

  /** An update moves the window strictly forward and keeps the bounds. */
  lemma UpdateAdvances(w: ReceiveWindow, threshold: real, t: Tuning, cap: int)
    requires WindowOk(w, cap) && 0.0 < threshold < 1.0
    ensures var (u, offset) := GetWindowUpdate(w, threshold, t);
            && WindowOk(u, cap)
            && u.receiveWindow >= w.receiveWindow && u.receiveWindowSize >= w.receiveWindowSize
            && u.bytesRead == w.bytesRead && u.highestReceived == w.highestReceived
            && u.maxReceiveWindowSize == w.maxReceiveWindowSize
            && (if Due(w, threshold) then offset == u.receiveWindow == w.bytesRead + u.receiveWindowSize
                else offset == 0 && u == w)
            && (Due(w, threshold) && w.receiveWindowSize > 0 ==> u.receiveWindow > w.receiveWindow)
            // the size doubles, up to the maximum, when more than half of it was read too fast
            && (u.receiveWindowSize > w.receiveWindowSize <==>
                  && Due(w, threshold) && 2 * (w.bytesRead - w.epochStartOffset) > w.receiveWindowSize
                  && t.rttKnown && t.consumedTooFast && t.allowIncrease
                  && 0 < w.receiveWindowSize < w.maxReceiveWindowSize)
            && (u.receiveWindowSize > w.receiveWindowSize ==>
                  u.receiveWindowSize == Min(2 * w.receiveWindowSize, w.maxReceiveWindowSize))
  {
    UpdateIffDue(w, threshold);
    if w.receiveWindowSize > 0 {
      ThresholdBelowSize(w.receiveWindowSize, threshold);
    }
  }

  // ---------------------------------------------------------------- whole runs of one receive window

  datatype WindowStep = Received(n: nat) | Read(n: nat) | Update(t: Tuning) | EnsureMinimum(inc: int, allow: bool)

  /** Raises the size to `inc`, as far as the maximum allows. */
  function EnsureMinimumSize(w: ReceiveWindow, inc: int, allow: bool): ReceiveWindow {
    if inc <= w.receiveWindowSize then w
    else
      var newSize := Min(inc, w.maxReceiveWindowSize);
      var size := if newSize - w.receiveWindowSize > 0 && allow then newSize else w.receiveWindowSize;
      w.(receiveWindowSize := size, epochStartOffset := w.bytesRead)
  }

  /** One step; a peer that exceeds the window, or a read beyond the received data, ends the run. */
  function StepWindow(w: ReceiveWindow, threshold: real, step: WindowStep): Option<ReceiveWindow> {
    match step
    case Received(n) =>
      if w.highestReceived + n > w.receiveWindow then None
      else Some(AdvanceTo(w, w.highestReceived + n))
    case Read(n) =>
      if w.bytesRead + n > w.highestReceived then None
      else Some(w.(bytesRead := w.bytesRead + n))
    case Update(t) => Some(GetWindowUpdate(w, threshold, t).0)
    case EnsureMinimum(inc, allow) => Some(EnsureMinimumSize(w, inc, allow))
  }

  function RunWindow(w: ReceiveWindow, threshold: real, steps: seq<WindowStep>): Option<ReceiveWindow>
    decreases |steps|
  {
    if steps == [] then Some(w)
    else
      var r := StepWindow(w, threshold, steps[0]);
      if r.None? then None else RunWindow(r.value, threshold, steps[1..])
  }

  lemma StepKeepsWindow(w: ReceiveWindow, threshold: real, step: WindowStep, cap: int)
    requires WindowOk(w, cap) && 0.0 < threshold < 1.0
    ensures var r := StepWindow(w, threshold, step);
            r.Some? ==>
              && WindowOk(r.value, cap) && r.value.receiveWindow >= w.receiveWindow
              && r.value.receiveWindowSize >= w.receiveWindowSize
  {
    if step.Update? {
      UpdateAdvances(w, threshold, step.t, cap);
    }
  }

  /** Over any run, advertised windows never shrink and unread data stays within the window size. */
  lemma {:induction false} RunKeepsWindow(w: ReceiveWindow, threshold: real, steps: seq<WindowStep>, cap: int)
    requires WindowOk(w, cap) && 0.0 < threshold < 1.0
    ensures var r := RunWindow(w, threshold, steps);
            r.Some? ==>
              && WindowOk(r.value, cap) && r.value.receiveWindow >= w.receiveWindow
              && r.value.receiveWindowSize >= w.receiveWindowSize
              && r.value.highestReceived - r.value.bytesRead <= r.value.receiveWindowSize <= cap
    decreases |steps|
  {
    if steps != [] {
      StepKeepsWindow(w, threshold, steps[0], cap);
      var r := StepWindow(w, threshold, steps[0]);
      if r.Some? {
        RunKeepsWindow(r.value, threshold, steps[1..], cap);
      }
    }
  }

  /** From a new controller, the cap is the larger of the initial and the maximum size. */
  lemma NewWindowRuns(size: int, max: int, threshold: real, steps: seq<WindowStep>)
    requires 0 <= size && 0.0 < threshold < 1.0
    ensures var r := RunWindow(NewWindow(size, max), threshold, steps);
            r.Some? ==>
              && r.value.receiveWindow >= size
              && r.value.highestReceived - r.value.bytesRead <= r.value.receiveWindowSize <= Max(size, max)
  {
    RunKeepsWindow(NewWindow(size, max), threshold, steps, Max(size, max));
  }

  /** Once all that the peer may send was read, an update is due, and lets it send a window more. */
  lemma ReadAllIsDue(w: ReceiveWindow, threshold: real, t: Tuning, cap: int)
    requires WindowOk(w, cap) && 0.0 < threshold < 1.0 && w.receiveWindowSize > 0 && w.bytesRead == w.receiveWindow
    ensures var (u, offset) := GetWindowUpdate(w, threshold, t);
            offset == u.receiveWindow >= w.receiveWindow + w.receiveWindowSize
  {
    hide GetWindowUpdate;
    var size := w.receiveWindowSize as real;
    assert threshold * size <= size;
    UpdateAdvances(w, threshold, t, cap);
  }

  /** After any run, once all that the peer may send was read, an update lets it send a window more. */
  lemma NeverStuck(size: int, max: int, threshold: real, steps: seq<WindowStep>, t: Tuning)
    requires 0 < size && 0.0 < threshold < 1.0
    ensures var r := RunWindow(NewWindow(size, max), threshold, steps);
            r.Some? && r.value.bytesRead == r.value.receiveWindow ==>
              var (u, offset) := GetWindowUpdate(r.value, threshold, t);
              offset == u.receiveWindow >= r.value.receiveWindow + size
  {
    var r := RunWindow(NewWindow(size, max), threshold, steps);
    RunKeepsWindow(NewWindow(size, max), threshold, steps, Max(size, max));
    hide GetWindowUpdate, RunWindow;
    if r.Some? && r.value.bytesRead == r.value.receiveWindow {
      ReadAllIsDue(r.value, threshold, t, Max(size, max));
    }
  }

  // ---------------------------------------------------------------- the two controllers

  datatype FlowError = NoError | FinalSizeError | FlowControlError

  class ConnectionFlowController {
    var recv: ReceiveWindow
    var bytesSent: int
    var sendWindow: int
    var lastBlockedAt: int

    constructor (receiveWindow: int, maxReceiveWindow: int)
      ensures recv == NewWindow(receiveWindow, maxReceiveWindow)
      ensures bytesSent == 0 && sendWindow == 0 && lastBlockedAt == 0
    {
      recv := NewWindow(receiveWindow, maxReceiveWindow);
      bytesSent, sendWindow, lastBlockedAt := 0, 0, 0;
    }

    method IncrementHighestReceived(increment: int) returns (err: FlowError)
      modifies this`recv
      ensures recv == old(recv).(
        highestReceived := old(recv).highestReceived + increment,
        epochStartOffset := if old(recv).highestReceived == 0 then old(recv).bytesRead else old(recv).epochStartOffset)
      ensures err == if recv.highestReceived > recv.receiveWindow then FlowControlError else NoError
    {
      if recv.highestReceived == 0 {
        recv := recv.(epochStartOffset := recv.bytesRead);
      }
      recv := recv.(highestReceived := recv.highestReceived + increment);
      if recv.highestReceived > recv.receiveWindow {
        return FlowControlError;
      }
      err := NoError;
    }

    method AddBytesRead(n: int, threshold: real) returns (hasWindowUpdate: bool)
      modifies this`recv
      ensures recv == old(recv).(bytesRead := old(recv).bytesRead + n)
      ensures hasWindowUpdate <==> Due(recv, threshold)
    {
      recv := recv.(bytesRead := recv.bytesRead + n);
      UpdateIffDue(recv, threshold);
      hasWindowUpdate := HasWindowUpdate(recv, threshold);
    }

    method TryAddBytesSent(n: int) returns (ok: bool)
      modifies this`bytesSent
      ensures ok <==> old(bytesSent) <= sendWindow && n <= sendWindow - old(bytesSent)
      ensures bytesSent == if ok then old(bytesSent) + n else old(bytesSent)
    {
      if bytesSent > sendWindow || n > sendWindow - bytesSent {
        return false;
      }
      bytesSent := bytesSent + n;
      ok := true;
    }

    method AddBytesSentWithLimiter(n: int, limiter: int -> int) returns (added: int, limited: bool)
      requires 0 <= n
      modifies this`bytesSent
      ensures 0 <= added <= n && bytesSent == old(bytesSent) + added
      ensures old(bytesSent) <= sendWindow ==> bytesSent <= sendWindow
      ensures old(bytesSent) >= sendWindow ==> added == 0 && !limited
      ensures old(bytesSent) < sendWindow ==>
        var allowed := Min(n, sendWindow - old(bytesSent));
        && added == Min(Max(limiter(allowed), 0), allowed)
        && (limited <==> added < allowed)
    {
      if bytesSent >= sendWindow {
        return 0, false;
      }
      var allowed := Min(n, sendWindow - bytesSent);
      added := Min(Max(limiter(allowed), 0), allowed);
      bytesSent := bytesSent + added;
      limited := added < allowed;
    }

    method UpdateSendWindow(offset: int) returns (updated: bool)
      modifies this`sendWindow
      ensures sendWindow == Max(offset, old(sendWindow)) && (updated <==> offset > old(sendWindow))
    {
      updated := offset > sendWindow;
      if updated {
        sendWindow := offset;
      }
    }

    function SendWindowSize(): int
      reads this
    {
      sendWindow - bytesSent
    }

    /** All credit is used up, which was not yet reported for this window. */
    predicate NewlyBlocked()
      reads this`bytesSent, this`sendWindow, this`lastBlockedAt
    {
      bytesSent >= sendWindow && sendWindow != lastBlockedAt
    }

    /** Reports each blocking window once: a second call has nothing to report. */
    method IsNewlyBlocked() returns (blocked: bool, offset: int)
      modifies this`lastBlockedAt
      ensures (blocked <==> old(NewlyBlocked())) && !NewlyBlocked()
      ensures blocked ==> offset == sendWindow == lastBlockedAt
      ensures !blocked ==> lastBlockedAt == old(lastBlockedAt)
    {
      if bytesSent < sendWindow || sendWindow == lastBlockedAt {
        return false, 0;
      }
      lastBlockedAt := sendWindow;
      return true, sendWindow;
    }

    method GetUpdate(threshold: real, t: Tuning) returns (offset: int)
      modifies this`recv
      ensures (recv, offset) == GetWindowUpdate(old(recv), threshold, t)
    {
      var r := GetWindowUpdate(recv, threshold, t);
      recv := r.0;
      offset := r.1;
    }

    /** The window size reaches `inc`, or the maximum, if that is more and memory allows it. */
    method EnsureMinimumWindowSize(inc: int, allow: bool)
      modifies this`recv
      ensures recv == EnsureMinimumSize(old(recv), inc, allow)
      ensures var was := old(recv).receiveWindowSize;
              recv.receiveWindowSize == if allow then Max(was, Min(inc, recv.maxReceiveWindowSize)) else was
      ensures recv == old(recv).(receiveWindowSize := recv.receiveWindowSize, epochStartOffset := recv.epochStartOffset)
      ensures forall cap {:trigger WindowOk(recv, cap)} :: WindowOk(old(recv), cap) ==> WindowOk(recv, cap)
    {
      if inc <= recv.receiveWindowSize {
        return;
      }
      var newSize := Min(inc, recv.maxReceiveWindowSize);
      if newSize - recv.receiveWindowSize > 0 && allow {
        recv := recv.(receiveWindowSize := newSize);
      }
      recv := recv.(epochStartOffset := recv.bytesRead);
    }

    /** After a rejected 0-RTT handshake; refused once anything was received or read. */
    method Reset(epochStarted: bool) returns (ok: bool)
      modifies this`bytesSent, this`sendWindow, this`lastBlockedAt
      ensures ok <==> recv.bytesRead <= 0 && recv.highestReceived <= 0 && !epochStarted
      ensures if ok then bytesSent == sendWindow == lastBlockedAt == 0
              else bytesSent == old(bytesSent) && sendWindow == old(sendWindow) && lastBlockedAt == old(lastBlockedAt)
    {
      if recv.bytesRead > 0 || recv.highestReceived > 0 || epochStarted {
        return false;
      }
      bytesSent, lastBlockedAt, sendWindow := 0, 0, 0;
      ok := true;
    }
  }

  class StreamFlowController {
    var recv: ReceiveWindow
    var bytesSent: int
    var sendWindow: int
    var lastBlockedAt: int
    var receivedFinalOffset: bool
    const connection: ConnectionFlowController

    constructor (connection: ConnectionFlowController, receiveWindow: int, maxReceiveWindow: int,
                 initialSendWindow: int)
      ensures this.connection == connection && recv == NewWindow(receiveWindow, maxReceiveWindow)
      ensures bytesSent == 0 && sendWindow == initialSendWindow && lastBlockedAt == 0 && !receivedFinalOffset
    {
      this.connection := connection;
      recv := NewWindow(receiveWindow, maxReceiveWindow);
      bytesSent, sendWindow, lastBlockedAt, receivedFinalOffset := 0, initialSendWindow, 0, false;
    }

    /** A frame up to `offset`, or the end of the stream there, contradicts the final offset or the data. */
    predicate WrongFinalSize(offset: int, final: bool)
      reads this`recv, this`receivedFinalOffset
    {
      || (receivedFinalOffset && (offset > recv.highestReceived || (final && offset != recv.highestReceived)))
      || (final && offset < recv.highestReceived)
    }

    /** New data up to `offset` is beyond what the stream or the connection may receive. */
    predicate ExceedsWindow(offset: int)
      reads this`recv, connection`recv
    {
      offset > recv.highestReceived &&
      (offset > recv.receiveWindow
       || connection.recv.highestReceived + offset - recv.highestReceived > connection.recv.receiveWindow)
    }

    /**
     A frame up to `offset` arrived; `final` says that the stream ends there.  Without an error,
     the stream and the connection advance by the same amount, and a final offset, once known,
     never changes and is never exceeded.
     */
    method UpdateHighestReceived(offset: int, final: bool) returns (err: FlowError)
      modifies this`recv, this`receivedFinalOffset, connection`recv
      ensures err.NoError? ==> recv == AdvanceTo(old(recv), offset)
      ensures err.NoError? ==>
        connection.recv == AdvanceTo(old(connection.recv),
                                     old(connection.recv).highestReceived + Max(0, offset - old(recv).highestReceived))
      ensures err.NoError? ==> receivedFinalOffset == (old(receivedFinalOffset) || final)
      ensures err.NoError? && final ==> recv.highestReceived == offset
      ensures err.NoError? && old(receivedFinalOffset) ==> recv.highestReceived == old(recv).highestReceived
      ensures err.NoError? && recv.highestReceived > old(recv).highestReceived ==>
        recv.highestReceived <= recv.receiveWindow && connection.recv.highestReceived <= connection.recv.receiveWindow
      // exactly when there is an error
      ensures err == FinalSizeError <==> old(WrongFinalSize(offset, final))
      ensures err == FlowControlError <==> old(!WrongFinalSize(offset, final) && ExceedsWindow(offset))
    {
      if receivedFinalOffset {
        if final && offset != recv.highestReceived {
          return FinalSizeError;
        }
        if offset > recv.highestReceived {
          return FinalSizeError;
        }
      }
      if final {
        receivedFinalOffset := true;
      }
      if offset == recv.highestReceived {
        return NoError;
      }
      if offset < recv.highestReceived {
        if final {
          return FinalSizeError;
        }
        return NoError;
      }
      if recv.highestReceived == 0 {
        recv := recv.(epochStartOffset := recv.bytesRead);
      }
      var increment := offset - recv.highestReceived;
      recv := recv.(highestReceived := offset);
      if recv.highestReceived > recv.receiveWindow {
        return FlowControlError;
      }
      err := connection.IncrementHighestReceived(increment);
    }

    method AddBytesRead(n: int, threshold: real) returns (hasStreamUpdate: bool, hasConnUpdate: bool)
      modifies this`recv, connection`recv
      ensures recv == old(recv).(bytesRead := old(recv).bytesRead + n)
      ensures connection.recv == old(connection.recv).(bytesRead := old(connection.recv).bytesRead + n)
      // an update is due, on either level, once enough of the window was read
      ensures hasStreamUpdate <==> !receivedFinalOffset && Due(recv, threshold)
      ensures hasConnUpdate <==> Due(connection.recv, threshold)
    {
      recv := recv.(bytesRead := recv.bytesRead + n);
      UpdateIffDue(recv, threshold);
      hasStreamUpdate := !receivedFinalOffset && HasWindowUpdate(recv, threshold);
      hasConnUpdate := connection.AddBytesRead(n, threshold);
    }

    /** Counts everything received as read, on both levels.  A second call changes nothing. */
    method Abandon(threshold: real)
      modifies this`recv, connection`recv
      ensures recv == old(recv).(bytesRead := old(recv).highestReceived)
      ensures connection.recv == old(connection.recv).(bytesRead :=
        old(connection.recv).bytesRead + Max(0, old(recv).highestReceived - old(recv).bytesRead))
    {
      var unread := recv.highestReceived - recv.bytesRead;
      recv := recv.(bytesRead := recv.highestReceived);
      if unread > 0 {
        var _ := connection.AddBytesRead(unread, threshold);
      }
    }

    method UpdateSendWindow(offset: int) returns (updated: bool)
      modifies this`sendWindow
      ensures sendWindow == Max(offset, old(sendWindow)) && (updated <==> offset > old(sendWindow))
    {
      updated := offset > sendWindow;
      if updated {
        sendWindow := offset;
      }
    }

    /** All or nothing: credit is taken on both levels or on neither. */
    method TryAddBytesSent(n: int) returns (ok: bool)
      modifies this`bytesSent, connection`bytesSent
      ensures ok <==>
        && old(bytesSent) <= sendWindow && n <= sendWindow - old(bytesSent)
        && old(connection.bytesSent) <= connection.sendWindow && n <= connection.sendWindow - old(connection.bytesSent)
      ensures bytesSent == if ok then old(bytesSent) + n else old(bytesSent)
      ensures connection.bytesSent == if ok then old(connection.bytesSent) + n else old(connection.bytesSent)
    {
      if bytesSent > sendWindow || n > sendWindow - bytesSent {
        return false;
      }
      ok := connection.TryAddBytesSent(n);
      if ok {
        bytesSent := bytesSent + n;
      }
    }

    method AddBytesSentWithLimiter(n: int, limiter: int -> int) returns (added: int, limited: bool)
      requires 0 <= n
      modifies this`bytesSent, connection`bytesSent
      ensures 0 <= added <= n
      ensures bytesSent == old(bytesSent) + added && connection.bytesSent == old(connection.bytesSent) + added
      ensures old(bytesSent) <= sendWindow ==> bytesSent <= sendWindow
      ensures old(connection.bytesSent) <= connection.sendWindow ==> connection.bytesSent <= connection.sendWindow
      ensures old(bytesSent) < sendWindow && old(connection.bytesSent) < connection.sendWindow ==>
        var allowed := Min(Min(n, sendWindow - old(bytesSent)), connection.sendWindow - old(connection.bytesSent));
        added == Min(Max(limiter(allowed), 0), allowed) && (limited <==> added < allowed)
      ensures old(bytesSent) >= sendWindow || old(connection.bytesSent) >= connection.sendWindow ==>
        added == 0 && !limited
    {
      if bytesSent >= sendWindow {
        return 0, false;
      }
      var m := Min(n, sendWindow - bytesSent);
      added, limited := connection.AddBytesSentWithLimiter(m, limiter);
      bytesSent := bytesSent + added;
    }

    function SendWindowSize(): int
      reads this, connection
    {
      Min(sendWindow - bytesSent, connection.SendWindowSize())
    }

    predicate NewlyBlocked()
      reads this`bytesSent, this`sendWindow, this`lastBlockedAt
    {
      bytesSent >= sendWindow && sendWindow != lastBlockedAt
    }

    method IsNewlyBlocked() returns (blocked: bool, offset: int)
      modifies this`lastBlockedAt
      ensures (blocked <==> old(NewlyBlocked())) && !NewlyBlocked()
      ensures blocked ==> offset == sendWindow == lastBlockedAt
      ensures !blocked ==> lastBlockedAt == old(lastBlockedAt)
    {
      if bytesSent < sendWindow || sendWindow == lastBlockedAt {
        return false, 0;
      }
      lastBlockedAt := sendWindow;
      return true, sendWindow;
    }

    /** No update after the final offset; a grown stream window also grows the connection's. */
    method GetUpdate(threshold: real, t: Tuning, connAllow: bool) returns (offset: int)
      modifies this`recv, connection`recv
      ensures receivedFinalOffset ==> offset == 0 && recv == old(recv) && connection.recv == old(connection.recv)
      ensures !receivedFinalOffset ==> (recv, offset) == GetWindowUpdate(old(recv), threshold, t)
      ensures !receivedFinalOffset ==>
        connection.recv == if recv.receiveWindowSize > old(recv).receiveWindowSize
                           then EnsureMinimumSize(old(connection.recv),
                                                  (recv.receiveWindowSize as real * 1.5).Floor, connAllow)
                           else old(connection.recv)
    {
      if receivedFinalOffset {
        return 0;
      }
      var r := GetWindowUpdate(recv, threshold, t);
      var oldWindowSize := recv.receiveWindowSize;
      recv := r.0;
      offset := r.1;
      if recv.receiveWindowSize > oldWindowSize {
        connection.EnsureMinimumWindowSize((recv.receiveWindowSize as real * 1.5).Floor, connAllow);
      }
    }
  }
}
