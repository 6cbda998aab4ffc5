/**
 Whole runs of a receiving stream: any interleaving of STREAM and RESET_STREAM frames, reads,
 peeks, cancellation and shutdown, up to the first frame that is refused.
 */
module ReceiveRuns {
  import opened Protocol
  import opened GapTree
  import opened FrameSorting
  import opened FlowControl
  import opened ReceiveStreams

  datatype Step =
    | Frame(offset: nat, len: nat, fin: bool, doneCb: Option<Callback>)
    | Reset(finalSize: int, reliableSize: int)
    | Read(len: nat, deadline: Option<nat>)
    | Peek(len: nat, expired: bool)
    | Wake(deadline: Option<nat>)
    | Cancel
    | Shut

  /** What happened; `Idle` if nothing, as while a read or peek waits no other one starts. */
  datatype Kind =
    | Arrival(offset: nat, len: nat, fin: bool)
    | Resetting(finalSize: int, reliableSize: int)
    | Reads(len: nat)
    | Peeks(len: nat)
    | Cancelling
    | Shutting
    | Idle

  datatype Event = Event(kind: Kind, data: seq<byte>, outcome: Outcome)

  // ---------------------------------------------------------------- what an observer knows

  /**
   A summary of the events so far, kept without looking at the stream.  `finLate` says that everything
   that was left to read had arrived before a frame said where the stream ends.
   */
  datatype Tally = Tally(
    received: seq<byte>, waiting: Option<Kind>, arrived: seq<(nat, nat)>, final: int, finalKnown: bool, finLate: bool,
    highest: int, reset: bool, reliable: int, cancelled: bool, shut: bool)

  const NOTHING_YET := Tally([], None, [], MAX_BYTE_COUNT, false, false, 0, false, 0, false, false)

  ghost function Next(t: Tally, e: Event): Tally {
    match e.kind
    case Arrival(offset, len, fin) =>
      if t.shut then t
      else t.(final := if fin then offset + len else t.final, finalKnown := t.finalKnown || fin,
              finLate := if fin && !t.finalKnown then !AwaitsByte(t, |t.received|, offset + len) else t.finLate,
              highest := Max(t.highest, offset + len),
              arrived := if t.cancelled then t.arrived else t.arrived + [(offset, len)])
    case Resetting(finalSize, reliableSize) =>
      if t.shut then t
      else t.(final := finalSize, finalKnown := true, highest := Max(t.highest, finalSize),
              reset := t.reset || !t.cancelled,
              reliable := if t.reset then Min(t.reliable, reliableSize) else reliableSize)
    case Reads(_) =>
      t.(received := t.received + e.data, waiting := if e.outcome == Blocked then Some(e.kind) else None)
    case Peeks(_) => t.(waiting := if e.outcome == Blocked then Some(e.kind) else None)
    case Cancelling => t.(cancelled := t.cancelled || !t.shut)
    case Shutting => t.(shut := true)
    case Idle => t
  }

  ghost function After(log: seq<Event>): Tally {
    if log == [] then NOTHING_YET else Next(After(log[..|log| - 1]), log[|log| - 1])
  }

  lemma AfterAppend(log: seq<Event>, e: Event)
    ensures After(log + [e]) == Next(After(log), e)
  {
    assert (log + [e])[..|log|] == log;
  }

  predicate IsOpen(t: Tally) { !t.shut && !t.cancelled }

  /** A reset has ended the stream for a reader at `pos`: everything below the smallest reliable size was read. */
  predicate ResetAt(t: Tally, pos: int) { t.reset && pos >= t.reliable }

  /** Where waiting ends at the latest: what lies beyond the reliable size of a reset need not come. */
  function Awaited(t: Tally): int { if t.reset then Min(t.reliable, t.final) else t.final }

  /** A frame held the byte at `x`. */
  ghost predicate Arrived(t: Tally, x: int) {
    exists i :: 0 <= i < |t.arrived| && t.arrived[i].0 <= x < t.arrived[i].0 + t.arrived[i].1
  }

  /** Data up to `end`, or the end of the stream there, contradicts what is known. */
  predicate Contradicts(t: Tally, end: int, fin: bool) {
    (t.finalKnown && (end > t.highest || (fin && end != t.highest))) || (fin && end < t.highest)
  }

  /** New data up to `end` is beyond the window. */
  predicate Exceeds(t: Tally, end: int, window: int) {
    end > t.highest && end > window
  }

  // ---------------------------------------------------------------- what the events may be

  /** The bytes that follow what was received, all of which arrived; none once reading was ended. */
  ghost predicate Following(t: Tally, data: seq<byte>, stream: seq<byte>) {
    var pos := |t.received|;
    && pos + |data| <= |stream| && data == stream[pos..pos + |data|] && !AwaitsByte(t, pos, pos + |data|)
    && (data != [] ==> IsOpen(t) && !ResetAt(t, pos))
  }

  /** Reading is open, and everything from here to the end of the stream has arrived. */
  ghost predicate AllHere(t: Tally) {
    IsOpen(t) && !t.reset && !AwaitsByte(t, |t.received|, t.final)
  }

  /** Then a read returns it, and the end with it unless that became known too late. */
  ghost predicate ReadsToEnd(t: Tally, e: Event, len: nat) {
    var rest := t.final - |t.received|;
    && |e.data| == Min(len, rest) && (e.outcome == Ok || e.outcome == Eof)
    && (0 < len && rest <= len && (rest == 0 || !t.finLate) ==> e.outcome == Eof)
  }

  /** A read returns the next bytes, and ends for its reason. */
  ghost predicate ReadOk(t: Tally, e: Event, len: nat, stream: seq<byte>) {
    var end := |t.received| + |e.data|;
    && Following(t, e.data, stream) && |e.data| <= len
    && (AllHere(t) && e.outcome != Deadline ==> ReadsToEnd(t, e, len))
    && match e.outcome
       case Ok =>
         if |e.data| == len then !ResetAt(t, end) else e.data != [] && (end == MAX_BYTE_COUNT || !Arrived(t, end))
       case Eof => end == t.final
       case Cancelled => t.cancelled || ResetAt(t, end)
       case Shutdown => t.shut
       case Deadline => true
       case Blocked =>
         IsOpen(t) && !ResetAt(t, end) && end < Awaited(t) && e.data == [] && len > 0 && !Arrived(t, end)
  }

  /** A peek returns the bytes the next reads return, and ends for its reason. */
  ghost predicate PeekOk(t: Tally, e: Event, len: nat, stream: seq<byte>) {
    var end := |t.received| + |e.data|;
    && Following(t, e.data, stream) && |e.data| <= len
    && match e.outcome
       case Ok => |e.data| == len
       case Eof => end == t.final
       case Cancelled => if e.data == [] then t.cancelled || ResetAt(t, end) else t.reset && end == t.reliable
       case Shutdown => t.shut && e.data == []
       case Deadline => e.data == []
       case Blocked => IsOpen(t) && !ResetAt(t, end) && e.data == [] && AwaitsByte(t, end, Min(end + len, Awaited(t)))
  }

  /** Some byte of [a, b) has not arrived. */
  ghost predicate AwaitsByte(t: Tally, a: int, b: int) {
    exists x :: a <= x < b && !Arrived(t, x)
  }

  ghost predicate EventOk(t: Tally, e: Event, stream: seq<byte>, window: int) {
    match e.kind
    case Arrival(offset, len, fin) =>
      !t.shut ==> !Contradicts(t, offset + len, fin) && !Exceeds(t, offset + len, window)
    case Resetting(finalSize, _) => !t.shut ==> !Contradicts(t, finalSize, true) && !Exceeds(t, finalSize, window)
    case Reads(len) => ReadOk(t, e, len, stream)
    case Peeks(len) => PeekOk(t, e, len, stream)
    case _ => true
  }

  /** The event is what the step asks for. */
  predicate Answers(step: Step, t: Tally, e: Event) {
    match step
    case Frame(offset, len, fin, _) => e.kind == Arrival(offset, len, fin)
    case Reset(finalSize, reliableSize) => e.kind == Resetting(finalSize, reliableSize)
    case Read(len, deadline) =>
      if t.waiting.Some? then e.kind == Idle
      else e.kind == Reads(len) && (e.outcome == Deadline ==> deadline.Some? && deadline.value <= |e.data|)
    case Peek(len, expired) =>
      if t.waiting.Some? then e.kind == Idle else e.kind == Peeks(len) && (e.outcome == Deadline ==> expired)
    case Wake(deadline) =>
      if t.waiting.None? then e.kind == Idle
      else e.kind == t.waiting.value && (e.outcome == Deadline ==> deadline.Some? && deadline.value <= |e.data|)
    case Cancel => e.kind == Cancelling
    case Shut => e.kind == Shutting
  }

  /** Every step so far came to what it may come to. */
  ghost predicate Follows(steps: seq<Step>, log: seq<Event>, stream: seq<byte>, window: int) {
    && |log| <= |steps|
    && forall i :: 0 <= i < |log| ==>
         var t := After(log[..i]);
         Answers(steps[i], t, log[i]) && EventOk(t, log[i], stream, window)
  }

  /** Why a step was refused. */
  ghost predicate RefusedFor(step: Step, t: Tally, v: Verdict, window: int) {
    && (step.Frame? || step.Reset?) && !t.shut
    && var end := if step.Frame? then step.offset + step.len else step.finalSize;
    var fin := step.Reset? || step.fin;
    match v
    case WrongFinalSize => Contradicts(t, end, fin)
    case WindowExceeded => !Contradicts(t, end, fin) && Exceeds(t, end, window)
    case GapsExceeded => step.Frame? && |t.arrived| + 1 >= MAX_STREAM_FRAME_SORTER_GAPS
    case Accepted => false
  }

  lemma FollowsOn(steps: seq<Step>, log: seq<Event>, e: Event, stream: seq<byte>, window: int)
    requires Follows(steps, log, stream, window) && |log| < |steps|
    requires Answers(steps[|log|], After(log), e) && EventOk(After(log), e, stream, window)
    ensures Follows(steps, log + [e], stream, window)
  {
    hide Answers, EventOk, After;
    forall i | 0 <= i < |log + [e]|
      ensures var t := After((log + [e])[..i]);
              Answers(steps[i], t, (log + [e])[i]) && EventOk(t, (log + [e])[i], stream, window)
    {
      assert (log + [e])[..i] == if i < |log| then log[..i] else log;
    }
  }

  // ---------------------------------------------------------------- what follows for a whole log

  lemma StepOk(steps: seq<Step>, log: seq<Event>, stream: seq<byte>, window: int, k: nat)
    requires Follows(steps, log, stream, window) && k < |log|
    ensures EventOk(After(log[..k]), log[k], stream, window) && After(log[..k + 1]) == Next(After(log[..k]), log[k])
  {
    hide Answers, EventOk, Next;
    assert log[..k + 1][..k] == log[..k];
  }

  /** The reads of a log return a prefix of the stream, which only grows. */
  lemma {:induction false} ReceivedPrefix(steps: seq<Step>, log: seq<Event>, stream: seq<byte>, window: int, i: nat,
                                          k: nat)
    requires Follows(steps, log, stream, window) && i <= k <= |log|
    ensures After(log[..i]).received <= After(log[..k]).received <= stream
    decreases k
  {
    hide Follows, EventOk, Next;
    if k == 0 {
      assert log[..0] == [];
    } else {
      StepOk(steps, log, stream, window, k - 1);
      ReceivedPrefix(steps, log, stream, window, if i < k then i else k - 1, k - 1);
      OneMoreReceived(After(log[..k - 1]), log[k - 1], stream, window);
    }
  }

  lemma OneMoreReceived(t: Tally, e: Event, stream: seq<byte>, window: int)
    requires EventOk(t, e, stream, window) && t.received <= stream
    ensures t.received <= Next(t, e).received <= stream
  {
  }

  /** What a peek returned is what the reads return there. */
  lemma PeekForetellsReads(steps: seq<Step>, log: seq<Event>, stream: seq<byte>, window: int, i: nat)
    requires Follows(steps, log, stream, window) && i < |log| && log[i].kind.Peeks?
    ensures var pos, data, received := |After(log[..i]).received|, log[i].data, After(log).received;
            pos + |data| <= |received| ==> data == received[pos..pos + |data|]
  {
    hide After;
    ReceivedPrefix(steps, log, stream, window, i, |log|);
    assert log[..|log|] == log;
    StepOk(steps, log, stream, window, i);
  }

  /** A final offset, once known, is the highest offset there is. */
  ghost predicate FinalIsHighest(t: Tally) {
    if t.finalKnown then t.final == t.highest else t.final == MAX_BYTE_COUNT
  }

  lemma NextFinal(t: Tally, e: Event, stream: seq<byte>, window: int)
    requires EventOk(t, e, stream, window) && FinalIsHighest(t)
    ensures FinalIsHighest(Next(t, e)) && (t.finalKnown ==> Next(t, e).finalKnown && Next(t, e).final == t.final)
  {
  }

  /** The final offset never changes once it is known. */
  lemma {:induction false} FinalNeverChanges(steps: seq<Step>, log: seq<Event>, stream: seq<byte>, window: int, i: nat,
                                             k: nat)
    requires Follows(steps, log, stream, window) && i <= k <= |log|
    ensures var t, u := After(log[..i]), After(log[..k]);
            FinalIsHighest(u) && (t.finalKnown ==> u.finalKnown && u.final == t.final)
    decreases k
  {
    hide Follows, EventOk, Next, FinalIsHighest;
    if k == 0 {
      assert log[..0] == [];
      NothingKnown();
    } else {
      StepOk(steps, log, stream, window, k - 1);
      FinalNeverChanges(steps, log, stream, window, if i < k then i else k - 1, k - 1);
      NextFinal(After(log[..k - 1]), log[k - 1], stream, window);
    }
  }

  lemma NothingKnown()
    ensures FinalIsHighest(NOTHING_YET)
  {
  }

  /** Everything received has arrived. */
  ghost predicate AllArrived(t: Tally) { !AwaitsByte(t, 0, |t.received|) }

  lemma ArrivedStays(t: Tally, u: Tally, x: int)
    requires t.arrived <= u.arrived && Arrived(t, x)
    ensures Arrived(u, x)
  {
    var i :| 0 <= i < |t.arrived| && t.arrived[i].0 <= x < t.arrived[i].0 + t.arrived[i].1;
    assert u.arrived[i] == t.arrived[i];
  }

  lemma NextReceived(t: Tally, e: Event, stream: seq<byte>, window: int)
    requires EventOk(t, e, stream, window)
    ensures t.arrived <= Next(t, e).arrived
    ensures !AwaitsByte(t, |t.received|, |Next(t, e).received|)
  {
    hide Arrived;
  }

  lemma NextArrived(t: Tally, e: Event, stream: seq<byte>, window: int)
    requires EventOk(t, e, stream, window) && AllArrived(t)
    ensures AllArrived(Next(t, e))
  {
    hide EventOk, Next, Arrived;
    var u := Next(t, e);
    NextReceived(t, e, stream, window);
    forall x | 0 <= x < |u.received|
      ensures Arrived(u, x)
    {
      ArrivedStays(t, u, x);
    }
  }

  /** No read returns a byte that no frame brought. */
  lemma {:induction false} ReceivedArrived(steps: seq<Step>, log: seq<Event>, stream: seq<byte>, window: int, k: nat)
    requires Follows(steps, log, stream, window) && k <= |log|
    ensures AllArrived(After(log[..k]))
  {
    hide Follows, EventOk, Next;
    if k == 0 {
      assert log[..0] == [];
    } else {
      StepOk(steps, log, stream, window, k - 1);
      ReceivedArrived(steps, log, stream, window, k - 1);
      NextArrived(After(log[..k - 1]), log[k - 1], stream, window);
    }
  }

  /** A reset with this reliable size counts. */
  predicate Counts(t: Tally, size: int) { if t.reset then t.reliable <= size else t.cancelled }

  /** No reset so far has a smaller reliable size. */
  ghost predicate Smallest(log: seq<Event>, t: Tally) {
    forall i :: 0 <= i < |log| && log[i].kind.Resetting? && !After(log[..i]).shut ==>
      Counts(t, log[i].kind.reliableSize)
  }

  lemma NextCounts(t: Tally, e: Event, size: int)
    ensures Counts(t, size) ==> Counts(Next(t, e), size)
    ensures e.kind.Resetting? && !t.shut ==> Counts(Next(t, e), e.kind.reliableSize)
  {
  }

  lemma {:induction false} ReliableIsSmallest(log: seq<Event>)
    ensures Smallest(log, After(log))
  {
    hide Next, Counts;
    if log != [] {
      var n := |log| - 1;
      ReliableIsSmallest(log[..n]);
      forall i | 0 <= i < |log| && log[i].kind.Resetting? && !After(log[..i]).shut
        ensures Counts(After(log), log[i].kind.reliableSize)
      {
        NextCounts(After(log[..n]), log[n], log[i].kind.reliableSize);
        if i < n {
          assert log[..n][i] == log[i] && log[..n][..i] == log[..i];
        }
      }
    }
  }

  /** A read fails for a reset only once everything below the reliable size of every reset was received. */
  lemma ResetKeepsReliable(steps: seq<Step>, log: seq<Event>, stream: seq<byte>, window: int, k: nat)
    requires Follows(steps, log, stream, window) && k < |log| && log[k].kind.Reads? && log[k].outcome == Cancelled
    requires !After(log[..k]).cancelled
    ensures var t, u := After(log[..k]), After(log[..k + 1]);
            t.reset && Smallest(log[..k], t) && t.reliable <= |u.received| && u.received <= stream
  {
    hide Smallest, After;
    StepOk(steps, log, stream, window, k);
    ReliableIsSmallest(log[..k]);
    ReceivedPrefix(steps, log, stream, window, k, k + 1);
  }

  // ---------------------------------------------------------------- the stream of a run

  /** What has not arrived is missing, and nothing else is. */
  ghost predicate SameMissing(t: Tally, gs: set<ByteInterval>) {
    forall x :: Missing(gs, x) <==> 0 <= x < MAX_BYTE_COUNT && !Arrived(t, x)
  }

  lemma OneMoreArrived(t: Tally, u: Tally, offset: nat, len: nat, gs: set<ByteInterval>, gs': set<ByteInterval>)
    requires SameMissing(t, gs) && u.arrived == t.arrived + [(offset, len)]
    requires forall x :: Missing(gs', x) <==> Missing(gs, x) && !(offset <= x < offset + len)
    ensures SameMissing(u, gs')
  {
    forall x
      ensures Arrived(u, x) <==> Arrived(t, x) || offset <= x < offset + len
    {
      ArrivedOrNew(t, u, offset, len, x);
    }
  }

  lemma ArrivedOrNew(t: Tally, u: Tally, offset: nat, len: nat, x: int)
    requires u.arrived == t.arrived + [(offset, len)]
    ensures Arrived(u, x) <==> Arrived(t, x) || offset <= x < offset + len
  {
    var n := |t.arrived|;
    assert u.arrived[n] == (offset, len) && forall i :: 0 <= i < n ==> u.arrived[i] == t.arrived[i];
    if Arrived(u, x) {
      var i :| 0 <= i < |u.arrived| && u.arrived[i].0 <= x < u.arrived[i].0 + u.arrived[i].1;
      assert i < n ==> Arrived(t, x);
    }
  }

  /** A read or peek that waits may go on. */
  ghost predicate Waits(s: ReceiveStream, waiting: Option<Kind>)
    reads s`currentFrame, s`currentFrameIsLast
  {
    match waiting
    case None => true
    case Some(Reads(len)) => len > 0 && !s.AtEof() && s.currentFrame.None?
    case Some(Peeks(_)) => !s.AtEof()
    case _ => false
  }

  /** The fields of the stream that reading leaves alone are what the events say. */
  ghost predicate Agree(s: ReceiveStream, t: Tally)
    reads s`finalOffset, s`cancelledRemotely, s`reliableSize, s`cancelledLocally, s`shutdown
  {
    && (if t.reset then s.reliableSize == t.reliable else !t.cancelled ==> s.reliableSize == 0)
    && s.finalOffset == t.final && s.cancelledRemotely == t.reset
    && s.cancelledLocally == t.cancelled && s.shutdown == t.shut
  }

  /** Flow control counts what the events say, against two windows of which `window` is the smaller. */
  ghost predicate FlowAgrees(fc: StreamFlowController, t: Tally, window: int)
    reads fc, fc.connection
  {
    && fc.receivedFinalOffset == t.finalKnown
    && fc.recv.highestReceived == fc.connection.recv.highestReceived == t.highest
    && Min(fc.recv.receiveWindow, fc.connection.recv.receiveWindow) == window
  }

  ghost predicate GapsAgree(t: Tally, gs: set<ByteInterval>) {
    IsOpen(t) ==> SameMissing(t, gs) && |gs| <= 1 + |t.arrived|
  }

  /** The end of the stream goes unnoticed only if it became known late. */
  ghost predicate EndAgrees(s: ReceiveStream, t: Tally)
    reads s, s.frameQueue
  {
    IsOpen(t) && !t.reset && s.EndUnnoticed() ==> t.finLate
  }

  ghost predicate RunOk(s: ReceiveStream, t: Tally, window: int)
    reads s, s.frameQueue, s.frameQueue.gapTree, s.flowController, s.flowController.connection
  {
    && s.Valid() && s.readPos == |t.received| && t.received <= s.stream && Agree(s, t) && Waits(s, t.waiting)
    && FlowAgrees(s.flowController, t, window) && GapsAgree(t, s.frameQueue.gapTree.values) && EndAgrees(s, t)
  }

  /** What is known before a frame comes in: its end, what was popped, and how many gaps there are. */
  lemma FrameBefore(s: ReceiveStream, t: Tally, window: int)
    requires RunOk(s, t, window)
    ensures IsOpen(t) && !t.reset && s.EndUnnoticed() ==> t.finLate
    ensures IsOpen(t) ==> !AwaitsByte(t, s.readPos, s.frameQueue.readPos)
    ensures IsOpen(t) ==> |s.frameQueue.gapTree.values| <= 1 + |t.arrived|
  {
    hide ReceiveStream.Valid, SameMissing, AwaitsByte, Waiting;
    s.PoppedIsPresent(s.readPos);
    s.ReadPosWithin();
    if IsOpen(t) {
      Came(t, s.frameQueue.gapTree.values, s.readPos, s.frameQueue.readPos);
    }
  }

  lemma FrameGapsAgree(t: Tally, e: Event, gs: set<ByteInterval>, gs': set<ByteInterval>)
    requires GapsAgree(t, gs) && e.kind.Arrival? && |gs'| <= |gs| + 1
    requires IsOpen(t) ==> forall x ::
               Missing(gs', x) <==> Missing(gs, x) && !(e.kind.offset <= x < e.kind.offset + e.kind.len)
    ensures GapsAgree(Next(t, e), gs')
  {
    hide SameMissing, Missing, AwaitsByte;
    if IsOpen(t) {
      OneMoreArrived(t, Next(t, e), e.kind.offset, e.kind.len, gs, gs');
    }
  }

  /** A frame lets the end go unnoticed only where it makes it known late. */
  lemma FrameEndAgrees(s: ReceiveStream, t: Tally, e: Event, wasUnnoticed: bool)
    requires e.kind.Arrival?
    requires IsOpen(t) ==>
               && s.readPos == |t.received| && s.finalOffset == Next(t, e).final
               && (!t.reset && wasUnnoticed ==> t.finLate)
               && (s.EndUnnoticed() && s.frameQueue.readPos == t.final ==> wasUnnoticed)
               && (t.finalKnown ==> s.finalOffset == t.final)
               && !AwaitsByte(t, s.readPos, s.frameQueue.readPos)
    ensures EndAgrees(s, Next(t, e))
  {
    hide AwaitsByte;
  }

  method TakeFrame(s: ReceiveStream, ghost t: Tally, offset: nat, data: seq<byte>, fin: bool, doneCb: Option<Callback>,
                   ghost window: int)
    returns (v: Verdict, e: Event)
    requires RunOk(s, t, window) && offset + |data| <= |s.stream| && data == s.stream[offset..offset + |data|]
    modifies s, s.frameQueue, s.frameQueue.gapTree, s.flowController, s.flowController.connection
    ensures e.kind == Arrival(offset, |data|, fin)
    ensures v == Accepted ==> EventOk(t, e, s.stream, window) && RunOk(s, Next(t, e), window)
    ensures v != Accepted ==> RefusedFor(Frame(offset, |data|, fin, doneCb), t, v, window)
  {
    hide ReceiveStream.Valid, GapsAgree, Missing, AwaitsByte, Waiting, EndAgrees, Settled;
    ghost var gs, unnoticed := s.frameQueue.gapTree.values, s.EndUnnoticed();
    FrameBefore(s, t, window);
    e := Event(Arrival(offset, |data|, fin), [], Ok);
    v := s.HandleStreamFrame(data, offset, fin, doneCb);
    if v == Accepted {
      FrameEndAgrees(s, t, e, unnoticed);
      forall x | IsOpen(t)
        ensures Missing(s.frameQueue.gapTree.values, x) <==> Missing(gs, x) && !(offset <= x < offset + |data|)
      {
        assert s.Lacks(x) <==> old(s.Lacks(x)) && !(offset <= x < offset + |data|);
      }
      FrameGapsAgree(t, e, gs, s.frameQueue.gapTree.values);
    }
  }

  method TakeReset(s: ReceiveStream, ghost t: Tally, finalSize: int, reliableSize: int, threshold: real,
                   ghost window: int)
    returns (v: Verdict, e: Event)
    requires RunOk(s, t, window) && 0 <= reliableSize <= finalSize <= MAX_BYTE_COUNT
    modifies s, s.frameQueue, s.frameQueue.gapTree, s.flowController, s.flowController.connection
    ensures e.kind == Resetting(finalSize, reliableSize)
    ensures v == Accepted ==> EventOk(t, e, s.stream, window) && RunOk(s, Next(t, e), window)
    ensures v != Accepted ==> RefusedFor(Reset(finalSize, reliableSize), t, v, window)
  {
    hide ReceiveStream.Valid, SameMissing, Missing;
    e := Event(Resetting(finalSize, reliableSize), [], Ok);
    v := s.HandleResetStreamFrame(finalSize, reliableSize, threshold);
    SameArrived(t, Next(t, e), s.frameQueue.gapTree.values);
  }

  lemma SameArrived(t: Tally, u: Tally, gs: set<ByteInterval>)
    requires u.arrived == t.arrived && (IsOpen(u) ==> IsOpen(t)) && GapsAgree(t, gs)
    ensures GapsAgree(u, gs)
  {
    forall x | Arrived(u, x)
      ensures Arrived(t, x)
    {
      var i :| 0 <= i < |u.arrived| && u.arrived[i].0 <= x < u.arrived[i].0 + u.arrived[i].1;
      assert t.arrived[i] == u.arrived[i];
    }
  }

  method TakeCancel(s: ReceiveStream, ghost t: Tally, shut: bool, ghost window: int) returns (e: Event)
    requires RunOk(s, t, window)
    modifies s, s.frameQueue, s.frameQueue.gapTree, s.flowController, s.flowController.connection
    ensures e.kind == (if shut then Shutting else Cancelling) && EventOk(t, e, s.stream, window)
    ensures RunOk(s, Next(t, e), window)
  {
    hide ReceiveStream.Valid, SameMissing, Missing;
    e := Event(if shut then Shutting else Cancelling, [], Ok);
    if shut {
      s.CloseForShutdown();
    } else {
      s.CancelRead();
    }
    SameArrived(t, Next(t, e), s.frameQueue.gapTree.values);
  }

  lemma WrittenPrefix(p: seq<byte>, r: seq<byte>, s: seq<byte>)
    requires |s| <= |p| && r == Written(p, 0, s)
    ensures r[..|s|] == s
  {
  }

  lemma NotArrived(t: Tally, gs: set<ByteInterval>, x: int)
    requires GapsAgree(t, gs) && IsOpen(t) && Missing(gs, x)
    ensures !Arrived(t, x)
  {
  }

  lemma Awaits(t: Tally, gs: set<ByteInterval>, a: int, b: int)
    requires GapsAgree(t, gs) && IsOpen(t) && Waiting(gs, a, b)
    ensures AwaitsByte(t, a, b)
  {
    var x :| a <= x < b && Missing(gs, x);
    NotArrived(t, gs, x);
  }

  lemma NoneAwaited(t: Tally, gs: set<ByteInterval>, a: int, b: int)
    requires GapsAgree(t, gs) && IsOpen(t) && !AwaitsByte(t, a, b)
    ensures !Waiting(gs, a, b)
  {
    if Waiting(gs, a, b) {
      Awaits(t, gs, a, b);
    }
  }

  /** Bytes that are present have arrived. */
  lemma Came(t: Tally, gs: set<ByteInterval>, a: int, b: int)
    requires a < b ==> GapsAgree(t, gs) && IsOpen(t) && 0 <= a && b <= MAX_BYTE_COUNT && !Waiting(gs, a, b)
    ensures !AwaitsByte(t, a, b)
  {
    forall x | a <= x < b
      ensures Arrived(t, x)
    {
      assert !Missing(gs, x);
    }
  }

  lemma MoreReceived(stream: seq<byte>, received: seq<byte>, data: seq<byte>)
    requires received <= stream && |received| + |data| <= |stream|
    requires data == stream[|received|..|received| + |data|]
    ensures received + data <= stream
  {
  }

  /** What a read returned when everything was there. */
  lemma ReadEnds(s: ReceiveStream, t: Tally, p0: seq<byte>, p: seq<byte>, n: int, out: Outcome, deadline: Option<nat>,
                 unnoticed: bool)
    requires s.Valid() && s.ReadResult(p0, p, |t.received|, n, out, deadline, unnoticed)
    requires Agree(s, t) && GapsAgree(t, s.frameQueue.gapTree.values)
    requires IsOpen(t) && !t.reset && unnoticed ==> t.finLate && |t.received| < t.final
    ensures AllHere(t) && out != Deadline ==> ReadsToEnd(t, Event(Reads(|p|), p[..n], out), |p|)
  {
    hide ReceiveStream.Valid, GapsAgree, Missing, Arrived, Waiting, AwaitsByte;
    if AllHere(t) && out != Deadline {
      NoneAwaited(t, s.frameQueue.gapTree.values, |t.received|, t.final);
      s.ReadBounds();
      s.ReadsToEnd(p0, p, |t.received|, n, out, deadline, unnoticed);
    }
  }

  /** What a read returned is as the events allow. */
  lemma ReadEvent(s: ReceiveStream, t: Tally, p0: seq<byte>, p: seq<byte>, n: int, out: Outcome, deadline: Option<nat>,
                  unnoticed: bool)
    requires s.Valid() && s.ReadResult(p0, p, |t.received|, n, out, deadline, unnoticed)
    requires t.received <= s.stream && Agree(s, t) && GapsAgree(t, s.frameQueue.gapTree.values)
    requires IsOpen(t) && !t.reset && unnoticed ==> t.finLate && |t.received| < t.final
    ensures 0 <= n <= |p| && s.readPos == |t.received| + n
    ensures out == Deadline ==> deadline.Some? && deadline.value <= n
    ensures var e := Event(Reads(|p|), p[..n], out);
            && ReadOk(t, e, |p|, s.stream) && |e.data| == n && t.received + e.data <= s.stream
            && Waits(s, Next(t, e).waiting) && EndAgrees(s, Next(t, e))
  {
    hide ReceiveStream.Valid, GapsAgree, SameMissing, Missing, Written, Arrived, Waiting, AwaitsByte;
    hide AllHere, ReadsToEnd;
    ReadEnds(s, t, p0, p, n, out, deadline, unnoticed);
    Came(t, s.frameQueue.gapTree.values, |t.received|, s.readPos);
    WrittenPrefix(p0, p, s.stream[|t.received|..s.readPos]);
    MoreReceived(s.stream, t.received, p[..n]);
    if IsOpen(t) && s.Lacks(s.readPos) {
      NotArrived(t, s.frameQueue.gapTree.values, s.readPos);
    }
  }

  /** A read, or the rest of one that waited. */
  method ReadOrGoOn(s: ReceiveStream, p: array<byte>, woken: bool, deadline: Option<nat>, threshold: real)
    returns (n: int, out: Outcome)
    requires s.Valid() && (woken ==> p.Length > 0 && !s.AtEof() && s.currentFrame.None?)
    modifies s`readPosInFrame, s`readPos, s`currentFrame, s`currentFrameDone, s`currentFrameIsLast, s`released,
             s.frameQueue`queue, s.frameQueue`readPos, s.frameQueue`handed,
             s.flowController`recv, s.flowController.connection`recv, p
    ensures s.Valid() && s.LimitsKept(old(s.flowController.recv), old(s.flowController.connection.recv))
    ensures s.ReadResult(old(p[..]), p[..], old(s.readPos), n, out, deadline, old(s.EndUnnoticed()))
  {
    hide ReceiveStream.Valid, ReceiveStream.ReadResult, ReceiveStream.AllHere;
    if woken {
      n, out := s.ReadLoop(p, true, deadline, threshold);
    } else {
      n, out := s.Read(p, deadline, threshold);
    }
  }

  method TakeRead(s: ReceiveStream, ghost t: Tally, len: nat, woken: bool, deadline: Option<nat>, threshold: real,
                  ghost window: int)
    returns (e: Event)
    requires RunOk(s, t, window) && t.waiting == if woken then Some(Reads(len)) else None
    modifies s, s.frameQueue, s.frameQueue.gapTree, s.flowController, s.flowController.connection
    ensures e.kind == Reads(len) && EventOk(t, e, s.stream, window) && RunOk(s, Next(t, e), window)
    ensures e.outcome == Deadline ==> deadline.Some? && deadline.value <= |e.data|
  {
    hide ReceiveStream.Valid, GapsAgree, ReadOk, ReceiveStream.ReadResult;
    var p := new byte[len];
    ghost var p0, unnoticed := p[..], s.EndUnnoticed();
    s.ReadBounds();
    var n, out := ReadOrGoOn(s, p, woken, deadline, threshold);
    ReadEvent(s, t, p0, p[..], n, out, deadline, unnoticed);
    e := Event(Reads(len), p[..][..n], out);
    SameArrived(t, Next(t, e), s.frameQueue.gapTree.values);
  }

  /** What a peek returned is as the events allow. */
  lemma PeekEvent(s: ReceiveStream, t: Tally, b: seq<byte>, n: int, out: Outcome, expired: bool)
    requires s.PeekResult(b, n, out, expired)
    requires s.readPos == |t.received| && Agree(s, t) && GapsAgree(t, s.frameQueue.gapTree.values)
    ensures var e := Event(Peeks(|b|), b[..n], out);
            PeekOk(t, e, |b|, s.stream) && |e.data| == n && Waits(s, Next(t, e).waiting)
  {
    hide GapsAgree, Waiting, AwaitsByte;
    Came(t, s.frameQueue.gapTree.values, s.readPos, s.readPos + n);
    if out == Blocked {
      Awaits(t, s.frameQueue.gapTree.values, s.readPos, Min(s.readPos + |b|, s.PeekLimit()));
    }
  }

  method TakePeek(s: ReceiveStream, ghost t: Tally, len: nat, woken: bool, expired: bool, ghost window: int)
    returns (e: Event)
    requires RunOk(s, t, window) && t.waiting == if woken then Some(Peeks(len)) else None
    modifies s, s.frameQueue, s.frameQueue.gapTree, s.flowController, s.flowController.connection
    ensures e.kind == Peeks(len) && EventOk(t, e, s.stream, window) && RunOk(s, Next(t, e), window)
    ensures e.outcome == Deadline ==> expired && e.data == []
  {
    hide ReceiveStream.Valid, GapsAgree, PeekOk, Waiting;
    var b := new byte[len];
    var n, out;
    if woken {
      n, out := s.PeekAgain(b, expired);
    } else {
      n, out := s.Peek(b, expired);
    }
    e := Event(Peeks(len), b[..][..n], out);
    PeekEvent(s, t, b[..], n, out, expired);
    SameArrived(t, Next(t, e), s.frameQueue.gapTree.values);
  }

  // ---------------------------------------------------------------- runs

  /** Frames carry bytes of the stream, and a reset keeps no more than it sends. */
  predicate WellFormed(step: Step, stream: seq<byte>) {
    match step
    case Frame(offset, len, _, _) => offset + len <= |stream|
    case Reset(finalSize, reliableSize) => 0 <= reliableSize <= finalSize <= MAX_BYTE_COUNT
    case _ => true
  }

  method Take(s: ReceiveStream, stream: seq<byte>, waiting: Option<Kind>, ghost t: Tally, step: Step, threshold: real,
              ghost window: int)
    returns (v: Verdict, e: Event)
    requires RunOk(s, t, window) && s.stream == stream && WellFormed(step, stream) && waiting == t.waiting
    modifies s, s.frameQueue, s.frameQueue.gapTree, s.flowController, s.flowController.connection
    ensures v == Accepted ==> Answers(step, t, e) && EventOk(t, e, stream, window) && RunOk(s, Next(t, e), window)
    ensures v != Accepted ==> RefusedFor(step, t, v, window)
  {
    hide ReceiveStream.Valid, GapsAgree, FlowAgrees, Agree, ReadOk, PeekOk, Contradicts, Exceeds, RefusedFor;
    v, e := Accepted, Event(Idle, [], Ok);
    match step
    case Frame(offset, len, fin, doneCb) =>
      v, e := TakeFrame(s, t, offset, stream[offset..offset + len], fin, doneCb, window);
    case Reset(finalSize, reliableSize) =>
      v, e := TakeReset(s, t, finalSize, reliableSize, threshold, window);
    case Read(len, deadline) =>
      if waiting.None? {
        e := TakeRead(s, t, len, false, deadline, threshold, window);
      }
    case Peek(len, expired) =>
      if waiting.None? {
        e := TakePeek(s, t, len, false, expired, window);
      }
    case Wake(deadline) =>
      match waiting {
        case Some(Reads(len)) => e := TakeRead(s, t, len, true, deadline, threshold, window);
        case Some(Peeks(len)) => e := TakePeek(s, t, len, true, deadline == Some(0), window);
        case _ =>
      }
    case Cancel => e := TakeCancel(s, t, false, window);
    case Shut => e := TakeCancel(s, t, true, window);
  }

  lemma NothingArrived()
    ensures GapsAgree(NOTHING_YET, {ByteInterval(0, MAX_BYTE_COUNT)})
  {
  }

  /** The credit due: for what was read, and for everything once a reset has ended the stream. */
  function CreditDue(t: Tally): int {
    if ResetAt(t, |t.received|) then t.highest else |t.received|
  }

  lemma CreditReturned(s: ReceiveStream, t: Tally, window: int)
    requires RunOk(s, t, window)
    ensures !t.cancelled ==> s.flowController.recv.bytesRead == CreditDue(t)
  {
    hide ReceiveStream.SorterOk, ReceiveStream.FinalOk, ReceiveStream.BuffersOk, ReceiveStream.ReadOk, GapsAgree;
  }

  method Start(ghost stream: seq<byte>, receiveWindow: nat, connectionWindow: nat) returns (s: ReceiveStream)
    requires |stream| <= MAX_BYTE_COUNT
    ensures fresh(s) && fresh(s.frameQueue) && fresh(s.frameQueue.gapTree) && fresh(s.flowController)
    ensures fresh(s.flowController.connection) && s.stream == stream
    ensures RunOk(s, NOTHING_YET, Min(receiveWindow, connectionWindow))
  {
    hide ReceiveStream.Valid, GapsAgree;
    var conn := new ConnectionFlowController(connectionWindow, connectionWindow);
    var fc := new StreamFlowController(conn, receiveWindow, receiveWindow, 0);
    s := new ReceiveStream(stream, fc);
    NothingArrived();
  }

  lemma NextWaiting(t: Tally, e: Event)
    ensures Next(t, e).waiting ==
            if !e.kind.Reads? && !e.kind.Peeks? then t.waiting else if e.outcome == Blocked then Some(e.kind) else None
  {
  }

  /**
   Takes the steps up to the first frame that is refused.  The log says what each of them came to,
   and `credit` what flow control took as read.
   */
  method Run(stream: seq<byte>, receiveWindow: nat, connectionWindow: nat, threshold: real, steps: seq<Step>)
    returns (log: seq<Event>, v: Verdict, credit: int)
    requires |stream| <= MAX_BYTE_COUNT && forall i :: 0 <= i < |steps| ==> WellFormed(steps[i], stream)
    ensures Follows(steps, log, stream, Min(receiveWindow, connectionWindow))
    ensures v == Accepted <==> |log| == |steps|
    ensures v != Accepted ==> RefusedFor(steps[|log|], After(log), v, Min(receiveWindow, connectionWindow))
    ensures v == Accepted && !After(log).cancelled ==> credit == CreditDue(After(log))
  {
    hide Follows, After, Next, Answers, EventOk, RefusedFor, RunOk, WellFormed, CreditDue, ReceiveStream.Valid;
    ghost var window := Min(receiveWindow, connectionWindow);
    var s := Start(stream, receiveWindow, connectionWindow);
    var waiting: Option<Kind> := None;
    log, v := [], Accepted;
    NothingLogged(steps, stream, window);
    while |log| < |steps|
      invariant fresh(s) && fresh(s.frameQueue) && fresh(s.frameQueue.gapTree) && fresh(s.flowController)
      invariant fresh(s.flowController.connection) && s.stream == stream
      invariant v == Accepted && Follows(steps, log, stream, window) && |log| <= |steps|
      invariant RunOk(s, After(log), window) && waiting == After(log).waiting
      decreases |steps| - |log|
    {
      var e;
      v, e := Take(s, stream, waiting, After(log), steps[|log|], threshold, window);
      if v != Accepted {
        return log, v, s.flowController.recv.bytesRead;
      }
      FollowsOn(steps, log, e, stream, window);
      AfterAppend(log, e);
      NextWaiting(After(log), e);
      log := log + [e];
      if e.kind.Reads? || e.kind.Peeks? {
        waiting := if e.outcome == Blocked then Some(e.kind) else None;
      }
    }
    credit := s.flowController.recv.bytesRead;
    CreditReturned(s, After(log), window);
  }

  lemma NothingLogged(steps: seq<Step>, stream: seq<byte>, window: int)
    ensures After([]) == NOTHING_YET && Follows(steps, [], stream, window)
  {
  }
}
