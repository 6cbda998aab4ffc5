/**
 Packing frames into a packet: control frames first, then STREAM frames of the active streams in
 turn.  What the streams hand out is arbitrary: `pop` gives the result of a stream's
 `popStreamFrame` for a budget, in the given round, and `control` of its `getControlFrame`.
 */
module Framing {
  import opened Protocol
  import opened Wire
  import opened FlowControl
  import opened Senders
  import opened SendStreams
  import opened Sums

  const MAX_STREAM_CONTROL_FRAME_SIZE := 25
  const MIN_STREAM_FRAME_SIZE := 128
  const MAX_PATH_RESPONSES := 256
  const MAX_CONTROL_FRAMES := 16384

  datatype ControlFrame =
    | PathResponse(id: nat)
    | Opaque(id: nat, len: nat)
    | StreamDataBlocked(streamID: nat, limit: int)
    | DataBlocked(limit: int)

  function ControlLen(f: ControlFrame): (n: nat) {
    match f
    case PathResponse(_) => 9
    case Opaque(_, len) => len
    case StreamDataBlocked(id, limit) => 1 + VarintLen(id) + VarintLen(limit)
    case DataBlocked(limit) => 1 + VarintLen(limit)
  }

  function ControlLens(): ControlFrame -> int { (f: ControlFrame) => ControlLen(f) }

  function ControlTotal(fs: seq<ControlFrame>): (n: int)
    ensures n >= 0
  {
    SumNonNegative(fs, ControlLens());
    Sum(fs, ControlLens())
  }

  lemma ControlTotalAppend(fs: seq<ControlFrame>, f: ControlFrame)
    ensures ControlTotal(fs + [f]) == ControlTotal(fs) + ControlLen(f)
  {
    SumConcat(fs, [f], ControlLens());
    SumOne(f, ControlLens());
  }

  lemma NoControlFrames()
    ensures ControlTotal([]) == 0
  {
  }

  /** A STREAM frame of a stream. */
  datatype Packed = Packed(streamID: nat, frame: StreamFrame)

  function StreamLens(): Packed -> int { (f: Packed) => Length(f.streamID, f.frame) }

  function StreamTotal(fs: seq<Packed>): int { Sum(fs, StreamLens()) }

  lemma StreamTotalNonNegative(fs: seq<Packed>)
    ensures StreamTotal(fs) >= 0
  {
    SumNonNegative(fs, StreamLens());
  }

  lemma StreamTotalAppend(fs: seq<Packed>, f: Packed)
    ensures StreamTotal(fs + [f]) == StreamTotal(fs) + Length(f.streamID, f.frame)
  {
    SumConcat(fs, [f], StreamLens());
    SumOne(f, StreamLens());
  }

  datatype Control = Control(frame: ControlFrame, ok: bool, hasMore: bool)

  ghost predicate ControlFits(control: (nat, nat) -> Control) {
    forall id: nat, k: nat :: control(id, k).ok ==>
      0 < ControlLen(control(id, k).frame) <= MAX_STREAM_CONTROL_FRAME_SIZE
  }

  /** Another control frame of the stream follows this one. */
  predicate GoesOn(c: Control) { c.ok && c.hasMore }

  /** A stream was asked for control frames, `calls` times. */
  datatype Visit = Visit(id: nat, calls: nat)

  /** The frames that the first `n` calls gave, in order. */
  function Given(id: nat, n: nat, control: (nat, nat) -> Control): seq<ControlFrame> {
    if n == 0 then []
    else Given(id, n - 1, control) + (if control(id, n - 1).ok then [control(id, n - 1).frame] else [])
  }

  function GivenBy(visits: seq<Visit>, control: (nat, nat) -> Control): seq<ControlFrame> {
    if visits == [] then []
    else
      var v := visits[|visits| - 1];
      GivenBy(visits[..|visits| - 1], control) + Given(v.id, v.calls, control)
  }

  /** The stream is asked again exactly as long as more follows, but not once the packet is full. */
  ghost predicate VisitOk(v: Visit, control: (nat, nat) -> Control, full: bool) {
    && (forall j: nat :: j + 1 < v.calls ==> GoesOn(control(v.id, j)))
    && (if full then v.calls > 0 ==> GoesOn(control(v.id, v.calls - 1))
        else v.calls > 0 && !GoesOn(control(v.id, v.calls - 1)))
  }

  /** The stream said, when it was last asked, that it has no more control frames. */
  ghost predicate Emptied(visits: seq<Visit>, control: (nat, nat) -> Control, id: nat) {
    exists i :: 0 <= i < |visits| && visits[i].id == id && visits[i].calls > 0 &&
                !control(id, visits[i].calls - 1).hasMore
  }

  ghost predicate Visited(visits: seq<Visit>, id: nat) {
    exists i :: 0 <= i < |visits| && visits[i].id == id
  }

  /** Every stream of `pending` is visited once, in some order, unless the packet gets `full` on the way. */
  ghost predicate VisitsOk(visits: seq<Visit>, pending: set<nat>, control: (nat, nat) -> Control, full: bool) {
    && (forall i :: 0 <= i < |visits| ==>
          visits[i].id in pending && VisitOk(visits[i], control, full && i == |visits| - 1))
    && (forall i, j :: 0 <= i < j < |visits| ==> visits[i].id != visits[j].id)
    && (!full ==> forall id :: id in pending ==> Visited(visits, id))
  }

  /** Those are left that did not say that they have no more. */
  ghost predicate LeftPending(visits: seq<Visit>, before: set<nat>, after: set<nat>, control: (nat, nat) -> Control) {
    forall id :: id in after <==> id in before && !Emptied(visits, control, id)
  }

  lemma OneMoreVisit(visits: seq<Visit>, v: Visit, control: (nat, nat) -> Control)
    ensures GivenBy(visits + [v], control) == GivenBy(visits, control) + Given(v.id, v.calls, control)
    ensures forall id :: Visited(visits + [v], id) <==> Visited(visits, id) || id == v.id
    ensures forall id :: Emptied(visits + [v], control, id) <==>
              || Emptied(visits, control, id)
              || (id == v.id && v.calls > 0 && !control(id, v.calls - 1).hasMore)
  {
    var all := visits + [v];
    assert all[..|visits|] == visits && all[|visits|] == v;
    assert forall i :: 0 <= i < |visits| ==> all[i] == visits[i];
  }

  /** Visits so far, none of which filled the packet; those in `ids` are still to be visited. */
  ghost predicate Underway(visits: seq<Visit>, pending: set<nat>, ids: set<nat>, control: (nat, nat) -> Control) {
    && (forall i :: 0 <= i < |visits| ==> visits[i].id in pending - ids && VisitOk(visits[i], control, false))
    && (forall i, j :: 0 <= i < j < |visits| ==> visits[i].id != visits[j].id)
    && (forall id :: id in pending - ids ==> Visited(visits, id))
    && ids <= pending
  }

  lemma VisitNext(visits: seq<Visit>, v: Visit, pending: set<nat>, ids: set<nat>, control: (nat, nat) -> Control,
                  full: bool)
    requires Underway(visits, pending, ids, control) && v.id in ids && VisitOk(v, control, full)
    ensures full ==> VisitsOk(visits + [v], pending, control, true)
    ensures !full ==> Underway(visits + [v], pending, ids - {v.id}, control)
  {
    hide VisitOk;
    OneMoreVisit(visits, v, control);
    var all := visits + [v];
    assert forall i :: 0 <= i < |visits| ==> all[i] == visits[i];
    forall i, j | 0 <= i < j < |all|
      ensures all[i].id != all[j].id
    {
      assert all[i].id in pending - ids;
    }
  }

  lemma NothingVisited(ids: set<nat>, control: (nat, nat) -> Control)
    ensures GivenBy([], control) == [] && Underway([], ids, ids, control) && LeftPending([], ids, ids, control)
  {
  }

  lemma AllVisited(visits: seq<Visit>, pending: set<nat>, control: (nat, nat) -> Control)
    requires Underway(visits, pending, {}, control)
    ensures VisitsOk(visits, pending, control, false)
  {
    assert pending - {} == pending;
  }

  ghost predicate StreamsFit(pop: (nat, int, nat) -> Popped) {
    forall id: nat, m: int, k: nat {:trigger pop(id, m, k)} :: m <= LONGEST_PACKET ==> FitsBudget(id, pop(id, m, k), m)
  }

  /** All STREAM frames so far have a length field, and at most the last one is too long, by no more than that field. */
  ghost predicate Packable(fs: seq<Packed>, remaining: int) {
    && (forall i :: 0 <= i < |fs| ==> fs[i].frame.dataLenPresent)
    && (remaining < 0 ==> fs != [] && remaining + VarintLen(|fs[|fs| - 1].frame.data|) >= 0)
  }

  /**
   A frame popped with a budget that is larger by a length field is too long by at most its own
   length field, since at least 128 bytes were left.
   */
  lemma InflatedFits(streamID: nat, f: StreamFrame, remaining: int)
    requires MIN_STREAM_FRAME_SIZE <= remaining <= 16383 && f.dataLenPresent
    requires f.data != [] ==> Length(streamID, f) <= remaining + VarintLen(remaining)
    ensures Length(streamID, f) <= remaining + VarintLen(|f.data|)
  {
  }

  lemma PackOneMore(fs: seq<Packed>, streamID: nat, f: StreamFrame, remaining: int)
    requires Packable(fs, remaining) && MIN_STREAM_FRAME_SIZE <= remaining <= 16383 && f.dataLenPresent
    requires f.data != [] ==> Length(streamID, f) <= remaining + VarintLen(remaining)
    ensures Packable(fs + [Packed(streamID, f)], remaining - Length(streamID, f))
  {
    InflatedFits(streamID, f, remaining);
  }

  /** The turn of a stream: what it handed out, if it was still active. */
  datatype Turn = Turn(id: nat, active: bool, popped: Popped)

  /** The STREAM frames of the turns, in order. */
  function FramesOf(turns: seq<Turn>): seq<Packed> {
    if turns == [] then []
    else
      var t := turns[|turns| - 1];
      FramesOf(turns[..|turns| - 1]) + (if t.popped.frame.Some? then [Packed(t.id, t.popped.frame.value)] else [])
  }

  /** The limits the turns report as blocking, in order. */
  function BlocksOf(turns: seq<Turn>): seq<ControlFrame> {
    if turns == [] then []
    else
      var t := turns[|turns| - 1];
      var blocked := t.popped.blocked;
      BlocksOf(turns[..|turns| - 1]) + (if blocked.Some? then [StreamDataBlocked(t.id, blocked.value)] else [])
  }

  /** The streams that have more to send, in order. */
  function MoreOf(turns: seq<Turn>): seq<nat> {
    if turns == [] then []
    else MoreOf(turns[..|turns| - 1]) + (if turns[|turns| - 1].popped.hasMore then [turns[|turns| - 1].id] else [])
  }

  lemma OneMoreTurn(turns: seq<Turn>, t: Turn)
    ensures FramesOf(turns + [t]) ==
            FramesOf(turns) + (if t.popped.frame.Some? then [Packed(t.id, t.popped.frame.value)] else [])
    ensures BlocksOf(turns + [t]) ==
            BlocksOf(turns) + (if t.popped.blocked.Some? then [StreamDataBlocked(t.id, t.popped.blocked.value)] else [])
    ensures MoreOf(turns + [t]) == MoreOf(turns) + (if t.popped.hasMore then [t.id] else [])
  {
    assert (turns + [t])[..|turns|] == turns;
  }

  /** The room left after the frames of the turns and what they report. */
  function RoomAfter(room: int, turns: seq<Turn>): int {
    room - StreamTotal(FramesOf(turns)) - ControlTotal(BlocksOf(turns))
  }

  lemma RoomAfterOneMore(room: int, turns: seq<Turn>, t: Turn)
    ensures RoomAfter(room, turns + [t]) == RoomAfter(room, turns)
            - (if t.popped.frame.Some? then Length(t.id, t.popped.frame.value) else 0)
            - (if t.popped.blocked.Some? then ControlLen(StreamDataBlocked(t.id, t.popped.blocked.value)) else 0)
  {
    hide StreamTotal, ControlTotal, ControlLen, FramesOf, BlocksOf;
    OneMoreTurn(turns, t);
    if t.popped.frame.Some? {
      StreamTotalAppend(FramesOf(turns), Packed(t.id, t.popped.frame.value));
    }
    if t.popped.blocked.Some? {
      ControlTotalAppend(BlocksOf(turns), StreamDataBlocked(t.id, t.popped.blocked.value));
    }
    assert FramesOf(turns) + [] == FramesOf(turns) && BlocksOf(turns) + [] == BlocksOf(turns);
  }

  /** A stream had its turn and has nothing more. */
  ghost predicate Finished(turns: seq<Turn>, id: nat) {
    exists i :: 0 <= i < |turns| && turns[i].id == id && turns[i].active && !turns[i].popped.hasMore
  }

  lemma FinishedOn(turns: seq<Turn>, t: Turn, id: nat)
    ensures Finished(turns + [t], id) <==> Finished(turns, id) || (t.id == id && t.active && !t.popped.hasMore)
  {
    var all := turns + [t];
    if Finished(turns, id) {
      var i :| 0 <= i < |turns| && turns[i].id == id && turns[i].active && !turns[i].popped.hasMore;
      assert all[i] == turns[i];
    }
    assert all[|turns|] == t;
  }

  /** Turn `t` of stream `id`: if it is active, and has not finished before, it gets all the room that is left. */
  ghost predicate TurnOk(t: Turn, before: seq<Turn>, id: nat, active: set<nat>, pop: (nat, int, nat) -> Popped,
                         room: int)
  {
    var left := RoomAfter(room, before);
    && t.id == id && (t.active <==> id in active && !Finished(before, id))
    && (if t.active then left >= MIN_STREAM_FRAME_SIZE && t.popped == pop(id, left + VarintLen(left), |before|)
        else t.popped == Popped(None, None, false))
  }

  /** The turns are those of the streams at the head of the queue. */
  ghost predicate InTurn(turns: seq<Turn>, queue: seq<nat>, active: set<nat>, pop: (nat, int, nat) -> Popped,
                         room: int)
  {
    |turns| <= |queue| && forall i :: 0 <= i < |turns| ==> TurnOk(turns[i], turns[..i], queue[i], active, pop, room)
  }

  lemma InTurnOn(turns: seq<Turn>, queue: seq<nat>, active: set<nat>, pop: (nat, int, nat) -> Popped, room: int,
                 t: Turn)
    requires InTurn(turns, queue, active, pop, room) && |turns| < |queue|
    requires TurnOk(t, turns, queue[|turns|], active, pop, room)
    ensures InTurn(turns + [t], queue, active, pop, room)
  {
    hide TurnOk;
    var all := turns + [t];
    forall i | 0 <= i < |all|
      ensures TurnOk(all[i], all[..i], queue[i], active, pop, room)
    {
      assert all[..i] == turns[..i];
      assert i == |turns| ==> turns[..i] == turns;
    }
  }

  /** The control frames of a packet: a path response, those of the visits, the queue from the latest on. */
  function Front(path: seq<ControlFrame>, visits: seq<Visit>, control: (nat, nat) -> Control,
                 queue: seq<ControlFrame>, kept: nat): seq<ControlFrame>
    requires kept <= |queue|
  {
    path + GivenBy(visits, control) + Reversed(queue[kept..])
  }

  class Framer {
    var activeStreams: set<nat>
    var streamQueue: seq<nat>
    var streamsWithControlFrames: set<nat>
    var controlFrames: seq<ControlFrame>
    var pathResponses: seq<ControlFrame>
    var queuedTooManyControlFrames: bool
    const connFlowController: ConnectionFlowController

    /** Every active stream has its turn coming. */
    ghost predicate Valid()
      reads this`activeStreams, this`streamQueue, this`pathResponses
    {
      && (forall id :: id in activeStreams ==> id in streamQueue)
      && (forall i :: 0 <= i < |pathResponses| ==> pathResponses[i].PathResponse?)
    }

    constructor (connFlowController: ConnectionFlowController)
      ensures Valid() && this.connFlowController == connFlowController
    {
      this.connFlowController := connFlowController;
      activeStreams, streamQueue, streamsWithControlFrames := {}, [], {};
      controlFrames, pathResponses, queuedTooManyControlFrames := [], [], false;
    }

    method QueueControlFrame(frame: ControlFrame)
      requires Valid()
      modifies this`controlFrames, this`pathResponses, this`queuedTooManyControlFrames
      ensures Valid()
      ensures frame.PathResponse? ==>
        pathResponses == old(pathResponses) + (if |old(pathResponses)| < MAX_PATH_RESPONSES then [frame] else [])
      ensures !frame.PathResponse? ==>
        controlFrames == old(controlFrames) + (if |old(controlFrames)| < MAX_CONTROL_FRAMES then [frame] else [])
      ensures queuedTooManyControlFrames <==>
        old(queuedTooManyControlFrames) || (!frame.PathResponse? && |old(controlFrames)| >= MAX_CONTROL_FRAMES)
    {
      if frame.PathResponse? {
        if |pathResponses| >= MAX_PATH_RESPONSES {
          return;
        }
        pathResponses := pathResponses + [frame];
        return;
      }
      if |controlFrames| >= MAX_CONTROL_FRAMES {
        queuedTooManyControlFrames := true;
        return;
      }
      controlFrames := controlFrames + [frame];
    }

    method AddActiveStream(id: nat)
      requires Valid()
      modifies this`activeStreams, this`streamQueue
      ensures Valid() && activeStreams == old(activeStreams) + {id}
      ensures streamQueue == old(streamQueue) + (if id in old(activeStreams) then [] else [id])
    {
      if id !in activeStreams {
        streamQueue := streamQueue + [id];
        activeStreams := activeStreams + {id};
      }
    }

    method RemoveActiveStream(id: nat)
      requires Valid()
      modifies this`activeStreams
      ensures Valid() && activeStreams == old(activeStreams) - {id}
    {
      activeStreams := activeStreams - {id};
    }

    // ---------------------------------------------------------------- control frames

    /** The control frames of one stream: it is asked until it has no more, or the packet is full. */
    method AppendStreamControl(id: nat, frames: seq<ControlFrame>, length: int, maxLen: int,
                               control: (nat, nat) -> Control)
      returns (frames': seq<ControlFrame>, length': int, full: bool, calls: nat)
      requires ControlFits(control) && length == ControlTotal(frames)
      modifies this`streamsWithControlFrames
      ensures length' == ControlTotal(frames') && (length <= maxLen ==> length' <= maxLen)
      ensures frames' == frames + Given(id, calls, control) && VisitOk(Visit(id, calls), control, full)
      ensures full ==> length' >= maxLen - MAX_STREAM_CONTROL_FRAME_SIZE
      ensures length > maxLen ==> frames' == frames && length' == length
      ensures streamsWithControlFrames ==
        if calls > 0 && !control(id, calls - 1).hasMore then old(streamsWithControlFrames) - {id}
        else old(streamsWithControlFrames)
    {
      hide ControlTotal;
      frames', length', full, calls := frames, length, false, 0;
      while true
        invariant length' == ControlTotal(frames') && (length <= maxLen ==> length' <= maxLen)
        invariant frames' == frames + Given(id, calls, control)
        invariant forall j: nat :: j < calls ==> GoesOn(control(id, j))
        invariant length > maxLen ==> frames' == frames && length' == length
        invariant streamsWithControlFrames == old(streamsWithControlFrames)
        decreases maxLen - length'
      {
        if maxLen - length' <= MAX_STREAM_CONTROL_FRAME_SIZE {
          full := true;
          return;
        }
        var c := control(id, calls);
        calls := calls + 1;
        if !c.hasMore {
          streamsWithControlFrames := streamsWithControlFrames - {id};
        }
        if !c.ok {
          return;
        }
        ControlTotalAppend(frames', c.frame);
        frames', length' := frames' + [c.frame], length' + ControlLen(c.frame);
        if !c.hasMore {
          return;
        }
      }
    }

    /** Queued control frames, the latest first, as long as they fit. */
    method AppendQueued(frames: seq<ControlFrame>, length: int, maxLen: int)
      returns (frames': seq<ControlFrame>, length': int)
      requires length == ControlTotal(frames)
      modifies this`controlFrames
      ensures length' == ControlTotal(frames') && (length <= maxLen ==> length' <= maxLen)
      ensures controlFrames <= old(controlFrames)
      ensures frames' == frames + Reversed(old(controlFrames)[|controlFrames|..])
      ensures controlFrames == [] || length' + ControlLen(controlFrames[|controlFrames| - 1]) > maxLen
      ensures length > maxLen ==> length' == length
      ensures length' >= length
    {
      frames', length' := frames, length;
      while |controlFrames| > 0
        invariant length' == ControlTotal(frames') && (length <= maxLen ==> length' <= maxLen)
        invariant controlFrames <= old(controlFrames) && (length > maxLen ==> length' == length) && length' >= length
        invariant frames' == frames + Reversed(old(controlFrames)[|controlFrames|..])
        decreases |controlFrames|
      {
        var n := |controlFrames| - 1;
        var frame := controlFrames[n];
        if length' + ControlLen(frame) > maxLen {
          break;
        }
        ControlTotalAppend(frames', frame);
        ReversedStep(old(controlFrames), n);
        frames', length' := frames' + [frame], length' + ControlLen(frame);
        controlFrames := controlFrames[..n];
      }
    }

    /** The control frames of the streams, in any order. */
    method AppendStreamControls(frames: seq<ControlFrame>, length: int, maxLen: int, control: (nat, nat) -> Control)
      returns (frames': seq<ControlFrame>, length': int, full: bool, visits: seq<Visit>)
      requires ControlFits(control) && length == ControlTotal(frames)
      modifies this`streamsWithControlFrames
      ensures length' == ControlTotal(frames') && (length <= maxLen ==> length' <= maxLen)
      ensures frames' == frames + GivenBy(visits, control)
      ensures VisitsOk(visits, old(streamsWithControlFrames), control, full)
      ensures LeftPending(visits, old(streamsWithControlFrames), streamsWithControlFrames, control)
      ensures full ==> length' >= maxLen - MAX_STREAM_CONTROL_FRAME_SIZE
      ensures length > maxLen ==> frames' == frames && length' == length
    {
      hide ControlTotal, ControlFits, VisitOk, Given, GivenBy, Emptied, Underway, VisitsOk;
      frames', length', full, visits := frames, length, false, [];
      var ids := streamsWithControlFrames;
      NothingVisited(ids, control);
      while ids != {}
        invariant length' == ControlTotal(frames') && (length <= maxLen ==> length' <= maxLen)
        invariant frames' == frames + GivenBy(visits, control)
        invariant Underway(visits, old(streamsWithControlFrames), ids, control)
        invariant LeftPending(visits, old(streamsWithControlFrames), streamsWithControlFrames, control)
        invariant length > maxLen ==> frames' == frames && length' == length
        decreases ids
      {
        var id :| id in ids;
        var calls;
        frames', length', full, calls := AppendStreamControl(id, frames', length', maxLen, control);
        OneMoreVisit(visits, Visit(id, calls), control);
        VisitNext(visits, Visit(id, calls), old(streamsWithControlFrames), ids, control, full);
        visits := visits + [Visit(id, calls)];
        if full {
          return;
        }
        ids := ids - {id};
      }
      AllVisited(visits, old(streamsWithControlFrames), control);
    }

    /** A PATH_RESPONSE, but not more than one. */
    method AppendPathResponse(maxLen: int) returns (frames: seq<ControlFrame>, length: int)
      requires Valid()
      modifies this`pathResponses
      ensures Valid() && frames + pathResponses == old(pathResponses) && |frames| <= 1
      ensures frames != [] <==> old(pathResponses) != [] && 9 <= maxLen
      ensures length == ControlTotal(frames) && length <= Max(maxLen, 0)
    {
      hide ControlTotal;
      NoControlFrames();
      frames, length := [], 0;
      if |pathResponses| > 0 {
        var frame := pathResponses[0];
        if ControlLen(frame) <= maxLen {
          ControlTotalAppend([], frame);
          frames, length := [] + [frame], ControlLen(frame);
          pathResponses := pathResponses[1..];
        }
      }
    }

    /** At most one PATH_RESPONSE, then the frames of the streams, then what was queued, the latest first. */
    method AppendControlFrames(maxLen: int, control: (nat, nat) -> Control)
      returns (frames: seq<ControlFrame>, length: int, full: bool, visits: seq<Visit>, ghost path: seq<ControlFrame>)
      requires Valid() && ControlFits(control)
      modifies this`pathResponses, this`streamsWithControlFrames, this`controlFrames
      ensures Valid() && length == ControlTotal(frames) && length <= Max(maxLen, 0)
      ensures |path| <= 1 && path + pathResponses == old(pathResponses)
      ensures path != [] <==> old(pathResponses) != [] && 9 <= maxLen
      ensures VisitsOk(visits, old(streamsWithControlFrames), control, full)
      ensures LeftPending(visits, old(streamsWithControlFrames), streamsWithControlFrames, control)
      ensures full ==> length >= maxLen - MAX_STREAM_CONTROL_FRAME_SIZE
      ensures controlFrames <= old(controlFrames)
      ensures frames == path + GivenBy(visits, control) + Reversed(old(controlFrames)[|controlFrames|..])
      ensures controlFrames == [] || length + ControlLen(controlFrames[|controlFrames| - 1]) > maxLen
    {
      hide ControlTotal, ControlFits, VisitsOk, LeftPending, GivenBy;
      frames, length := AppendPathResponse(maxLen);
      path := frames;
      frames, length, full, visits := AppendStreamControls(frames, length, maxLen, control);
      frames, length := AppendQueued(frames, length, maxLen);
    }

    // ---------------------------------------------------------------- STREAM frames

    /** The next stream in the queue has its turn; it goes to the end if it has more to send. */
    method GetNextStreamFrame(maxLen: int, pop: (nat, int, nat) -> Popped, round: nat) returns (t: Turn)
      requires Valid() && streamQueue != [] && MIN_STREAM_FRAME_SIZE <= maxLen <= 16383 && StreamsFit(pop)
      modifies this`activeStreams, this`streamQueue
      ensures Valid() && t.id == old(streamQueue)[0] && t.active == (t.id in old(activeStreams))
      ensures t.popped == if t.active then pop(t.id, maxLen + VarintLen(maxLen), round) else Popped(None, None, false)
      ensures streamQueue == old(streamQueue)[1..] + (if t.popped.hasMore then [t.id] else [])
      ensures activeStreams == if t.active && !t.popped.hasMore then old(activeStreams) - {t.id} else old(activeStreams)
      ensures FitsBudget(t.id, t.popped, maxLen + VarintLen(maxLen))
    {
      var id := streamQueue[0];
      streamQueue := streamQueue[1..];
      if id !in activeStreams {
        return Turn(id, false, Popped(None, None, false));
      }
      var r := pop(id, maxLen + VarintLen(maxLen), round);
      if r.hasMore {
        streamQueue := streamQueue + [id];
      } else {
        activeStreams := activeStreams - {id};
      }
      t := Turn(id, true, r);
    }

    /** A STREAM_DATA_BLOCKED frame goes into this packet if it fits, or is queued for the next. */
    method AppendBlocked(blocked: ControlFrame, frames: seq<ControlFrame>, remaining: int)
      returns (frames': seq<ControlFrame>, remaining': int, queued: bool)
      modifies this`controlFrames
      ensures queued <==> remaining < ControlLen(blocked)
      ensures queued ==>
        frames' == frames && remaining' == remaining && controlFrames == old(controlFrames) + [blocked]
      ensures !queued ==> frames' == frames + [blocked] && controlFrames == old(controlFrames)
      ensures !queued ==> remaining' == remaining - ControlLen(blocked) >= 0
      ensures ControlTotal(frames') == ControlTotal(frames) + remaining - remaining'
    {
      var l := ControlLen(blocked);
      if remaining < l {
        controlFrames := controlFrames + [blocked];
        return frames, remaining, true;
      }
      ControlTotalAppend(frames, blocked);
      return frames + [blocked], remaining - l, false;
    }

    /** The queue and the active streams after the turns. */
    ghost predicate AfterTurns(turns: seq<Turn>, queue: seq<nat>, active: set<nat>)
      requires |turns| <= |queue|
      reads this`streamQueue, this`activeStreams
    {
      && streamQueue == queue[|turns|..] + MoreOf(turns)
      && forall id :: id in activeStreams <==> id in active && !Finished(turns, id)
    }

    /** One more turn, at the head of the queue. */
    method TakeTurn(remaining: int, pop: (nat, int, nat) -> Popped, turns: seq<Turn>, ghost queue: seq<nat>,
                    ghost active: set<nat>, ghost room: int)
      returns (turns': seq<Turn>)
      requires Valid() && MIN_STREAM_FRAME_SIZE <= remaining <= 16383 && StreamsFit(pop)
      requires |turns| < |queue| && AfterTurns(turns, queue, active) && InTurn(turns, queue, active, pop, room)
      requires remaining == RoomAfter(room, turns)
      modifies this`activeStreams, this`streamQueue
      ensures Valid() && |turns'| == |turns| + 1 && turns'[..|turns|] == turns && |turns'| <= |queue|
      ensures AfterTurns(turns', queue, active) && InTurn(turns', queue, active, pop, room)
      ensures var t := turns'[|turns|]; FitsBudget(t.id, t.popped, remaining + VarintLen(remaining))
    {
      hide StreamsFit, Finished, InTurn, RoomAfter;
      var t := GetNextStreamFrame(remaining, pop, |turns|);
      turns' := turns + [t];
      OneMoreTurn(turns, t);
      InTurnOn(turns, queue, active, pop, room, t);
      forall id: nat
        ensures Finished(turns', id) <==> Finished(turns, id) || (t.id == id && t.active && !t.popped.hasMore)
      {
        FinishedOn(turns, t, id);
      }
    }

    /** STREAM frames of up to as many streams as are queued, while 128 bytes are left. */
    method AppendStreamFrames(frames: seq<ControlFrame>, maxLen: int, pop: (nat, int, nat) -> Popped)
      returns (frames': seq<ControlFrame>, added: int, streamFrames: seq<Packed>, streamFrameLen: int,
               remaining: int, turns: seq<Turn>, queued: bool)
      requires Valid() && maxLen <= 16383 && StreamsFit(pop)
      modifies this`activeStreams, this`streamQueue, this`controlFrames
      ensures Valid() && Packable(streamFrames, if maxLen < 0 then 0 else remaining)
      ensures maxLen < 0 ==> streamFrames == [] && frames' == frames && remaining == maxLen
      ensures ControlTotal(frames') == ControlTotal(frames) + added && StreamTotal(streamFrames) == streamFrameLen
      ensures added + streamFrameLen + remaining == maxLen
      // in turn, while there is room
      ensures InTurn(turns, old(streamQueue), old(activeStreams), pop, maxLen)
      ensures AfterTurns(turns, old(streamQueue), old(activeStreams)) && streamFrames == FramesOf(turns)
      ensures |turns| < |old(streamQueue)| ==> remaining < MIN_STREAM_FRAME_SIZE || queued
      // what the streams report goes out, or at the end is queued
      ensures Reported(frames, frames', old(controlFrames), controlFrames, BlocksOf(turns), queued)
      ensures queued ==> remaining < ControlLen(controlFrames[|controlFrames| - 1])
      ensures added >= 0
    {
      hide ControlTotal, StreamTotal, StreamsFit, ControlLen, InTurn, FramesOf, BlocksOf, MoreOf, Finished, RoomAfter;
      NoTurns();
      frames', added, streamFrames, streamFrameLen, remaining, turns, queued := frames, 0, [], 0, maxLen, [], false;
      ghost var queue, active := streamQueue, activeStreams;
      var numActiveStreams := |streamQueue|;
      while |turns| < numActiveStreams && !queued
        invariant |turns| <= numActiveStreams == |queue| && Valid()
        invariant InTurn(turns, queue, active, pop, maxLen) && AfterTurns(turns, queue, active)
        invariant streamFrames == FramesOf(turns) && (!queued ==> remaining == RoomAfter(maxLen, turns)) && added >= 0
        invariant queued ==> controlFrames != [] && remaining < ControlLen(controlFrames[|controlFrames| - 1])
        invariant Packable(streamFrames, if maxLen < 0 then 0 else remaining) && remaining <= maxLen
        invariant maxLen < 0 ==> streamFrames == [] && frames' == frames && remaining == maxLen
        invariant ControlTotal(frames') == ControlTotal(frames) + added && StreamTotal(streamFrames) == streamFrameLen
        invariant added + streamFrameLen + remaining == maxLen
        invariant Reported(frames, frames', old(controlFrames), controlFrames, BlocksOf(turns), queued)
        decreases numActiveStreams - |turns|
      {
        if MIN_STREAM_FRAME_SIZE > remaining {
          break;
        }
        ghost var before := turns;
        turns := TakeTurn(remaining, pop, turns, queue, active, maxLen);
        var t := turns[|turns| - 1];
        assert turns == before + [t];
        OneMoreTurn(before, t);
        RoomAfterOneMore(maxLen, before, t);
        var sf, blocked := t.popped.frame, t.popped.blocked;
        if sf.Some? {
          PackOneMore(streamFrames, t.id, sf.value, remaining);
          StreamTotalAppend(streamFrames, Packed(t.id, sf.value));
          streamFrames := streamFrames + [Packed(t.id, sf.value)];
          remaining, streamFrameLen := remaining - Length(t.id, sf.value), streamFrameLen + Length(t.id, sf.value);
        }
        if blocked.Some? {
          var frame := StreamDataBlocked(t.id, blocked.value);
          frames', remaining, queued := AppendBlocked(frame, frames', remaining);
          added := added + (if queued then 0 else ControlLen(frame));
        }
      }
    }

    /** The part of `Append` after the control frames `front`, which leave `room` in the packet. */
    method AppendToControl(front: seq<ControlFrame>, room: int, pop: (nat, int, nat) -> Popped)
      returns (frames: seq<ControlFrame>, streamFrames: seq<Packed>, added: int, turns: seq<Turn>,
               ghost blocked: seq<ControlFrame>, ghost later: seq<ControlFrame>)
      requires Valid() && room <= 16383 && StreamsFit(pop)
      modifies this`activeStreams, this`streamQueue, this`controlFrames, connFlowController`lastBlockedAt
      ensures Valid() && frames == front + blocked && controlFrames == old(controlFrames) + later
      ensures ControlTotal(front) + added == ControlTotal(frames) + StreamTotal(streamFrames)
      ensures 0 <= added <= Max(room, 0)
      ensures multiset(blocked) + multiset(later) == multiset(BlocksOf(turns) + old(ConnReport()))
      ensures forall i :: 0 <= i < |later| ==> added + ControlLen(later[i]) > room - 8
      ensures InTurn(turns, old(streamQueue), old(activeStreams), pop, room)
      ensures AfterTurns(turns, old(streamQueue), old(activeStreams))
      ensures streamFrames == WithoutLastLength(FramesOf(turns))
      ensures forall i :: 0 <= i < |streamFrames| ==> (streamFrames[i].frame.dataLenPresent <==> i < |streamFrames| - 1)
      ensures |turns| < |old(streamQueue)| ==> added > room - MIN_STREAM_FRAME_SIZE - 8 || later != []
    {
      hide ControlTotal, StreamTotal, StreamsFit, ControlLen, InTurn, FramesOf, BlocksOf, MoreOf, Finished,
        AfterTurns, Reported, WithoutLastLength, ConnReport;
      var streamFrameLen, remaining, left, queued, queued';
      ghost var queue := controlFrames;
      frames, added, streamFrames, streamFrameLen, remaining, turns, queued := AppendStreamFrames(front, room, pop);
      ghost var frames0, queue0 := frames, controlFrames;
      frames, left, queued' := AppendDataBlocked(frames, remaining);
      ReportedTwice(front, frames0, frames, queue, queue0, controlFrames, BlocksOf(turns), queued, old(ConnReport()),
                    queued');
      blocked, later := frames[|front|..], controlFrames[|queue|..];
      streamFrames, streamFrameLen := DropLastLength(streamFrames, streamFrameLen);
      added := added + remaining - left + streamFrameLen;
      forall i | 0 <= i < |later|
        ensures added + ControlLen(later[i]) > room - 8
      {
        QueuedReports(front, frames0, frames, queue, queue0, controlFrames, BlocksOf(turns), queued, old(ConnReport()),
                      queued', |queue| + i);
      }
    }

    /**
     Fills a packet with up to `maxLen` bytes.  The length is the exact total of the frames and
     never more than `maxLen`, although STREAM frames are popped with a larger budget; only the
     last STREAM frame has no length field.  A PATH_RESPONSE comes first, then frames of the streams,
     then queued frames, the latest first, then limits reported as blocking; what does not go out
     stays queued.  The streams have their turns in the order of the queue, and go to its end if they
     have more.
     */
    method Append(maxLen: int, pop: (nat, int, nat) -> Popped, control: (nat, nat) -> Control)
      returns (frames: seq<ControlFrame>, streamFrames: seq<Packed>, length: int, visits: seq<Visit>, turns: seq<Turn>,
               kept: nat, full: bool, ghost path: seq<ControlFrame>, ghost blocked: seq<ControlFrame>,
               ghost later: seq<ControlFrame>)
      requires Valid() && maxLen <= 16383 && StreamsFit(pop) && ControlFits(control)
      modifies this, connFlowController`lastBlockedAt
      ensures Valid()
      ensures length == ControlTotal(frames) + StreamTotal(streamFrames) <= Max(maxLen, 0)
      // control frames
      ensures |path| <= 1 && path + pathResponses == old(pathResponses) && kept <= |old(controlFrames)|
      ensures path != [] <==> old(pathResponses) != [] && 9 <= maxLen
      ensures VisitsOk(visits, old(streamsWithControlFrames), control, full)
      ensures LeftPending(visits, old(streamsWithControlFrames), streamsWithControlFrames, control)
      ensures full ==> length >= maxLen - MAX_STREAM_CONTROL_FRAME_SIZE
      ensures frames == Front(path, visits, control, old(controlFrames), kept) + blocked
      ensures controlFrames == old(controlFrames)[..kept] + later
      ensures multiset(blocked) + multiset(later) == multiset(BlocksOf(turns) + old(ConnReport()))
      // queued frames stay, or are queued, only if they do not fit
      ensures kept > 0 ==> length + ControlLen(old(controlFrames)[kept - 1]) > maxLen
      ensures forall i :: 0 <= i < |later| ==> length + ControlLen(later[i]) > maxLen - 8
      // STREAM frames
      ensures InTurn(turns, old(streamQueue), old(activeStreams), pop,
                     maxLen - ControlTotal(Front(path, visits, control, old(controlFrames), kept)))
      ensures AfterTurns(turns, old(streamQueue), old(activeStreams))
      ensures streamFrames == WithoutLastLength(FramesOf(turns))
      ensures forall i :: 0 <= i < |streamFrames| ==> (streamFrames[i].frame.dataLenPresent <==> i < |streamFrames| - 1)
      // it stops only when the packet is full, or a report does not fit
      ensures |turns| < |old(streamQueue)| ==> length > maxLen - MIN_STREAM_FRAME_SIZE - 8 || later != []
    {
      hide ControlTotal, StreamTotal, StreamsFit, ControlFits, ControlLen, InTurn, FramesOf, BlocksOf, MoreOf, Finished,
        Reversed, AfterTurns, WithoutLastLength, ConnReport, VisitsOk, LeftPending, GivenBy;
      var controlFrameLen, added;
      frames, controlFrameLen, full, visits, path := AppendControlFrames(maxLen, control);
      kept := |controlFrames|;
      frames, streamFrames, added, turns, blocked, later := AppendToControl(frames, maxLen - controlFrameLen, pop);
      length := controlFrameLen + added;
    }

    /** What the connection reports as blocking. */
    ghost function ConnReport(): seq<ControlFrame>
      reads connFlowController
    {
      if connFlowController.NewlyBlocked() then [DataBlocked(connFlowController.sendWindow)] else []
    }

    /** A DATA_BLOCKED frame, if the connection's window was used up. */
    method AppendDataBlocked(frames: seq<ControlFrame>, remaining: int)
      returns (frames': seq<ControlFrame>, left: int, queued: bool)
      modifies this`controlFrames, connFlowController`lastBlockedAt
      ensures Reported(frames, frames', old(controlFrames), controlFrames, old(ConnReport()), queued)
      ensures ControlTotal(frames') == ControlTotal(frames) + remaining - left
      ensures queued ==> left < ControlLen(controlFrames[|controlFrames| - 1])
      ensures remaining < 0 ==> left == remaining
      ensures remaining >= 0 ==> 0 <= left <= remaining
    {
      hide ControlTotal;
      frames', left, queued := frames, remaining, false;
      var isBlocked, offset := connFlowController.IsNewlyBlocked();
      if isBlocked {
        frames', left, queued := AppendBlocked(DataBlocked(offset), frames, remaining);
      }
    }
  }

  /** The last STREAM frame of a packet gets no length field. */
  method DropLastLength(fs: seq<Packed>, len: int) returns (fs': seq<Packed>, len': int)
    requires len == StreamTotal(fs) && forall i :: 0 <= i < |fs| ==> fs[i].frame.dataLenPresent
    ensures fs' == WithoutLastLength(fs) && len' == StreamTotal(fs')
    ensures len' == len - (if fs == [] then 0 else VarintLen(|fs[|fs| - 1].frame.data|)) >= 0
    ensures forall i :: 0 <= i < |fs'| ==> (fs'[i].frame.dataLenPresent <==> i < |fs'| - 1)
  {
    hide StreamTotal, VarintLen;
    fs', len' := fs, len;
    if fs != [] {
      var n := |fs| - 1;
      var last := fs[n];
      len' := len' - Length(last.streamID, last.frame);
      last := Packed(last.streamID, last.frame.(dataLenPresent := false));
      LastReplaced(fs, last);
      fs' := fs[n := last];
      len' := len' + Length(last.streamID, last.frame);
    }
    StreamTotalNonNegative(fs');
  }

  /** What was queued instead of going out: the last report of the streams, the one of the connection. */
  lemma QueuedReports(fs: seq<ControlFrame>, fs0: seq<ControlFrame>, fs1: seq<ControlFrame>, q: seq<ControlFrame>,
                      q0: seq<ControlFrame>, q1: seq<ControlFrame>, r0: seq<ControlFrame>, queued0: bool,
                      r1: seq<ControlFrame>, queued1: bool, i: int)
    requires Reported(fs, fs0, q, q0, r0, queued0) && Reported(fs0, fs1, q0, q1, r1, queued1) && |q| <= i < |q1|
    ensures (queued0 && |q0| > 0 && q1[i] == q0[|q0| - 1]) || (queued1 && q1[i] == q1[|q1| - 1])
  {
    assert i < |q0| ==> q1[i] == q0[i];
  }

  lemma ReportedTwice(fs: seq<ControlFrame>, fs0: seq<ControlFrame>, fs1: seq<ControlFrame>, q: seq<ControlFrame>,
                      q0: seq<ControlFrame>, q1: seq<ControlFrame>, r0: seq<ControlFrame>, queued0: bool,
                      r1: seq<ControlFrame>, queued1: bool)
    requires Reported(fs, fs0, q, q0, r0, queued0) && Reported(fs0, fs1, q0, q1, r1, queued1)
    ensures fs <= fs1 && q <= q1 && fs1 == fs + fs1[|fs|..] && q1 == q + q1[|q|..]
    ensures multiset(fs1[|fs|..]) + multiset(q1[|q|..]) == multiset(r0 + r1) && (queued0 ==> q1[|q|..] != [])
  {
    hide Reported;
    Split(fs, fs0, q, q0, r0, queued0);
    Split(fs0, fs1, q0, q1, r1, queued1);
    assert fs1[|fs|..] == fs0[|fs|..] + fs1[|fs0|..] && q1[|q|..] == q0[|q|..] + q1[|q0|..];
  }

  /** The last STREAM frame of a packet needs no length field. */
  function WithoutLastLength(fs: seq<Packed>): (r: seq<Packed>)
    ensures |r| == |fs|
  {
    if fs == [] then []
    else
      var n := |fs| - 1;
      fs[n := Packed(fs[n].streamID, fs[n].frame.(dataLenPresent := false))]
  }

  /** What was reported was appended to the frames, except for the last if that was queued instead. */
  ghost predicate Reported(fs: seq<ControlFrame>, fs': seq<ControlFrame>, q: seq<ControlFrame>, q': seq<ControlFrame>,
                           report: seq<ControlFrame>, queued: bool)
  {
    if queued then report != [] && fs' == fs + report[..|report| - 1] && q' == q + [report[|report| - 1]]
    else fs' == fs + report && q' == q
  }

  lemma Split(fs: seq<ControlFrame>, fs': seq<ControlFrame>, q: seq<ControlFrame>, q': seq<ControlFrame>,
              report: seq<ControlFrame>, queued: bool)
    requires Reported(fs, fs', q, q', report, queued)
    ensures fs <= fs' && q <= q' && fs' == fs + fs'[|fs|..] && q' == q + q'[|q|..]
    ensures multiset(fs'[|fs|..]) + multiset(q'[|q|..]) == multiset(report) && (queued ==> q'[|q|..] != [])
  {
    if queued {
      assert report == report[..|report| - 1] + [report[|report| - 1]];
    }
  }

  lemma NoTurns()
    ensures FramesOf([]) == [] && BlocksOf([]) == [] && MoreOf([]) == [] && StreamTotal([]) == 0
    ensures forall id :: !Finished([], id)
    ensures forall queue, active, pop, room :: InTurn([], queue, active, pop, room)
    ensures forall room :: RoomAfter(room, []) == room
  {
  }

  lemma LastReplaced(fs: seq<Packed>, f: Packed)
    requires fs != []
    ensures var n := |fs| - 1;
            StreamTotal(fs[n := f])
            == StreamTotal(fs) - Length(fs[n].streamID, fs[n].frame) + Length(f.streamID, f.frame)
  {
    SumUpdate(fs, |fs| - 1, f, StreamLens());
  }

  lemma StreamTotalEmpty()
    ensures StreamTotal([]) == 0
  {
  }

  function Reversed<T>(s: seq<T>): (r: seq<T>)
    ensures |r| == |s|
  {
    if s == [] then [] else Reversed(s[1..]) + [s[0]]
  }

  lemma ReversedStep<T>(s: seq<T>, n: int)
    requires 0 <= n < |s|
    ensures Reversed(s[n..]) == Reversed(s[n + 1..]) + [s[n]]
  {
    assert s[n..][1..] == s[n + 1..];
  }
}
