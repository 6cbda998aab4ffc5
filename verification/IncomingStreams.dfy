/**
 Streams opened by the peer: the advertised limit, the order of acceptance, and deletion.
 */
module IncomingStreams {
  import opened Protocol

  /** Largest stream ID, 2^62 - 1. */
  const MAX_STREAM_ID: int := 0x3FFF_FFFF_FFFF_FFFF

  const INVALID_STREAM_ID: int := -1

  /** ID of the last of the first `n` streams of a type whose first ID is `first`. */
  function LastId(first: int, n: int): int {
    if n == 0 then INVALID_STREAM_ID else first + 4 * (n - 1)
  }

  /** Number of streams up to and including `id`. */
  function CountUpTo(first: int, id: int): int {
    if id < first then 0 else (id - first) / 4 + 1
  }

  /** `id` belongs to the streams of the type whose first ID is `first`. */
  predicate OnGrid(first: int, id: int) {
    (id - first) % 4 == 0
  }

  /** Streams are counted in steps of four. */
  lemma CountSteps(first: int, a: int, b: int, max: int)
    requires first <= a <= b && OnGrid(first, a) && OnGrid(first, b) && b <= max
    ensures (a - first) / 4 + (b + 4 - a) / 4 == (b + 4 - first) / 4
    ensures (b + 4 - first) / 4 <= CountUpTo(first, max)
    ensures OnGrid(first, b + 4)
    ensures forall k :: OnGrid(first, k) && k < b + 4 ==> k <= b
  {
  }

  lemma CountOne(first: int, id: int)
    requires first <= id
    ensures CountUpTo(first, id) == (id + 4 - first) / 4
  {
  }

  lemma NextOnGrid(first: int, a: int, base: int)
    requires OnGrid(first, a)
    ensures OnGrid(first, a + 4) && (a + 4 - base) / 4 == (a - base) / 4 + 1
    ensures forall k :: OnGrid(first, k) && a <= k < a + 4 ==> k == a
  {
  }

  lemma NthOnGrid(first: int, n: nat)
    ensures OnGrid(first, first + 4 * n)
  {
  }

  lemma CountMonotone(first: int, id: int, max: int)
    requires first <= id && OnGrid(first, id) && max == LastId(first, CountUpTo(first, max))
    ensures id <= max <==> CountUpTo(first, id) <= CountUpTo(first, max)
  {
  }

  /** Number of streams of a type whose ID is at most `MAX_STREAM_ID`, 2^60. */
  const MAX_STREAM_COUNT: int := 0x1000_0000_0000_0000

  /** Stream IDs run out after that many streams. */
  lemma LastFits(first: int, n: int)
    requires 0 <= first < 4
    ensures LastId(first, n) <= MAX_STREAM_ID <==> n <= MAX_STREAM_COUNT
  {
  }

  /** Every deleted stream makes room for another one, until stream IDs run out. */
  function LimitFor(maxNumStreams: int, deleted: int): int {
    Max(maxNumStreams, Min(maxNumStreams + deleted, MAX_STREAM_COUNT))
  }

  /** A stream that is gone raises the limit by one, which is sent, until stream IDs run out. */
  predicate Raised(limit: int, limit': int, sent: seq<int>, sent': seq<int>, gone: bool) {
    if gone && limit < MAX_STREAM_COUNT then limit' == limit + 1 && sent' == sent + [limit']
    else limit' == limit && sent' == sent
  }

  datatype OpenResult = Stream(id: int) | AlreadyClosed | LimitError

  datatype AcceptResult = Accepted(id: int) | NothingToAccept | Closed

  // ---------------------------------------------------------------- counting streams

  datatype Step = PeerFrame(n: nat) | Accept | Complete(id: int) | Close

  datatype Result = Opening(open: OpenResult) | Accepting(accept: AcceptResult) | Completing(ok: bool) | Closing

  /**
   All there is to know: the peer opened `num` streams, the first `accepted` of which were accepted,
   and those in `completed` are done.
   */
  datatype Counts = Counts(first: int, maxNumStreams: int, num: int, accepted: int, completed: set<int>, closed: bool)
  {
    /** Streams that were accepted and are done. */
    function Gone(): set<int> { set id | id in completed && id < first + 4 * accepted }

    /** How many streams the peer may open in total. */
    function Limit(): int { LimitFor(maxNumStreams, |Gone()|) }

    predicate IsLive(id: int) { first <= id < first + 4 * num && OnGrid(first, id) && id !in Gone() }

    function OpenAnswer(id: int): OpenResult {
      if CountUpTo(first, id) > Limit() then LimitError else if id in completed then AlreadyClosed else Stream(id)
    }

    function AcceptAnswer(): AcceptResult {
      if closed then Closed else if accepted == num then NothingToAccept else Accepted(first + 4 * accepted)
    }

    function Open(id: int): Counts {
      if CountUpTo(first, id) > Limit() then this else this.(num := Max(num, CountUpTo(first, id)))
    }

    function AcceptNext(): Counts {
      if closed || accepted == num then this else this.(accepted := accepted + 1)
    }

    predicate MayComplete(id: int) { first <= id < first + 4 * num && OnGrid(first, id) && id !in completed }

    function CompleteOne(id: int): Counts {
      if MayComplete(id) then this.(completed := completed + {id}) else this
    }

    function Answer(step: Step): Result {
      match step
      case PeerFrame(n) => Opening(OpenAnswer(first + 4 * n))
      case Accept => Accepting(AcceptAnswer())
      case Complete(id) => Completing(MayComplete(id))
      case Close => Closing
    }

    function After(step: Step): Counts {
      match step
      case PeerFrame(n) => Open(first + 4 * n)
      case Accept => AcceptNext()
      case Complete(id) => CompleteOne(id)
      case Close => this.(closed := true)
    }

    function AfterAll(steps: seq<Step>): Counts {
      if steps == [] then this else AfterAll(steps[..|steps| - 1]).After(steps[|steps| - 1])
    }
  }

  function NoStreams(first: int, maxNumStreams: int): Counts {
    Counts(first, maxNumStreams, 0, 0, {}, false)
  }

  /** The streams below `next` that are done: not in the map any more, or marked there. */
  ghost function Done(first: int, next: int, streams: map<int, bool>): set<int> {
    set id | first <= id < next && OnGrid(first, id) && (id !in streams || streams[id])
  }

  /** The streams below `next` that are not in the map. */
  ghost function Left(first: int, next: int, streams: map<int, bool>): set<int> {
    set id | first <= id < next && OnGrid(first, id) && id !in streams
  }

  /** A stream stays in the map until it was accepted, and is not deleted twice. */
  ghost predicate MapOk(first: int, a: int, b: int, streams: map<int, bool>) {
    && (forall id :: id in streams ==> first <= id < b && OnGrid(first, id))
    && (forall id :: a <= id < b && OnGrid(first, id) ==> id in streams)
    && (forall id :: id in streams && id < a ==> !streams[id])
  }

  /** The limit follows the deleted streams, and every new one was sent, once. */
  ghost predicate Advertised(maxNumStreams: int, deleted: int, limit: int, advertised: seq<int>) {
    && limit == LimitFor(maxNumStreams, deleted)
    && |advertised| == limit - maxNumStreams
    && (forall i :: 0 <= i < |advertised| ==> advertised[i] == maxNumStreams + 1 + i)
  }

  lemma BelowNext(first: int, a: int, b: int, streams: map<int, bool>)
    requires MapOk(first, a, b, streams)
    ensures forall id :: id in streams ==> id < b
  {
  }

  lemma MarkStream(first: int, a: int, b: int, streams: map<int, bool>, id: int)
    requires first <= id < b && OnGrid(first, id) && id in streams
    ensures Done(first, b, streams[id := true]) == Done(first, b, streams) + {id}
    ensures Left(first, a, streams[id := true]) == Left(first, a, streams)
  {
  }

  lemma EraseStream(first: int, a: int, b: int, streams: map<int, bool>, id: int)
    requires first <= id < a <= b && OnGrid(first, id) && id in streams
    ensures Done(first, b, streams - {id}) == Done(first, b, streams) + {id}
    ensures |Left(first, a, streams - {id})| == |Left(first, a, streams)| + 1
  {
    assert Left(first, a, streams - {id}) == Left(first, a, streams) + {id};
  }

  lemma AlreadyDone(first: int, b: int, streams: map<int, bool>, id: int)
    requires first <= id < b && OnGrid(first, id) && id in streams && streams[id]
    ensures Done(first, b, streams) + {id} == Done(first, b, streams)
  {
  }

  lemma PassStream(first: int, a: int, streams: map<int, bool>)
    requires a in streams && OnGrid(first, a)
    ensures Left(first, a + 4, streams) == Left(first, a, streams)
  {
    NextOnGrid(first, a, first);
  }

  lemma AddStreams(first: int, a: int, b: int, id: int, streams: map<int, bool>, streams': map<int, bool>)
    requires first <= a <= b <= id && OnGrid(first, b) && OnGrid(first, id) && MapOk(first, a, b, streams)
    requires forall k :: k in streams' <==> k in streams || (b <= k <= id && OnGrid(first, k))
    requires forall k :: k in streams' ==> streams'[k] == (k in streams && streams[k])
    ensures MapOk(first, a, id + 4, streams')
    ensures Done(first, id + 4, streams') == Done(first, b, streams)
    ensures Left(first, a, streams') == Left(first, a, streams)
  {
    NextOnGrid(first, id, first);
  }

  class IncomingStreamsMap {
    const first: int
    const maxNumStreams: int
    /** Streams in the map; the value says that the stream is to be deleted once it was accepted. */
    var streams: map<int, bool>
    var nextStreamToAccept: int
    var nextStreamToOpen: int
    var maxStream: int
    var closed: bool

    /** Streams removed from the map, streams handed to the application, limits sent to the peer. */
    var deleted: nat
    var accepted: seq<int>
    var advertised: seq<int>

    ghost function NumOpened(): int
      reads this`nextStreamToOpen
    {
      (nextStreamToOpen - first) / 4
    }

    /** The number of streams the peer may have opened in total. */
    ghost function Limit(): int
      reads this`maxStream
    {
      CountUpTo(first, maxStream)
    }

    ghost function View(): Counts
      reads this`streams, this`nextStreamToOpen, this`accepted, this`closed
    {
      Counts(first, maxNumStreams, NumOpened(), |accepted|, Done(first, nextStreamToOpen, streams), closed)
    }

    ghost predicate IdsOk()
      reads this`streams, this`nextStreamToAccept, this`nextStreamToOpen, this`accepted
    {
      && 0 <= first < 4 && 0 <= maxNumStreams
      && first <= nextStreamToAccept <= nextStreamToOpen
      && nextStreamToAccept == first + 4 * |accepted|
      && (forall i :: 0 <= i < |accepted| ==> accepted[i] == first + 4 * i)
      && OnGrid(first, nextStreamToOpen)
      && MapOk(first, nextStreamToAccept, nextStreamToOpen, streams)
    }

    ghost predicate LimitOk()
      reads this`streams, this`deleted, this`nextStreamToOpen, this`maxStream, this`advertised
    {
      && |streams| + deleted == NumOpened() <= Limit() && maxStream == LastId(first, Limit())
      && Advertised(maxNumStreams, deleted, Limit(), advertised)
    }

    /** Every stream that was accepted and is not in the map any more was deleted once. */
    ghost predicate GoneOk()
      reads this`streams, this`deleted, this`nextStreamToAccept
    {
      deleted == |Left(first, nextStreamToAccept, streams)|
    }

    ghost predicate Valid()
      reads this
    {
      IdsOk() && LimitOk() && GoneOk()
    }

    constructor (first: int, maxNumStreams: int)
      requires 0 <= first < 4 && 0 <= maxNumStreams
      ensures Valid() && View() == NoStreams(first, maxNumStreams)
      ensures Limit() == maxNumStreams && advertised == [] && deleted == 0
    {
      this.first, this.maxNumStreams := first, maxNumStreams;
      streams, nextStreamToAccept, nextStreamToOpen, closed := map[], first, first, false;
      maxStream := LastId(first, maxNumStreams);
      deleted, accepted, advertised := 0, [], [];
    }

    lemma InMap(id: int)
      requires IdsOk()
      ensures View().MayComplete(id) <==> id in streams && !streams[id]
      ensures id in View().completed <==>
        first <= id < nextStreamToOpen && OnGrid(first, id) && (id !in streams || streams[id])
      ensures nextStreamToOpen == first + 4 * NumOpened()
    {
    }

    lemma NextInMap()
      requires IdsOk()
      ensures nextStreamToAccept in streams <==> nextStreamToAccept < nextStreamToOpen
      ensures nextStreamToOpen == first + 4 * NumOpened() && OnGrid(first, nextStreamToAccept)
      ensures nextStreamToAccept < nextStreamToOpen ==> nextStreamToAccept + 4 <= nextStreamToOpen
    {
      NthOnGrid(first, |accepted|);
    }

    /** The limit is the one that counting gives. */
    lemma LimitIsCounted()
      requires Valid()
      ensures Limit() == View().Limit() && maxStream == LastId(first, Limit())
      ensures deleted == |View().Gone()| && NumOpened() <= Limit()
      ensures maxNumStreams + deleted <= MAX_STREAM_COUNT ==> Limit() == maxNumStreams + deleted
      ensures maxNumStreams <= MAX_STREAM_COUNT < maxNumStreams + deleted ==> Limit() == MAX_STREAM_COUNT
    {
      assert View().Gone() == Left(first, nextStreamToAccept, streams);
    }

    /** `deleteStream`: a stream that was not accepted yet is only marked. */
    method Delete(id: int) returns (ok: bool)
      requires Valid()
      modifies this`streams, this`deleted, this`maxStream, this`advertised
      ensures Valid()
      ensures Raised(old(Limit()), Limit(), old(advertised), advertised, deleted == old(deleted) + 1)
      ensures ok <==> id in old(streams) && !old(streams)[id]
      ensures !ok ==> streams == old(streams) && deleted == old(deleted)
      ensures ok && id >= nextStreamToAccept ==> streams == old(streams)[id := true] && deleted == old(deleted)
      ensures ok && id < nextStreamToAccept ==> streams == old(streams) - {id} && deleted == old(deleted) + 1
      ensures ok == old(View()).MayComplete(id) && View() == old(View()).CompleteOne(id)
    {
      hide LimitOk, Done, Left, OnGrid;
      InMap(id);
      if id !in streams {
        return false;
      }
      if id >= nextStreamToAccept {
        if streams[id] {
          return false;
        }
        MarkStream(first, nextStreamToAccept, nextStreamToOpen, streams, id);
        Mark(id);
        return true;
      }
      EraseStream(first, nextStreamToAccept, nextStreamToOpen, streams, id);
      Erase(id);
      ok := true;
    }

    /** The stream is to be deleted once it was accepted. */
    method Mark(id: int)
      requires LimitOk() && id in streams
      modifies this`streams
      ensures LimitOk() && streams == old(streams)[id := true]
    {
      streams := streams[id := true];
    }

    /** The end of `deleteStream`, for a stream that was accepted: it makes room for another one. */
    method Erase(id: int)
      requires LimitOk() && id in streams && 0 <= first < 4 && 0 <= maxNumStreams
      requires first <= nextStreamToOpen && OnGrid(first, nextStreamToOpen)
      modifies this`streams, this`deleted, this`maxStream, this`advertised
      ensures LimitOk() && streams == old(streams) - {id} && deleted == old(deleted) + 1
      ensures Raised(old(Limit()), Limit(), old(advertised), advertised, deleted == old(deleted) + 1)
    {
      streams := streams - {id};
      deleted := deleted + 1;
      if maxNumStreams > |streams| {
        var newMax := nextStreamToOpen + 4 * (maxNumStreams - |streams| - 1);
        assert newMax == LastId(first, maxNumStreams + deleted);
        LastFits(first, maxNumStreams + deleted);
        if newMax <= MAX_STREAM_ID {
          maxStream := newMax;
          assert CountUpTo(first, maxStream) == maxStream / 4 + 1;
          advertised := advertised + [maxStream / 4 + 1];
        }
      }
    }

    method DeleteStream(id: int) returns (ok: bool)
      requires Valid()
      modifies this`streams, this`deleted, this`maxStream, this`advertised
      ensures Valid()
      ensures Raised(old(Limit()), Limit(), old(advertised), advertised, deleted == old(deleted) + 1)
      // it is gone at once if it was accepted before
      ensures deleted == old(deleted) + (if ok && id < nextStreamToAccept then 1 else 0)
      ensures ok == old(View()).MayComplete(id) && View() == old(View()).CompleteOne(id)
    {
      ok := Delete(id);
    }

    /** One look at the map by `AcceptStream`; it waits, and looks again, while there is nothing. */
    method AcceptStream() returns (r: AcceptResult)
      requires Valid()
      modifies this`streams, this`deleted, this`maxStream, this`advertised, this`nextStreamToAccept, this`accepted
      ensures Valid()
      ensures Raised(old(Limit()), Limit(), old(advertised), advertised, deleted == old(deleted) + 1)
      ensures r == Closed <==> closed
      ensures !closed ==> (r == NothingToAccept <==> old(nextStreamToAccept) == nextStreamToOpen)
      ensures r.Accepted? ==> r.id == old(nextStreamToAccept) && accepted == old(accepted) + [r.id]
      ensures r.Accepted? ==> r.id in old(streams) && (r.id in streams <==> !old(streams)[r.id])
      // a stream that completed before it was accepted is gone now
      ensures deleted == old(deleted) + (if r.Accepted? && old(streams)[r.id] then 1 else 0)
      ensures !r.Accepted? ==> accepted == old(accepted) && streams == old(streams)
      ensures r == old(View()).AcceptAnswer() && View() == old(View()).AcceptNext()
    {
      hide LimitOk, Done, Left, OnGrid;
      NextInMap();
      var id := nextStreamToAccept;
      if closed {
        return Closed;
      }
      if id !in streams {
        return NothingToAccept;
      }
      var shouldDelete := streams[id];
      PassStream(first, id, streams);
      NextOnGrid(first, id, first);
      nextStreamToAccept := nextStreamToAccept + 4;
      accepted := accepted + [id];
      if shouldDelete {
        EraseStream(first, nextStreamToAccept, nextStreamToOpen, streams, id);
        AlreadyDone(first, nextStreamToOpen, streams, id);
        Erase(id);
      }
      r := Accepted(id);
    }

    method GetOrOpenStream(id: int) returns (r: OpenResult)
      requires Valid() && first <= id && OnGrid(first, id)
      modifies this`streams, this`nextStreamToOpen
      ensures Valid()
      ensures r == LimitError <==> CountUpTo(first, id) > Limit()
      ensures r == LimitError ==> unchanged(this)
      ensures r == AlreadyClosed <==> id < old(nextStreamToOpen) && (id !in old(streams) || old(streams)[id])
      ensures r.Stream? ==> r.id == id && id in streams && !streams[id]
      ensures nextStreamToOpen == if r.Stream? && id >= old(nextStreamToOpen) then id + 4 else old(nextStreamToOpen)
      ensures r == old(View()).OpenAnswer(id) && View() == old(View()).Open(id)
    {
      hide LimitOk, OnGrid, Done, Left;
      LimitIsCounted();
      InMap(id);
      CountMonotone(first, id, maxStream);
      if id > maxStream {
        return LimitError;
      }
      if id < nextStreamToOpen {
        if id in streams && !streams[id] {
          return Stream(id);
        }
        return AlreadyClosed;
      }
      OpenNew(id);
      r := Stream(id);
    }

    method OpenNew(id: int)
      requires Valid() && nextStreamToOpen <= id <= maxStream && OnGrid(first, id)
      modifies this`streams, this`nextStreamToOpen
      ensures Valid() && nextStreamToOpen == id + 4 && id in streams && !streams[id]
      ensures View() == old(View()).(num := CountUpTo(first, id))
    {
      hide OnGrid, LastId, Done, Left, Advertised, MapOk, CountUpTo;
      CountOne(first, id);
      BelowNext(first, nextStreamToAccept, nextStreamToOpen, streams);
      CountSteps(first, nextStreamToOpen, id, maxStream);
      ghost var streams0 := streams;
      OpenUpTo(id);
      AddStreams(first, nextStreamToAccept, nextStreamToOpen, id, streams0, streams);
      nextStreamToOpen := id + 4;
    }

    /** The loop of `GetOrOpenStream`: opens this stream and all below it. */
    method OpenUpTo(id: int)
      requires nextStreamToOpen <= id && OnGrid(first, nextStreamToOpen) && OnGrid(first, id)
      requires forall k :: k in streams ==> k < nextStreamToOpen
      modifies this`streams
      ensures |streams| == |old(streams)| + (id + 4 - nextStreamToOpen) / 4
      ensures forall k :: k in streams <==> k in old(streams) || (nextStreamToOpen <= k <= id && OnGrid(first, k))
      ensures forall k :: k in streams ==> streams[k] == (k in old(streams) && old(streams)[k])
    {
      hide OnGrid;
      var newNum := nextStreamToOpen;
      while newNum <= id
        invariant newNum <= id ==> nextStreamToOpen <= newNum
        invariant id < newNum ==> newNum == id + 4
        invariant nextStreamToOpen <= newNum && OnGrid(first, newNum)
        invariant |streams| == |old(streams)| + (newNum - nextStreamToOpen) / 4
        invariant forall k :: k in streams <==>
          k in old(streams) || (nextStreamToOpen <= k < newNum && OnGrid(first, k))
        invariant forall k :: k in streams ==> streams[k] == (k in old(streams) && old(streams)[k])
        decreases id + 4 - newNum
      {
        NextOnGrid(first, newNum, nextStreamToOpen);
        streams := streams[newNum := false];
        newNum := newNum + 4;
      }
      NextOnGrid(first, id, nextStreamToOpen);
    }

    method CloseWithError()
      requires Valid()
      modifies this`closed
      ensures Valid() && View() == old(View()).(closed := true)
    {
      closed := true;
    }
  }


  method Take(m: IncomingStreamsMap, step: Step) returns (r: Result)
    requires m.Valid()
    modifies m
    ensures m.Valid() && r == old(m.View()).Answer(step) && m.View() == old(m.View()).After(step)
  {
    hide IncomingStreamsMap.Valid, OnGrid, Done, Counts.OpenAnswer, Counts.Open, Counts.AcceptAnswer, Counts.AcceptNext,
      Counts.MayComplete, Counts.CompleteOne;
    match step
    case PeerFrame(n) =>
      NthOnGrid(m.first, n);
      var open := m.GetOrOpenStream(m.first + 4 * n);
      r := Opening(open);
    case Accept =>
      var accept := m.AcceptStream();
      r := Accepting(accept);
    case Complete(id) =>
      var ok := m.DeleteStream(id);
      r := Completing(ok);
    case Close =>
      m.CloseWithError();
      r := Closing;
  }

  /** Every step came to what counting says. */
  ghost predicate Follows(start: Counts, steps: seq<Step>, results: seq<Result>) {
    |results| <= |steps| && forall i :: 0 <= i < |results| ==> results[i] == start.AfterAll(steps[..i]).Answer(steps[i])
  }

  lemma AfterOneMore(start: Counts, steps: seq<Step>, k: nat)
    requires k < |steps|
    ensures start.AfterAll(steps[..k + 1]) == start.AfterAll(steps[..k]).After(steps[k])
  {
    hide Counts.After;
    assert steps[..k + 1][..k] == steps[..k];
  }

  lemma FollowsOn(start: Counts, steps: seq<Step>, results: seq<Result>, r: Result)
    requires Follows(start, steps, results) && |results| < |steps|
    requires r == start.AfterAll(steps[..|results|]).Answer(steps[|results|])
    ensures Follows(start, steps, results + [r])
  {
    hide Counts.Answer, Counts.AfterAll;
  }

  lemma NothingFollows(start: Counts, steps: seq<Step>)
    ensures Follows(start, steps, []) && start.AfterAll(steps[..0]) == start
  {
  }

  ghost predicate CompletedAt(steps: seq<Step>, results: seq<Result>, i: int, id: int) {
    0 <= i < |steps| && i < |results| && steps[i] == Complete(id) && results[i] == Completing(true)
  }

  /** The streams that are gone: accepted, and completed by some step. */
  ghost predicate GoneRight(steps: seq<Step>, results: seq<Result>, accepted: seq<int>, gone: set<int>) {
    forall id :: id in gone <==> id in accepted && exists i :: CompletedAt(steps, results, i, id)
  }

  /**
   The peer may open as many streams as there were to begin with, and one more for each that is gone,
   while stream IDs last; the first stream beyond that is an error.
   */
  ghost predicate LimitsRight(start: Counts, steps: seq<Step>, results: seq<Result>) {
    forall i :: 0 <= i < |steps| && i < |results| && steps[i].PeerFrame? ==>
      Within(start.maxNumStreams, |start.AfterAll(steps[..i]).Gone()|, steps[i].n, results[i] != Opening(LimitError))
  }

  /** Of the streams that the peer may open, given that `gone` are gone, `n` is one exactly if `may`. */
  predicate Within(maxNumStreams: int, gone: int, n: int, may: bool) {
    if maxNumStreams + gone <= MAX_STREAM_COUNT then may <==> n < maxNumStreams + gone
    else if maxNumStreams <= MAX_STREAM_COUNT then may <==> n < MAX_STREAM_COUNT
    else may <==> n < maxNumStreams
  }

  lemma {:induction false} SameStart(start: Counts, steps: seq<Step>)
    ensures var t := start.AfterAll(steps);
            t.first == start.first && t.maxNumStreams == start.maxNumStreams
  {
    if steps != [] {
      SameStart(start, steps[..|steps| - 1]);
    }
  }

  lemma LimitOnTotal(t: Counts, n: nat)
    ensures Within(t.maxNumStreams, |t.Gone()|, n, t.Answer(PeerFrame(n)) != Opening(LimitError))
  {
  }

  lemma LimitsAreRight(start: Counts, steps: seq<Step>, results: seq<Result>)
    requires Follows(start, steps, results)
    ensures LimitsRight(start, steps, results)
  {
    hide Counts.Answer, Counts.Gone, Counts.AfterAll, Within;
    forall i | 0 <= i < |steps| && i < |results| && steps[i].PeerFrame?
      ensures Within(start.maxNumStreams, |start.AfterAll(steps[..i]).Gone()|, steps[i].n,
                     results[i] != Opening(LimitError))
    {
      SameStart(start, steps[..i]);
      LimitOnTotal(start.AfterAll(steps[..i]), steps[i].n);
    }
  }

  /** A stream is completed by the first step that says so. */
  lemma {:induction false} CompletedMeans(start: Counts, steps: seq<Step>, results: seq<Result>, id: int, k: nat)
    requires Follows(start, steps, results) && k <= |results| && start.completed == {}
    ensures id in start.AfterAll(steps[..k]).completed <==> exists i :: i < k && CompletedAt(steps, results, i, id)
  {
    hide Counts.AfterAll;
    if k == 0 {
      NothingFollows(start, steps);
    } else {
      CompletedMeans(start, steps, results, id, k - 1);
      AfterOneMore(start, steps, k - 1);
      var t := start.AfterAll(steps[..k - 1]);
      assert id in t.After(steps[k - 1]).completed <==> id in t.completed || CompletedAt(steps, results, k - 1, id);
    }
  }

  lemma GoneIsRight(start: Counts, steps: seq<Step>, results: seq<Result>, accepted: seq<int>)
    requires Follows(start, steps, results) && |results| == |steps| && start.completed == {}
    requires var end := start.AfterAll(steps);
             && |accepted| == end.accepted && (forall i :: 0 <= i < |accepted| ==> accepted[i] == end.first + 4 * i)
             && forall id :: id in end.completed ==> end.first <= id && OnGrid(end.first, id)
    ensures GoneRight(steps, results, accepted, start.AfterAll(steps).Gone())
  {
    hide Follows, Counts.AfterAll;
    var end := start.AfterAll(steps);
    assert steps[..|steps|] == steps;
    forall id
      ensures id in end.Gone() <==> id in accepted && exists i :: CompletedAt(steps, results, i, id)
    {
      CompletedMeans(start, steps, results, id, |steps|);
      if id in end.Gone() {
        assert accepted[(id - end.first) / 4] == id;
      }
    }
  }

  /**
   Any interleaving of frames from the peer (on the `n`-th stream, which may exceed the limit),
   acceptances and completions comes to what counting says: streams are accepted in order and
   without repetition, and every stream that was accepted and is done makes room for another one,
   until stream IDs run out.  The peer may use that room, no more than `maxNumStreams` are live, and
   every new limit is advertised once.
   */
  method Run(first: int, maxNumStreams: int, steps: seq<Step>)
    returns (results: seq<Result>, accepted: seq<int>, live: set<int>, advertised: seq<int>)
    requires 0 <= first < 4 && 0 <= maxNumStreams
    ensures Follows(NoStreams(first, maxNumStreams), steps, results) && |results| == |steps|
    ensures var end := NoStreams(first, maxNumStreams).AfterAll(steps);
            && |accepted| == end.accepted && (forall i :: 0 <= i < |accepted| ==> accepted[i] == first + 4 * i)
            && (forall id :: id in live <==> end.IsLive(id)) && |live| + |end.Gone()| == end.num
            && |live| <= maxNumStreams && end.num <= maxNumStreams + |end.Gone()|
            && GoneRight(steps, results, accepted, end.Gone())
            && (maxNumStreams + |end.Gone()| <= MAX_STREAM_COUNT ==> |advertised| == |end.Gone()|)
            && (maxNumStreams < MAX_STREAM_COUNT < maxNumStreams + |end.Gone()| ==>
                  |advertised| == MAX_STREAM_COUNT - maxNumStreams)
            && (maxNumStreams >= MAX_STREAM_COUNT ==> advertised == [])
            && forall i :: 0 <= i < |advertised| ==> advertised[i] == maxNumStreams + 1 + i
    ensures LimitsRight(NoStreams(first, maxNumStreams), steps, results)
  {
    hide IncomingStreamsMap.Valid, Follows, Counts.After, Counts.Answer, Counts.IsLive, Counts.Gone, Counts.Limit, Done;
    var m := new IncomingStreamsMap(first, maxNumStreams);
    ghost var start := NoStreams(first, maxNumStreams);
    results := [];
    NothingFollows(start, steps);
    for k := 0 to |steps|
      invariant fresh(m) && m.Valid() && |results| == k
      invariant Follows(start, steps, results) && m.View() == start.AfterAll(steps[..k])
    {
      AfterOneMore(start, steps, k);
      var r := Take(m, steps[k]);
      FollowsOn(start, steps, results, r);
      results := results + [r];
    }
    assert steps[..|steps|] == steps;
    Summary(m);
    LimitsAreRight(start, steps, results);
    GoneIsRight(start, steps, results, m.accepted);
    accepted, live, advertised := m.accepted, m.streams.Keys, m.advertised;
  }

  lemma Summary(m: IncomingStreamsMap)
    requires m.Valid()
    ensures var end := m.View();
            && (forall i :: 0 <= i < |m.accepted| ==> m.accepted[i] == m.first + 4 * i)
            && (forall id :: id in m.streams.Keys <==> end.IsLive(id)) && |m.streams.Keys| + |end.Gone()| == end.num
            && |m.streams.Keys| <= m.maxNumStreams && end.num <= m.maxNumStreams + |end.Gone()|
            && (m.maxNumStreams + |end.Gone()| <= MAX_STREAM_COUNT ==> |m.advertised| == |end.Gone()|)
            && (m.maxNumStreams < MAX_STREAM_COUNT < m.maxNumStreams + |end.Gone()| ==>
                  |m.advertised| == MAX_STREAM_COUNT - m.maxNumStreams)
            && (m.maxNumStreams >= MAX_STREAM_COUNT ==> m.advertised == [])
            && (forall id :: id in end.completed ==> m.first <= id && OnGrid(m.first, id))
            && forall i :: 0 <= i < |m.advertised| ==> m.advertised[i] == m.maxNumStreams + 1 + i
  {
    hide CountUpTo, LastId;
    m.LimitIsCounted();
    assert |m.streams.Keys| == |m.streams|;
  }

  lemma LimitGrows(t: Counts, step: Step)
    ensures t.Gone() <= t.After(step).Gone() && t.Limit() <= t.After(step).Limit()
  {
    var a, b := t.Gone(), t.After(step).Gone();
    assert a <= b && b == a + (b - a);
  }

  /** The limit never shrinks. */
  lemma {:induction false} LimitNeverShrinks(start: Counts, steps: seq<Step>, i: nat, k: nat)
    requires i <= k <= |steps|
    ensures start.AfterAll(steps[..i]).Limit() <= start.AfterAll(steps[..k]).Limit()
    decreases k
  {
    hide Counts.After, Counts.Limit;
    if i < k {
      LimitNeverShrinks(start, steps, i, k - 1);
      AfterOneMore(start, steps, k - 1);
      LimitGrows(start.AfterAll(steps[..k - 1]), steps[k - 1]);
    }
  }
}
