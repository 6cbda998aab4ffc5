/**
 Opening outgoing streams under the peer's stream limit.

 Callers of `OpenStreamSync` wait in line, each on a channel with room for one wake-up.  Every
 region under the mutex is one method here; receiving from a channel and noticing a cancelled
 context happen between them, so any interleaving is a sequence of calls of these methods.
 */
module OutgoingStreams {

  /** One call of `OpenStreamSync`, together with its channel. */
  type Waiter = nat

  datatype Outcome = Opened(id: int) | LimitReached | Waiting | Cancelled | Closed

  /** In order of arrival, and so without repetition. */
  ghost predicate InOrder(q: seq<Waiter>) {
    forall i, j :: 0 <= i < j < |q| ==> q[i] < q[j]
  }

  /** `slices.DeleteFunc` with the predicate "is `w`". */
  function Remove(q: seq<Waiter>, w: Waiter): (r: seq<Waiter>)
    ensures forall v :: v in r <==> v in q && v != w
    ensures w !in q ==> r == q
    ensures q != [] && q[0] != w ==> r != [] && r[0] == q[0]
    ensures |r| <= |q|
  {
    if q == [] then []
    else if q[0] == w then Remove(q[1..], w)
    else [q[0]] + Remove(q[1..], w)
  }

  ghost predicate StrictlyIncreasing(s: seq<int>) {
    forall i, j :: 0 <= i < j < |s| ==> s[i] < s[j]
  }

  /** The waiting line: who was served, who waits, who was woken, and which channels hold a wake-up. */
  datatype Line = Line(served: seq<Waiter>, queue: seq<Waiter>, parked: set<Waiter>, woken: set<Waiter>,
                       tokens: set<Waiter>, nextWaiter: Waiter, closed: bool)

  ghost predicate LineOk(l: Line) {
    && InOrder(l.served + l.queue)
    && (forall w :: w in l.served || w in l.queue || w in l.parked || w in l.tokens ==> w < l.nextWaiter)
    && l.woken <= l.parked
    && (if l.closed then l.queue == [] else forall w :: w in l.queue <==> w in l.parked)
    // only the head is ever woken
    && (forall w :: w in l.queue && (w in l.tokens || w in l.woken) ==> w == l.queue[0])
  }

  /** Someone waits, and the head of the line has no wake-up on its way. */
  ghost predicate Stuck(l: Line) {
    l.queue != [] && l.queue[0] !in l.tokens && l.queue[0] !in l.woken
  }

  lemma JoinLine(l: Line)
    requires LineOk(l) && !l.closed
    ensures var w := l.nextWaiter;
            var l' := l.(queue := l.queue + [w], parked := l.parked + {w}, nextWaiter := w + 1);
            LineOk(l') && (Stuck(l') <==> l.queue == [] || Stuck(l))
  {
    var a, q := l.served + l.queue, l.queue + [l.nextWaiter];
    assert l.served + q == a + [l.nextWaiter];
    assert forall i :: 0 <= i < |a| ==> a[i] in l.served || a[i] in l.queue;
  }

  lemma TakeToken(l: Line, w: Waiter)
    requires LineOk(l) && w in l.parked && (w in l.tokens || l.closed)
    ensures var l' := l.(tokens := l.tokens - {w}, woken := l.woken + {w});
            LineOk(l') && (Stuck(l') <==> Stuck(l))
  {
  }

  lemma {:induction false} RemoveInOrder(a: seq<Waiter>, q: seq<Waiter>, w: Waiter)
    requires InOrder(a + q)
    ensures InOrder(a + Remove(q, w))
    decreases |q|
  {
    if q != [] {
      assert a + q == a + [q[0]] + q[1..];
      RemoveInOrder(a + [q[0]], q[1..], w);
      var r := Remove(q[1..], w);
      assert a + ([q[0]] + r) == a + [q[0]] + r;
      if q[0] == w {
        forall i, j | 0 <= i < j < |a + r|
          ensures (a + r)[i] < (a + r)[j]
        {
          var t := a + [q[0]] + r;
          assert (a + r)[i] == t[if i < |a| then i else i + 1] && (a + r)[j] == t[if j < |a| then j else j + 1];
        }
      }
    }
  }

  /** Leaving the line, from anywhere in it. */
  lemma LeaveLine(l: Line, w: Waiter)
    requires LineOk(l)
    ensures var l' := l.(queue := Remove(l.queue, w), parked := l.parked - {w}, woken := l.woken - {w});
            LineOk(l') && (Stuck(l) ==> l'.queue == [] || Stuck(l'))
    ensures l.closed || l.queue == [] ==> l.queue == [] == Remove(l.queue, w)
  {
    RemoveInOrder(l.served, l.queue, w);
    var r := Remove(l.queue, w);
    forall v | v in r && (v in l.tokens || v in l.woken - {w})
      ensures v == r[0]
    {
      assert v == l.queue[0];
    }
  }

  /** The head of the line gets a stream. */
  lemma ServeHead(l: Line)
    requires LineOk(l) && !l.closed && l.queue != []
    ensures var w := l.queue[0];
            var l' := l.(served := l.served + [w], queue := l.queue[1..], parked := l.parked - {w},
                         woken := l.woken - {w});
            LineOk(l') && (l'.queue == [] || Stuck(l')) && l'.queue == Remove(l.queue, w)
  {
    var w, q := l.queue[0], l.queue[1..];
    assert l.queue == [w] + q && l.served + l.queue == l.served + [w] + q;
    HeadOnce(l.served, l.queue);
    assert Remove(l.queue, w) == q;
  }

  lemma HeadOnce(served: seq<Waiter>, queue: seq<Waiter>)
    requires InOrder(served + queue) && queue != []
    ensures queue[0] !in queue[1..] && Remove(queue[1..], queue[0]) == queue[1..]
  {
    var a, q := served + queue, queue[1..];
    forall i | 0 <= i < |q|
      ensures q[i] != queue[0]
    {
      assert q[i] == a[|served| + 1 + i] && a[|served|] == queue[0];
    }
  }

  lemma WokenIsHead(l: Line, w: Waiter)
    requires LineOk(l) && !l.closed && w in l.woken
    ensures l.queue != [] && l.queue[0] == w
  {
    assert w in l.queue;
  }

  lemma HeadParked(l: Line)
    requires LineOk(l) && !l.closed && l.queue != []
    ensures l.queue[0] in l.parked
  {
  }

  lemma SleepAgain(l: Line, w: Waiter)
    requires LineOk(l) && Stuck(l)
    ensures LineOk(l.(woken := l.woken - {w})) && Stuck(l.(woken := l.woken - {w}))
  {
  }

  lemma CloseLine(l: Line)
    requires LineOk(l)
    ensures LineOk(l.(queue := [], closed := true))
  {
    var a := l.served + l.queue;
    assert forall i :: 0 <= i < |l.served| ==> (l.served + [])[i] == a[i];
  }

  lemma FreshWaiter(l: Line)
    requires LineOk(l)
    ensures l.nextWaiter !in l.tokens && l.nextWaiter !in l.woken
  {
  }

  lemma WakeHead(l: Line)
    requires LineOk(l) && l.queue != []
    ensures LineOk(l.(tokens := l.tokens + {l.queue[0]})) && !Stuck(l.(tokens := l.tokens + {l.queue[0]}))
  {
  }

  // ---------------------------------------------------------------- a line without channels

  datatype Step =
    | Open
    | OpenSync(ctxErr: bool)
    | WakeUp(w: Waiter)
    | CtxDone(w: Waiter)
    | Continue(w: Waiter, ctxErr: bool)
    | MaxStreams(id: int)
    | Delete(id: int)
    | Close

  /** What a step comes to; `NotNow` if it cannot happen. */
  datatype Result = Returned(out: Outcome) | Woken | Deleted(ok: bool) | Noted | NotNow

  /** The callers seen from outside: no channels, only who waits in which order. */
  datatype Calls = Calls(
    first: int, num: nat, limit: int, line: seq<Waiter>, parked: set<Waiter>, awake: set<Waiter>, next: Waiter,
    closed: bool, served: seq<Waiter>, live: set<int>, reported: seq<int>)
  {
    function NextId(): int { first + 4 * num }

    predicate Available() { NextId() <= limit }

    /** No one stands in line, and a stream is available. */
    predicate Free() { !closed && line == [] && Available() }

    /** A waiter wakes up at the head of the line once a stream is available, or when all is over. */
    predicate MayWake(w: Waiter) {
      w in parked && w !in awake && (closed || (line != [] && w == line[0] && Available()))
    }

    function OpenOne(): Calls { this.(num := num + 1, live := live + {NextId()}) }

    /** STREAMS_BLOCKED is sent once for every limit. */
    function Report(): Calls {
      if reported != [] && reported[|reported| - 1] == limit then this else this.(reported := reported + [limit])
    }

    /** The peer was told that its current limit blocks. */
    predicate Told() { reported != [] && reported[|reported| - 1] == limit }

    /** Someone in line has to wait for a higher limit: the last one would get a stream beyond it. */
    predicate InVain() { line != [] && NextId() + 4 * (|line| - 1) > limit }

    function Leave(w: Waiter): Calls {
      this.(line := Remove(line, w), parked := parked - {w}, awake := awake - {w})
    }

    function Raise(id: int): Calls {
      if id <= limit then this
      else if id < NextId() - 4 + 4 * |line| then this.(limit := id).Report() else this.(limit := id)
    }

    function Answer(step: Step): Result {
      match step
      case Open => Returned(if closed then Closed else if Free() then Opened(NextId()) else LimitReached)
      case OpenSync(ctxErr) =>
        Returned(if closed then Closed else if ctxErr then Cancelled else if Free() then Opened(NextId()) else Waiting)
      case WakeUp(w) => if MayWake(w) then Woken else NotNow
      case CtxDone(w) => if w in parked && w !in awake then Returned(Cancelled) else NotNow
      case Continue(w, ctxErr) =>
        if w !in awake then NotNow
        else Returned(if closed then Closed else if ctxErr then Cancelled else Opened(NextId()))
      case Delete(id) => Deleted(id in live)
      case MaxStreams(_) => Noted
      case Close => Noted
    }

    function After(step: Step): Calls {
      match step
      case Open => if closed then this else if Free() then OpenOne() else Report()
      case OpenSync(ctxErr) =>
        if closed || ctxErr then this
        else if Free() then OpenOne()
        else this.(line := line + [next], parked := parked + {next}, next := next + 1).Report()
      case WakeUp(w) => if MayWake(w) then this.(awake := awake + {w}) else this
      case CtxDone(w) => if w in parked && w !in awake then Leave(w) else this
      case Continue(w, ctxErr) =>
        if w !in awake then this
        else if closed || ctxErr then Leave(w)
        else Leave(w).OpenOne().(served := served + [w])
      case MaxStreams(id) => Raise(id)
      case Delete(id) => this.(live := live - {id})
      case Close => this.(closed := true, line := [])
    }

    function AfterAll(steps: seq<Step>): Calls {
      if steps == [] then this else AfterAll(steps[..|steps| - 1]).After(steps[|steps| - 1])
    }
  }

  const NO_CALLS := Calls(0, 0, -1, [], {}, {}, 0, false, [], {}, [])

  class OutgoingStreamsMap {
    const first: int
    var streams: set<int>
    var openQueue: seq<Waiter>
    var nextStream: int
    var maxStream: int
    var blockedSent: bool
    var closed: bool

    /** Calls of `OpenStreamSync` that have not returned; those that took their wake-up; channels holding one. */
    var parked: set<Waiter>
    var woken: set<Waiter>
    var tokens: set<Waiter>
    var nextWaiter: Waiter

    /** The waiters that got a stream, in the order in which they did. */
    var served: seq<Waiter>

    /** Streams opened so far, and the limits at which STREAMS_BLOCKED was sent. */
    var openedIds: seq<int>
    var blockedAt: seq<int>

    ghost function TheLine(): (l: Line)
      reads this
    {
      Line(served, openQueue, parked, woken, tokens, nextWaiter, closed)
    }

    /** What is left when the channels are taken away. */
    ghost function View(): Calls
      reads this
    {
      Calls(first, |openedIds|, maxStream, openQueue, parked, woken, nextWaiter, closed, served, streams, blockedAt)
    }

    /** The line is in order, and its head has a wake-up exactly while a stream is available. */
    ghost predicate QueueOk()
      reads this
    {
      LineOk(TheLine()) && (openQueue != [] ==> (Stuck(TheLine()) <==> nextStream > maxStream))
    }

    ghost predicate StreamsOk()
      reads this`streams, this`nextStream, this`maxStream, this`openedIds
    {
      && 0 <= first < 4 && nextStream == first + 4 * |openedIds|
      && (forall i :: 0 <= i < |openedIds| ==> openedIds[i] == first + 4 * i)
      && (openedIds != [] ==> nextStream - 4 <= maxStream) && -1 <= maxStream
      && (forall id :: id in streams ==> id in openedIds)
    }

    ghost predicate BlockedOk()
      reads this`maxStream, this`blockedSent, this`blockedAt
    {
      && StrictlyIncreasing(blockedAt)
      && (blockedAt != [] ==> blockedAt[|blockedAt| - 1] <= maxStream)
      && (blockedSent <==> blockedAt != [] && blockedAt[|blockedAt| - 1] == maxStream)
    }

    /** Whoever waits for a higher limit was reported to the peer. */
    ghost predicate TellOk()
      reads this`openQueue, this`nextStream, this`maxStream, this`blockedSent
    {
      openQueue != [] && nextStream + 4 * (|openQueue| - 1) > maxStream ==> blockedSent
    }

    ghost predicate Valid()
      reads this
    {
      QueueOk() && StreamsOk() && BlockedOk() && TellOk()
    }

    constructor (first: int)
      requires 0 <= first < 4
      ensures Valid() && View() == NO_CALLS.(first := first)
    {
      this.first := first;
      streams, openQueue, nextStream, maxStream := {}, [], first, -1;
      blockedSent, closed := false, false;
      parked, woken, tokens, nextWaiter, served := {}, {}, {}, 0, [];
      openedIds, blockedAt := [], [];
    }

    lemma NextIsNext()
      requires StreamsOk()
      ensures nextStream == View().NextId()
    {
    }

    method OpenNext() returns (id: int)
      requires StreamsOk() && nextStream <= maxStream
      modifies this`streams, this`nextStream, this`openedIds
      ensures StreamsOk()
      ensures id == old(nextStream) == old(View()).NextId() && nextStream == id + 4
      ensures openedIds == old(openedIds) + [id] && View() == old(View()).OpenOne()
    {
      id := nextStream;
      streams := streams + {nextStream};
      openedIds := openedIds + [nextStream];
      nextStream := nextStream + 4;
    }

    method MaybeSendBlockedFrame()
      requires BlockedOk()
      modifies this`blockedSent, this`blockedAt
      ensures BlockedOk() && blockedSent && View() == old(View()).Report()
    {
      if blockedSent {
        return;
      }
      blockedAt := blockedAt + [maxStream];
      blockedSent := true;
    }

    method MaybeUnblockOpenSync()
      requires LineOk(TheLine()) && (openQueue != [] && nextStream > maxStream ==> Stuck(TheLine()))
      modifies this`tokens
      ensures tokens == old(tokens) + (if openQueue != [] && nextStream <= maxStream then {openQueue[0]} else {})
      ensures QueueOk()
    {
      if |openQueue| == 0 {
        return;
      }
      if nextStream > maxStream {
        return;
      }
      WakeHead(TheLine());
      // a send that would block is dropped: the channel then already holds a wake-up
      if openQueue[0] !in tokens {
        tokens := tokens + {openQueue[0]};
      }
    }

    method OpenStream() returns (r: Outcome)
      requires Valid()
      modifies this
      ensures Valid()
      ensures old(closed) ==> r == Closed && unchanged(this)
      ensures !old(closed) ==> (r.Opened? <==> old(openQueue) == [] && old(nextStream) <= old(maxStream))
      ensures r.Opened? ==> r.id == old(nextStream) && openedIds == old(openedIds) + [r.id]
      ensures !r.Opened? ==> openedIds == old(openedIds)
      ensures r == LimitReached ==> View().Told()
      ensures Returned(r) == old(View()).Answer(Open) && View() == old(View()).After(Open)
    {
      if closed {
        return Closed;
      }
      if |openQueue| > 0 || nextStream > maxStream {
        MaybeSendBlockedFrame();
        return LimitReached;
      }
      var id := OpenNext();
      r := Opened(id);
    }

    /** `OpenStreamSync` up to the point where it starts to wait; `ctxErr` says the context is done. */
    method OpenStreamSync(ctxErr: bool) returns (r: Outcome, w: Waiter)
      requires Valid()
      modifies this
      ensures Valid()
      ensures r == Waiting ==> w == old(nextWaiter) && w !in tokens && View().Told()
      ensures r == Closed || r == Cancelled ==> unchanged(this)
      ensures Returned(r) == old(View()).Answer(OpenSync(ctxErr)) && View() == old(View()).After(OpenSync(ctxErr))
    {
      hide LineOk, Stuck, StreamsOk, BlockedOk, Calls.Report, Calls.OpenOne;
      NextIsNext();
      w := nextWaiter;
      if closed {
        return Closed, w;
      }
      if ctxErr {
        return Cancelled, w;
      }
      if |openQueue| == 0 && nextStream <= maxStream {
        var id := OpenNext();
        return Opened(id), w;
      }
      JoinLine(TheLine());
      FreshWaiter(TheLine());
      nextWaiter := nextWaiter + 1;
      parked := parked + {w};
      openQueue := openQueue + [w];
      MaybeSendBlockedFrame();
      r := Waiting;
    }

    /** The `select` receives from the channel; after a close every channel is readable. */
    method TakeWakeUp(w: Waiter)
      requires Valid() && w in parked && w !in woken && (w in tokens || closed)
      modifies this`tokens, this`woken
      ensures Valid() && View() == old(View()).(awake := old(woken) + {w})
    {
      hide LineOk, Stuck;
      TakeToken(TheLine(), w);
      tokens := tokens - {w};
      woken := woken + {w};
    }

    /** The `select` notices the cancelled context instead. */
    method Cancel(w: Waiter)
      requires Valid() && w in parked && w !in woken
      modifies this`openQueue, this`parked, this`tokens
      ensures Valid() && w !in parked && w !in openQueue
      ensures View() == old(View()).Leave(w)
    {
      hide LineOk, Stuck, Remove;
      LeaveLine(TheLine(), w);
      assert woken - {w} == woken;
      openQueue := Remove(openQueue, w);
      parked := parked - {w};
      MaybeUnblockOpenSync();
    }

    /** The head of the line opens the next stream, leaves, and passes the wake-up on. */
    method Serve(w: Waiter) returns (id: int)
      requires LineOk(TheLine()) && StreamsOk() && BlockedOk() && TellOk()
      requires !closed && openQueue != [] && w == openQueue[0] && nextStream <= maxStream
      modifies this`openQueue, this`parked, this`woken, this`tokens, this`served, this`streams, this`nextStream,
               this`openedIds
      ensures QueueOk() && StreamsOk() && BlockedOk() && TellOk()
      ensures id == old(nextStream) == old(View()).NextId() && nextStream == id + 4
      ensures openedIds == old(openedIds) + [id] && openQueue == old(openQueue)[1..] && served == old(served) + [w]
      ensures View() == old(View()).Leave(w).OpenOne().(served := served)
    {
      hide LineOk, Stuck, StreamsOk, BlockedOk, Remove;
      ServeHead(TheLine());
      id := OpenNext();
      openQueue := openQueue[1..];
      served := served + [w];
      woken, parked := woken - {w}, parked - {w};
      MaybeUnblockOpenSync();
    }

    /** A woken waiter holds the mutex again. */
    method Resume(w: Waiter, ctxErr: bool) returns (r: Outcome)
      requires Valid() && w in woken
      modifies this
      ensures Valid()
      ensures closed ==> r == Closed
      ensures !closed && ctxErr ==> r == Cancelled && openQueue == Remove(old(openQueue), w)
      ensures !closed && !ctxErr ==> (r.Opened? <==> old(nextStream) <= old(maxStream)) && (r.Opened? || r == Waiting)
      // whoever opens stood at the head of the line
      ensures r.Opened? ==> old(openQueue) == [w] + openQueue && r.id == old(nextStream)
      ensures openedIds == if r.Opened? then old(openedIds) + [r.id] else old(openedIds)
      ensures served == if r.Opened? then old(served) + [w] else old(served)
      ensures if r == Waiting then View() == old(View()).(awake := old(woken) - {w})
              else Returned(r) == old(View()).Answer(Continue(w, ctxErr))
                   && View() == old(View()).After(Continue(w, ctxErr))
    {
      hide LineOk, Stuck, BlockedOk, StreamsOk, Remove;
      LeaveLine(TheLine(), w);
      if closed {
        woken, parked := woken - {w}, parked - {w};
        return Closed;
      }
      WokenIsHead(TheLine(), w);
      if ctxErr {
        openQueue := Remove(openQueue, w);
        woken, parked := woken - {w}, parked - {w};
        MaybeUnblockOpenSync();
        return Cancelled;
      }
      if nextStream > maxStream {
        SleepAgain(TheLine(), w);
        woken := woken - {w};
        return Waiting;
      }
      var id := Serve(w);
      r := Opened(id);
    }

    method SetMaxStream(id: int)
      requires Valid()
      modifies this
      ensures Valid()
      ensures maxStream == (if id <= old(maxStream) then old(maxStream) else id)
      ensures View() == old(View()).Raise(id)
      // a new limit is reported at once exactly if someone in line has to wait for a higher one
      ensures id > old(maxStream) ==> (View().Told() <==> View().InVain())
    {
      hide LineOk, Stuck, StrictlyIncreasing, Calls.Report;
      if id <= maxStream {
        return;
      }
      maxStream := id;
      blockedSent := false;
      if maxStream < nextStream - 4 + 4 * |openQueue| {
        MaybeSendBlockedFrame();
      }
      MaybeUnblockOpenSync();
    }

    method DeleteStream(id: int) returns (ok: bool)
      requires Valid()
      modifies this`streams
      ensures Valid() && (ok <==> id in old(streams)) && View() == old(View()).After(Delete(id))
    {
      if id !in streams {
        return false;
      }
      streams := streams - {id};
      ok := true;
    }

    method CloseWithError()
      requires Valid()
      modifies this`closed, this`openQueue
      ensures Valid() && View() == old(View()).After(Close)
    {
      hide LineOk;
      CloseLine(TheLine());
      closed := true;
      openQueue := [];
    }
  }

  /** A waiter that took its wake-up finds a stream: it never has to wait again. */
  lemma AwakeFindsStream(m: OutgoingStreamsMap, w: Waiter)
    requires m.Valid() && w in m.woken && !m.closed
    ensures m.nextStream <= m.maxStream
  {
    WokenIsHead(m.TheLine(), w);
  }

  /** A wake-up is there exactly when the line without channels says so. */
  lemma WakeUpIff(m: OutgoingStreamsMap, w: Waiter)
    requires m.Valid()
    ensures w in m.parked && w !in m.woken && (w in m.tokens || m.closed) <==> m.View().MayWake(w)
  {
  }

  /** Takes one step if it can happen now. */
  method Take(m: OutgoingStreamsMap, step: Step) returns (r: Result)
    requires m.Valid()
    modifies m
    ensures m.Valid() && r == old(m.View()).Answer(step) && m.View() == old(m.View()).After(step)
  {
    hide OutgoingStreamsMap.Valid;
    r := NotNow;
    match step
    case Open =>
      var out := m.OpenStream();
      r := Returned(out);
    case OpenSync(ctxErr) =>
      var out, _ := m.OpenStreamSync(ctxErr);
      r := Returned(out);
    case WakeUp(w) =>
      WakeUpIff(m, w);
      if w in m.parked && w !in m.woken && (w in m.tokens || m.closed) {
        m.TakeWakeUp(w);
        r := Woken;
      }
    case CtxDone(w) =>
      if w in m.parked && w !in m.woken {
        m.Cancel(w);
        r := Returned(Cancelled);
      }
    case Continue(w, ctxErr) =>
      if w in m.woken {
        if !m.closed {
          AwakeFindsStream(m, w);
        }
        var out := m.Resume(w, ctxErr);
        r := Returned(out);
      }
    case MaxStreams(id) =>
      m.SetMaxStream(id);
      r := Noted;
    case Delete(id) =>
      var ok := m.DeleteStream(id);
      r := Deleted(ok);
    case Close =>
      m.CloseWithError();
      r := Noted;
  }

  /** Every step came to what the line without channels says. */
  ghost predicate Follows(start: Calls, steps: seq<Step>, results: seq<Result>) {
    |results| <= |steps| && forall i :: 0 <= i < |results| ==> results[i] == start.AfterAll(steps[..i]).Answer(steps[i])
  }

  lemma FollowsOn(start: Calls, steps: seq<Step>, results: seq<Result>, r: Result)
    requires Follows(start, steps, results) && |results| < |steps|
    requires r == start.AfterAll(steps[..|results|]).Answer(steps[|results|])
    ensures Follows(start, steps, results + [r])
    ensures var k := |results|; start.AfterAll(steps[..k + 1]) == start.AfterAll(steps[..k]).After(steps[k])
  {
    hide Calls.Answer, Calls.After;
    var k := |results|;
    assert steps[..k + 1][..k] == steps[..k];
  }

  /**
   Any interleaving of calls, wake-ups, cancellations and limit updates: the channels make a line in
   which a waiter wakes up exactly when it stands at the head and a stream is available.  Streams
   are numbered consecutively by four within the limit, waiters are served in order of arrival, and
   no limit is reported blocked twice, but each at which someone waits for a higher one.
   */
  method Run(first: int, steps: seq<Step>) returns (results: seq<Result>, ids: seq<int>, calls: Calls)
    requires 0 <= first < 4
    ensures Follows(NO_CALLS.(first := first), steps, results) && |results| == |steps|
    ensures calls == NO_CALLS.(first := first).AfterAll(steps)
    ensures |ids| == calls.num && forall i :: 0 <= i < |ids| ==> ids[i] == first + 4 * i && ids[i] <= calls.limit
    ensures InOrder(calls.served + calls.line) && StrictlyIncreasing(calls.reported)
    ensures calls.InVain() ==> calls.Told()
  {
    hide OutgoingStreamsMap.Valid, Calls.After, Calls.Answer, Follows;
    var m := new OutgoingStreamsMap(first);
    results := [];
    ghost var start := NO_CALLS.(first := first);
    NothingFollows(start, steps);
    for i := 0 to |steps|
      invariant fresh(m) && m.Valid() && |results| == i
      invariant Follows(start, steps, results) && m.View() == start.AfterAll(steps[..i])
    {
      var r := Take(m, steps[i]);
      FollowsOn(start, steps, results, r);
      results := results + [r];
    }
    assert steps[..|steps|] == steps;
    Summary(m);
    ids := m.openedIds;
    calls := Calls(m.first, |m.openedIds|, m.maxStream, m.openQueue, m.parked, m.woken, m.nextWaiter, m.closed,
                   m.served, m.streams, m.blockedAt);
  }

  lemma NothingFollows(start: Calls, steps: seq<Step>)
    ensures Follows(start, steps, []) && start.AfterAll(steps[..0]) == start
  {
  }

  lemma Summary(m: OutgoingStreamsMap)
    requires m.Valid()
    ensures forall i :: 0 <= i < |m.openedIds| ==> m.openedIds[i] == m.first + 4 * i && m.openedIds[i] <= m.maxStream
    ensures InOrder(m.served + m.openQueue) && StrictlyIncreasing(m.blockedAt)
    ensures m.View().InVain() ==> m.View().Told()
  {
    hide StrictlyIncreasing, Stuck, InOrder;
  }

  /** The head of the line takes its wake-up, if it has not yet, and opens the next stream. */
  method Advance(m: OutgoingStreamsMap)
    requires m.Valid() && !m.closed && m.openQueue != [] && m.nextStream <= m.maxStream
    modifies m
    ensures m.Valid() && !m.closed
    ensures m.served == old(m.served) + [old(m.openQueue)[0]] && m.openQueue == old(m.openQueue)[1..]
    ensures |m.openedIds| == |old(m.openedIds)| + 1
  {
    hide LineOk, StrictlyIncreasing, InOrder;
    var head := m.openQueue[0];
    if head !in m.woken {
      HeadParked(m.TheLine());
      m.TakeWakeUp(head);
    }
    var _ := m.Resume(head, false);
  }

  /**
   If no one cancels, the wake-ups alone carry the line forward, in order, until it is empty or the
   limit is reached.
   */
  method Drain(m: OutgoingStreamsMap)
    requires m.Valid() && !m.closed
    modifies m
    ensures m.Valid() && (m.openQueue == [] || m.nextStream > m.maxStream)
    ensures m.served + m.openQueue == old(m.served) + old(m.openQueue)
    ensures |m.openedIds| - |old(m.openedIds)| == |m.served| - |old(m.served)|
  {
    hide OutgoingStreamsMap.Valid;
    while m.openQueue != [] && m.nextStream <= m.maxStream
      invariant m.Valid() && !m.closed
      invariant m.served + m.openQueue == old(m.served) + old(m.openQueue)
      invariant |m.openedIds| - |old(m.openedIds)| == |m.served| - |old(m.served)|
      decreases |m.openQueue|
    {
      Advance(m);
    }
  }
}
