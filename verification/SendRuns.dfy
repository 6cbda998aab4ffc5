/**
 Whole runs of a sending stream: any interleaving of writes, pops, acknowledgements, losses and
 window updates, up to a reset or shutdown.
 */
module SendRuns {
  import opened Protocol
  import opened Wire
  import opened FrameLedger
  import opened FlowControl
  import opened Senders
  import opened SendStreams

  datatype Step =
    | Write(p: seq<byte>, limiter: Option<int -> int>, expired: bool)
    | WakeWrite(expired: bool)
    | TryWriteAll(p: seq<byte>)
    | Pop(maxBytes: int, others: nat)
    | Ack(i: nat)
    | Lose(i: nat)
    | Close
    | MaxStreamData(limit: int)
    | MaxData(limit: int)

  /** What comes of a step; `NotNow` if it cannot happen. */
  datatype Result =
    | Wrote(p: seq<byte>, write: WriteResult)
    | Tried(p: seq<byte>, err: WriteError, wouldBlock: bool)
    | Sent(popped: Popped, first: bool)
    | Acked(completed: bool)
    | Noted
    | NotNow

  // ---------------------------------------------------------------- a stream seen from outside

  /** One step of a stream seen from outside. */
  function Do(s: Sender, step: Step): (Sender, Result)
    requires s.Sound()
  {
    match step
    case Write(p, limiter, expired) =>
      if s.w.writing then (s, NotNow)
      else
        var (w, r) := s.Write(p, limiter, expired);
        (s.(w := w), Wrote(p, r))
    case WakeWrite(expired) =>
      if !s.w.writing then (s, NotNow)
      else
        var (w, r) := s.Go(expired);
        (s.(w := w, signal := false), Wrote(s.w.current, r))
    case TryWriteAll(p) =>
      var (t, err, wouldBlock) := s.TryWriteAll(p);
      (t, Tried(p, err, wouldBlock))
    case Pop(maxBytes, others) =>
      if maxBytes > LONGEST_PACKET then (s, NotNow)
      else
        var (t, popped) := s.Pop(maxBytes, others);
        (t, Sent(popped, s.d.lost == []))
    case Ack(i) =>
      if i >= |s.d.inFlight| then (s, NotNow)
      else
        var (d, completed) := s.d.Ack(i);
        (s.(d := d), Acked(completed))
    case Lose(i) => if i >= |s.d.inFlight| then (s, NotNow) else (s.(d := s.d.Lose(i)), Noted)
    case Close => (s.(d := s.d.(closed := true)), Noted)
    case MaxStreamData(limit) => (s.(c := s.c.(granted := Max(limit, s.c.granted))), Noted)
    case MaxData(limit) => (s.(c := s.c.(connGranted := Max(limit, s.c.connGranted))), Noted)
  }

  /** What a write took. */
  function AcceptedBy(r: Result): seq<byte> {
    match r
    case Wrote(p, Returned(n, _)) => if 0 <= n <= |p| then p[..n] else []
    case Tried(p, Ok, false) => p
    case _ => []
  }

  /** What a first-time frame carries. */
  function SentBy(r: Result): seq<StreamFrame> {
    if r.Sent? && r.first && r.popped.frame.Some? then [r.popped.frame.value] else []
  }

  function Payload(fs: seq<StreamFrame>): (d: seq<byte>) {
    if fs == [] then [] else Payload(fs[..|fs| - 1]) + fs[|fs| - 1].data
  }

  /** Each frame starts where the ones before it end. */
  ghost predicate Tiles(fs: seq<StreamFrame>) {
    forall i :: 0 <= i < |fs| ==> fs[i].offset == |Payload(fs[..i])|
  }

  lemma PayloadAppend(fs: seq<StreamFrame>, f: StreamFrame)
    requires Tiles(fs) && f.offset == |Payload(fs)|
    ensures Payload(fs + [f]) == Payload(fs) + f.data && Tiles(fs + [f])
  {
    var gs := fs + [f];
    assert gs[..|fs|] == fs;
    forall i | 0 <= i < |gs|
      ensures gs[i].offset == |Payload(gs[..i])|
    {
      assert gs[..i] == fs[..i];
    }
  }

  /** What a step does to what was accepted and sent, read off its result. */
  lemma DoSays(s: Sender, step: Step)
    requires s.Sound()
    ensures var (t, r) := Do(s, step);
            && t.Sound() && t.w.accepted == s.w.accepted + AcceptedBy(r)
            && (if SentBy(r) == [] then t.d.sent == s.d.sent
                else SentBy(r)[0].offset == |s.d.sent| && t.d.sent == s.d.sent + SentBy(r)[0].data)
  {
    hide Sender.Go, Sender.Pop, Sending.Ack;
    match step
    case Write(p, limiter, expired) =>
      if !s.w.writing && !s.d.closed && !expired && p != [] {
        WriteSays(s, p, limiter);
      }
    case WakeWrite(expired) => GoSound(s, expired);
    case TryWriteAll(p) => assert s.w.accepted + p + s.w.current == s.w.accepted + (p + s.w.current);
    case Pop(maxBytes, others) =>
      if maxBytes <= LONGEST_PACKET {
        PopSays(s, maxBytes, others);
      }
    case Ack(i) =>
      if i < |s.d.inFlight| {
        AckSays(s.d, i);
      }
    case _ =>
  }

  lemma WriteSays(s: Sender, p: seq<byte>, limiter: Option<int -> int>)
    requires s.Sound() && !s.w.writing
    ensures var u := s.(w := Writing(s.w.accepted, true, p, limiter, false));
            u.Sound() && var (w, r) := u.Go(false);
            && s.(w := w).Sound()
            && (r.Returned? ==> 0 <= r.n <= |p| && w.accepted == s.w.accepted + p[..r.n])
            && (r == Blocked ==> w == u.w)
  {
    var u := s.(w := Writing(s.w.accepted, true, p, limiter, false));
    assert s.w.current == [] && s.All() == s.w.accepted;
    GoSound(u, false);
  }

  lemma AckSays(d: Sending, i: nat)
    requires i < |d.inFlight|
    ensures d.Ack(i).0.sent == d.sent
  {
  }

  /** The FIN ends everything, and the stream is completed exactly when all of it was acknowledged. */
  ghost predicate Ending(s: Sender) {
    && (s.d.finSent ==> s.d.closed && s.Unsent() == 0)
    && (s.d.completed <==> s.d.finSent && s.d.inFlight == [] && s.d.lost == [])
  }

  lemma PopKeepsEnding(s: Sender, maxBytes: int, others: nat)
    requires s.Sound() && Ending(s) && maxBytes <= LONGEST_PACKET
    ensures Ending(s.Pop(maxBytes, others).0)
  {
    hide Sender.Spend, Sender.Want, Sender.Taken, MaxStreamDataLen, StreamFrameLen;
    if s.d.lost == [] && !s.w.limited && s.Unsent() > 0 && s.Want(maxBytes) > 0 {
      WantFits(s, maxBytes);
      SpendKeepsEnding(s.(c := s.c.(others := s.c.others + s.Taken(others))), s.Want(maxBytes));
    }
  }

  lemma SpendKeepsEnding(s: Sender, want: int)
    requires s.Sound() && Ending(s) && 0 < want <= s.Unsent()
    ensures Ending(s.Spend(want).0)
  {
    var (n, held) := s.Grant(want);
    if 0 < n <= want {
      NextIs(s, n);
    }
  }

  lemma GoKeepsEnding(s: Sender, expired: bool)
    requires s.Sound() && Ending(s)
    ensures 0 <= s.Rest() <= |s.w.current| && Ending(s.(w := s.Go(expired).0, signal := false))
  {
  }

  lemma AckKeepsEnding(s: Sender, i: nat)
    requires Ending(s) && i < |s.d.inFlight|
    ensures Ending(s.(d := s.d.Ack(i).0))
  {
  }

  lemma DoKeepsEnding(s: Sender, step: Step)
    requires s.Sound() && Ending(s)
    ensures Ending(Do(s, step).0)
  {
    hide Sender.Go, Sender.Pop, Sending.Ack;
    match step
    case WakeWrite(expired) => GoKeepsEnding(s, expired);
    case Pop(maxBytes, others) =>
      if maxBytes <= LONGEST_PACKET {
        PopKeepsEnding(s, maxBytes, others);
      }
    case Ack(i) =>
      if i < |s.d.inFlight| {
        AckKeepsEnding(s, i);
      }
    case _ =>
  }

  lemma {:induction false} AllKeepEnding(s: Sender, steps: seq<Step>)
    requires s.Sound() && Ending(s)
    ensures Ending(DoAll(s, steps))
  {
    hide Do, Ending, Sender.Sound;
    if steps != [] {
      AllKeepEnding(s, steps[..|steps| - 1]);
      DoKeepsEnding(DoAll(s, steps[..|steps| - 1]), steps[|steps| - 1]);
    }
  }

  /** All the steps, one after the other. */
  ghost function DoAll(s: Sender, steps: seq<Step>): (t: Sender)
    requires s.Sound()
    ensures t.Sound()
  {
    if steps == [] then s
    else
      var t := DoAll(s, steps[..|steps| - 1]);
      DoSays(t, steps[|steps| - 1]);
      Do(t, steps[|steps| - 1]).0
  }

  /** Every step came to what it comes to seen from outside. */
  ghost predicate Follows(s: Sender, steps: seq<Step>, rs: seq<Result>)
    requires s.Sound()
  {
    |rs| <= |steps| && forall i :: 0 <= i < |rs| ==> rs[i] == Do(DoAll(s, steps[..i]), steps[i]).1
  }

  /** What the writes took, in order. */
  ghost function Accepted(rs: seq<Result>): (d: seq<byte>) {
    if rs == [] then [] else Accepted(rs[..|rs| - 1]) + AcceptedBy(rs[|rs| - 1])
  }

  /** The first-time frames, in the order they were sent. */
  ghost function Firsts(rs: seq<Result>): (fs: seq<StreamFrame>) {
    if rs == [] then [] else Firsts(rs[..|rs| - 1]) + SentBy(rs[|rs| - 1])
  }

  /** The results account for what was accepted and sent. */
  ghost predicate Tallies(t: Sender, rs: seq<Result>) {
    t.w.accepted == Accepted(rs) && Tiles(Firsts(rs)) && Payload(Firsts(rs)) == t.d.sent
  }

  lemma {:induction false} FollowsOn(s: Sender, steps: seq<Step>, rs: seq<Result>, r: Result)
    requires s.Sound() && Follows(s, steps, rs) && |rs| < |steps|
    requires r == Do(DoAll(s, steps[..|rs|]), steps[|rs|]).1
    ensures Follows(s, steps, rs + [r])
  {
    hide Do, DoAll, Sender.Sound;
    var q := rs + [r];
    forall i | 0 <= i < |q|
      ensures q[i] == Do(DoAll(s, steps[..i]), steps[i]).1
    {
      if i < |rs| {
        assert q[i] == rs[i];
      }
    }
  }

  lemma {:induction false} DoOneMore(s: Sender, steps: seq<Step>, k: nat)
    requires s.Sound() && k < |steps|
    ensures DoAll(s, steps[..k + 1]) == Do(DoAll(s, steps[..k]), steps[k]).0
  {
    hide Do;
    assert steps[..k + 1][..k] == steps[..k];
  }

  lemma TallyOneMore(t: Sender, step: Step, rs: seq<Result>)
    requires t.Sound() && Tallies(t, rs)
    ensures var (u, r) := Do(t, step); Tallies(u, rs + [r])
  {
    hide Do, Tiles, Payload, SentBy, AcceptedBy;
    var (u, r) := Do(t, step);
    assert (rs + [r])[..|rs|] == rs;
    DoSays(t, step);
    AtMostOne(r);
    if SentBy(r) == [] {
      assert Firsts(rs) + SentBy(r) == Firsts(rs);
    } else {
      PayloadAppend(Firsts(rs), SentBy(r)[0]);
    }
  }

  lemma AtMostOne(r: Result)
    ensures SentBy(r) == [] || SentBy(r) == [SentBy(r)[0]]
  {
  }

  /** A write, if it can happen now. */
  method TakeWrite(s: SendStream, step: Step) returns (r: Result)
    requires s.Valid() && (step.Write? || step.WakeWrite? || step.TryWriteAll?)
    modifies s, s.flowController, s.flowController.connection
    ensures s.Valid() && old(s.View()).Sound() && (s.View(), r) == Do(old(s.View()), step)
  {
    hide SendStream.Valid, SendStream.SendView, SendStream.CreditView, Sender.Write, Sender.Go, Sender.TryWriteAll,
      Sender.Sound;
    s.ViewSound();
    r := NotNow;
    if step.Write? {
      if !s.writing {
        var w := s.Write(step.p, step.limiter, step.expired);
        r := Wrote(step.p, w);
      }
    } else if step.WakeWrite? {
      if s.writing {
        var p := s.current;
        var w := s.WriteAgain(step.expired);
        r := Wrote(p, w);
      }
    } else {
      var err, wouldBlock := s.TryWriteAll(step.p);
      r := Tried(step.p, err, wouldBlock);
    }
  }

  /** Takes one step if it can happen now. */
  method Take(s: SendStream, step: Step) returns (r: Result)
    requires s.Valid()
    modifies s, s.flowController, s.flowController.connection
    ensures s.Valid() && old(s.View()).Sound() && (s.View(), r) == Do(old(s.View()), step)
  {
    hide SendStream.Valid, SendStream.WriteView, Sender.Write, Sender.Go, Sender.TryWriteAll, Sender.Pop, Sending.Ack,
      Sending.Lose, Sender.Sound;
    s.ViewSound();
    r := NotNow;
    match step
    case Pop(maxBytes, others) =>
      if maxBytes <= LONGEST_PACKET {
        var first := |s.retransmissionQueue| == 0;
        var popped := s.PopStreamFrame(maxBytes, others);
        r := Sent(popped, first);
      }
    case Ack(i) =>
      if i < |s.inFlight| {
        var completed := s.OnAcked(i);
        r := Acked(completed);
      }
    case Lose(i) =>
      if i < |s.inFlight| {
        s.OnLost(i);
        r := Noted;
      }
    case Close =>
      var _ := s.Close();
      r := Noted;
    case MaxStreamData(limit) =>
      var _ := s.UpdateSendWindow(limit);
      r := Noted;
    case MaxData(limit) =>
      s.RaiseConnectionWindow(limit);
      r := Noted;
    case _ =>
      r := TakeWrite(s, step);
  }

  /** What an observer has seen at the end of a run. */
  datatype Report = Report(
    results: seq<Result>, ledger: Ledger, outstanding: int, charged: int, connCharged: int, approved: int, framed: int)

  /**
   Every step comes to what it comes to for a stream seen from outside, which has no buffered frame.
   First-time frames tile the stream from offset 0, without hole or overlap, and carry exactly what
   the writes took, in order.  Every byte sent, and the FIN, is acknowledged, in flight or waiting
   for retransmission, in exactly one frame, and the count of outstanding frames is right.  A
   completed stream has sent everything, and the FIN and every byte were acknowledged.  Every byte
   sent or reserved was charged once, at both levels and within both windows, and the limiter
   approved exactly the bytes framed from limited writes.
   */
  method Run(streamID: int, sendWindow: nat, steps: seq<Step>) returns (r: Report)
    ensures var start := NewSender(streamID, sendWindow, 0, 0);
            start.Sound() && Follows(start, steps, r.results) && |r.results| == |steps|
    ensures var end := DoAll(NewSender(streamID, sendWindow, 0, 0), steps);
            && Tallies(end, r.results) && end.d.sent <= end.All()
            && r.ledger == Ledger(end.d.acked, end.d.inFlight, end.d.lost, end.d.sent, end.d.finSent)
            && Balanced(r.ledger) && r.outstanding == |r.ledger.inFlight|
            && r.charged == end.Charged() <= end.c.granted
            && r.connCharged == r.charged + end.c.others <= end.c.connGranted
            && (end.d.completed <==> end.d.finSent && r.ledger.inFlight == [] && r.ledger.lost == [])
            && (end.d.completed ==>
                  && end.d.sent == end.All() && Fins(r.ledger.acked) == 1
                  && forall x :: 0 <= x < |end.All()| ==> Count(r.ledger.acked, x) == 1)
    ensures r.approved == r.framed
  {
    hide Balanced, Follows, Tallies, Do, DoAll, SendStream.Valid, Sender.Charged;
    var conn := new ConnectionFlowController(0, 0);
    var fc := new StreamFlowController(conn, 0, 0, sendWindow);
    var s := new SendStream(streamID, fc);
    var results: seq<Result> := [];
    ghost var start := NewSender(streamID, sendWindow, 0, 0);
    assert s.View() == start;
    NothingFollows(start, steps);
    for i := 0 to |steps|
      invariant fresh(s) && fresh(s.flowController) && fresh(s.flowController.connection) && s.flowController == fc
      invariant fc.connection == conn && s.Valid() && |results| == i
      invariant Follows(start, steps, results) && s.View() == DoAll(start, steps[..i]) && Tallies(s.View(), results)
    {
      DoOneMore(start, steps, i);
      TallyOneMore(s.View(), steps[i], results);
      var r := Take(s, steps[i]);
      FollowsOn(start, steps, results, r);
      results := results + [r];
    }
    assert steps[..|steps|] == steps;
    s.Summary();
    AllKeepEnding(start, steps);
    r := Report(results, Ledger(s.acked, s.inFlight, s.retransmissionQueue, s.sent, s.finSent),
                s.numOutstandingFrames, fc.bytesSent, conn.bytesSent, s.limiterApproved, s.limitedFramed);
  }

  lemma NothingFollows(start: Sender, steps: seq<Step>)
    requires start.Sound() && start.w.accepted == [] && start.d.sent == []
    ensures Follows(start, steps, []) && Tallies(start, []) && DoAll(start, steps[..0]) == start
  {
  }
}
