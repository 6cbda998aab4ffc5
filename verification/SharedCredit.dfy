/**
 Any number of streams sharing one connection controller: up to the first error, what the
 connection counts is the sum of what its streams count, and no window is exceeded.
 */
module SharedCredit {
  import opened Protocol
  import opened FlowControl
  import opened Sums

  /** Initial receive window, its maximum, and initial send window of a stream. */
  datatype Config = Config(receiveWindow: nat, maxReceiveWindow: nat, sendWindow: nat)

  datatype Action =
    | Frame(offset: int, final: bool)
    | Read(n: nat)
    | Abandon
    | Send(n: nat)
    | SendLimited(n: nat, limiter: int -> int)
    | MaxStreamData(offset: int)
    | MaxData(offset: int)
    | StreamUpdate(t: Tuning, connAllow: bool)
    | ConnUpdate(t: Tuning)

  /** An action of one of the streams; on a stream that does not exist, nothing. */
  type Op = (nat, Action)

  // ---------------------------------------------------------------- accounts

  /** What a stream has received, read and sent, and may send. */
  datatype Account = Account(received: int, ended: bool, read: int, sent: int, granted: int)

  function Received(): Account -> int { (a: Account) => a.received }

  function ReadBytes(): Account -> int { (a: Account) => a.read }

  function Sent(): Account -> int { (a: Account) => a.sent }

  /** The account after an action, while the connection may send `room` more. */
  function NextAccount(a: Account, room: int, action: Action): Account {
    match action
    case Frame(offset, final) => a.(received := Max(a.received, offset), ended := a.ended || final)
    case Read(n) => a.(read := a.read + Min(n, a.received - a.read))
    case Abandon => a.(read := a.received)
    case Send(n) => if n <= Min(a.granted - a.sent, room) then a.(sent := a.sent + n) else a
    case SendLimited(n, limiter) =>
      var allowed := Min(n, Min(a.granted - a.sent, room));
      if allowed <= 0 then a else a.(sent := a.sent + Min(Max(limiter(allowed), 0), allowed))
    case MaxStreamData(offset) => a.(granted := Max(a.granted, offset))
    case _ => a
  }

  /** The accounts of all streams, and what they may send together; the connection has none of its own. */
  datatype Ledger = Ledger(streams: seq<Account>, granted: int)
  {
    function Room(): int { granted - Sum(streams, Sent()) }

    function After(op: Op): (l: Ledger)
      ensures |l.streams| == |streams|
    {
      if op.0 >= |streams| then this
      else
        Ledger(streams[op.0 := NextAccount(streams[op.0], Room(), op.1)],
               if op.1.MaxData? then Max(granted, op.1.offset) else granted)
    }

    function AfterAll(ops: seq<Op>): Ledger {
      if ops == [] then this else AfterAll(ops[..|ops| - 1]).After(ops[|ops| - 1])
    }
  }

  function NewAccount(c: Config): Account { Account(0, false, 0, 0, c.sendWindow) }

  function NewLedger(configs: seq<Config>): (l: Ledger)
    ensures |l.streams| == |configs|
  {
    Ledger(seq(|configs|, i requires 0 <= i < |configs| => NewAccount(configs[i])), 0)
  }

  // ---------------------------------------------------------------- one action

  /** The counters of one controller. */
  datatype Counters = Counters(recv: ReceiveWindow, bytesSent: int, sendWindow: int)

  ghost predicate CountersOk(c: Counters, cap: int) {
    WindowOk(c.recv, cap) && 0 <= c.bytesSent <= c.sendWindow
  }

  function StreamCounters(s: StreamFlowController): Counters
    reads s
  {
    Counters(s.recv, s.bytesSent, s.sendWindow)
  }

  function ConnCounters(c: ConnectionFlowController): Counters
    reads c
  {
    Counters(c.recv, c.bytesSent, c.sendWindow)
  }

  /** A stream counts what its account says. */
  predicate Same(c: Counters, a: Account) {
    && c.recv.highestReceived == a.received && c.recv.bytesRead == a.read
    && c.bytesSent == a.sent && c.sendWindow == a.granted
  }

  /** A frame contradicts the end of the stream, or else exceeds a window. */
  ghost predicate RefusedFor(err: FlowError, s: Counters, c: Counters, ended: bool, offset: int, final: bool) {
    var highest := s.recv.highestReceived;
    var wrong := (ended && (offset > highest || (final && offset != highest))) || (final && offset < highest);
    match err
    case NoError => false
    case FinalSizeError => wrong
    case FlowControlError =>
      && !wrong && offset > highest
      && (offset > s.recv.receiveWindow || c.recv.highestReceived + offset - highest > c.recv.receiveWindow)
  }

  /** The connection moves by the same amounts as the account, and its window does not shrink. */
  ghost predicate InStep(a: Account, a': Account, c: Counters, c': Counters, action: Action) {
    && c'.recv.highestReceived - c.recv.highestReceived == a'.received - a.received
    && c'.recv.bytesRead - c.recv.bytesRead == a'.read - a.read
    && c'.bytesSent - c.bytesSent == a'.sent - a.sent
    && c'.recv.receiveWindow >= c.recv.receiveWindow
    && c'.sendWindow == if action.MaxData? then Max(c.sendWindow, action.offset) else c.sendWindow
  }

  /** What a stream and the connection count after an action. */
  ghost predicate Acted(a: Account, s': Counters, c: Counters, c': Counters, action: Action, cap: int, connCap: int) {
    var a' := NextAccount(a, c.sendWindow - c.bytesSent, action);
    CountersOk(s', cap) && CountersOk(c', connCap) && Same(s', a') && InStep(a, a', c, c', action)
  }

  method TakeFrame(s: StreamFlowController, ghost a: Account, offset: int, final: bool, ghost cap: int,
                   ghost connCap: int)
    returns (err: FlowError)
    requires CountersOk(StreamCounters(s), cap) && CountersOk(ConnCounters(s.connection), connCap)
    requires Same(StreamCounters(s), a) && s.receivedFinalOffset == a.ended
    modifies s`recv, s`receivedFinalOffset, s.connection`recv
    ensures err.NoError? ==> s.receivedFinalOffset == (a.ended || final)
    ensures err.NoError? ==>
      Acted(a, StreamCounters(s), old(ConnCounters(s.connection)), ConnCounters(s.connection), Frame(offset, final),
            cap, connCap)
    ensures !err.NoError? ==>
      RefusedFor(err, old(StreamCounters(s)), old(ConnCounters(s.connection)), a.ended, offset, final)
  {
    err := s.UpdateHighestReceived(offset, final);
  }

  method ActSend(s: StreamFlowController, ghost a: Account, action: Action, ghost cap: int, ghost connCap: int)
    requires CountersOk(StreamCounters(s), cap) && CountersOk(ConnCounters(s.connection), connCap)
    requires Same(StreamCounters(s), a)
    requires action.Send? || action.SendLimited? || action.MaxStreamData? || action.MaxData?
    modifies s`bytesSent, s`sendWindow, s.connection`bytesSent, s.connection`sendWindow
    ensures Acted(a, StreamCounters(s), old(ConnCounters(s.connection)), ConnCounters(s.connection), action, cap,
                  connCap)
  {
    hide WindowOk;
    if action.Send? {
      var _ := s.TryAddBytesSent(action.n);
    } else if action.SendLimited? {
      var _, _ := s.AddBytesSentWithLimiter(action.n, action.limiter);
    } else if action.MaxStreamData? {
      var _ := s.UpdateSendWindow(action.offset);
    } else {
      var _ := s.connection.UpdateSendWindow(action.offset);
    }
  }

  method Act(s: StreamFlowController, ghost a: Account, action: Action, threshold: real, ghost cap: int,
             ghost connCap: int)
    returns (err: FlowError)
    requires 0.0 < threshold < 1.0 && Same(StreamCounters(s), a) && s.receivedFinalOffset == a.ended
    requires CountersOk(StreamCounters(s), cap) && CountersOk(ConnCounters(s.connection), connCap)
    requires a.received - a.read <= s.connection.recv.highestReceived - s.connection.recv.bytesRead
    modifies s, s.connection
    ensures err.NoError? ==>
      && s.receivedFinalOffset == (a.ended || (action.Frame? && action.final))
      && Acted(a, StreamCounters(s), old(ConnCounters(s.connection)), ConnCounters(s.connection), action, cap, connCap)
    ensures !err.NoError? ==>
      && action.Frame?
      && RefusedFor(err, old(StreamCounters(s)), old(ConnCounters(s.connection)), a.ended, action.offset, action.final)
  {
    hide RefusedFor;
    err := NoError;
    match action
    case Frame(offset, final) =>
      err := TakeFrame(s, a, offset, final, cap, connCap);
    case Read(m) =>
      var _, _ := s.AddBytesRead(Min(m, s.recv.highestReceived - s.recv.bytesRead), threshold);
    case Abandon =>
      s.Abandon(threshold);
    case StreamUpdate(t, connAllow) =>
      UpdateAdvances(s.recv, threshold, t, cap);
      var _ := s.GetUpdate(threshold, t, connAllow);
    case ConnUpdate(t) =>
      UpdateAdvances(s.connection.recv, threshold, t, connCap);
      var _ := s.connection.GetUpdate(threshold, t);
    case _ =>
      ActSend(s, a, action, cap, connCap);
  }

  // ---------------------------------------------------------------- whole runs

  function Caps(configs: seq<Config>, i: int): int
    requires 0 <= i < |configs|
  {
    Max(configs[i].receiveWindow, configs[i].maxReceiveWindow)
  }

  /** Every stream counts what its account says, and keeps within its windows. */
  ghost predicate StreamsOk(ss: seq<StreamFlowController>, conn: ConnectionFlowController, configs: seq<Config>,
                            l: Ledger)
    reads ss
  {
    && |ss| == |configs| == |l.streams|
    && (forall i, j :: 0 <= i < j < |ss| ==> ss[i] != ss[j])
    && (forall i :: 0 <= i < |ss| ==>
          && ss[i].connection == conn && CountersOk(StreamCounters(ss[i]), Caps(configs, i))
          && Same(StreamCounters(ss[i]), l.streams[i]) && ss[i].receivedFinalOffset == l.streams[i].ended)
  }

  /** The connection counts what its streams count together, and keeps within its windows. */
  ghost predicate ConnOk(c: Counters, l: Ledger, connCap: int) {
    && CountersOk(c, connCap) && c.sendWindow == l.granted
    && c.recv.highestReceived == Sum(l.streams, Received())
    && c.recv.bytesRead == Sum(l.streams, ReadBytes())
    && c.bytesSent == Sum(l.streams, Sent())
  }

  ghost predicate Shared(ss: seq<StreamFlowController>, conn: ConnectionFlowController, configs: seq<Config>, l: Ledger,
                         connCap: int)
    reads ss, conn
  {
    StreamsOk(ss, conn, configs, l) && ConnOk(ConnCounters(conn), l, connCap)
  }

  lemma UnreadBounded(ss: seq<StreamFlowController>, conn: ConnectionFlowController, configs: seq<Config>, l: Ledger,
                      connCap: int, i: int)
    requires Shared(ss, conn, configs, l, connCap) && 0 <= i < |ss|
    ensures l.streams[i].received - l.streams[i].read <= conn.recv.highestReceived - conn.recv.bytesRead
  {
    hide Sum;
    forall k | 0 <= k < |l.streams|
      ensures ReadBytes()(l.streams[k]) <= Received()(l.streams[k])
    {
      assert CountersOk(StreamCounters(ss[k]), Caps(configs, k)) && Same(StreamCounters(ss[k]), l.streams[k]);
    }
    SumBounds(l.streams, ReadBytes(), Received(), i);
  }

  /** An action that moves one account and the connection alike keeps the sums. */
  lemma SumsMove(l: Ledger, i: int, action: Action, s': Counters, c: Counters, c': Counters, cap: int, connCap: int)
    requires 0 <= i < |l.streams| && ConnOk(c, l, connCap) && Acted(l.streams[i], s', c, c', action, cap, connCap)
    ensures ConnOk(c', l.After((i, action)), connCap)
  {
    hide Sum, CountersOk;
    var a' := NextAccount(l.streams[i], l.Room(), action);
    SumUpdate(l.streams, i, a', Received());
    SumUpdate(l.streams, i, a', ReadBytes());
    SumUpdate(l.streams, i, a', Sent());
  }

  method Step(ss: seq<StreamFlowController>, conn: ConnectionFlowController, i: int, action: Action, threshold: real,
              ghost configs: seq<Config>, ghost l: Ledger, ghost connCap: int)
    returns (err: FlowError)
    requires 0.0 < threshold < 1.0 && Shared(ss, conn, configs, l, connCap) && 0 <= i < |ss|
    modifies ss, conn
    ensures err.NoError? ==> Shared(ss, conn, configs, l.After((i, action)), connCap)
    ensures err.NoError? ==> conn.recv.receiveWindow >= old(conn.recv).receiveWindow
    ensures !err.NoError? ==>
      && action.Frame?
      && RefusedFor(err, old(StreamCounters(ss[i])), old(ConnCounters(conn)), l.streams[i].ended,
                    action.offset, action.final)
  {
    hide Sum, CountersOk, RefusedFor;
    UnreadBounded(ss, conn, configs, l, connCap, i);
    ghost var c := ConnCounters(conn);
    err := Act(ss[i], l.streams[i], action, threshold, Caps(configs, i), connCap);
    if err.NoError? {
      SumsMove(l, i, action, StreamCounters(ss[i]), c, ConnCounters(conn), Caps(configs, i), connCap);
    }
  }

  method AddStream(ss: seq<StreamFlowController>, conn: ConnectionFlowController, configs: seq<Config>, config: Config,
                   ghost connCap: int)
    returns (ss': seq<StreamFlowController>)
    requires Shared(ss, conn, configs, NewLedger(configs), connCap)
    ensures Shared(ss', conn, configs + [config], NewLedger(configs + [config]), connCap)
    ensures |ss'| == |ss| + 1 && ss'[..|ss|] == ss && fresh(ss'[|ss|])
  {
    hide Sum;
    var s := new StreamFlowController(conn, config.receiveWindow, config.maxReceiveWindow, config.sendWindow);
    ss' := ss + [s];
    MoreAccounts(configs, config);
    assert forall k :: 0 <= k < |ss| ==> Caps(configs + [config], k) == Caps(configs, k);
  }

  lemma MoreAccounts(configs: seq<Config>, config: Config)
    ensures var l, l' := NewLedger(configs).streams, NewLedger(configs + [config]).streams;
            && Sum(l', Received()) == Sum(l, Received()) && Sum(l', ReadBytes()) == Sum(l, ReadBytes())
            && Sum(l', Sent()) == Sum(l, Sent())
  {
    var l, l' := NewLedger(configs).streams, NewLedger(configs + [config]).streams;
    assert l' == l + [NewAccount(config)] && l'[..|l|] == l;
  }

  lemma SharedByNone(conn: ConnectionFlowController, connCap: int)
    requires CountersOk(ConnCounters(conn), connCap)
    requires conn.recv.highestReceived == conn.recv.bytesRead == conn.bytesSent == conn.sendWindow == 0
    ensures Shared([], conn, [], NewLedger([]), connCap)
  {
  }

  /** Streams as the connection creates them, before anything was sent or received. */
  method NewStreams(conn: ConnectionFlowController, configs: seq<Config>, ghost connCap: int)
    returns (ss: seq<StreamFlowController>)
    requires CountersOk(ConnCounters(conn), connCap)
    requires conn.recv.highestReceived == conn.recv.bytesRead == conn.bytesSent == conn.sendWindow == 0
    ensures |ss| == |configs| && Shared(ss, conn, configs, NewLedger(configs), connCap)
    ensures forall i :: 0 <= i < |ss| ==> fresh(ss[i])
  {
    hide Shared, NewLedger;
    ss := [];
    SharedByNone(conn, connCap);
    assert configs[..0] == [];
    for i := 0 to |configs|
      invariant |ss| == i && forall k :: 0 <= k < i ==> fresh(ss[k])
      invariant Shared(ss, conn, configs[..i], NewLedger(configs[..i]), connCap)
    {
      ghost var before := ss;
      ss := AddStream(ss, conn, configs[..i], configs[i], connCap);
      assert forall k :: 0 <= k < i ==> ss[k] == ss[..i][k] == before[k];
      assert configs[..i] + [configs[i]] == configs[..i + 1];
    }
    assert configs[..|configs|] == configs;
  }

  /**
   Each stream counts what its account says.  The connection has received, read and sent exactly
   what its streams have together; it stays within its send window, and its unread data within its
   receive window size.
   */
  ghost predicate Adds(streams: seq<Counters>, conn: Counters, l: Ledger, connWindow: nat, connMax: nat) {
    && |streams| == |l.streams| && (forall i :: 0 <= i < |streams| ==> Same(streams[i], l.streams[i]))
    && conn.recv.highestReceived == Sum(l.streams, Received()) && conn.recv.bytesRead == Sum(l.streams, ReadBytes())
    && conn.bytesSent == Sum(l.streams, Sent()) && 0 <= conn.bytesSent <= conn.sendWindow == l.granted
    && conn.recv.highestReceived - conn.recv.bytesRead <= conn.recv.receiveWindowSize <= Max(connWindow, connMax)
    && connWindow <= conn.recv.receiveWindow
  }

  method Snapshot(ss: seq<StreamFlowController>, conn: ConnectionFlowController, configs: seq<Config>, connWindow: nat,
                  connMax: nat, ghost l: Ledger)
    returns (cs: seq<Counters>, c: Counters)
    requires Shared(ss, conn, configs, l, Max(connWindow, connMax)) && connWindow <= conn.recv.receiveWindow
    ensures Adds(cs, c, l, connWindow, connMax) && c == ConnCounters(conn)
    ensures |cs| == |ss| && forall i :: 0 <= i < |ss| ==> cs[i] == StreamCounters(ss[i])
  {
    hide Sum;
    cs := seq(|ss|, i requires 0 <= i < |ss| reads ss => StreamCounters(ss[i]));
    c := ConnCounters(conn);
  }

  lemma LedgerGoesOn(l: Ledger, ops: seq<Op>, k: nat)
    requires k < |ops|
    ensures l.AfterAll(ops[..k + 1]) == l.AfterAll(ops[..k]).After(ops[k])
    ensures l.AfterAll([]) == l
  {
    hide Ledger.After;
    assert ops[..k + 1][..k] == ops[..k];
  }

  lemma {:induction false} SameStreams(l: Ledger, ops: seq<Op>)
    ensures |l.AfterAll(ops).streams| == |l.streams|
  {
    if ops != [] {
      SameStreams(l, ops[..|ops| - 1]);
    }
  }

  /**
   Any sequence of actions on any of the streams, up to the first error: `done` of them were taken,
   and left the counters; the next one, if there is one, is a frame that was refused.
   */
  method Run(configs: seq<Config>, connWindow: nat, connMax: nat, threshold: real, ops: seq<Op>)
    returns (err: FlowError, done: nat, streams: seq<Counters>, conn: Counters)
    requires 0.0 < threshold < 1.0
    ensures done <= |ops| && Adds(streams, conn, NewLedger(configs).AfterAll(ops[..done]), connWindow, connMax)
    ensures err.NoError? <==> done == |ops|
    ensures !err.NoError? ==>
      var (i, action) := ops[done];
      var l := NewLedger(configs).AfterAll(ops[..done]);
      && i < |streams| == |l.streams| && action.Frame?
      && RefusedFor(err, streams[i], conn, l.streams[i].ended, action.offset, action.final)
  {
    hide Shared, Adds, RefusedFor, NewLedger, Ledger.AfterAll;
    var c := new ConnectionFlowController(connWindow, connMax);
    var ss := NewStreams(c, configs, Max(connWindow, connMax));
    ghost var l := NewLedger(configs);
    SameStreams(l, ops[..0]);
    assert l.AfterAll(ops[..0]) == l by {
      NoOps(l);
    }
    err, done := NoError, 0;
    streams, conn := Snapshot(ss, c, configs, connWindow, connMax, l);
    while done < |ops|
      invariant done <= |ops| && |ss| == |configs| && fresh(c) && forall k :: 0 <= k < |ss| ==> fresh(ss[k])
      invariant Shared(ss, c, configs, l.AfterAll(ops[..done]), Max(connWindow, connMax))
      invariant connWindow <= c.recv.receiveWindow && err.NoError?
      invariant Adds(streams, conn, l.AfterAll(ops[..done]), connWindow, connMax)
      invariant conn == ConnCounters(c) && |streams| == |ss| == |l.AfterAll(ops[..done]).streams|
      invariant forall i :: 0 <= i < |ss| ==> streams[i] == StreamCounters(ss[i])
    {
      LedgerGoesOn(l, ops, done);
      if ops[done].0 < |ss| {
        err := Step(ss, c, ops[done].0, ops[done].1, threshold, configs, l.AfterAll(ops[..done]),
                    Max(connWindow, connMax));
        if !err.NoError? {
          return;
        }
      }
      done := done + 1;
      SameStreams(l, ops[..done]);
      streams, conn := Snapshot(ss, c, configs, connWindow, connMax, l.AfterAll(ops[..done]));
    }
  }

  lemma NoOps(l: Ledger)
    ensures l.AfterAll([]) == l
  {
  }
}
