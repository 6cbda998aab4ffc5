/**
 A sending stream seen from outside: what it was given, what it sent, and what it may send.  There
 is no buffered frame and no slice being copied, only byte counts.
 */
module Senders {
  import opened Protocol
  import opened Wire
  import opened FrameLedger

  /** What fits a packet buffer; a write that leaves no more than that returns at once. */
  const MAX_PACKET_BUFFER_SIZE: int := 1452

  datatype WriteError = Ok | WriteOnClosed | Deadline | LimitReached

  datatype WriteResult = Returned(n: int, err: WriteError) | Blocked

  /** A frame, a limit reported as blocking, and whether there is more to send. */
  datatype Popped = Popped(frame: Option<StreamFrame>, blocked: Option<int>, hasMore: bool)

  /** `accepted` is what finished writes took, and `current` the slice of a write in progress. */
  datatype Writing = Writing(
    accepted: seq<byte>, writing: bool, current: seq<byte>, limiter: Option<int -> int>, limited: bool)
  {
    /** The write in progress returns, having passed on `n` bytes. */
    function Finish(n: int): Writing
      requires 0 <= n <= |current|
    {
      Writing(accepted + current[..n], false, [], None, false)
    }
  }

  /** Frames are in flight until they are acknowledged or lost. */
  datatype Sending = Sending(
    sent: seq<byte>, closed: bool, finSent: bool, completed: bool,
    acked: seq<StreamFrame>, inFlight: seq<StreamFrame>, lost: seq<StreamFrame>)
  {
    /** A first-time frame goes out. */
    function Emit(f: StreamFrame): Sending { this.(inFlight := inFlight + [f], finSent := finSent || f.fin) }

    /** The first lost frame goes out again, or as much of it as fits. */
    function Resend(streamID: int, maxBytes: int): (Sending, Popped)
      requires lost != [] && maxBytes <= LONGEST_PACKET
    {
      var (head, rest, split) := MaybeSplitOff(streamID, lost[0], maxBytes);
      if !split then (this.(lost := lost[1..], inFlight := inFlight + [lost[0]]), Popped(Some(lost[0]), None, true))
      else if head.None? then (this, Popped(None, None, true))
      else (this.(lost := lost[0 := rest], inFlight := inFlight + [head.value]), Popped(head, None, true))
    }

    predicate Done() { finSent && inFlight == [] && lost == [] }

    /** Completion is noticed when an acknowledgement arrives. */
    function Ack(i: nat): (Sending, bool)
      requires i < |inFlight|
    {
      var newly := !completed && Move(i).Done();
      (Move(i).(completed := completed || newly), newly)
    }

    /** Frame `i` of those in flight is acknowledged. */
    function Move(i: nat): Sending
      requires i < |inFlight|
    {
      this.(acked := acked + [inFlight[i]], inFlight := Without(inFlight, i))
    }

    function Lose(i: nat): Sending
      requires i < |inFlight|
    {
      this.(lost := lost + [inFlight[i]], inFlight := Without(inFlight, i))
    }
  }

  /** What may be sent, here and on the connection; if `reserved`, credit was taken for all that was accepted. */
  datatype Credit = Credit(reserved: bool, granted: int, connGranted: int, others: int, blockedAt: int)

  /** A stream; `signal` is the wake-up for a write that waits. */
  datatype Sender = Sender(streamID: int, w: Writing, d: Sending, c: Credit, signal: bool)
  {
    function All(): seq<byte> { w.accepted + w.current }

    function Unsent(): int { |w.accepted| + |w.current| - |d.sent| }

    /** Accepted bytes that were not sent. */
    function Buffered(): int { Max(0, |w.accepted| - |d.sent|) }

    /** Bytes of the write in progress that were not sent. */
    function Rest(): int { Unsent() - Buffered() }

    function Charged(): int { |d.sent| + (if c.reserved then Buffered() else 0) }

    function Room(): int { Min(c.granted - Charged(), c.connGranted - Charged() - c.others) }

    /** All that is left fits a packet, so that a write need not wait. */
    predicate CanBuffer() { w.limiter.None? && !c.reserved && Unsent() <= MAX_PACKET_BUFFER_SIZE }

    /** Nothing was sent but what was given. */
    predicate Sound() { d.sent <= All() && (!w.writing ==> |w.current| == 0) }

    // ---------------------------------------------------------------- writing

    /** The write in progress goes round its loop. */
    function Go(expired: bool): (Writing, WriteResult)
      requires 0 <= Rest() <= |w.current|
    {
      var n := |w.current| - Rest();
      if w.limited then (w.Finish(n), Returned(n, if n == |w.current| then Ok else LimitReached))
      else if CanBuffer() && Rest() > 0 then (w.Finish(|w.current|), Returned(|w.current|, Ok))
      else if expired then (w.Finish(n), Returned(n, Deadline))
      else if Rest() == 0 then (w.Finish(n), Returned(n, Ok))
      else (w, Blocked)
    }

    function Write(p: seq<byte>, limiter: Option<int -> int>, expired: bool): (Writing, WriteResult)
      requires |d.sent| <= |w.accepted|
    {
      if d.closed then (w, Returned(0, WriteOnClosed))
      else if expired then (w, Returned(0, Deadline))
      else if p == [] then (w, Returned(0, Ok))
      else this.(w := Writing(w.accepted, true, p, limiter, false)).Go(expired)
    }

    /** Is there credit for `n` more bytes than were accepted? */
    predicate MayAccept(n: nat) {
      var need := |w.accepted| + n;
      need <= c.granted && need + c.others <= c.connGranted
    }

    /** All of `p` is accepted, with credit for it, or nothing. */
    function TryWriteAll(p: seq<byte>): (Sender, WriteError, bool) {
      if w.writing then (this, Ok, true)
      else if d.closed then (this, WriteOnClosed, false)
      else if p == [] then (this, Ok, false)
      else if !MayAccept(|p|) then (this, Ok, true)
      else (this.(w := w.(accepted := w.accepted + p), c := c.(reserved := true)), Ok, false)
    }

    // ---------------------------------------------------------------- popping

    /** What other streams take of the connection's credit when they want `wanted`. */
    function Taken(wanted: nat): nat { if wanted <= c.connGranted - Charged() - c.others then wanted else 0 }

    /** How much new data a packet gets at first sight. */
    function Want(maxBytes: int): int {
      var credit := if c.reserved then Buffered() else Room();
      var fit := Min(credit, MaxStreamDataLen(streamID, |d.sent|, true, maxBytes));
      Min(fit, if Buffered() > 0 then Buffered() else Rest())
    }

    /** How much of it there is credit for, and whether the limiter held back. */
    function Grant(want: int): (int, bool) {
      if w.limiter.Some? && Buffered() == 0 then
        var allowed := Min(want, Room());
        if allowed <= 0 then (0, false)
        else
          var added := Min(Max(w.limiter.value(allowed), 0), allowed);
          (added, added < allowed)
      else if c.reserved || want <= Room() then (want, false)
      else (0, false)
    }

    /** The next `n` bytes. */
    function Next(n: int): StreamFrame
      requires 0 <= n <= Unsent() && |d.sent| <= |All()|
    {
      StreamFrame(|d.sent|, All()[|d.sent|..|d.sent| + n], d.closed && n == Unsent() && !d.finSent, true)
    }

    /** The next `n` bytes are taken; a write in progress is woken up when what was buffered, or all, is gone. */
    function Take(n: int): Sender
      requires 0 <= n <= Unsent() && |d.sent| <= |All()|
    {
      var s := this.(d := d.(sent := d.sent + Next(n).data), c := c.(reserved := c.reserved && n < Buffered()));
      s.(signal := signal || (if Buffered() > 0 then n == Buffered() else s.Rest() == 0 || s.CanBuffer()))
    }

    function Emit(f: StreamFrame): Sender { this.(d := d.Emit(f)) }

    /** New data, as far as credit and packet allow; other streams get `wanted` of the credit first. */
    function PopNew(maxBytes: int, wanted: nat): (Sender, Popped)
      requires |d.sent| <= |All()|
    {
      if w.limited then (this, Popped(None, None, false))
      else if Unsent() == 0 then
        if d.closed && !d.finSent then (Emit(Next(0)), Popped(Some(Next(0)), None, false))
        else (this, Popped(None, None, false))
      else if Want(maxBytes) <= 0 then (this, Popped(None, None, true))
      else this.(c := c.(others := c.others + Taken(wanted))).Spend(Want(maxBytes))
    }

    function Hold(held: bool): Sender {
      if held then this.(w := w.(limited := true), signal := true) else this
    }

    /** Up to `want` bytes are charged and sent. */
    function Spend(want: int): (Sender, Popped)
      requires 0 < want <= Unsent() && |d.sent| <= |All()|
    {
      var (n, held) := Grant(want);
      if n <= 0 || n > want then (Hold(held), Popped(None, None, !held)) else Hold(held).SendNow(n, held)
    }

    function SendNow(n: int, held: bool): (Sender, Popped)
      requires 0 < n <= Unsent() && |d.sent| <= |All()|
    {
      var t := Take(n).Emit(Next(n));
      var blocked := t.Charged() >= c.granted && c.granted != c.blockedAt;
      (if blocked then t.(c := t.c.(blockedAt := c.granted)) else t,
       Popped(Some(Next(n)), if blocked then Some(c.granted) else None,
              !held && (n < Unsent() || (Buffered() == 0 && d.closed))))
    }

    /** What was lost goes out first. */
    function Pop(maxBytes: int, wanted: nat): (Sender, Popped)
      requires |d.sent| <= |All()| && maxBytes <= LONGEST_PACKET
    {
      if d.lost != [] then
        var (d', popped) := d.Resend(streamID, maxBytes);
        (this.(d := d'), popped)
      else PopNew(maxBytes, wanted)
    }
  }

  /** When a state `t` is the one after `n` bytes of `s` were taken. */
  lemma TakeIs(s: Sender, t: Sender, n: int, data: seq<byte>)
    requires 0 < n <= s.Unsent() && |s.d.sent| <= |s.All()| && data == s.All()[|s.d.sent|..|s.d.sent| + n]
    requires t == Sender(s.streamID, s.w, s.d.(sent := s.d.sent + data),
                         s.c.(reserved := s.c.reserved && n < s.Buffered()), t.signal)
    requires t.signal == (s.signal || (if s.Buffered() > 0 then n == s.Buffered() else t.Rest() == 0 || t.CanBuffer()))
    ensures t == s.Take(n) && data == s.Next(n).data
  {
  }

  lemma NextIs(s: Sender, n: int)
    requires 0 <= n <= s.Unsent() && |s.d.sent| <= |s.All()|
    ensures |s.Next(n).data| == n
    ensures s.Next(n) == StreamFrame(|s.d.sent|, s.Next(n).data, s.d.closed && n == s.Unsent() && !s.d.finSent, true)
  {
  }

  // ---------------------------------------------------------------- what writes and pops promise

  /** A write that goes round its loop keeps what was sent within what it passed on. */
  lemma GoSound(s: Sender, expired: bool)
    requires s.Sound()
    ensures 0 <= s.Rest() <= |s.w.current|
    ensures var (w, r) := s.Go(expired);
            && s.(w := w, signal := false).Sound() && s.(w := w).Sound()
            && (r.Returned? ==> 0 <= r.n <= |s.w.current| && w.accepted == s.w.accepted + s.w.current[..r.n])
            && (r == Blocked ==> w == s.w)
  {
    var n := |s.w.current| - s.Rest();
    PrefixOfShorter(s.w.accepted, s.w.current, s.d.sent, n);
    PrefixOfShorter(s.w.accepted, s.w.current, s.d.sent, |s.w.current|);
  }

  /**
   A write on a closed stream or after the deadline fails and leaves everything as it is.  Otherwise it
   returns at once, in full, exactly if what is unsent then fits a packet.
   */
  lemma WriteReturnsIff(s: Sender, p: seq<byte>, expired: bool)
    requires s.Sound() && !s.w.writing
    ensures var (w, r) := s.Write(p, None, expired);
            && (s.d.closed ==> r == Returned(0, WriteOnClosed) && w == s.w)
            && (!s.d.closed && expired ==> r == Returned(0, Deadline) && w == s.w)
            && (!s.d.closed && !expired && !s.c.reserved && p != [] ==>
                  if |s.w.accepted| + |p| - |s.d.sent| <= MAX_PACKET_BUFFER_SIZE then r == Returned(|p|, Ok)
                  else r == Blocked)
  {
  }

  /** When a write that waited ends, and how: all of it counts once the rest fits a packet, else what was sent. */
  lemma WriteEnds(s: Sender, expired: bool)
    requires s.Sound() && s.w.writing
    ensures 0 <= s.Rest() <= |s.w.current|
    ensures var r, sent := s.Go(expired).1, |s.w.current| - s.Rest();
            && (r == Blocked <==> !s.w.limited && !s.CanBuffer() && !expired && sent < |s.w.current|)
            && (r.Returned? ==>
                  && (r.err == LimitReached <==> s.w.limited && sent < |s.w.current|)
                  && (r.err == Deadline ==> expired) && r.err != WriteOnClosed
                  && (r.err == Ok ==> r.n == |s.w.current|) && (r.err != Ok ==> r.n == sent))
            && (sent == |s.w.current| && !expired ==> r == Returned(sent, Ok))
            && (expired && !s.w.limited && !s.CanBuffer() ==> r == Returned(sent, Deadline))
  {
    GoSound(s, expired);
  }

  /** `p` is accepted exactly if the credit that is left covers it, on both levels. */
  lemma TryWriteAllIff(s: Sender, p: seq<byte>)
    requires s.Sound()
    ensures var (t, err, wouldBlock) := s.TryWriteAll(p);
            && (s.w.writing ==> t == s && wouldBlock)
            && (!s.w.writing && s.d.closed ==> t == s && err == WriteOnClosed)
            && (!s.w.writing && !s.d.closed && p == [] ==> t == s && err == Ok && !wouldBlock)
            && (!s.w.writing && !s.d.closed && p != [] ==>
                  var u := s.(w := s.w.(accepted := s.w.accepted + p), c := s.c.(reserved := true));
                  err == Ok && (wouldBlock <==> u.Room() < 0) && t == (if wouldBlock then s else u))
  {
  }

  lemma PrefixOfShorter(a: seq<byte>, b: seq<byte>, p: seq<byte>, n: int)
    requires p <= a + b && 0 <= n <= |b| && |p| <= |a| + n
    ensures p <= a + b[..n] && (a + b[..n]) + [] == a + b[..n]
  {
    assert (a + b)[..|a| + n] == a + b[..n];
  }

  lemma NextSound(s: Sender, n: int)
    requires s.Sound() && 0 <= n <= s.Unsent()
    ensures s.d.sent + s.Next(n).data <= s.All()
  {
    assert s.All()[..|s.d.sent| + n] == s.d.sent + s.Next(n).data;
  }

  /** What is popped, and what is left. */
  lemma PopSays(s: Sender, maxBytes: int, others: nat)
    requires s.Sound() && maxBytes <= LONGEST_PACKET
    ensures var (t, p) := s.Pop(maxBytes, others);
            && t.Sound() && t.w.accepted == s.w.accepted && t.w.current == s.w.current && t.w.writing == s.w.writing
            // a retransmission, or the next bytes of the stream
            && (p.frame.None? ==> t.d == s.d)
            && (p.frame.Some? ==>
                  var f := p.frame.value;
                  if s.d.lost != []
                  then t.d.sent == s.d.sent && f.offset == s.d.lost[0].offset && f.data <= s.d.lost[0].data
                  else f.offset == |s.d.sent| && t.d.sent == s.d.sent + f.data)
            // new frames are not empty, except for a FIN, which comes with the last byte or behind it, once
            && (p.frame.Some? && s.d.lost == [] ==>
                  && (p.frame.value.data != [] || p.frame.value.fin)
                  && (p.frame.value.fin <==> s.d.closed && !s.d.finSent && t.Unsent() == 0))
            // a limit is reported when new data uses it up, once
            && (p.blocked.Some? <==>
                  t.d.sent != s.d.sent && t.Charged() >= s.c.granted && s.c.blockedAt != s.c.granted)
            && (p.blocked.Some? ==> p.blocked.value == s.c.granted)
            && t.c.blockedAt == (if p.blocked.Some? then s.c.granted else s.c.blockedAt)
            // nothing is left behind when it says that there is no more
            && (!p.hasMore ==>
                  && t.d.lost == [] && (t.Unsent() == 0 || t.w.limited)
                  && (t.d.closed ==> t.d.finSent || t.w.limited))
  {
    hide Sender.Spend, Sender.Want, Sender.Taken, Sending.Resend, MaxStreamDataLen;
    if s.d.lost != [] {
      ResendSays(s.d, s.streamID, maxBytes);
    } else if !s.w.limited {
      if s.Unsent() == 0 {
        NextIs(s, 0);
      } else if s.Want(maxBytes) > 0 {
        WantFits(s, maxBytes);
        SpendSays(s.(c := s.c.(others := s.c.others + s.Taken(others))), s.Want(maxBytes));
      }
    }
  }

  /** Packet, credit and data at hand allow a frame with the next `m` bytes. */
  predicate Allowed(s: Sender, maxBytes: int, m: int) {
    && 0 < m <= (if s.Buffered() > 0 then s.Buffered() else s.Rest())
    && m <= (if s.c.reserved then s.Buffered() else s.Room())
    && StreamFrameLen(s.streamID, |s.d.sent|, m, true) <= maxBytes
  }

  lemma WantIsLargest(s: Sender, maxBytes: int, m: int)
    requires s.Sound() && maxBytes <= LONGEST_PACKET && m > 0
    ensures Allowed(s, maxBytes, m) <==> m <= s.Want(maxBytes) && (s.c.reserved || m <= s.Room())
  {
    MaxStreamDataLenIsMaximal(s.streamID, |s.d.sent|, true, maxBytes, m);
    hide MaxStreamDataLen, StreamFrameLen;
  }

  /** New data goes out as far as packet, credit and data at hand allow, and no limiter holds it back. */
  lemma PopIsLargest(s: Sender, maxBytes: int, m: int)
    requires s.Sound() && maxBytes <= LONGEST_PACKET && s.d.lost == [] && !s.w.limited && m > 0
    requires s.w.limiter.None? || s.Buffered() > 0
    ensures var f := s.Pop(maxBytes, 0).1.frame;
            Allowed(s, maxBytes, m) <==> s.Unsent() > 0 && f.Some? && m <= |f.value.data|
  {
    hide Allowed, MaxStreamDataLen, StreamFrameLen;
    WantIsLargest(s, maxBytes, m);
    if s.Unsent() > 0 {
      var want := s.Want(maxBytes);
      WantFits(s, maxBytes);
      if want > 0 {
        NextIs(s, want);
      }
    }
  }

  /**
   A limiter is asked about the largest number `m` that packet, credit and data at hand allow, and what it
   allows of that goes out; less than that ends the write.
   */
  lemma PopObeysLimiter(s: Sender, maxBytes: int, m: int)
    requires s.Sound() && maxBytes <= LONGEST_PACKET && s.d.lost == [] && !s.w.limited
    requires s.w.limiter.Some? && s.Buffered() == 0 && !s.c.reserved
    requires Allowed(s, maxBytes, m) && !Allowed(s, maxBytes, m + 1)
    ensures var (t, p) := s.Pop(maxBytes, 0);
            var n := Min(Max(s.w.limiter.value(m), 0), m);
            && (if n > 0 then p.frame.Some? && |p.frame.value.data| == n else p.frame.None?)
            && (t.w.limited <==> n < m)
  {
    hide MaxStreamDataLen, StreamFrameLen;
    WantIsLargest(s, maxBytes, m);
    WantIsLargest(s, maxBytes, m + 1);
    WantFits(s, maxBytes);
    var n := Min(Max(s.w.limiter.value(m), 0), m);
    if n > 0 {
      NextIs(s, n);
    }
  }

  lemma WantFits(s: Sender, maxBytes: int)
    requires s.Sound()
    ensures s.Want(maxBytes) <= s.Unsent()
  {
  }

  lemma ResendSays(d: Sending, streamID: int, maxBytes: int)
    requires d.lost != [] && maxBytes <= LONGEST_PACKET
    ensures var (e, p) := d.Resend(streamID, maxBytes);
            && e == d.(lost := e.lost, inFlight := e.inFlight) && (p.frame.None? ==> e == d) && p.hasMore
            && (p.frame.Some? ==> p.frame.value.offset == d.lost[0].offset && p.frame.value.data <= d.lost[0].data)
            && p.blocked.None? && (p.frame.Some? ==> Length(streamID, p.frame.value) <= maxBytes)
            // all of it if that fits, and otherwise as much as fits
            && (Length(streamID, d.lost[0]) <= maxBytes ==> p.frame == Some(d.lost[0]) && e.lost == d.lost[1..])
            && (p.frame.None? ==> StreamFrameLen(streamID, d.lost[0].offset, 1, d.lost[0].dataLenPresent) > maxBytes)
            && (p.frame.Some? && p.frame.value != d.lost[0] ==>
                  StreamFrameLen(streamID, d.lost[0].offset, |p.frame.value.data| + 1, d.lost[0].dataLenPresent)
                  > maxBytes)
  {
    hide MaxStreamDataLen, StreamFrameLen;
  }

  lemma SpendSays(s: Sender, want: int)
    requires s.Sound() && 0 < want <= s.Unsent() && !s.w.limited && s.d.lost == []
    ensures var (t, p) := s.Spend(want);
            && t.Sound() && t.w.accepted == s.w.accepted && t.w.current == s.w.current && t.w.writing == s.w.writing
            && (p.frame.None? ==> t.d == s.d)
            && (p.frame.Some? ==>
                  && p.frame.value.offset == |s.d.sent| && t.d.sent == s.d.sent + p.frame.value.data
                  && t.d.sent != s.d.sent && p.frame.value.data != []
                  && (p.frame.value.fin <==> s.d.closed && !s.d.finSent && t.Unsent() == 0)
                  && (!t.w.limited ==> (p.hasMore <==> t.Unsent() > 0 || (s.Buffered() == 0 && s.d.closed))))
            && (p.blocked.Some? <==>
                  t.d.sent != s.d.sent && t.Charged() >= s.c.granted && s.c.blockedAt != s.c.granted)
            && (p.blocked.Some? ==> p.blocked.value == s.c.granted)
            && t.c.blockedAt == (if p.blocked.Some? then s.c.granted else s.c.blockedAt)
            && (!p.hasMore ==>
                  && t.d.lost == [] && (t.Unsent() == 0 || t.w.limited)
                  && (t.d.closed ==> t.d.finSent || t.w.limited))
  {
    var (n, held) := s.Grant(want);
    if 0 < n <= want {
      NextSound(s, n);
      NextIs(s, n);
    }
  }

  /**
   Pops make progress: with data and credit, and no limiter and no other stream in between, a packet
   that fits a byte gets a frame.
   */
  lemma PopProgress(s: Sender, maxBytes: int)
    requires s.Sound() && maxBytes <= LONGEST_PACKET && s.d.lost == [] && s.w.limiter.None? && !s.w.limited
    requires s.Unsent() > 0 && MaxStreamDataLen(s.streamID, |s.d.sent|, true, maxBytes) > 0
    requires (s.c.reserved ==> s.Buffered() > 0) && (s.c.reserved || s.Room() > 0)
    ensures s.Pop(maxBytes, 0).1.frame.Some?
  {
    hide MaxStreamDataLen;
  }

  /**
   A write that waits while the next frame is not sent completely gets no wake-up, even if it could
   go on: with 1400 bytes accepted, a write of 100 bytes waits; popping 200 of the 1400 bytes makes
   room for it, but wakes it up only when the other 1200 are gone.
   */
  lemma LateWakeUp(s: Sender, p: seq<byte>, n: int)
    requires s.Sound() && !s.w.writing && !s.d.closed && !s.c.reserved && !s.signal
    requires |p| > 0 && 0 < n < s.Buffered() && s.Buffered() - n + |p| <= MAX_PACKET_BUFFER_SIZE < s.Buffered() + |p|
    ensures var (w, r) := s.Write(p, None, false);
            && r == Blocked
            && var t := s.(w := w);
            n <= t.Unsent() && |t.d.sent| <= |t.All()| && t.Take(n).CanBuffer() && !t.Take(n).signal
            && t.Buffered() <= t.Unsent() && t.Take(t.Buffered()).signal
  {
  }

  function NewSender(streamID: int, granted: int, connGranted: int, others: int): Sender {
    Sender(streamID, Writing([], false, [], None, false), Sending([], false, false, false, [], [], []),
           Credit(false, granted, connGranted, others, 0), false)
  }
}
