/**
 The sending side of the crypto streams.  The client's Initial stream scrambles its ClientHello:
 it sends the parts outside the cuts first and the cuts last.
 */
module CryptoStreams {
  import opened Protocol
  import opened Wire
  import opened ClientHello
  import opened CryptoPlan

  const NO_PLAN := Plan(NO_CUT, NO_CUT, 0)

  /** The plan follows from the ClientHello, once that is complete. */
  ghost predicate Planned(p: Plan, written: seq<byte>) {
    0 <= p.end <= |written|
    && var r := FindSniAndEch(written[..p.end]);
    r.Found? && (r.sniPos != -1 || r.echPos != -1) && p == PlanFor(r, p.end)
  }

  /** If the whole of what was written is a ClientHello, it is the one that was planned for. */
  lemma Rediscovered(p: Plan, written: seq<byte>)
    requires Planned(p, written) && FindSniAndEch(written).Found?
    ensures var r := FindSniAndEch(written);
            p == PlanFor(r, |written|) && (r.sniPos != -1 || r.echPos != -1)
  {
    hide FindSniAndEch, PlanFor;
    if p.end < |written| {
      assert written == written[..p.end] + written[p.end..];
      LongerIsIncomplete(written[..p.end], written[p.end..]);
    } else {
      assert written[..p.end] == written;
    }
  }

  lemma NoPlan(written: seq<byte>)
    ensures !Planned(NO_PLAN, written)
  {
  }

  /** What is written after a complete ClientHello does not make another one. */
  lemma CompleteOnce(p: Plan, written: seq<byte>, more: seq<byte>)
    ensures Planned(p, written) && |more| > 0 ==> !FindSniAndEch(written + more).Found?
  {
    hide FindSniAndEch, PlanFor;
    if Planned(p, written) && |more| > 0 {
      assert written + more == written[..p.end] + (written[p.end..] + more);
      LongerIsIncomplete(written[..p.end], written[p.end..] + more);
    }
  }

  lemma PlannedGrow(p: Plan, written: seq<byte>, more: seq<byte>)
    requires Planned(p, written)
    ensures Planned(p, written + more)
  {
    assert (written + more)[..p.end] == written[..p.end];
  }

  class CryptoStream {
    var writeOffset: int
    var writeBuf: seq<byte>
    var scramble: bool
    var end: int
    const cuts: array<Cut>

    /** A record of the run: everything written, the frames popped, and the plan they follow. */
    var written: seq<byte>
    var frames: seq<CryptoFrame>
    var plan: Plan
    /** What was sent of the cuts before they were started over. */
    var again: seq<Cut>
    /** Where the part that was popped from the back starts. */
    ghost var tail: int

    ghost predicate Valid()
      reads this, cuts
    {
      && cuts.Length == 2 && PlanOk(plan) && Faithful(frames, written, plan)
      && 0 <= writeOffset <= tail <= |written|
      && if scramble then ScramblingOk() else PlainOk()
    }

    ghost predicate ScramblingOk()
      requires cuts.Length == 2
      reads this, cuts
    {
      && tail == |written| && writeBuf == written && end == plan.end && writeOffset <= end <= |written|
      && Remains(plan.a, cuts[0]) && Remains(plan.b, cuts[1])
      && Balance(frames, plan, cuts[0], cuts[1], writeOffset, |written|, |written|, again)
      && (writeOffset < end ==> cuts[0] == plan.a && cuts[1] == plan.b && InPass(plan, writeOffset))
      && (Live(cuts[0]) ==> cuts[1] == plan.b)
      && AgainOk(again, plan.end) && (Live(plan.a) && plan.a.start == plan.a.end ==> again == [])
      && ((plan == NO_PLAN && frames == [] && again == []) || Planned(plan, written))
    }

    ghost predicate PlainOk()
      reads this
    {
      && plan.end <= writeOffset && 0 <= writeOffset <= tail <= |written| && writeBuf == written[writeOffset..tail]
      && NonEmpty(plan.a) && NonEmpty(plan.b) && (plan == NO_PLAN || Planned(plan, written))
      && Balance(frames, plan, NO_CUT, NO_CUT, writeOffset, tail, |written|, again) && AgainOk(again, plan.end)
    }

    constructor (scramble: bool)
      ensures Valid() && Busy() && this.scramble == scramble && written == [] && frames == [] && plan == NO_PLAN
      ensures again == [] && tail == 0 && fresh(cuts)
    {
      writeOffset, writeBuf, this.scramble, end := 0, [], scramble, 0;
      cuts := new Cut[2](_ => NO_CUT);
      written, frames, plan, tail, again := [], [], NO_PLAN, 0, [];
      new;
      StartBalance(NO_PLAN, 0);
    }

    /** While the ClientHello is incomplete, there is nothing to send yet. */
    predicate HasData()
      requires cuts.Length == 2
      reads this, cuts
    {
      if scramble && writeOffset == 0 && cuts[0].start == INVALID_BYTE_COUNT then false else |writeBuf| > 0
    }

    /** How much is still to be sent. */
    function Left(): int
      requires cuts.Length == 2
      reads this, cuts
    {
      if scramble then 1 + |writeBuf| - writeOffset + Size(cuts[0]) + Size(cuts[1]) else |writeBuf|
    }

    /** A stream that still scrambles has a cut to send. */
    predicate Busy()
      requires cuts.Length == 2
      reads this, cuts
    {
      scramble && end > 0 ==> Live(cuts[0]) || Live(cuts[1])
    }

    // ---------------------------------------------------------------- popping

    /** Pops a frame from the front of what is queued. */
    method PopFront(maxLen: int) returns (f: Option<CryptoFrame>)
      requires Valid() && !scramble
      modifies this`writeBuf, this`writeOffset, this`frames
      ensures Valid()
      ensures f.None? <==> MaxCryptoDataLen(old(writeOffset), maxLen) == 0 || old(writeBuf) == []
      ensures f.Some? ==> Left() < old(Left())
      ensures f.Some? ==> |f.value.data| > 0 && f.value.offset == old(writeOffset)
                          && |f.value.data| == Min(MaxCryptoDataLen(old(writeOffset), maxLen), |old(writeBuf)|)
      ensures frames == if f.Some? then old(frames) + [f.value] else old(frames)
      ensures f.Some? ==> old(writeBuf) == f.value.data + writeBuf && writeOffset == old(writeOffset) + |f.value.data|
      ensures f.None? ==> unchanged(this)
    {
      hide Balance, Faithful;
      var n := Min(MaxCryptoDataLen(writeOffset, maxLen), |writeBuf|);
      if n <= 0 {
        return None;
      }
      var frame := CryptoFrame(writeOffset, writeBuf[..n]);
      FrontBalance(frames, plan, frame, writeOffset, tail, |written|, again);
      FaithfulAppend(frames, frame, written, plan);
      writeBuf := writeBuf[n..];
      writeOffset := writeOffset + n;
      frames := frames + [frame];
      f := Some(frame);
    }

    /** Pops `dataLen` bytes from the back of what is queued; the write offset stays. */
    method PopCryptoFrameTail(dataLen: int) returns (f: Option<CryptoFrame>)
      requires Valid() && !scramble
      modifies this`writeBuf, this`tail, this`frames
      ensures Valid()
      ensures f.Some? <==> 0 < dataLen <= |old(writeBuf)|
      ensures f.Some? ==>
        && writeBuf == old(writeBuf)[..|old(writeBuf)| - dataLen]
        && tail == writeOffset + |writeBuf| == old(tail) - dataLen
        && f.value == CryptoFrame(tail, old(writeBuf)[|old(writeBuf)| - dataLen..])
        && frames == old(frames) + [f.value]
      ensures f.None? ==> unchanged(this)
    {
      hide Balance, Faithful;
      if dataLen <= 0 || dataLen > |writeBuf| {
        return None;
      }
      var n := |writeBuf| - dataLen;
      var frame := CryptoFrame(writeOffset + n, writeBuf[n..]);
      TailBalance(frames, plan, frame, writeOffset, tail, |written|, again);
      FaithfulAppend(frames, frame, written, plan);
      writeBuf := writeBuf[..n];
      tail := frame.offset;
      frames := frames + [frame];
      f := Some(frame);
    }

    /** Pops a frame from the start of cut `i`; nothing if the cut is empty or no byte fits. */
    method PopFromCut(i: nat, maxLen: int) returns (f: Option<CryptoFrame>)
      requires Valid() && scramble && writeOffset == end && i < 2 && Live(cuts[i])
      requires i == 1 ==> !Live(cuts[0])
      modifies this`frames, cuts
      ensures Valid() && cuts[1 - i] == old(cuts[1 - i])
      ensures var c := old(cuts[i]);
              f.None? <==> MaxCryptoDataLen(c.start, maxLen) == 0 || c.start == c.end
      ensures f.Some? ==>
        var c := old(cuts[i]);
        && 0 < |f.value.data| <= MaxCryptoDataLen(c.start, maxLen)
        && f.value.offset == c.start && cuts[i] == CutShort(c, |f.value.data|)
      ensures frames == if f.Some? then old(frames) + [f.value] else old(frames)
      ensures f.None? ==> cuts[..] == old(cuts[..])
      ensures f.Some? ==> Left() < old(Left())
    {
      hide Balance, Faithful, InPass, Planned, Remains;
      var c := cuts[i];
      CutInside(plan, i, c);
      var n := Min(MaxCryptoDataLen(c.start, maxLen), c.end - c.start);
      if n <= 0 {
        return None;
      }
      var frame := CryptoFrame(c.start, writeBuf[c.start..c.start + n]);
      CutBalance(frames, plan, cuts[0], cuts[1], frame, writeOffset, |written|, again);
      CutApart(plan, i, c, frame);
      FaithfulAppend(frames, frame, written, plan);
      cuts[i] := Cut(c.start + n, c.end);
      if cuts[i].start == c.end {
        cuts[i] := NO_CUT;
      }
      frames := frames + [frame];
      f := Some(frame);
    }

    /** The second pass: the cuts, one after the other. */
    method PopSkipped(maxLen: int) returns (f: Option<CryptoFrame>)
      requires Valid() && scramble && writeOffset == end
      modifies this`writeBuf, this`end, this`scramble, this`frames, cuts
      ensures Valid()
      ensures frames == if f.Some? then old(frames) + [f.value] else old(frames)
      ensures f.Some? ==> 0 < |f.value.data| <= MaxCryptoDataLen(f.value.offset, maxLen)
      ensures var c := if Live(old(cuts[0])) then old(cuts[0]) else old(cuts[1]);
              f.None? <==> !Live(c) || MaxCryptoDataLen(c.start, maxLen) == 0 || c.start == c.end
      ensures !scramble <==> !Live(cuts[0]) && !Live(cuts[1])
      ensures f.None? ==> cuts[..] == old(cuts[..]) && (scramble ==> end == old(end))
      ensures f.Some? ==> Left() < old(Left())
      ensures Live(old(cuts[0])) ==> cuts[1] == old(cuts[1])
    {
      hide Balance, Faithful, InPass, Planned, Remains, PlanOk, FindSniAndEch, PlanFor;
      var foundCuts := false;
      f := None;
      var i := 0;
      while i < 2
        invariant 0 <= i <= 2 && Valid() && scramble && writeOffset == end
        invariant foundCuts <==> (i > 0 && Live(cuts[0])) || (i > 1 && Live(cuts[1]))
        invariant f.None? ==> cuts[..] == old(cuts[..]) && frames == old(frames) && !foundCuts
        invariant f.Some? ==>
          frames == old(frames) + [f.value] && 0 < |f.value.data| <= MaxCryptoDataLen(f.value.offset, maxLen)
        invariant f.Some? ==> Left() < old(Left())
        invariant Live(old(cuts[0])) ==> cuts[1] == old(cuts[1])
        invariant f.Some? ==>
          var c := if Live(old(cuts[0])) then old(cuts[0]) else old(cuts[1]);
          Live(c) && MaxCryptoDataLen(c.start, maxLen) != 0 && c.start != c.end
      {
        if cuts[i].start == INVALID_BYTE_COUNT {
          i := i + 1;
          continue;
        }
        if f.Some? {
          foundCuts := true;
          break;
        }
        f := PopFromCut(i, maxLen);
        if f.None? {
          return None;
        }
        foundCuts := Live(cuts[i]);
        i := i + 1;
      }
      if !foundCuts {
        DeadBalance(frames, plan, cuts[0], cuts[1], writeOffset, tail, |written|, again);
        DeadCuts(plan, cuts[0], cuts[1]);
        writeBuf := writeBuf[end..];
        end := INVALID_BYTE_COUNT;
        scramble := false;
      }
    }

    /** The first cut that is still ahead. */
    method FindNextCut() returns (nextCut: Cut)
      requires cuts.Length == 2
      ensures nextCut == NextCut(cuts[0], cuts[1], writeOffset)
    {
      nextCut := NO_CUT;
      var i := 0;
      while i < 2
        invariant 0 <= i <= 2 && nextCut == NO_CUT
        invariant forall j :: 0 <= j < i ==> !(Live(cuts[j]) && cuts[j].start > writeOffset)
      {
        var c := cuts[i];
        if c.start != INVALID_BYTE_COUNT && c.start > writeOffset {
          nextCut := c;
          break;
        }
        i := i + 1;
      }
    }

    /** The first pass: what lies before, between and behind the cuts. */
    method PopBetween(maxLen: int) returns (f: Option<CryptoFrame>)
      requires Valid() && scramble && writeOffset != end
      modifies this`writeOffset, this`frames
      ensures Valid()
      ensures f.None? <==> MaxCryptoDataLen(old(writeOffset), maxLen) == 0
      ensures f.Some? ==>
        f.value.offset == old(writeOffset) && 0 < |f.value.data| <= MaxCryptoDataLen(old(writeOffset), maxLen)
      ensures frames == if f.Some? then old(frames) + [f.value] else old(frames)
      ensures f.Some? ==> Left() < old(Left())
      ensures f.None? ==> unchanged(this)
    {
      hide Balance, Faithful, InPass, Planned, Remains, PlanOk, PlainOk, FindSniAndEch, PlanFor;
      var nextCut := FindNextCut();
      var maxOffset := if nextCut.start == INVALID_BYTE_COUNT then end else nextCut.start;
      var n := Min(MaxCryptoDataLen(writeOffset, maxLen), maxOffset - writeOffset);
      if n <= 0 {
        return None;
      }
      PassBounds(plan, writeOffset);
      var frame := CryptoFrame(writeOffset, writeBuf[writeOffset..writeOffset + n]);
      PassBalance(frames, plan, frame, writeOffset, |written|, again);
      PassApart(plan, frame, writeOffset);
      FaithfulAppend(frames, frame, written, plan);
      PassGoesOn(plan, writeOffset, n);
      writeOffset := writeOffset + n;
      if writeOffset == nextCut.start {
        writeOffset := nextCut.end;
      }
      frames := frames + [frame];
      f := Some(frame);
    }

    /** Pops the next frame, of at most `maxLen` bytes. */
    method PopCryptoFrame(maxLen: int) returns (f: Option<CryptoFrame>)
      requires Valid()
      modifies this`writeBuf, this`writeOffset, this`end, this`scramble, this`frames, cuts
      ensures Valid()
      ensures frames == if f.Some? then old(frames) + [f.value] else old(frames)
      ensures f.Some? ==>
        |f.value.data| > 0 && (maxLen <= LONGEST_PACKET ==> CryptoFrameLen(f.value.offset, |f.value.data|) <= maxLen)
      ensures f.Some? ==> Left() < old(Left())
      ensures (old(Busy()) ==> Busy()) && (scramble ==> old(scramble))
      ensures f.None? && (Live(old(cuts[0])) || Live(old(cuts[1]))) ==> scramble == old(scramble)
      ensures f.None? ==> cuts[..] == old(cuts[..]) && writeOffset == old(writeOffset) && (scramble ==> end == old(end))
      ensures old(scramble) && Live(old(cuts[0])) ==> cuts[1] == old(cuts[1])
      ensures old(scramble) && (Live(cuts[0]) || Live(cuts[1])) ==> scramble
      ensures f.None? <==>
        || (!old(scramble) && (MaxCryptoDataLen(old(writeOffset), maxLen) == 0 || old(writeBuf) == []))
        || (old(scramble && writeOffset != end) && MaxCryptoDataLen(old(writeOffset), maxLen) == 0)
        || (old(scramble && writeOffset == end)
            && var c := if Live(old(cuts[0])) then old(cuts[0]) else old(cuts[1]);
            !Live(c) || MaxCryptoDataLen(c.start, maxLen) == 0 || c.start == c.end)
    {
      hide Balance, Faithful, InPass, Planned, Remains;
      if !scramble {
        f := PopFront(maxLen);
      } else if writeOffset == end {
        f := PopSkipped(maxLen);
      } else {
        f := PopBetween(maxLen);
      }
      if f.Some? && maxLen <= LONGEST_PACKET {
        MaxCryptoDataLenIsMaximal(f.value.offset, maxLen, |f.value.data|);
      }
    }

    // ---------------------------------------------------------------- writing

    /** Queues `p` behind what is queued. */
    method Enqueue(p: seq<byte>)
      requires Valid() && tail == |written|
      modifies this`writeBuf, this`written, this`tail
      ensures Valid() && tail == |written| && written == old(written) + p
    {
      hide Balance, Faithful, InPass, Planned, Remains;
      FaithfulGrow(frames, written, p, plan);
      if scramble {
        GrowBalance(frames, plan, cuts[0], cuts[1], writeOffset, |written|, |written + p|, again);
        if plan != NO_PLAN || frames != [] || again != [] {
          PlannedGrow(plan, written, p);
        }
      } else {
        GrowBalance(frames, plan, NO_CUT, NO_CUT, writeOffset, |written|, |written + p|, again);
        if plan != NO_PLAN {
          PlannedGrow(plan, written, p);
        }
        assert (written + p)[writeOffset..] == written[writeOffset..] + p;
      }
      writeBuf, written, tail := writeBuf + p, written + p, |written + p|;
    }

    /** What is sent again if the cuts are started over now. */
    function AgainAfter(): seq<Cut>
      requires cuts.Length == 2
      reads this`plan, this`again, cuts
    {
      if plan == NO_PLAN then [] else again + [Used(plan.a, cuts[0]), Used(plan.b, cuts[1])]
    }

    /** Cuts up the ClientHello, now that it is complete. */
    method Arrange(r: Lookup)
      requires Valid() && scramble && !Live(cuts[0])
      requires r == FindSniAndEch(writeBuf) && r.Found? && (r.sniPos != -1 || r.echPos != -1)
      modifies this`end, this`plan, this`again, cuts
      ensures Valid() && plan == PlanFor(r, |written|) && Busy() && cuts[0] == plan.a && cuts[1] == plan.b
      ensures old(plan) != NO_PLAN ==> plan == old(plan)
      ensures plan != old(plan) ==> frames == [] && writeOffset == 0
      ensures again == old(AgainAfter())
    {
      hide Balance, Faithful, InPass, Planned, Remains, PlanOk, FindSniAndEch;
      Ready(r);
      var again' := AgainAfter();
      end := |writeBuf|;
      cuts[0] := SniCut(r);
      if r.echPos > 0 {
        cuts[1] := EchCut(r, end);
      }
      if Compare(cuts[1], cuts[0]) < 0 {
        cuts[0], cuts[1] := cuts[1], cuts[0];
      }
      again := again';
      plan := PlanFor(r, |written|);
    }

    /** Starting with the plan for `r` keeps the books. */
    lemma Ready(r: Lookup)
      requires Valid() && scramble && !Live(cuts[0])
      requires r == FindSniAndEch(writeBuf) && r.Found? && (r.sniPos != -1 || r.echPos != -1)
      ensures var p, e := PlanFor(r, |written|), AgainAfter();
              && PlanOk(p) && Faithful(frames, written, p) && Planned(p, written)
              && Remains(p.a, p.a) && Remains(p.b, p.b)
              && Balance(frames, p, p.a, p.b, writeOffset, |written|, |written|, e) && AgainOk(e, p.end)
              && (Live(p.a) && p.a.start == p.a.end ==> e == [])
              && (writeOffset < p.end ==> InPass(p, writeOffset)) && writeOffset <= p.end
              && (plan == NO_PLAN || plan == p) && (plan == NO_PLAN ==> frames == [] && writeOffset == 0)
              && (r.echPos <= 0 ==> cuts[1] == NO_CUT)
    {
      hide Balance, Faithful;
      var p := PlanFor(r, |written|);
      assert written[..|written|] == written;
      NoPlan(written);
      PlanForOk(written, r);
      if plan == NO_PLAN && frames == [] && again == [] {
        StartBalance(p, |written|);
        StartFaithful(written, p);
      } else {
        Rediscovered(plan, written);
        RewindBalance(frames, plan, cuts[0], cuts[1], writeOffset, |written|, again);
      }
    }

    /** Nothing to cut: the ClientHello is sent as it is. */
    method GiveUp()
      requires Valid() && scramble && plan == NO_PLAN
      modifies this`scramble
      ensures Valid() && !scramble
    {
      hide Faithful, Planned;
      scramble := false;
    }

    /** Writes to the stream; fails if that completes something other than a ClientHello. */
    method Write(p: seq<byte>) returns (ok: bool)
      requires Valid() && tail == |written|
      modifies this`writeBuf, this`written, this`tail, this`scramble, this`end, this`plan, this`again, cuts
      ensures Valid() && tail == |written| && written == old(written) + p
      // the plan is made as soon as there is a ClientHello to cut
      ensures var r := FindSniAndEch(written);
              if !old(scramble) then !scramble && plan == old(plan)
              else if Live(old(cuts[0])) || !r.Found? then scramble && plan == old(plan)
              else if r.sniPos == -1 && r.echPos == -1 then !scramble && plan == old(plan) == NO_PLAN
              else scramble && plan == PlanFor(r, |written|)
      ensures old(plan) != NO_PLAN ==> plan == old(plan)
      // an empty write when the first cut was sent starts the cuts over
      ensures again == if old(scramble && plan != NO_PLAN && !Live(cuts[0])) && FindSniAndEch(written).Found?
                       then old(AgainAfter()) else old(again)
      ensures p != [] ==> again == old(again)
      ensures plan != old(plan) ==> frames == [] && writeOffset == 0
      ensures old(Busy()) ==> Busy()
      ensures !ok <==> old(scramble) && !Live(old(cuts[0])) && FindSniAndEch(written).Malformed?
    {
      hide Balance, Faithful, InPass, Remains, Planned, PlanOk, FindSniAndEch, PlanFor;
      CompleteOnce(plan, written, p);
      NoPlan(written);
      Enqueue(p);
      if !scramble {
        return true;
      }
      if cuts[0].start == INVALID_BYTE_COUNT {
        var r := FindSniAndEch(writeBuf);
        if r.Incomplete? {
          return true;
        }
        if r.Malformed? {
          return false;
        }
        if r.sniPos == -1 && r.echPos == -1 {
          NothingPlanned(r);
          GiveUp();
          return true;
        }
        Arrange(r);
      }
      return true;
    }

    lemma NothingPlanned(r: Lookup)
      requires Valid() && scramble && r == FindSniAndEch(writeBuf) && r.Found? && r.sniPos == -1 && r.echPos == -1
      ensures plan == NO_PLAN
    {
      hide Balance, Faithful;
      if Planned(plan, written) {
        Rediscovered(plan, written);
      }
    }

    // ---------------------------------------------------------------- what was sent

    /** Nothing was sent more often than planned, and again. */
    lemma AtMostPlanned()
      requires Valid()
      ensures forall x :: 0 <= x ==> Times(frames, x) <= Total(plan, x) + Again(again, x)
    {
      hide Faithful, Planned, PlanOk, Total, Pending, Has, Again;
      forall x | 0 <= x
        ensures Times(frames, x) <= Total(plan, x) + Again(again, x)
      {
        var a, b := if scramble then cuts[0] else NO_CUT, if scramble then cuts[1] else NO_CUT;
        assert Accounted(frames, plan, a, b, writeOffset, tail, |written|, x) == Total(plan, x) + Again(again, x);
      }
    }

    /** Once nothing is queued, everything was sent as often as planned, and again. */
    lemma AllSent()
      requires Valid() && !scramble && writeBuf == []
      ensures forall x :: 0 <= x < |written| ==> Times(frames, x) == Total(plan, x) + Again(again, x)
    {
      hide Faithful, Planned, PlanOk;
      forall x | 0 <= x < |written|
        ensures Times(frames, x) == Total(plan, x) + Again(again, x)
      {
        assert Accounted(frames, plan, NO_CUT, NO_CUT, writeOffset, tail, |written|, x)
               == Total(plan, x) + Again(again, x);
      }
    }

    /** A server name of two bytes or more is not sent in one frame, if the cuts are separated. */
    lemma ServerNameApart(i: nat)
      requires Valid() && Planned(plan, written) && Separated(plan) && i < |frames|
      ensures var r, f := FindSniAndEch(written[..plan.end]), frames[i];
              r.sniPos != -1 && r.sniLen >= 2 ==> !(f.offset <= r.sniPos && r.sniPos + r.sniLen <= f.offset + |f.data|)
    {
      hide Balance, FindSniAndEch;
      var r := FindSniAndEch(written[..plan.end]);
      if r.sniPos != -1 && r.sniLen >= 2 {
        CutsServerName(written[..plan.end], r);
        assert Apart(frames[i], plan);
      }
    }
  }
}
