/**
 Bookkeeping for sent STREAM frames: acknowledged, in flight, or waiting for retransmission.
 */
module FrameLedger {
  import opened Protocol
  import opened Wire

  predicate Covers(f: StreamFrame, x: int) {
    f.offset <= x < f.offset + |f.data|
  }

  /** How many of the frames carry the byte at `x`. */
  ghost function Count(fs: seq<StreamFrame>, x: int): (n: nat) {
    if fs == [] then 0 else Count(fs[..|fs| - 1], x) + (if Covers(fs[|fs| - 1], x) then 1 else 0)
  }

  /** How many of the frames carry the FIN. */
  ghost function Fins(fs: seq<StreamFrame>): (n: nat) {
    if fs == [] then 0 else Fins(fs[..|fs| - 1]) + (if fs[|fs| - 1].fin then 1 else 0)
  }

  lemma CountAppend(fs: seq<StreamFrame>, f: StreamFrame)
    ensures forall x :: Count(fs + [f], x) == Count(fs, x) + (if Covers(f, x) then 1 else 0)
    ensures Fins(fs + [f]) == Fins(fs) + (if f.fin then 1 else 0)
  {
    assert (fs + [f])[..|fs|] == fs;
  }

  /** The list without its element `i`. */
  function Without(fs: seq<StreamFrame>, i: int): (r: seq<StreamFrame>)
    requires 0 <= i < |fs|
    ensures |r| == |fs| - 1
    ensures forall f :: f in r ==> f in fs
  {
    fs[..i] + fs[i + 1..]
  }

  lemma {:induction false} CountConcat(fs: seq<StreamFrame>, gs: seq<StreamFrame>, x: int)
    ensures Count(fs + gs, x) == Count(fs, x) + Count(gs, x)
    ensures Fins(fs + gs) == Fins(fs) + Fins(gs)
  {
    if gs == [] {
      assert fs + gs == fs;
    } else {
      var n := |gs| - 1;
      CountConcat(fs, gs[..n], x);
      assert (fs + gs)[..|fs| + n] == fs + gs[..n];
    }
  }

  /** Element `i` counts on its own. */
  lemma CountSplit(fs: seq<StreamFrame>, i: int, f: StreamFrame, x: int)
    requires 0 <= i < |fs|
    ensures Count(fs[i := f], x) == Count(Without(fs, i), x) + (if Covers(f, x) then 1 else 0)
    ensures Fins(fs[i := f]) == Fins(Without(fs, i)) + (if f.fin then 1 else 0)
  {
    hide Count, Fins, Covers;
    assert fs[i := f] == (fs[..i] + [f]) + fs[i + 1..];
    CountAppend(fs[..i], f);
    CountConcat(fs[..i] + [f], fs[i + 1..], x);
    CountConcat(fs[..i], fs[i + 1..], x);
  }

  lemma CountWithout(fs: seq<StreamFrame>, i: int, x: int)
    requires 0 <= i < |fs|
    ensures Count(fs, x) == Count(Without(fs, i), x) + (if Covers(fs[i], x) then 1 else 0)
    ensures Fins(fs) == Fins(Without(fs, i)) + (if fs[i].fin then 1 else 0)
  {
    hide Count, Fins, Covers;
    CountSplit(fs, i, fs[i], x);
    assert fs[i := fs[i]] == fs;
  }

  lemma CountReplace(fs: seq<StreamFrame>, i: int, f: StreamFrame, x: int)
    requires 0 <= i < |fs|
    ensures Count(fs[i := f], x) == Count(fs, x) - (if Covers(fs[i], x) then 1 else 0) + (if Covers(f, x) then 1 else 0)
    ensures Fins(fs[i := f]) == Fins(fs) - (if fs[i].fin then 1 else 0) + (if f.fin then 1 else 0)
  {
    hide Count, Fins, Covers;
    CountSplit(fs, i, f, x);
    CountWithout(fs, i, x);
  }

  lemma {:induction false} NoneCounted(fs: seq<StreamFrame>, x: int)
    requires forall f :: f in fs ==> !Covers(f, x)
    ensures Count(fs, x) == 0
  {
    if fs != [] {
      NoneCounted(fs[..|fs| - 1], x);
    }
  }

  /** A frame carries the bytes of the stream at its offset; a FIN marks the end of the stream. */
  ghost predicate Faithful(f: StreamFrame, sent: seq<byte>, finSent: bool) {
    && 0 <= f.offset && f.offset + |f.data| <= |sent|
    && f.data == sent[f.offset..f.offset + |f.data|]
    && (f.fin ==> finSent && f.offset + |f.data| == |sent|)
    && f.dataLenPresent
  }

  ghost predicate AllFaithful(fs: seq<StreamFrame>, sent: seq<byte>, finSent: bool) {
    forall f :: f in fs ==> Faithful(f, sent, finSent)
  }

  datatype Ledger = Ledger(acked: seq<StreamFrame>, inFlight: seq<StreamFrame>, lost: seq<StreamFrame>,
                           sent: seq<byte>, finSent: bool)

  ghost function Total(l: Ledger, x: int): nat {
    Count(l.acked, x) + Count(l.inFlight, x) + Count(l.lost, x)
  }

  /** Every byte sent is in exactly one place, and so is the FIN once it was sent. */
  ghost predicate Balanced(l: Ledger) {
    && AllFaithful(l.acked, l.sent, l.finSent)
    && AllFaithful(l.inFlight, l.sent, l.finSent)
    && AllFaithful(l.lost, l.sent, l.finSent)
    && (forall x :: 0 <= x < |l.sent| ==> Total(l, x) == 1)
    && Fins(l.acked) + Fins(l.inFlight) + Fins(l.lost) == (if l.finSent then 1 else 0)
  }

  lemma FaithfulAppend(fs: seq<StreamFrame>, f: StreamFrame, sent: seq<byte>, finSent: bool)
    requires AllFaithful(fs, sent, finSent) && Faithful(f, sent, finSent)
    ensures AllFaithful(fs + [f], sent, finSent)
  {
  }

  lemma FaithfulReplace(fs: seq<StreamFrame>, i: int, f: StreamFrame, sent: seq<byte>, finSent: bool)
    requires AllFaithful(fs, sent, finSent) && Faithful(f, sent, finSent) && 0 <= i < |fs|
    ensures AllFaithful(fs[i := f], sent, finSent)
  {
    forall g | g in fs[i := f]
      ensures g == f || g in fs
    {
    }
  }

  /** Both parts of a faithful frame are faithful. */
  lemma FaithfulParts(f: StreamFrame, head: StreamFrame, rest: StreamFrame, sent: seq<byte>, finSent: bool)
    requires Faithful(f, sent, finSent) && head.data + rest.data == f.data
    requires head.offset == f.offset && rest.offset == f.offset + |head.data|
    requires !head.fin && rest.fin == f.fin && head.dataLenPresent && rest.dataLenPresent
    ensures Faithful(head, sent, finSent) && Faithful(rest, sent, finSent)
    ensures forall x :: Covers(f, x) <==> Covers(head, x) || Covers(rest, x)
    ensures forall x :: !(Covers(head, x) && Covers(rest, x))
  {
    assert head.data == f.data[..|head.data|] && rest.data == f.data[|head.data|..];
  }

  lemma FirstFaithful(fs: seq<StreamFrame>, sent: seq<byte>, finSent: bool)
    requires AllFaithful(fs, sent, finSent) && fs != []
    ensures Faithful(fs[0], sent, finSent)
  {
  }

  lemma NewIsFaithful(f: StreamFrame, sent: seq<byte>)
    requires f.offset == |sent| && f.dataLenPresent
    ensures Faithful(f, sent + f.data, f.fin)
  {
  }

  lemma OutsideIsUncounted(fs: seq<StreamFrame>, sent: seq<byte>, finSent: bool, x: int)
    requires AllFaithful(fs, sent, finSent) && |sent| <= x
    ensures Count(fs, x) == 0
  {
    NoneCounted(fs, x);
  }

  lemma FaithfulGrows(fs: seq<StreamFrame>, sent: seq<byte>, more: seq<byte>, fin: bool)
    requires AllFaithful(fs, sent, false)
    ensures AllFaithful(fs, sent + more, fin)
  {
    forall f | f in fs
      ensures Faithful(f, sent + more, fin)
    {
      assert (sent + more)[f.offset..f.offset + |f.data|] == sent[f.offset..f.offset + |f.data|];
    }
  }

  /** A first-time frame goes out, right behind everything sent before. */
  lemma SendNew(l: Ledger, f: StreamFrame)
    requires Balanced(l) && !l.finSent && f.offset == |l.sent| && f.dataLenPresent
    ensures Balanced(l.(inFlight := l.inFlight + [f], sent := l.sent + f.data, finSent := f.fin))
  {
    hide Faithful, AllFaithful, Count, Fins;
    var m := l.(inFlight := l.inFlight + [f], sent := l.sent + f.data, finSent := f.fin);
    FaithfulGrows(l.acked, l.sent, f.data, f.fin);
    FaithfulGrows(l.inFlight, l.sent, f.data, f.fin);
    FaithfulGrows(l.lost, l.sent, f.data, f.fin);
    NewIsFaithful(f, l.sent);
    FaithfulAppend(l.inFlight, f, l.sent + f.data, f.fin);
    CountAppend(l.inFlight, f);
    forall x | 0 <= x < |m.sent|
      ensures Total(m, x) == 1
    {
      if x >= |l.sent| {
        OutsideIsUncounted(l.acked, l.sent, l.finSent, x);
        OutsideIsUncounted(l.inFlight, l.sent, l.finSent, x);
        OutsideIsUncounted(l.lost, l.sent, l.finSent, x);
      } else {
        assert Total(l, x) == 1;
      }
    }
  }

  lemma Acknowledge(l: Ledger, i: int)
    requires Balanced(l) && 0 <= i < |l.inFlight|
    ensures Balanced(l.(inFlight := Without(l.inFlight, i), acked := l.acked + [l.inFlight[i]]))
  {
    var f := l.inFlight[i];
    var m := l.(inFlight := Without(l.inFlight, i), acked := l.acked + [f]);
    CountAppend(l.acked, f);
    CountWithout(l.inFlight, i, 0);
    forall x | 0 <= x < |l.sent|
      ensures Total(m, x) == 1
    {
      CountWithout(l.inFlight, i, x);
      assert Total(l, x) == 1;
    }
  }

  lemma Lose(l: Ledger, i: int)
    requires Balanced(l) && 0 <= i < |l.inFlight|
    ensures Balanced(l.(inFlight := Without(l.inFlight, i), lost := l.lost + [l.inFlight[i]]))
  {
    var f := l.inFlight[i];
    var m := l.(inFlight := Without(l.inFlight, i), lost := l.lost + [f]);
    CountAppend(l.lost, f);
    CountWithout(l.inFlight, i, 0);
    forall x | 0 <= x < |l.sent|
      ensures Total(m, x) == 1
    {
      CountWithout(l.inFlight, i, x);
      assert Total(l, x) == 1;
    }
  }

  lemma Resend(l: Ledger)
    requires Balanced(l) && l.lost != []
    ensures Balanced(l.(lost := l.lost[1..], inFlight := l.inFlight + [l.lost[0]]))
  {
    var f := l.lost[0];
    var m := l.(lost := l.lost[1..], inFlight := l.inFlight + [f]);
    assert Without(l.lost, 0) == l.lost[1..];
    CountAppend(l.inFlight, f);
    CountWithout(l.lost, 0, 0);
    forall x | 0 <= x < |l.sent|
      ensures Total(m, x) == 1
    {
      CountWithout(l.lost, 0, x);
      assert Total(l, x) == 1;
    }
  }

  /** Resending only the head of a lost frame; the rest stays in the queue. */
  lemma ResendHead(l: Ledger, head: StreamFrame, rest: StreamFrame)
    requires Balanced(l) && l.lost != []
    requires var f := l.lost[0];
             && head.data + rest.data == f.data && head.offset == f.offset && rest.offset == f.offset + |head.data|
             && !head.fin && rest.fin == f.fin && head.dataLenPresent && rest.dataLenPresent
    ensures Balanced(l.(lost := l.lost[0 := rest], inFlight := l.inFlight + [head]))
  {
    hide Faithful, AllFaithful, Count, Fins, Covers;
    var f := l.lost[0];
    var m := l.(lost := l.lost[0 := rest], inFlight := l.inFlight + [head]);
    FirstFaithful(l.lost, l.sent, l.finSent);
    FaithfulParts(f, head, rest, l.sent, l.finSent);
    FaithfulAppend(l.inFlight, head, l.sent, l.finSent);
    FaithfulReplace(l.lost, 0, rest, l.sent, l.finSent);
    CountAppend(l.inFlight, head);
    CountReplace(l.lost, 0, rest, 0);
    forall x | 0 <= x < |l.sent|
      ensures Total(m, x) == 1
    {
      CountReplace(l.lost, 0, rest, x);
      assert Total(l, x) == 1;
    }
  }

  /** With nothing in flight and nothing to retransmit, everything sent was acknowledged. */
  lemma AllAcknowledged(l: Ledger)
    requires Balanced(l) && l.inFlight == [] && l.lost == []
    ensures forall x :: 0 <= x < |l.sent| ==> Count(l.acked, x) == 1
    ensures l.finSent ==> Fins(l.acked) == 1
  {
    forall x | 0 <= x < |l.sent|
      ensures Count(l.acked, x) == 1
    {
      assert Total(l, x) == 1;
    }
  }
}
