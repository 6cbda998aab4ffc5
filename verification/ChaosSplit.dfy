/**
 A ClientHello that is too large for one Initial packet: the first packet carries its head and its
 tail, the packets that follow the middle.
 */
module ChaosSplit {
  import opened Protocol
  import opened Wire
  import opened Chaos
  import opened CryptoPlan
  import opened CryptoStreams

  /** Quotient rounded up. */
  function CeilDiv(a: int, n: int): (q: int)
    requires n > 0
    ensures a > 0 ==> q > 0
  {
    (a + n - 1) / n
  }

  lemma CeilDivBounds(a: int, n: int)
    requires n > 0
    ensures a <= CeilDiv(a, n) * n < a + n
  {
  }

  /** How many packets a ClientHello of `pending` bytes takes. */
  function NumPackets(pending: int, offset: int, available: int): int
    requires available >= 2 * CryptoHeaderLen(offset + pending - 1, pending)
  {
    var minFrame := CryptoHeaderLen(offset + pending - 1, pending);
    CeilDiv(pending + minFrame, available - minFrame)
  }

  /** Lengths of head and tail; (0, 0) if there is nothing to split.  `draw` is the random number below 32. */
  function CryptoSplit(pending: int, offset: int, available: int, draw: nat): (int, int)
    requires draw < FIRST_FRAME_LEN_RANDOM
  {
    if pending <= 0 || available <= 0 then (0, 0)
    else
      var minFrame := CryptoHeaderLen(offset + pending - 1, pending);
      if available < 2 * minFrame then (0, 0)
      else
        var maxFirst, maxOther := available - 2 * minFrame, available - minFrame;
        if pending <= maxFirst then (0, 0)
        else
          var occupied := maxOther - maxFirst;
          var numPackets := CeilDiv(pending + occupied, maxOther);
          var dataOther := CeilDiv(pending + occupied, numPackets);
          if dataOther < occupied then (0, 0)
          else
            var dataFirst := dataOther - occupied;
            var first := MIN_FIRST_FRAME_LEN + draw;
            if pending <= first || dataFirst <= first then (0, 0) else (first, dataFirst - first)
  }

  lemma Product(a: int, b: int, c: int)
    requires a <= b && c >= 0
    ensures a * c <= b * c
  {
  }

  lemma ShareBounds(total: int, size: int, n: int, share: int)
    requires total > size > 0 && n >= 2 && total <= n * size && total <= share * n < total + n
    ensures share <= size && share < total
  {
    assert (size + 1) * n == n * size + n;
    if share > size {
      Product(size + 1, share, n);
    }
    assert total * n == total * (n - 1) + total;
    Product(2, total, n - 1);
    if share >= total {
      Product(total, share, n);
    }
  }

  lemma RestBound(total: int, size: int, n: int, share: int)
    requires n >= 2 && total <= share * n && share <= size
    ensures total - share <= (n - 1) * size
  {
    Product(share, size, n - 1);
    assert share * n == share * (n - 1) + share && size * (n - 1) == (n - 1) * size;
  }

  /** Spreading `total` over `n` packets of at most `size`: the arithmetic of the split. */
  lemma EvenShares(total: int, size: int)
    requires total > size > 0
    ensures var n := CeilDiv(total, size);
            && n >= 2
            && var share := CeilDiv(total, n);
            share <= size && total - share <= (n - 1) * size && share < total
  {
    hide CeilDiv;
    var n := CeilDiv(total, size);
    CeilDivBounds(total, size);
    if n <= 1 {
      Product(n, 1, size);
    }
    var share := CeilDiv(total, n);
    CeilDivBounds(total, n);
    ShareBounds(total, size, n, share);
    RestBound(total, size, n, share);
  }

  /** Rounding up gives the one number of pieces of size `n` that is enough, but not too much. */
  lemma CeilDivIs(a: int, n: int, q: int)
    requires n > 0 && (q - 1) * n < a <= q * n
    ensures CeilDiv(a, n) == q
  {
    hide CeilDiv;
    var r := CeilDiv(a, n);
    CeilDivBounds(a, n);
    assert (r - 1) * n == r * n - n;
    if r < q {
      Product(r, q - 1, n);
    } else if q < r {
      Product(q, r - 1, n);
    }
  }

  /**
   When it splits, and how: `n` packets are just enough, `share` is an even share of them, and the
   share of the first packet is longer than the head.
   */
  lemma SplitIff(pending: int, offset: int, available: int, draw: nat, n: int, share: int)
    requires draw < FIRST_FRAME_LEN_RANDOM && pending > 0
    requires var header := CryptoHeaderLen(offset + pending - 1, pending);
             && available >= 2 * header && pending + 2 * header > available
             && (n - 1) * (available - header) < pending + header <= n * (available - header) && n > 0
             && (share - 1) * n < pending + header <= share * n
    ensures var header, (first, last) :=
              CryptoHeaderLen(offset + pending - 1, pending), CryptoSplit(pending, offset, available, draw);
            && ((first, last) != (0, 0) <==> share - header > MIN_FIRST_FRAME_LEN + draw)
            && ((first, last) != (0, 0) ==> first == MIN_FIRST_FRAME_LEN + draw && first + last == share - header)
  {
    hide CeilDiv, CryptoHeaderLen;
    var header := CryptoHeaderLen(offset + pending - 1, pending);
    CeilDivIs(pending + header, available - header, n);
    CeilDivIs(pending + header, n, share);
    EvenShares(pending + header, available - header);
  }

  /** What fits into one packet is not split, nor is anything where two headers do not fit. */
  lemma NoSplit(pending: int, offset: int, available: int, draw: nat)
    requires draw < FIRST_FRAME_LEN_RANDOM
    requires var header := CryptoHeaderLen(offset + pending - 1, pending);
             pending <= 0 || available < 2 * header || pending + 2 * header <= available
    ensures CryptoSplit(pending, offset, available, draw) == (0, 0)
  {
    hide CeilDiv;
  }

  /**
   Whenever it splits, head and tail do not overlap, fit into the first packet with their headers,
   and what is left fits into the packets that follow, one frame in each.
   */
  lemma SplitFits(pending: int, offset: int, available: int, draw: nat)
    requires draw < FIRST_FRAME_LEN_RANDOM && offset >= 0
    ensures var (first, last) := CryptoSplit(pending, offset, available, draw);
            first > 0 || last > 0 ==>
              && first > 0 && last > 0 && first + last < pending
              && CryptoFrameLen(offset, first) + CryptoFrameLen(offset + pending - last, last) <= available
              && available >= 2 * CryptoHeaderLen(offset + pending - 1, pending)
              && pending - first - last
                 <= (NumPackets(pending, offset, available) - 1)
                    * (available - CryptoHeaderLen(offset + pending - 1, pending))
  {
    hide CeilDiv, CryptoHeaderLen;
    var (first, last) := CryptoSplit(pending, offset, available, draw);
    if first > 0 || last > 0 {
      var minFrame := CryptoHeaderLen(offset + pending - 1, pending);
      EvenShares(pending + minFrame, available - minFrame);
      HeaderMonotone(offset, first, offset + pending - 1, pending);
      HeaderMonotone(offset + pending - last, last, offset + pending - 1, pending);
    }
  }

  lemma HeaderMonotone(offset: int, len: int, offset': int, len': int)
    requires offset <= offset' && len <= len'
    ensures CryptoHeaderLen(offset, len) <= CryptoHeaderLen(offset', len')
  {
    VarintLenMonotone(offset, offset');
    VarintLenMonotone(len, len');
  }

  /** Fills a packet with frames from the front: at least one frame as long as fits. */
  method FillPacket(s: CryptoStream, available: int) returns (used: int)
    requires s.Valid() && !s.scramble && 0 <= available <= LONGEST_PACKET
    modifies s`writeBuf, s`writeOffset, s`frames
    ensures s.Valid() && 0 <= used <= available
    ensures |s.writeBuf| <= Max(0, |old(s.writeBuf)| - MaxCryptoDataLen(old(s.writeOffset), available))
    ensures s.writeOffset + |s.writeBuf| == old(s.writeOffset + |s.writeBuf|)
    // the packet is full, or all was sent
    ensures s.writeBuf == [] || MaxCryptoDataLen(s.writeOffset, available - used) == 0
    ensures |old(s.writeBuf)| - |s.writeBuf| <= used
  {
    hide CryptoStream.PlainOk, CryptoStream.ScramblingOk, Faithful, PlanOk, MaxCryptoDataLen, CryptoFrameLen;
    used := 0;
    while s.HasData()
      invariant s.Valid() && 0 <= used <= available && s.writeOffset + |s.writeBuf| == old(s.writeOffset + |s.writeBuf|)
      invariant if used == 0 then s.writeBuf == old(s.writeBuf) && s.writeOffset == old(s.writeOffset)
                else |s.writeBuf| <= Max(0, |old(s.writeBuf)| - MaxCryptoDataLen(old(s.writeOffset), available))
      invariant |old(s.writeBuf)| - |s.writeBuf| <= used
      decreases |s.writeBuf|
    {
      var f := s.PopFront(available - used);
      if f.None? {
        return;
      }
      Fits(f.value, available - used);
      used := used + CryptoFrameLen(f.value.offset, |f.value.data|);
    }
  }

  lemma Fits(f: CryptoFrame, maxLen: int)
    requires maxLen <= LONGEST_PACKET && 0 < |f.data| <= MaxCryptoDataLen(f.offset, maxLen)
    ensures |f.data| < CryptoFrameLen(f.offset, |f.data|) <= maxLen
  {
    MaxCryptoDataLenIsMaximal(f.offset, maxLen, |f.data|);
  }

  /** What that many packets can carry. */
  function Capacity(packets: nat, available: int): int { packets * available }

  lemma OneMorePacket(packets: nat, available: int)
    ensures Capacity(packets + 1, available) == Capacity(packets, available) + available
    ensures Capacity(0, available) == 0
  {
  }

  lemma LongerThanData(offset: int, len: int)
    ensures len < CryptoFrameLen(offset, len)
  {
  }

  /** A packet of the middle takes its full share. */
  lemma FullShare(w: int, pending: int, left: int, available: int)
    requires 0 <= w < pending && 0 < left <= pending && available <= LONGEST_PACKET
    requires available > CryptoHeaderLen(pending - 1, pending)
    ensures MaxCryptoDataLen(w, available) >= Min(left, available - CryptoHeaderLen(pending - 1, pending))
  {
    var m := Min(left, available - CryptoHeaderLen(pending - 1, pending));
    HeaderMonotone(w, m, pending - 1, pending);
    MaxCryptoDataLenIsMaximal(w, available, m);
  }

  /** The head is popped with a budget that fits exactly `first` bytes. */
  lemma HeadBudget(first: int)
    requires MIN_FIRST_FRAME_LEN <= first < MIN_FIRST_FRAME_LEN + FIRST_FRAME_LEN_RANDOM
    ensures MaxCryptoDataLen(0, first + CryptoHeaderLen(0, first)) == first
  {
  }

  lemma OnePacketLess(k: int, share: int, len: int)
    requires 0 < len <= k * share && share > 0 && k >= 0
    ensures k >= 1 && Max(0, len - share) <= (k - 1) * share
  {
    assert (k - 1) * share == k * share - share;
    if k >= 1 {
      Product(0, k - 1, share);
    }
  }

  lemma SplitOrNot(pending: int, offset: int, available: int, draw: nat)
    requires draw < FIRST_FRAME_LEN_RANDOM
    ensures var r := CryptoSplit(pending, offset, available, draw);
            r == (0, 0) || (r.0 == MIN_FIRST_FRAME_LEN + draw && r.1 > 0)
  {
    hide CeilDiv, CryptoHeaderLen;
  }

  /** A fresh stream that holds `data`. */
  method Queued(data: seq<byte>) returns (s: CryptoStream)
    ensures fresh(s) && fresh(s.cuts) && s.Valid() && !s.scramble && s.plan == NO_PLAN && s.again == []
    ensures s.written == s.writeBuf == data && s.writeOffset == 0 && s.tail == |data| && s.frames == []
  {
    s := new CryptoStream(false);
    var _ := s.Write(data);
  }

  /** The first packet: the tail is popped before the head. */
  method FirstPacket(s: CryptoStream, first: int, last: int) returns (used: int)
    requires s.Valid() && !s.scramble && s.writeOffset == 0 && 0 < last && first + last < |s.writeBuf|
    requires MIN_FIRST_FRAME_LEN <= first < MIN_FIRST_FRAME_LEN + FIRST_FRAME_LEN_RANDOM
    modifies s`writeBuf, s`writeOffset, s`frames, s`tail
    ensures s.Valid() && |s.writeBuf| == |old(s.writeBuf)| - first - last && s.writeOffset == first
    ensures first + last <= used == CryptoFrameLen(0, first) + CryptoFrameLen(|old(s.writeBuf)| - last, last)
  {
    hide CryptoStream.PlainOk, CryptoStream.ScramblingOk, Faithful, PlanOk, MaxCryptoDataLen, CryptoFrameLen;
    var tail := s.PopCryptoFrameTail(last);
    HeadBudget(first);
    LongerThanData(0, first);
    LongerThanData(|s.writeBuf| + s.writeOffset, last);
    var head := s.PopFront(first + CryptoHeaderLen(s.writeOffset, first));
    used := CryptoFrameLen(head.value.offset, |head.value.data|) + CryptoFrameLen(tail.value.offset, |tail.value.data|);
  }

  /**
   Sends a ClientHello in packets of `available` bytes.  Every byte is sent exactly once, in a
   frame that carries it at its own offset; if it was split, the first packet is not overfull and
   no more packets are used than computed.
   */
  method SendHello(data: seq<byte>, available: int, draw: nat)
    returns (frames: seq<CryptoFrame>, split: bool, firstLen: int, packets: nat)
    requires 0 < |data| && ENOUGH <= available <= LONGEST_PACKET && draw < FIRST_FRAME_LEN_RANDOM
    ensures forall x :: 0 <= x < |data| ==> Times(frames, x) == 1
    ensures Faithful(frames, data, NO_PLAN)
    ensures split <==> CryptoSplit(|data|, 0, available, draw) != (0, 0)
    ensures firstLen <= available
    // no packet carries more than it can
    ensures |data| <= Capacity(packets, available)
    ensures split ==>
      available >= 2 * CryptoHeaderLen(|data| - 1, |data|) && packets <= NumPackets(|data|, 0, available)
  {
    hide CryptoStream.PlainOk, CryptoStream.ScramblingOk, Faithful, PlanOk, MaxCryptoDataLen, CryptoFrameLen,
      CryptoSplit, CeilDiv, CryptoHeaderLen, Capacity;
    var s := Queued(data);
    var (first, last) := CryptoSplit(|data|, 0, available, draw);
    SplitFits(|data|, 0, available, draw);
    SplitOrNot(|data|, 0, available, draw);
    split := first > 0 && last > 0;
    firstLen, packets := 0, 0;
    ghost var share := available - CryptoHeaderLen(|data| - 1, |data|);
    ghost var n := if split then NumPackets(|data|, 0, available) else 0;
    if split {
      firstLen := FirstPacket(s, first, last);
      packets := 1;
    }
    OneMorePacket(0, available);
    while s.HasData()
      invariant fresh(s) && fresh(s.cuts) && s.Valid() && !s.scramble
      invariant s.plan == NO_PLAN && s.again == [] && s.written == data
      invariant s.writeOffset + |s.writeBuf| <= |data| && 0 <= s.writeOffset
      invariant split ==> packets <= n && |s.writeBuf| <= (n - packets) * share
      invariant |data| - |s.writeBuf| <= Capacity(packets, available)
      decreases |s.writeBuf|
    {
      EnoughFits(s.writeOffset, available);
      if split {
        FullShare(s.writeOffset, |data|, |s.writeBuf|, available);
        OnePacketLess(n - packets, share, |s.writeBuf|);
      }
      OneMorePacket(packets, available);
      var _ := FillPacket(s, available);
      packets := packets + 1;
    }
    s.AllSent();
    frames := s.frames;
  }
}
