/**
 Sizes of encoded frames: QUIC variable-length integers, STREAM frames and CRYPTO frames.
 */
module Wire {
  import opened Protocol

  /** Encoded length of a variable-length integer (section 16 of RFC 9000). */
  function VarintLen(v: int): (n: int)
    ensures n == 1 || n == 2 || n == 4 || n == 8
  {
    if v <= 63 then 1 else if v <= 16383 then 2 else if v <= 1073741823 then 4 else 8
  }

  lemma VarintLenMonotone(a: int, b: int)
    requires a <= b
    ensures VarintLen(a) <= VarintLen(b)
  {
  }

  /** The longest data whose length takes two bytes. */
  const LONGEST_DATA := 16383

  /** In a packet up to this size, no frame has longer data. */
  const LONGEST_PACKET := 16386

  // ---------------------------------------------------------------- STREAM frames

  datatype StreamFrame = StreamFrame(offset: int, data: seq<byte>, fin: bool, dataLenPresent: bool)

  /** Length of the header without the data length field. */
  function StreamHeaderLen(streamID: int, offset: int): (n: int)
    ensures 2 <= n <= 17
  {
    1 + VarintLen(streamID) + (if offset != 0 then VarintLen(offset) else 0)
  }

  function StreamFrameLen(streamID: int, offset: int, dataLen: int, dataLenPresent: bool): int {
    StreamHeaderLen(streamID, offset) + (if dataLenPresent then VarintLen(dataLen) else 0) + dataLen
  }

  function Length(streamID: int, f: StreamFrame): int {
    StreamFrameLen(streamID, f.offset, |f.data|, f.dataLenPresent)
  }

  function MaxStreamDataLen(streamID: int, offset: int, dataLenPresent: bool, maxSize: int): (n: int)
    ensures 0 <= n && (maxSize >= 0 ==> n <= maxSize)
  {
    var headerLen := StreamHeaderLen(streamID, offset) + (if dataLenPresent then 1 else 0);
    if headerLen > maxSize then 0
    else
      var maxDataLen := maxSize - headerLen;
      if dataLenPresent && VarintLen(maxDataLen) != 1 then maxDataLen - 1 else maxDataLen
  }

  /** As long as lengths fit two bytes, it is the largest length that fits, whenever one fits. */
  lemma MaxStreamDataLenIsMaximal(streamID: int, offset: int, dataLenPresent: bool, maxSize: int, n: int)
    requires 0 < n && (dataLenPresent ==> n <= LONGEST_DATA || maxSize <= LONGEST_PACKET)
    ensures n <= MaxStreamDataLen(streamID, offset, dataLenPresent, maxSize)
            <==> StreamFrameLen(streamID, offset, n, dataLenPresent) <= maxSize
  {
  }

  /**
   A frame with as much data as computed fits if and only if its length takes at most two bytes;
   otherwise too short a length field was reserved, and the frame is two bytes too long.
   */
  lemma MaximalFitsIff(streamID: int, offset: int, maxSize: int)
    requires 0 < MaxStreamDataLen(streamID, offset, true, maxSize) <= 1073741823
    ensures var n := MaxStreamDataLen(streamID, offset, true, maxSize);
            var len := StreamFrameLen(streamID, offset, n, true);
            (len <= maxSize <==> n <= LONGEST_DATA) && (n > LONGEST_DATA ==> len == maxSize + 2)
  {
  }

  /**
   Splits a frame that is too long: the head, which fits, and the rest, which keeps the FIN.
   No head when not even one byte fits.  Packets are far shorter than 2^14 bytes.
   */
  function MaybeSplitOff(streamID: int, f: StreamFrame, maxSize: int): (r: (Option<StreamFrame>, StreamFrame, bool))
    requires f.dataLenPresent ==> |f.data| <= LONGEST_DATA || maxSize <= LONGEST_PACKET
    ensures !r.2 <==> maxSize >= Length(streamID, f)
    ensures r.0.None? ==> r.1 == f && (r.2 ==> StreamFrameLen(streamID, f.offset, 1, f.dataLenPresent) > maxSize)
    ensures r.0.Some? ==>
      var head, rest := r.0.value, r.1;
      && r.2 && |head.data| > 0 && |rest.data| > 0
      && head.data + rest.data == f.data && !head.fin && rest.fin == f.fin
      && head.offset == f.offset && rest.offset == f.offset + |head.data|
      && head.dataLenPresent == rest.dataLenPresent == f.dataLenPresent
      && Length(streamID, head) <= maxSize
      // no longer head fits
      && StreamFrameLen(streamID, f.offset, |head.data| + 1, f.dataLenPresent) > maxSize
  {
    if maxSize >= Length(streamID, f) then (None, f, false)
    else
      var n := MaxStreamDataLen(streamID, f.offset, f.dataLenPresent, maxSize);
      MaxStreamDataLenIsMaximal(streamID, f.offset, f.dataLenPresent, maxSize, 1);
      if n <= 0 then (None, f, true)
      else
        MaxStreamDataLenIsMaximal(streamID, f.offset, f.dataLenPresent, maxSize, n);
        MaxStreamDataLenIsMaximal(streamID, f.offset, f.dataLenPresent, maxSize, n + 1);
        assert |f.data| > 0 ==> n < |f.data| by {
          if |f.data| > 0 {
            MaxStreamDataLenIsMaximal(streamID, f.offset, f.dataLenPresent, maxSize, |f.data|);
          }
        }
        (Some(StreamFrame(f.offset, f.data[..n], false, f.dataLenPresent)),
         f.(offset := f.offset + n, data := f.data[n..]), true)
  }

  // ---------------------------------------------------------------- CRYPTO frames

  datatype CryptoFrame = CryptoFrame(offset: int, data: seq<byte>)

  /** A type byte and two variable-length integers. */
  function CryptoHeaderLen(offset: int, dataLen: int): (n: int)
    ensures 3 <= n <= 17
  {
    1 + VarintLen(offset) + VarintLen(dataLen)
  }

  function CryptoFrameLen(offset: int, dataLen: int): int {
    CryptoHeaderLen(offset, dataLen) + dataLen
  }

  function MaxCryptoDataLen(offset: int, maxSize: int): (n: int)
    ensures n >= 0
  {
    var headerLen := 1 + VarintLen(offset) + 1;
    if headerLen > maxSize then 0
    else
      var maxDataLen := maxSize - headerLen;
      if VarintLen(maxDataLen) != 1 then maxDataLen - 1 else maxDataLen
  }

  /** As long as lengths fit two bytes, it is the largest length that fits, whenever one fits. */
  lemma MaxCryptoDataLenIsMaximal(offset: int, maxSize: int, n: int)
    requires 0 < n && (n <= LONGEST_DATA || maxSize <= LONGEST_PACKET)
    ensures n <= MaxCryptoDataLen(offset, maxSize) <==> CryptoFrameLen(offset, n) <= maxSize
  {
  }

  /** A frame of this size carries data, whatever its offset. */
  const ENOUGH := 12

  lemma EnoughFits(offset: int, maxLen: int)
    requires maxLen >= ENOUGH
    ensures MaxCryptoDataLen(offset, maxLen) > 0
  {
  }
}
