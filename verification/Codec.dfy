/**
 STREAM and CRYPTO frames as bytes: what is encoded is parsed again, and takes exactly the length that
 is computed for it.
 */
module Codec {
  import opened Protocol
  import opened Wire
  import opened Framing
  import opened Sums
  import Senders

  // ---------------------------------------------------------------- variable-length integers

  function Pow256(n: nat): (p: nat)
    ensures p > 0
  {
    if n == 0 then 1 else 256 * Pow256(n - 1)
  }

  lemma Powers()
    ensures Pow256(0) == 1 && Pow256(1) == 256 && Pow256(3) == 0x100_0000 && Pow256(7) == 0x100_0000_0000_0000
  {
    assert Pow256(2) == 0x1_0000 && Pow256(4) == 0x1_0000_0000;
    assert Pow256(5) == 0x100_0000_0000 && Pow256(6) == 0x1_0000_0000_0000;
  }

  /** The last `len` bytes of `n`, the most significant one first. */
  function BigEndian(n: nat, len: nat): (b: seq<byte>)
    ensures |b| == len
  {
    if len == 0 then [] else BigEndian(n / 256, len - 1) + [n % 256]
  }

  function FromBigEndian(b: seq<byte>): (n: nat) {
    if b == [] then 0 else 256 * FromBigEndian(b[..|b| - 1]) + b[|b| - 1]
  }

  lemma {:induction false} BigEndianBack(n: nat, len: nat)
    requires n < Pow256(len)
    ensures FromBigEndian(BigEndian(n, len)) == n
  {
    if len > 0 {
      BigEndianBack(n / 256, len - 1);
      assert BigEndian(n, len)[..len - 1] == BigEndian(n / 256, len - 1);
    }
  }

  /** The two highest bits are free. */
  lemma {:induction false} TopBitsFree(n: nat, len: nat)
    requires len > 0 && n < 64 * Pow256(len - 1)
    ensures BigEndian(n, len)[0] < 64
  {
    if len > 1 {
      TopBitsFree(n / 256, len - 1);
    }
  }

  /** What the two highest bits say about the length. */
  function LenOf(prefix: nat): (len: nat)
    requires prefix < 4
    ensures len > 0
  {
    match prefix
    case 0 => 1
    case 1 => 2
    case 2 => 4
    case 3 => 8
  }

  function PrefixOf(len: nat): (prefix: nat)
    ensures prefix < 4
  {
    if len == 1 then 0 else if len == 2 then 1 else if len == 4 then 2 else 3
  }

  lemma VarintBounds(n: nat)
    requires n <= MAX_VARINT
    ensures var len := VarintLen(n);
            && len > 0 && LenOf(PrefixOf(len)) == len && n < 64 * Pow256(len - 1) && n < Pow256(len)
            && BigEndian(n, len)[0] < 64
  {
    Powers();
    TopBitsFree(n, VarintLen(n));
  }

  /** The largest number that can be encoded, 2^62 - 1. */
  const MAX_VARINT: int := 0x3FFF_FFFF_FFFF_FFFF

  function AppendVarint(n: nat): (b: seq<byte>)
    requires n <= MAX_VARINT
    ensures |b| == VarintLen(n) > 0
  {
    VarintBounds(n);
    var b := BigEndian(n, VarintLen(n));
    b[0 := 64 * PrefixOf(VarintLen(n)) + b[0]]
  }

  /** The number at the start of `b`, and how many bytes it takes. */
  function ParseVarint(b: seq<byte>): (r: Option<(nat, nat)>)
    ensures r.Some? ==> 0 < r.value.1 <= |b|
  {
    if |b| == 0 then None
    else
      var len := LenOf(b[0] / 64);
      if |b| < len then None else Some((FromBigEndian(b[..len][0 := b[0] % 64]), len))
  }

  lemma VarintBack(n: nat, rest: seq<byte>)
    requires n <= MAX_VARINT
    ensures ParseVarint(AppendVarint(n) + rest) == Some((n, VarintLen(n)))
  {
    hide FromBigEndian, BigEndian, Pow256, VarintLen;
    VarintBounds(n);
    var len := VarintLen(n);
    var b, e := BigEndian(n, len), AppendVarint(n);
    BigEndianBack(n, len);
    assert (e + rest)[..len] == e && e[0] / 64 == PrefixOf(len) && e[0] % 64 == b[0];
    assert e[0 := b[0]] == b;
  }

  /** No shorter encoding would do. */
  lemma VarintShortest(n: nat)
    requires n <= MAX_VARINT && VarintLen(n) > 1
    ensures n >= 64 * Pow256(VarintLen(n) / 2 - 1)
  {
    Powers();
  }

  // ---------------------------------------------------------------- STREAM frames

  /** Frames that are sent: not empty without a FIN, and within what a packet and the offsets allow. */
  predicate Encodable(p: Packed) {
    var f := p.frame;
    && p.streamID <= MAX_VARINT && 0 <= f.offset && f.offset + |f.data| <= MAX_BYTE_COUNT
    && (f.data != [] || f.fin) && |f.data| <= Senders.MAX_PACKET_BUFFER_SIZE
  }

  function TypeOf(f: StreamFrame): (t: byte)
    ensures 8 <= t <= 15
  {
    8 + (if f.fin then 1 else 0) + (if f.dataLenPresent then 2 else 0) + (if f.offset != 0 then 4 else 0)
  }

  function AppendIf(present: bool, n: nat): (b: seq<byte>)
    requires n <= MAX_VARINT
    ensures |b| == if present then VarintLen(n) else 0
  {
    if present then AppendVarint(n) else []
  }

  function EncodeStream(p: Packed): (b: seq<byte>)
    requires Encodable(p)
    ensures |b| == Length(p.streamID, p.frame)
  {
    var f := p.frame;
    [TypeOf(f)] + (AppendVarint(p.streamID) + (AppendIf(f.offset != 0, f.offset)
                                               + (AppendIf(f.dataLenPresent, |f.data|) + f.data)))
  }

  /** A number if it is there, and what follows; `Some((absent, b))` if it is not. */
  function ParseIf(present: bool, b: seq<byte>, absent: nat): (r: Option<(nat, seq<byte>)>)
    ensures r.Some? ==> |r.value.1| <= |b|
  {
    if !present then Some((absent, b))
    else
      var v := ParseVarint(b);
      if v.None? then None else Some((v.value.0, b[v.value.1..]))
  }

  /** The frame at the start of `b`, and what follows it. */
  function ParseStream(b: seq<byte>): (r: Option<(Packed, seq<byte>)>)
    ensures r.Some? ==> |r.value.1| < |b|
  {
    if b == [] || b[0] / 8 != 1 then None
    else
      var fin, hasDataLen, hasOffset := b[0] % 2 == 1, b[0] / 2 % 2 == 1, b[0] / 4 % 2 == 1;
      var id := ParseIf(true, b[1..], 0);
      if id.None? then None
      else
        var offset := ParseIf(hasOffset, id.value.1, 0);
        if offset.None? then None
        else
          var len := ParseIf(hasDataLen, offset.value.1, |offset.value.1|);
          if len.None? then None else ParseData(id.value.0, offset.value.0, fin, hasDataLen, len.value.0, len.value.1)
  }

  function ParseData(id: nat, offset: nat, fin: bool, hasDataLen: bool, len: nat, b: seq<byte>)
    : (r: Option<(Packed, seq<byte>)>)
    ensures r.Some? ==> |r.value.1| <= |b|
  {
    if len > |b| then None
    else if len >= MIN_STREAM_FRAME_BUFFER_SIZE && len > Senders.MAX_PACKET_BUFFER_SIZE then None
    else if offset + len > MAX_BYTE_COUNT then None
    else Some((Packed(id, StreamFrame(offset, b[..len], fin, hasDataLen)), b[len..]))
  }

  lemma ParseIfBack(present: bool, n: nat, rest: seq<byte>, absent: nat)
    requires n <= MAX_VARINT && (!present ==> n == absent)
    ensures ParseIf(present, AppendIf(present, n) + rest, absent) == Some((n, rest))
  {
    hide AppendVarint, ParseVarint;
    if present {
      VarintBack(n, rest);
      assert (AppendVarint(n) + rest)[VarintLen(n)..] == rest;
    } else {
      assert [] + rest == rest;
    }
  }

  lemma TypeBits(f: StreamFrame)
    ensures var t := TypeOf(f);
            && t / 8 == 1 && (t % 2 == 1 <==> f.fin) && (t / 2 % 2 == 1 <==> f.dataLenPresent)
            && (t / 4 % 2 == 1 <==> f.offset != 0)
  {
  }

  /** A frame is parsed as it was encoded; without a length field, if it is the last of the packet. */
  lemma StreamBack(p: Packed, rest: seq<byte>)
    requires Encodable(p) && (rest != [] ==> p.frame.dataLenPresent)
    ensures ParseStream(EncodeStream(p) + rest) == Some((p, rest))
  {
    hide AppendVarint, ParseVarint, AppendIf, ParseIf, TypeOf, VarintLen, Length;
    var f := p.frame;
    var data := f.data + rest;
    var tail := AppendIf(f.dataLenPresent, |f.data|) + data;
    var body := AppendIf(f.offset != 0, f.offset) + tail;
    var b := EncodeStream(p) + rest;
    StreamBytes(p, rest);
    TypeBits(f);
    ParseIfBack(true, p.streamID, body, 0);
    ParseIfBack(f.offset != 0, f.offset, tail, 0);
    if f.dataLenPresent {
      ParseIfBack(true, |f.data|, data, |tail|);
    } else {
      ParseIfBack(false, |f.data|, data, |tail|);
    }
    assert data[..|f.data|] == f.data && data[|f.data|..] == rest;
  }

  lemma StreamBytes(p: Packed, rest: seq<byte>)
    requires Encodable(p)
    ensures var f, b := p.frame, EncodeStream(p) + rest;
            && b[0] == TypeOf(f)
            && b[1..] == AppendIf(true, p.streamID) + (AppendIf(f.offset != 0, f.offset)
                                                       + (AppendIf(f.dataLenPresent, |f.data|) + (f.data + rest)))
  {
    hide AppendVarint, TypeOf, VarintLen, Length;
  }

  // ---------------------------------------------------------------- the STREAM frames of a packet

  function EncodeAll(ps: seq<Packed>): (b: seq<byte>)
    requires forall i :: 0 <= i < |ps| ==> Encodable(ps[i])
  {
    if ps == [] then [] else EncodeStream(ps[0]) + EncodeAll(ps[1..])
  }

  function ParseAll(b: seq<byte>): (r: Option<seq<Packed>>)
    decreases |b|
  {
    if b == [] then Some([])
    else
      var first := ParseStream(b);
      if first.None? then None
      else
        var rest := ParseAll(first.value.1);
        if rest.None? then None else Some([first.value.0] + rest.value)
  }

  /** At most the last frame has no length field. */
  predicate OnlyLastOpen(ps: seq<Packed>) {
    forall i :: 0 <= i < |ps| - 1 ==> ps[i].frame.dataLenPresent
  }

  /** What a packet carries is parsed as it was packed, and takes exactly the computed length. */
  lemma {:induction false} PacketBack(ps: seq<Packed>)
    requires OnlyLastOpen(ps) && forall i :: 0 <= i < |ps| ==> Encodable(ps[i])
    ensures ParseAll(EncodeAll(ps)) == Some(ps) && |EncodeAll(ps)| == StreamTotal(ps)
  {
    hide EncodeStream, ParseStream, Encodable;
    if ps != [] {
      var rest := ps[1..];
      assert ps == [ps[0]] + rest;
      PacketBack(rest);
      NothingAfterLast(rest);
      StreamBack(ps[0], EncodeAll(rest));
      SumConcat([ps[0]], rest, StreamLens());
      SumOne(ps[0], StreamLens());
    }
  }

  lemma NothingAfterLast(ps: seq<Packed>)
    requires forall i :: 0 <= i < |ps| ==> Encodable(ps[i])
    ensures EncodeAll(ps) != [] ==> ps != []
  {
  }

  // ---------------------------------------------------------------- CRYPTO frames

  predicate CryptoEncodable(f: CryptoFrame) {
    0 <= f.offset <= MAX_VARINT && |f.data| <= MAX_VARINT
  }

  function EncodeCrypto(f: CryptoFrame): (b: seq<byte>)
    requires CryptoEncodable(f)
    ensures |b| == CryptoFrameLen(f.offset, |f.data|)
  {
    [6] + (AppendVarint(f.offset) + (AppendVarint(|f.data|) + f.data))
  }

  function ParseCrypto(b: seq<byte>): (r: Option<(CryptoFrame, seq<byte>)>) {
    if b == [] || b[0] != 6 then None
    else
      var offset := ParseIf(true, b[1..], 0);
      if offset.None? then None
      else
        var len := ParseIf(true, offset.value.1, 0);
        if len.None? || len.value.0 > |len.value.1| then None
        else Some((CryptoFrame(offset.value.0, len.value.1[..len.value.0]), len.value.1[len.value.0..]))
  }

  lemma CryptoBack(f: CryptoFrame, rest: seq<byte>)
    requires CryptoEncodable(f)
    ensures ParseCrypto(EncodeCrypto(f) + rest) == Some((f, rest))
  {
    hide AppendVarint, ParseVarint, ParseIf, VarintLen;
    var data := f.data + rest;
    var b := EncodeCrypto(f) + rest;
    assert b[1..] == AppendIf(true, f.offset) + (AppendIf(true, |f.data|) + data);
    ParseIfBack(true, f.offset, AppendIf(true, |f.data|) + data, 0);
    ParseIfBack(true, |f.data|, data, 0);
    assert data[..|f.data|] == f.data && data[|f.data|..] == rest;
  }
}
