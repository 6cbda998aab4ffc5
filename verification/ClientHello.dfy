/**
 Where a TLS ClientHello holds its server name (SNI) and its encrypted-hello extension (ECH).
 */
module ClientHello {
  import opened Protocol

  const EXT_TYPE_SNI := 0
  const EXT_TYPE_ECH := 0xfe0d

  /** A position is -1 if there is no such extension. */
  datatype Lookup = Incomplete | Malformed | Found(sniPos: int, sniLen: int, echPos: int)

  function U8(d: seq<byte>, i: int): (n: int)
    requires 0 <= i < |d|
    ensures 0 <= n <= 255
  {
    d[i]
  }

  function U16(d: seq<byte>, i: int): (n: int)
    requires 0 <= i && i + 2 <= |d|
    ensures 0 <= n <= 65535
  {
    256 * U8(d, i) + U8(d, i + 1)
  }

  /**
   Positions lie behind the fixed part of the ClientHello, and point to a host name of the given
   length and to the type of an encrypted hello.
   */
  predicate InBounds(d: seq<byte>, r: Lookup) {
    r.Found? ==>
      && 0 <= r.sniLen <= |d| && r.sniPos + r.sniLen <= |d|
      && (r.sniPos == -1 || (46 <= r.sniPos && U16(d, r.sniPos - 2) == r.sniLen && d[r.sniPos - 3] == 0))
      && (r.echPos == -1 || (43 <= r.echPos && r.echPos + 4 <= |d| && U16(d, r.echPos) == EXT_TYPE_ECH))
  }

  /** The first host name in the name list d[base..base + n], from `pos` on; `last` is the length of the name before. */
  function ScanNames(d: seq<byte>, base: int, n: int, pos: int, last: int): (r: Lookup)
    requires 43 <= base && 2 <= pos && 0 <= n && base + n <= |d| && 0 <= last <= |d|
    ensures InBounds(d, r) && (r.Found? ==> r.echPos == -1)
    decreases n - pos
  {
    if pos + 3 > n then Found(-1, last, -1)
    else
      var len := U16(d, base + pos + 1);
      if pos + 3 + len > n then Incomplete
      else if d[base + pos] == 0 then Found(base + pos + 3, len, -1)
      else ScanNames(d, base, n, pos + 3 + len, len)
  }

  /** The extension at `pos`; `r` is what was found before. */
  function OneExtension(d: seq<byte>, start: int, n: int, pos: int, r: Lookup): (r': Lookup)
    requires r.Found? && InBounds(d, r) && 43 <= start && 0 <= pos && 0 <= n && start + n <= |d|
    requires pos + 4 <= n && pos + 4 + U16(d, start + pos + 2) <= n
    ensures InBounds(d, r')
  {
    var kind, len := U16(d, start + pos), U16(d, start + pos + 2);
    if kind == EXT_TYPE_SNI then
      if r.sniPos != -1 then Malformed
      else if len < 2 || len != 2 + U16(d, start + pos + 4) then Incomplete
      else
        var names := ScanNames(d, start + pos + 4, len, 2, r.sniLen);
        if names.Found? then names.(echPos := r.echPos) else names
    else if kind == EXT_TYPE_ECH then
      if r.echPos != -1 then Malformed else r.(echPos := start + pos)
    else r
  }

  /** The extensions d[start..start + n], from `pos` on; `r` is what was found before. */
  function ScanExtensions(d: seq<byte>, start: int, n: int, pos: int, r: Lookup): (r': Lookup)
    requires r.Found? && InBounds(d, r) && 43 <= start && 0 <= pos && 0 <= n && start + n <= |d|
    ensures InBounds(d, r')
    decreases n - pos
  {
    if pos + 4 > n then r
    else
      var len := U16(d, start + pos + 2);
      if pos + 4 + len > n then Incomplete
      else
        var r' := OneExtension(d, start, n, pos, r);
        if !r'.Found? || (r'.sniPos != -1 && r'.echPos != -1) then r'
        else ScanExtensions(d, start, n, pos + 4 + len, r')
  }

  /** Skips version, random, session ID, cipher suites and compression methods. */
  function SkipToExtensions(d: seq<byte>): (r: Option<int>)
    ensures r.Some? ==> 44 <= r.value <= |d|
  {
    if 39 > |d| then None
    else
      var p := 39 + U8(d, 38);
      if p + 2 > |d| then None
      else
        var q := p + 2 + U16(d, p);
        if q + 1 > |d| then None
        else
          var s := q + 1 + U8(d, q);
          if s + 2 > |d| then None else Some(s + 2)
  }

  function FindSniAndEch(d: seq<byte>): (r: Lookup)
    ensures InBounds(d, r)
  {
    if |d| < 4 then Incomplete
    else if d[0] != 1 then Malformed
    else if |d| != 4 + 65536 * U8(d, 1) + U16(d, 2) then Incomplete
    else
      var ext := SkipToExtensions(d);
      if ext.None? then Incomplete
      else
        var n := U16(d, ext.value - 2);
        if ext.value + n > |d| then Incomplete
        else ScanExtensions(d, ext.value, n, 0, Found(-1, 0, -1))
  }

  // ---------------------------------------------------------------- what is found

  /** Walking the list of extensions from `pos` on leads to one of this kind at `target`. */
  ghost predicate HasExtension(d: seq<byte>, start: int, n: int, pos: int, kind: int, target: int)
    requires 0 <= start && 0 <= pos && 0 <= n && start + n <= |d|
    decreases n - pos
  {
    && pos + 4 <= n
    && var len := U16(d, start + pos + 2);
    && pos + 4 + len <= n
    && ((pos == target && U16(d, start + pos) == kind) || HasExtension(d, start, n, pos + 4 + len, kind, target))
  }

  /** The first host name of a name list, from `pos` on, is at `at` and has `len` bytes. */
  ghost predicate FirstHostName(d: seq<byte>, base: int, n: int, pos: int, at: int, len: int)
    requires 0 <= base && 0 <= pos && 0 <= n && base + n <= |d|
    decreases n - pos
  {
    && pos + 3 <= n
    && var l := U16(d, base + pos + 1);
    && pos + 3 + l <= n
    && if d[base + pos] == 0 then at == base + pos + 3 && len == l else FirstHostName(d, base, n, pos + 3 + l, at, len)
  }

  lemma {:induction false} NamesFound(d: seq<byte>, base: int, n: int, pos: int, last: int)
    requires 43 <= base && 2 <= pos && 0 <= n && base + n <= |d| && 0 <= last <= |d|
    ensures var r := ScanNames(d, base, n, pos, last);
            r.Found? && r.sniPos != -1 ==> FirstHostName(d, base, n, pos, r.sniPos, r.sniLen)
    decreases n - pos
  {
    if pos + 3 <= n {
      var len := U16(d, base + pos + 1);
      if pos + 3 + len <= n && d[base + pos] != 0 {
        NamesFound(d, base, n, pos + 3 + len, len);
      }
    }
  }

  /** An extension of the list holds the first host name of its name list, which fills it, at `at`. */
  ghost predicate NameInList(d: seq<byte>, start: int, n: int, pos: int, at: int, len: int)
    requires 0 <= start && 0 <= pos && 0 <= n && start + n <= |d|
  {
    exists k: nat ::
      && k + 4 <= n && HasExtension(d, start, n, pos, EXT_TYPE_SNI, k)
      && var l := U16(d, start + k + 2);
      && k + 4 + l <= n && l >= 2 && l == 2 + U16(d, start + k + 4)
      && FirstHostName(d, start + k + 4, l, 2, at, len)
  }

  /** What a scan finds that was not found before is in the list of extensions. */
  ghost predicate InList(d: seq<byte>, start: int, n: int, pos: int, r: Lookup, r': Lookup)
    requires 0 <= start && 0 <= pos && 0 <= n && start + n <= |d|
  {
    r.Found? && r'.Found? ==>
      && (r.echPos == -1 && r'.echPos != -1 ==> HasExtension(d, start, n, pos, EXT_TYPE_ECH, r'.echPos - start))
      && (r.sniPos == -1 && r'.sniPos != -1 ==> NameInList(d, start, n, pos, r'.sniPos, r'.sniLen))
      && (r.echPos != -1 ==> r'.echPos == r.echPos)
      && (r.sniPos != -1 ==> r'.sniPos == r.sniPos && r'.sniLen == r.sniLen)
  }

  lemma {:induction false} ExtensionsFound(d: seq<byte>, start: int, n: int, pos: int, r: Lookup)
    requires r.Found? && InBounds(d, r) && 43 <= start && 0 <= pos && 0 <= n && start + n <= |d|
    ensures InList(d, start, n, pos, r, ScanExtensions(d, start, n, pos, r))
    decreases n - pos
  {
    if pos + 4 <= n && pos + 4 + U16(d, start + pos + 2) <= n {
      var kind, len := U16(d, start + pos), U16(d, start + pos + 2);
      var s := OneExtension(d, start, n, pos, r);
      OneFound(d, start, n, pos, r);
      if s.Found? && (s.sniPos == -1 || s.echPos == -1) {
        ExtensionsFound(d, start, n, pos + 4 + len, s);
        LaterFound(d, start, n, pos, r, s, ScanExtensions(d, start, n, pos, r));
      }
    }
  }

  lemma OneFound(d: seq<byte>, start: int, n: int, pos: int, r: Lookup)
    requires r.Found? && InBounds(d, r) && 43 <= start && 0 <= pos && 0 <= n && start + n <= |d|
    requires pos + 4 <= n && pos + 4 + U16(d, start + pos + 2) <= n
    ensures InList(d, start, n, pos, r, OneExtension(d, start, n, pos, r))
  {
    var kind, len := U16(d, start + pos), U16(d, start + pos + 2);
    if kind == EXT_TYPE_SNI && r.sniPos == -1 && len >= 2 {
      NamesFound(d, start + pos + 4, len, 2, r.sniLen);
      assert HasExtension(d, start, n, pos, EXT_TYPE_SNI, pos);
    }
  }

  lemma LaterFound(d: seq<byte>, start: int, n: int, pos: int, r: Lookup, s: Lookup, t: Lookup)
    requires 0 <= start && 0 <= pos && 0 <= n && start + n <= |d| && pos + 4 <= n
    requires var next := pos + 4 + U16(d, start + pos + 2);
             next <= n && r.Found? && s.Found? && InList(d, start, n, pos, r, s) && InList(d, start, n, next, s, t)
    ensures InList(d, start, n, pos, r, t)
  {
    var next := pos + 4 + U16(d, start + pos + 2);
    if t.Found? && s.sniPos == -1 && t.sniPos != -1 {
      var k: nat :|
        && k + 4 <= n && HasExtension(d, start, n, next, EXT_TYPE_SNI, k)
        && var l := U16(d, start + k + 2);
        && k + 4 + l <= n && l >= 2 && l == 2 + U16(d, start + k + 4)
        && FirstHostName(d, start + k + 4, l, 2, t.sniPos, t.sniLen);
      assert HasExtension(d, start, n, pos, EXT_TYPE_SNI, k);
    }
  }

  /** A host name that the list starts with is found. */
  lemma {:induction false} NamesComplete(d: seq<byte>, base: int, n: int, pos: int, last: int, at: int, len: int)
    requires 43 <= base && 2 <= pos && 0 <= n && base + n <= |d| && 0 <= last <= |d|
    requires FirstHostName(d, base, n, pos, at, len)
    ensures ScanNames(d, base, n, pos, last) == Found(at, len, -1) && at >= 0
    decreases n - pos
  {
    var l := U16(d, base + pos + 1);
    if d[base + pos] != 0 {
      NamesComplete(d, base, n, pos + 3 + l, l, at, len);
    }
  }

  /** A scan that comes to an end misses no encrypted hello. */
  lemma {:induction false} EchComplete(d: seq<byte>, start: int, n: int, pos: int, r: Lookup, k: int)
    requires r.Found? && InBounds(d, r) && 43 <= start && 0 <= pos && 0 <= n && start + n <= |d|
    requires HasExtension(d, start, n, pos, EXT_TYPE_ECH, k)
    ensures var r' := ScanExtensions(d, start, n, pos, r);
            r'.Found? ==> r'.echPos != -1
    decreases n - pos
  {
    var len := U16(d, start + pos + 2);
    var s := OneExtension(d, start, n, pos, r);
    if s.Found? && (s.sniPos == -1 || s.echPos == -1) {
      if pos == k && U16(d, start + pos) == EXT_TYPE_ECH {
        ExtensionsFound(d, start, n, pos + 4 + len, s);
      } else {
        EchComplete(d, start, n, pos + 4 + len, s, k);
      }
    }
  }

  /** Nor a host name. */
  lemma {:induction false} NameComplete(d: seq<byte>, start: int, n: int, pos: int, r: Lookup, k: int, at: int,
                                        len: int)
    requires r.Found? && InBounds(d, r) && 43 <= start && 0 <= pos && 0 <= n && start + n <= |d|
    requires 0 <= k && k + 4 <= n && HasExtension(d, start, n, pos, EXT_TYPE_SNI, k)
    requires var l := U16(d, start + k + 2);
             k + 4 + l <= n && FirstHostName(d, start + k + 4, l, 2, at, len)
    ensures var r' := ScanExtensions(d, start, n, pos, r);
            r'.Found? ==> r'.sniPos != -1
    decreases n - pos
  {
    var l := U16(d, start + pos + 2);
    var s := OneExtension(d, start, n, pos, r);
    if s.Found? && (s.sniPos == -1 || s.echPos == -1) {
      if pos == k && U16(d, start + pos) == EXT_TYPE_SNI {
        NamesComplete(d, start + pos + 4, l, 2, r.sniLen, at, len);
        ExtensionsFound(d, start, n, pos + 4 + l, s);
      } else {
        NameComplete(d, start, n, pos + 4 + l, s, k, at, len);
      }
    }
  }

  lemma ListedNameFound(d: seq<byte>, start: int, n: int, at: int, len: int)
    requires 43 <= start && 0 <= n && start + n <= |d| && NameInList(d, start, n, 0, at, len)
    ensures var r := ScanExtensions(d, start, n, 0, Found(-1, 0, -1));
            r.Found? ==> r.sniPos != -1
  {
    hide ScanExtensions, HasExtension, FirstHostName;
    var k: nat :|
      && k + 4 <= n && HasExtension(d, start, n, 0, EXT_TYPE_SNI, k)
      && var l := U16(d, start + k + 2);
      && k + 4 + l <= n && l >= 2 && l == 2 + U16(d, start + k + 4)
      && FirstHostName(d, start + k + 4, l, 2, at, len);
    NameComplete(d, start, n, 0, Found(-1, 0, -1), k, at, len);
  }

  /** What is not found is not there: no encrypted hello, no name list with a host name. */
  lemma NotFoundNotInList(d: seq<byte>)
    requires FindSniAndEch(d).Found?
    ensures var ext, r := SkipToExtensions(d), FindSniAndEch(d);
            && ext.Some? && ext.value >= 2 && var n := U16(d, ext.value - 2);
            && ext.value + n <= |d|
            && (r.echPos == -1 ==> forall k :: !HasExtension(d, ext.value, n, 0, EXT_TYPE_ECH, k))
            && (r.sniPos == -1 ==> forall at, len :: !NameInList(d, ext.value, n, 0, at, len))
  {
    var ext, r := SkipToExtensions(d).value, FindSniAndEch(d);
    var n, none := U16(d, ext - 2), Found(-1, 0, -1);
    hide ScanExtensions, HasExtension, FirstHostName, FindSniAndEch;
    assert r == ScanExtensions(d, ext, n, 0, none);
    forall k | HasExtension(d, ext, n, 0, EXT_TYPE_ECH, k)
      ensures r.echPos != -1
    {
      EchComplete(d, ext, n, 0, none, k);
    }
    hide NameInList;
    forall at, len | NameInList(d, ext, n, 0, at, len)
      ensures r.sniPos != -1
    {
      ListedNameFound(d, ext, n, at, len);
    }
  }

  /** The positions found are those of the encrypted hello, and of the first host name, in the list of extensions. */
  lemma FoundInList(d: seq<byte>)
    requires FindSniAndEch(d).Found?
    ensures |d| >= 4 && d[0] == 1 && |d| == 4 + 65536 * U8(d, 1) + U16(d, 2)
    ensures var ext, r := SkipToExtensions(d), FindSniAndEch(d);
            && ext.Some? && ext.value >= 2 && var n := U16(d, ext.value - 2);
            && ext.value + n <= |d|
            && (r.echPos != -1 ==> HasExtension(d, ext.value, n, 0, EXT_TYPE_ECH, r.echPos - ext.value))
            && (r.sniPos != -1 ==> NameInList(d, ext.value, n, 0, r.sniPos, r.sniLen))
  {
    hide ScanExtensions, HasExtension, NameInList;
    var ext := SkipToExtensions(d).value;
    ExtensionsFound(d, ext, U16(d, ext - 2), 0, Found(-1, 0, -1));
  }

  /** A message that goes on after a complete ClientHello is not looked into again. */
  lemma LongerIsIncomplete(d: seq<byte>, p: seq<byte>)
    requires FindSniAndEch(d).Found? && |p| > 0
    ensures FindSniAndEch(d + p) == Incomplete
  {
    assert forall i :: 0 <= i < |d| ==> (d + p)[i] == d[i];
  }

  /** Nor is anything looked for before it is complete. */
  lemma PrefixIsIncomplete(d: seq<byte>, k: nat)
    requires FindSniAndEch(d).Found? && k < |d|
    ensures FindSniAndEch(d[..k]) == Incomplete
  {
    var e := d[..k];
    if k >= 4 {
      assert e[0] == d[0] && U8(e, 1) == U8(d, 1) && U16(e, 2) == U16(d, 2);
    }
  }

  // ---------------------------------------------------------------- ClientHellos in general

  function Bytes16(n: nat): (b: seq<byte>)
    requires n <= 65535
    ensures |b| == 2 && U16(b, 0) == n
  {
    [n / 256, n % 256]
  }

  function Bytes24(n: nat): (b: seq<byte>)
    requires n <= 16777215
    ensures |b| == 3 && 65536 * U8(b, 0) + U16(b, 1) == n
  {
    [n / 65536] + Bytes16(n % 65536)
  }

  /** The parts of a ClientHello; `random` includes the version. */
  datatype Parts = Parts(
    random: seq<byte>, sessionID: seq<byte>, ciphers: seq<byte>, compression: seq<byte>, extensions: seq<byte>)

  predicate PartsOk(p: Parts) {
    && |p.random| == 34 && |p.sessionID| <= 255 && |p.ciphers| <= 65535 && |p.compression| <= 255
    && |p.extensions| <= 65535
  }

  function Field8(x: seq<byte>, rest: seq<byte>): (r: seq<byte>)
    requires |x| <= 255
    ensures |r| == 1 + |x| + |rest|
  {
    [|x|] + x + rest
  }

  function Field16(x: seq<byte>, rest: seq<byte>): (r: seq<byte>)
    requires |x| <= 65535
    ensures |r| == 2 + |x| + |rest|
  {
    Bytes16(|x|) + x + rest
  }

  function Body(p: Parts): (b: seq<byte>)
    requires PartsOk(p)
    ensures |b| == ExtensionsStart(p) - 4 + |p.extensions|
  {
    p.random + Field8(p.sessionID, Field16(p.ciphers, Field8(p.compression, Field16(p.extensions, []))))
  }

  function Hello(p: Parts): (d: seq<byte>)
    requires PartsOk(p)
    ensures |d| == ExtensionsStart(p) + |p.extensions|
  {
    [1] + Bytes24(|Body(p)|) + Body(p)
  }

  /** Where the extensions of a ClientHello start. */
  function ExtensionsStart(p: Parts): nat {
    44 + |p.sessionID| + |p.ciphers| + |p.compression|
  }

  lemma SkipField8(d: seq<byte>, a: seq<byte>, x: seq<byte>, rest: seq<byte>) returns (b: seq<byte>)
    requires |x| <= 255 && d == a + Field8(x, rest)
    ensures |b| == |a| + 1 + |x| && d == b + rest && U8(d, |a|) == |x|
  {
    b := a + [|x|] + x;
  }

  lemma SkipField16(d: seq<byte>, a: seq<byte>, x: seq<byte>, rest: seq<byte>) returns (b: seq<byte>)
    requires |x| <= 65535 && d == a + Field16(x, rest)
    ensures |b| == |a| + 2 + |x| && d == b + rest && U16(d, |a|) == |x| && d[|a| + 2..|b|] == x
  {
    var n := Bytes16(|x|);
    assert d[|a|] == n[0] && d[|a| + 1] == n[1];
    b := a + n + x;
  }

  /** Four fields behind the fixed part, the last of them the extensions. */
  lemma SkipsFields(d: seq<byte>, a: seq<byte>, p: Parts)
    requires PartsOk(p) && |a| == 38
    requires d == a + Field8(p.sessionID, Field16(p.ciphers, Field8(p.compression, Field16(p.extensions, []))))
    ensures |d| == ExtensionsStart(p) + |p.extensions| && SkipToExtensions(d) == Some(ExtensionsStart(p))
    ensures U16(d, ExtensionsStart(p) - 2) == |p.extensions| && d[ExtensionsStart(p)..] == p.extensions
  {
    hide Field8, Field16;
    var f := Field16(p.extensions, []);
    var g := Field8(p.compression, f);
    var h := Field16(p.ciphers, g);
    var b := SkipField8(d, a, p.sessionID, h);
    var c := SkipField16(d, b, p.ciphers, g);
    var e := SkipField8(d, c, p.compression, f);
    var all := SkipField16(d, e, p.extensions, []);
    assert all == d;
  }

  /** The length fields are found where they are, whatever the parts are. */
  lemma HelloFields(p: Parts)
    requires PartsOk(p)
    ensures var d, start := Hello(p), ExtensionsStart(p);
            SkipToExtensions(d) == Some(start) && U16(d, start - 2) == |p.extensions| && d[start..] == p.extensions
  {
    hide Field8, Field16, SkipToExtensions;
    var d, a := Hello(p), [1] + Bytes24(|Body(p)|) + p.random;
    SkipsFields(d, a, p);
  }

  /** So is the length of the whole. */
  lemma HelloLength(p: Parts)
    requires PartsOk(p)
    ensures var d := Hello(p);
            d[0] == 1 && |d| == 4 + 65536 * U8(d, 1) + U16(d, 2)
  {
    var d, len := Hello(p), Bytes24(|Body(p)|);
    assert d[1] == len[0] && d[2] == len[1] && d[3] == len[2];
    assert U8(len, 0) == U8(d, 1) && U16(len, 1) == U16(d, 2);
  }

  /** Every ClientHello is searched through to its last extension. */
  lemma HelloSearched(p: Parts)
    requires PartsOk(p)
    ensures var d, start := Hello(p), ExtensionsStart(p);
            && d[start..] == p.extensions
            && FindSniAndEch(d) == ScanExtensions(d, start, |p.extensions|, 0, Found(-1, 0, -1))
  {
    hide ScanExtensions, Hello, SkipToExtensions;
    HelloFields(p);
    HelloLength(p);
  }

  // ---------------------------------------------------------------- examples

  /** A minimal ClientHello: no session ID, cipher suites or compression methods, but extensions. */
  function Minimal(extensions: seq<byte>): (d: seq<byte>)
    requires |extensions| < 200
    ensures |d| == 44 + |extensions|
  {
    [1, 0, 0, 40 + |extensions|] + seq(34, _ => 0) + [0, 0, 0, 0, 0, |extensions|] + extensions
  }

  lemma MinimalExtensions(extensions: seq<byte>)
    requires |extensions| < 200
    ensures var d := Minimal(extensions);
            && FindSniAndEch(d) == ScanExtensions(d, 44, |extensions|, 0, Found(-1, 0, -1))
            && forall i :: 0 <= i < |extensions| ==> d[44 + i] == extensions[i]
  {
    hide Minimal, ScanExtensions;
    MinimalBytes(extensions);
    NoOptions(Minimal(extensions));
  }

  lemma MinimalBytes(extensions: seq<byte>)
    requires |extensions| < 200
    ensures var d := Minimal(extensions);
            && d[0] == 1 && d[1] == 0 && d[2] == 0 && d[3] == 40 + |extensions| && d[38] == 0 && d[39] == 0
            && d[40] == 0 && d[41] == 0 && d[42] == 0 && d[43] == |extensions|
            && forall i :: 0 <= i < |extensions| ==> d[44 + i] == extensions[i]
  {
  }

  lemma NoOptions(d: seq<byte>)
    requires |d| >= 44 && d[38] == 0 && d[39] == 0 && d[40] == 0 && d[41] == 0
    ensures SkipToExtensions(d) == Some(44)
  {
    assert U16(d, 39) == 0;
  }

  /** An encrypted hello and no server name. */
  const ECH_ONLY := [0xfe, 0x0d, 0, 0]

  lemma EchOnly()
    ensures FindSniAndEch(Minimal(ECH_ONLY)) == Found(-1, 0, 44)
  {
    var d := Minimal(ECH_ONLY);
    MinimalExtensions(ECH_ONLY);
    assert d[44] == 0xfe && d[45] == 0x0d && d[46] == 0 && d[47] == 0;
    assert U16(d, 44) == EXT_TYPE_ECH && U16(d, 46) == 0;
  }

  /** An empty server name. */
  const EMPTY_NAME := [0, 0, 0, 5, 0, 3, 0, 0, 0]

  lemma EmptyName()
    ensures FindSniAndEch(Minimal(EMPTY_NAME)) == Found(53, 0, -1)
  {
    var d := Minimal(EMPTY_NAME);
    MinimalExtensions(EMPTY_NAME);
    assert d[44] == 0 && d[45] == 0 && d[46] == 0 && d[47] == 5 && d[48] == 0 && d[49] == 3;
    assert d[50] == 0 && d[51] == 0 && d[52] == 0;
    assert U16(d, 44) == EXT_TYPE_SNI && U16(d, 46) == 5 && U16(d, 48) == 3 && U16(d, 51) == 0;
    assert ScanNames(d, 48, 5, 2, 0) == Found(53, 0, -1);
  }

  /** A server name extension. */
  function NameExtension(name: seq<byte>): (e: seq<byte>)
    requires |name| < 100
    ensures |e| == 9 + |name|
  {
    [0, 0, 0, |name| + 5, 0, |name| + 3, 0, 0, |name|] + name
  }

  lemma NameBytes(d: seq<byte>, at: int, name: seq<byte>)
    requires |name| < 100 && 0 <= at && at + 9 + |name| <= |d| && d[at..at + 9 + |name|] == NameExtension(name)
    ensures U16(d, at) == EXT_TYPE_SNI && U16(d, at + 2) == |name| + 5 && U16(d, at + 4) == |name| + 3
    ensures d[at + 6] == 0 && U16(d, at + 7) == |name|
  {
    var e := NameExtension(name);
    forall i | 0 <= i < 9
      ensures d[at + i] == e[i]
    {
      assert d[at..at + 9 + |name|][i] == d[at + i];
    }
    assert d[at + 1] == e[1] && d[at + 2] == e[2] && d[at + 3] == e[3] && d[at + 4] == e[4] && d[at + 5] == e[5];
    assert d[at + 0] == e[0] && d[at + 7] == e[7] && d[at + 8] == e[8];
  }

  /** An encrypted hello comes next. */
  lemma EchNext(d: seq<byte>, start: int, n: int, pos: int, r: Lookup)
    requires r.Found? && InBounds(d, r) && 43 <= start && 0 <= pos && start + n <= |d| && pos + 4 <= n
    requires U16(d, start + pos) == EXT_TYPE_ECH && U16(d, start + pos + 2) == 0 && r.echPos == -1 && r.sniPos == -1
    ensures ScanExtensions(d, start, n, pos, r) == ScanExtensions(d, start, n, pos + 4, r.(echPos := start + pos))
  {
  }

  /** A server name comes next, and is all that is missing. */
  lemma NameNext(d: seq<byte>, start: int, n: int, pos: int, r: Lookup, len: int)
    requires r.Found? && InBounds(d, r) && 43 <= start && 0 <= pos && start + n <= |d| && len >= 0 && pos + 9 + len <= n
    requires U16(d, start + pos) == EXT_TYPE_SNI && U16(d, start + pos + 2) == len + 5
    requires U16(d, start + pos + 4) == len + 3
    requires d[start + pos + 6] == 0 && U16(d, start + pos + 7) == len && r.sniPos == -1 && r.echPos != -1
    ensures ScanExtensions(d, start, n, pos, r) == Found(start + pos + 9, len, r.echPos)
  {
    assert ScanNames(d, start + pos + 4, len + 5, 2, r.sniLen) == Found(start + pos + 9, len, -1);
  }

  /** An encrypted hello right before a server name. */
  function EchThenName(name: seq<byte>): (d: seq<byte>)
    requires |name| < 100
    ensures |d| == 57 + |name|
  {
    Minimal(ECH_ONLY + NameExtension(name))
  }

  lemma EchThenNameFound(name: seq<byte>)
    requires |name| < 100
    ensures FindSniAndEch(EchThenName(name)) == Found(57, |name|, 44)
  {
    hide Minimal, FindSniAndEch, ScanExtensions, NameExtension;
    var e, d := ECH_ONLY + NameExtension(name), EchThenName(name);
    MinimalExtensions(e);
    assert d[44 + 0] == e[0] && d[44 + 1] == e[1] && d[44 + 2] == e[2] && d[44 + 3] == e[3];
    assert d[48..48 + 9 + |name|] == NameExtension(name) by {
      forall i | 0 <= i < 9 + |name|
        ensures d[48 + i] == NameExtension(name)[i]
      {
        assert d[44 + (4 + i)] == e[4 + i];
      }
    }
    NameBytes(d, 48, name);
    EchNext(d, 44, 13 + |name|, 0, Found(-1, 0, -1));
    NameNext(d, 44, 13 + |name|, 4, Found(-1, 0, 44), |name|);
  }
}
