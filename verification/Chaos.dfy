/**
 Chaos protection of Initial packets: the CRYPTO data is cut into more frames, PING frames and
 padding are mixed in, and everything is shuffled, at an unchanged total size.

 A source of random numbers is a function `rand` from the number of the draw to the number drawn;
 a draw below `n` is taken modulo `n`, so every outcome is possible.
 */
module Chaos {
  import opened Protocol
  import opened Sums
  import opened Wire

  const MIN_ADDED_CRYPTO_FRAMES := 2
  const MAX_ADDED_CRYPTO_FRAMES := 10
  const MIN_PING_FRAMES := 2
  const MAX_PING_FRAMES := 10
  const MIN_FIRST_FRAME_LEN := 55
  const FIRST_FRAME_LEN_RANDOM := 32

  // ---------------------------------------------------------------- shredding CRYPTO frames

  /** Does the frame carry byte `b` at offset `x`? */
  function At(x: int, b: byte): CryptoFrame -> int {
    (f: CryptoFrame) => if f.offset <= x < f.offset + |f.data| && f.data[x - f.offset] == b then 1 else 0
  }

  function FrameLen(): CryptoFrame -> int {
    (f: CryptoFrame) => CryptoFrameLen(f.offset, |f.data|)
  }

  /** Both lists of frames carry the same bytes at the same offsets, equally often. */
  ghost predicate SameData(fs: seq<CryptoFrame>, gs: seq<CryptoFrame>) {
    forall x, b: byte :: Sum(fs, At(x, b)) == Sum(gs, At(x, b))
  }

  /** All frames lie within [lo, hi]. */
  predicate Within(fs: seq<CryptoFrame>, lo: int, hi: int) {
    forall i :: 0 <= i < |fs| ==> lo <= fs[i].offset && fs[i].offset + |fs[i].data| <= hi
  }

  /** Cutting a frame in two keeps its bytes, and costs at most one header. */
  lemma CutInTwo(f: CryptoFrame, cut: int, lo: int, hi: int)
    requires 0 < cut < |f.data| && 0 <= lo <= f.offset && f.offset + |f.data| <= hi
    ensures var a, b := CryptoFrame(f.offset, f.data[..cut]), CryptoFrame(f.offset + cut, f.data[cut..]);
            && (forall x, y: byte :: At(x, y)(a) + At(x, y)(b) == At(x, y)(f))
            && FrameLen()(a) + FrameLen()(b) <= FrameLen()(f) + CryptoHeaderLen(hi, hi - lo)
  {
    VarintLenMonotone(cut, |f.data|);
    VarintLenMonotone(f.offset + cut, hi);
    VarintLenMonotone(|f.data| - cut, hi - lo);
  }

  lemma ShredOne(fs: seq<CryptoFrame>, i: int, cut: int, lo: int, hi: int)
    requires 0 <= i < |fs| && 0 < cut < |fs[i].data| && 0 <= lo && Within(fs, lo, hi)
    ensures var f := fs[i];
            var a, b := CryptoFrame(f.offset, f.data[..cut]), CryptoFrame(f.offset + cut, f.data[cut..]);
            var gs := fs[i := a] + [b];
            && SameData(fs, gs) && Within(gs, lo, hi)
            && Sum(gs, FrameLen()) - Sum(fs, FrameLen()) == FrameLen()(a) + FrameLen()(b) - FrameLen()(f)
            && FrameLen()(a) + FrameLen()(b) - FrameLen()(f) <= CryptoHeaderLen(hi, hi - lo)
  {
    hide Sum, At;
    var f := fs[i];
    var a, b := CryptoFrame(f.offset, f.data[..cut]), CryptoFrame(f.offset + cut, f.data[cut..]);
    var gs := fs[i := a] + [b];
    CutInTwo(f, cut, lo, hi);
    SplitSum(fs, i, a, b, FrameLen());
    forall x, y: byte
      ensures Sum(fs, At(x, y)) == Sum(gs, At(x, y))
    {
      SplitSum(fs, i, a, b, At(x, y));
    }
  }

  lemma SplitSum(fs: seq<CryptoFrame>, i: int, a: CryptoFrame, b: CryptoFrame, g: CryptoFrame -> int)
    requires 0 <= i < |fs|
    ensures Sum(fs[i := a] + [b], g) == Sum(fs, g) - g(fs[i]) + g(a) + g(b)
  {
    SumUpdate(fs, i, a, g);
    SumConcat(fs[i := a], [b], g);
    SumOne(b, g);
  }

  /** Lowest offset and highest end of the frames. */
  method Range(fs: seq<CryptoFrame>) returns (lo: int, hi: int)
    requires |fs| > 0 && forall i :: 0 <= i < |fs| ==> fs[i].offset >= 0
    ensures 0 <= lo && Within(fs, lo, hi)
  {
    lo, hi := fs[0].offset, 0;
    for i := 0 to |fs|
      invariant 0 <= lo && Within(fs[..i], lo, hi)
    {
      lo := Min(lo, fs[i].offset);
      hi := Max(hi, fs[i].offset + |fs[i].data|);
    }
    assert fs[..|fs|] == fs;
  }

  /** No CRYPTO frame header is longer. */
  const LONGEST_CRYPTO_HEADER := 17

  /**
   Makes a bounded number of attempts to cut a frame in two.  The frames carry the same bytes at
   the same offsets, and what they grow by comes out of the budget, which is never overdrawn.
   */
  method ShredCryptoFrames(crypto: seq<CryptoFrame>, numOther: nat, budget: int, rand: nat -> nat)
    returns (shredded: seq<CryptoFrame>, left: int)
    requires forall i :: 0 <= i < |crypto| ==> crypto[i].offset >= 0
    requires budget >= 0
    ensures SameData(crypto, shredded)
    ensures left >= 0 && Sum(shredded, FrameLen()) + left == Sum(crypto, FrameLen()) + budget
    ensures |crypto| <= |shredded| <= |crypto| + MAX_ADDED_CRYPTO_FRAMES
    ensures |crypto| == 0 ==> shredded == []
    // a frame is cut if the first attempt hits one that can be cut, and a header is to spare
    ensures |crypto| > 0 && budget >= LONGEST_CRYPTO_HEADER ==>
      var idx := rand(1) % (|crypto| + numOther);
      idx < |crypto| && |crypto[idx].data| > 1 ==> |shredded| > |crypto|
  {
    hide Sum, At;
    shredded, left := crypto, budget;
    if |crypto| == 0 {
      return;
    }
    var lo, hi := Range(crypto);
    var maxOverhead := CryptoHeaderLen(hi, hi - lo);
    var attempts := MIN_ADDED_CRYPTO_FRAMES + rand(0) % (MAX_ADDED_CRYPTO_FRAMES - MIN_ADDED_CRYPTO_FRAMES + 1);
    var draw := 1;
    ghost var at := rand(1) % (|crypto| + numOther);
    ghost var hit := budget >= LONGEST_CRYPTO_HEADER && at < |crypto| && |crypto[at].data| > 1;
    for k := 0 to attempts
      invariant SameData(crypto, shredded) && Within(shredded, lo, hi)
      invariant left >= 0 && Sum(shredded, FrameLen()) + left == Sum(crypto, FrameLen()) + budget
      invariant |crypto| <= |shredded| <= |crypto| + k
      invariant k == 0 ==> shredded == crypto && left == budget && draw == 1
      invariant k > 0 && hit ==> |shredded| > |crypto|
    {
      if left < maxOverhead {
        break;
      }
      var idx := rand(draw) % (|shredded| + numOther);
      draw := draw + 1;
      if idx >= |shredded| {
        continue;
      }
      var cf := shredded[idx];
      if |cf.data| <= 1 {
        continue;
      }
      var cut := 1 + rand(draw) % (|cf.data| - 1);
      draw := draw + 1;
      var a, b := CryptoFrame(cf.offset, cf.data[..cut]), CryptoFrame(cf.offset + cut, cf.data[cut..]);
      ShredOne(shredded, idx, cut, lo, hi);
      left := left + CryptoHeaderLen(cf.offset, |cf.data|)
        - CryptoHeaderLen(a.offset, |a.data|) - CryptoHeaderLen(b.offset, |b.data|);
      shredded := shredded[idx := a] + [b];
    }
  }

  // ---------------------------------------------------------------- padding

  function Id(): int -> int { n => n }

  /** The runs from position `k` on: each position takes a drawn share of what is left, the last run all of it. */
  function RunsFrom(left: nat, k: nat, numFrames: nat, rand: nat -> nat): (runs: seq<int>)
    requires k <= numFrames
    decreases numFrames - k
  {
    if k == numFrames then if left > 0 then [left] else []
    else
      var n := rand(k) % (left + 1);
      (if n > 0 then [n] else []) + RunsFrom(left - n, k + 1, numFrames, rand)
  }

  lemma {:induction false} NothingLeft(k: nat, numFrames: nat, rand: nat -> nat)
    requires k <= numFrames
    ensures RunsFrom(0, k, numFrames, rand) == []
    decreases numFrames - k
  {
    if k < numFrames {
      NothingLeft(k + 1, numFrames, rand);
    }
  }

  /** Earlier draws do not matter. */
  lemma {:induction false} SameRuns(left: nat, k: nat, numFrames: nat, rand: nat -> nat, rand': nat -> nat)
    requires k <= numFrames && forall i: nat :: k <= i ==> rand(i) == rand'(i)
    ensures RunsFrom(left, k, numFrames, rand) == RunsFrom(left, k, numFrames, rand')
    decreases numFrames - k
  {
    if k < numFrames {
      SameRuns(left - rand(k) % (left + 1), k + 1, numFrames, rand, rand');
    }
  }

  lemma {:induction false} NextRun(left: nat, k: nat, numFrames: nat, rand: nat -> nat, n: nat)
    requires k < numFrames && n == rand(k) % (left + 1)
    ensures n <= left
    ensures RunsFrom(left, k, numFrames, rand) ==
            (if n > 0 then [n] else []) + RunsFrom(left - n, k + 1, numFrames, rand)
  {
  }

  lemma {:induction false} OneRun(left: nat, k: nat, numFrames: nat, rand: nat -> nat, n: nat)
    requires k < numFrames && rand(k) == n && 0 < n <= left
    ensures RunsFrom(left, k, numFrames, rand) == [n] + RunsFrom(left - n, k + 1, numFrames, rand)
  {
    Below(n, left + 1);
  }

  lemma Below(n: nat, m: nat)
    requires n < m
    ensures n % m == n
  {
  }

  lemma {:induction false} LastRun(left: nat, numFrames: nat, rand: nat -> nat)
    ensures RunsFrom(left, numFrames, numFrames, rand) == if left > 0 then [left] else []
  {
  }

  /** Every way to break the budget into that many positive runs can come out. */
  lemma {:induction false} AnyRuns(left: nat, k: nat, numFrames: nat, runs: seq<int>) returns (rand: nat -> nat)
    requires k <= numFrames && |runs| <= numFrames - k + 1 && Sum(runs, Id()) == left
    requires forall i :: 0 <= i < |runs| ==> runs[i] > 0
    ensures RunsFrom(left, k, numFrames, rand) == runs
    decreases numFrames - k
  {
    hide Sum, RunsFrom;
    rand := (i: nat) => 0;
    SumEmpty();
    if runs == [] {
      NothingLeft(k, numFrames, rand);
    } else {
      var first, rest := runs[0], runs[1..];
      FirstRun(runs);
      if k == numFrames {
        assert rest == [] && runs == [first];
        LastRun(left, numFrames, rand);
      } else {
        assert runs == [first] + rest;
        var later := AnyRuns(left - first, k + 1, numFrames, rest);
        rand := (i: nat) => if i == k then first else later(i);
        SameRuns(left - first, k + 1, numFrames, rand, later);
        OneRun(left, k, numFrames, rand, first);
      }
    }
  }

  lemma FirstRun(runs: seq<int>)
    requires runs != [] && forall i :: 0 <= i < |runs| ==> runs[i] > 0
    ensures Sum(runs, Id()) == runs[0] + Sum(runs[1..], Id()) && Sum(runs[1..], Id()) >= 0
  {
    assert runs == [runs[0]] + runs[1..];
    SumConcat([runs[0]], runs[1..], Id());
    SumOne(runs[0], Id());
    SumNonNegative(runs[1..], Id());
  }

  /** Breaks the budget into runs: positive, and exactly the budget together. */
  method SpreadPadding(numFrames: nat, budget: int, rand: nat -> nat) returns (runs: seq<int>)
    ensures Sum(runs, Id()) == Max(budget, 0)
    ensures |runs| <= numFrames + 1 && forall i :: 0 <= i < |runs| ==> runs[i] > 0
    ensures runs == if budget <= 0 then [] else RunsFrom(budget, 0, numFrames, rand)
  {
    hide Sum, RunsFrom;
    SumEmpty();
    runs := [];
    if budget <= 0 {
      return;
    }
    var left := budget;
    for k := 0 to numFrames
      invariant left >= 0 && Sum(runs, Id()) + left == budget
      invariant |runs| <= k && forall i :: 0 <= i < |runs| ==> runs[i] > 0
      invariant RunsFrom(budget, 0, numFrames, rand) == runs + RunsFrom(left, k, numFrames, rand)
    {
      if left <= 0 {
        NothingLeft(k, numFrames, rand);
        NothingLeft(numFrames, numFrames, rand);
        break;
      }
      var n := rand(k) % (left + 1);
      NextRun(left, k, numFrames, rand, n);
      if n <= 0 {
        continue;
      }
      SumConcat(runs, [n], Id());
      SumOne(n, Id());
      runs := runs + [n];
      left := left - n;
    }
    NothingLeft(numFrames, numFrames, rand);
    LastRun(left, numFrames, rand);
    if left > 0 {
      SumConcat(runs, [left], Id());
      SumOne(left, Id());
      runs := runs + [left];
    }
  }

  lemma SumEmpty()
    ensures Sum([], Id()) == 0
  {
  }

  // ---------------------------------------------------------------- the payload

  /** A frame of a packet, or a run of padding.  Frames that are not CRYPTO are opaque, of a given length. */
  datatype Item = Crypto(frame: CryptoFrame) | Other(id: nat, len: nat) | Ping | Padding(len: nat)

  function ItemLen(): Item -> int {
    (i: Item) => match i
      case Crypto(f) => CryptoFrameLen(f.offset, |f.data|)
      case Other(_, len) => len
      case Ping => 1
      case Padding(len) => len
  }

  function ItemAt(x: int, b: byte): Item -> int {
    (i: Item) => if i.Crypto? then At(x, b)(i.frame) else 0
  }

  /** How often the given frame that is not a CRYPTO frame is there. */
  function IsOther(id: nat, len: nat): Item -> int {
    (i: Item) => if i == Other(id, len) then 1 else 0
  }

  /** The same CRYPTO data and the same other frames. */
  ghost predicate SameContent(s: seq<Item>, t: seq<Item>) {
    && (forall x, b: byte :: Sum(s, ItemAt(x, b)) == Sum(t, ItemAt(x, b)))
    && (forall id, len :: Sum(s, IsOther(id, len)) == Sum(t, IsOther(id, len)))
  }

  /** An Initial payload without STREAM frames: an ACK of length `ackLen`, and frames. */
  datatype Payload = Payload(ackLen: nat, frames: seq<Item>, length: int)

  predicate PayloadOk(pl: Payload) {
    && pl.length == pl.ackLen + Sum(pl.frames, ItemLen())
    && forall i :: 0 <= i < |pl.frames| ==>
         pl.frames[i].Other? || (pl.frames[i].Crypto? && pl.frames[i].frame.offset >= 0)
  }

  function CryptoItems(fs: seq<CryptoFrame>): seq<Item> {
    seq(|fs|, i requires 0 <= i < |fs| => Crypto(fs[i]))
  }

  lemma {:induction false} CryptoItemsSum(fs: seq<CryptoFrame>, g: Item -> int, h: CryptoFrame -> int)
    requires forall f :: g(Crypto(f)) == h(f)
    ensures Sum(CryptoItems(fs), g) == Sum(fs, h)
  {
    if fs != [] {
      var n := |fs| - 1;
      CryptoItemsSum(fs[..n], g, h);
      assert CryptoItems(fs)[..n] == CryptoItems(fs[..n]);
    }
  }

  /** Separates the CRYPTO frames from the others. */
  method SplitCryptoFrames(frames: seq<Item>) returns (crypto: seq<CryptoFrame>, others: seq<Item>)
    requires forall i :: 0 <= i < |frames| ==> frames[i].Other? || (frames[i].Crypto? && frames[i].frame.offset >= 0)
    ensures forall g: Item -> int :: Sum(CryptoItems(crypto), g) + Sum(others, g) == Sum(frames, g)
    ensures forall i :: 0 <= i < |crypto| ==> crypto[i].offset >= 0
    ensures forall i :: 0 <= i < |others| ==> others[i].Other?
  {
    crypto, others := [], [];
    for k := 0 to |frames|
      invariant forall g: Item -> int :: Sum(CryptoItems(crypto), g) + Sum(others, g) == Sum(frames[..k], g)
      invariant forall i :: 0 <= i < |crypto| ==> crypto[i].offset >= 0
      invariant forall i :: 0 <= i < |others| ==> others[i].Other?
    {
      assert frames[..k + 1][..k] == frames[..k];
      if frames[k].Crypto? {
        assert CryptoItems(crypto + [frames[k].frame])[..|crypto|] == CryptoItems(crypto);
        crypto := crypto + [frames[k].frame];
      } else {
        assert (others + [frames[k]])[..|others|] == others;
        others := others + [frames[k]];
      }
    }
    assert frames[..|frames|] == frames;
  }

  function Swap(items: seq<Item>, i: nat, j: nat): (r: seq<Item>)
    requires i < |items| && j < |items|
    ensures |r| == |items|
  {
    items[i := items[j]][j := items[i]]
  }

  /** The places up to `i` are filled from the end on, each from those before it. */
  function Shuffled(items: seq<Item>, i: int, rand: nat -> nat): (r: seq<Item>)
    requires i < |items|
    decreases i
  {
    if i <= 0 then items else Shuffled(Swap(items, i, rand(i) % (i + 1)), i - 1, rand)
  }

  /** Later draws are for earlier places. */
  lemma {:induction false} SameShuffle(items: seq<Item>, i: int, rand: nat -> nat, rand': nat -> nat)
    requires i < |items| && forall k: nat :: k <= i ==> rand(k) == rand'(k)
    ensures Shuffled(items, i, rand) == Shuffled(items, i, rand')
    decreases i
  {
    if i > 0 {
      SameShuffle(Swap(items, i, rand(i) % (i + 1)), i - 1, rand, rand');
    }
  }

  lemma Cancel(a: multiset<Item>, b: multiset<Item>, x: Item)
    requires a + multiset{x} == b + multiset{x}
    ensures a == b
  {
    forall y
      ensures a[y] == b[y]
    {
      assert (a + multiset{x})[y] == (b + multiset{x})[y];
    }
  }

  /** An item of `s` gives way to `x`. */
  lemma Exchange(s: seq<Item>, x: Item, rest: multiset<Item>, j: nat)
    requires j < |s| && multiset(s) + multiset{x} == rest + multiset{s[j]}
    ensures multiset(s[j := x]) == rest
  {
    var a, m := s[j], multiset(s[j := x]);
    assert m == multiset(s) - multiset{a} + multiset{x} && a in multiset(s);
    forall y
      ensures m[y] == rest[y]
    {
      assert (multiset(s) + multiset{x})[y] == (rest + multiset{a})[y];
    }
  }

  /** Bringing the item for place `i` there leaves the right ones for the places before. */
  lemma SwapIn(items: seq<Item>, target: seq<Item>, i: nat, j: nat)
    requires j <= i < |items| == |target| && items[j] == target[i]
    requires multiset(items[..i + 1]) == multiset(target[..i + 1]) && items[i + 1..] == target[i + 1..]
    ensures var next := Swap(items, i, j);
            multiset(next[..i]) == multiset(target[..i]) && next[i..] == target[i..]
  {
    var next := Swap(items, i, j);
    assert items[..i + 1] == items[..i] + [items[i]] && target[..i + 1] == target[..i] + [target[i]];
    assert next[i..] == [target[i]] + target[i + 1..] == target[i..];
    if j == i {
      assert next[..i] == items[..i];
      Cancel(multiset(items[..i]), multiset(target[..i]), items[i]);
    } else {
      var before := items[..i];
      assert next[..i] == before[j := items[i]];
      Exchange(before, items[i], multiset(target[..i]), j);
    }
  }

  lemma {:induction false} NextSwap(items: seq<Item>, i: nat, rand: nat -> nat)
    requires 0 < i < |items|
    ensures Shuffled(items, i, rand) == Shuffled(Swap(items, i, rand(i) % (i + 1)), i - 1, rand)
  {
  }

  lemma {:induction false} OneSwap(items: seq<Item>, i: nat, rand: nat -> nat, j: nat)
    requires 0 < i < |items| && rand(i) == j <= i
    ensures Shuffled(items, i, rand) == Shuffled(Swap(items, i, j), i - 1, rand)
  {
    Below(j, i + 1);
  }

  lemma {:induction false} NoSwap(items: seq<Item>, i: int, rand: nat -> nat)
    requires i <= 0 && i < |items|
    ensures Shuffled(items, i, rand) == items
  {
  }

  /** The item for place `i` is at one of the places up to `i`. */
  lemma SomePlace(items: seq<Item>, target: seq<Item>, i: nat) returns (j: nat)
    requires i < |items| == |target| && multiset(items[..i + 1]) == multiset(target[..i + 1])
    ensures j <= i && items[j] == target[i]
  {
    assert target[..i + 1][i] == target[i];
    assert target[i] in multiset(target[..i + 1]);
    assert target[i] in items[..i + 1];
    j :| 0 <= j <= i && items[..i + 1][j] == target[i];
  }

  /** There is one order of a single item. */
  lemma OnlyOrder(items: seq<Item>, target: seq<Item>, i: int)
    requires -1 <= i <= 0 && i < |items| == |target|
    requires multiset(items[..i + 1]) == multiset(target[..i + 1]) && items[i + 1..] == target[i + 1..]
    ensures items == target
  {
    if i == -1 {
      assert items == items[0..] && target == target[0..];
    } else {
      var x, y := items[0], target[0];
      assert items[..1] == [x] && target[..1] == [y];
      assert multiset{x}[x] == multiset{y}[x];
      assert items == [x] + items[1..] && target == [y] + target[1..];
    }
  }

  /** Every order of the items can come out. */
  lemma {:induction false} AnyOrder(items: seq<Item>, target: seq<Item>, i: int) returns (rand: nat -> nat)
    requires -1 <= i < |items| == |target|
    requires multiset(items[..i + 1]) == multiset(target[..i + 1]) && items[i + 1..] == target[i + 1..]
    ensures Shuffled(items, i, rand) == target
    decreases i
  {
    hide Shuffled, Swap;
    rand := (k: nat) => 0;
    if i <= 0 {
      NoSwap(items, i, rand);
      OnlyOrder(items, target, i);
    } else {
      var j := SomePlace(items, target, i);
      SwapIn(items, target, i, j);
      var earlier := AnyOrder(Swap(items, i, j), target, i - 1);
      rand := (k: nat) => if k == i then j else earlier(k);
      SameShuffle(Swap(items, i, j), i - 1, rand, earlier);
      OneSwap(items, i, rand, j);
    }
  }

  /** Shuffles by swapping, from the end on. */
  method Shuffle(items: seq<Item>, rand: nat -> nat) returns (shuffled: seq<Item>)
    ensures multiset(shuffled) == multiset(items)
    ensures forall g: Item -> int :: Sum(shuffled, g) == Sum(items, g)
    ensures shuffled == Shuffled(items, |items| - 1, rand)
  {
    hide Shuffled, Sum;
    shuffled := items;
    var i := |items| - 1;
    while i > 0
      invariant |shuffled| == |items| && i < |items|
      invariant multiset(shuffled) == multiset(items)
      invariant forall g: Item -> int :: Sum(shuffled, g) == Sum(items, g)
      invariant Shuffled(items, |items| - 1, rand) == Shuffled(shuffled, i, rand)
    {
      var j := rand(i) % (i + 1);
      NextSwap(shuffled, i, rand);
      forall g: Item -> int
        ensures Sum(shuffled[i := shuffled[j]][j := shuffled[i]], g) == Sum(shuffled, g)
      {
        SumSwap(shuffled, i, j, g);
      }
      shuffled := shuffled[i := shuffled[j]][j := shuffled[i]];
      i := i - 1;
    }
    NoSwap(shuffled, i, rand);
  }

  function Pings(n: nat): seq<Item> { seq(n, _ => Ping) }

  lemma {:induction false} PingsSum(n: nat, g: Item -> int)
    ensures g(Ping) == 0 ==> Sum(Pings(n), g) == 0
    ensures g(Ping) == 1 ==> Sum(Pings(n), g) == n
  {
    if n > 0 {
      PingsSum(n - 1, g);
      assert Pings(n)[..n - 1] == Pings(n - 1);
    }
  }

  function Paddings(runs: seq<int>): seq<Item>
    requires forall i :: 0 <= i < |runs| ==> runs[i] > 0
  {
    seq(|runs|, i requires 0 <= i < |runs| => Padding(runs[i]))
  }

  lemma {:induction false} PaddingsSum(runs: seq<int>, g: Item -> int)
    requires forall i :: 0 <= i < |runs| ==> runs[i] > 0
    ensures (forall n: nat :: g(Padding(n)) == 0) ==> Sum(Paddings(runs), g) == 0
    ensures (forall n: nat :: g(Padding(n)) == n) ==> Sum(Paddings(runs), g) == Sum(runs, Id())
  {
    if runs != [] {
      var n := |runs| - 1;
      PaddingsSum(runs[..n], g);
      assert Paddings(runs)[..n] == Paddings(runs[..n]);
    }
  }

  /** The parts of a protected payload add up to what was there before, with the padding. */
  lemma PartsAddUp(crypto: seq<CryptoFrame>, shredded: seq<CryptoFrame>, others: seq<Item>, frames: seq<Item>,
                   pings: nat, runs: seq<int>)
    requires forall g: Item -> int :: Sum(CryptoItems(crypto), g) + Sum(others, g) == Sum(frames, g)
    requires SameData(crypto, shredded) && forall i :: 0 <= i < |runs| ==> runs[i] > 0
    ensures var items := CryptoItems(shredded) + others + Pings(pings) + Paddings(runs);
            && SameContent(items, frames)
            && Sum(items, ItemLen()) - Sum(frames, ItemLen())
               == Sum(shredded, FrameLen()) - Sum(crypto, FrameLen()) + pings + Sum(runs, Id())
  {
    hide Sum, At;
    var items := CryptoItems(shredded) + others + Pings(pings) + Paddings(runs);
    PartsSum(shredded, others, pings, runs, ItemLen());
    CryptoItemsSum(shredded, ItemLen(), FrameLen());
    CryptoItemsSum(crypto, ItemLen(), FrameLen());
    forall x, b: byte
      ensures Sum(items, ItemAt(x, b)) == Sum(frames, ItemAt(x, b))
    {
      PartsSum(shredded, others, pings, runs, ItemAt(x, b));
      CryptoItemsSum(shredded, ItemAt(x, b), At(x, b));
      CryptoItemsSum(crypto, ItemAt(x, b), At(x, b));
    }
    forall id, len
      ensures Sum(items, IsOther(id, len)) == Sum(frames, IsOther(id, len))
    {
      PartsSum(shredded, others, pings, runs, IsOther(id, len));
      CryptoItemsSum(shredded, IsOther(id, len), NoFrame());
      CryptoItemsSum(crypto, IsOther(id, len), NoFrame());
      NoFrameSum(shredded);
      NoFrameSum(crypto);
    }
  }

  function NoFrame(): CryptoFrame -> int { (_: CryptoFrame) => 0 }

  lemma NoFrameSum(fs: seq<CryptoFrame>)
    ensures Sum(fs, NoFrame()) == 0
  {
  }

  lemma PartsSum(shredded: seq<CryptoFrame>, others: seq<Item>, pings: nat, runs: seq<int>, g: Item -> int)
    requires forall i :: 0 <= i < |runs| ==> runs[i] > 0
    ensures var sum := Sum(CryptoItems(shredded) + others + Pings(pings) + Paddings(runs), g);
            sum == Sum(CryptoItems(shredded), g) + Sum(others, g) + Sum(Pings(pings), g) + Sum(Paddings(runs), g)
    ensures g(Ping) == 0 ==> Sum(Pings(pings), g) == 0
    ensures g(Ping) == 1 ==> Sum(Pings(pings), g) == pings
    ensures (forall n: nat :: g(Padding(n)) == 0) ==> Sum(Paddings(runs), g) == 0
    ensures (forall n: nat :: g(Padding(n)) == n) ==> Sum(Paddings(runs), g) == Sum(runs, Id())
  {
    hide Sum;
    SumConcat(CryptoItems(shredded) + others + Pings(pings), Paddings(runs), g);
    SumConcat(CryptoItems(shredded) + others, Pings(pings), g);
    SumConcat(CryptoItems(shredded), others, g);
    PingsSum(pings, g);
    PaddingsSum(runs, g);
  }

  /** The number of bytes written for the items. */
  method Encode(items: seq<Item>) returns (n: int)
    ensures n == Sum(items, ItemLen())
  {
    n := 0;
    for k := 0 to |items|
      invariant n == Sum(items[..k], ItemLen())
    {
      assert items[..k + 1][..k] == items[..k];
      n := n + ItemLen()(items[k]);
    }
    assert items[..|items|] == items;
  }

  /**
   The protected payload, in the order it is written behind the ACK; `None` if its size came out
   wrong, which never happens: it is exactly the size of the payload and the padding.  It carries
   the same CRYPTO bytes at the same offsets, and the same other frames.
   */
  method AppendChaosProtectedPayload(pl: Payload, paddingLen: int, shred: nat -> nat, pingDraw: nat, spread: nat -> nat,
                                     shuffle: nat -> nat)
    returns (r: Option<seq<Item>>)
    requires PayloadOk(pl) && paddingLen > 0
    ensures r.Some? && pl.ackLen + Sum(r.value, ItemLen()) == pl.length + paddingLen
    ensures SameContent(r.value, pl.frames)
  {
    hide Sum, SameData;
    var crypto, others := SplitCryptoFrames(pl.frames);
    var shredded, budget := ShredCryptoFrames(crypto, |others|, paddingLen, shred);
    var items := CryptoItems(shredded) + others;
    var numPings := Min(MIN_PING_FRAMES + pingDraw % (MAX_PING_FRAMES - MIN_PING_FRAMES + 1), budget);
    items := items + Pings(numPings);
    budget := budget - numPings;
    var runs := SpreadPadding(|items|, budget, spread);
    items := items + Paddings(runs);
    PartsAddUp(crypto, shredded, others, pl.frames, numPings, runs);
    var shuffled := Shuffle(items, shuffle);
    var written := Encode(shuffled);
    if pl.ackLen + written != pl.length + paddingLen {
      return None;
    }
    return Some(shuffled);
  }
}
