/** Sums over sequences. */
module Sums {

  function Sum<T>(s: seq<T>, g: T -> int): int {
    if s == [] then 0 else Sum(s[..|s| - 1], g) + g(s[|s| - 1])
  }

  lemma {:induction false} SumConcat<T>(s: seq<T>, t: seq<T>, g: T -> int)
    ensures Sum(s + t, g) == Sum(s, g) + Sum(t, g)
  {
    if t == [] {
      assert s + t == s;
    } else {
      var n := |t| - 1;
      SumConcat(s, t[..n], g);
      assert (s + t)[..|s| + n] == s + t[..n];
    }
  }

  lemma SumOne<T>(x: T, g: T -> int)
    ensures Sum([x], g) == g(x)
  {
    assert [x][..0] == [];
  }

  lemma SumUpdate<T>(s: seq<T>, i: int, x: T, g: T -> int)
    requires 0 <= i < |s|
    ensures Sum(s[i := x], g) == Sum(s, g) - g(s[i]) + g(x)
  {
    hide Sum;
    SumOne(s[i], g);
    SumOne(x, g);
    assert s == (s[..i] + [s[i]]) + s[i + 1..] && s[i := x] == (s[..i] + [x]) + s[i + 1..];
    SumConcat(s[..i] + [s[i]], s[i + 1..], g);
    SumConcat(s[..i] + [x], s[i + 1..], g);
    SumConcat(s[..i], [s[i]], g);
    SumConcat(s[..i], [x], g);
  }

  lemma SumSwap<T>(s: seq<T>, i: int, j: int, g: T -> int)
    requires 0 <= i < |s| && 0 <= j < |s|
    ensures Sum(s[i := s[j]][j := s[i]], g) == Sum(s, g)
  {
    hide Sum;
    SumUpdate(s, i, s[j], g);
    SumUpdate(s[i := s[j]], j, s[i], g);
  }

  /** One summand is no more apart than the sums. */
  lemma {:induction false} SumBounds<T>(s: seq<T>, lo: T -> int, hi: T -> int, i: int)
    requires -1 <= i < |s| && forall k :: 0 <= k < |s| ==> lo(s[k]) <= hi(s[k])
    ensures (if i == -1 then 0 else hi(s[i]) - lo(s[i])) <= Sum(s, hi) - Sum(s, lo)
  {
    if s != [] {
      var last := |s| - 1;
      SumBounds(s[..last], lo, hi, if i == last then -1 else i);
    }
  }

  lemma {:induction false} SumNonNegative<T>(s: seq<T>, g: T -> int)
    requires forall k :: 0 <= k < |s| ==> g(s[k]) >= 0
    ensures Sum(s, g) >= 0
  {
    if s != [] {
      SumNonNegative(s[..|s| - 1], g);
    }
  }
}
