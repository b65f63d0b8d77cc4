/** Division and sizes of finite sets. */
module Counting {

  lemma {:induction false} QuotientIs(x: int, c: int, q: int, r: int)
    requires x == c * q + r && 0 <= r < c
    ensures x / c == q && x % c == r
  {
    assert c * (x / c - q) == r - x % c;
    MultipleIsLarge(c, x / c - q);
  }

  lemma {:induction false} MultipleIsLarge(c: int, e: int)
    requires c > 0
    ensures e >= 1 ==> c * e >= c
    ensures e <= -1 ==> c * e <= -c
  {
    if e >= 1 {
      assert c * (e - 1) >= 0;
    } else if e <= -1 {
      assert c * (-1 - e) >= 0;
    }
  }

  lemma {:induction false} DistinctSize(s: seq<nat>)
    requires forall j, k :: 0 <= j < k < |s| ==> s[j] != s[k]
    ensures |set i: nat | i in s| == |s|
  {
    if s != [] {
      var n := |s| - 1;
      DistinctSize(s[..n]);
      assert s == s[..n] + [s[n]];
      assert (set i: nat | i in s) == (set i: nat | i in s[..n]) + {s[n]};
    }
  }

  lemma {:induction false} RoundedUp(x: int, c: int, full: int, rest: int)
    requires x == c * full + rest && 0 < rest <= c
    ensures (x + c - 1) / c == full + 1
  {
    assert c * (full + 1) == c * full + c;
    QuotientIs(x + c - 1, c, full + 1, rest - 1);
  }

  lemma {:induction false} Fraction(n: nat, d: nat)
    requires n <= d && d > 0
    ensures 0.0 <= n as real / d as real <= 1.0 && n as real / d as real * d as real == n as real
    ensures n as real / d as real == 1.0 <==> n == d
    ensures n as real / d as real == 0.0 <==> n == 0
  {
  }

  function Below(n: nat): (s: set<nat>)
    ensures |s| == n && forall i: nat :: i in s <==> i < n
  {
    if n == 0 then {} else Below(n - 1) + {n - 1}
  }

  lemma {:induction false} SubsetSize<T>(a: set<T>, b: set<T>)
    requires a <= b
    ensures |a| <= |b|
    ensures |a| == |b| ==> a == b
  {
    assert b == a + (b - a);
  }
}
