/** std::sort and sort.Strings: a sorted permutation, with no promise about ties. */
module Sorting {

  ghost predicate TotalPreorder<T(!new)>(leq: (T, T) -> bool) {
    && (forall x, y :: leq(x, y) || leq(y, x))
    && (forall x, y, z :: leq(x, y) && leq(y, z) ==> leq(x, z))
  }

  ghost predicate TotalOrder<T(!new)>(leq: (T, T) -> bool) {
    TotalPreorder(leq) && forall x, y :: leq(x, y) && leq(y, x) ==> x == y
  }

  ghost predicate SortedBy<T>(s: seq<T>, leq: (T, T) -> bool) {
    forall i, j :: 0 <= i < j < |s| ==> leq(s[i], s[j])
  }

  function Insert<T>(x: T, s: seq<T>, leq: (T, T) -> bool): seq<T> {
    if s == [] then [x]
    else
      var n := |s| - 1;
      if leq(s[n], x) then s + [x] else Insert(x, s[..n], leq) + [s[n]]
  }

  function InsertionSort<T>(s: seq<T>, leq: (T, T) -> bool): seq<T> {
    if s == [] then [] else Insert(s[|s| - 1], InsertionSort(s[..|s| - 1], leq), leq)
  }

  lemma {:induction false} AppendGreatest<T(!new)>(s: seq<T>, z: T, leq: (T, T) -> bool)
    requires SortedBy(s, leq) && forall i :: 0 <= i < |s| ==> leq(s[i], z)
    ensures SortedBy(s + [z], leq)
  {
  }

  lemma {:induction false} InsertSorts<T(!new)>(x: T, s: seq<T>, leq: (T, T) -> bool)
    requires TotalPreorder(leq) && SortedBy(s, leq)
    ensures SortedBy(Insert(x, s, leq), leq)
    ensures multiset(Insert(x, s, leq)) == multiset(s) + multiset{x}
  {
    if s != [] {
      var n := |s| - 1;
      assert s == s[..n] + [s[n]];
      if leq(s[n], x) {
        forall i | 0 <= i < |s| ensures leq(s[i], x) {
          assert i == n || leq(s[i], s[n]);
        }
        AppendGreatest(s, x, leq);
      } else {
        InsertSorts(x, s[..n], leq);
        var r := Insert(x, s[..n], leq);
        forall i | 0 <= i < |r| ensures leq(r[i], s[n]) {
          assert r[i] in multiset(r);
          assert r[i] == x || r[i] in s[..n];
        }
        AppendGreatest(r, s[n], leq);
      }
    }
  }

  lemma {:induction false} InsertionSorts<T(!new)>(s: seq<T>, leq: (T, T) -> bool)
    requires TotalPreorder(leq)
    ensures SortedBy(InsertionSort(s, leq), leq)
    ensures multiset(InsertionSort(s, leq)) == multiset(s)
  {
    if s != [] {
      var n := |s| - 1;
      assert s == s[..n] + [s[n]];
      InsertionSorts(s[..n], leq);
      InsertSorts(s[n], InsertionSort(s[..n], leq), leq);
    }
  }

  method Sort<T(!new)>(s: seq<T>, leq: (T, T) -> bool) returns (r: seq<T>)
    requires TotalPreorder(leq)
    ensures SortedBy(r, leq) && multiset(r) == multiset(s) && |r| == |s|
  {
    InsertionSorts(s, leq);
    r := InsertionSort(s, leq);
    assert |multiset(r)| == |multiset(s)|;
  }

  lemma {:induction false} LastIsGreatest<T(!new)>(s: seq<T>, leq: (T, T) -> bool, x: T)
    requires TotalPreorder(leq) && SortedBy(s, leq) && x in multiset(s)
    ensures leq(x, s[|s| - 1])
  {
    assert leq(x, x);
  }

  lemma {:induction false} DropLast<T>(s: seq<T>)
    requires s != []
    ensures multiset(s[..|s| - 1]) == multiset(s) - multiset{s[|s| - 1]}
    ensures s[|s| - 1] in multiset(s)
  {
    assert s == s[..|s| - 1] + [s[|s| - 1]];
  }

  lemma {:induction false} LastsAgree<T(!new)>(a: seq<T>, b: seq<T>, leq: (T, T) -> bool)
    requires TotalOrder(leq) && SortedBy(a, leq) && SortedBy(b, leq)
    requires a != [] && b != [] && multiset(a) == multiset(b)
    ensures a[|a| - 1] == b[|b| - 1]
  {
    DropLast(a);
    DropLast(b);
    LastIsGreatest(a, leq, b[|b| - 1]);
    LastIsGreatest(b, leq, a[|a| - 1]);
  }

  /** A total order leaves no choice: equal multisets sort to equal sequences. */
  lemma {:induction false} SortedIsUnique<T(!new)>(a: seq<T>, b: seq<T>, leq: (T, T) -> bool)
    requires TotalOrder(leq) && SortedBy(a, leq) && SortedBy(b, leq) && multiset(a) == multiset(b)
    ensures a == b
    decreases |a|
  {
    assert |a| == |multiset(a)| == |multiset(b)| == |b|;
    if a != [] {
      var a', b' := a[..|a| - 1], b[..|b| - 1];
      LastsAgree(a, b, leq);
      DropLast(a);
      DropLast(b);
      SortedIsUnique(a', b', leq);
      assert a == a' + [a[|a| - 1]] && b == b' + [b[|b| - 1]];
    }
  }
}
