/** Sequence functions and lemmas shared by the models. The recursive functions
    peel off the last element, so that a loop over a prefix can follow them. */
module Sequences {

  datatype Option<+T> = None | Some(value: T)

  function Filter<T>(s: seq<T>, keep: T -> bool): seq<T> {
    if s == [] then []
    else
      var init := Filter(s[..|s| - 1], keep);
      if keep(s[|s| - 1]) then init + [s[|s| - 1]] else init
  }

  /** The blocks one after the other. */
  function Flatten<T>(blocks: seq<seq<T>>): seq<T> {
    if blocks == [] then [] else Flatten(blocks[..|blocks| - 1]) + blocks[|blocks| - 1]
  }

  /** The blocks as they end up when each one is inserted at the front. */
  function PrependAll<T>(blocks: seq<seq<T>>): seq<T> {
    if blocks == [] then [] else blocks[|blocks| - 1] + PrependAll(blocks[..|blocks| - 1])
  }

  lemma {:induction false} FlattenFrom<T>(blocks: seq<seq<T>>, x: T) returns (i: nat)
    requires x in Flatten(blocks)
    ensures i < |blocks| && x in blocks[i]
  {
    var n := |blocks| - 1;
    if x in blocks[n] {
      i := n;
    } else {
      i := FlattenFrom(blocks[..n], x);
    }
  }

  lemma {:induction false} FlattenHas<T>(blocks: seq<seq<T>>, i: nat, x: T)
    requires i < |blocks| && x in blocks[i]
    ensures x in Flatten(blocks)
  {
    var n := |blocks| - 1;
    if i < n {
      FlattenHas(blocks[..n], i, x);
    }
  }

  lemma {:induction false} PrefixStep<T>(s: seq<T>, i: nat)
    requires i < |s|
    ensures s[..i + 1][..i] == s[..i]
    ensures s[..i + 1] == s[..i] + [s[i]]
  {
  }

  lemma {:induction false} FilterStep<T>(s: seq<T>, i: nat, keep: T -> bool)
    requires i < |s|
    ensures Filter(s[..i + 1], keep) == if keep(s[i]) then Filter(s[..i], keep) + [s[i]] else Filter(s[..i], keep)
  {
    PrefixStep(s, i);
  }

  lemma {:induction false} FilterConcat<T>(a: seq<T>, b: seq<T>, keep: T -> bool)
    ensures Filter(a + b, keep) == Filter(a, keep) + Filter(b, keep)
  {
    if b == [] {
      assert a + b == a;
    } else {
      var n := |b| - 1;
      assert (a + b)[..|a + b| - 1] == a + b[..n];
      FilterConcat(a, b[..n], keep);
    }
  }

  /** Filtering keeps exactly the occurrences of the kept values. */
  lemma {:induction false} FilterCounts<T>(s: seq<T>, keep: T -> bool, x: T)
    ensures multiset(Filter(s, keep))[x] == if keep(x) then multiset(s)[x] else 0
  {
    if s != [] {
      var n := |s| - 1;
      FilterCounts(s[..n], keep, x);
      PrefixStep(s, n);
      assert s == s[..n] + [s[n]];
    }
  }

  lemma {:induction false} FilterMembers<T>(s: seq<T>, keep: T -> bool, x: T)
    ensures x in Filter(s, keep) <==> x in s && keep(x)
  {
    FilterCounts(s, keep, x);
    assert x in Filter(s, keep) <==> multiset(Filter(s, keep))[x] > 0;
    assert x in s <==> multiset(s)[x] > 0;
  }

  /** The positions of the kept elements. */
  ghost function Positions<T>(s: seq<T>, keep: T -> bool): (r: set<int>)
    ensures forall i :: i in r <==> 0 <= i < |s| && keep(s[i])
  {
    set i | 0 <= i < |s| && keep(s[i])
  }

  lemma {:induction false} FilterSize<T>(s: seq<T>, keep: T -> bool)
    ensures |Filter(s, keep)| == |Positions(s, keep)|
  {
    if s != [] {
      var n := |s| - 1;
      FilterSize(s[..n], keep);
      assert Positions(s, keep) == Positions(s[..n], keep) + if keep(s[n]) then {n} else {};
    }
  }

  lemma {:induction false} FilterCongruent<T>(s: seq<T>, f: T -> bool, g: T -> bool)
    requires forall x :: x in s ==> f(x) == g(x)
    ensures Filter(s, f) == Filter(s, g)
  {
    if s != [] {
      FilterCongruent(s[..|s| - 1], f, g);
    }
  }

  lemma {:induction false} FilterNone<T>(s: seq<T>, keep: T -> bool)
    requires forall x :: x in s ==> !keep(x)
    ensures Filter(s, keep) == []
  {
    if s != [] {
      FilterNone(s[..|s| - 1], keep);
    }
  }

  lemma {:induction false} FilterAll<T>(s: seq<T>, keep: T -> bool)
    requires forall x :: x in s ==> keep(x)
    ensures Filter(s, keep) == s
  {
    if s != [] {
      var n := |s| - 1;
      assert s == s[..n] + [s[n]];
      FilterAll(s[..n], keep);
    }
  }

  lemma {:induction false} FlattenFilter<T>(blocks: seq<seq<T>>, keep: T -> bool)
    ensures Flatten(Mapped((b: seq<T>) => Filter(b, keep), blocks)) == Filter(Flatten(blocks), keep)
  {
    var f := (b: seq<T>) => Filter(b, keep);
    if blocks != [] {
      var n := |blocks| - 1;
      FlattenFilter(blocks[..n], keep);
      assert Mapped(f, blocks)[..n] == Mapped(f, blocks[..n]);
      FilterConcat(Flatten(blocks[..n]), blocks[n], keep);
    }
  }

  /** Sorting the blocks into two kinds loses no element. */
  lemma {:induction false} FlattenSplits<T>(blocks: seq<seq<T>>, keep: seq<T> -> bool)
    ensures multiset(Flatten(blocks))
         == multiset(Flatten(Filter(blocks, keep))) + multiset(Flatten(Filter(blocks, b => !keep(b))))
  {
    if blocks != [] {
      var n := |blocks| - 1;
      FlattenSplits(blocks[..n], keep);
      FlattenAppend(Filter(blocks[..n], keep), blocks[n]);
      FlattenAppend(Filter(blocks[..n], b => !keep(b)), blocks[n]);
    }
  }

  lemma {:induction false} FlattenAppend<T>(blocks: seq<seq<T>>, b: seq<T>)
    ensures Flatten(blocks + [b]) == Flatten(blocks) + b
  {
    assert (blocks + [b])[..|blocks|] == blocks;
  }

  lemma {:induction false} PrependAllPermutes<T>(blocks: seq<seq<T>>)
    ensures multiset(PrependAll(blocks)) == multiset(Flatten(blocks))
  {
    if blocks != [] {
      PrependAllPermutes(blocks[..|blocks| - 1]);
    }
  }

  /** The elements whose mark is set, in order. */
  function Selected<T>(s: seq<T>, marks: seq<bool>): seq<T>
    requires |marks| >= |s|
  {
    if s == [] then []
    else
      var n := |s| - 1;
      Selected(s[..n], marks) + if marks[n] then [s[n]] else []
  }

  lemma {:induction false} SelectedPrefix<T>(s: seq<T>, marks: seq<bool>, more: seq<bool>)
    requires |marks| >= |s|
    ensures Selected(s, marks + more) == Selected(s, marks)
  {
    if s != [] {
      SelectedPrefix(s[..|s| - 1], marks, more);
    }
  }

  lemma {:induction false} SelectedStep<T>(s: seq<T>, marks: seq<bool>, mark: bool)
    requires |marks| < |s|
    ensures Selected(s[..|marks| + 1], marks + [mark]) == Selected(s[..|marks|], marks) + if mark then [s[|marks|]] else []
  {
    PrefixStep(s, |marks|);
    SelectedPrefix(s[..|marks|], marks, [mark]);
  }

  lemma {:induction false} SelectedAreMarked<T>(s: seq<T>, marks: seq<bool>)
    requires |marks| >= |s|
    ensures forall x :: x in Selected(s, marks) ==> exists j :: 0 <= j < |s| && s[j] == x && marks[j]
  {
    if s != [] {
      SelectedAreMarked(s[..|s| - 1], marks);
    }
  }

  lemma {:induction false} SelectedIsFilter<T>(s: seq<T>, marks: seq<bool>, keep: T -> bool)
    requires |marks| >= |s| && forall i :: 0 <= i < |s| ==> marks[i] == keep(s[i])
    ensures Selected(s, marks) == Filter(s, keep)
  {
    if s != [] {
      SelectedIsFilter(s[..|s| - 1], marks, keep);
    }
  }

  lemma {:induction false} SelectedHas<T>(s: seq<T>, marks: seq<bool>, i: nat)
    requires |marks| >= |s| && i < |s| && marks[i]
    ensures s[i] in Selected(s, marks)
  {
    var n := |s| - 1;
    if i < n {
      SelectedHas(s[..n], marks, i);
    }
  }

  lemma {:induction false} SelectedAll<T>(s: seq<T>, marks: seq<bool>)
    requires |marks| >= |s| && forall i :: 0 <= i < |s| ==> marks[i]
    ensures Selected(s, marks) == s
  {
    if s != [] {
      SelectedAll(s[..|s| - 1], marks);
    }
  }

  /** f at every element. */
  function Mapped<S, T>(f: S -> T, s: seq<S>): (r: seq<T>)
    ensures |r| == |s| && forall i :: 0 <= i < |s| ==> r[i] == f(s[i])
  {
    seq(|s|, i requires 0 <= i < |s| => f(s[i]))
  }

  function FoldLeft<S, T>(step: (S, T) -> S, start: S, s: seq<T>): S {
    if s == [] then start else step(FoldLeft(step, start, s[..|s| - 1]), s[|s| - 1])
  }

  lemma {:induction false} FoldConcat<S, T>(step: (S, T) -> S, start: S, a: seq<T>, b: seq<T>)
    ensures FoldLeft(step, start, a + b) == FoldLeft(step, FoldLeft(step, start, a), b)
  {
    if b == [] {
      assert a + b == a;
    } else {
      var n := |b| - 1;
      assert (a + b)[..|a + b| - 1] == a + b[..n];
      FoldConcat(step, start, a, b[..n]);
    }
  }
}
