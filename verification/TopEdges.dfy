/** top_k_edges: keep the k best entries of a row and zero the others. */
module TopEdges {
  import opened Sequences
  import opened Sorting

  predicate Descending(x: real, y: real) {
    x >= y
  }

  /** r is row with exactly k positions kept, the marked ones, and none of them is less
      than a dropped one. */
  ghost predicate KeepsTop(row: seq<real>, k: nat, r: seq<real>, marks: seq<bool>) {
    && |marks| == |row| == |r| && |Selected(row, marks)| == k
    && (forall i :: 0 <= i < |row| ==> r[i] == if marks[i] then row[i] else 0.0)
    && (forall i, j :: 0 <= i < |row| && 0 <= j < |row| && marks[i] && !marks[j] ==> row[i] >= row[j])
  }

  /** A row of at most k entries is left alone. */
  ghost predicate Limited(row: seq<real>, k: nat, r: seq<real>) {
    if |row| <= k then r == row else exists marks :: KeepsTop(row, k, r, marks)
  }

  lemma {:induction false} Unmark(row: seq<real>, marks: seq<bool>, i: nat)
    requires |marks| == |row| && i < |row| && marks[i]
    ensures |Selected(row, marks[i := false])| == |Selected(row, marks)| - 1
  {
    var n := |row| - 1;
    if i == n {
      assert marks[i := false][..n] == marks[..n];
      SelectedCongruent(row[..n], marks, marks[i := false]);
    } else {
      Unmark(row[..n], marks[..n], i);
      SelectedCongruent(row[..n], marks[..n], marks);
      SelectedCongruent(row[..n], marks[..n][i := false], marks[i := false]);
    }
  }

  lemma {:induction false} SelectedCongruent<T>(s: seq<T>, a: seq<bool>, b: seq<bool>)
    requires |a| >= |s| && |b| >= |s| && forall i :: 0 <= i < |s| ==> a[i] == b[i]
    ensures Selected(s, a) == Selected(s, b)
  {
    if s != [] {
      SelectedCongruent(s[..|s| - 1], a, b);
    }
  }

  predicate IsLeast(row: seq<real>, marks: seq<bool>, i: int) {
    && 0 <= i < |row| && |marks| == |row| && marks[i]
    && forall j :: 0 <= j < |row| && marks[j] ==> row[i] <= row[j]
  }

  lemma {:induction false} LeastExists(row: seq<real>, marks: seq<bool>) returns (i: nat)
    requires |marks| == |row| && Selected(row, marks) != []
    ensures IsLeast(row, marks, i)
  {
    var n := |row| - 1;
    SelectedCongruent(row[..n], marks, marks[..n]);
    if Selected(row[..n], marks[..n]) == [] {
      NoneSelected(row[..n], marks[..n]);
      i := n;
    } else {
      i := LeastExists(row[..n], marks[..n]);
      if marks[n] && row[n] < row[i] {
        i := n;
      }
    }
  }

  lemma {:induction false} NoneSelected<T>(s: seq<T>, marks: seq<bool>)
    requires |marks| >= |s| && Selected(s, marks) == []
    ensures forall i :: 0 <= i < |s| ==> !marks[i]
  {
    if s != [] {
      NoneSelected(s[..|s| - 1], marks);
    }
  }

  /** One row. The priority queue holds the marked positions and its top is any least one. */
  method LimitRow(row: seq<real>, k: nat) returns (r: seq<real>)
    ensures |r| == |row| && Limited(row, k, r)
  {
    r := row;
    if |row| <= k {
      return;
    }
    var queued := seq(|row|, i => true);
    var size := |row|;
    SelectedAll(row, queued);
    while size > k
      invariant size >= k && KeepsTop(row, size, r, queued)
    {
      ghost var least := LeastExists(row, queued);
      var top :| IsLeast(row, queued, top);
      assert IsLeast(row, queued, top);
      Unmark(row, queued, top);
      queued := queued[top := false];
      size := size - 1;
      r := r[top := 0.0];
    }
  }

  /*---------- What is kept, as a multiset ----------*/

  function Zeros(n: nat): seq<real> {
    seq(n, i => 0.0)
  }

  function Best(row: seq<real>): seq<real> {
    InsertionSort(row, Descending)
  }

  ghost predicate NonNegative(row: seq<real>) {
    forall i :: 0 <= i < |row| ==> row[i] >= 0.0
  }

  function Negated(marks: seq<bool>): (r: seq<bool>)
    ensures |r| == |marks| && forall i :: 0 <= i < |marks| ==> r[i] == !marks[i]
  {
    seq(|marks|, i requires 0 <= i < |marks| => !marks[i])
  }

  ghost predicate NonIncreasing(s: seq<real>) {
    forall i, j :: 0 <= i < j < |s| ==> s[i] >= s[j]
  }

  lemma {:induction false} BestSorts(row: seq<real>)
    ensures NonIncreasing(Best(row)) && multiset(Best(row)) == multiset(row) && |Best(row)| == |row|
  {
    InsertionSorts(row, Descending);
    assert |multiset(Best(row))| == |multiset(row)|;
  }

  lemma {:induction false} BestIs(row: seq<real>, sorted: seq<real>)
    requires NonIncreasing(sorted) && multiset(sorted) == multiset(row)
    ensures Best(row) == sorted
  {
    InsertionSorts(row, Descending);
    SortedIsUnique(Best(row), sorted, Descending);
  }

  /** Each value of the row is either kept or dropped... */
  lemma {:induction false} PartitionCounts(row: seq<real>, marks: seq<bool>, x: real)
    requires |marks| == |row|
    ensures multiset(row)[x]
         == multiset(Selected(row, marks))[x] + multiset(Selected(row, Negated(marks)))[x]
  {
    if row != [] {
      var n := |row| - 1;
      PartitionCounts(row[..n], marks[..n], x);
      SelectedCongruent(row[..n], marks, marks[..n]);
      SelectedCongruent(row[..n], Negated(marks), Negated(marks[..n]));
      DropLast(row);
    }
  }

  /** ...and in r the dropped ones are zeros. */
  lemma {:induction false} ZeroedCounts(row: seq<real>, marks: seq<bool>, r: seq<real>, x: real)
    requires |marks| == |row| == |r|
    requires forall i :: 0 <= i < |row| ==> r[i] == if marks[i] then row[i] else 0.0
    ensures multiset(r)[x]
         == multiset(Selected(row, marks))[x] + if x == 0.0 then |Selected(row, Negated(marks))| else 0
  {
    if row != [] {
      var n := |row| - 1;
      ZeroedCounts(row[..n], marks[..n], r[..n], x);
      SelectedCongruent(row[..n], marks, marks[..n]);
      SelectedCongruent(row[..n], Negated(marks), Negated(marks[..n]));
      DropLast(r);
    }
  }

  lemma {:induction false} ZerosCount(n: nat, x: real)
    ensures multiset(Zeros(n))[x] == if x == 0.0 then n else 0
  {
    if n > 0 {
      ZerosCount(n - 1, x);
      assert Zeros(n) == Zeros(n - 1) + [0.0];
    }
  }

  lemma {:induction false} Partition(row: seq<real>, marks: seq<bool>, r: seq<real>)
    requires |marks| == |row| == |r|
    requires forall i :: 0 <= i < |row| ==> r[i] == if marks[i] then row[i] else 0.0
    ensures var kept, dropped := Selected(row, marks), Selected(row, Negated(marks));
      multiset(row) == multiset(kept) + multiset(dropped) && |row| == |kept| + |dropped|
      && multiset(r) == multiset(kept) + multiset(Zeros(|dropped|))
  {
    var kept, dropped := Selected(row, marks), Selected(row, Negated(marks));
    forall x ensures multiset(row)[x] == multiset(kept)[x] + multiset(dropped)[x]
      && multiset(r)[x] == multiset(kept)[x] + multiset(Zeros(|dropped|))[x]
    {
      PartitionCounts(row, marks, x);
      ZeroedCounts(row, marks, r, x);
      ZerosCount(|dropped|, x);
    }
    assert multiset(row) == multiset(kept) + multiset(dropped);
    assert |multiset(row)| == |multiset(kept)| + |multiset(dropped)|;
  }

  lemma {:induction false} KeptBeatDropped(row: seq<real>, k: nat, r: seq<real>, marks: seq<bool>, x: real, y: real)
    requires KeepsTop(row, k, r, marks)
    requires x in multiset(Selected(row, marks)) && y in multiset(Selected(row, Negated(marks)))
    ensures x >= y
  {
    SelectedAreMarked(row, marks);
    SelectedAreMarked(row, Negated(marks));
    assert x in Selected(row, marks) && y in Selected(row, Negated(marks));
    var i :| 0 <= i < |row| && row[i] == x && marks[i];
    var j :| 0 <= j < |row| && row[j] == y && Negated(marks)[j];
  }

  lemma {:induction false} ConcatNonIncreasing(a: seq<real>, b: seq<real>)
    requires NonIncreasing(a) && NonIncreasing(b)
    requires forall x, y :: x in multiset(a) && y in multiset(b) ==> x >= y
    ensures NonIncreasing(a + b)
  {
    forall i, j | 0 <= i < j < |a + b| ensures (a + b)[i] >= (a + b)[j] {
      if i < |a| <= j {
        assert a[i] in multiset(a) && b[j - |a|] in multiset(b);
      }
    }
  }

  /** The marked values, best first, are the front of the row, best first. */
  lemma {:induction false} KeptComeFirst(row: seq<real>, k: nat, r: seq<real>, marks: seq<bool>)
    requires KeepsTop(row, k, r, marks)
    ensures Best(row) == Best(Selected(row, marks)) + Best(Selected(row, Negated(marks)))
  {
    var a, b := Selected(row, marks), Selected(row, Negated(marks));
    Partition(row, marks, r);
    BestSorts(a);
    BestSorts(b);
    forall x, y | x in multiset(Best(a)) && y in multiset(Best(b)) ensures x >= y {
      KeptBeatDropped(row, k, r, marks, x, y);
    }
    ConcatNonIncreasing(Best(a), Best(b));
    BestIs(row, Best(a) + Best(b));
  }

  lemma {:induction false} KeptAreBest(row: seq<real>, k: nat, r: seq<real>, marks: seq<bool>)
    requires KeepsTop(row, k, r, marks)
    ensures |Best(row)| == |row| && k <= |row|
    ensures multiset(r) == multiset(Best(row)[..k] + Zeros(|row| - k))
  {
    var a, b := Selected(row, marks), Selected(row, Negated(marks));
    Partition(row, marks, r);
    KeptComeFirst(row, k, r, marks);
    BestSorts(a);
    BestSorts(b);
    assert Best(row)[..k] == Best(a);
  }

  /** The values of a limited row, best first. */
  function TopValues(row: seq<real>, k: nat): seq<real>
    requires |Best(row)| == |row|
  {
    if |row| <= k then Best(row) else Best(row)[..k] + Zeros(|row| - k)
  }

  /** Whichever ties are broken, the kept values are the k best of the row, also when some
      values are negative. */
  lemma {:induction false} LimitedMultiset(row: seq<real>, k: nat, r: seq<real>)
    requires Limited(row, k, r)
    ensures |Best(row)| == |row| == |r| && multiset(r) == multiset(TopValues(row, k))
  {
    BestSorts(row);
    if |row| > k {
      var marks :| KeepsTop(row, k, r, marks);
      KeptAreBest(row, k, r, marks);
    }
  }

  /** The j-th best value of the row is not negative, so that zeroed entries cannot pass it. */
  predicate TopIsNonNegative(row: seq<real>, j: nat)
    requires |Best(row)| == |row| && j <= |row|
  {
    j == 0 || Best(row)[j - 1] >= 0.0
  }

  /** The values, best first, after all but the k best have been zeroed. */
  ghost predicate IsLimitOf(best: seq<real>, k: nat, once: seq<real>) {
    && k < |best| && NonIncreasing(best)
    && multiset(once) == multiset(best[..k]) + multiset(Zeros(|best| - k))
  }

  lemma {:induction false} FrontBeatsRest(best: seq<real>, k: nat, j: nat, x: real, y: real)
    requires NonIncreasing(best) && 0 < j <= k < |best| && best[j - 1] >= 0.0
    requires x in multiset(best[..j]) && y in multiset(RestOf(best, k, j))
    ensures x >= y
  {
    var front, rest := best[..j], RestOf(best, k, j);
    assert x in front && y in rest;
    var i :| 0 <= i < |front| && front[i] == x;
    assert x >= best[j - 1];
  }

  /** The part of the values after the j best, once all but the k best have been zeroed. */
  function RestOf(best: seq<real>, k: nat, j: nat): seq<real>
    requires j <= k <= |best|
  {
    best[j..k] + Zeros(|best| - k)
  }

  lemma {:induction false} FrontAndRest(best: seq<real>, k: nat, j: nat, once: seq<real>)
    requires IsLimitOf(best, k, once) && j <= k
    ensures multiset(once) == multiset(best[..j]) + multiset(RestOf(best, k, j))
  {
    assert best[..k] == best[..j] + best[j..k];
  }

  lemma {:induction false} FrontThenRest(best: seq<real>, k: nat, j: nat)
    requires NonIncreasing(best) && j <= k < |best| && (j > 0 ==> best[j - 1] >= 0.0)
    ensures NonIncreasing(best[..j] + Best(RestOf(best, k, j)))
  {
    var front, rest := best[..j], RestOf(best, k, j);
    BestSorts(rest);
    forall x, y | x in multiset(front) && y in multiset(Best(rest)) ensures x >= y {
      FrontBeatsRest(best, k, j, x, y);
    }
    ConcatNonIncreasing(front, Best(rest));
  }

  /** Then limiting to k >= j first does not disturb the j best. */
  lemma {:induction false} FrontSurvives(best: seq<real>, k: nat, j: nat, once: seq<real>)
    requires IsLimitOf(best, k, once) && j <= k && (j > 0 ==> best[j - 1] >= 0.0)
    ensures |Best(once)| == |best| && Best(once)[..j] == best[..j]
  {
    var front, rest := best[..j], Best(RestOf(best, k, j));
    FrontAndRest(best, k, j, once);
    FrontThenRest(best, k, j);
    BestSorts(RestOf(best, k, j));
    assert multiset(front + rest) == multiset(front) + multiset(rest);
    BestIs(once, front + rest);
  }

  /** With a negative value in front, all zeros are in front of it. */
  lemma {:induction false} ZerosAreInFront(sorted: seq<real>, j: nat, v: real)
    requires NonIncreasing(sorted) && j <= |sorted| && v < 0.0 && v in multiset(sorted[..j])
    ensures multiset(sorted)[0.0] == multiset(sorted[..j])[0.0]
  {
    var front, back := sorted[..j], sorted[j..];
    assert v in front;
    assert 0.0 !in back;
    assert sorted == front + back;
  }

  /** Otherwise it does: the zeros made by the first pass push out a negative value. */
  lemma {:induction false} ZerosPushOut(best: seq<real>, k: nat, j: nat, once: seq<real>)
    requires IsLimitOf(best, k, once) && 0 < j <= k && best[j - 1] < 0.0
    ensures |Best(once)| == |best| && multiset(Best(once)[..j]) != multiset(best[..j])
  {
    BestSorts(once);
    assert |multiset(once)| == |best|;
    ZerosCount(|best| - k, 0.0);
    assert best[j - 1] == best[..j][j - 1];
    assert best[j - 1] in multiset(best[..j]);
    assert best[..k] == best[..j] + best[j..k];
    assert multiset(best[..k])[0.0] >= multiset(best[..j])[0.0];
    if multiset(Best(once)[..j]) == multiset(best[..j]) {
      ZerosAreInFront(Best(once), j, best[j - 1]);
    }
  }

  lemma {:induction false} LimitedMeans(row: seq<real>, k: nat, r: seq<real>)
    requires Limited(row, k, r)
    ensures |Best(row)| == |row| == |r| && NonIncreasing(Best(row))
    ensures |row| <= k ==> r == row
    ensures |row| > k ==> IsLimitOf(Best(row), k, r)
  {
    LimitedMultiset(row, k, r);
    BestSorts(row);
  }

  lemma {:induction false} LimitTwiceLong(best: seq<real>, k: nat, j: nat,
                                         once: seq<real>, twice: seq<real>, direct: seq<real>)
    requires j <= k && IsLimitOf(best, k, once) && IsLimitOf(Best(once), j, twice) && IsLimitOf(best, j, direct)
    ensures multiset(twice) == multiset(direct) <==> j == 0 || best[j - 1] >= 0.0
  {
    assert |Best(once)| == |once| == |best| by {
      BestSorts(once);
      assert |multiset(once)| == |best|;
    }
    if j == 0 || best[j - 1] >= 0.0 {
      FrontSurvives(best, k, j, once);
    } else {
      ZerosPushOut(best, k, j, once);
      var zeros := multiset(Zeros(|best| - j));
      assert multiset(twice) - zeros == multiset(Best(once)[..j]);
      assert multiset(direct) - zeros == multiset(best[..j]);
    }
  }

  /** Limiting to k and then to j <= k leaves the same values as limiting to j directly, exactly
      when the first pass drops nothing or the j-th best value is not negative. */
  lemma {:induction false} LimitTwiceIff(row: seq<real>, k: nat, j: nat,
                                        once: seq<real>, twice: seq<real>, direct: seq<real>)
    requires j <= k && Limited(row, k, once) && Limited(once, j, twice) && Limited(row, j, direct)
    ensures |Best(row)| == |row|
    ensures multiset(twice) == multiset(direct) <==> |row| <= k || TopIsNonNegative(row, j)
  {
    LimitedMeans(row, k, once);
    if |row| > k {
      LimitedMeans(once, j, twice);
      LimitedMeans(row, j, direct);
      LimitTwiceLong(Best(row), k, j, once, twice, direct);
    } else {
      LimitedMultiset(row, j, twice);
      LimitedMultiset(row, j, direct);
    }
  }

  lemma {:induction false} ZeroedIsSame(row: seq<real>, r: seq<real>)
    requires |r| == |row| && forall i :: 0 <= i < |row| ==> r[i] == row[i] || r[i] == 0.0
    ensures multiset(r)[0.0] >= multiset(row)[0.0]
    ensures multiset(r)[0.0] == multiset(row)[0.0] ==> r == row
  {
    if row != [] {
      var n := |row| - 1;
      ZeroedIsSame(row[..n], r[..n]);
      assert row == row[..n] + [row[n]] && r == r[..n] + [r[n]];
    }
  }

  /** Limiting a limited row again changes nothing, whichever ties are broken, exactly when the
      row is short or its k-th best value is not negative. */
  lemma {:induction false} LimitIdempotentIff(row: seq<real>, k: nat, once: seq<real>, twice: seq<real>)
    requires Limited(row, k, once) && Limited(once, k, twice)
    ensures |Best(row)| == |row|
    ensures twice == once <==> |row| <= k || TopIsNonNegative(row, k)
  {
    LimitTwiceIff(row, k, k, once, twice, once);
    if |once| > k {
      ZeroedIsSame(once, twice);
    }
  }

  /** A row of two negative entries limited to one: the zero that the first pass leaves is better
      than the entry it kept, so the second pass drops that too. */
  lemma {:induction false} LimitTwiceLosesEdge()
    ensures var row, once, twice := [-1.0, -2.0], [-1.0, 0.0], [0.0, 0.0];
      && Limited(row, 1, once) && Limited(once, 1, twice)
      && twice != once && multiset(twice) != multiset(once)
  {
    var row, once, twice := [-1.0, -2.0], [-1.0, 0.0], [0.0, 0.0];
    OneOfTwo(row, [true, false]);
    OneOfTwo(once, [false, true]);
    assert KeepsTop(row, 1, once, [true, false]);
    assert KeepsTop(once, 1, twice, [false, true]);
    assert once[0] in multiset(once) && once[0] !in multiset(twice);
  }

  lemma {:induction false} OneOfTwo(row: seq<real>, marks: seq<bool>)
    requires |row| == |marks| == 2 && marks[0] != marks[1]
    ensures |Selected(row, marks)| == 1
  {
    assert row[..1][..0] == [];
    assert Selected(row[..1], marks) == if marks[0] then [row[0]] else [];
  }

  /** For a row without negative entries both laws hold. */
  lemma {:induction false} NonNegativeRows(row: seq<real>, j: nat)
    requires NonNegative(row) && j <= |row|
    ensures |Best(row)| == |row| && TopIsNonNegative(row, j)
  {
    BestSorts(row);
    if j > 0 {
      assert Best(row)[j - 1] in multiset(row);
    }
  }

  lemma {:induction false} NonNegativeLimits(row: seq<real>, k: nat, j: nat,
                                            once: seq<real>, twice: seq<real>, direct: seq<real>)
    requires NonNegative(row) && j <= k
    requires Limited(row, k, once) && Limited(once, j, twice) && Limited(row, j, direct)
    ensures multiset(twice) == multiset(direct) && (j == k ==> twice == once)
  {
    LimitTwiceIff(row, k, j, once, twice, direct);
    if |row| > k {
      NonNegativeRows(row, j);
    }
    if j == k {
      LimitIdempotentIff(row, k, once, twice);
    }
  }
}
