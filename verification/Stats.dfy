/** librereuse/util/stats.h: median, quartiles and the removal of outliers. */
module Stats {
  import opened Sequences
  import opened Sorting

  predicate Ascending(x: real, y: real) {
    x <= y
  }

  function Ordered(values: seq<real>): seq<real> {
    InsertionSort(values, Ascending)
  }

  lemma {:induction false} OrderedSorts(values: seq<real>)
    ensures multiset(Ordered(values)) == multiset(values) && |Ordered(values)| == |values|
    ensures forall i, j :: 0 <= i <= j < |values| ==> Ordered(values)[i] <= Ordered(values)[j]
  {
    InsertionSorts(values, Ascending);
    assert |multiset(Ordered(values))| == |multiset(values)|;
  }

  /** std::sort on a copy; numbers leave no choice of order. */
  method SortCopy(values: seq<real>) returns (r: seq<real>)
    ensures r == Ordered(values) && |r| == |values|
  {
    r := Sort(values, Ascending);
    InsertionSorts(values, Ascending);
    SortedIsUnique(r, Ordered(values), Ascending);
  }

  method Median(values: seq<real>) returns (m: real)
    requires values != []
    ensures |Ordered(values)| == |values|
    ensures 2.0 * m == Ordered(values)[(|values| - 1) / 2] + Ordered(values)[|values| / 2]
  {
    var sorted := SortCopy(values);
    if |sorted| % 2 == 0 {
      m := (sorted[|sorted| / 2 - 1] + sorted[|sorted| / 2]) / 2.0;
    } else {
      m := sorted[|sorted| / 2];
    }
  }

  method Quartiles(values: seq<real>) returns (first: real, third: real)
    requires values != []
    ensures |Ordered(values)| == |values|
    ensures first == Ordered(values)[|values| / 4] && third == Ordered(values)[|values| * 3 / 4]
  {
    var sorted := SortCopy(values);
    first, third := sorted[|sorted| / 4], sorted[|sorted| * 3 / 4];
  }

  /** One and a half interquartile ranges below and above the quartiles. */
  function Fences(values: seq<real>): (real, real)
    requires values != [] && |Ordered(values)| == |values|
  {
    var first, third := Ordered(values)[|values| / 4], Ordered(values)[|values| * 3 / 4];
    (first - 1.5 * (third - first), third + 1.5 * (third - first))
  }

  function Within(fences: (real, real)): real -> bool {
    x => fences.0 <= x <= fences.1
  }

  function Beyond(fences: (real, real)): real -> bool {
    x => x < fences.0 || x > fences.1
  }

  /** The values within the fences, in order. */
  function Inliers(values: seq<real>): seq<real>
    requires values != [] && |Ordered(values)| == |values|
  {
    Filter(values, Within(Fences(values)))
  }

  /** An outlier is further from its quartile than three halves of the quartiles' distance. */
  method Outliers(values: seq<real>) returns (r: seq<real>)
    requires values != []
    ensures |Ordered(values)| == |values|
    ensures r == Filter(values, Beyond(Fences(values)))
    ensures var first, third := Ordered(values)[|values| / 4], Ordered(values)[|values| * 3 / 4];
      r == Filter(values, (x: real) =>
        2.0 * (first - x) > 3.0 * (third - first) || 2.0 * (x - third) > 3.0 * (third - first))
  {
    var first, third := Quartiles(values);
    var iqr := third - first;
    var lower, upper := first - 1.5 * iqr, third + 1.5 * iqr;
    r := [];
    for i := 0 to |values|
      invariant r == Filter(values[..i], Beyond((lower, upper)))
    {
      FilterStep(values, i, Beyond((lower, upper)));
      if values[i] < lower || values[i] > upper {
        r := r + [values[i]];
      }
    }
    assert values[..|values|] == values;
    FilterCongruent(values, Beyond(Fences(values)), (x: real) =>
      2.0 * (first - x) > 3.0 * (third - first) || 2.0 * (x - third) > 3.0 * (third - first));
  }

  lemma {:induction false} InliersAreNear(values: seq<real>)
    requires values != [] && |Ordered(values)| == |values|
    ensures var first, third := Ordered(values)[|values| / 4], Ordered(values)[|values| * 3 / 4];
      Inliers(values) == Filter(values, (x: real) =>
        2.0 * (first - x) <= 3.0 * (third - first) && 2.0 * (x - third) <= 3.0 * (third - first))
  {
    var first, third := Ordered(values)[|values| / 4], Ordered(values)[|values| * 3 / 4];
    FilterCongruent(values, Within(Fences(values)), (x: real) =>
      2.0 * (first - x) <= 3.0 * (third - first) && 2.0 * (x - third) <= 3.0 * (third - first));
  }

  /** Erases in place every element that equals an outlier. */
  method RemoveOutliers(container: seq<real>) returns (left: seq<real>)
    requires container != []
    ensures |Ordered(container)| == |container|
    ensures left == Inliers(container)
    ensures var first, third := Ordered(container)[|container| / 4], Ordered(container)[|container| * 3 / 4];
      left == Filter(container, (x: real) =>
        2.0 * (first - x) <= 3.0 * (third - first) && 2.0 * (x - third) <= 3.0 * (third - first))
  {
    var outs := Outliers(container);
    ghost var fences := Fences(container);
    left := container;
    var it := 0;
    while it < |left|
      invariant 0 <= it <= |left|
      invariant forall i :: 0 <= i < it ==> Within(fences)(left[i])
      invariant forall x :: x in left ==> x in container
      invariant Filter(left, Within(fences)) == Inliers(container)
      decreases |left| - it
    {
      FilterMembers(container, Beyond(fences), left[it]);
      assert left[it] in left;
      if left[it] in outs {
        FilterErase(left, it, Within(fences));
        left := left[..it] + left[it + 1..];
      } else {
        it := it + 1;
      }
    }
    FilterAll(left, Within(fences));
    InliersAreNear(container);
  }

  lemma {:induction false} FilterErase(values: seq<real>, i: nat, keep: real -> bool)
    requires i < |values| && !keep(values[i])
    ensures Filter(values[..i] + values[i + 1..], keep) == Filter(values, keep)
  {
    assert values == values[..i + 1] + values[i + 1..];
    FilterConcat(values[..i + 1], values[i + 1..], keep);
    FilterConcat(values[..i], values[i + 1..], keep);
    FilterStep(values, i, keep);
  }

  lemma {:induction false} FilterSizePermutes(a: seq<real>, b: seq<real>, keep: real -> bool)
    requires multiset(a) == multiset(b)
    ensures |Filter(a, keep)| == |Filter(b, keep)|
  {
    forall x ensures multiset(Filter(a, keep))[x] == multiset(Filter(b, keep))[x] {
      FilterCounts(a, keep, x);
      FilterCounts(b, keep, x);
    }
    assert multiset(Filter(a, keep)) == multiset(Filter(b, keep));
    assert |multiset(Filter(a, keep))| == |multiset(Filter(b, keep))|;
  }

  /** Everything between the quartiles is within the fences, so more than half of the values
      survive, and a non-empty container is never emptied. */
  lemma {:induction false} MoreThanHalfSurvive(values: seq<real>)
    requires values != []
    ensures |Ordered(values)| == |values|
    ensures 2 * |Inliers(values)| > |values|
  {
    OrderedSorts(values);
    var s, lo, hi := Ordered(values), |values| / 4, |values| * 3 / 4 + 1;
    var keep := Within(Fences(values));
    FilterSizePermutes(values, s, keep);
    SliceSurvives(s, lo, hi, keep);
  }

  lemma {:induction false} SliceSurvives(s: seq<real>, lo: nat, hi: nat, keep: real -> bool)
    requires lo <= hi <= |s| && forall i :: lo <= i < hi ==> keep(s[i])
    ensures |Filter(s, keep)| >= hi - lo
  {
    assert s == s[..lo] + s[lo..hi] + s[hi..];
    FilterConcat(s[..lo] + s[lo..hi], s[hi..], keep);
    FilterConcat(s[..lo], s[lo..hi], keep);
    FilterAll(s[lo..hi], keep);
  }
}
