/** clustering/cluster-tool: similarity of regexes and greedy clustering around random seeds. */
module ClusterTool {
  import opened Re2
  import opened Sequences
  import opened Sorting
  import opened Counting

  datatype Info = Info(id: string, pattern: string, positive: set<string>, negative: set<string>)

  /** The strings are filed under the regex's own verdict. */
  ghost predicate WellFiled(re: Engine, a: Info) {
    && (forall t :: t in a.positive ==> re.fullMatch(t, a.pattern))
    && (forall t :: t in a.negative ==> !re.fullMatch(t, a.pattern))
  }

  function Strings(a: Info): nat {
    |a.positive| + |a.negative|
  }

  /** The constructor; generated is the generator's output, whose first entry is not a string. */
  method Build(re: Engine, pattern: string, id: string, generated: Option<seq<string>>) returns (r: Option<Info>)
    requires generated.Some? ==> generated.value != []
    ensures r.Some? <==> re.ok(pattern) && generated.Some?
    ensures r.Some? ==> WellFiled(re, r.value) && r.value.pattern == pattern && r.value.id == id
    ensures r.Some? ==> forall t :: t in r.value.positive || t in r.value.negative <==> t in generated.value[1..]
  {
    if !re.ok(pattern) || generated.None? {
      return None;
    }
    var strings := generated.value[1..];
    var info := Info(id, pattern, {}, {});
    for i := 0 to |strings|
      invariant WellFiled(re, info) && info.pattern == pattern && info.id == id
      invariant forall t :: t in info.positive || t in info.negative <==> t in strings[..i]
    {
      if re.fullMatch(strings[i], pattern) {
        info := info.(positive := info.positive + {strings[i]});
      } else {
        info := info.(negative := info.negative + {strings[i]});
      }
    }
    return Some(info);
  }

  /*---------- The score ----------*/

  /** Verdicts of the one regex that the other one shares, over the strings of the other. */
  function Agreements(re: Engine, pattern: string, other: Info): nat {
    |Verdict(re, other.positive, pattern, true)| + |Verdict(re, other.negative, pattern, false)|
  }

  function ScoreOf(re: Engine, a: Info, b: Info): real
    requires Strings(a) + Strings(b) > 0
  {
    (Agreements(re, a.pattern, b) + Agreements(re, b.pattern, a)) as real / (Strings(a) + Strings(b)) as real
  }

  /** One of the four counting loops. */
  method Count(re: Engine, texts: set<string>, pattern: string, verdict: bool) returns (n: nat)
    ensures n == |Verdict(re, texts, pattern, verdict)|
  {
    n := 0;
    var todo := texts;
    while todo != {}
      invariant todo <= texts && n == |Verdict(re, texts - todo, pattern, verdict)|
    {
      var t :| t in todo;
      VerdictStep(re, texts, todo, t, pattern, verdict);
      if re.fullMatch(t, pattern) == verdict {
        n := n + 1;
      }
      todo := todo - {t};
    }
    assert texts - {} == texts;
  }

  method Score(re: Engine, a: Info, b: Info) returns (score: real)
    requires Strings(a) + Strings(b) > 0
    ensures score == ScoreOf(re, a, b)
    ensures WellFiled(re, a) && WellFiled(re, b) ==>
      score == (
        |set t | t in a.positive + a.negative && re.fullMatch(t, a.pattern) == re.fullMatch(t, b.pattern)| +
        |set t | t in b.positive + b.negative && re.fullMatch(t, a.pattern) == re.fullMatch(t, b.pattern)|) as real
        / (|a.positive| + |a.negative| + |b.positive| + |b.negative|) as real
  {
    if WellFiled(re, a) && WellFiled(re, b) {
      ScoreCounts(re, a, b,
        set t | t in a.positive + a.negative && re.fullMatch(t, a.pattern) == re.fullMatch(t, b.pattern),
        set t | t in b.positive + b.negative && re.fullMatch(t, a.pattern) == re.fullMatch(t, b.pattern));
    }
    var tp := Count(re, b.positive, a.pattern, true);
    var tn := Count(re, b.negative, a.pattern, false);
    var more := Count(re, a.positive, b.pattern, true);
    tp := tp + more;
    more := Count(re, a.negative, b.pattern, false);
    tn := tn + more;
    score := (tp + tn) as real / (|a.positive| + |a.negative| + |b.positive| + |b.negative|) as real;
  }

  /** The strings of the info on which the two regexes give the same verdict. */
  ghost predicate IsShared(re: Engine, p: string, q: string, strings: Info, shared: set<string>) {
    forall t :: t in shared <==>
      t in strings.positive + strings.negative && re.fullMatch(t, p) == re.fullMatch(t, q)
  }

  lemma {:induction false} AgreementsCount(re: Engine, pattern: string, other: Info, shared: set<string>)
    requires WellFiled(re, other) && IsShared(re, pattern, other.pattern, other, shared)
    ensures Agreements(re, pattern, other) == |shared|
  {
    var p, n := Verdict(re, other.positive, pattern, true), Verdict(re, other.negative, pattern, false);
    assert p !! n;
    assert shared == p + n;
  }

  /** The score is the share, among the strings of both, of those on which the two regexes give
      the same verdict. */
  lemma {:induction false} ScoreCounts(re: Engine, a: Info, b: Info, inA: set<string>, inB: set<string>)
    requires WellFiled(re, a) && WellFiled(re, b) && Strings(a) + Strings(b) > 0
    requires forall t :: t in inA <==>
      t in a.positive + a.negative && re.fullMatch(t, a.pattern) == re.fullMatch(t, b.pattern)
    requires forall t :: t in inB <==>
      t in b.positive + b.negative && re.fullMatch(t, a.pattern) == re.fullMatch(t, b.pattern)
    ensures ScoreOf(re, a, b) == (|inA| + |inB|) as real / (Strings(a) + Strings(b)) as real
  {
    AgreementsCount(re, a.pattern, b, inB);
    AgreementsCount(re, b.pattern, a, inA);
  }

  lemma {:induction false} VerdictBound(re: Engine, texts: set<string>, pattern: string, verdict: bool)
    ensures |Verdict(re, texts, pattern, verdict)| <= |texts|
    ensures |Verdict(re, texts, pattern, verdict)| == |texts|
      <==> forall t :: t in texts ==> re.fullMatch(t, pattern) == verdict
  {
    SubsetSize(Verdict(re, texts, pattern, verdict), texts);
    if |Verdict(re, texts, pattern, verdict)| == |texts| {
      forall t | t in texts ensures re.fullMatch(t, pattern) == verdict {
        assert t in Verdict(re, texts, pattern, verdict);
      }
    }
    if forall t :: t in texts ==> re.fullMatch(t, pattern) == verdict {
      assert Verdict(re, texts, pattern, verdict) == texts;
    }
  }

  /** The two regexes give the same verdict on every string of the info. */
  ghost predicate SameVerdicts(re: Engine, p: string, q: string, strings: Info) {
    forall t :: t in strings.positive || t in strings.negative ==> re.fullMatch(t, p) == re.fullMatch(t, q)
  }

  lemma {:induction false} AgreementsBound(re: Engine, pattern: string, other: Info)
    requires WellFiled(re, other)
    ensures Agreements(re, pattern, other) <= Strings(other)
    ensures Agreements(re, pattern, other) == Strings(other) <==> SameVerdicts(re, pattern, other.pattern, other)
  {
    VerdictBound(re, other.positive, pattern, true);
    VerdictBound(re, other.negative, pattern, false);
  }

  /** The score is a symmetric similarity in [0,1]; it is 1 exactly for regexes that agree on
      all strings of both, and so for a regex against itself. */
  lemma {:induction false} ScoreIsSimilarity(re: Engine, a: Info, b: Info)
    requires WellFiled(re, a) && WellFiled(re, b) && Strings(a) + Strings(b) > 0
    ensures ScoreOf(re, a, b) == ScoreOf(re, b, a)
    ensures 0.0 <= ScoreOf(re, a, b) <= 1.0
    ensures ScoreOf(re, a, b) == 1.0 <==>
      SameVerdicts(re, a.pattern, b.pattern, a) && SameVerdicts(re, a.pattern, b.pattern, b)
    ensures a == b ==> ScoreOf(re, a, b) == 1.0
  {
    AgreementsBound(re, a.pattern, b);
    AgreementsBound(re, b.pattern, a);
    Fraction(Agreements(re, a.pattern, b) + Agreements(re, b.pattern, a), Strings(a) + Strings(b));
  }

  /*---------- One cluster ----------*/

  /** A vector slot; a moved-from regex leaves a hole. */
  type Slot = Option<Info>

  /** What is still in the slots, in order. */
  function Kept(slots: seq<Slot>): seq<Info> {
    if slots == [] then []
    else
      var n := |slots| - 1;
      Kept(slots[..n]) + if slots[n].Some? then [slots[n].value] else []
  }

  lemma {:induction false} KeptConcat(a: seq<Slot>, b: seq<Slot>)
    ensures Kept(a + b) == Kept(a) + Kept(b)
  {
    if b == [] {
      assert a + b == a;
    } else {
      var n := |b| - 1;
      assert (a + b)[..|a + b| - 1] == a + b[..n];
      KeptConcat(a, b[..n]);
    }
  }

  lemma {:induction false} KeptOne(slot: Slot)
    ensures Kept([slot]) == if slot.Some? then [slot.value] else []
  {
    assert [slot][..0] == [];
  }

  lemma {:induction false} KeptFull(slots: seq<Slot>)
    requires None !in slots
    ensures |Kept(slots)| == |slots| && forall i :: 0 <= i < |slots| ==> slots[i] == Some(Kept(slots)[i])
  {
    if slots != [] {
      var n := |slots| - 1;
      assert None !in slots[..n];
      KeptFull(slots[..n]);
    }
  }

  lemma {:induction false} KeptComesFrom(slots: seq<Slot>, x: Info)
    requires x in Kept(slots)
    ensures Some(x) in slots
  {
    var n := |slots| - 1;
    if slots[n] != Some(x) {
      KeptComesFrom(slots[..n], x);
    }
  }

  /** Moving an item out of its slot takes just this item away. */
  lemma {:induction false} StolenFrom(slots: seq<Slot>, idx: nat)
    requires idx < |slots| && slots[idx].Some?
    ensures multiset(Kept(slots)) == multiset(Kept(slots[idx := None])) + multiset{slots[idx].value}
    ensures |Kept(slots)| == |Kept(slots[idx := None])| + 1
  {
    var a, b := slots[..idx], slots[idx + 1..];
    assert slots == a + [slots[idx]] + b;
    assert slots[idx := None] == a + [None] + b;
    KeptConcat(a + [slots[idx]], b);
    KeptConcat(a, [slots[idx]]);
    KeptConcat(a + [None], b);
    KeptConcat(a, [None]);
    KeptOne(slots[idx]);
    KeptOne(None);
  }

  lemma {:induction false} HoleErased(slots: seq<Slot>, it: nat)
    requires it < |slots| && slots[it].None?
    ensures Kept(slots[..it] + slots[it + 1..]) == Kept(slots)
  {
    var a, b := slots[..it], slots[it + 1..];
    assert slots == a + [slots[it]] + b;
    KeptConcat(a + [slots[it]], b);
    KeptConcat(a, [slots[it]]);
    KeptConcat(a, b);
    KeptOne(slots[it]);
  }

  /** The erase loop: removes the holes and nothing else, keeping the order. */
  method EraseHoles(slots: seq<Slot>) returns (rest: seq<Info>)
    ensures rest == Kept(slots)
  {
    var left := slots;
    var it := 0;
    while it < |left|
      invariant 0 <= it <= |left| && None !in left[..it] && Kept(left) == Kept(slots)
      decreases |left| - it
    {
      if left[it].None? {
        HoleErased(left, it);
        left := left[..it] + left[it + 1..];
      } else {
        it := it + 1;
      }
    }
    assert left[..it] == left;
    KeptFull(left);
    rest := seq(|left|, i requires 0 <= i < |left| => left[i].value);
    assert rest == Kept(left);
  }

  type Scored = (nat, real)

  ghost predicate Placed(ranks: seq<Scored>, k: nat) {
    exists i :: 0 <= i < |ranks| && ranks[i].0 == k
  }

  /** The scores against the seed are numbers: no division by zero strings. */
  ghost predicate Comparable(seed: Info, regexes: seq<Info>) {
    forall r :: r in regexes ==> Strings(seed) + Strings(r) > 0
  }

  /** So are the scores of any two of them: at most one of them is without strings. */
  ghost predicate AllComparable(pool: multiset<Info>) {
    forall x, y :: x in pool && y in pool - multiset{x} ==> Strings(x) + Strings(y) > 0
  }

  /** Every index once, with its score against the seed. */
  ghost predicate Ranking(re: Engine, seed: Info, regexes: seq<Info>, ranks: seq<Scored>) {
    && Comparable(seed, regexes) && |ranks| == |regexes|
    && (forall i :: 0 <= i < |ranks| ==>
      ranks[i].0 < |regexes| && ranks[i].1 == ScoreOf(re, seed, regexes[ranks[i].0]))
    && (forall i, j :: 0 <= i < j < |ranks| ==> ranks[i].0 != ranks[j].0)
    && (forall k: nat :: k < |regexes| ==> Placed(ranks, k))
  }

  predicate BestFirst(x: Scored, y: Scored) {
    x.1 >= y.1
  }

  lemma {:induction false} DistinctCounts(s: seq<Scored>, x: Scored)
    requires forall i :: 0 <= i < |s| ==> s[i].0 == i
    ensures multiset(s)[x] <= if x.0 < |s| then 1 else 0
  {
    if s != [] {
      var n := |s| - 1;
      DistinctCounts(s[..n], x);
      assert s == s[..n] + [s[n]];
    }
  }

  lemma {:induction false} TwiceCounts(s: seq<Scored>, i: nat, j: nat)
    requires i < j < |s| && s[i] == s[j]
    ensures multiset(s)[s[i]] >= 2
  {
    assert s == s[..j] + s[j..];
    assert s[i] == s[..j][i] && s[..j][i] in s[..j];
    assert s[j] == s[j..][0] && s[j..][0] in s[j..];
  }

  /** Sorting the scores permutes the indices. */
  lemma {:induction false} PermutedRanking(re: Engine, seed: Info, regexes: seq<Info>, scores: seq<Scored>, ranks: seq<Scored>)
    requires Comparable(seed, regexes) && |scores| == |regexes| && multiset(ranks) == multiset(scores) && |ranks| == |scores|
    requires forall i :: 0 <= i < |scores| ==> scores[i] == (i, ScoreOf(re, seed, regexes[i]))
    ensures Ranking(re, seed, regexes, ranks)
  {
    forall i | 0 <= i < |ranks|
      ensures ranks[i].0 < |regexes| && ranks[i] == scores[ranks[i].0]
    {
      assert ranks[i] in multiset(scores);
    }
    forall i, j | 0 <= i < j < |ranks| ensures ranks[i].0 != ranks[j].0 {
      if ranks[i].0 == ranks[j].0 {
        TwiceCounts(ranks, i, j);
        DistinctCounts(scores, ranks[i]);
        assert false;
      }
    }
    forall k: nat | k < |regexes| ensures Placed(ranks, k) {
      assert scores[k] in multiset(ranks);
    }
  }

  method Rank(re: Engine, seed: Info, regexes: seq<Info>) returns (ranks: seq<Scored>)
    requires Comparable(seed, regexes)
    ensures Ranking(re, seed, regexes, ranks) && SortedBy(ranks, BestFirst)
  {
    var scores: seq<Scored> := [];
    for idx := 0 to |regexes|
      invariant |scores| == idx
      invariant forall i :: 0 <= i < idx ==> scores[i] == (i, ScoreOf(re, seed, regexes[i]))
    {
      var score := Score(re, seed, regexes[idx]);
      scores := scores + [(idx, score)];
    }
    ranks := Sort(scores, BestFirst);
    PermutedRanking(re, seed, regexes, scores, ranks);
  }

  /** The first m ranks have left their slots, in this order, and nobody else has. */
  ghost predicate Stolen(regexes: seq<Info>, ranks: seq<Scored>, m: nat, taken: seq<Info>, slots: seq<Slot>) {
    && |slots| == |regexes| && |taken| == m <= |ranks|
    && (forall j :: 0 <= j < |ranks| ==> ranks[j].0 < |regexes|)
    && (forall j :: 0 <= j < m ==> taken[j] == regexes[ranks[j].0] && slots[ranks[j].0] == None)
    && (forall j :: m <= j < |ranks| ==> slots[ranks[j].0] == Some(regexes[ranks[j].0]))
  }

  lemma {:induction false} StealOne(regexes: seq<Info>, ranks: seq<Scored>, i: nat,
                                   taken: seq<Info>, slots: seq<Slot>)
    requires Stolen(regexes, ranks, i, taken, slots) && i < |ranks|
    requires forall j, k :: 0 <= j < k < |ranks| ==> ranks[j].0 != ranks[k].0
    ensures slots[ranks[i].0] == Some(regexes[ranks[i].0])
    ensures Stolen(regexes, ranks, i + 1, taken + [regexes[ranks[i].0]], slots[ranks[i].0 := None])
  {
  }

  /** Moves the m best items out of their slots. Each one is still there: no item is moved twice. */
  method StealBest(re: Engine, seed: Info, regexes: seq<Info>, ranks: seq<Scored>, m: nat)
    returns (taken: seq<Info>, slots: seq<Slot>)
    requires Ranking(re, seed, regexes, ranks) && m <= |regexes|
    ensures |taken| == m && |slots| == |regexes| && |Kept(slots)| == |regexes| - m
    ensures Stolen(regexes, ranks, m, taken, slots)
    ensures multiset(regexes) == multiset(taken) + multiset(Kept(slots))
  {
    slots := seq(|regexes|, i requires 0 <= i < |regexes| => Some(regexes[i]));
    KeptFull(slots);
    assert Kept(slots) == regexes;
    taken := [];
    for i := 0 to m
      invariant |taken| == i && |slots| == |regexes| && |Kept(slots)| == |regexes| - i
      invariant Stolen(regexes, ranks, i, taken, slots)
      invariant multiset(regexes) == multiset(taken) + multiset(Kept(slots))
    {
      var idx := ranks[i].0;
      StealOne(regexes, ranks, i, taken, slots);
      StolenFrom(slots, idx);
      taken := taken + [slots[idx].value];
      slots := slots[idx := None];
    }
  }

  /** x is at least as similar to the seed as y. */
  ghost predicate AsClose(re: Engine, seed: Info, x: Info, y: Info) {
    && Strings(seed) + Strings(x) > 0 && Strings(seed) + Strings(y) > 0
    && ScoreOf(re, seed, x) >= ScoreOf(re, seed, y)
  }

  lemma {:induction false} LeftBehind(re: Engine, seed: Info, regexes: seq<Info>, ranks: seq<Scored>, m: nat,
                                     taken: seq<Info>, slots: seq<Slot>, x: Info, y: Info)
    requires Ranking(re, seed, regexes, ranks) && SortedBy(ranks, BestFirst)
    requires Stolen(regexes, ranks, m, taken, slots) && x in taken && y in Kept(slots)
    ensures AsClose(re, seed, x, y)
  {
    var j :| 0 <= j < m && x == taken[j];
    KeptComesFrom(slots, y);
    var k :| 0 <= k < |slots| && slots[k] == Some(y);
    assert Placed(ranks, k);
    var i :| 0 <= i < |ranks| && ranks[i].0 == k;
    assert BestFirst(ranks[j], ranks[i]);
  }

  /** One greedy step: from the pool, a cluster of m+1 and what is left behind. */
  ghost predicate GreedyStep(re: Engine, pool: seq<Info>, c: seq<Info>, rest: seq<Info>, m: nat) {
    && |c| == m + 1 && |pool| == |c| + |rest|
    && multiset(pool) == multiset(c) + multiset(rest)
    && forall x, y :: x in c[1..] && y in rest ==> AsClose(re, c[0], x, y)
  }

  /** The vector with holes where items have been moved out. */
  ghost predicate HolesIn(regexes: seq<Info>, slots: seq<Slot>) {
    && |slots| == |regexes|
    && forall k :: 0 <= k < |slots| ==> slots[k] == None || slots[k] == Some(regexes[k])
  }

  /** cluster: the seed with the m regexes closest to it; they leave the vector. */
  method Cluster(re: Engine, seed: Info, regexes: seq<Info>, m: nat) returns (newCluster: seq<Info>, rest: seq<Info>)
    requires Comparable(seed, regexes) && m <= |regexes|
    ensures |newCluster| == m + 1 && newCluster[0] == seed
    ensures forall x, y :: x in newCluster[1..] && y in rest ==>
      Strings(seed) + Strings(x) > 0 && Strings(seed) + Strings(y) > 0 && ScoreOf(re, seed, x) >= ScoreOf(re, seed, y)
    ensures GreedyStep(re, regexes + [seed], newCluster, rest, m)
    ensures exists slots :: HolesIn(regexes, slots) && rest == Kept(slots)
  {
    var ranks := Rank(re, seed, regexes);
    var taken, slots := StealBest(re, seed, regexes, ranks, m);
    newCluster := [seed] + taken;
    rest := EraseHoles(slots);
    assert newCluster[1..] == taken;
    forall x, y | x in taken && y in rest ensures AsClose(re, seed, x, y) {
      LeftBehind(re, seed, regexes, ranks, m, taken, slots, x, y);
    }
    forall k | 0 <= k < |slots| ensures slots[k] == None || slots[k] == Some(regexes[k]) {
      assert Placed(ranks, k);
    }
    assert HolesIn(regexes, slots);
  }

  /** Takes any one regex out. */
  method RandomlyRemove(regexes: seq<Info>) returns (info: Info, rest: seq<Info>)
    requires regexes != []
    ensures info in regexes && |rest| == |regexes| - 1 && multiset(rest + [info]) == multiset(regexes)
    ensures exists idx :: 0 <= idx < |regexes| && info == regexes[idx] && rest == regexes[..idx] + regexes[idx + 1..]
  {
    var idx :| 0 <= idx < |regexes|;
    info := regexes[idx];
    rest := regexes[..idx] + regexes[idx + 1..];
    assert regexes == regexes[..idx] + [info] + regexes[idx + 1..];
  }

  /*---------- The whole run ----------*/

  /** pools[i] is the vector before the i-th greedy step. */
  ghost predicate GreedyRun(re: Engine, pools: seq<seq<Info>>, clusters: seq<seq<Info>>, m: nat) {
    && |pools| == |clusters| + 1
    && forall i :: 0 <= i < |clusters| ==> GreedyStep(re, pools[i], clusters[i], pools[i + 1], m)
  }

  lemma {:induction false} RunExtends(re: Engine, pools: seq<seq<Info>>, clusters: seq<seq<Info>>, m: nat,
                                     c: seq<Info>, rest: seq<Info>)
    requires GreedyRun(re, pools, clusters, m) && GreedyStep(re, pools[|clusters|], c, rest, m)
    ensures GreedyRun(re, pools + [rest], clusters + [c], m)
  {
  }

  lemma {:induction false} RunShortens(re: Engine, pools: seq<seq<Info>>, clusters: seq<seq<Info>>, m: nat)
    requires GreedyRun(re, pools, clusters, m) && clusters != []
    ensures GreedyRun(re, pools[..|clusters|], clusters[..|clusters| - 1], m)
  {
  }

  /** Nothing is lost and nothing is made: the clusters and the leftovers are the input. */
  lemma {:induction false} RunConserves(re: Engine, pools: seq<seq<Info>>, clusters: seq<seq<Info>>, m: nat)
    requires GreedyRun(re, pools, clusters, m)
    ensures multiset(pools[0]) == multiset(Flatten(clusters)) + multiset(pools[|clusters|])
    ensures |pools[0]| == (m + 1) * |clusters| + |pools[|clusters|]|
    ensures forall c :: c in clusters ==> |c| == m + 1
    decreases |clusters|
  {
    if clusters != [] {
      var n := |clusters| - 1;
      RunShortens(re, pools, clusters, m);
      RunConserves(re, pools[..n + 1], clusters[..n], m);
      assert GreedyStep(re, pools[n], clusters[n], pools[n + 1], m);
      assert (m + 1) * n + (m + 1) == (m + 1) * (n + 1);
    }
  }

  /** What is left later was there earlier. */
  lemma {:induction false} PoolsShrink(re: Engine, pools: seq<seq<Info>>, clusters: seq<seq<Info>>, m: nat,
                                      i: nat, j: nat, y: Info)
    requires GreedyRun(re, pools, clusters, m) && i <= j < |pools| && y in pools[j]
    ensures y in pools[i]
    decreases j - i
  {
    if i < j {
      assert GreedyStep(re, pools[j - 1], clusters[j - 1], pools[j], m);
      assert y in multiset(pools[j]) && y in multiset(pools[j - 1]);
      PoolsShrink(re, pools, clusters, m, i, j - 1, y);
    }
  }

  /** Greedy optimality over the whole run: no regex of a later cluster, and no leftover, is
      closer to an earlier seed than the members of that seed's own cluster. */
  lemma {:induction false} EarlierSeedsKeepTheirClosest(re: Engine, pools: seq<seq<Info>>, clusters: seq<seq<Info>>, m: nat,
                                                        i: nat, j: nat, x: Info, y: Info)
    requires GreedyRun(re, pools, clusters, m) && i < j <= |clusters|
    requires clusters[i] != [] && x in clusters[i][1..]
    requires if j < |clusters| then y in clusters[j] else y in pools[j]
    ensures var seed := clusters[i][0];
      Strings(seed) + Strings(x) > 0 && Strings(seed) + Strings(y) > 0 && ScoreOf(re, seed, x) >= ScoreOf(re, seed, y)
  {
    assert GreedyStep(re, pools[i], clusters[i], pools[i + 1], m);
    if j < |clusters| {
      assert GreedyStep(re, pools[j], clusters[j], pools[j + 1], m);
      assert y in multiset(clusters[j]) && y in multiset(pools[j]);
    }
    PoolsShrink(re, pools, clusters, m, i + 1, j, y);
  }

  /** The bound is compared with the vector's size as an unsigned number: a negative one is
      larger than any size, and no cluster is made. */
  method CreateClusters(re: Engine, regexes: seq<Info>, m: int)
    returns (clusters: seq<seq<Info>>, ghost pools: seq<seq<Info>>)
    requires 0 <= m < |regexes| ==> AllComparable(multiset(regexes))
    ensures m < 0 ==> clusters == []
    ensures m >= 0 ==> GreedyRun(re, pools, clusters, m) && pools[0] == regexes
    ensures m >= 0 ==> |clusters| == |regexes| / (m + 1) && |pools[|clusters|]| == |regexes| % (m + 1)
    ensures m >= 0 ==> multiset(Flatten(clusters)) + multiset(pools[|clusters|]) == multiset(regexes)
    ensures m >= 0 ==> forall c :: c in clusters ==> |c| == m + 1
  {
    var left := regexes;
    clusters, pools := [], [left];
    while m >= 0 && |left| > m
      invariant m >= 0 ==> GreedyRun(re, pools, clusters, m) && pools[0] == regexes && pools[|clusters|] == left
      invariant m < 0 ==> clusters == []
      invariant 0 <= m < |left| ==> AllComparable(multiset(left))
      decreases |left|
    {
      var newCluster, rest := GrowCluster(re, left, m);
      RunExtends(re, pools, clusters, m, newCluster, rest);
      clusters, pools := clusters + [newCluster], pools + [rest];
      left := rest;
    }
    if m >= 0 {
      RunConserves(re, pools, clusters, m);
      QuotientIs(|regexes|, m + 1, |clusters|, |left|);
    }
  }

  /** The body of the loop. */
  method GrowCluster(re: Engine, left: seq<Info>, m: nat) returns (newCluster: seq<Info>, rest: seq<Info>)
    requires |left| > m && AllComparable(multiset(left))
    ensures GreedyStep(re, left, newCluster, rest, m)
    ensures AllComparable(multiset(rest))
  {
    var seed, others := RandomlyRemove(left);
    forall r | r in others ensures Strings(seed) + Strings(r) > 0 {
      assert multiset(left) - multiset{seed} == multiset(others) && r in multiset(others);
    }
    newCluster, rest := Cluster(re, seed, others, m);
    StillComparable(multiset(left), multiset(rest));
  }

  lemma {:induction false} StillComparable(pool: multiset<Info>, rest: multiset<Info>)
    requires AllComparable(pool) && rest <= pool
    ensures AllComparable(rest)
  {
    forall x, y | x in rest && y in rest - multiset{x} ensures Strings(x) + Strings(y) > 0 {
      assert x in pool && y in pool - multiset{x};
    }
  }
}
