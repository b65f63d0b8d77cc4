/** librereuse/db/regex_cluster_repository: the clustered database. */
module ClusterRepositories {
  import opened Sequences
  import opened Re2
  import opened Clusters
  import opened ClusterQueries
  import opened BruteForce
  import opened Packing

  /** What each cluster holds. */
  ghost function GroupsOf(clusters: seq<Cluster>): (groups: seq<seq<Entity>>)
    reads clusters
    ensures |groups| == |clusters| && forall i :: 0 <= i < |clusters| ==> groups[i] == clusters[i].entities
  {
    seq(|clusters|, i requires 0 <= i < |clusters| reads clusters => clusters[i].entities)
  }

  function Answers(re: Engine, q: Examples, groups: seq<seq<Entity>>): seq<seq<Entity>> {
    Mapped((g: seq<Entity>) => Answer(re, q, g), groups)
  }

  /** The answer of every cluster, each block in front of the earlier ones. */
  function AnswerAll(re: Engine, q: Examples, groups: seq<seq<Entity>>): seq<Entity> {
    PrependAll(Answers(re, q, groups))
  }

  ghost function HopelessCount(re: Engine, q: Examples, groups: seq<seq<Entity>>): nat {
    |Filter(groups, (g: seq<Entity>) => Hopeless(re, q, g))|
  }

  /** The positions of the groups for which one example alone leaves no answer. */
  ghost function EmptiedByOne(re: Engine, q: Examples, groups: seq<seq<Entity>>): (r: set<int>)
    ensures forall i :: i in r ==> 0 <= i < |groups|
    ensures forall i :: 0 <= i < |groups| ==> (i in r <==>
      || (exists p :: p in q.positive && Answer(re, Examples({p}, {}), groups[i]) == [])
      || (groups[i] != [] && exists n :: n in q.negative && Answer(re, Examples({}, {n}), groups[i]) == []))
  {
    forall i | 0 <= i < |groups| {
      HopelessIff(re, q, groups[i]);
    }
    Positions(groups, (g: seq<Entity>) => Hopeless(re, q, g))
  }

  lemma {:induction false} HopelessStep(re: Engine, q: Examples, groups: seq<seq<Entity>>, i: nat)
    requires i < |groups|
    ensures HopelessCount(re, q, groups[..i + 1])
         == HopelessCount(re, q, groups[..i]) + if Hopeless(re, q, groups[i]) then 1 else 0
  {
    FilterStep(groups, i, (g: seq<Entity>) => Hopeless(re, q, g));
  }

  lemma {:induction false} HopelessAreEmptiedByOne(re: Engine, q: Examples, groups: seq<seq<Entity>>)
    ensures HopelessCount(re, q, groups) == |EmptiedByOne(re, q, groups)|
  {
    FilterSize(groups, (g: seq<Entity>) => Hopeless(re, q, g));
  }

  lemma {:induction false} AnswerAllStep(re: Engine, q: Examples, groups: seq<seq<Entity>>, i: nat)
    requires i < |groups|
    ensures AnswerAll(re, q, groups[..i + 1]) == Answer(re, q, groups[i]) + AnswerAll(re, q, groups[..i])
  {
    assert Answers(re, q, groups[..i + 1])[..i] == Answers(re, q, groups[..i]);
  }

  /** Clustered search equals brute force: whatever the grouping, the answer is that of a
      zero-miss scan over the entities of all clusters, each as often as it occurs. */
  lemma {:induction false} ClusteredIsBruteForce(re: Engine, q: Examples, groups: seq<seq<Entity>>)
    ensures multiset(AnswerAll(re, q, groups)) == multiset(Scan(re, q, 0, Flatten(groups)))
  {
    var keep := (e: Entity) => Fits(re, q, e.pattern);
    assert Answers(re, q, groups) == Mapped((b: seq<Entity>) => Filter(b, keep), groups);
    FlattenFilter(groups, keep);
    PrependAllPermutes(Answers(re, q, groups));
    ScanWithoutMisses(re, q, Flatten(groups));
  }

  /** Clusters hold only patterns that parse, so a brute-force repository over the unpacked
      patterns keeps them all. */
  lemma {:induction false} UnpackedAreAccepted(re: Engine, groups: seq<seq<Entity>>)
    requires forall g :: g in groups ==> AcceptedOf(re, g) == g
    ensures AcceptedOf(re, Flatten(groups)) == Flatten(groups)
  {
    var keep := (e: Entity) => re.ok(e.pattern);
    FlattenFilter(groups, keep);
    var kept := Mapped((b: seq<Entity>) => Filter(b, keep), groups);
    forall i | 0 <= i < |groups| ensures kept[i] == groups[i] {
      assert AcceptedOf(re, groups[i]) == groups[i];
    }
    assert kept == groups;
  }

  /** The groups whose sets compile. */
  function Survivors(re: Engine, groups: seq<seq<Entity>>): seq<seq<Entity>> {
    Filter(groups, (g: seq<Entity>) => re.compiles(PatternsOf(g)))
  }

  function Lost(re: Engine, groups: seq<seq<Entity>>): seq<seq<Entity>> {
    Filter(groups, (g: seq<Entity>) => !re.compiles(PatternsOf(g)))
  }

  /** What the constructor's clusters hold. */
  function Database(re: Engine, cap: int, input: seq<Entity>): seq<seq<Entity>> {
    Survivors(re, Pack(cap, AcceptedOf(re, input)))
  }

  /** Every brute-force result comes from a group that compiled or from one that did not. */
  lemma {:induction false} ScanSplits(re: Engine, q: Examples, groups: seq<seq<Entity>>)
    ensures multiset(Scan(re, q, 0, Flatten(groups)))
         == multiset(AnswerAll(re, q, Survivors(re, groups))) + multiset(AnswerAll(re, q, Lost(re, groups)))
  {
    var keep, compiles := (e: Entity) => Fits(re, q, e.pattern), (g: seq<Entity>) => re.compiles(PatternsOf(g));
    var all, kept, lost := Flatten(groups), Flatten(Survivors(re, groups)), Flatten(Lost(re, groups));
    FlattenSplits(groups, compiles);
    FilterCongruent(groups, b => !compiles(b), (g: seq<Entity>) => !re.compiles(PatternsOf(g)));
    ClusteredIsBruteForce(re, q, Survivors(re, groups));
    ClusteredIsBruteForce(re, q, Lost(re, groups));
    ScanWithoutMisses(re, q, all);
    ScanWithoutMisses(re, q, kept);
    ScanWithoutMisses(re, q, lost);
    forall e: Entity
      ensures multiset(Filter(all, keep))[e] == multiset(Filter(kept, keep))[e] + multiset(Filter(lost, keep))[e]
    {
      FilterCounts(all, keep, e);
      FilterCounts(kept, keep, e);
      FilterCounts(lost, keep, e);
    }
  }

  /** No entity of a group that fails to compile fits the query. */
  ghost predicate NothingLost(re: Engine, q: Examples, groups: seq<seq<Entity>>) {
    forall g, e :: g in groups && e in g && Fits(re, q, e.pattern) ==> re.compiles(PatternsOf(g))
  }

  lemma {:induction false} LostAnswers(re: Engine, q: Examples, groups: seq<seq<Entity>>)
    ensures AnswerAll(re, q, Lost(re, groups)) == [] <==> NothingLost(re, q, groups)
  {
    if groups != [] {
      var n := |groups| - 1;
      var init, g := groups[..n], groups[n];
      LostAnswers(re, q, init);
      AnswerAllAppends(re, q, Lost(re, init), g);
      AnswerIsEmpty(re, q, g);
      assert groups == init + [g];
    }
  }

  lemma {:induction false} AnswerAllAppends(re: Engine, q: Examples, groups: seq<seq<Entity>>, g: seq<Entity>)
    ensures AnswerAll(re, q, groups + [g]) == Answer(re, q, g) + AnswerAll(re, q, groups)
  {
    AnswerAllStep(re, q, groups + [g], |groups|);
    assert (groups + [g])[..|groups|] == groups && (groups + [g])[..|groups| + 1] == groups + [g];
  }

  /** End to end, for every input, cluster size and query: what the constructed repository
      misses of the brute-force answer over the same input is exactly what fits in the groups
      that do not compile. */
  lemma {:induction false} DatabaseMisses(re: Engine, q: Examples, cap: int, input: seq<Entity>)
    ensures multiset(Scan(re, q, 0, AcceptedOf(re, input)))
         == multiset(AnswerAll(re, q, Database(re, cap, input)))
          + multiset(AnswerAll(re, q, Lost(re, Pack(cap, AcceptedOf(re, input)))))
  {
    PackIsChunking(cap, AcceptedOf(re, input));
    ScanSplits(re, q, Pack(cap, AcceptedOf(re, input)));
  }

  /** So the two answers agree if and only if nothing that fits was in such a group. */
  lemma {:induction false} DatabaseIsBruteForce(re: Engine, q: Examples, cap: int, input: seq<Entity>)
    ensures multiset(AnswerAll(re, q, Database(re, cap, input))) == multiset(Scan(re, q, 0, AcceptedOf(re, input)))
       <==> NothingLost(re, q, Pack(cap, AcceptedOf(re, input)))
  {
    var groups := Pack(cap, AcceptedOf(re, input));
    DatabaseMisses(re, q, cap, input);
    LostAnswers(re, q, groups);
    var found, lost := AnswerAll(re, q, Database(re, cap, input)), AnswerAll(re, q, Lost(re, groups));
    assert |multiset(found) + multiset(lost)| == |found| + |lost|;
  }

  /** get_regex_cluster_idx's count_if. */
  predicate Contains(entities: seq<Entity>, pattern: string) {
    exists e :: e in entities && e.pattern == pattern
  }

  lemma {:induction false} ContainsMeans(entities: seq<Entity>, pattern: string)
    ensures Contains(entities, pattern) <==> pattern in PatternsOf(entities)
  {
    if pattern in PatternsOf(entities) {
      var i :| 0 <= i < |entities| && PatternsOf(entities)[i] == pattern;
      assert entities[i] in entities;
    }
    if Contains(entities, pattern) {
      var e :| e in entities && e.pattern == pattern;
      var i :| 0 <= i < |entities| && entities[i] == e;
      assert PatternsOf(entities)[i] == pattern;
    }
  }

  lemma {:induction false} PatternIsSomewhere(groups: seq<seq<Entity>>, pattern: string, i: nat)
    requires i < |groups| && pattern in PatternsOf(groups[i])
    ensures pattern in PatternsOf(Flatten(groups))
  {
    var j :| 0 <= j < |groups[i]| && PatternsOf(groups[i])[j] == pattern;
    FlattenHas(groups, i, groups[i][j]);
    var k :| 0 <= k < |Flatten(groups)| && Flatten(groups)[k] == groups[i][j];
    assert PatternsOf(Flatten(groups))[k] == pattern;
  }

  lemma {:induction false} PatternIsNowhere(groups: seq<seq<Entity>>, pattern: string)
    requires forall i :: 0 <= i < |groups| ==> pattern !in PatternsOf(groups[i])
    ensures pattern !in PatternsOf(Flatten(groups))
  {
    if pattern in PatternsOf(Flatten(groups)) {
      var k :| 0 <= k < |Flatten(groups)| && PatternsOf(Flatten(groups))[k] == pattern;
      var i := FlattenFrom(groups, Flatten(groups)[k]);
      assert false;
    }
  }

  class RegexClusterRepository {
    const re: Engine
    const maxClusterSize: int
    var clusters: seq<Cluster>
    var skipTestOpt: bool

    ghost predicate Valid()
      reads this, clusters
    {
      forall c :: c in clusters ==> c.Valid() && c.setIsCompiled && c.re == re
    }

    ghost function Groups(): seq<seq<Entity>>
      reads this, clusters
    {
      GroupsOf(clusters)
    }

    /** Packs the accepted entities, then drops the clusters that fail to compile. */
    constructor (re: Engine, maxClusterSize: int, input: seq<Entity>)
      ensures Valid() && this.re == re && this.maxClusterSize == maxClusterSize && !skipTestOpt
      ensures forall c :: c in clusters ==> fresh(c)
      ensures Groups() == Database(re, maxClusterSize, input)
    {
      this.re, this.maxClusterSize := re, maxClusterSize;
      clusters, skipTestOpt := [], false;
      new;
      var packed := PackClusters(re, maxClusterSize, input);
      var kept := KeepCompiled(re, packed);
      clusters := kept;
    }

    /** One turn of the loop: the pre-filter, then the cluster itself. */
    method QueryCluster(query: ClusterMatchQuery, cluster: Cluster) returns (block: seq<Entity>, skip: bool)
      requires Valid() && cluster in clusters
      ensures skip == (!skipTestOpt && Hopeless(re, query.examples, cluster.entities))
      ensures block == Answer(re, query.examples, cluster.entities) && (skip ==> block == [])
    {
      if !skipTestOpt {
        var worthwhile := query.Test(cluster);
        if !worthwhile {
          PrefilterSound(re, query.examples, cluster.entities);
          return [], true;
        }
      }
      block := query.Query(cluster);
      skip := false;
    }

    method DeepQuery(query: ClusterMatchQuery) returns (results: seq<Entity>, skipped: nat)
      requires Valid()
      ensures results == AnswerAll(re, query.examples, Groups())
      ensures multiset(results) == multiset(Scan(re, query.examples, 0, Flatten(Groups())))
      ensures skipped == if skipTestOpt then 0 else |EmptiedByOne(re, query.examples, Groups())|
    {
      results, skipped := [], 0;
      ghost var q, groups := query.examples, Groups();
      for i := 0 to |clusters|
        invariant results == AnswerAll(re, q, groups[..i])
        invariant skipped == if skipTestOpt then 0 else HopelessCount(re, q, groups[..i])
      {
        AnswerAllStep(re, q, groups, i);
        HopelessStep(re, q, groups, i);
        var block, skip := QueryCluster(query, clusters[i]);
        if skip {
          skipped := skipped + 1;
        } else {
          results := block + results;
        }
      }
      assert groups[..|clusters|] == groups;
      ClusteredIsBruteForce(re, q, groups);
      HopelessAreEmptiedByOne(re, q, groups);
    }

    /** Adds a cluster of the caller's if it compiles or is compiled already. */
    method AddCluster(cluster: Cluster) returns (compiled: bool)
      requires Valid() && cluster.Valid() && cluster !in clusters && cluster.re == re
      modifies this`clusters, cluster
      ensures Valid() && cluster.entities == old(cluster.entities)
      ensures compiled == cluster.setIsCompiled == old(cluster.CanCompile())
      ensures clusters == if compiled then old(clusters) + [cluster] else old(clusters)
      ensures Groups() == if compiled then old(Groups()) + [cluster.entities] else old(Groups())
    {
      compiled := cluster.CompileSet();
      if compiled {
        clusters := clusters + [cluster];
      }
    }

    /** The first cluster that holds the pattern. */
    method ClusterIndexOf(pattern: string) returns (r: Option<nat>)
      ensures r.Some? <==> pattern in PatternsOf(Flatten(Groups()))
      ensures r.Some? ==> r.value < |clusters| && pattern in PatternsOf(clusters[r.value].entities)
      ensures r.Some? ==> forall i :: 0 <= i < r.value ==> pattern !in PatternsOf(clusters[i].entities)
    {
      for idx := 0 to |clusters|
        invariant forall i :: 0 <= i < idx ==> pattern !in PatternsOf(clusters[i].entities)
      {
        ContainsMeans(clusters[idx].entities, pattern);
        if Contains(clusters[idx].entities, pattern) {
          PatternIsSomewhere(Groups(), pattern, idx);
          return Some(idx);
        }
      }
      PatternIsNowhere(Groups(), pattern);
      return None;
    }
  }

  /** Distinct, well-formed clusters of one engine. */
  ghost predicate Distinct(re: Engine, clusters: seq<Cluster>)
    reads clusters
  {
    && (forall i, j :: 0 <= i < j < |clusters| ==> clusters[i] != clusters[j])
    && (forall c :: c in clusters ==> c.Valid() && c.re == re)
  }

  ghost predicate Open(clusters: seq<Cluster>)
    reads clusters
  {
    forall c :: c in clusters ==> !c.regexSet.sealed
  }

  /** One turn of the first loop: the back cluster if it has room, else a new one. */
  method PackPattern(re: Engine, maxClusterSize: int, clusters: seq<Cluster>, pattern: Entity) returns (r: seq<Cluster>)
    requires Distinct(re, clusters) && Open(clusters)
    modifies clusters
    ensures Distinct(re, r) && Open(r)
    ensures forall i :: 0 <= i < |r| ==> (i < |clusters| && r[i] == clusters[i]) || fresh(r[i])
    ensures GroupsOf(r) == if re.ok(pattern.pattern) then PackOne(maxClusterSize, old(GroupsOf(clusters)), pattern)
                           else old(GroupsOf(clusters))
  {
    ghost var groups := GroupsOf(clusters);
    var last := |clusters| - 1;
    assert clusters != [] ==> clusters[last] in clusters;
    if clusters != [] && clusters[last].size < maxClusterSize {
      AddToBack(re, clusters, pattern);
      assert groups[last := groups[last]] == groups;
      r := clusters;
    } else {
      r := OpenNew(re, clusters, pattern);
    }
  }

  method AddToBack(re: Engine, clusters: seq<Cluster>, pattern: Entity)
    requires Distinct(re, clusters) && Open(clusters) && clusters != []
    modifies clusters[|clusters| - 1]
    ensures Distinct(re, clusters) && Open(clusters)
    ensures var groups, last := old(GroupsOf(clusters)), |clusters| - 1;
      GroupsOf(clusters) == groups[last := if re.ok(pattern.pattern) then groups[last] + [pattern] else groups[last]]
  {
    var back := clusters[|clusters| - 1];
    assert back in clusters;
    var _ := back.AddEntity(pattern);
  }

  method OpenNew(re: Engine, clusters: seq<Cluster>, pattern: Entity) returns (r: seq<Cluster>)
    requires Distinct(re, clusters) && Open(clusters)
    ensures Distinct(re, r) && Open(r)
    ensures clusters <= r && forall i :: |clusters| <= i < |r| ==> fresh(r[i])
    ensures GroupsOf(r) == old(GroupsOf(clusters)) + if re.ok(pattern.pattern) then [[pattern]] else []
  {
    var newCluster, successful := NewCluster(re, pattern);
    r := if successful then clusters + [newCluster] else clusters;
  }

  method NewCluster(re: Engine, pattern: Entity) returns (c: Cluster, successful: bool)
    ensures fresh(c) && c.Valid() && c.re == re && !c.regexSet.sealed
    ensures successful == re.ok(pattern.pattern) && c.entities == if successful then [pattern] else []
  {
    c := new Cluster.Empty(re);
    successful := c.AddEntity(pattern);
  }

  /** The first loop of the constructor. */
  method PackClusters(re: Engine, maxClusterSize: int, input: seq<Entity>) returns (clusters: seq<Cluster>)
    ensures fresh(clusters) && Distinct(re, clusters) && Open(clusters)
    ensures GroupsOf(clusters) == Pack(maxClusterSize, AcceptedOf(re, input))
  {
    clusters := [];
    for k := 0 to |input|
      invariant fresh(clusters) && Distinct(re, clusters) && Open(clusters)
      invariant GroupsOf(clusters) == Pack(maxClusterSize, AcceptedOf(re, input[..k]))
    {
      FilterStep(input, k, (e: Entity) => re.ok(e.pattern));
      clusters := PackPattern(re, maxClusterSize, clusters, input[k]);
    }
    assert input[..|input|] == input;
  }

  /** The clusters visited so far are marked if they compiled, the others are still open. */
  ghost predicate Visited(re: Engine, input: seq<Cluster>, marks: seq<bool>)
    reads input
  {
    && |marks| <= |input|
    && (forall j :: 0 <= j < |marks| ==>
      input[j].setIsCompiled == marks[j] == re.compiles(PatternsOf(input[j].entities)))
    && forall j :: |marks| <= j < |input| ==> !input[j].regexSet.sealed
  }

  /** Compiles the next cluster. */
  method TryCompile(re: Engine, input: seq<Cluster>, ghost marks: seq<bool>, c: Cluster) returns (ok: bool)
    requires Distinct(re, input) && Visited(re, input, marks) && |marks| < |input| && c == input[|marks|]
    modifies c
    ensures Distinct(re, input) && Visited(re, input, marks + [ok])
    ensures GroupsOf(input) == old(GroupsOf(input))
  {
    assert c in input && c.Valid() && !c.setIsCompiled;
    ok := c.CompileSet();
  }

  /** The erase loop at position it, with marks for the clusters that have been visited. */
  ghost predicate Erased<T>(input: seq<T>, marks: seq<bool>, left: seq<T>, it: nat) {
    && |marks| <= |input|
    && left == Selected(input[..|marks|], marks) + input[|marks|..]
    && it == |Selected(input[..|marks|], marks)|
  }

  lemma {:induction false} EraseStep<T>(input: seq<T>, marks: seq<bool>, left: seq<T>, it: nat, mark: bool)
    requires Erased(input, marks, left, it) && it < |left|
    ensures |marks| < |input| && left[it] == input[|marks|]
    ensures if mark then Erased(input, marks + [mark], left, it + 1)
            else Erased(input, marks + [mark], left[..it] + left[it + 1..], it)
  {
    SelectedStep(input, marks, mark);
  }

  /** The second loop of the constructor: compile each cluster, erase it if that fails. */
  method KeepCompiled(re: Engine, input: seq<Cluster>) returns (clusters: seq<Cluster>)
    requires Distinct(re, input) && Open(input)
    modifies input
    ensures Distinct(re, input)
    ensures forall c :: c in clusters <==> c in input && c.setIsCompiled
    ensures GroupsOf(clusters) == Survivors(re, old(GroupsOf(input)))
  {
    clusters := input;
    var it := 0;
    ghost var marks: seq<bool> := [];
    while it < |clusters|
      invariant Erased(input, marks, clusters, it)
      invariant Distinct(re, input)
      invariant GroupsOf(input) == old(GroupsOf(input))
      invariant Visited(re, input, marks)
      decreases |clusters| - it
    {
      EraseStep(input, marks, clusters, it, true);
      EraseStep(input, marks, clusters, it, false);
      var ok := TryCompile(re, input, marks, clusters[it]);
      marks := marks + [ok];
      if ok {
        it := it + 1;
      } else {
        clusters := clusters[..it] + clusters[it + 1..];
      }
    }
    KeptAreCompiled(re, input, marks, clusters);
  }

  lemma {:induction false} KeptAreCompiled(re: Engine, input: seq<Cluster>, marks: seq<bool>, clusters: seq<Cluster>)
    requires Erased(input, marks, clusters, |clusters|) && Visited(re, input, marks)
    ensures forall c :: c in clusters <==> c in input && c.setIsCompiled
    ensures GroupsOf(clusters) == Survivors(re, GroupsOf(input))
  {
    assert input[..|marks|] == input && clusters == Selected(input, marks);
    SelectedAreMarked(input, marks);
    forall j | 0 <= j < |input| && marks[j] ensures input[j] in clusters {
      SelectedHas(input, marks, j);
    }
    SelectedGroups(input, marks);
    SelectedIsFilter(GroupsOf(input), marks, (g: seq<Entity>) => re.compiles(PatternsOf(g)));
  }

  lemma {:induction false} SelectedGroups(clusters: seq<Cluster>, marks: seq<bool>)
    requires |marks| >= |clusters|
    ensures GroupsOf(Selected(clusters, marks)) == Selected(GroupsOf(clusters), marks)
  {
    if clusters != [] {
      var n := |clusters| - 1;
      SelectedGroups(clusters[..n], marks);
      assert GroupsOf(clusters)[..n] == GroupsOf(clusters[..n]);
    }
  }
}
