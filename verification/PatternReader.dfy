/** librereuse/db/pattern_reader: flattening clusters and regrouping them at random. */
module PatternReader {
  import opened Sequences
  import opened Re2
  import opened Clusters
  import opened ClusterRepositories
  import opened Counting
  import opened Packing

  method UnpackPatterns(clusters: seq<Cluster>) returns (all: seq<Entity>)
    ensures all == Flatten(GroupsOf(clusters))
  {
    all := [];
    ghost var groups := GroupsOf(clusters);
    for i := 0 to |clusters|
      invariant all == Flatten(groups[..i])
    {
      assert groups[..i + 1][..i] == groups[..i];
      all := all + clusters[i].entities;
    }
    assert groups[..|clusters|] == groups;
  }

  /** std::shuffle with any generator; callers rely on the permutation only. */
  method Shuffle(s: seq<Entity>) returns (r: seq<Entity>)
    ensures multiset(r) == multiset(s)
  {
    r := s;
    for i := 0 to |r|
      invariant |r| == |s| && multiset(r) == multiset(s)
    {
      var j :| i <= j < |r|;
      r := r[i := r[j]][j := r[i]];
    }
  }

  /** The groups so far are full, and with the buffer they make up the patterns read so far. */
  ghost predicate Grouped(groups: seq<seq<Entity>>, buffer: seq<Entity>, size: nat, read: seq<Entity>) {
    && Flatten(groups) + buffer == read
    && (forall g :: g in groups ==> |g| == size)
    && if size == 0 then groups == [] else |buffer| < size
  }

  lemma {:induction false} GroupedStep(groups: seq<seq<Entity>>, buffer: seq<Entity>, size: nat,
                                       all: seq<Entity>, i: nat)
    requires i < |all| && Grouped(groups, buffer, size, all[..i])
    ensures if |buffer| + 1 == size then Grouped(groups + [buffer + [all[i]]], [], size, all[..i + 1])
            else Grouped(groups, buffer + [all[i]], size, all[..i + 1])
  {
    PrefixStep(all, i);
    var read, x := all[..i], all[i];
    var groups' := groups + [buffer + [x]];
    assert groups'[..|groups|] == groups;
    assert Flatten(groups) + (buffer + [x]) == read + [x];
  }

  lemma {:induction false} GroupedCount(groups: seq<seq<Entity>>, buffer: seq<Entity>, size: nat, read: seq<Entity>)
    requires Grouped(groups, buffer, size, read)
    ensures |groups| == if size == 0 then 0 else |read| / size
    ensures size > 0 ==> |buffer| == |read| % size
  {
    if size > 0 {
      if groups != [] {
        assert forall i :: 0 <= i < |groups| ==> groups[i] in groups;
        FlattenSize(groups, size);
      }
      assert |Flatten(groups)| == size * |groups|;
      QuotientIs(|read|, size, |groups|, |buffer|);
    }
  }

  /** The clusters hold the parsable entities of full groups; the groups and a rest of less
      than a group permute the input. */
  ghost predicate Regrouped(re: Engine, all: seq<Entity>, size: nat, clusters: seq<Cluster>,
                            groups: seq<seq<Entity>>, rest: seq<Entity>)
    reads clusters
  {
    && multiset(Flatten(groups) + rest) == multiset(all)
    && Grouped(groups, rest, size, Flatten(groups) + rest)
    && Built(re, clusters, groups)
  }

  lemma {:induction false} RegroupedMeans(re: Engine, all: seq<Entity>, size: nat, clusters: seq<Cluster>,
                                          groups: seq<seq<Entity>>, rest: seq<Entity>)
    requires Regrouped(re, all, size, clusters, groups, rest)
    ensures multiset(Flatten(groups)) + multiset(rest) == multiset(all)
    ensures forall g :: g in groups ==> |g| == size
    ensures size > 0 ==> |rest| == |all| % size && |groups| == |all| / size
    ensures size == 0 ==> groups == []
    ensures |clusters| == |groups| && forall i, e :: 0 <= i < |clusters| ==>
      multiset(clusters[i].entities)[e] == if re.ok(e.pattern) then multiset(groups[i])[e] else 0
  {
    assert |Flatten(groups) + rest| == |multiset(Flatten(groups) + rest)| == |multiset(all)| == |all|;
    GroupedCount(groups, rest, size, Flatten(groups) + rest);
    forall i, e | 0 <= i < |clusters|
      ensures multiset(clusters[i].entities)[e] == if re.ok(e.pattern) then multiset(groups[i])[e] else 0
    {
      FilterCounts(groups[i], (e: Entity) => re.ok(e.pattern), e);
    }
  }

  ghost predicate Built(re: Engine, clusters: seq<Cluster>, groups: seq<seq<Entity>>)
    reads clusters
  {
    && |clusters| == |groups|
    && (forall c :: c in clusters ==> c.Valid() && c.re == re && !c.regexSet.sealed)
    && forall i :: 0 <= i < |clusters| ==> clusters[i].entities == AcceptedOf(re, groups[i])
  }

  /** Adds a cluster for one full group. */
  method AddGroup(re: Engine, clusters: seq<Cluster>, ghost groups: seq<seq<Entity>>, group: seq<Entity>)
    returns (more: seq<Cluster>)
    requires Built(re, clusters, groups)
    ensures Built(re, more, groups + [group])
    ensures |more| == |clusters| + 1 && more[..|clusters|] == clusters && fresh(more[|clusters|])
  {
    var cluster := new Cluster(re, group);
    more := clusters + [cluster];
  }

  /** The loop over the shuffled patterns. */
  method Regroup(re: Engine, shuffled: seq<Entity>, size: nat)
    returns (clusters: seq<Cluster>, ghost groups: seq<seq<Entity>>, ghost rest: seq<Entity>)
    ensures fresh(clusters) && Built(re, clusters, groups) && Grouped(groups, rest, size, shuffled)
  {
    clusters, groups := [], [];
    var buffer: seq<Entity> := [];
    for i := 0 to |shuffled|
      invariant Grouped(groups, buffer, size, shuffled[..i])
      invariant fresh(clusters) && Built(re, clusters, groups)
    {
      GroupedStep(groups, buffer, size, shuffled, i);
      buffer := buffer + [shuffled[i]];
      if |buffer| == size {
        clusters := AddGroup(re, clusters, groups, buffer);
        groups, buffer := groups + [buffer], [];
      }
    }
    assert shuffled[..|shuffled|] == shuffled;
    rest := buffer;
  }

  /** Groups a random permutation into full clusters and drops the rest; a size of 0 drops
      everything. Each cluster keeps the entities of its group that parse. */
  method RandomizeClusters(re: Engine, allPatterns: seq<Entity>, size: nat) returns (clusters: seq<Cluster>)
    ensures fresh(clusters) && exists groups, rest :: Regrouped(re, allPatterns, size, clusters, groups, rest)
    ensures |clusters| == if size == 0 then 0 else |allPatterns| / size
  {
    var shuffled := Shuffle(allPatterns);
    ghost var groups, rest;
    clusters, groups, rest := Regroup(re, shuffled, size);
    assert |shuffled| == |multiset(shuffled)| == |multiset(allPatterns)| == |allPatterns|;
    GroupedCount(groups, rest, size, shuffled);
    assert Regrouped(re, allPatterns, size, clusters, groups, rest);
  }
}
