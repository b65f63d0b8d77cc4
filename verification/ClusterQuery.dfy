/** librereuse/query/cluster_match_query: searching one cluster by examples. */
module ClusterQueries {
  import opened Sequences
  import opened Re2
  import opened Clusters
  import opened Bitmaps

  /** The examples; their iteration order is open, as that of an unordered_set. */
  datatype Examples = Examples(positive: set<string>, negative: set<string>)

  /** The pattern matches every positive and no negative example. */
  predicate Fits(re: Engine, q: Examples, pattern: string) {
    && (forall p :: p in q.positive ==> re.fullMatch(p, pattern))
    && (forall n :: n in q.negative ==> !re.fullMatch(n, pattern))
  }

  /** The entities that fit, in order. */
  function Answer(re: Engine, q: Examples, entities: seq<Entity>): seq<Entity> {
    Filter(entities, (e: Entity) => Fits(re, q, e.pattern))
  }

  /** Bit i says whether entity i fits. */
  ghost predicate Shows(bits: seq<bool>, re: Engine, q: Examples, entities: seq<Entity>) {
    && |bits| >= |entities|
    && forall i :: 0 <= i < |entities| ==> bits[i] == Fits(re, q, entities[i].pattern)
  }

  /** Bit i says whether entity i fitted before and its verdict on text is keep. */
  ghost predicate Narrowed(was: seq<bool>, bits: seq<bool>, re: Engine, text: string, keep: bool, entities: seq<Entity>) {
    && |was| >= |entities| && |bits| >= |entities|
    && forall i :: 0 <= i < |entities| ==> bits[i] == (was[i] && re.fullMatch(text, entities[i].pattern) == keep)
  }

  lemma {:induction false} NarrowedShows(was: seq<bool>, bits: seq<bool>, re: Engine, q: Examples, text: string,
                                        keep: bool, entities: seq<Entity>)
    requires Shows(was, re, q, entities) && Narrowed(was, bits, re, text, keep, entities)
    ensures Shows(bits, re,
      if keep then q.(positive := q.positive + {text}) else q.(negative := q.negative + {text}), entities)
  {
  }

  lemma {:induction false} SelectedIsAnswer(re: Engine, q: Examples, entities: seq<Entity>, bits: seq<bool>)
    requires Shows(bits, re, q, entities)
    ensures Selected(entities, bits) == Answer(re, q, entities)
  {
    SelectedIsFilter(entities, bits, (e: Entity) => Fits(re, q, e.pattern));
  }

  ghost predicate MatchedBySome(re: Engine, text: string, entities: seq<Entity>) {
    exists e :: e in entities && re.fullMatch(text, e.pattern)
  }

  ghost predicate MatchedByAll(re: Engine, text: string, entities: seq<Entity>) {
    forall e :: e in entities ==> re.fullMatch(text, e.pattern)
  }

  /** Some positive example matches no entity, or some negative one matches all of at least one. */
  ghost predicate Hopeless(re: Engine, q: Examples, entities: seq<Entity>) {
    || (exists p :: p in q.positive && !MatchedBySome(re, p, entities))
    || (entities != [] && exists n :: n in q.negative && MatchedByAll(re, n, entities))
  }

  /** The pre-filter is sound: a cluster it rejects has nothing to report. */
  lemma {:induction false} PrefilterSound(re: Engine, q: Examples, entities: seq<Entity>)
    requires Hopeless(re, q, entities)
    ensures Answer(re, q, entities) == []
  {
    FilterNone(entities, (e: Entity) => Fits(re, q, e.pattern));
  }

  /** Hopeless clusters are those for which one example alone leaves no answer; but an empty
      cluster is not given up on account of a negative example. */
  lemma {:induction false} HopelessIff(re: Engine, q: Examples, entities: seq<Entity>)
    ensures Hopeless(re, q, entities) <==>
      || (exists p :: p in q.positive && Answer(re, Examples({p}, {}), entities) == [])
      || (entities != [] && exists n :: n in q.negative && Answer(re, Examples({}, {n}), entities) == [])
  {
    forall p ensures Answer(re, Examples({p}, {}), entities) == [] <==> !MatchedBySome(re, p, entities) {
      AnswerIsEmpty(re, Examples({p}, {}), entities);
    }
    forall n ensures Answer(re, Examples({}, {n}), entities) == [] <==> MatchedByAll(re, n, entities) {
      AnswerIsEmpty(re, Examples({}, {n}), entities);
    }
  }

  lemma {:induction false} AnswerIsEmpty(re: Engine, q: Examples, entities: seq<Entity>)
    ensures Answer(re, q, entities) == [] <==> forall e :: e in entities ==> !Fits(re, q, e.pattern)
  {
    var keep := (e: Entity) => Fits(re, q, e.pattern);
    if Answer(re, q, entities) == [] {
      forall e | e in entities ensures !keep(e) {
        FilterCounts(entities, keep, e);
        assert e in multiset(entities);
      }
    } else {
      if forall e :: e in entities ==> !keep(e) {
        FilterNone(entities, keep);
      }
    }
  }

  /** What the hit list of an aligned set says about the entities. */
  lemma {:induction false} HitsMeaning(re: Engine, s: RegexSet, entities: seq<Entity>, text: string, hits: seq<nat>)
    requires s.patterns == PatternsOf(entities) && IsHitList(re, s, text, hits)
    ensures hits != [] <==> MatchedBySome(re, text, entities)
    ensures |hits| == |entities| <==> MatchedByAll(re, text, entities)
    ensures forall i: nat :: i < |entities| ==> (i in hits <==> re.fullMatch(text, entities[i].pattern))
  {
    HitListIsFull(re, s, text, hits);
    if hits != [] {
      assert hits[0] in hits && entities[hits[0]] in entities;
    }
    if MatchedBySome(re, text, entities) {
      var i: nat :| i < |entities| && re.fullMatch(text, entities[i].pattern);
      assert i in hits;
    }
    if MatchedByAll(re, text, entities) {
      forall i: nat | i < |s.patterns| ensures re.fullMatch(text, s.patterns[i]) {
        assert entities[i] in entities;
      }
    }
  }

  /** Sets the given bits to value, all others to the opposite. */
  method HitMap(size: nat, hits: seq<nat>, value: bool) returns (m: Bitmap)
    requires forall j :: j in hits ==> j < size
    ensures fresh(m) && m.Valid() && m.Size() == size
    ensures forall i :: 0 <= i < size ==> m.Bits()[i] == if i in hits then value else !value
  {
    m := new Bitmap(size, !value);
    for k := 0 to |hits|
      invariant m.Valid() && m.Size() == size
      invariant forall i :: 0 <= i < size ==> m.Bits()[i] == if i in hits[..k] then value else !value
    {
      assert hits[k] in hits;
      m.Set(hits[k], value);
    }
  }

  /** One example: keep the entities whose verdict on text is keep. When nothing matches,
      the map is left alone and any is false. */
  method Narrow(cluster: Cluster, text: string, keep: bool, matching: Bitmap) returns (any: bool)
    requires cluster.Valid() && cluster.setIsCompiled && matching.Valid() && matching.Size() == cluster.size
    modifies matching`bitset
    ensures any == MatchedBySome(cluster.re, text, cluster.entities)
    ensures matching.Valid() && matching.Size() == cluster.size
    ensures any || !keep ==>
      Narrowed(old(matching.Bits()), matching.Bits(), cluster.re, text, keep, cluster.entities)
  {
    var hits;
    any, hits := Match(cluster.re, cluster.regexSet, text);
    HitsMeaning(cluster.re, cluster.regexSet, cluster.entities, text, hits);
    if any {
      var m := HitMap(matching.Size(), hits, keep);
      matching.AndAssign(m);
    } else {
      assert forall e :: e in cluster.entities ==> !cluster.re.fullMatch(text, e.pattern);
    }
  }

  class ClusterMatchQuery {
    const examples: Examples

    constructor (positive: set<string>, negative: set<string>)
      ensures examples == Examples(positive, negative)
    {
      examples := Examples(positive, negative);
    }

    /** The bitmap intersection over all examples, in any order. */
    method Query(cluster: Cluster) returns (r: seq<Entity>)
      requires cluster.Valid() && cluster.setIsCompiled
      ensures r == Answer(cluster.re, examples, cluster.entities)
    {
      var matching := new Bitmap(cluster.size, true);

      var todo := examples.positive;
      ghost var seen := Examples({}, {});
      while todo != {}
        invariant todo <= examples.positive && seen == Examples(examples.positive - todo, {})
        invariant matching.Valid() && matching.Size() == cluster.size
        invariant Shows(matching.Bits(), cluster.re, seen, cluster.entities)
      {
        var pos :| pos in todo;
        ghost var was := matching.Bits();
        var any := Narrow(cluster, pos, true, matching);
        if !any {
          PrefilterSound(cluster.re, examples, cluster.entities);
          return [];
        }
        NarrowedShows(was, matching.Bits(), cluster.re, seen, pos, true, cluster.entities);
        todo, seen := todo - {pos}, seen.(positive := seen.positive + {pos});
      }

      todo := examples.negative;
      while todo != {}
        invariant todo <= examples.negative && seen == Examples(examples.positive, examples.negative - todo)
        invariant matching.Valid() && matching.Size() == cluster.size
        invariant Shows(matching.Bits(), cluster.re, seen, cluster.entities)
      {
        var neg :| neg in todo;
        ghost var was := matching.Bits();
        var _ := Narrow(cluster, neg, false, matching);
        NarrowedShows(was, matching.Bits(), cluster.re, seen, neg, false, cluster.entities);
        todo, seen := todo - {neg}, seen.(negative := seen.negative + {neg});
      }

      r := CollectSelected(cluster.entities, matching);
      SelectedIsAnswer(cluster.re, examples, cluster.entities, matching.Bits());
    }

    /** The pre-filter: false exactly when one example alone leaves no answer, except that an
        empty cluster passes every negative example. */
    method Test(cluster: Cluster) returns (worthwhile: bool)
      requires cluster.Valid() && cluster.setIsCompiled
      ensures worthwhile == !Hopeless(cluster.re, examples, cluster.entities)
      ensures !worthwhile <==>
        || (exists p :: p in examples.positive && Answer(cluster.re, Examples({p}, {}), cluster.entities) == [])
        || (cluster.entities != [] &&
            exists n :: n in examples.negative && Answer(cluster.re, Examples({}, {n}), cluster.entities) == [])
    {
      HopelessIff(cluster.re, examples, cluster.entities);
      var todo := examples.positive;
      while todo != {}
        invariant todo <= examples.positive
        invariant forall p :: p in examples.positive - todo ==> MatchedBySome(cluster.re, p, cluster.entities)
      {
        var pos :| pos in todo;
        var any, hits := Match(cluster.re, cluster.regexSet, pos);
        HitsMeaning(cluster.re, cluster.regexSet, cluster.entities, pos, hits);
        if !any {
          return false;
        }
        todo := todo - {pos};
      }
      todo := examples.negative;
      while todo != {}
        invariant todo <= examples.negative
        invariant cluster.entities == []
          || forall n :: n in examples.negative - todo ==> !MatchedByAll(cluster.re, n, cluster.entities)
      {
        var neg :| neg in todo;
        var any, hits := Match(cluster.re, cluster.regexSet, neg);
        HitsMeaning(cluster.re, cluster.regexSet, cluster.entities, neg, hits);
        if any {
          if |hits| == cluster.size {
            assert MatchedByAll(cluster.re, neg, cluster.entities);
            return false;
          }
        }
        todo := todo - {neg};
      }
      return true;
    }
  }

  method CollectSelected(entities: seq<Entity>, matching: Bitmap) returns (r: seq<Entity>)
    requires matching.Valid() && matching.Size() == |entities|
    ensures r == Selected(entities, matching.Bits())
  {
    r := [];
    for idx := 0 to matching.Size()
      invariant r == Selected(entities[..idx], matching.Bits())
    {
      assert entities[..idx + 1][..idx] == entities[..idx];
      var isSet := matching.Get(idx);
      if isSet {
        r := r + [entities[idx]];
      }
    }
    assert entities[..matching.Size()] == entities;
  }
}
