/** The reference: one regex at a time. librereuse/query/match_query, miss_score,
    base_regex_query and librereuse/db/regex_repository. */
module BruteForce {
  import opened Sequences
  import opened Re2
  import opened Clusters
  import opened ClusterQueries

  /** The number of examples that the pattern gets wrong. */
  function Misses(re: Engine, q: Examples, pattern: string): nat {
    |Verdict(re, q.positive, pattern, false)| + |Verdict(re, q.negative, pattern, true)|
  }

  lemma {:induction false} MissesCount(re: Engine, q: Examples, pattern: string)
    ensures Misses(re, q, pattern) == |set p | p in q.positive && !re.fullMatch(p, pattern)|
      + |set n | n in q.negative && re.fullMatch(n, pattern)|
  {
    assert Verdict(re, q.positive, pattern, false) == set p | p in q.positive && !re.fullMatch(p, pattern);
    assert Verdict(re, q.negative, pattern, true) == set n | n in q.negative && re.fullMatch(n, pattern);
  }

  /** A new example adds one miss if the pattern gets it wrong, and none otherwise. */
  lemma {:induction false} MissesGrow(re: Engine, q: Examples, pattern: string, t: string)
    ensures t !in q.positive ==>
      Misses(re, q.(positive := q.positive + {t}), pattern)
      == Misses(re, q, pattern) + if re.fullMatch(t, pattern) then 0 else 1
    ensures t !in q.negative ==>
      Misses(re, q.(negative := q.negative + {t}), pattern)
      == Misses(re, q, pattern) + if re.fullMatch(t, pattern) then 1 else 0
  {
    if t !in q.positive {
      var all := q.positive + {t};
      VerdictStep(re, all, {t}, t, pattern, false);
      assert all - ({t} - {t}) == all && all - {t} == q.positive;
    }
    if t !in q.negative {
      var all := q.negative + {t};
      VerdictStep(re, all, {t}, t, pattern, true);
      assert all - ({t} - {t}) == all && all - {t} == q.negative;
    }
  }

  /** The entities with at most maxMisses misses, in order. */
  function Scan(re: Engine, q: Examples, maxMisses: int, entities: seq<Entity>): seq<Entity> {
    Filter(entities, (e: Entity) => Misses(re, q, e.pattern) <= maxMisses)
  }

  lemma {:induction false} ScanMembers(re: Engine, q: Examples, maxMisses: int, entities: seq<Entity>)
    ensures forall e: Entity :: e in Scan(re, q, maxMisses, entities) <==>
      && e in entities
      && |set p | p in q.positive && !re.fullMatch(p, e.pattern)|
        + |set n | n in q.negative && re.fullMatch(n, e.pattern)| <= maxMisses
  {
    forall e: Entity ensures e in Scan(re, q, maxMisses, entities) <==>
      e in entities && Misses(re, q, e.pattern) <= maxMisses
    {
      FilterMembers(entities, (e: Entity) => Misses(re, q, e.pattern) <= maxMisses, e);
    }
    forall e: Entity {
      MissesCount(re, q, e.pattern);
    }
  }

  datatype MissScore = MissScore(maxMisses: int) {
    function Score(tp: int, tn: int, fp: int, fn: int): real {
      (fp + fn) as real
    }

    predicate ScorePasses(score: real) {
      score <= maxMisses as real
    }
  }

  class MatchQuery {
    const examples: Examples
    const scorer: MissScore

    constructor (examples: Examples, maxMisses: int)
      ensures this.examples == examples && scorer == MissScore(maxMisses)
    {
      this.examples := examples;
      scorer := MissScore(maxMisses);
    }

    method Score(re: Engine, regex: string) returns (score: real)
      ensures score == Misses(re, examples, regex) as real
      ensures score == (|set p | p in examples.positive && !re.fullMatch(p, regex)|
        + |set n | n in examples.negative && re.fullMatch(n, regex)|) as real
    {
      MissesCount(re, examples, regex);
      var tp, tn, fp, fn := 0, 0, 0, 0;
      var todo := examples.positive;
      while todo != {}
        invariant todo <= examples.positive
        invariant fp == |Verdict(re, examples.positive - todo, regex, false)|
      {
        var pos :| pos in todo;
        VerdictStep(re, examples.positive, todo, pos, regex, false);
        if re.fullMatch(pos, regex) {
          tp := tp + 1;
        } else {
          fp := fp + 1;
        }
        todo := todo - {pos};
      }
      assert examples.positive - {} == examples.positive;
      todo := examples.negative;
      while todo != {}
        invariant todo <= examples.negative
        invariant fn == |Verdict(re, examples.negative - todo, regex, true)|
      {
        var neg :| neg in todo;
        VerdictStep(re, examples.negative, todo, neg, regex, true);
        if !re.fullMatch(neg, regex) {
          tn := tn + 1;
        } else {
          fn := fn + 1;
        }
        todo := todo - {neg};
      }
      assert examples.negative - {} == examples.negative;
      score := scorer.Score(tp, tn, fp, fn);
    }

    /** Accepts exactly when at most maxMisses examples are misclassified. */
    method Test(re: Engine, regex: string) returns (passes: bool)
      ensures passes == (Misses(re, examples, regex) <= scorer.maxMisses)
      ensures passes == (|set p | p in examples.positive && !re.fullMatch(p, regex)|
        + |set n | n in examples.negative && re.fullMatch(n, regex)| <= scorer.maxMisses)
    {
      MissesCount(re, examples, regex);
      var score := Score(re, regex);
      passes := scorer.ScorePasses(score);
    }
  }

  class RegexRepository {
    const re: Engine
    var regexes: seq<string>
    var entities: seq<Entity>

    ghost predicate Valid()
      reads this
    {
      |regexes| == |entities| && forall i :: 0 <= i < |entities| ==> regexes[i] == entities[i].pattern
    }

    constructor (re: Engine, input: seq<Entity>)
      ensures Valid() && this.re == re && entities == AcceptedOf(re, input)
    {
      this.re := re;
      regexes, entities := [], [];
      new;
      for i := 0 to |input|
        invariant Valid() && this.re == re && entities == AcceptedOf(re, input[..i])
      {
        FilterStep(input, i, (e: Entity) => re.ok(e.pattern));
        if re.ok(input[i].pattern) {
          regexes, entities := regexes + [input[i].pattern], entities + [input[i]];
        }
      }
      assert input[..|input|] == input;
    }

    method Query(query: MatchQuery) returns (r: seq<Entity>)
      requires Valid()
      ensures r == Scan(re, query.examples, query.scorer.maxMisses, entities)
      ensures forall e: Entity :: e in r <==>
        && e in entities
        && |set p | p in query.examples.positive && !re.fullMatch(p, e.pattern)|
          + |set n | n in query.examples.negative && re.fullMatch(n, e.pattern)| <= query.scorer.maxMisses
    {
      r := [];
      for i := 0 to |regexes|
        invariant r == Scan(re, query.examples, query.scorer.maxMisses, entities[..i])
      {
        FilterStep(entities, i, (e: Entity) => Misses(re, query.examples, e.pattern) <= query.scorer.maxMisses);
        var passes := query.Test(re, regexes[i]);
        if passes {
          r := r + [entities[i]];
        }
      }
      assert entities[..|regexes|] == entities;
      ScanMembers(re, query.examples, query.scorer.maxMisses, entities);
    }
  }

  /** A budget of zero misses means fitting all examples. */
  lemma {:induction false} NoMissesIsFitting(re: Engine, q: Examples, pattern: string)
    ensures Misses(re, q, pattern) <= 0 <==> Fits(re, q, pattern)
  {
    var p, n := Verdict(re, q.positive, pattern, false), Verdict(re, q.negative, pattern, true);
    assert |p| == 0 <==> p == {};
    assert |n| == 0 <==> n == {};
    if p == {} && n == {} {
      forall t | t in q.positive ensures re.fullMatch(t, pattern) {
        assert t !in p;
      }
      forall t | t in q.negative ensures !re.fullMatch(t, pattern) {
        assert t !in n;
      }
    }
  }

  lemma {:induction false} ScanWithoutMisses(re: Engine, q: Examples, entities: seq<Entity>)
    ensures Scan(re, q, 0, entities) == Answer(re, q, entities)
  {
    forall e: Entity ensures Misses(re, q, e.pattern) <= 0 <==> Fits(re, q, e.pattern) {
      NoMissesIsFitting(re, q, e.pattern);
    }
    FilterCongruent(entities, (e: Entity) => Misses(re, q, e.pattern) <= 0, (e: Entity) => Fits(re, q, e.pattern));
  }
}
