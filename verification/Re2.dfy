/** RE2 as the rest of the program sees it. The regex engine itself stays abstract: what
    it accepts and what it matches are functions that every model takes as a parameter. */
module Re2 {
  import opened Counting

  datatype Engine = Engine(
    ok: string -> bool,                      // the pattern parses
    fullMatch: (string, string) -> bool,     // RE2::FullMatch(text, pattern)
    partialMatch: (string, string) -> bool,  // RE2::PartialMatch(text, pattern)
    compiles: seq<string> -> bool            // a set of these patterns compiles within its memory
  )

  /** The texts on which the pattern gives the given verdict. */
  function Verdict(re: Engine, texts: set<string>, pattern: string, verdict: bool): set<string> {
    set t | t in texts && re.fullMatch(t, pattern) == verdict
  }

  lemma {:induction false} VerdictStep(re: Engine, texts: set<string>, todo: set<string>, t: string,
                                      pattern: string, verdict: bool)
    requires t in todo && todo <= texts
    ensures |Verdict(re, texts - (todo - {t}), pattern, verdict)|
         == |Verdict(re, texts - todo, pattern, verdict)| + if re.fullMatch(t, pattern) == verdict then 1 else 0
  {
    assert Verdict(re, texts - (todo - {t}), pattern, verdict)
        == Verdict(re, texts - todo, pattern, verdict) + if re.fullMatch(t, pattern) == verdict then {t} else {};
  }

  /** RE2::Set with ANCHOR_BOTH. A set is sealed by its first Compile, which may run out of the
      memory that it is allowed; it can be matched against only when that succeeded. */
  datatype RegexSet = RegexSet(patterns: seq<string>, sealed: bool, ready: bool)

  const EMPTY_SET := RegexSet([], false, false)

  /** Set::Add: the next index, or -1. */
  function Add(re: Engine, s: RegexSet, pattern: string): (RegexSet, int) {
    if !s.sealed && re.ok(pattern) then (s.(patterns := s.patterns + [pattern]), |s.patterns|) else (s, -1)
  }

  /** Set::Compile: a sealed set refuses. */
  function Compile(re: Engine, s: RegexSet): (RegexSet, bool) {
    if s.sealed then (s, false)
    else
      var ok := re.compiles(s.patterns);
      (s.(sealed := true, ready := ok), ok)
  }

  /** What Set::Match may report for a text: the indices that match, each once, in any order. */
  ghost predicate IsHitList(re: Engine, s: RegexSet, text: string, hits: seq<nat>) {
    && (forall i: nat :: i in hits <==> i < |s.patterns| && re.fullMatch(text, s.patterns[i]))
    && (forall j, k :: 0 <= j < k < |hits| ==> hits[j] != hits[k])
  }

  /** Set::Match. Callers see only IsHitList, so they cannot rely on an order. */
  method Match(re: Engine, s: RegexSet, text: string) returns (any: bool, hits: seq<nat>)
    requires s.ready
    ensures IsHitList(re, s, text, hits) && any == (hits != [])
  {
    hits := [];
    for i := 0 to |s.patterns|
      invariant forall j: nat :: j in hits <==> j < i && re.fullMatch(text, s.patterns[j])
      invariant forall j, k :: 0 <= j < k < |hits| ==> hits[j] != hits[k]
    {
      if re.fullMatch(text, s.patterns[i]) {
        hits := hits + [i];
      }
    }
    any := hits != [];
  }

  /** Hits are as many as there are matching indices. */
  lemma {:induction false} HitListIsFull(re: Engine, s: RegexSet, text: string, hits: seq<nat>)
    requires IsHitList(re, s, text, hits)
    ensures |hits| <= |s.patterns|
    ensures |hits| == |s.patterns| <==> forall i: nat :: i < |s.patterns| ==> re.fullMatch(text, s.patterns[i])
  {
    var found: set<nat> := set i: nat | i in hits;
    var all := Below(|s.patterns|);
    DistinctSize(hits);
    SubsetSize(found, all);
    if |hits| == |s.patterns| {
      forall i: nat | i < |s.patterns| ensures re.fullMatch(text, s.patterns[i]) {
        assert i in all;
      }
    }
    if forall i: nat :: i < |s.patterns| ==> re.fullMatch(text, s.patterns[i]) {
      assert found == all;
    }
  }
}
