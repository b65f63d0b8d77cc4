/** librereuse/db/cluster: a set of regexes with its entities. */
module Clusters {
  import opened Re2
  import opened Sequences

  datatype Entity = Entity(pattern: string, id: string)

  /** The entities that RE2 can parse, in order. */
  function AcceptedOf(re: Engine, entities: seq<Entity>): seq<Entity> {
    Filter(entities, (e: Entity) => re.ok(e.pattern))
  }

  function PatternsOf(entities: seq<Entity>): seq<string> {
    Mapped((e: Entity) => e.pattern, entities)
  }

  lemma {:induction false} AcceptedGrows(re: Engine, entities: seq<Entity>, e: Entity)
    requires AcceptedOf(re, entities) == entities && re.ok(e.pattern)
    ensures AcceptedOf(re, entities + [e]) == entities + [e]
    ensures PatternsOf(entities + [e]) == PatternsOf(entities) + [e.pattern]
  {
    assert (entities + [e])[..|entities|] == entities;
  }

  class Cluster {
    const re: Engine
    var size: int
    var setIsCompiled: bool
    var regexSet: RegexSet
    var entities: seq<Entity>

    ghost predicate Valid()
      reads this
    {
      && regexSet.patterns == PatternsOf(entities)   // set index i names entity i
      && size == |entities|
      && (setIsCompiled ==> regexSet.ready)
      && (regexSet.ready ==> regexSet.sealed)
      && AcceptedOf(re, entities) == entities
    }

    constructor Empty(re: Engine)
      ensures Valid() && !regexSet.sealed && entities == [] && this.re == re
    {
      this.re := re;
      size, setIsCompiled, regexSet, entities := 0, false, EMPTY_SET, [];
    }

    /** Skips the entities whose pattern does not parse. */
    constructor (re: Engine, input: seq<Entity>)
      ensures Valid() && !regexSet.sealed && this.re == re
      ensures entities == AcceptedOf(re, input)
    {
      this.re := re;
      size, setIsCompiled, regexSet, entities := 0, false, EMPTY_SET, [];
      new;
      for i := 0 to |input|
        invariant Valid() && !regexSet.sealed && !setIsCompiled && this.re == re
        invariant entities == AcceptedOf(re, input[..i])
      {
        FilterStep(input, i, (e: Entity) => re.ok(e.pattern));
        var (s, ret) := Add(re, regexSet, input[i].pattern);
        regexSet := s;
        if ret >= 0 {
          AcceptedGrows(re, entities, input[i]);
          size := size + 1;
          entities := entities + [input[i]];
        }
      }
      assert input[..|input|] == input;
    }

    /** Adds one entity; a set that has been compiled takes no more. */
    method AddEntity(entity: Entity) returns (added: bool)
      requires Valid()
      modifies this
      ensures Valid() && added == (re.ok(entity.pattern) && !old(regexSet.sealed))
      ensures entities == if added then old(entities) + [entity] else old(entities)
      ensures regexSet.sealed == old(regexSet.sealed)
      ensures setIsCompiled == (old(setIsCompiled) && !added)
    {
      var (s, ret) := Add(re, regexSet, entity.pattern);
      regexSet := s;
      if ret >= 0 {
        AcceptedGrows(re, entities, entity);
        setIsCompiled := false;
        size := size + 1;
        entities := entities + [entity];
        return true;
      }
      return false;
    }

    /** Whether CompileSet will succeed: a set gets one attempt. */
    predicate CanCompile()
      reads this
    {
      setIsCompiled || (!regexSet.sealed && re.compiles(PatternsOf(entities)))
    }

    /** Compiles the set unless it is compiled already. */
    method CompileSet() returns (compiled: bool)
      requires Valid()
      modifies this
      ensures Valid() && entities == old(entities)
      ensures compiled == setIsCompiled == old(CanCompile())
      ensures regexSet.sealed && (old(regexSet.sealed) ==> regexSet == old(regexSet))
    {
      if !setIsCompiled {
        var (s, ok) := Compile(re, regexSet);
        regexSet := s;
        setIsCompiled := ok;
      }
      compiled := setIsCompiled;
    }
  }
}
