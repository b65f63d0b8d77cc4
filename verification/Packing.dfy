/** How the repository's constructor groups entities into clusters. */
module Packing {
  import opened Sequences
  import opened Counting

  /** Fill the last group while it has room, else open a new one. */
  function PackOne<T>(cap: int, groups: seq<seq<T>>, x: T): seq<seq<T>> {
    var last := |groups| - 1;
    if groups != [] && |groups[last]| < cap then groups[last := groups[last] + [x]] else groups + [[x]]
  }

  function Pack<T>(cap: int, xs: seq<T>): seq<seq<T>> {
    if xs == [] then [] else PackOne(cap, Pack(cap, xs[..|xs| - 1]), xs[|xs| - 1])
  }

  function Capacity(cap: int): (c: nat)
    ensures c >= 1 && c >= cap && (c == 1 || c == cap)
  {
    if cap < 1 then 1 else cap
  }

  /** The groups hold the entities in order, and all but the last are full. */
  lemma {:induction false} PackIsChunking<T>(cap: int, xs: seq<T>)
    ensures Flatten(Pack(cap, xs)) == xs
    ensures forall i :: 0 <= i < |Pack(cap, xs)| ==> 1 <= |Pack(cap, xs)[i]| <= Capacity(cap)
    ensures forall i :: 0 <= i < |Pack(cap, xs)| - 1 ==> |Pack(cap, xs)[i]| == Capacity(cap)
  {
    if xs != [] {
      var n := |xs| - 1;
      PackIsChunking(cap, xs[..n]);
      var groups := Pack(cap, xs[..n]);
      var last := |groups| - 1;
      assert xs == xs[..n] + [xs[n]];
      if groups != [] && |groups[last]| < cap {
        assert Pack(cap, xs)[..last] == groups[..last];
      } else {
        assert (groups + [[xs[n]]])[..|groups|] == groups;
      }
    }
  }

  /** Hence their number: every group but the last accounts for Capacity(cap) entities. */
  lemma {:induction false} FlattenSize<T>(groups: seq<seq<T>>, c: nat)
    requires groups != []
    requires forall i :: 0 <= i < |groups| - 1 ==> |groups[i]| == c
    ensures |Flatten(groups)| == c * (|groups| - 1) + |groups[|groups| - 1]|
  {
    var n := |groups| - 1;
    if n > 0 {
      FlattenSize(groups[..n], c);
      assert c * (n - 1) + c == c * n;
    } else {
      assert groups[..n] == [];
    }
  }

  lemma {:induction false} PackCount<T>(cap: int, xs: seq<T>)
    ensures |Pack(cap, xs)| == (|xs| + Capacity(cap) - 1) / Capacity(cap)
  {
    var c := Capacity(cap);
    var groups := Pack(cap, xs);
    PackIsChunking(cap, xs);
    if groups != [] {
      FlattenSize(groups, c);
      RoundedUp(|xs|, c, |groups| - 1, |groups[|groups| - 1]|);
    } else {
      QuotientIs(c - 1, c, 0, c - 1);
    }
  }
}
