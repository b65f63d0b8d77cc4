/** librereuse/util/bitmap: a bitmap packed into bytes. */
module Bitmaps {

  const BITSET_SIZE: nat := 8

  /** std::bitset<8>. */
  type Bitset = b: seq<bool> | |b| == 8 witness [false, false, false, false, false, false, false, false]

  function Fill(value: bool): Bitset {
    [value, value, value, value, value, value, value, value]
  }

  function Flip(b: Bitset): (r: Bitset)
    ensures forall i :: 0 <= i < 8 ==> r[i] == !b[i]
  {
    seq(8, i requires 0 <= i < 8 => !b[i])
  }

  datatype Op = And | Or | Xor

  function Eval(op: Op, x: bool, y: bool): bool {
    match op
    case And => x && y
    case Or => x || y
    case Xor => x != y
  }

  /** The operators of std::bitset. */
  function Zip(op: Op, a: Bitset, b: Bitset): (r: Bitset)
    ensures forall i :: 0 <= i < 8 ==> r[i] == Eval(op, a[i], b[i])
  {
    seq(8, i requires 0 <= i < 8 => Eval(op, a[i], b[i]))
  }

  /** The number of bytes that n elements need. */
  function Bytes(n: nat): (b: nat)
    ensures BITSET_SIZE * b >= n && (b > 0 ==> BITSET_SIZE * (b - 1) < n)
  {
    (n + BITSET_SIZE - 1) / BITSET_SIZE
  }

  lemma {:induction false} BytesMonotone(m: nat, n: nat)
    requires m <= n
    ensures Bytes(m) <= Bytes(n)
  {
  }

  /** lookup_element_idx. */
  function Locate(i: nat): (nat, nat) {
    (i / BITSET_SIZE, i % BITSET_SIZE)
  }

  /** Splitting an index is a bijection onto the (byte, bit) pairs. */
  lemma {:induction false} LocateIsBijective(i: nat, byte: nat, bit: nat)
    requires bit < BITSET_SIZE
    ensures Locate(i) == (byte, bit) <==> i == BITSET_SIZE * byte + bit
    ensures Locate(i).1 < BITSET_SIZE
  {
  }

  function Bit(bytes: seq<Bitset>, i: nat): bool
    requires i < BITSET_SIZE * |bytes|
  {
    var (byte, bit) := Locate(i);
    bytes[byte][bit]
  }

  /** All the bits that are stored, padding included. */
  function Unpack(bytes: seq<Bitset>): (bits: seq<bool>)
    ensures |bits| == BITSET_SIZE * |bytes|
    ensures forall i :: 0 <= i < |bits| ==> bits[i] == Bit(bytes, i)
  {
    seq(BITSET_SIZE * |bytes|, i requires 0 <= i < BITSET_SIZE * |bytes| => Bit(bytes, i))
  }

  lemma {:induction false} UnpackUpdate(bytes: seq<Bitset>, i: nat, value: bool)
    requires i < BITSET_SIZE * |bytes|
    ensures var (byte, bit) := Locate(i);
      Unpack(bytes[byte := bytes[byte][bit := value]]) == Unpack(bytes)[i := value]
  {
    var (byte, bit) := Locate(i);
    var bytes' := bytes[byte := bytes[byte][bit := value]];
    forall j | 0 <= j < |Unpack(bytes)|
      ensures Unpack(bytes')[j] == Unpack(bytes)[i := value][j]
    {
      LocateIsBijective(j, byte, bit);
      LocateIsBijective(i, byte, bit);
    }
  }

  /** op on the bits both maps have; where only one map has a bit, that bit. */
  function Overlay(op: Op, a: seq<bool>, b: seq<bool>): (r: seq<bool>)
    ensures |r| == if |a| < |b| then |b| else |a|
    ensures forall i :: 0 <= i < |r| ==>
      r[i] == if i < |a| && i < |b| then Eval(op, a[i], b[i]) else if i < |a| then a[i] else b[i]
  {
    var n := if |a| < |b| then |b| else |a|;
    seq(n, i requires 0 <= i < n => if i < |a| && i < |b| then Eval(op, a[i], b[i]) else if i < |a| then a[i] else b[i])
  }

  /** What operator| and operator^ store for operands with the bits a and b, of m and n elements:
      on equal sizes both of their local names stand for the right operand. */
  function Merged(op: Op, a: seq<bool>, m: nat, b: seq<bool>, n: nat): (r: seq<bool>)
    requires Holds(a, m) && Holds(b, n)
    ensures |r| == if |a| < |b| then |b| else |a|
  {
    if m == n then Overlay(op, b, b) else Overlay(op, a, b)
  }

  lemma {:induction false} UnpackMerged(op: Op, big: seq<Bitset>, small: seq<Bitset>, r: seq<Bitset>)
    requires |small| <= |big| == |r|
    requires forall k :: 0 <= k < |small| ==> r[k] == Zip(op, big[k], small[k])
    requires forall k :: |small| <= k < |r| ==> r[k] == big[k]
    ensures Unpack(r) == Overlay(op, Unpack(big), Unpack(small))
    ensures Unpack(r) == Overlay(op, Unpack(small), Unpack(big))
  {
  }

  /** The bits a hold m elements, with less than a byte of padding. */
  predicate Holds(a: seq<bool>, m: nat) {
    |a| == BITSET_SIZE * Bytes(m)
  }

  function Larger(m: nat, n: nat): nat {
    if m < n then n else m
  }

  /** The elements that the result shows. */
  function MergedElements(op: Op, a: seq<bool>, m: nat, b: seq<bool>, n: nat): (r: seq<bool>)
    requires Holds(a, m) && Holds(b, n)
    ensures |r| == Larger(m, n)
  {
    Merged(op, a, m, b, n)[..Larger(m, n)]
  }

  /** operator| is the union of the elements exactly when, on equal sizes, the right operand
      contains the left one and, on unequal sizes, no padding bit of the shorter operand is
      set where the longer one has a clear element. */
  lemma {:induction false} OrIsUnionIff(a: seq<bool>, m: nat, b: seq<bool>, n: nat)
    requires Holds(a, m) && Holds(b, n)
    ensures MergedElements(Or, a, m, b, n) == Overlay(Or, a[..m], b[..n]) <==>
      && (m == n ==> forall i :: 0 <= i < m && a[i] ==> b[i])
      && (m < n ==> forall i :: m <= i < n && i < |a| && a[i] ==> b[i])
      && (n < m ==> forall i :: n <= i < m && i < |b| && b[i] ==> a[i])
  {
    var got, want := MergedElements(Or, a, m, b, n), Overlay(Or, a[..m], b[..n]);
    assert got == want <==> forall i :: 0 <= i < |got| ==> got[i] == want[i];
  }

  /** operator^ is the symmetric difference exactly when, on equal sizes, the operands are equal
      and, on unequal sizes, no padding bit of the shorter operand that meets an element is set. */
  lemma {:induction false} XorIsDifferenceIff(a: seq<bool>, m: nat, b: seq<bool>, n: nat)
    requires Holds(a, m) && Holds(b, n)
    ensures MergedElements(Xor, a, m, b, n) == Overlay(Xor, a[..m], b[..n]) <==>
      && (m == n ==> forall i :: 0 <= i < m ==> a[i] == b[i])
      && (m < n ==> forall i :: m <= i < n && i < |a| ==> !a[i])
      && (n < m ==> forall i :: n <= i < m && i < |b| ==> !b[i])
  {
    var got, want := MergedElements(Xor, a, m, b, n), Overlay(Xor, a[..m], b[..n]);
    assert got == want <==> forall i :: 0 <= i < |got| ==> got[i] == want[i];
  }

  /** Two one-element maps: {0} | {} comes out empty. */
  lemma {:induction false} OrLosesLeftOperand()
    ensures var a, b := Unpack([Fill(false)[0 := true]]), Unpack([Fill(false)]);
      MergedElements(Or, a, 1, b, 1) == [false] && Overlay(Or, a[..1], b[..1]) == [true]
  {
    assert Bit([Fill(false)[0 := true]], 0);
    assert !Bit([Fill(false)], 0);
  }

  /** A filled map of one element and an empty one of two: the padding of the first, which is
      filled as well, shows as element 1 of both results. */
  lemma {:induction false} PaddingShowsThrough()
    ensures var a, b := Unpack([Fill(true)]), Unpack([Fill(false)]);
      && MergedElements(Or, a, 1, b, 2) == MergedElements(Xor, a, 1, b, 2) == [true, true]
      && Overlay(Or, a[..1], b[..2]) == Overlay(Xor, a[..1], b[..2]) == [true, false]
  {
    assert Bit([Fill(true)], 0) && Bit([Fill(true)], 1);
    assert !Bit([Fill(false)], 0) && !Bit([Fill(false)], 1);
  }

  /** Two one-element maps: {0} ^ {} comes out empty. */
  lemma {:induction false} XorLosesLeftOperand()
    ensures var a, b := Unpack([Fill(false)[0 := true]]), Unpack([Fill(false)]);
      MergedElements(Xor, a, 1, b, 1) == [false] && Overlay(Xor, a[..1], b[..1]) == [true]
  {
    assert Bit([Fill(false)[0 := true]], 0);
    assert !Bit([Fill(false)], 0);
  }

  class Bitmap {
    var elementCount: nat
    var bitset: seq<Bitset>

    ghost predicate Valid()
      reads this
    {
      |bitset| == Bytes(elementCount)
    }

    /** Everything that is stored, padding included. */
    function Bits(): seq<bool>
      reads this
    {
      Unpack(bitset)
    }

    constructor (elements: nat, fill: bool)
      ensures Valid() && elementCount == elements
      ensures forall i :: 0 <= i < |Bits()| ==> Bits()[i] == fill
    {
      elementCount := elements;
      bitset := seq(Bytes(elements), i => Fill(fill));
    }

    function Size(): nat
      reads this
    {
      elementCount
    }

    /** Like the original, also reads the padding of the last byte. */
    method Get(i: nat) returns (value: bool)
      requires i < |Bits()|
      ensures value == Bits()[i]
    {
      var (byte, bit) := Locate(i);
      value := bitset[byte][bit];
    }

    method Set(i: nat, value: bool)
      requires i < |Bits()|
      modifies this`bitset
      ensures Bits() == old(Bits())[i := value] && |bitset| == old(|bitset|)
    {
      UnpackUpdate(bitset, i, value);
      var (byte, bit) := Locate(i);
      bitset := bitset[byte := bitset[byte][bit := value]];
    }

    method Toggle(i: nat)
      requires i < |Bits()|
      modifies this`bitset
      ensures Bits() == old(Bits())[i := !old(Bits())[i]] && |bitset| == old(|bitset|)
    {
      var (byte, bit) := Locate(i);
      UnpackUpdate(bitset, i, !bitset[byte][bit]);
      bitset := bitset[byte := bitset[byte][bit := !bitset[byte][bit]]];
    }

    /** operator&: as many elements as the smaller map has. */
    method Conjunction(that: Bitmap) returns (r: Bitmap)
      requires Valid() && that.Valid()
      ensures fresh(r) && r.Valid() && r.Size() == if that.Size() < Size() then that.Size() else Size()
      ensures |r.Bits()| <= |Bits()| && |r.Bits()| <= |that.Bits()|
      ensures forall i :: 0 <= i < |r.Bits()| ==> r.Bits()[i] == (Bits()[i] && that.Bits()[i])
    {
      r := new Bitmap(if that.Size() < Size() then that.Size() else Size(), false);
      var n := |r.bitset|;
      BytesMonotone(r.Size(), Size());
      BytesMonotone(r.Size(), that.Size());
      var idx := 0;
      while idx < n
        invariant 0 <= idx <= n == |r.bitset| && r.Valid()
        invariant r.Size() == if that.Size() < Size() then that.Size() else Size()
        invariant forall k :: 0 <= k < idx ==> r.bitset[k] == Zip(And, bitset[k], that.bitset[k])
      {
        r.bitset := r.bitset[idx := Zip(And, bitset[idx], that.bitset[idx])];
        idx := idx + 1;
      }
    }

    /** operator&=: reads one byte of the right operand for every byte of this map. */
    method AndAssign(that: Bitmap)
      requires |bitset| <= |that.bitset|
      modifies this`bitset
      ensures |bitset| == old(|bitset|)
      ensures forall i :: 0 <= i < |Bits()| ==> Bits()[i] == (old(Bits())[i] && old(that.Bits())[i])
    {
      ghost var before, right := bitset, that.bitset;
      var n := |bitset|;
      var i := 0;
      while i < n
        invariant 0 <= i <= n == |bitset|
        invariant this == that || that.bitset == right
        invariant forall k :: 0 <= k < i ==> bitset[k] == Zip(And, before[k], right[k])
        invariant forall k :: i <= k < n ==> bitset[k] == before[k]
      {
        bitset := bitset[i := Zip(And, bitset[i], that.bitset[i])];
        i := i + 1;
      }
    }

    /** operator~: flips the padding as well. */
    method Complement() returns (r: Bitmap)
      ensures fresh(r) && r.elementCount == elementCount && |r.bitset| == |bitset|
      ensures forall i :: 0 <= i < |Bits()| ==> r.Bits()[i] == !Bits()[i]
    {
      r := new Bitmap(elementCount, false);
      r.bitset := bitset;
      var n := |bitset|;
      var i := 0;
      while i < n
        invariant 0 <= i <= n == |r.bitset| && r.elementCount == elementCount
        invariant forall k :: 0 <= k < i ==> r.bitset[k] == Flip(bitset[k])
        invariant forall k :: i <= k < n ==> r.bitset[k] == bitset[k]
      {
        r.bitset := r.bitset[i := Flip(r.bitset[i])];
        i := i + 1;
      }
    }

    /** operator| and operator^, which differ only in the operator on bytes. */
    method Merge(op: Op, that: Bitmap) returns (r: Bitmap)
      requires Valid() && that.Valid()
      ensures fresh(r) && r.Valid() && r.Size() == if Size() < that.Size() then that.Size() else Size()
      ensures r.Bits() == Merged(op, Bits(), Size(), that.Bits(), that.Size())
    {
      var larger := if Size() > that.Size() then this else that;
      var smaller := if Size() < that.Size() then this else that;
      ghost var big, small := larger.bitset, smaller.bitset;
      BytesMonotone(smaller.Size(), larger.Size());
      r := new Bitmap(larger.Size(), false);
      r.bitset := larger.bitset;
      var i := 0;
      while i < |smaller.bitset|
        invariant 0 <= i <= |small| && |r.bitset| == |big| && r.Size() == larger.Size()
        invariant forall k :: 0 <= k < i ==> r.bitset[k] == Zip(op, big[k], small[k])
        invariant forall k :: i <= k < |big| ==> r.bitset[k] == big[k]
      {
        r.bitset := r.bitset[i := Zip(op, r.bitset[i], smaller.bitset[i])];
        i := i + 1;
      }
      UnpackMerged(op, big, small, r.bitset);
    }
  }
}
