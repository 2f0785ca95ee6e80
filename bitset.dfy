/**
 * A bit set of BITS elements (0 < BITS <= 64) stored in one machine word,
 * usable where std::bitset is not (constant expressions).
 *
 * The word is modelled by the set of positions of its one bits: position x
 * is in the set exactly when bit x of the word is 1.  A word of a 32-bit
 * type holds positions below 32, a 64-bit word positions below 64; the
 * operators |, &, ^ and ~ on the word are union, intersection, symmetric
 * difference and complement within the word's width.
 */
module BitSets {
  import opened Wrappers

  /** The positions 0 .. n-1. */
  function Below(n: nat): (r: set<nat>)
    ensures forall x: nat :: x in r <==> x < n
    ensures |r| == n
  {
    if n == 0 then {} else Below(n - 1) + {n - 1}
  }

  /** Width in bits of the storage word: uint32 up to 32 elements, else uint64. */
  function WordWidth(bits: nat): (w: nat)
    ensures bits <= 64 ==> bits <= w
    ensures w == 32 || w == 64
  {
    if bits > 32 then 64 else 32
  }

  /** A value of the storage word. */
  predicate IsWord(w: set<nat>, width: nat) {
    forall x | x in w :: x < width
  }

  /** allBits: the low BITS bits (for a full word, every bit of it). */
  function AllBits(bits: nat): (r: set<nat>)
    ensures forall x: nat :: x in r <==> x < bits
  {
    Below(bits)
  }

  /** Symmetric difference: the word operator ^. */
  function XorWord(a: set<nat>, b: set<nat>): (r: set<nat>)
    ensures forall x :: x in r <==> (x in a) != (x in b)
  {
    (a - b) + (b - a)
  }

  /**
   * Lowest set position at or above `from`, scanning up to `width`
   * (the trailing-zero count of the word shifted by `from`).
   */
  function LeastFrom(w: set<nat>, from: nat, width: nat): (r: Option<nat>)
    decreases width - from
    ensures r.Some? ==> from <= r.value < width && r.value in w
    ensures r.Some? ==> forall y :: from <= y < r.value ==> y !in w
    ensures r.None? ==> forall y :: from <= y < width ==> y !in w
  {
    if from >= width then None
    else if from in w then Some(from)
    else LeastFrom(w, from + 1, width)
  }

  class BitSet {
    const BITS: nat
    var bits: set<nat>

    /** The representation is a value of the storage word. */
    ghost predicate Valid()
      reads this
    {
      0 < BITS <= 64 && IsWord(bits, WordWidth(BITS))
    }

    /** No bit at or above BITS is set (what every operation but ~ keeps). */
    predicate InRange()
      reads this
    {
      IsWord(bits, BITS)
    }

    /** BitSet(): the empty set. */
    constructor (n: nat)
      requires 0 < n <= 64
      ensures Valid() && InRange() && BITS == n && bits == {}
    {
      BITS := n;
      bits := {};
    }

    /** BitSet{x, y, ...}: sets exactly the listed elements, one set(x) each. */
    constructor FromList(n: nat, xs: seq<nat>)
      requires 0 < n <= 64
      requires forall i :: 0 <= i < |xs| ==> xs[i] < WordWidth(n)
      ensures Valid() && BITS == n
      ensures forall x :: x in bits <==> x in xs
    {
      BITS := n;
      bits := {};
      new;
      var i := 0;
      while i < |xs|
        invariant 0 <= i <= |xs|
        invariant Valid() && BITS == n
        invariant forall x :: x in bits <==> x in xs[..i]
      {
        var _ := Set(xs[i], true);
        i := i + 1;
      }
      assert xs[..i] == xs;
    }

    /** test(x): x is below BITS and its bit is set. */
    function Test(x: nat): (r: bool)
      reads this
      ensures x >= BITS ==> !r
      ensures r <==> x < BITS && x in bits
    {
      x < BITS && x in bits
    }

    /** all(): the word equals allBits. */
    function All(): (r: bool)
      reads this
      ensures r ==> forall x: nat :: x < BITS ==> Test(x)
      ensures r <==> bits == AllBits(BITS)
    {
      bits == AllBits(BITS)
    }

    function Any(): (r: bool)
      reads this
      ensures r <==> exists x :: x in bits
    {
      bits != {}
    }

    function None(): (r: bool)
      reads this
      ensures r <==> forall x :: x !in bits
    {
      bits == {}
    }

    /** count(): the population count of the word. */
    function Count(): (r: nat)
      reads this
      ensures r == 0 <==> None()
    {
      |bits|
    }

    /** LeastElement(): none for the empty set, else the trailing-zero count. */
    function LeastElement(): (r: Option<nat>)
      reads this
      requires Valid()
      ensures r.None? <==> None()
      ensures r.Some? ==> r.value in bits && forall y :: y in bits ==> r.value <= y
    {
      if bits == {} then Option.None else LeastFrom(bits, 0, WordWidth(BITS))
    }

    /** set(): every element. */
    method SetAll()
      requires Valid()
      modifies this
      ensures Valid() && InRange() && bits == AllBits(BITS) && All()
    {
      bits := AllBits(BITS);
    }

    /**
     * set(x, value): with value, turns bit x on; without, behaves as reset(x).
     * The shift 1 << x needs x below the word width.  It returns a copy of
     * the updated set, not a reference.
     */
    method Set(x: nat, value: bool := true) returns (copy: set<nat>)
      requires Valid() && x < WordWidth(BITS)
      modifies this
      ensures Valid()
      ensures bits == if value then old(bits) + {x} else old(bits) - {x}
      ensures value && x < BITS ==> Test(x)
      ensures forall y :: y != x ==> (y in bits <==> y in old(bits))
      ensures copy == bits
    {
      if !value {
        Reset(x);
      } else {
        bits := bits + {x};
      }
      copy := bits;
    }

    /** reset(): no element. */
    method ResetAll()
      requires Valid()
      modifies this
      ensures Valid() && InRange() && bits == {} && None()
    {
      bits := {};
    }

    /** reset(x): clears bit x only. */
    method Reset(x: nat)
      requires Valid() && x < WordWidth(BITS)
      modifies this
      ensures Valid() && bits == old(bits) - {x}
      ensures !Test(x)
    {
      bits := bits - {x};
    }

    /** flip(): the word xor allBits. */
    method FlipAll()
      requires Valid()
      modifies this
      ensures Valid() && bits == XorWord(old(bits), AllBits(BITS))
      ensures forall y: nat :: y < BITS ==> (Test(y) <==> y !in old(bits))
    {
      bits := XorWord(bits, AllBits(BITS));
    }

    /** flip(x): toggles bit x only. */
    method Flip(x: nat)
      requires Valid() && x < WordWidth(BITS)
      modifies this
      ensures Valid() && bits == XorWord(old(bits), {x})
      ensures forall y :: (y in bits <==> y in old(bits)) <==> y != x
    {
      bits := XorWord(bits, {x});
    }

    /** operator|= */
    method OrAssign(that: BitSet)
      requires Valid() && that.Valid() && that.BITS == BITS
      modifies this
      ensures Valid() && bits == old(bits) + old(that.bits)
    {
      bits := bits + that.bits;
    }

    /** operator&= */
    method AndAssign(that: BitSet)
      requires Valid() && that.Valid() && that.BITS == BITS
      modifies this
      ensures Valid() && bits == old(bits) * old(that.bits)
    {
      bits := bits * that.bits;
    }

    /** operator^= */
    method XorAssign(that: BitSet)
      requires Valid() && that.Valid() && that.BITS == BITS
      modifies this
      ensures Valid() && bits == XorWord(old(bits), old(that.bits))
    {
      bits := XorWord(bits, that.bits);
    }

    /** operator| (both overloads): the word of the result. */
    function Or(that: BitSet): (r: set<nat>)
      reads this, that
      ensures forall x :: x in r <==> x in bits || x in that.bits
    {
      bits + that.bits
    }

    /** operator& (both overloads). */
    function And(that: BitSet): (r: set<nat>)
      reads this, that
      ensures forall x :: x in r <==> x in bits && x in that.bits
    {
      bits * that.bits
    }

    /** operator^ taking an lvalue: the word xor. */
    function Xor(that: BitSet): (r: set<nat>)
      reads this, that
      ensures forall x :: x in r <==> (x in bits) != (x in that.bits)
    {
      XorWord(bits, that.bits)
    }

    /** operator^ taking an rvalue, as written: it computes bits_ & that.bits_. */
    function XorRvalueAsWritten(that: BitSet): (r: set<nat>)
      reads this, that
      ensures r == And(that)
    {
      bits * that.bits
    }

    /** operator^ taking an rvalue, corrected to agree with the lvalue overload. */
    function XorRvalue(that: BitSet): (r: set<nat>)
      reads this, that
      ensures r == Xor(that)
      ensures forall x :: x in r <==> (x in bits) != (x in that.bits)
    {
      XorWord(bits, that.bits)
    }

    /** operator~, as written: the complement of the whole word, not masked to allBits. */
    function ComplementAsWritten(): (r: set<nat>)
      reads this
      ensures forall x: nat :: x in r <==> x < WordWidth(BITS) && x !in bits
    {
      Below(WordWidth(BITS)) - bits
    }

    /** operator~, corrected: the complement within allBits. */
    function Complement(): (r: set<nat>)
      reads this
      ensures IsWord(r, BITS)
      ensures forall x: nat :: x < BITS ==> (x in r <==> !Test(x))
    {
      AllBits(BITS) - bits
    }

    /** operator== (both overloads). */
    function Equal(that: BitSet): (r: bool)
      reads this, that
      ensures r <==> forall x :: x in bits <==> x in that.bits
    {
      bits == that.bits
    }

    /** operator!=, as written: it returns bits_ == that.bits_. */
    function NotEqualAsWritten(that: BitSet): (r: bool)
      reads this, that
      ensures r == Equal(that)
    {
      bits == that.bits
    }

    /** operator!=, corrected. */
    function NotEqual(that: BitSet): (r: bool)
      reads this, that
      ensures r <==> !Equal(that)
    {
      bits != that.bits
    }
  }

  /** count() equals the number of positions x for which test(x) holds. */
  lemma CountIsNumberOfMembers(b: BitSet)
    requires b.InRange()
    ensures b.Count() == |set x: nat | x < b.BITS && b.Test(x)|
  {
    assert (set x: nat | x < b.BITS && b.Test(x)) == b.bits;
  }

  /** any() is the negation of none(). */
  lemma AnyIsNotNone(b: BitSet)
    ensures b.Any() <==> !b.None()
  {
  }

  /** Applying flip() twice gives back the original word. */
  lemma {:induction false} FlipTwice(w: set<nat>, bits: nat)
    ensures XorWord(XorWord(w, AllBits(bits)), AllBits(bits)) == w
  {
    var once := XorWord(w, AllBits(bits));
    assert forall x :: x in XorWord(once, AllBits(bits)) <==> x in w;
  }

  /** The two complements agree on every testable position. */
  lemma ComplementsAgreeBelowBits(b: BitSet, x: nat)
    requires b.Valid() && x < b.BITS
    ensures x in b.Complement() <==> x in b.ComplementAsWritten()
  {
  }

  /**
   * Finding: with BITS = 8 the word is 32 bits wide, so ~BitSet{} as written
   * has 32 one bits; all() of it is false although test(x) holds for every
   * x below 8, and count() would be 32.
   */
  lemma ComplementAsWrittenLeavesRange(b: BitSet)
    requires b.Valid() && b.BITS == 8 && b.bits == {}
    ensures 8 in b.ComplementAsWritten()
    ensures b.ComplementAsWritten() != AllBits(8)
    ensures |b.ComplementAsWritten()| == 32
  {
    assert b.ComplementAsWritten() == Below(32);
  }

  /** The corrected complement keeps the range, and applying it twice is the identity. */
  lemma ComplementTwice(bits: nat, w: set<nat>)
    requires IsWord(w, bits)
    ensures IsWord(AllBits(bits) - w, bits)
    ensures AllBits(bits) - (AllBits(bits) - w) == w
  {
  }

  /** Finding: for equal sets the written != answers true. */
  lemma NotEqualAsWrittenOnEqualSets(a: BitSet, b: BitSet)
    requires a.bits == b.bits
    ensures a.NotEqualAsWritten(b)
    ensures !a.NotEqual(b)
  {
  }

  /** Finding: {0} ^ {1} as an rvalue gives the empty set instead of {0, 1}. */
  lemma XorRvalueAsWrittenCounterexample(a: BitSet, b: BitSet)
    requires a.bits == {0} && b.bits == {1}
    ensures a.XorRvalueAsWritten(b) == {}
    ensures a.XorRvalue(b) == {0, 1}
  {
    assert a.XorRvalue(b) == {0, 1};
  }
}
