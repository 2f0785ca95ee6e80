/**
 * Provenances: offsets into the conceptual concatenation of every source
 * character the compiler has seen (files, included files, macro
 * expansions), and intervals of them.
 *
 * An offset is a size_t, so sums wrap modulo 2^64; every Provenance made
 * from an offset CHECKs that the offset is positive, which the model turns
 * into a precondition.  Only the default Provenance has offset 0.
 */
module Provenances {

  /** 2^64: size_t arithmetic is modulo this. */
  const SizeLimit: int := 0x1_0000_0000_0000_0000

  /** Values of size_t. */
  type SizeT = n: int | 0 <= n < 0x1_0000_0000_0000_0000

  /** Values of ptrdiff_t. */
  predicate IsPtrDiff(n: int) {
    -0x8000_0000_0000_0000 <= n < 0x8000_0000_0000_0000
  }

  /** Reduction of an integer to size_t, as unsigned arithmetic does. */
  function Wrap(n: int): (r: SizeT)
    ensures 0 <= n < SizeLimit ==> r == n
    ensures SizeLimit <= n < 2 * SizeLimit ==> r == n - SizeLimit
    ensures -SizeLimit <= n < 0 ==> r == n + SizeLimit
  {
    n % SizeLimit
  }

  datatype Provenance = Provenance(offset: SizeT)

  /** Provenance(): the default-constructed value. */
  const NoProvenance: Provenance := Provenance(0)

  /** Provenance(offset): CHECK(offset > 0). */
  function FromOffset(offset: SizeT): (p: Provenance)
    requires offset > 0
    ensures p.offset == offset
    ensures p != NoProvenance
  {
    Provenance(offset)
  }

  /** static_cast<ptrdiff_t>(offset): the same 64 bits read as two's complement. */
  function AsPtrDiff(offset: SizeT): (r: int)
    ensures IsPtrDiff(r)
    ensures offset < 0x8000_0000_0000_0000 ==> r == offset
    ensures offset >= 0x8000_0000_0000_0000 ==> r == offset - SizeLimit
  {
    if offset < 0x8000_0000_0000_0000 then offset else offset - SizeLimit
  }

  /**
   * operator+(ptrdiff_t n): CHECK(n > -static_cast<ptrdiff_t>(offset)), where
   * negating the cast of offset 2^63 overflows; the result is again made by
   * Provenance(offset), whose own CHECK the first one already implies.
   */
  function AddSigned(p: Provenance, n: int): (r: Provenance)
    requires IsPtrDiff(n) && p.offset != 0x8000_0000_0000_0000 && n > -AsPtrDiff(p.offset)
    ensures p.offset < 0x8000_0000_0000_0000 ==> r.offset == p.offset + n
    ensures p.offset > 0x8000_0000_0000_0000 ==> n > 0 && r.offset == p.offset + n - SizeLimit
    ensures n >= 0 && p.offset + n < SizeLimit ==> LessEq(p, r) && Sub(r, p) == n
    ensures n < 0 ==> Less(r, p) && Sub(p, r) == -n
  {
    FromOffset(Wrap(p.offset + n))
  }

  /** operator+(size_t n): the sum wraps; Provenance(offset) CHECKs it positive. */
  function AddSize(p: Provenance, n: SizeT): (r: Provenance)
    requires Wrap(p.offset + n) > 0
    ensures p.offset + n < SizeLimit ==> r.offset == p.offset + n
    ensures p.offset + n >= SizeLimit ==> r.offset == p.offset + n - SizeLimit
  {
    FromOffset(Wrap(p.offset + n))
  }

  /** operator<: by offset. */
  predicate Less(p: Provenance, q: Provenance) {
    p.offset < q.offset
  }

  /** operator<=, written as !(that < *this); it is the offset order. */
  predicate LessEq(p: Provenance, q: Provenance)
    ensures LessEq(p, q) <==> p.offset <= q.offset
    ensures LessEq(p, q) <==> Less(p, q) || p == q
  {
    !Less(q, p)
  }

  /** operator-: CHECK(that <= *this); the difference of the offsets, never wrapping. */
  function Sub(q: Provenance, p: Provenance): (d: SizeT)
    requires LessEq(p, q)
    ensures p.offset + d == q.offset
    ensures d == 0 <==> p == q
  {
    q.offset - p.offset
  }

  /** (p + n) - p == n whenever the sum does not wrap. */
  lemma AddThenSub(p: Provenance, n: SizeT)
    requires 0 < p.offset + n < SizeLimit
    ensures LessEq(p, AddSize(p, n))
    ensures Sub(AddSize(p, n), p) == n
  {
  }

  /** p + (q - p) == q for any q above a positive p. */
  lemma SubThenAdd(p: Provenance, q: Provenance)
    requires LessEq(p, q) && q.offset > 0
    ensures AddSize(p, Sub(q, p)) == q
  {
  }

  /**
   * Interval<Provenance> (ProvenanceRange): a start and a size_t length.
   * Its end start + size is a Provenance, so it must not wrap to 0.
   */
  datatype Interval = Interval(start: Provenance, size: SizeT) {

    predicate Empty() {
      size == 0
    }

    /** The end of the interval is a well-formed Provenance. */
    predicate HasEnd() {
      Wrap(start.offset + size) > 0
    }

    /** The interval does not wrap past the top of size_t. */
    predicate NoWrap() {
      start.offset + size < SizeLimit
    }

    /** NextAfter(): start + size. */
    function NextAfter(): (r: Provenance)
      requires HasEnd()
      ensures NoWrap() ==> r.offset == start.offset + size
    {
      AddSize(start, size)
    }

    /** Last(): start + (size - 1), with size - 1 wrapping when size is 0. */
    function Last(): (r: Provenance)
      requires Wrap(start.offset + Wrap(size - 1)) > 0
      ensures size > 0 && NoWrap() ==> r.offset == start.offset + size - 1
      ensures size == 0 && start.offset > 0 ==> r.offset == start.offset - 1
    {
      AddSize(start, Wrap(size - 1))
    }

    /**
     * Contains(x): start <= x < start + size. The && builds start + size,
     * with its CHECK, only when start <= x.
     */
    predicate Contains(x: Provenance)
      requires LessEq(start, x) ==> HasEnd()
      ensures NoWrap() ==>
        (Contains(x) <==> start.offset <= x.offset < start.offset + size)
      ensures Empty() ==> !Contains(x)
    {
      LessEq(start, x) && Less(x, NextAfter())
    }

    /**
     * Contains(that): contains both that.start and that.start + (that.size - 1).
     * The && does not build the second Provenance, with its CHECK, unless
     * that.start is contained.
     */
    predicate ContainsInterval(that: Interval)
      requires LessEq(start, that.start) ==> HasEnd()
      requires Contains(that.start) ==> Wrap(that.start.offset + Wrap(that.size - 1)) > 0
      ensures Empty() ==> !ContainsInterval(that)
    {
      Contains(that.start) && Contains(that.Last())
    }

    /** ImmediatelyPrecedes(that): NextAfter() == that.start. */
    predicate ImmediatelyPrecedes(that: Interval)
      requires HasEnd()
      ensures NoWrap() ==>
        (ImmediatelyPrecedes(that) <==> start.offset + size == that.start.offset)
    {
      NextAfter() == that.start
    }

    /**
     * The answer and the interval after AnnexIfPredecessor(that): when this
     * interval immediately precedes that, the size grows by that.size
     * (wrapping as size_t) and the answer is true; otherwise nothing changes
     * and the answer is false.
     */
    function Annexed(that: Interval): (r: (bool, Interval))
      requires HasEnd()
      ensures r.0 <==> ImmediatelyPrecedes(that)
      ensures r.0 ==> r.1.start == start && r.1.size == Wrap(size + that.size)
      ensures !r.0 ==> r.1 == this
    {
      if ImmediatelyPrecedes(that) then (true, Interval(start, Wrap(size + that.size)))
      else (false, this)
    }

    /** MemberOffset(x): CHECK(Contains(x)); x - start. */
    function MemberOffset(x: Provenance): (n: SizeT)
      requires HasEnd() && Contains(x)
      ensures NoWrap() ==> n < size
      ensures start.offset + n == x.offset
    {
      Sub(x, start)
    }

    /** OffsetMember(n): CHECK(n < size); start + n. */
    function OffsetMember(n: SizeT): (x: Provenance)
      requires n < size
      requires Wrap(start.offset + n) > 0
      ensures NoWrap() ==> x.offset == start.offset + n
    {
      AddSize(start, n)
    }

    /** Prefix(n): the first min(size, n) members. */
    function Prefix(n: SizeT): (r: Interval)
      ensures r.start == start
      ensures r.size <= size && r.size <= n
      ensures r.size == size || r.size == n
    {
      Interval(start, if size < n then size else n)
    }

    /** Suffix(n): CHECK(n <= size); the members from start + n on. */
    function Suffix(n: SizeT): (r: Interval)
      requires n <= size
      requires Wrap(start.offset + n) > 0
      ensures NoWrap() ==> r.start.offset == start.offset + n && r.NoWrap()
      ensures r.size + n == size
    {
      Interval(AddSize(start, n), size - n)
    }
  }

  /** OffsetMember(MemberOffset(x)) == x; positivity of x keeps the CHECK in OffsetMember. */
  lemma OffsetOfMemberRoundTrip(iv: Interval, x: Provenance)
    requires iv.HasEnd() && iv.NoWrap() && iv.Contains(x) && x.offset > 0
    ensures iv.MemberOffset(x) < iv.size
    ensures iv.OffsetMember(iv.MemberOffset(x)) == x
  {
  }

  /** MemberOffset(OffsetMember(n)) == n for every n below the size. */
  lemma MemberOfOffsetRoundTrip(iv: Interval, n: SizeT)
    requires iv.HasEnd() && iv.NoWrap() && n < iv.size && iv.start.offset + n > 0
    ensures iv.Contains(iv.OffsetMember(n))
    ensures iv.MemberOffset(iv.OffsetMember(n)) == n
  {
  }

  /**
   * For non-empty intervals that do not wrap, Contains(that) is interval
   * inclusion: that starts no earlier and ends no later.
   */
  lemma ContainsIntervalIsInclusion(iv: Interval, that: Interval)
    requires iv.HasEnd() && iv.NoWrap()
    requires that.size > 0 && that.NoWrap() && that.start.offset + that.size - 1 > 0
    ensures iv.ContainsInterval(that) <==>
      iv.start.offset <= that.start.offset &&
      that.start.offset + that.size <= iv.start.offset + iv.size
  {
    assert that.Last().offset == that.start.offset + that.size - 1;
  }

  /**
   * An interval that does not contain that.start does not contain that,
   * even an empty that at offset 1, whose last position wraps to 0: the
   * second Provenance is never built.
   */
  lemma ContainsIntervalOutsideStart(iv: Interval, that: Interval)
    requires LessEq(iv.start, that.start) ==> iv.HasEnd()
    requires !iv.Contains(that.start)
    ensures !iv.ContainsInterval(that)
  {
  }

  /**
   * The interval of 5 bytes ending at the top of size_t has no end
   * Provenance, yet it can be asked about offset 1, which lies below its
   * start: the answer is false without building start + size.
   */
  lemma WrappingIntervalBelowStart()
    ensures !Interval(Provenance(SizeLimit - 5), 5).HasEnd()
    ensures !Interval(Provenance(SizeLimit - 5), 5).Contains(Provenance(1))
    ensures !Interval(Provenance(SizeLimit - 5), 5).ContainsInterval(Interval(Provenance(1), 3))
  {
  }

  /** [5, 10) does not contain the empty interval at offset 1. */
  lemma EmptyIntervalBelowStart()
    ensures !Interval(Provenance(5), 5).ContainsInterval(Interval(Provenance(1), 0))
  {
  }

  /** Prefix(n) immediately precedes Suffix(n), and annexing the one to the other rebuilds the interval. */
  lemma PrefixPrecedesSuffix(iv: Interval, n: SizeT)
    requires iv.NoWrap() && n <= iv.size && iv.start.offset + n > 0
    ensures iv.Prefix(n).HasEnd()
    ensures iv.Prefix(n).ImmediatelyPrecedes(iv.Suffix(n))
    ensures iv.Prefix(n).Annexed(iv.Suffix(n)) == (true, iv)
  {
  }

  /** Annexing a non-adjacent interval leaves the interval as it was. */
  lemma AnnexRequiresAdjacency(iv: Interval, that: Interval)
    requires iv.HasEnd() && iv.NoWrap()
    requires that.start.offset != iv.start.offset + iv.size
    ensures iv.Annexed(that) == (false, iv)
  {
  }

  /** Annexing keeps every member and adds exactly the members of the annexed interval. */
  lemma AnnexUnitesMembers(iv: Interval, that: Interval, x: Provenance)
    requires iv.HasEnd() && iv.NoWrap() && iv.ImmediatelyPrecedes(that)
    requires that.NoWrap() && that.HasEnd()
    ensures iv.Annexed(that).1.HasEnd()
    ensures iv.Annexed(that).1.Contains(x) <==> iv.Contains(x) || that.Contains(x)
  {
  }

  /**
   * An Interval object, whose AnnexIfPredecessor updates its size in place.
   */
  class ProvenanceRange {
    var start: Provenance
    var size: SizeT

    function Value(): Interval
      reads this
    {
      Interval(start, size)
    }

    constructor (s: Provenance, n: SizeT)
      ensures Value() == Interval(s, n)
    {
      start, size := s, n;
    }

    /** AnnexIfPredecessor(that): size += that.size exactly when this immediately precedes that. */
    method AnnexIfPredecessor(that: Interval) returns (annexed: bool)
      requires Value().HasEnd()
      modifies this
      ensures (annexed, Value()) == old(Value()).Annexed(that)
      ensures start == old(start)
    {
      if Value().NextAfter() == that.start {
        size := Wrap(size + that.size);
        return true;
      }
      return false;
    }
  }
}
