/**
 * Mixins of the FIR: the conditions under which the sum, product and maybe
 * mixins are enabled for a type, and the Zip / Unzip helpers that write
 * through an output iterator or append to the two halves of a pair of
 * vectors.
 */
module Mixins {
  import opened Wrappers

  /** has_size(size): whether a variant or tuple has any alternative or element. */
  predicate HasSize(size: nat) {
    size > 0
  }

  /** The type a mixin is instantiated with, as far as its enabling condition looks at it. */
  datatype TypeArgument =
    | StdVariant(alternatives: nat)   // std::variant<...>
    | StdTuple(elements: nat)         // std::tuple<...>
    | StdPair                         // std::pair<A, B>
    | StdArray(length: nat)           // std::array<T, N>
    | StdOptional                     // std::optional<V> for some V
    | OtherType

  /** std::variant_size_v<T>, where it is defined. */
  function VariantSize(t: TypeArgument): Option<nat> {
    if t.StdVariant? then Some(t.alternatives) else None
  }

  /** std::tuple_size_v<T>, where it is defined: tuples, pairs and arrays. */
  function TupleSize(t: TypeArgument): Option<nat> {
    match t
    case StdTuple(n) => Some(n)
    case StdPair => Some(2)
    case StdArray(n) => Some(n)
    case _ => None
  }

  datatype MixinKind = SumTypeMixin | SumTypeCopyMixin | ProductTypeMixin | MaybeMixin

  /**
   * Whether the specialization that holds the member u, t or o is selected;
   * otherwise the empty primary template is.  Where a size trait is not
   * defined for T, substitution fails and the primary template is chosen.
   */
  predicate Enabled(mixin: MixinKind, t: TypeArgument) {
    match mixin
    case SumTypeMixin | SumTypeCopyMixin => VariantSize(t).Some? && HasSize(VariantSize(t).value)
    case ProductTypeMixin => TupleSize(t).Some? && HasSize(TupleSize(t).value)
    case MaybeMixin => t.StdOptional?
  }

  /**
   * The sum mixins are enabled exactly for a variant with an alternative;
   * the product mixin exactly for a tuple with an element, any pair, or an
   * array of positive length; the maybe mixin exactly for an optional.  So
   * no type enables mixins of two different families.
   */
  lemma EnabledOnlyForItsKind(mixin: MixinKind, t: TypeArgument)
    ensures mixin.SumTypeMixin? || mixin.SumTypeCopyMixin? ==>
      (Enabled(mixin, t) <==> exists n: nat :: n > 0 && t == StdVariant(n))
    ensures mixin.ProductTypeMixin? ==>
      (Enabled(mixin, t) <==> t == StdPair || exists n: nat :: n > 0 && (t == StdTuple(n) || t == StdArray(n)))
    ensures mixin.MaybeMixin? ==> (Enabled(mixin, t) <==> t == StdOptional)
    ensures Enabled(mixin, t) ==>
      forall other: MixinKind :: Family(other) != Family(mixin) ==> !Enabled(other, t)
    ensures t == StdVariant(0) || t == StdTuple(0) || t == StdArray(0) || t == OtherType ==> !Enabled(mixin, t)
  {
    match t
    case StdVariant(n) => if n > 0 { assert t == StdVariant(n); }
    case StdTuple(n) => if n > 0 { assert t == StdTuple(n); }
    case StdArray(n) => if n > 0 { assert t == StdArray(n); }
    case _ =>
  }

  /** The sum, product and maybe families; the two sum mixins are one family. */
  function Family(mixin: MixinKind): nat {
    match mixin
    case SumTypeMixin | SumTypeCopyMixin => 0
    case ProductTypeMixin => 1
    case MaybeMixin => 2
  }

  /** zip :: ([a],[b]) -> [(a,b)]: element i pairs xs[i] with ys[i]. */
  function Zipped<A, B>(xs: seq<A>, ys: seq<B>): (r: seq<(A, B)>)
    requires |xs| <= |ys|
  {
    seq(|xs|, i requires 0 <= i < |xs| => (xs[i], ys[i]))
  }

  /** The first components, in order. */
  function Firsts<A, B>(ps: seq<(A, B)>): seq<A> {
    seq(|ps|, i requires 0 <= i < |ps| => ps[i].0)
  }

  /** The second components, in order. */
  function Seconds<A, B>(ps: seq<(A, B)>): seq<B> {
    seq(|ps|, i requires 0 <= i < |ps| => ps[i].1)
  }

  /** Zipping two lists and taking the halves apart gives back the first and a prefix of the second. */
  lemma UnzipZipped<A, B>(xs: seq<A>, ys: seq<B>)
    requires |xs| <= |ys|
    ensures Firsts(Zipped(xs, ys)) == xs
    ensures Seconds(Zipped(xs, ys)) == ys[..|xs|]
  {
  }

  /** Taking a list of pairs apart and zipping the halves gives back the list. */
  lemma ZipUnzipped<A, B>(ps: seq<(A, B)>)
    ensures Zipped(Firsts(ps), Seconds(ps)) == ps
  {
  }

  /** The halves of a concatenation are the concatenations of the halves. */
  lemma {:induction false} HalvesOfConcat<A, B>(ps: seq<(A, B)>, qs: seq<(A, B)>)
    ensures Firsts(ps + qs) == Firsts(ps) + Firsts(qs)
    ensures Seconds(ps + qs) == Seconds(ps) + Seconds(qs)
  {
    assert forall i :: 0 <= i < |ps| ==> (ps + qs)[i] == ps[i];
    assert forall i :: |ps| <= i < |ps| + |qs| ==> (ps + qs)[i] == qs[i - |ps|];
  }

  /**
   * Zip(out, first, last, other): writes (xs[i], ys[i]) for every element
   * of [first, last) to consecutive positions from out, takes ys[i] from
   * other, and returns out itself, not the position past the last write.
   */
  method Zip<A, B>(out: array<(A, B)>, at: nat, xs: seq<A>, ys: seq<B>) returns (r: nat)
    requires |xs| <= |ys| && at + |xs| <= out.Length
    modifies out
    ensures r == at
    ensures out[at..at + |xs|] == Zipped(xs, ys)
    ensures out[..at] == old(out[..at])
    ensures out[at + |xs|..] == old(out[at + |xs|..])
  {
    var i := 0;
    while i < |xs|
      invariant 0 <= i <= |xs|
      invariant forall k :: 0 <= k < i ==> out[at + k] == (xs[k], ys[k])
      invariant forall k :: 0 <= k < at ==> out[k] == old(out[k])
      invariant forall k :: at + |xs| <= k < out.Length ==> out[k] == old(out[k])
    {
      out[at + i] := (xs[i], ys[i]);
      i := i + 1;
    }
    r := at;
  }

  /** The pair of vectors Unzip appends to (out.first, out.second). */
  class VectorPair<A, B> {
    var first: seq<A>
    var second: seq<B>

    constructor (f: seq<A>, s: seq<B>)
      ensures first == f && second == s
    {
      first, second := f, s;
    }
  }

  /**
   * Unzip(out, first, last): back-inserts the first component of every
   * pair into out.first, then the second of every pair into out.second,
   * keeping what they held, and returns out.
   */
  method Unzip<A, B>(out: VectorPair<A, B>, ps: seq<(A, B)>) returns (r: VectorPair<A, B>)
    modifies out
    ensures r == out
    ensures out.first == old(out.first) + Firsts(ps)
    ensures out.second == old(out.second) + Seconds(ps)
  {
    var i := 0;
    while i < |ps|
      invariant 0 <= i <= |ps|
      invariant out.first == old(out.first) + Firsts(ps[..i])
      invariant out.second == old(out.second)
    {
      HalvesOfConcat(ps[..i], [ps[i]]);
      assert ps[..i + 1] == ps[..i] + [ps[i]];
      out.first := out.first + [ps[i].0];
      i := i + 1;
    }
    assert ps[..|ps|] == ps;
    i := 0;
    while i < |ps|
      invariant 0 <= i <= |ps|
      invariant out.first == old(out.first) + Firsts(ps)
      invariant out.second == old(out.second) + Seconds(ps[..i])
    {
      HalvesOfConcat(ps[..i], [ps[i]]);
      assert ps[..i + 1] == ps[..i] + [ps[i]];
      out.second := out.second + [ps[i].1];
      i := i + 1;
    }
    r := out;
  }

  /**
   * Unzipping what Zip wrote, into an empty pair of vectors, gives back the
   * two lists: zip and unzip are inverse.
   */
  method ZipThenUnzip<A(0), B(0)>(xs: seq<A>, ys: seq<B>) returns (firsts: seq<A>, seconds: seq<B>)
    requires |xs| == |ys|
    ensures firsts == xs && seconds == ys
  {
    var buffer := new (A, B)[|xs|];
    var at := Zip(buffer, 0, xs, ys);
    var out := new VectorPair([], []);
    var unzipped := Unzip(out, buffer[at..at + |xs|]);
    UnzipZipped(xs, ys);
    assert ys[..|xs|] == ys;
    firsts, seconds := unzipped.first, unzipped.second;
  }
}
