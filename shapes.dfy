/**
 * Shapes of Fortran array expressions: a shape is a sequence of extents,
 * one per dimension, each an optional integer extent expression.  A scalar
 * has the empty shape.  Extent expressions are folded when their operands
 * are constants; a descriptor inquiry (the extent or lower bound of a
 * dummy argument, known only at run time) or an opaque specification
 * expression stays symbolic.
 */
module Shapes {
  import opened Wrappers

  datatype InquiryField = LowerBoundField | ExtentField

  /** ExtentExpr: an INTEGER(8) expression over extents. */
  datatype ExtentExpr =
    | Const(value: int)
    | Inquiry(entity: string, field: InquiryField, dimension: nat)
    | Opaque(name: string)
    | Add(left: ExtentExpr, right: ExtentExpr)
    | Subtract(left: ExtentExpr, right: ExtentExpr)
    | Multiply(left: ExtentExpr, right: ExtentExpr)
    | Divide(left: ExtentExpr, right: ExtentExpr)
    | Max(left: ExtentExpr, right: ExtentExpr)

  type MaybeExtent = Option<ExtentExpr>
  type Shape = seq<MaybeExtent>

  /** Fortran integer division, which truncates toward zero. */
  function TruncDiv(a: int, b: int): int
    requires b != 0
  {
    var m := (if a < 0 then -a else a) / (if b < 0 then -b else b);
    if (a < 0) == (b < 0) then m else -m
  }

  /** The value of an extent expression, when it has one at compile time. */
  function Eval(e: ExtentExpr): Option<int> {
    match e
    case Const(v) => Some(v)
    case Inquiry(_, _, _) => None
    case Opaque(_) => None
    case Add(l, r) => if Eval(l).Some? && Eval(r).Some? then Some(Eval(l).value + Eval(r).value) else None
    case Subtract(l, r) => if Eval(l).Some? && Eval(r).Some? then Some(Eval(l).value - Eval(r).value) else None
    case Multiply(l, r) => if Eval(l).Some? && Eval(r).Some? then Some(Eval(l).value * Eval(r).value) else None
    case Divide(l, r) =>
      if Eval(l).Some? && Eval(r).Some? && Eval(r).value != 0 then Some(TruncDiv(Eval(l).value, Eval(r).value))
      else None
    case Max(l, r) =>
      if Eval(l).Some? && Eval(r).Some? then Some(if Eval(l).value >= Eval(r).value then Eval(l).value else Eval(r).value)
      else None
  }

  /** Fold: an operation whose operands fold to constants becomes a constant. */
  function Fold(e: ExtentExpr): (r: ExtentExpr)
    ensures Eval(r) == Eval(e)
  {
    match e
    case Add(l, r) =>
      var a, b := Fold(l), Fold(r);
      if a.Const? && b.Const? then Const(a.value + b.value) else Add(a, b)
    case Subtract(l, r) =>
      var a, b := Fold(l), Fold(r);
      if a.Const? && b.Const? then Const(a.value - b.value) else Subtract(a, b)
    case Multiply(l, r) =>
      var a, b := Fold(l), Fold(r);
      if a.Const? && b.Const? then Const(a.value * b.value) else Multiply(a, b)
    case Divide(l, r) =>
      var a, b := Fold(l), Fold(r);
      if a.Const? && b.Const? && b.value != 0 then Const(TruncDiv(a.value, b.value)) else Divide(a, b)
    case Max(l, r) =>
      var a, b := Fold(l), Fold(r);
      if a.Const? && b.Const? then Const(if a.value >= b.value then a.value else b.value) else Max(a, b)
    case _ => e
  }

  /** Folding yields a constant exactly when the expression has a value at compile time. */
  lemma {:induction false} FoldConstantIff(e: ExtentExpr)
    ensures Fold(e).Const? <==> Eval(e).Some?
  {
    match e
    case Add(l, r) => FoldConstantIff(l); FoldConstantIff(r);
    case Subtract(l, r) => FoldConstantIff(l); FoldConstantIff(r);
    case Multiply(l, r) => FoldConstantIff(l); FoldConstantIff(r);
    case Divide(l, r) => FoldConstantIff(l); FoldConstantIff(r);
    case Max(l, r) => FoldConstantIff(l); FoldConstantIff(r);
    case _ =>
  }

  /** ToInt64: the value of an extent already folded to a constant. */
  function ToInt64(e: MaybeExtent): Option<int> {
    if e.Some? && e.value.Const? then Some(e.value.value) else None
  }

  // ---------------------------------------------------------------- trip counts

  /** The trip-count expression MAX((upper - lower + stride) / stride, 0). */
  function TripExpr(lower: ExtentExpr, upper: ExtentExpr, stride: ExtentExpr): ExtentExpr {
    Max(Divide(Add(Subtract(upper, lower), stride), stride), Const(0))
  }

  /**
   * CountTrips: the trip-count expression, folded.  It has a value at
   * compile time exactly when the bounds and a nonzero stride do, and that
   * value is the number of times a DO loop with them runs its body.
   */
  function CountTrips(lower: ExtentExpr, upper: ExtentExpr, stride: ExtentExpr): (r: ExtentExpr)
    ensures Eval(r).Some? <==>
      Eval(lower).Some? && Eval(upper).Some? && Eval(stride).Some? && Eval(stride).value != 0
    ensures Eval(r).Some? ==> Eval(r).value == Trips(Eval(lower).value, Eval(upper).value, Eval(stride).value)
  {
    TripExprCounts(lower, upper, stride);
    Fold(TripExpr(lower, upper, stride))
  }

  /** The value of the trip-count expression is the stepped iteration count. */
  lemma TripExprCounts(lower: ExtentExpr, upper: ExtentExpr, stride: ExtentExpr)
    ensures var v := Eval(TripExpr(lower, upper, stride));
      (v.Some? <==> Eval(lower).Some? && Eval(upper).Some? && Eval(stride).Some? && Eval(stride).value != 0) &&
      (v.Some? ==> v.value == Trips(Eval(lower).value, Eval(upper).value, Eval(stride).value))
  {
    var span := Add(Subtract(upper, lower), stride);
    if Eval(lower).Some? && Eval(upper).Some? && Eval(stride).Some? && Eval(stride).value != 0 {
      var l, u, st := Eval(lower).value, Eval(upper).value, Eval(stride).value;
      assert Eval(span) == Some(u - l + st);
      assert Eval(Divide(span, stride)) == Some(TruncDiv(u - l + st, st));
      if st > 0 {
        TripsUpward(l, u, st);
      } else {
        TripsDownward(l, u, st);
      }
    } else {
      assert Eval(lower).None? || Eval(upper).None? ==> Eval(Subtract(upper, lower)).None? && Eval(span).None?;
      assert Eval(Divide(span, stride)).None?;
    }
  }


  /** The overload on optional extents: none when any of the three is absent. */
  function CountTripsIfAll(lower: MaybeExtent, upper: MaybeExtent, stride: MaybeExtent): (r: MaybeExtent)
    ensures r.Some? <==> lower.Some? && upper.Some? && stride.Some?
  {
    if lower.Some? && upper.Some? && stride.Some? then Some(CountTrips(lower.value, upper.value, stride.value))
    else None
  }

  /**
   * The number of times a DO loop from lower to upper by stride runs its
   * body, by stepping the index: the reference count.
   */
  function Trips(lower: int, upper: int, stride: int): nat
    requires stride != 0
    decreases if stride > 0 && lower <= upper then upper - lower + 1
              else if stride < 0 && lower >= upper then lower - upper + 1
              else 0
  {
    if stride > 0 && lower <= upper then 1 + Trips(lower + stride, upper, stride)
    else if stride < 0 && lower >= upper then 1 + Trips(lower + stride, upper, stride)
    else 0
  }

  lemma MulMonotone(x: int, y: int, s: int)
    requires s > 0
    ensures x <= y ==> x * s <= y * s
  {
    if x <= y {
      assert y * s == x * s + (y - x) * s;
    }
  }

  /** The quotient is the one multiple that brackets the dividend. */
  lemma DivUnique(a: int, s: int, q: int)
    requires s > 0 && q * s <= a < q * s + s
    ensures a / s == q
  {
    var q0, r0 := a / s, a % s;
    assert a == q0 * s + r0 && 0 <= r0 < s;
    MulMonotone(q0 + 1, q, s);
    MulMonotone(q + 1, q0, s);
  }

  lemma DivStep(a: int, s: int)
    requires s > 0 && a >= 0
    ensures (a + s) / s == a / s + 1
  {
    var q := a / s;
    assert q * s <= a < q * s + s;
    assert (q + 1) * s == q * s + s;
    DivUnique(a + s, s, q + 1);
  }

  function MaxZero(x: int): nat {
    if x >= 0 then x else 0
  }

  /** For a positive stride the formula counts the steps. */
  lemma {:induction false} TripsUpward(lower: int, upper: int, stride: int)
    requires stride > 0
    ensures Trips(lower, upper, stride) == MaxZero(TruncDiv(upper - lower + stride, stride))
    decreases if lower <= upper then upper - lower + 1 else 0
  {
    var span := upper - lower + stride;
    if lower <= upper {
      TripsUpward(lower + stride, upper, stride);
      var a := upper - lower;
      assert upper - (lower + stride) + stride == a;
      assert TruncDiv(a + stride, stride) == (a + stride) / stride;
      assert TruncDiv(a, stride) == a / stride;
      DivStep(a, stride);
      MulMonotone(a / stride, -1, stride);
    } else if span >= 0 {
      DivUnique(span, stride, 0);
    } else {
      assert TruncDiv(span, stride) <= 0;
    }
  }

  /** A negative stride counts like the positive one on negated bounds. */
  lemma {:induction false} TripsNegated(lower: int, upper: int, stride: int)
    requires stride < 0
    ensures Trips(lower, upper, stride) == Trips(-lower, -upper, -stride)
    decreases if lower >= upper then lower - upper + 1 else 0
  {
    if lower >= upper {
      TripsNegated(lower + stride, upper, stride);
      assert -(lower + stride) == -lower + -stride;
    }
  }

  lemma TruncDivNegated(a: int, b: int)
    requires b != 0
    ensures TruncDiv(a, b) == TruncDiv(-a, -b)
  {
  }

  /** For a negative stride the formula counts the steps too. */
  lemma TripsDownward(lower: int, upper: int, stride: int)
    requires stride < 0
    ensures Trips(lower, upper, stride) == MaxZero(TruncDiv(upper - lower + stride, stride))
  {
    TripsNegated(lower, upper, stride);
    TripsUpward(-lower, -upper, -stride);
    var span := upper - lower + stride;
    assert -upper - -lower + -stride == -span;
    TruncDivNegated(span, stride);
  }

  /**
   * CountTrips on constant bounds and a nonzero constant stride is the
   * constant number of iterations a DO loop with those parameters runs.
   */
  lemma CountTripsCountsIterations(lower: int, upper: int, stride: int)
    requires stride != 0
    ensures CountTrips(Const(lower), Const(upper), Const(stride)) == Const(Trips(lower, upper, stride))
  {
    FoldConstantIff(TripExpr(Const(lower), Const(upper), Const(stride)));
  }

  /** The example (1,10,1): ten trips. */
  lemma CountTripsUnitStride()
    ensures CountTrips(Const(1), Const(10), Const(1)) == Const(10)
  {
  }

  /** The example (10,1,1): a loop that does not run. */
  lemma CountTripsZeroTrip()
    ensures CountTrips(Const(10), Const(1), Const(1)) == Const(0)
  {
  }

  /** The example (1,10,2): five trips, the last at 9. */
  lemma CountTripsStrideTwo()
    ensures CountTrips(Const(1), Const(10), Const(2)) == Const(5)
  {
  }

  // ---------------------------------------------------------------- sizes

  /** The product of the extents' values, when every extent has one. */
  function SizeValue(shape: Shape): Option<int> {
    if shape == [] then Some(1)
    else
      var init := SizeValue(shape[..|shape| - 1]);
      var last := shape[|shape| - 1];
      if init.Some? && last.Some? && Eval(last.value).Some? then Some(init.value * Eval(last.value).value)
      else None
  }

  /**
   * GetSize: the product of all the extents as an expression, starting from
   * 1, so 1 for a scalar; none as soon as an extent is unknown.
   */
  method GetSize(shape: Shape) returns (r: MaybeExtent)
    ensures r.None? <==> None in shape
    ensures shape == [] ==> r == Some(Const(1))
    ensures r.Some? ==> Eval(r.value) == SizeValue(shape)
  {
    var extent := Const(1);
    var i := 0;
    while i < |shape|
      invariant 0 <= i <= |shape| && None !in shape[..i]
      invariant Eval(extent) == SizeValue(shape[..i])
      invariant i == 0 ==> extent == Const(1)
    {
      var dim := shape[i];
      if dim.None? {
        return None;
      }
      assert shape[..i + 1][..i] == shape[..i];
      extent := Multiply(extent, dim.value);
      i := i + 1;
    }
    assert shape[..i] == shape;
    return Some(extent);
  }

  /**
   * AsExtentArrayExpr: the extents as the values of an array constructor,
   * in order; none when any extent is unknown.
   */
  method AsExtentArrayExpr(shape: Shape) returns (r: Option<seq<ExtentExpr>>)
    ensures r.None? <==> None in shape
    ensures r.Some? ==> |r.value| == |shape| && forall i :: 0 <= i < |shape| ==> shape[i] == Some(r.value[i])
  {
    var values: seq<ExtentExpr> := [];
    var i := 0;
    while i < |shape|
      invariant 0 <= i <= |shape| && None !in shape[..i]
      invariant |values| == i && forall k :: 0 <= k < i ==> shape[k] == Some(values[k])
    {
      if shape[i].None? {
        return None;
      }
      assert shape[..i + 1] == shape[..i] + [shape[i]];
      values := values + [shape[i].value];
      i := i + 1;
    }
    assert shape[..i] == shape;
    return Some(values);
  }

  /** AsShape of a rank-one constant: one constant extent per element. */
  function AsShape(values: seq<int>): (r: Shape)
    ensures |r| == |values| && forall i :: 0 <= i < |values| ==> r[i] == Some(Const(values[i]))
  {
    if values == [] then [] else [Some(Const(values[0]))] + AsShape(values[1..])
  }

  // ---------------------------------------------------------------- symbols

  /** A bound of a dimension in the symbol table: an expression, '*' or ':'. */
  datatype Bound = ExplicitBound(expr: Option<ExtentExpr>) | AssumedBound | DeferredBound {
    function GetExplicit(): MaybeExtent {
      if ExplicitBound? then expr else None
    }
  }

  datatype ShapeSpec = ShapeSpec(lbound: Bound, ubound: Bound) {
    /** An explicit-shape dimension: one whose upper bound is given. */
    predicate IsExplicit() {
      ubound.ExplicitBound?
    }
  }

  /**
   * The symbol details the shape queries look at: an object entity with
   * its declared dimensions (and, when it has an initializer, that
   * initializer's shape), an associate entity with the shape of its
   * selector, or anything else.
   */
  datatype Details =
    | ObjectEntity(shape: seq<ShapeSpec>, init: Option<Option<Shape>>, isDummy: bool)
    | AssocEntity(expr: Option<Option<Shape>>)
    | OtherDetails

  datatype Symbol = Symbol(name: string, isParameter: bool, details: Details) {
    function Rank(): nat {
      if details.ObjectEntity? then |details.shape| else 0
    }
  }

  /** An assumed-size dummy array: its last upper bound is '*'. */
  predicate IsAssumedSize(d: Details) {
    d.ObjectEntity? && d.isDummy && |d.shape| > 0 && d.shape[|d.shape| - 1].ubound.AssumedBound?
  }

  /** An implied-shape named constant: PARAMETER, initialized, of positive rank, every upper bound deferred. */
  predicate ImpliedShape(symbol: Symbol) {
    symbol.details.ObjectEntity? && symbol.isParameter && symbol.details.init.Some? &&
    |symbol.details.shape| > 0 &&
    forall k :: 0 <= k < |symbol.details.shape| ==> symbol.details.shape[k].ubound.DeferredBound?
  }

  /** IsImpliedShape(symbol). */
  method IsImpliedShape(symbol: Symbol) returns (r: bool)
    ensures r == ImpliedShape(symbol)
  {
    if symbol.details.ObjectEntity? && symbol.isParameter && symbol.details.init.Some? {
      var shape := symbol.details.shape;
      var i := 0;
      while i < |shape|
        invariant 0 <= i <= |shape| && forall k :: 0 <= k < i ==> shape[k].ubound.DeferredBound?
      {
        if !shape[i].ubound.DeferredBound? {
          return false;
        }
        i := i + 1;
      }
      return |shape| > 0;
    }
    return false;
  }

  /** IsExplicitShape(symbol): an object entity all of whose dimensions are explicit; true for a scalar. */
  method IsExplicitShape(symbol: Symbol) returns (r: bool)
    ensures r <==> (symbol.details.ObjectEntity? &&
                    forall k :: 0 <= k < |symbol.details.shape| ==> symbol.details.shape[k].IsExplicit())
    ensures symbol.details.ObjectEntity? && symbol.details.shape == [] ==> r
  {
    if !symbol.details.ObjectEntity? {
      return false;
    }
    var shape := symbol.details.shape;
    var i := 0;
    while i < |shape|
      invariant 0 <= i <= |shape| && forall k :: 0 <= k < i ==> shape[k].IsExplicit()
    {
      if !shape[i].IsExplicit() {
        return false;
      }
      i := i + 1;
    }
    return true;
  }

  // ---------------------------------------------------------------- bounds and extents

  /**
   * The lower bound of a dimension of an object: its declared bound,
   * folded, or a descriptor inquiry when it is not given; none for a
   * dimension the object does not have.
   */
  function LowerBoundOf(symbol: Symbol, dimension: int): MaybeExtent {
    if symbol.details.ObjectEntity? && 0 <= dimension < |symbol.details.shape| then
      var lb := symbol.details.shape[dimension].lbound.GetExplicit();
      if lb.Some? then Some(Fold(lb.value)) else Some(Inquiry(symbol.name, LowerBoundField, dimension))
    else None
  }

  /** GetLowerBound(base, dimension). */
  method GetLowerBound(base: Symbol, dimension: int) returns (r: MaybeExtent)
    ensures r == LowerBoundOf(base, dimension)
  {
    if base.details.ObjectEntity? {
      var shape := base.details.shape;
      var j := 0;
      while j < |shape|
        invariant 0 <= j <= |shape| && (j <= dimension || dimension < 0)
      {
        if j == dimension {
          var lb := shape[j].lbound.GetExplicit();
          if lb.Some? {
            return Some(Fold(lb.value));
          }
          return Some(Inquiry(base.name, LowerBoundField, dimension));
        }
        j := j + 1;
      }
    }
    return None;
  }

  /** An implied-shape constant's extents come from its initializer, which must have them. */
  predicate ExtentDefined(symbol: Symbol, dimension: nat) {
    ImpliedShape(symbol) ==>
      symbol.details.init.value.Some? && dimension < |symbol.details.init.value.value|
  }

  /**
   * The extent of a dimension of an object: from the initializer for an
   * implied-shape constant; ub - lb + 1 for an explicit dimension with
   * both bounds, ub when only that is given; none for the last dimension
   * of an assumed-size array; otherwise a descriptor inquiry.
   */
  function ExtentOf(symbol: Symbol, dimension: nat): MaybeExtent
    requires ExtentDefined(symbol, dimension)
  {
    if !symbol.details.ObjectEntity? then None
    else if ImpliedShape(symbol) then symbol.details.init.value.value[dimension]
    else if dimension >= |symbol.details.shape| then None
    else
      var spec := symbol.details.shape[dimension];
      if spec.IsExplicit() then
        var ub := spec.ubound.GetExplicit();
        var lb := spec.lbound.GetExplicit();
        if ub.None? then None
        else if lb.Some? then Some(Fold(Add(Subtract(ub.value, lb.value), Const(1))))
        else Some(Fold(ub.value))
      else if IsAssumedSize(symbol.details) && dimension + 1 == symbol.Rank() then None
      else Some(Inquiry(symbol.name, ExtentField, dimension))
  }

  /** GetExtent(base, dimension). */
  method GetExtent(base: Symbol, dimension: nat) returns (r: MaybeExtent)
    requires ExtentDefined(base, dimension)
    ensures r == ExtentOf(base, dimension)
  {
    if !base.details.ObjectEntity? {
      return None;
    }
    var implied := IsImpliedShape(base);
    if implied {
      var shape := base.details.init.value.value;
      return shape[dimension];
    }
    var specs := base.details.shape;
    var j := 0;
    while j < |specs|
      invariant 0 <= j <= |specs|
      invariant j > dimension ==> ExtentOf(base, dimension).None?
    {
      j := j + 1;
      if j - 1 == dimension {
        var spec := specs[j - 1];
        if spec.IsExplicit() {
          var ub := spec.ubound.GetExplicit();
          if ub.Some? {
            var lb := spec.lbound.GetExplicit();
            if lb.Some? {
              return Some(Fold(Add(Subtract(ub.value, lb.value), Const(1))));
            }
            return Some(Fold(ub.value));
          }
        } else if IsAssumedSize(base.details) && j == base.Rank() {
          return None;
        } else {
          return Some(Inquiry(base.name, ExtentField, dimension));
        }
      }
    }
    return None;
  }

  /** An explicit dimension lb:ub with constant bounds has extent ub - lb + 1. */
  lemma ExplicitExtent(symbol: Symbol, dimension: nat, lb: int, ub: int)
    requires symbol.details.ObjectEntity? && !ImpliedShape(symbol)
    requires dimension < |symbol.details.shape|
    requires symbol.details.shape[dimension] == ShapeSpec(ExplicitBound(Some(Const(lb))), ExplicitBound(Some(Const(ub))))
    ensures ExtentOf(symbol, dimension) == Some(Const(ub - lb + 1))
  {
    assert Fold(Subtract(Const(ub), Const(lb))) == Const(ub - lb);
    assert Fold(Add(Subtract(Const(ub), Const(lb)), Const(1))) == Const(ub - lb + 1);
  }

  /**
   * GetUpperBound as written: extent - lower + 1, which is the upper bound
   * only when the lower bound is 1.
   */
  function GetUpperBoundAsWritten(lower: MaybeExtent, extent: MaybeExtent): (r: MaybeExtent)
    ensures r.Some? <==> lower.Some? && extent.Some?
  {
    if lower.Some? && extent.Some? then Some(Fold(Add(Subtract(extent.value, lower.value), Const(1)))) else None
  }

  /** GetUpperBound: lower + extent - 1, none unless both are known. */
  function GetUpperBound(lower: MaybeExtent, extent: MaybeExtent): (r: MaybeExtent)
    ensures r.Some? <==> lower.Some? && extent.Some?
  {
    if lower.Some? && extent.Some? then Some(Fold(Subtract(Add(lower.value, extent.value), Const(1)))) else None
  }

  /**
   * The upper bound recovered from a dimension's lower bound and extent is
   * the declared upper bound.
   */
  lemma UpperBoundOfExtent(lb: int, ub: int)
    ensures GetUpperBound(Some(Const(lb)), Some(Fold(Add(Subtract(Const(ub), Const(lb)), Const(1))))) == Some(Const(ub))
  {
    assert Fold(Subtract(Const(ub), Const(lb))) == Const(ub - lb);
    assert Fold(Add(Subtract(Const(ub), Const(lb)), Const(1))) == Const(ub - lb + 1);
    assert Fold(Add(Const(lb), Const(ub - lb + 1))) == Const(ub + 1);
  }

  /** As written, the dimension 2:4 (extent 3) gets upper bound 2. */
  lemma UpperBoundAsWrittenCounterexample()
    ensures GetUpperBoundAsWritten(Some(Const(2)), Some(Const(3))) == Some(Const(2))
    ensures GetUpperBound(Some(Const(2)), Some(Const(3))) == Some(Const(4))
  {
  }

  // ---------------------------------------------------------------- shapes of designators

  /**
   * GetShape of a named entity: an object's extents dimension by dimension
   * (an implied-shape constant takes its initializer's shape), an
   * associate entity its selector's shape; none for anything else.
   */
  function EntityShape(symbol: Symbol): Option<Shape> {
    match symbol.details
    case ObjectEntity(shape, init, _) =>
      if ImpliedShape(symbol) then init.value
      else Some(seq(|shape|, d requires 0 <= d < |shape| => ExtentOf(symbol, d)))
    case AssocEntity(expr) => if expr.Some? then expr.value else None
    case OtherDetails => None
  }

  /** An object that is not an implied-shape constant has one extent per declared dimension. */
  lemma EntityShapeHasRank(symbol: Symbol)
    requires symbol.details.ObjectEntity? && !ImpliedShape(symbol)
    ensures EntityShape(symbol).Some? && |EntityShape(symbol).value| == symbol.Rank()
  {
  }

  /** GetShape(NamedEntity). */
  method GetEntityShape(base: Symbol) returns (r: Option<Shape>)
    ensures r == EntityShape(base)
  {
    match base.details
    case ObjectEntity(specs, init, _) => {
      var implied := IsImpliedShape(base);
      if implied {
        return init.value;
      }
      var result: Shape := [];
      var dimension := 0;
      while dimension < |specs|
        invariant 0 <= dimension <= |specs| && |result| == dimension
        invariant forall d :: 0 <= d < dimension ==> result[d] == ExtentOf(base, d)
      {
        var extent := GetExtent(base, dimension);
        result := result + [extent];
        dimension := dimension + 1;
      }
      assert result == seq(|specs|, d requires 0 <= d < |specs| => ExtentOf(base, d));
      return Some(result);
    }
    case AssocEntity(expr) => {
      if expr.Some? {
        return expr.value;
      }
      return None;
    }
    case OtherDetails => {
      return None;
    }
  }

  /**
   * A subscript of an array reference: a triplet lower:upper:stride whose
   * bounds may be omitted, or a vector-valued subscript, given by its rank
   * and the shape of its expression.
   */
  datatype Subscript =
    | Triplet(lower: MaybeExtent, upper: MaybeExtent, stride: ExtentExpr)
    | VectorSubscript(rank: nat, shape: Option<Shape>)
  {
    function Rank(): nat {
      if Triplet? then 1 else rank
    }
  }

  /** What GetExtent of a subscript demands: a vector subscript of positive rank has rank one. */
  predicate SubscriptOk(ss: Subscript, base: Symbol, dimension: nat) {
    match ss
    case Triplet(_, upper, _) => upper.None? ==> ExtentDefined(base, dimension)
    case VectorSubscript(_, shape) => shape.Some? && |shape.value| > 0 ==> |shape.value| == 1
  }

  /**
   * The extent a subscript selects, as written: for a triplet the trip
   * count, an omitted lower bound standing for the dimension's lower bound
   * but an omitted upper bound for the dimension's extent, which is its
   * upper bound only when the lower bound is 1; for a vector subscript the
   * extent of the vector.
   */
  function SubscriptExtentAsWritten(ss: Subscript, base: Symbol, dimension: nat): (r: MaybeExtent)
    requires SubscriptOk(ss, base, dimension)
    ensures !(ss.Triplet? && ss.upper.None?) ==> r == SubscriptExtent(ss, base, dimension)
  {
    match ss
    case Triplet(lower, upper, stride) =>
      CountTripsIfAll(if lower.Some? then lower else LowerBoundOf(base, dimension),
                      if upper.Some? then upper else ExtentOf(base, dimension),
                      Some(stride))
    case VectorSubscript(_, shape) =>
      if shape.Some? && |shape.value| > 0 then shape.value[0] else None
  }

  /**
   * The extent a subscript selects, corrected: an omitted upper bound of a
   * triplet stands for the dimension's upper bound, recovered from its
   * lower bound and extent; everything else is as written.
   */
  function SubscriptExtent(ss: Subscript, base: Symbol, dimension: nat): MaybeExtent
    requires SubscriptOk(ss, base, dimension)
  {
    match ss
    case Triplet(lower, upper, stride) =>
      CountTripsIfAll(if lower.Some? then lower else LowerBoundOf(base, dimension),
                      if upper.Some? then upper
                      else GetUpperBound(LowerBoundOf(base, dimension), ExtentOf(base, dimension)),
                      Some(stride))
    case VectorSubscript(_, shape) =>
      if shape.Some? && |shape.value| > 0 then shape.value[0] else None
  }

  /** GetExtent(subscript, base, dimension), with the omitted upper bound corrected. */
  method GetSubscriptExtent(ss: Subscript, base: Symbol, dimension: nat) returns (r: MaybeExtent)
    requires SubscriptOk(ss, base, dimension)
    ensures r == SubscriptExtent(ss, base, dimension)
  {
    match ss
    case Triplet(lower, upper, stride) => {
      var lowerBound := GetLowerBound(base, dimension);
      var up := upper;
      if up.None? {
        var extent := GetExtent(base, dimension);
        up := GetUpperBound(lowerBound, extent);
      }
      var lo := lower;
      if lo.None? {
        lo := lowerBound;
      }
      return CountTripsIfAll(lo, up, Some(stride));
    }
    case VectorSubscript(_, shape) => {
      if shape.Some? && |shape.value| > 0 {
        return shape.value[0];
      }
      return None;
    }
  }

  /**
   * The whole-dimension section a(:) of an explicit dimension lb:ub with
   * constant bounds selects as many elements as the dimension has.
   */
  lemma WholeDimensionSection(symbol: Symbol, dimension: nat, lb: int, ub: int)
    requires symbol.details.ObjectEntity? && !ImpliedShape(symbol)
    requires dimension < |symbol.details.shape|
    requires symbol.details.shape[dimension] == ShapeSpec(ExplicitBound(Some(Const(lb))), ExplicitBound(Some(Const(ub))))
    requires ub >= lb - 1
    ensures SubscriptExtent(Triplet(None, None, Const(1)), symbol, dimension) == ExtentOf(symbol, dimension)
    ensures ExtentOf(symbol, dimension) == Some(Const(ub - lb + 1))
  {
    ExplicitExtent(symbol, dimension, lb, ub);
    UpperBoundOfExtent(lb, ub);
    assert LowerBoundOf(symbol, dimension) == Some(Const(lb));
    CountTripsCountsIterations(lb, ub, 1);
    TripsUpward(lb, ub, 1);
  }

  /** As written, a(:) on a dimension 2:4 counts the trips from 2 to 3: two elements, not three. */
  lemma WholeSectionAsWrittenCounterexample()
    ensures var a := Symbol("a", false, ObjectEntity([ShapeSpec(ExplicitBound(Some(Const(2))), ExplicitBound(Some(Const(4))))], None, false));
      SubscriptExtentAsWritten(Triplet(None, None, Const(1)), a, 0) == Some(Const(2)) &&
      SubscriptExtent(Triplet(None, None, Const(1)), a, 0) == Some(Const(3))
  {
    var a := Symbol("a", false, ObjectEntity([ShapeSpec(ExplicitBound(Some(Const(2))), ExplicitBound(Some(Const(4))))], None, false));
    WholeDimensionSection(a, 0, 2, 4);
    CountTripsCountsIterations(2, 3, 1);
    TripsUpward(2, 3, 1);
  }

  datatype ArrayRef = ArrayRef(base: Symbol, subscripts: seq<Subscript>)

  predicate ArrayRefOk(ref: ArrayRef) {
    forall d :: 0 <= d < |ref.subscripts| ==> SubscriptOk(ref.subscripts[d], ref.base, d)
  }

  /** The extents of the subscripts of positive rank among the first n, in order. */
  function RankedExtents(ref: ArrayRef, n: nat): Shape
    requires ArrayRefOk(ref) && n <= |ref.subscripts|
  {
    if n == 0 then []
    else
      var ss := ref.subscripts[n - 1];
      RankedExtents(ref, n - 1) + if ss.Rank() > 0 then [SubscriptExtent(ss, ref.base, n - 1)] else []
  }

  /** The number of subscripts of positive rank among the first n. */
  function RankedCount(subscripts: seq<Subscript>, n: nat): nat
    requires n <= |subscripts|
  {
    if n == 0 then 0 else RankedCount(subscripts, n - 1) + if subscripts[n - 1].Rank() > 0 then 1 else 0
  }

  /**
   * An array reference has one extent per subscript of positive rank; it
   * has none exactly when every subscript is scalar.
   */
  lemma {:induction false} RankedExtentsCount(ref: ArrayRef, n: nat)
    requires ArrayRefOk(ref) && n <= |ref.subscripts|
    ensures |RankedExtents(ref, n)| == RankedCount(ref.subscripts, n)
    ensures RankedExtents(ref, n) == [] <==> forall k :: 0 <= k < n ==> ref.subscripts[k].Rank() == 0
  {
    if n > 0 {
      RankedExtentsCount(ref, n - 1);
    }
  }

  /** GetShape of an array reference: the ranked subscripts' extents, or the base's shape when there are none. */
  function ArrayRefShape(ref: ArrayRef): Option<Shape>
    requires ArrayRefOk(ref)
  {
    var shape := RankedExtents(ref, |ref.subscripts|);
    if shape == [] then EntityShape(ref.base) else Some(shape)
  }

  /** GetShape(ArrayRef). */
  method GetArrayRefShape(ref: ArrayRef) returns (r: Option<Shape>)
    requires ArrayRefOk(ref)
    ensures r == ArrayRefShape(ref)
  {
    var shape: Shape := [];
    var dimension := 0;
    while dimension < |ref.subscripts|
      invariant 0 <= dimension <= |ref.subscripts| && shape == RankedExtents(ref, dimension)
    {
      var ss := ref.subscripts[dimension];
      if ss.Rank() > 0 {
        var extent := GetSubscriptExtent(ss, ref.base, dimension);
        shape := shape + [extent];
      }
      dimension := dimension + 1;
    }
    if shape == [] {
      r := GetEntityShape(ref.base);
    } else {
      r := Some(shape);
    }
  }

  // ---------------------------------------------------------------- shapes of calls

  /**
   * An actual argument: its rank, its shape, whether it is an expression
   * (rather than an assumed-type dummy), and the shape its value denotes
   * when folded into a constant extent vector.
   */
  datatype Argument = Argument(rank: nat, shape: Option<Shape>, isExpr: bool, valueAsShape: Option<Shape>)

  datatype ProcDesignator = ProcSymbol(symbol: Symbol) | SpecificIntrinsic(name: string)

  datatype ProcedureRef = ProcedureRef(rank: nat, elemental: bool, proc: ProcDesignator,
                                       arguments: seq<Option<Argument>>)

  /** The index of the first present argument of positive rank. */
  function FirstRanked(args: seq<Option<Argument>>, from: nat): (r: Option<nat>)
    requires from <= |args|
    ensures r.Some? ==> from <= r.value < |args| && args[r.value].Some? && args[r.value].value.rank > 0
    ensures r.Some? ==> forall k :: from <= k < r.value ==> !(args[k].Some? && args[k].value.rank > 0)
    ensures r.None? ==> forall k :: from <= k < |args| ==> !(args[k].Some? && args[k].value.rank > 0)
    decreases |args| - from
  {
    if from == |args| then None
    else if args[from].Some? && args[from].value.rank > 0 then Some(from)
    else FirstRanked(args, from + 1)
  }

  function IsBoundInquiry(name: string): bool {
    name == "shape" || name == "lbound" || name == "ubound"
  }

  /** What GetShape of a call demands of SHAPE/LBOUND/UBOUND and RESHAPE references. */
  predicate CallOk(call: ProcedureRef) {
    call.rank > 0 && !call.elemental && call.proc.SpecificIntrinsic? ==>
      (IsBoundInquiry(call.proc.name) ==> |call.arguments| > 0 && call.arguments[0].Some? && call.arguments[0].value.isExpr) &&
      (call.proc.name == "reshape" && |call.arguments| >= 2 && call.arguments[1].Some? ==> call.arguments[1].value.isExpr)
  }

  /**
   * GetShape of a procedure reference: a scalar call has the empty shape;
   * an elemental call the shape of its first argument of positive rank; a
   * call of a named procedure its result's shape; SHAPE, LBOUND and UBOUND
   * a vector whose one extent is the argument's rank; RESHAPE the shape
   * given by its SHAPE argument; anything else none.
   */
  function CallShape(call: ProcedureRef): Option<Shape>
    requires CallOk(call)
  {
    if call.rank == 0 then Some([])
    else if call.elemental then
      var k := FirstRanked(call.arguments, 0);
      if k.Some? then call.arguments[k.value].value.shape else None
    else match call.proc
      case ProcSymbol(symbol) => EntityShape(symbol)
      case SpecificIntrinsic(name) =>
        if IsBoundInquiry(name) then Some([Some(Const(call.arguments[0].value.rank))])
        else if name == "reshape" && |call.arguments| >= 2 && call.arguments[1].Some? then
          call.arguments[1].value.valueAsShape
        else None
  }

  /** GetShape(ProcedureRef). */
  method GetCallShape(call: ProcedureRef) returns (r: Option<Shape>)
    requires CallOk(call)
    ensures r == CallShape(call)
  {
    if call.rank == 0 {
      return Some([]);
    } else if call.elemental {
      var i := 0;
      while i < |call.arguments|
        invariant 0 <= i <= |call.arguments| && FirstRanked(call.arguments, 0) == FirstRanked(call.arguments, i)
      {
        var arg := call.arguments[i];
        if arg.Some? && arg.value.rank > 0 {
          return arg.value.shape;
        }
        i := i + 1;
      }
      return None;
    }
    match call.proc
    case ProcSymbol(symbol) => {
      r := GetEntityShape(symbol);
    }
    case SpecificIntrinsic(name) => {
      if name == "shape" || name == "lbound" || name == "ubound" {
        return Some([Some(Const(call.arguments[0].value.rank))]);
      } else if name == "reshape" {
        if |call.arguments| >= 2 && call.arguments[1].Some? {
          return call.arguments[1].value.valueAsShape;
        }
      }
      return None;
    }
  }

  /** SHAPE, LBOUND and UBOUND of an argument of rank n have shape [n]. */
  lemma BoundInquiryShape(call: ProcedureRef)
    requires CallOk(call) && call.rank > 0 && !call.elemental
    requires call.proc.SpecificIntrinsic? && IsBoundInquiry(call.proc.name)
    ensures CallShape(call) == Some([Some(Const(call.arguments[0].value.rank))])
    ensures |CallShape(call).value| == 1
  {
  }

  /** Expressions that are always scalar, and the null pointer, which is not an object. */
  datatype ScalarLeaf = StructureConstructor | ImpliedDoIndex | DescriptorInquiry | BozLiteral | NullPointer

  function LeafShape(leaf: ScalarLeaf): (r: Option<Shape>)
    ensures leaf != NullPointer <==> r == Some([])
    ensures leaf == NullPointer <==> r.None?
  {
    if leaf == NullPointer then None else Some([])
  }

  // ---------------------------------------------------------------- conformance

  datatype ShapeMessage =
    | RankMismatch(leftDesc: string, leftRank: nat, rightDesc: string, rightRank: nat)
    | ExtentMismatch(dimension: nat, leftDesc: string, leftExtent: int, rightDesc: string, rightExtent: int)

  /** Dimension j of two shapes has known extents that differ. */
  predicate Differ(left: Shape, right: Shape, j: nat)
    requires j < |left| && j < |right|
  {
    ToInt64(left[j]).Some? && ToInt64(right[j]).Some? && ToInt64(left[j]).value != ToInt64(right[j]).value
  }

  /** The first dimension from j on where two shapes of one rank differ. */
  function FirstDiffer(left: Shape, right: Shape, j: nat): (r: Option<nat>)
    requires |left| == |right| && j <= |left|
    ensures r.Some? ==> j <= r.value < |left| && Differ(left, right, r.value)
    ensures r.Some? ==> forall k :: j <= k < r.value ==> !Differ(left, right, k)
    ensures r.None? ==> forall k :: j <= k < |left| ==> !Differ(left, right, k)
    decreases |left| - j
  {
    if j == |left| then None
    else if Differ(left, right, j) then Some(j)
    else FirstDiffer(left, right, j + 1)
  }

  /**
   * CheckConformance: shapes conform when either is scalar; otherwise
   * their ranks must agree (one message when they do not), and every
   * dimension where both extents are known constants must agree (one
   * message, citing the first such dimension counted from 1).  Returns the
   * verdict and the messages said.
   */
  method CheckConformance(left: Shape, right: Shape, leftDesc: string, rightDesc: string)
    returns (ok: bool, said: seq<ShapeMessage>)
    ensures left == [] || right == [] ==> ok && said == []
    ensures left != [] && right != [] && |left| != |right| ==>
      !ok && said == [RankMismatch(leftDesc, |left|, rightDesc, |right|)]
    ensures left != [] && |left| == |right| ==>
      (ok <==> forall j :: 0 <= j < |left| ==> !Differ(left, right, j))
    ensures left != [] && |left| == |right| && !ok ==>
      var j := FirstDiffer(left, right, 0).value;
      said == [ExtentMismatch(j + 1, leftDesc, ToInt64(left[j]).value, rightDesc, ToInt64(right[j]).value)]
    ensures ok ==> said == []
  {
    if left != [] && right != [] {
      var n := |left|;
      var rn := |right|;
      if n != rn {
        return false, [RankMismatch(leftDesc, n, rightDesc, rn)];
      }
      var j := 0;
      while j < n
        invariant 0 <= j <= n && FirstDiffer(left, right, 0) == FirstDiffer(left, right, j)
      {
        var leftDim := ToInt64(left[j]);
        if leftDim.Some? {
          var rightDim := ToInt64(right[j]);
          if rightDim.Some? {
            if leftDim.value != rightDim.value {
              return false, [ExtentMismatch(j + 1, leftDesc, leftDim.value, rightDesc, rightDim.value)];
            }
          }
        }
        j := j + 1;
      }
    }
    return true, [];
  }
}
