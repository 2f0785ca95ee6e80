/**
 * Typed expressions and the tools that build them: an expression of one
 * specific type (category and kind), wrapped in a category layer
 * (Expr<SomeKind<C>>) and a generic layer (Expr<SomeType>); operators that
 * combine operands of one type; explicit conversions; and kind promotion,
 * which converts the operand of smaller kind to the larger kind before
 * combining.
 *
 * The C++ template parameters become run-time fields: the category and
 * kind of an expression are computed by TypeOf, and the static guarantee
 * that an operation's operands share one type becomes the predicate
 * WellTyped, which every builder here preserves.
 */
module EvaluateTools {

  datatype TypeCategory = Integer | Real | Complex | Character | Logical | Derived

  /** A specific intrinsic type: a category and a kind. */
  datatype DynType = DynType(category: TypeCategory, kind: int)

  datatype Operator = AddOp | SubtractOp | MultiplyOp | DivideOp

  /**
   * An expression of a specific type.  Constants and variables are the
   * leaves; a Convert node's operand may have any category (it stands for
   * the operand wrapped in its category layer).
   */
  datatype Expr =
    | Constant(constType: DynType, value: int)
    | Variable(varType: DynType, name: string)
    | Negate(operand: Expr)
    | Binary(op: Operator, left: Expr, right: Expr)
    | Convert(to: DynType, operand: Expr)
    | ComplexComponent(isImaginary: bool, operand: Expr)
    | ComplexConstructor(complexKind: int, re: Expr, im: Expr)

  /** The type of an expression. */
  function TypeOf(e: Expr): DynType {
    match e
    case Constant(t, _) => t
    case Variable(t, _) => t
    case Negate(x) => TypeOf(x)
    case Binary(_, x, _) => TypeOf(x)
    case Convert(to, _) => to
    case ComplexComponent(_, x) => DynType(Real, TypeOf(x).kind)
    case ComplexConstructor(k, _, _) => DynType(Complex, k)
  }

  /**
   * Operands of every operation are of one type, a complex component is
   * taken of a COMPLEX operand, and a complex constructor combines two
   * REAL parts of its kind.
   */
  predicate WellTyped(e: Expr) {
    match e
    case Constant(_, _) => true
    case Variable(_, _) => true
    case Negate(x) => WellTyped(x)
    case Binary(_, x, y) => WellTyped(x) && WellTyped(y) && TypeOf(x) == TypeOf(y)
    case Convert(_, x) => WellTyped(x)
    case ComplexComponent(_, x) => WellTyped(x) && TypeOf(x).category == Complex
    case ComplexConstructor(k, re, im) =>
      WellTyped(re) && WellTyped(im) && TypeOf(re) == DynType(Real, k) && TypeOf(im) == DynType(Real, k)
  }

  /** Expr<SomeKind<C>>: an expression of some kind of category C. */
  datatype CategoryExpr = CategoryExpr(category: TypeCategory, inner: Expr)

  /** Expr<SomeType>: an expression of any intrinsic type. */
  datatype GenericExpr = GenericExpr(categoryExpr: CategoryExpr)

  predicate ValidCategoryExpr(x: CategoryExpr) {
    TypeOf(x.inner).category == x.category && WellTyped(x.inner)
  }

  predicate ValidGenericExpr(x: GenericExpr) {
    ValidCategoryExpr(x.categoryExpr)
  }

  function KindOf(x: CategoryExpr): int {
    TypeOf(x.inner).kind
  }

  // ---------------------------------------------------------------- same-type operators

  /** Unary minus of a specific type. */
  function Neg(x: Expr): (r: Expr)
    ensures TypeOf(r) == TypeOf(x) && (WellTyped(r) <==> WellTyped(x))
  {
    Negate(x)
  }

  /** +, -, * and / on two operands of one specific type. */
  function Combine(op: Operator, x: Expr, y: Expr): (r: Expr)
    requires TypeOf(x) == TypeOf(y)
    ensures TypeOf(r) == TypeOf(x) && (WellTyped(r) <==> WellTyped(x) && WellTyped(y))
  {
    Binary(op, x, y)
  }

  /** Unary minus of a category expression: the operation of the operand's own kind. */
  function CategoryNeg(x: CategoryExpr): (r: CategoryExpr)
    ensures r.category == x.category && TypeOf(r.inner) == TypeOf(x.inner)
    ensures ValidCategoryExpr(x) ==> ValidCategoryExpr(r)
  {
    CategoryExpr(x.category, Neg(x.inner))
  }

  /** A binary operator on two category expressions of one kind. */
  function CategoryCombine(op: Operator, x: CategoryExpr, y: CategoryExpr): (r: CategoryExpr)
    requires TypeOf(x.inner) == TypeOf(y.inner)
    ensures r.category == x.category && TypeOf(r.inner) == TypeOf(x.inner)
    ensures ValidCategoryExpr(x) && ValidCategoryExpr(y) ==> ValidCategoryExpr(r)
  {
    CategoryExpr(x.category, Combine(op, x.inner, y.inner))
  }

  // ---------------------------------------------------------------- packagers

  /** AsCategoryExpr: wraps a specific-kind expression in its category layer. */
  function AsCategoryExpr(x: Expr): (r: CategoryExpr)
    ensures r.inner == x && r.category == TypeOf(x).category
    ensures ValidCategoryExpr(r) <==> WellTyped(x)
  {
    CategoryExpr(TypeOf(x).category, x)
  }

  /** AsGenericExpr of a specific-kind expression: two wrapper layers, the inner expression untouched. */
  function AsGenericExpr(x: Expr): (r: GenericExpr)
    ensures r.categoryExpr.inner == x && r.categoryExpr.category == TypeOf(x).category
    ensures ValidGenericExpr(r) <==> WellTyped(x)
  {
    GenericExpr(AsCategoryExpr(x))
  }

  /** A scalar value of a specific type. */
  datatype Scalar = Scalar(scalarType: DynType, value: int)

  /** AsCategoryExpr and AsGenericExpr of a scalar: a constant, wrapped. */
  function ScalarAsGenericExpr(s: Scalar): (r: GenericExpr)
    ensures ValidGenericExpr(r) && TypeOf(r.categoryExpr.inner) == s.scalarType
    ensures r.categoryExpr.inner == Constant(s.scalarType, s.value)
  {
    AsGenericExpr(Constant(s.scalarType, s.value))
  }

  // ---------------------------------------------------------------- conversions

  /** ConvertToType<TO>: an explicit conversion node. */
  function ConvertToType(to: DynType, x: CategoryExpr): (r: Expr)
    ensures TypeOf(r) == to && (WellTyped(r) <==> WellTyped(x.inner))
    ensures r.Convert? && r.operand == x.inner
  {
    Convert(to, x.inner)
  }

  /** ConvertTo(to, from) for a specific-kind `to`: `from` converted to the type of `to`. */
  function ConvertTo(to: Expr, from: Expr): (r: Expr)
    ensures TypeOf(r) == TypeOf(to) && r.Convert? && r.operand == from
    ensures WellTyped(r) <==> WellTyped(from)
  {
    ConvertToType(TypeOf(to), AsCategoryExpr(from))
  }

  /** ConvertTo(to, from) for a category `to`: the conversion, wrapped in the category layer of `to`. */
  function ConvertToCategory(to: CategoryExpr, from: Expr): (r: CategoryExpr)
    requires ValidCategoryExpr(to)
    ensures r.category == to.category && TypeOf(r.inner) == TypeOf(to.inner) && r.inner == Convert(TypeOf(to.inner), from)
    ensures ValidCategoryExpr(r) <==> WellTyped(from)
  {
    AsCategoryExpr(ConvertToType(TypeOf(to.inner), AsCategoryExpr(from)))
  }

  /** ConvertTo(to, from) for a generic `to`: the conversion, wrapped in both layers. */
  function ConvertToGeneric(to: GenericExpr, from: Expr): (r: GenericExpr)
    requires ValidGenericExpr(to)
    ensures TypeOf(r.categoryExpr.inner) == TypeOf(to.categoryExpr.inner)
    ensures r.categoryExpr.inner == Convert(TypeOf(to.categoryExpr.inner), from)
    ensures ValidGenericExpr(r) <==> WellTyped(from)
  {
    GenericExpr(ConvertToCategory(to.categoryExpr, from))
  }

  /** An expression of category C whose specific-kind alternative is replaced in place. */
  class SomeKindExpr {
    const category: TypeCategory
    var u: Expr

    predicate Valid()
      reads this
    {
      TypeOf(u).category == category && WellTyped(u)
    }

    constructor (u: Expr)
      ensures this.u == u && category == TypeOf(u).category
    {
      this.u := u;
      category := TypeOf(u).category;
    }
  }

  function Max(a: int, b: int): int {
    if a >= b then a else b
  }

  /**
   * ConvertToSameKind: of two expressions of one category, the one of
   * smaller kind is replaced by its conversion to the other's kind; equal
   * kinds leave both alone.  Afterwards both have the larger kind.
   */
  method ConvertToSameKind(x: SomeKindExpr, y: SomeKindExpr)
    requires x.Valid() && y.Valid() && x.category == y.category
    modifies x, y
    ensures x.Valid() && y.Valid()
    ensures TypeOf(x.u) == TypeOf(y.u) == DynType(x.category, Max(TypeOf(old(x.u)).kind, TypeOf(old(y.u)).kind))
    ensures TypeOf(old(x.u)).kind < TypeOf(old(y.u)).kind ==>
      x.u == Convert(TypeOf(old(y.u)), old(x.u)) && y.u == old(y.u)
    ensures TypeOf(old(x.u)).kind > TypeOf(old(y.u)).kind ==>
      y.u == Convert(TypeOf(old(x.u)), old(y.u)) && x.u == old(x.u)
    ensures TypeOf(old(x.u)).kind == TypeOf(old(y.u)).kind ==> x.u == old(x.u) && y.u == old(y.u)
  {
    var xt, yt := TypeOf(x.u), TypeOf(y.u);
    if xt.kind < yt.kind {
      x.u := Convert(yt, x.u);
    } else if xt.kind > yt.kind {
      y.u := Convert(xt, y.u);
    }
  }

  // ---------------------------------------------------------------- EnsureKind and promotion

  /**
   * EnsureKind<TO>: an expression already of type TO is returned as it is;
   * a COMPLEX one of another kind is rebuilt from its real and imaginary
   * parts, each converted to the REAL of TO's kind; any other gets one
   * Convert node.
   */
  function EnsureKind(to: DynType, x: CategoryExpr): (r: Expr)
    requires ValidCategoryExpr(x) && x.category == to.category
    ensures TypeOf(r) == to && WellTyped(r)
    ensures TypeOf(x.inner) == to ==> r == x.inner
    ensures TypeOf(x.inner) != to && to.category != Complex ==> r == Convert(to, x.inner)
    ensures TypeOf(x.inner) != to && to.category == Complex ==>
      r.ComplexConstructor? && r.complexKind == to.kind &&
      r.re == Convert(DynType(Real, to.kind), ComplexComponent(false, x.inner)) &&
      r.im == Convert(DynType(Real, to.kind), ComplexComponent(true, x.inner))
  {
    if TypeOf(x.inner) == to then x.inner
    else if to.category == Complex then
      var part := DynType(Real, to.kind);
      ComplexConstructor(to.kind, Convert(part, ComplexComponent(false, x.inner)),
                                  Convert(part, ComplexComponent(true, x.inner)))
    else Convert(to, x.inner)
  }

  /** EnsureKind is idempotent: a second application changes nothing. */
  lemma EnsureKindIdempotent(to: DynType, x: CategoryExpr)
    requires ValidCategoryExpr(x) && x.category == to.category
    ensures EnsureKind(to, AsCategoryExpr(EnsureKind(to, x))) == EnsureKind(to, x)
  {
    var once := EnsureKind(to, x);
    assert TypeOf(once) == to;
  }

  /**
   * PromoteAndCombine: the operation at the larger of the two kinds, each
   * operand brought to that kind by EnsureKind, wrapped in the category
   * layer.
   */
  function PromoteAndCombine(op: Operator, x: CategoryExpr, y: CategoryExpr): (r: CategoryExpr)
    requires ValidCategoryExpr(x) && ValidCategoryExpr(y) && x.category == y.category
    ensures ValidCategoryExpr(r) && r.category == x.category
    ensures TypeOf(r.inner) == DynType(x.category, Max(KindOf(x), KindOf(y)))
    ensures r.inner.Binary? && r.inner.op == op
    ensures KindOf(x) >= KindOf(y) ==> r.inner.left == x.inner
    ensures KindOf(y) >= KindOf(x) ==> r.inner.right == y.inner
    ensures KindOf(x) < KindOf(y) && x.category != Complex ==> r.inner.left == Convert(TypeOf(y.inner), x.inner)
    ensures KindOf(y) < KindOf(x) && x.category != Complex ==> r.inner.right == Convert(TypeOf(x.inner), y.inner)
    ensures KindOf(x) < KindOf(y) && x.category == Complex ==>
      var k := KindOf(y);
      r.inner.left == ComplexConstructor(k, Convert(DynType(Real, k), ComplexComponent(false, x.inner)),
                                            Convert(DynType(Real, k), ComplexComponent(true, x.inner)))
    ensures KindOf(y) < KindOf(x) && x.category == Complex ==>
      var k := KindOf(x);
      r.inner.right == ComplexConstructor(k, Convert(DynType(Real, k), ComplexComponent(false, y.inner)),
                                             Convert(DynType(Real, k), ComplexComponent(true, y.inner)))
  {
    var to := DynType(x.category, Max(KindOf(x), KindOf(y)));
    AsCategoryExpr(Binary(op, EnsureKind(to, x), EnsureKind(to, y)))
  }

  /** INTEGER(4) + INTEGER(8): the kind-4 operand alone is converted, to INTEGER(8). */
  lemma PromoteIntegerKinds(a: string, b: string)
    ensures var i4, i8 := Variable(DynType(Integer, 4), a), Variable(DynType(Integer, 8), b);
      PromoteAndCombine(AddOp, AsCategoryExpr(i4), AsCategoryExpr(i8)) ==
        CategoryExpr(Integer, Binary(AddOp, Convert(DynType(Integer, 8), i4), i8))
  {
    var i4, i8 := Variable(DynType(Integer, 4), a), Variable(DynType(Integer, 8), b);
    assert KindOf(AsCategoryExpr(i4)) == 4 && KindOf(AsCategoryExpr(i8)) == 8;
  }
}
