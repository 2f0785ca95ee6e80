/**
 * The operands of an intrinsic REAL operation or of the CMPLX()
 * constructor: both must be INTEGER or REAL, and are converted to one kind
 * of REAL.  Two INTEGER operands become default REAL; an INTEGER operand
 * beside a REAL one takes the REAL one's kind; of two REAL operands the one
 * of smaller kind is converted to the larger.  Any other pair is an error,
 * reported through the caller's message sink.
 */
module RealOperands {
  import opened Wrappers
  import opened EvaluateTools

  /** The kind of default REAL. */
  const DefaultRealKind: int := 4

  const OperandsMessage: string := "operands must be INTEGER or REAL"

  /** The caller's message sink, to which diagnostics are appended. */
  class Messages {
    var said: seq<string>

    constructor ()
      ensures said == []
    {
      said := [];
    }

    method Say(message: string)
      modifies this
      ensures said == old(said) + [message]
    {
      said := said + [message];
    }
  }

  /**
   * ConvertToTypeOf as written: the result is built from `to` alone, a
   * conversion of `to` to its own kind, and `from` plays no part.
   */
  function ConvertToTypeOfAsWritten(to: CategoryExpr, from: CategoryExpr): (r: CategoryExpr)
    requires ValidCategoryExpr(to) && to.category == Real
    ensures ValidCategoryExpr(r) && TypeOf(r.inner) == TypeOf(to.inner)
    ensures r.inner == Convert(TypeOf(to.inner), to.inner)
  {
    AsCategoryExpr(Convert(TypeOf(to.inner), to.inner))
  }

  /** The as-written result is the same whatever `from` is: the INTEGER operand is lost. */
  lemma ConvertToTypeOfAsWrittenIgnoresFrom(r8: string, i4: string)
    ensures var to := AsCategoryExpr(Variable(DynType(Real, 8), r8));
      var from := AsCategoryExpr(Variable(DynType(Integer, 4), i4));
      ConvertToTypeOfAsWritten(to, from) == ConvertToTypeOfAsWritten(to, AsCategoryExpr(Constant(DynType(Integer, 4), 0))) &&
      ConvertToTypeOfAsWritten(to, from).inner.operand != from.inner &&
      ConvertToTypeOf(to, from).inner.operand == from.inner
  {
  }

  /** ConvertToTypeOf as evidently intended: `from` converted to the kind of `to`. */
  function ConvertToTypeOf(to: CategoryExpr, from: CategoryExpr): (r: CategoryExpr)
    requires ValidCategoryExpr(to) && to.category == Real
    ensures TypeOf(r.inner) == TypeOf(to.inner) && r.category == Real
    ensures r.inner == Convert(TypeOf(to.inner), from.inner)
    ensures ValidCategoryExpr(r) <==> WellTyped(from.inner)
  {
    ConvertToCategory(to, from.inner)
  }

  /**
   * ConvertToSameRealKind: of two REAL expressions, the one of smaller kind
   * is replaced in place by its conversion to the other's kind.
   */
  method ConvertToSameRealKind(x: SomeKindExpr, y: SomeKindExpr)
    requires x.Valid() && y.Valid() && x.category == Real && y.category == Real
    modifies x, y
    ensures x.Valid() && y.Valid()
    ensures TypeOf(x.u) == TypeOf(y.u) == DynType(Real, Max(TypeOf(old(x.u)).kind, TypeOf(old(y.u)).kind))
    ensures TypeOf(old(x.u)).kind < TypeOf(old(y.u)).kind ==>
      x.u == Convert(TypeOf(old(y.u)), old(x.u)) && y.u == old(y.u)
    ensures TypeOf(old(x.u)).kind > TypeOf(old(y.u)).kind ==>
      y.u == Convert(TypeOf(old(x.u)), old(y.u)) && x.u == old(x.u)
    ensures TypeOf(old(x.u)).kind == TypeOf(old(y.u)).kind ==> x.u == old(x.u) && y.u == old(y.u)
  {
    var kindDiff := TypeOf(x.u).kind - TypeOf(y.u).kind;
    if kindDiff < 0 {
      x.u := Convert(TypeOf(y.u), x.u);
    } else if kindDiff > 0 {
      y.u := Convert(TypeOf(x.u), y.u);
    }
  }

  /** The pure reading of ConvertToSameRealKind, for use in specifications. */
  function SameRealKind(x: Expr, y: Expr): (Expr, Expr) {
    if TypeOf(x).kind < TypeOf(y).kind then (Convert(TypeOf(y), x), y)
    else if TypeOf(x).kind > TypeOf(y).kind then (x, Convert(TypeOf(x), y))
    else (x, y)
  }

  /** The pair ConvertRealOperands yields, or None when it reports an error. */
  function RealOperandsOf(x: GenericExpr, y: GenericExpr): Option<(CategoryExpr, CategoryExpr)>
    requires ValidGenericExpr(x) && ValidGenericExpr(y)
  {
    var cx, cy := x.categoryExpr, y.categoryExpr;
    match (cx.category, cy.category)
    case (Integer, Integer) =>
      var defaultReal := DynType(Real, DefaultRealKind);
      Some((AsCategoryExpr(Convert(defaultReal, cx.inner)), AsCategoryExpr(Convert(defaultReal, cy.inner))))
    case (Integer, Real) => Some((ConvertToTypeOf(cy, cx), cy))
    case (Real, Integer) => Some((cx, ConvertToTypeOf(cx, cy)))
    case (Real, Real) =>
      var pair := SameRealKind(cx.inner, cy.inner);
      Some((AsCategoryExpr(pair.0), AsCategoryExpr(pair.1)))
    case _ => None
  }

  /**
   * RealOperandsOf with ConvertToTypeOf as written: in the mixed cases the
   * INTEGER operand is replaced by the REAL one converted to its own kind.
   */
  function RealOperandsOfAsWritten(x: GenericExpr, y: GenericExpr): Option<(CategoryExpr, CategoryExpr)>
    requires ValidGenericExpr(x) && ValidGenericExpr(y)
  {
    var cx, cy := x.categoryExpr, y.categoryExpr;
    match (cx.category, cy.category)
    case (Integer, Real) => Some((ConvertToTypeOfAsWritten(cy, cx), cy))
    case (Real, Integer) => Some((cx, ConvertToTypeOfAsWritten(cx, cy)))
    case _ => RealOperandsOf(x, y)
  }

  /**
   * As written, the pair for an INTEGER and a REAL operand is built from the
   * REAL operand alone, whatever the INTEGER one is; the corrected pair
   * converts the INTEGER operand itself.
   */
  lemma MixedOperandLostAsWritten(i: GenericExpr, x: GenericExpr, j: GenericExpr)
    requires ValidGenericExpr(i) && ValidGenericExpr(x) && ValidGenericExpr(j)
    requires i.categoryExpr.category == Integer && j.categoryExpr.category == Integer
    requires x.categoryExpr.category == Real
    ensures RealOperandsOfAsWritten(i, x) == RealOperandsOfAsWritten(j, x)
    ensures RealOperandsOfAsWritten(i, x).value.0.inner == Convert(TypeOf(x.categoryExpr.inner), x.categoryExpr.inner)
    ensures RealOperandsOf(i, x).value.0.inner == Convert(TypeOf(x.categoryExpr.inner), i.categoryExpr.inner)
  {
  }

  /**
   * Whenever ConvertRealOperands succeeds, both results are REAL of one
   * kind: default REAL for two INTEGERs, the REAL operand's kind beside an
   * INTEGER, the larger kind for two REALs; and a REAL operand of that kind
   * passes through unchanged.  It fails exactly when an operand is neither
   * INTEGER nor REAL.
   */
  lemma RealOperandsAgree(x: GenericExpr, y: GenericExpr)
    requires ValidGenericExpr(x) && ValidGenericExpr(y)
    ensures var cx, cy := x.categoryExpr, y.categoryExpr;
      RealOperandsOf(x, y).None? <==>
        !(cx.category in {Integer, Real}) || !(cy.category in {Integer, Real})
    ensures var r := RealOperandsOf(x, y);
      r.Some? ==>
        ValidCategoryExpr(r.value.0) && ValidCategoryExpr(r.value.1) &&
        r.value.0.category == Real && TypeOf(r.value.0.inner) == TypeOf(r.value.1.inner)
    ensures var cx, cy, r := x.categoryExpr, y.categoryExpr, RealOperandsOf(x, y);
      (cx.category == Integer && cy.category == Integer ==> KindOf(r.value.0) == DefaultRealKind) &&
      (cx.category == Integer && cy.category == Real ==> r.value.1 == cy && KindOf(r.value.0) == KindOf(cy)) &&
      (cx.category == Real && cy.category == Integer ==> r.value.0 == cx && KindOf(r.value.1) == KindOf(cx)) &&
      (cx.category == Real && cy.category == Real ==> KindOf(r.value.0) == Max(KindOf(cx), KindOf(cy)))
  {
  }

  /**
   * ConvertRealOperands: the converted pair, or None after saying
   * "operands must be INTEGER or REAL" exactly once.
   */
  method ConvertRealOperands(messages: Messages, x: GenericExpr, y: GenericExpr)
    returns (r: Option<(CategoryExpr, CategoryExpr)>)
    requires ValidGenericExpr(x) && ValidGenericExpr(y)
    modifies messages
    ensures r == RealOperandsOf(x, y)
    ensures messages.said == old(messages.said) + (if r.None? then [OperandsMessage] else [])
  {
    var cx, cy := x.categoryExpr, y.categoryExpr;
    if cx.category == Integer && cy.category == Integer {
      var defaultReal := DynType(Real, DefaultRealKind);
      r := Some((AsCategoryExpr(Convert(defaultReal, cx.inner)), AsCategoryExpr(Convert(defaultReal, cy.inner))));
    } else if cx.category == Integer && cy.category == Real {
      var rx := ConvertToTypeOf(cy, cx);
      r := Some((rx, cy));
    } else if cx.category == Real && cy.category == Integer {
      var ry := ConvertToTypeOf(cx, cy);
      r := Some((cx, ry));
    } else if cx.category == Real && cy.category == Real {
      var rx := new SomeKindExpr(cx.inner);
      var ry := new SomeKindExpr(cy.inner);
      ConvertToSameRealKind(rx, ry);
      r := Some((AsCategoryExpr(rx.u), AsCategoryExpr(ry.u)));
    } else {
      messages.Say(OperandsMessage);
      r := None;
    }
  }

  /** The overload on optional operands: None, and no message, when either is absent. */
  method ConvertOptionalRealOperands(messages: Messages, x: Option<GenericExpr>, y: Option<GenericExpr>)
    returns (r: Option<(CategoryExpr, CategoryExpr)>)
    requires x.Some? ==> ValidGenericExpr(x.value)
    requires y.Some? ==> ValidGenericExpr(y.value)
    modifies messages
    ensures x.None? || y.None? ==> r.None? && messages.said == old(messages.said)
    ensures x.Some? && y.Some? ==> r == RealOperandsOf(x.value, y.value)
    ensures x.Some? && y.Some? ==>
      messages.said == old(messages.said) + (if r.None? then [OperandsMessage] else [])
  {
    if x.Some? && y.Some? {
      r := ConvertRealOperands(messages, x.value, y.value);
    } else {
      r := None;
    }
  }
}
