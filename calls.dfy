/**
 * Actual arguments and procedure references of the expression evaluator.
 * An actual argument holds either an expression or, when a TYPE(*) dummy
 * argument is forwarded, that dummy's symbol; beside it sit an optional
 * keyword, the alternate-return and passed-object flags and the intent of
 * the dummy it is associated with.  Expressions are left abstract (the
 * type parameter E).
 */
module Calls {
  import opened Wrappers

  /** A symbol; two symbols are the same only if they are the same object. */
  class Symbol {
    const name: string
    /** Whether the symbol has the ELEMENTAL attribute. */
    const elemental: bool

    constructor (n: string, isElemental: bool)
      ensures name == n && elemental == isElemental
    {
      name, elemental := n, isElemental;
    }
  }

  /** The intent of a dummy argument. */
  datatype Intent = Default | In | Out | InOut

  /** A TYPE(*) dummy argument forwarded as an actual argument. */
  datatype AssumedType = AssumedType(symbol: Symbol)

  /** AssumedType::operator==: the two refer to one and the same symbol object. */
  function AssumedTypeEquals(a: AssumedType, b: AssumedType): (r: bool)
    ensures r <==> a.symbol == b.symbol
  {
    a == b
  }

  /** Same-named symbols that are distinct objects make distinct assumed types. */
  lemma AssumedTypeIsByIdentity(a: AssumedType, b: AssumedType)
    requires a.symbol.name == b.symbol.name && a.symbol != b.symbol
    ensures !AssumedTypeEquals(a, b)
  {
  }

  /** The alternatives of ActualArgument::u_. */
  datatype ArgumentValue<E> = Expression(expr: E) | Assumed(assumed: AssumedType)

  class ActualArgument<E> {
    var u: ArgumentValue<E>
    var keyword: Option<string>
    var isAlternateReturn: bool
    var isPassedObject: bool
    var dummyIntent: Intent

    /** The fields other than u hold their initial values. */
    predicate Fresh()
      reads this
    {
      keyword == None && !isAlternateReturn && !isPassedObject && dummyIntent == Default
    }

    /** ActualArgument(Expr&&): an argument that is an expression. */
    constructor FromExpr(x: E)
      ensures u == Expression(x) && Fresh()
    {
      u := Expression(x);
      keyword, isAlternateReturn, isPassedObject, dummyIntent := None, false, false, Default;
    }

    /** ActualArgument(AssumedType): a forwarded TYPE(*) dummy. */
    constructor FromAssumedType(a: AssumedType)
      ensures u == Assumed(a) && Fresh()
    {
      u := Assumed(a);
      keyword, isAlternateReturn, isPassedObject, dummyIntent := None, false, false, Default;
    }

    /** UnwrapExpr(): the expression, or null when u holds an AssumedType. */
    function UnwrapExpr(): (r: Option<E>)
      reads this
      ensures r.Some? <==> u.Expression?
      ensures r.Some? ==> u == Expression(r.value)
    {
      match u
      case Expression(x) => Some(x)
      case Assumed(_) => None
    }

    /** GetAssumedTypeDummy(): the dummy's symbol, or null when u holds an expression. */
    function GetAssumedTypeDummy(): (r: Option<Symbol>)
      reads this
      ensures r.Some? <==> u.Assumed?
      ensures r.Some? ==> u == Assumed(AssumedType(r.value))
    {
      match u
      case Expression(_) => None
      case Assumed(a) => Some(a.symbol)
    }

    method SetKeyword(x: string)
      modifies this
      ensures keyword == Some(x)
      ensures u == old(u) && isAlternateReturn == old(isAlternateReturn)
      ensures isPassedObject == old(isPassedObject) && dummyIntent == old(dummyIntent)
    {
      keyword := Some(x);
    }

    /** set_isAlternateReturn(): there is no way to clear the flag. */
    method SetIsAlternateReturn()
      modifies this
      ensures isAlternateReturn
      ensures u == old(u) && keyword == old(keyword)
      ensures isPassedObject == old(isPassedObject) && dummyIntent == old(dummyIntent)
    {
      isAlternateReturn := true;
    }

    /** set_isPassedObject(yes = true). */
    method SetIsPassedObject(yes: bool := true)
      modifies this
      ensures isPassedObject == yes
      ensures u == old(u) && keyword == old(keyword)
      ensures isAlternateReturn == old(isAlternateReturn) && dummyIntent == old(dummyIntent)
    {
      isPassedObject := yes;
    }

    /** set_dummyIntent(intent): returns the argument itself. */
    method SetDummyIntent(intent: Intent) returns (r: ActualArgument<E>)
      modifies this
      ensures r == this
      ensures dummyIntent == intent
      ensures u == old(u) && keyword == old(keyword)
      ensures isAlternateReturn == old(isAlternateReturn) && isPassedObject == old(isPassedObject)
    {
      dummyIntent := intent;
      r := this;
    }
  }

  /** Exactly one of UnwrapExpr() and GetAssumedTypeDummy() is non-null. */
  lemma ExactlyOneAlternative<E>(a: ActualArgument<E>)
    ensures a.UnwrapExpr().Some? != a.GetAssumedTypeDummy().Some?
  {
  }

  /**
   * Marks a fresh argument as a passed object with intent IN: the argument
   * keeps its expression, is not an alternate return and has no keyword.
   */
  method PassedObjectArgument<E>(x: E) returns (keyword: Option<string>, alternate: bool, passed: bool, intent: Intent, held: Option<E>)
    ensures keyword == None && !alternate && passed && intent == In && held == Some(x)
  {
    var a := new ActualArgument.FromExpr(x);
    a.SetIsPassedObject();
    var same := a.SetDummyIntent(In);
    keyword, alternate, passed, intent, held := same.keyword, same.isAlternateReturn, same.isPassedObject, same.dummyIntent, same.UnwrapExpr();
  }

  /** A specific intrinsic procedure; whether it is elemental comes from its characteristics. */
  datatype SpecificIntrinsic = SpecificIntrinsic(name: string, elemental: bool)

  /** ProcedureDesignator::u: an intrinsic, a symbol, or a component whose symbol names the procedure. */
  datatype ProcedureDesignator =
    | Intrinsic(intrinsic: SpecificIntrinsic)
    | SymbolDesignator(symbol: Symbol)
    | ComponentDesignator(componentSymbol: Symbol)
  {
    function GetSpecificIntrinsic(): (r: Option<SpecificIntrinsic>)
      ensures r.Some? <==> Intrinsic?
    {
      if Intrinsic? then Some(intrinsic) else None
    }

    /** GetSymbol(): the symbol, or the component's symbol. */
    function GetSymbol(): (r: Option<Symbol>)
      ensures r.Some? <==> !Intrinsic?
    {
      match this
      case Intrinsic(_) => None
      case SymbolDesignator(s) => Some(s)
      case ComponentDesignator(s) => Some(s)
    }

    /** IsElemental(): the intrinsic's characteristics, or the symbol's ELEMENTAL attribute. */
    function IsElemental(): (r: bool)
      ensures Intrinsic? ==> (r <==> intrinsic.elemental)
      ensures !Intrinsic? ==> (r <==> GetSymbol().value.elemental)
    {
      match this
      case Intrinsic(i) => i.elemental
      case SymbolDesignator(s) => s.elemental
      case ComponentDesignator(s) => s.elemental
    }
  }

  /** Exactly one of GetSpecificIntrinsic() and GetSymbol() is non-null. */
  lemma DesignatorHasOneReferent(p: ProcedureDesignator)
    ensures p.GetSpecificIntrinsic().Some? != p.GetSymbol().Some?
  {
  }

  class ProcedureRef<E> {
    var proc: ProcedureDesignator
    var arguments: seq<Option<ActualArgument<E>>>

    constructor (p: ProcedureDesignator, a: seq<Option<ActualArgument<E>>>)
      ensures proc == p && arguments == a
    {
      proc, arguments := p, a;
    }

    /** IsElemental(): the designator's answer. */
    function IsElemental(): (r: bool)
      reads this
      ensures r <==> proc.IsElemental()
    {
      proc.IsElemental()
    }
  }
}
