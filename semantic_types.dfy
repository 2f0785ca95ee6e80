/**
 * Semantic representations of Fortran types: type-parameter checking for a
 * derived-type specification, the interned integer constants, the
 * validation that the data-component and procedure-component constructors
 * perform, the builder of derived-type definitions, and the textual form of
 * bounds, shape specifications and CHARACTER type specifications.
 *
 * A CHECK or die() whose condition is the outcome being checked (the type
 * parameters, the component attributes) is modelled as an outcome the
 * caller can observe (None, or a ParamCheck naming the offending
 * parameter).  One the caller has to guarantee (an assumed lower bound
 * comes with an assumed upper bound, in the shape-spec output) is a
 * precondition instead.
 */
module SemanticTypes {
  import opened Wrappers

  type Name = string

  /** The attributes that type.cc consults (the full set lives in attr.h). */
  datatype Attr =
    | Public | Private | Allocatable | Pointer | Contiguous | NoPass | Pass
    | Abstract | BindC | Parameter | Save | Target | External | Intrinsic
    | Optional | Value | Volatile | Asynchronous | Protected

  // ---------------------------------------------------------------- type parameters

  /** A KIND or LEN type-parameter definition, with or without a default value. */
  datatype TypeParamDef = TypeParamDef(name: Name, hasDefault: bool)

  /** The outcome of checkParams: valid, or the die() message it stops with. */
  datatype ParamCheck =
    | ParamsValid
    | NoValue(kindOrLen: string, name: Name)        // no value or default value for %s parameter '%s'
    | InvalidParam(kindOrLen: string, name: Name)   // invalid %s parameter '%s'

  function DefNames(defs: seq<TypeParamDef>): set<Name> {
    set i | 0 <= i < |defs| :: defs[i].name
  }

  /** Definition i needs a value and none is given. */
  predicate Missing<V>(defs: seq<TypeParamDef>, values: map<Name, V>, i: nat)
    requires i < |defs|
  {
    !defs[i].hasDefault && defs[i].name !in values
  }

  /** The first definition from i on that needs a value and has none. */
  function FirstMissing<V>(defs: seq<TypeParamDef>, values: map<Name, V>, i: nat): (r: Option<nat>)
    requires i <= |defs|
    ensures r.Some? ==> i <= r.value < |defs| && Missing(defs, values, r.value)
    ensures r.Some? ==> forall k :: i <= k < r.value ==> !Missing(defs, values, k)
    ensures r.None? ==> forall k :: i <= k < |defs| ==> !Missing(defs, values, k)
    decreases |defs| - i
  {
    if i == |defs| then None
    else if Missing(defs, values, i) then Some(i)
    else FirstMissing(defs, values, i + 1)
  }

  /** What checkParams accepts: every definition without a default has a value, and every value names a definition. */
  predicate Accepted<V>(defs: seq<TypeParamDef>, values: map<Name, V>) {
    (forall i :: 0 <= i < |defs| ==> !Missing(defs, values, i)) && values.Keys <= DefNames(defs)
  }

  /**
   * A failure of checkParams for kindOrLen, as it is reported: the first
   * missing definition when there is one, else a value naming no definition.
   */
  predicate Rejection<V>(r: ParamCheck, kindOrLen: string, defs: seq<TypeParamDef>, values: map<Name, V>) {
    r != ParamsValid && r.kindOrLen == kindOrLen &&
    (r.NoValue? <==> FirstMissing(defs, values, 0).Some?) &&
    (r.NoValue? ==> r.name == defs[FirstMissing(defs, values, 0).value].name) &&
    (r.InvalidParam? ==> r.name in values && r.name !in DefNames(defs))
  }

  /**
   * checkParams: every definition without a default has a value, and every
   * value names a definition.  The first definition, in declaration order,
   * that lacks a value is reported before any invalid name.
   */
  method CheckParams<V>(kindOrLen: string, defs: seq<TypeParamDef>, values: map<Name, V>)
    returns (r: ParamCheck)
    ensures r == ParamsValid <==> Accepted(defs, values)
    ensures FirstMissing(defs, values, 0).Some? <==> r.NoValue?
    ensures r.NoValue? ==> r == NoValue(kindOrLen, defs[FirstMissing(defs, values, 0).value].name)
    ensures r.InvalidParam? ==>
      r.kindOrLen == kindOrLen && r.name in values && r.name !in DefNames(defs)
  {
    var validNames: set<Name> := {};
    var i := 0;
    while i < |defs|
      invariant 0 <= i <= |defs|
      invariant validNames == set k | 0 <= k < i :: defs[k].name
      invariant FirstMissing(defs, values, 0) == FirstMissing(defs, values, i)
    {
      var def := defs[i];
      validNames := validNames + {def.name};
      if !def.hasDefault && def.name !in values {
        return NoValue(kindOrLen, def.name);
      }
      i := i + 1;
    }
    assert validNames == DefNames(defs);
    var rest := values.Keys;
    while rest != {}
      invariant rest <= values.Keys
      invariant forall n :: n in values.Keys && n !in rest ==> n in validNames
      decreases rest
    {
      var n :| n in rest;
      if n !in validNames {
        return InvalidParam(kindOrLen, n);
      }
      rest := rest - {n};
    }
    return ParamsValid;
  }

  /** A derived-type definition, as far as its type parameters matter here. */
  datatype DerivedTypeDef = DerivedTypeDef(data: DerivedTypeData)

  /** The DerivedTypeSpec constructor checks the KIND values, then the LEN values. */
  method CheckDerivedTypeSpec<K, L>(def: DerivedTypeDef, kindValues: map<Name, K>, lenValues: map<Name, L>)
    returns (r: ParamCheck)
    ensures r == ParamsValid <==>
      Accepted(def.data.kindParams, kindValues) && Accepted(def.data.lenParams, lenValues)
    ensures !Accepted(def.data.kindParams, kindValues) ==>
      Rejection(r, "kind", def.data.kindParams, kindValues)
    ensures Accepted(def.data.kindParams, kindValues) && !Accepted(def.data.lenParams, lenValues) ==>
      Rejection(r, "len", def.data.lenParams, lenValues)
  {
    r := CheckParams("kind", def.data.kindParams, kindValues);
    if r == ParamsValid {
      r := CheckParams("len", def.data.lenParams, lenValues);
    }
  }

  // ---------------------------------------------------------------- interned constants

  /** An integer constant expression; identity matters, the cache hands out one per value. */
  class IntConst {
    const value: int

    constructor (value: int)
      ensures this.value == value
    {
      this.value := value;
    }
  }

  /** The cache behind IntConst::make. */
  class IntConstCache {
    var cache: map<int, IntConst>

    /** Every cached constant holds its key. */
    predicate Valid()
      reads this
    {
      forall v :: v in cache ==> cache[v].value == v
    }

    constructor ()
      ensures Valid() && cache == map[]
    {
      cache := map[];
    }

    /**
     * IntConst::make: the cached constant for a value made before, else a
     * fresh one, added to the cache.  Nothing is ever removed.
     */
    method Make(value: int) returns (r: IntConst)
      requires Valid()
      modifies this
      ensures Valid()
      ensures r.value == value && value in cache && cache[value] == r
      ensures value in old(cache) ==> r == old(cache[value]) && cache == old(cache)
      ensures value !in old(cache) ==> fresh(r) && cache == old(cache)[value := r]
    {
      if value !in cache {
        var c := new IntConst(value);
        cache := cache[value := c];
      }
      r := cache[value];
    }
  }

  /** Two requests for one value yield the very same object. */
  method MakeTwice(c: IntConstCache, value: int) returns (first: IntConst, second: IntConst)
    requires c.Valid()
    modifies c
    ensures first == second && first.value == value
    ensures c.Valid() && old(c.cache).Keys <= c.cache.Keys
  {
    first := c.Make(value);
    second := c.Make(value);
  }

  // ---------------------------------------------------------------- bounds and shape specs

  /**
   * A bound of an array dimension: '*', ':', or an explicit specification
   * expression, which the model carries as its rendered text.
   */
  datatype Bound = AssumedBound | DeferredBound | ExplicitBound(text: string)

  /**
   * A shape spec lb:ub.  A deferred shape has a deferred lower bound, an
   * explicit shape an explicit upper bound.
   */
  datatype ShapeSpec = ShapeSpec(lb: Bound, ub: Bound) {
    predicate IsDeferred() { lb.DeferredBound? }
    predicate IsExplicit() { ub.ExplicitBound? }
  }

  /** The text of a bound. */
  function RenderBound(b: Bound): (r: string)
    ensures WellFormedBound(b) ==> (r == "*" <==> b.AssumedBound?) && (r == ":" <==> b.DeferredBound?)
  {
    match b
    case AssumedBound => "*"
    case DeferredBound => ":"
    case ExplicitBound(text) => text
  }

  /** An explicit bound's text cannot be confused with '*', ':' or an omitted side. */
  predicate WellFormedBound(b: Bound) {
    b.ExplicitBound? ==> b.text != "" && b.text != "*" && ':' !in b.text
  }

  /** The text of a shape spec: ".." for assumed rank; else lb ':' ub, each deferred side omitted. */
  function RenderShapeSpec(s: ShapeSpec): (r: string)
    requires s.lb.AssumedBound? ==> s.ub.AssumedBound?
    ensures r == ".." <==> s.lb.AssumedBound?
    ensures !s.lb.AssumedBound? ==> ':' in r
  {
    if s.lb.AssumedBound? then ".."
    else
      var left := if s.lb.DeferredBound? then "" else RenderBound(s.lb);
      var text := left + ":" + (if s.ub.DeferredBound? then "" else RenderBound(s.ub));
      assert text[|left|] == ':';
      text
  }

  /** The position of the first c in s, or |s|. */
  function IndexOf(s: string, c: char): (r: nat)
    ensures r <= |s| && (r < |s| ==> s[r] == c)
    ensures forall k :: 0 <= k < r ==> s[k] != c
  {
    if s == [] then 0
    else if s[0] == c then 0
    else 1 + IndexOf(s[1..], c)
  }

  /** One side of a rendered shape spec. */
  function ParseSide(text: string): Bound {
    if text == "" then DeferredBound
    else if text == "*" then AssumedBound
    else ExplicitBound(text)
  }

  /** Reads a shape spec back from its text. */
  function ParseShapeSpec(text: string): Option<ShapeSpec> {
    if text == ".." then Some(ShapeSpec(AssumedBound, AssumedBound))
    else
      var i := IndexOf(text, ':');
      if i == |text| then None
      else Some(ShapeSpec(ParseSide(text[..i]), ParseSide(text[i + 1..])))
  }

  lemma {:induction false} IndexOfFirst(left: string, right: string, c: char)
    requires c !in left
    ensures IndexOf(left + [c] + right, c) == |left|
    decreases |left|
  {
    if left != [] {
      assert (left + [c] + right)[1..] == left[1..] + [c] + right;
      IndexOfFirst(left[1..], right, c);
    }
  }

  /** Rendering loses nothing: a well-formed shape spec is read back from its text. */
  lemma ShapeSpecRoundTrip(s: ShapeSpec)
    requires s.lb.AssumedBound? ==> s.ub.AssumedBound?
    requires WellFormedBound(s.lb) && WellFormedBound(s.ub)
    ensures ParseShapeSpec(RenderShapeSpec(s)) == Some(s)
  {
    if !s.lb.AssumedBound? {
      var left := if s.lb.DeferredBound? then "" else RenderBound(s.lb);
      var right := if s.ub.DeferredBound? then "" else RenderBound(s.ub);
      var text := left + ":" + right;
      assert text == left + [':'] + right;
      IndexOfFirst(left, right, ':');
      assert text[..|left|] == left;
      assert text[|left| + 1..] == right;
      assert text != "..";
    }
  }

  // ---------------------------------------------------------------- CHARACTER

  /** The kind of CHARACTER when none is written. */
  const DefaultCharacterKind: int := 0

  function DigitChar(d: nat): char
    requires d < 10
  {
    "0123456789"[d]
  }

  predicate AllDigits(s: string) {
    forall i :: 0 <= i < |s| ==> '0' <= s[i] <= '9'
  }

  /** The decimal digits of n, most significant first. */
  function Digits(n: nat): (s: string)
    ensures |s| >= 1 && AllDigits(s)
  {
    if n < 10 then [DigitChar(n)] else Digits(n / 10) + [DigitChar(n % 10)]
  }

  /** The value of a string of decimal digits. */
  function DigitsValue(s: string): nat
    requires AllDigits(s)
  {
    if s == [] then 0 else 10 * DigitsValue(s[..|s| - 1]) + (s[|s| - 1] as int - '0' as int)
  }

  lemma {:induction false} DigitsRoundTrip(n: nat)
    ensures DigitsValue(Digits(n)) == n
  {
    if n >= 10 {
      DigitsRoundTrip(n / 10);
      var s := Digits(n);
      assert s[..|s| - 1] == Digits(n / 10);
    }
  }

  /** How an integer is written to a stream. */
  function Decimal(k: int): string {
    if k < 0 then "-" + Digits(-k) else Digits(k)
  }

  /** CHARACTER(len) or, for a kind other than the default, CHARACTER(len, kind). */
  function RenderCharacterTypeSpec(len: string, kind: int): (r: string)
    ensures |r| >= 11 && r[..10] == "CHARACTER(" && r[|r| - 1] == ')'
  {
    "CHARACTER(" + len + (if kind != DefaultCharacterKind then ", " + Decimal(kind) else "") + ")"
  }

  /**
   * Reads a CHARACTER type spec back from its text: the length runs up to
   * the first comma, and a kind, when present, follows ", ".
   */
  function ParseCharacterTypeSpec(text: string): Option<(string, int)> {
    if |text| < 11 || text[..10] != "CHARACTER(" || text[|text| - 1] != ')' then None
    else ParseLengthAndKind(text[10..|text| - 1])
  }

  /** The text between the parentheses: a length, then optionally ", " and a kind. */
  function ParseLengthAndKind(inner: string): Option<(string, int)> {
    var i := IndexOf(inner, ',');
    if i == |inner| then Some((inner, DefaultCharacterKind))
    else if i + 2 <= |inner| && AllDigits(inner[i + 2..]) then Some((inner[..i], DigitsValue(inner[i + 2..])))
    else None
  }

  lemma ParseParenthesized(inner: string)
    ensures ParseCharacterTypeSpec("CHARACTER(" + inner + ")") == ParseLengthAndKind(inner)
  {
    var text := "CHARACTER(" + inner + ")";
    assert text[..10] == "CHARACTER(";
    assert text[10..|text| - 1] == inner;
  }

  /**
   * Rendering loses nothing: the length (free of commas) and a
   * non-negative kind are read back, and the ", kind" part appears only for
   * a kind other than the default.
   */
  lemma CharacterTypeSpecRoundTrip(len: string, kind: nat)
    requires ',' !in len
    ensures ParseCharacterTypeSpec(RenderCharacterTypeSpec(len, kind)) == Some((len, kind))
  {
    if kind == DefaultCharacterKind {
      assert RenderCharacterTypeSpec(len, kind) == "CHARACTER(" + len + ")";
      ParseParenthesized(len);
      IndexOfAbsent(len, ',');
    } else {
      var digits := Digits(kind);
      var inner := len + [','] + (" " + digits);
      assert RenderCharacterTypeSpec(len, kind) == "CHARACTER(" + inner + ")";
      ParseParenthesized(inner);
      IndexOfFirst(len, " " + digits, ',');
      assert inner[..|len|] == len;
      assert inner[|len| + 2..] == digits;
      DigitsRoundTrip(kind);
    }
  }

  /** For a length free of commas, the text has a comma exactly when the kind is not the default one. */
  lemma CharacterKindShownIff(len: string, kind: int)
    requires ',' !in len
    ensures ',' in RenderCharacterTypeSpec(len, kind) <==> kind != DefaultCharacterKind
  {
    var text := RenderCharacterTypeSpec(len, kind);
    if kind != DefaultCharacterKind {
      assert text[10 + |len|] == ',';
    } else {
      assert text == "CHARACTER(" + len + ")";
      forall k | 0 <= k < |text|
        ensures text[k] != ','
      {
        if 10 <= k < 10 + |len| {
          assert text[k] == len[k - 10];
        }
      }
    }
  }

  lemma {:induction false} IndexOfAbsent(s: string, c: char)
    requires c !in s
    ensures IndexOf(s, c) == |s|
  {
    if s != [] {
      IndexOfAbsent(s[1..], c);
    }
  }

  // ---------------------------------------------------------------- components

  /** The type of a component; its rendering is not part of this model. */
  datatype DeclTypeSpec =
    | IntrinsicType(name: string)
    | TypeDerived(name: Name)
    | ClassDerived(name: Name)
    | TypeStar
    | ClassStar

  datatype DataComponentDef = DataComponentDef(declType: DeclTypeSpec, name: Name, attrs: set<Attr>,
                                               arraySpec: seq<ShapeSpec>)

  const DataComponentAttrs: set<Attr> := {Public, Private, Allocatable, Pointer, Contiguous}

  /**
   * What the DataComponentDef constructor accepts: only the component
   * attributes; every dimension deferred for an allocatable or pointer
   * component and explicit otherwise.
   */
  predicate DataComponentAllowed(attrs: set<Attr>, arraySpec: seq<ShapeSpec>) {
    attrs <= DataComponentAttrs &&
    (Allocatable in attrs || Pointer in attrs ==> forall i :: 0 <= i < |arraySpec| ==> arraySpec[i].IsDeferred()) &&
    (Allocatable !in attrs && Pointer !in attrs ==> forall i :: 0 <= i < |arraySpec| ==> arraySpec[i].IsExplicit())
  }

  /** The DataComponentDef constructor; None where it aborts. */
  method NewDataComponentDef(declType: DeclTypeSpec, name: Name, attrs: set<Attr>, arraySpec: seq<ShapeSpec>)
    returns (r: Option<DataComponentDef>)
    ensures r.Some? <==> DataComponentAllowed(attrs, arraySpec)
    ensures r.Some? ==> r.value == DataComponentDef(declType, name, attrs, arraySpec)
  {
    if !(attrs <= DataComponentAttrs) {
      return None;
    }
    var deferred := Allocatable in attrs || Pointer in attrs;
    var i := 0;
    while i < |arraySpec|
      invariant 0 <= i <= |arraySpec|
      invariant deferred ==> forall k :: 0 <= k < i ==> arraySpec[k].IsDeferred()
      invariant !deferred ==> forall k :: 0 <= k < i ==> arraySpec[k].IsExplicit()
    {
      if deferred && !arraySpec[i].IsDeferred() {
        return None;
      }
      if !deferred && !arraySpec[i].IsExplicit() {
        return None;
      }
      i := i + 1;
    }
    return Some(DataComponentDef(declType, name, attrs, arraySpec));
  }

  datatype ProcComponentDef = ProcComponentDef(decl: Name, attrs: set<Attr>, interfaceName: Option<Name>,
                                               typeSpec: Option<DeclTypeSpec>)

  const ProcComponentAttrs: set<Attr> := {Public, Private, NoPass, Pointer, Pass}

  /**
   * The ProcComponentDef constructor: a procedure component is a pointer,
   * has only procedure-component attributes, and names an interface or a
   * type, not both.  None where it aborts.
   */
  function NewProcComponentDef(decl: Name, attrs: set<Attr>, interfaceName: Option<Name>,
                               typeSpec: Option<DeclTypeSpec>): (r: Option<ProcComponentDef>)
    ensures r.Some? <==>
      Pointer in attrs && attrs <= ProcComponentAttrs && !(interfaceName.Some? && typeSpec.Some?)
    ensures r.Some? ==>
      r.value.decl == decl && r.value.attrs == attrs &&
      r.value.interfaceName == interfaceName && r.value.typeSpec == typeSpec
  {
    if Pointer !in attrs then None
    else if exists a :: a in attrs && a !in ProcComponentAttrs then None
    else if interfaceName.Some? && typeSpec.Some? then None
    else Some(ProcComponentDef(decl, attrs, interfaceName, typeSpec))
  }

  // ---------------------------------------------------------------- the builder

  /** DerivedTypeDef::Data. */
  datatype DerivedTypeData = DerivedTypeData(
    name: Name,
    extendsType: Option<Name>,
    attrs: set<Attr>,
    lenParams: seq<TypeParamDef>,
    kindParams: seq<TypeParamDef>,
    dataComps: seq<DataComponentDef>,
    procComps: seq<ProcComponentDef>,
    isPrivate: bool,
    sequence: bool)

  const DerivedTypeAttrs: set<Attr> := {Abstract, Public, Private, BindC}

  /** DerivedTypeDefBuilder: each method sets or extends one part of the definition. */
  class DerivedTypeDefBuilder {
    var data: DerivedTypeData

    constructor (name: Name)
      ensures data == DerivedTypeData(name, None, {}, [], [], [], [], false, false)
    {
      data := DerivedTypeData(name, None, {}, [], [], [], [], false, false);
    }

    method Extends(x: Name)
      modifies this
      ensures data == old(data).(extendsType := Some(x))
    {
      data := data.(extendsType := Some(x));
    }

    /** attr(): unions in one attribute without validating it. */
    method AddAttr(x: Attr)
      modifies this
      ensures data == old(data).(attrs := old(data.attrs) + {x})
    {
      data := data.(attrs := data.attrs + {x});
    }

    /** attrs(): only Abstract, Public, Private and BindC pass; false (and no change) where it aborts. */
    method AddAttrs(x: set<Attr>) returns (ok: bool)
      modifies this
      ensures ok <==> x <= DerivedTypeAttrs
      ensures ok ==> data == old(data).(attrs := old(data.attrs) + x)
      ensures !ok ==> data == old(data)
    {
      ok := x <= DerivedTypeAttrs;
      if ok {
        data := data.(attrs := data.attrs + x);
      }
    }

    method LenParam(x: TypeParamDef)
      modifies this
      ensures data == old(data).(lenParams := old(data.lenParams) + [x])
    {
      data := data.(lenParams := data.lenParams + [x]);
    }

    method KindParam(x: TypeParamDef)
      modifies this
      ensures data == old(data).(kindParams := old(data.kindParams) + [x])
    {
      data := data.(kindParams := data.kindParams + [x]);
    }

    method DataComponent(x: DataComponentDef)
      modifies this
      ensures data == old(data).(dataComps := old(data.dataComps) + [x])
    {
      data := data.(dataComps := data.dataComps + [x]);
    }

    method ProcComponent(x: ProcComponentDef)
      modifies this
      ensures data == old(data).(procComps := old(data.procComps) + [x])
    {
      data := data.(procComps := data.procComps + [x]);
    }

    method SetPrivate(x: bool)
      modifies this
      ensures data == old(data).(isPrivate := x)
    {
      data := data.(isPrivate := x);
    }

    /** sequence(x): x defaults to true, as the call sequence() with no argument at type.cc:347 relies on. */
    method Sequence(x: bool := true)
      modifies this
      ensures data == old(data).(sequence := x)
    {
      data := data.(sequence := x);
    }
  }

  /** Building a type with two data components keeps them in the order they were added. */
  method BuildTwoComponents(name: Name, first: DataComponentDef, second: DataComponentDef)
    returns (def: DerivedTypeDef)
    ensures def.data.name == name && def.data.dataComps == [first, second]
    ensures def.data.procComps == [] && def.data.attrs == {}
  {
    var b := new DerivedTypeDefBuilder(name);
    b.DataComponent(first);
    b.DataComponent(second);
    def := DerivedTypeDef(b.data);
  }
}
