/**
 * Name resolution for one program unit at a time: the IMPLICIT typing
 * rules of a scope (section 8.7 of ISO/IEC 1539-1:2018, Fortran 2018),
 * the checks on the order of IMPLICIT, IMPLICIT NONE and PARAMETER
 * statements, and the updates that declarations make to a scope's symbol
 * table.
 *
 * A scope's symbol table maps each name to its attributes and details;
 * diagnostics go to one shared message list, appended in the order they
 * are emitted.
 */
module ResolveNames {
  import opened Wrappers

  /** Names as they come out of the parser: never empty. */
  type Name = s: string | |s| > 0 witness "a"

  datatype TypeCategory = Integer | Real | Complex | Character | Logical
  datatype KindParam = DefaultKind | Kind(value: int)

  /** A declaration-type-spec. */
  datatype DeclTypeSpec =
    | IntrinsicType(category: TypeCategory, kind: KindParam)
    | DerivedType(typeName: string)
    | ClassStar
    | TypeStar

  const DefaultInteger: DeclTypeSpec := IntrinsicType(Integer, DefaultKind)
  const DefaultReal: DeclTypeSpec := IntrinsicType(Real, DefaultKind)

  datatype Attr =
    | Abstract | Allocatable | Asynchronous | BindC | Contiguous | Elemental
    | External | Impure | IntentIn | IntentInOut | IntentOut | Intrinsic
    | Module | NonRecursive | NoPass | Optional | Parameter | Pass | Pointer
    | Private | Protected | Public | Pure | Recursive | Save | Target | Value
    | Volatile

  /** The details a symbol carries; Unknown until a declaration says more. */
  datatype Details =
    | Unknown
    | Entity(declType: Option<DeclTypeSpec>, isDummy: bool)
    | Subprogram(dummies: seq<Name>, result: Option<Name>)
    | MainProgram

  datatype Symbol = Symbol(attrs: set<Attr>, details: Details)

  datatype Message =
    | MoreThanOneImplicitType(letter: char)
    | DoesNotFollowAlphabetically(hi: char, lo: char)
    | ImplicitAfterImplicitNoneType
    | MoreThanOneImplicitNone
    | ImplicitNoneAfterParameter
    | ImplicitNoneAfterImplicit
    | ImplicitNoneTypeAfterImplicit
    | TypeSpecifiedMoreThanOnce
    | ExternalSpecifiedMoreThanOnce
    | AlreadyDeclared(name: Name)
    | PreviousDeclaration(name: Name)
    | AlreadyHasType(name: Name)
    | NoExplicitType(name: Name)

  /** The message list shared by the visitor and every ImplicitRules it owns. */
  class MessageSink {
    var messages: seq<Message>

    constructor ()
      ensures messages == []
    {
      messages := [];
    }
  }

  /** The values of a C++ char, seen as unsigned. */
  predicate IsChar(c: char) {
    c as int < 256
  }

  predicate IsLetter(c: char) {
    'a' <= c <= 'z'
  }

  /** The lower-case letters a .. z. */
  function Letters(): (r: set<char>)
    ensures forall c :: c in r <==> IsLetter(c)
  {
    set c: char | IsLetter(c)
  }

  /**
   * Incr: the letter after ch, written so that it would also skip the gaps
   * of EBCDIC after 'i' and 'r'; 'z' is followed by '\0', which ends a walk.
   * Any other character is followed by ch + 1 in 8-bit arithmetic.
   */
  function Incr(ch: char): (r: char)
    requires IsChar(ch)
    ensures IsChar(r)
    ensures ch == 'z' || ch as int == 255 ==> r == '\0'
    ensures ch != 'z' && ch as int < 255 ==> r as int == ch as int + 1
  {
    match ch
    case 'i' => 'j'
    case 'r' => 's'
    case 'z' => '\0'
    case _ => if ch as int == 255 then '\0' else (ch as int + 1) as char
  }

  function WalkMeasure(ch: char): nat
    requires IsChar(ch)
  {
    if ch == '\0' then 0 else 256 - ch as int
  }

  /**
   * The characters SetType visits from lo: lo, Incr(lo), ... up to and
   * including hi, or up to the '\0' that follows 'z' when hi is never met.
   */
  function Walk(ch: char, hi: char): (r: seq<char>)
    requires IsChar(ch)
    decreases WalkMeasure(ch)
  {
    if ch == '\0' then []
    else if ch == hi then [ch]
    else [ch] + Walk(Incr(ch), hi)
  }

  /** One step of a walk: ch, then the walk from Incr(ch) unless ch is hi. */
  lemma WalkStep(visited: seq<char>, ch: char, hi: char)
    requires IsChar(ch) && ch != '\0'
    ensures visited + Walk(ch, hi) ==
      (visited + [ch]) + (if ch == hi then [] else Walk(Incr(ch), hi))
  {
  }

  /** A walk never goes below where it starts. */
  lemma {:induction false} WalkAbove(ch: char, hi: char)
    requires IsChar(ch)
    ensures forall c :: c in Walk(ch, hi) ==> ch <= c
    decreases WalkMeasure(ch)
  {
    if ch != '\0' && ch != hi {
      WalkAbove(Incr(ch), hi);
    }
  }

  /** A walk never visits a character twice: it climbs strictly. */
  lemma {:induction false} WalkIncreases(ch: char, hi: char)
    requires IsChar(ch)
    ensures forall i, j :: 0 <= i < j < |Walk(ch, hi)| ==> Walk(ch, hi)[i] < Walk(ch, hi)[j]
    decreases WalkMeasure(ch)
  {
    if ch != '\0' && ch != hi {
      var rest := Walk(Incr(ch), hi);
      WalkIncreases(Incr(ch), hi);
      WalkAbove(Incr(ch), hi);
      assert rest != [] ==> ch < Incr(ch);
      assert forall j :: 0 <= j < |rest| ==> rest[j] in rest;
    }
  }

  /** A walk between letters in order visits exactly the letters lo .. hi. */
  lemma {:induction false} WalkIsLetterRange(lo: char, hi: char)
    requires IsLetter(lo) && IsLetter(hi) && lo <= hi
    ensures forall c :: c in Walk(lo, hi) <==> lo <= c <= hi
    decreases hi as int - lo as int
  {
    if lo != hi {
      WalkIsLetterRange(Incr(lo), hi);
    }
  }

  /** With hi before lo the walk runs on from lo to the end of the alphabet. */
  lemma {:induction false} WalkPastHiRunsToZ(lo: char, hi: char)
    requires IsLetter(lo) && IsLetter(hi) && hi < lo
    ensures forall c :: c in Walk(lo, hi) <==> lo <= c <= 'z'
    decreases 'z' as int - lo as int
  {
    if lo != 'z' {
      WalkPastHiRunsToZ(Incr(lo), hi);
    } else {
      assert Walk(lo, hi) == [lo] + Walk('\0', hi);
    }
  }

  /**
   * The map after emplacing (letter, t) for each letter in turn: a letter
   * already bound keeps its type.
   */
  function Bind(m: map<char, DeclTypeSpec>, letters: seq<char>, t: DeclTypeSpec): map<char, DeclTypeSpec>
  {
    if letters == [] then m
    else
      var before := Bind(m, letters[..|letters| - 1], t);
      var last := letters[|letters| - 1];
      if last in before then before else before[last := t]
  }

  /**
   * The "More than one implicit type" messages of those emplacements: one
   * for each letter found already bound when its turn came.
   */
  function Rebound(m: map<char, DeclTypeSpec>, letters: seq<char>, t: DeclTypeSpec): seq<Message>
  {
    if letters == [] then []
    else
      var init := letters[..|letters| - 1];
      var last := letters[|letters| - 1];
      Rebound(m, init, t) + if last in Bind(m, init, t) then [MoreThanOneImplicitType(last)] else []
  }

  lemma BindSnoc(m: map<char, DeclTypeSpec>, letters: seq<char>, c: char, t: DeclTypeSpec)
    ensures Bind(m, letters + [c], t) ==
      var b := Bind(m, letters, t); if c in b then b else b[c := t]
    ensures Rebound(m, letters + [c], t) ==
      Rebound(m, letters, t) + if c in Bind(m, letters, t) then [MoreThanOneImplicitType(c)] else []
  {
    assert (letters + [c])[..|letters|] == letters;
  }

  /**
   * Binding never overwrites: every old binding survives unchanged, the
   * letters are added, and a newly bound letter gets t.
   */
  lemma {:induction false} BindKeepsBindings(m: map<char, DeclTypeSpec>, letters: seq<char>, t: DeclTypeSpec)
    ensures forall c :: c in Bind(m, letters, t) <==> c in m || c in letters
    ensures forall c :: c in m ==> Bind(m, letters, t)[c] == m[c]
    ensures forall c :: c in letters && c !in m ==> Bind(m, letters, t)[c] == t
  {
    if letters != [] {
      var init := letters[..|letters| - 1];
      BindKeepsBindings(m, init, t);
      assert letters == init + [letters[|letters| - 1]];
    }
  }

  /** Letters in strictly increasing order, as a walk visits them. */
  ghost predicate Increasing(letters: seq<char>) {
    forall i, j :: 0 <= i < j < |letters| ==> letters[i] < letters[j]
  }

  /** Dropping the last of increasing letters leaves increasing letters, none of them the last. */
  lemma IncreasingInit(letters: seq<char>)
    requires letters != [] && Increasing(letters)
    ensures Increasing(letters[..|letters| - 1])
    ensures letters[|letters| - 1] !in letters[..|letters| - 1]
  {
    var init := letters[..|letters| - 1];
    forall i | 0 <= i < |init| ensures init[i] == letters[i] {
    }
  }

  /**
   * Over letters that are all different, exactly one message for each
   * letter that was bound before, and none for the others.
   */
  lemma {:induction false} ReboundOncePerBoundLetter(m: map<char, DeclTypeSpec>, letters: seq<char>,
                                                     t: DeclTypeSpec, c: char)
    requires Increasing(letters)
    ensures multiset(Rebound(m, letters, t))[MoreThanOneImplicitType(c)] ==
      if c in letters && c in m then 1 else 0
  {
    if letters != [] {
      var init := letters[..|letters| - 1];
      var last := letters[|letters| - 1];
      IncreasingInit(letters);
      ReboundOncePerBoundLetter(m, init, t, c);
      ReboundLast(m, init, last, t, c);
      assert letters == init + [last];
    }
  }

  /** The message the last of distinct letters adds: one for c exactly when c is that letter and was bound. */
  lemma ReboundLast(m: map<char, DeclTypeSpec>, init: seq<char>, last: char, t: DeclTypeSpec, c: char)
    requires last !in init
    ensures multiset(Rebound(m, init + [last], t))[MoreThanOneImplicitType(c)] ==
      multiset(Rebound(m, init, t))[MoreThanOneImplicitType(c)] + if c == last && last in m then 1 else 0
  {
    BindSnoc(m, init, last, t);
    BindKeepsBindings(m, init, t);
    var extra := if last in m then [MoreThanOneImplicitType(last)] else [];
    assert Rebound(m, init + [last], t) == Rebound(m, init, t) + extra;
  }

  /** The implicit rules after AddDefaultRules: i .. n INTEGER and every other unbound letter REAL. */
  function WithDefaults(m: map<char, DeclTypeSpec>): (r: map<char, DeclTypeSpec>)
    ensures forall c :: c in r <==> c in m || IsLetter(c)
    ensures forall c :: c in m ==> r[c] == m[c]
  {
    map c | c in m.Keys + Letters() ::
      if c in m then m[c] else if 'i' <= c <= 'n' then DefaultInteger else DefaultReal
  }

  /** The default rules at one letter: what WithDefaults says, for one c. */
  lemma DefaultsAt(m0: map<char, DeclTypeSpec>, c: char)
    ensures var m1 := Bind(m0, Walk('i', 'n'), DefaultInteger);
      var m2 := Bind(m1, Walk('a', 'z'), DefaultReal);
      (c in m2 <==> c in m0 || IsLetter(c)) &&
      (c in m2 ==> m2[c] == if c in m0 then m0[c] else if 'i' <= c <= 'n' then DefaultInteger else DefaultReal)
  {
    var m1 := Bind(m0, Walk('i', 'n'), DefaultInteger);
    WalkIsLetterRange('i', 'n');
    WalkIsLetterRange('a', 'z');
    BindKeepsBindings(m0, Walk('i', 'n'), DefaultInteger);
    BindKeepsBindings(m1, Walk('a', 'z'), DefaultReal);
  }

  /** Binding i .. n to INTEGER and then a .. z to REAL yields WithDefaults. */
  lemma DefaultsAreBound(m0: map<char, DeclTypeSpec>)
    ensures Bind(Bind(m0, Walk('i', 'n'), DefaultInteger), Walk('a', 'z'), DefaultReal) == WithDefaults(m0)
  {
    var m2 := Bind(Bind(m0, Walk('i', 'n'), DefaultInteger), Walk('a', 'z'), DefaultReal);
    var w := WithDefaults(m0);
    forall c ensures (c in m2 <==> c in w) && (c in m2 ==> m2[c] == w[c]) {
      DefaultsAt(m0, c);
    }
  }

  /**
   * The loop of SetType over the map and the messages: from lo, emplace
   * (ch, type) and report a letter already bound, until hi or the '\0'
   * after 'z'.
   */
  method EmplaceWalk(m: map<char, DeclTypeSpec>, said: seq<Message>, t: DeclTypeSpec, lo: char, hi: char,
                     isDefault: bool)
    returns (types: map<char, DeclTypeSpec>, messages: seq<Message>)
    requires IsChar(lo)
    ensures types == Bind(m, Walk(lo, hi), t)
    ensures messages == said + if isDefault then [] else Rebound(m, Walk(lo, hi), t)
  {
    types, messages := m, said;
    var ch := lo;
    ghost var visited: seq<char> := [];
    while ch != '\0'
      invariant IsChar(ch)
      invariant Walk(lo, hi) == visited + Walk(ch, hi)
      invariant types == Bind(m, visited, t)
      invariant isDefault ==> messages == said
      invariant !isDefault ==> messages == said + Rebound(m, visited, t)
      decreases WalkMeasure(ch)
    {
      BindSnoc(m, visited, ch, t);
      WalkStep(visited, ch, hi);
      if ch !in types {
        types := types[ch := t];
      } else if !isDefault {
        messages := messages + [MoreThanOneImplicitType(ch)];
        assert messages == said + (Rebound(m, visited, t) + [MoreThanOneImplicitType(ch)]);
      }
      visited := visited + [ch];
      if ch == hi {
        break;
      }
      ch := Incr(ch);
    }
    assert Walk(lo, hi) == visited;
  }

  /**
   * The implicit typing rules of one scope: a map from initial letter to
   * type, and the IMPLICIT NONE flags.
   */
  class ImplicitRules {
    const sink: MessageSink
    var isImplicitNoneType: bool
    var isImplicitNoneExternal: bool
    var types: map<char, DeclTypeSpec>

    constructor (sink: MessageSink)
      ensures this.sink == sink
      ensures !isImplicitNoneType && !isImplicitNoneExternal && types == map[]
    {
      this.sink := sink;
      isImplicitNoneType := false;
      isImplicitNoneExternal := false;
      types := map[];
    }

    /** GetType(ch): the type bound to ch, if any. */
    function GetType(ch: char): (r: Option<DeclTypeSpec>)
      reads this
      ensures r.Some? <==> ch in types
      ensures r.Some? ==> r.value == types[ch]
    {
      if ch in types then Some(types[ch]) else None
    }

    /**
     * SetType(type, lo, hi, isDefault): emplaces type for each character of
     * the walk from lo to hi; an existing binding is kept and, unless the
     * default rules are being applied, reported.
     */
    method SetType(t: DeclTypeSpec, lo: char, hi: char, isDefault: bool := false)
      requires IsChar(lo)
      modifies this`types, sink`messages
      ensures types == Bind(old(types), Walk(lo, hi), t)
      ensures sink.messages == old(sink.messages) +
        if isDefault then [] else Rebound(old(types), Walk(lo, hi), t)
    {
      types, sink.messages := EmplaceWalk(types, sink.messages, t, lo, hi, isDefault);
    }

    /** AddDefaultRules(): i .. n INTEGER, then a .. z REAL, neither overriding a binding. */
    method AddDefaultRules()
      modifies this`types, sink`messages
      ensures types == WithDefaults(old(types))
      ensures forall c :: IsLetter(c) ==> GetType(c).Some?
      ensures sink.messages == old(sink.messages)
    {
      SetType(DefaultInteger, 'i', 'n', true);
      SetType(DefaultReal, 'a', 'z', true);
      DefaultsAreBound(old(types));
    }
  }

  /** A name-spec of IMPLICIT NONE ( ... ). */
  datatype NoneNameSpec = NoneExternal | NoneType

  /** A letter-spec: a letter or a range lo - hi. */
  datatype LetterSpec = LetterSpec(lo: char, hi: Option<char>)

  datatype ImplicitSpec = ImplicitSpec(declType: DeclTypeSpec, letters: seq<LetterSpec>)

  datatype ImplicitStmt =
    | ImplicitNoneStmt(nameSpecs: seq<NoneNameSpec>)
    | ImplicitSpecsStmt(specs: seq<ImplicitSpec>)

  /** Every letter-spec of every implicit-spec starts at a char. */
  predicate LowsAreChars(specs: seq<ImplicitSpec>) {
    forall s, l :: s in specs && l in s.letters ==> IsChar(l.lo)
  }

  /**
   * The rules and the messages after one letter-spec under type t: a range
   * whose high letter is before its low one binds nothing and is reported;
   * otherwise the walk from lo to hi (lo alone for a single letter) is bound.
   */
  function LetterSpecRules(m: map<char, DeclTypeSpec>, t: DeclTypeSpec, l: LetterSpec)
    : (map<char, DeclTypeSpec>, seq<Message>)
    requires IsChar(l.lo)
  {
    if l.hi.Some? && l.hi.value < l.lo then (m, [DoesNotFollowAlphabetically(l.hi.value, l.lo)])
    else
      var hi := if l.hi.Some? then l.hi.value else l.lo;
      (Bind(m, Walk(l.lo, hi), t), Rebound(m, Walk(l.lo, hi), t))
  }

  /** The letter-specs of one implicit-spec, in order. */
  function LetterSpecsRules(m: map<char, DeclTypeSpec>, t: DeclTypeSpec, letters: seq<LetterSpec>)
    : (map<char, DeclTypeSpec>, seq<Message>)
    requires forall l :: l in letters ==> IsChar(l.lo)
  {
    if letters == [] then (m, [])
    else
      var done := LetterSpecsRules(m, t, letters[..|letters| - 1]);
      var last := LetterSpecRules(done.0, t, letters[|letters| - 1]);
      (last.0, done.1 + last.1)
  }

  /** The implicit-specs of an IMPLICIT statement, in order. */
  function ImplicitSpecsRules(m: map<char, DeclTypeSpec>, specs: seq<ImplicitSpec>)
    : (map<char, DeclTypeSpec>, seq<Message>)
    requires LowsAreChars(specs)
  {
    if specs == [] then (m, [])
    else
      var last := specs[|specs| - 1];
      var done := ImplicitSpecsRules(m, specs[..|specs| - 1]);
      var next := LetterSpecsRules(done.0, last.declType, last.letters);
      (next.0, done.1 + next.1)
  }

  /** A letter-spec keeps every binding and adds only letters of its walk. */
  lemma LetterSpecKeeps(m: map<char, DeclTypeSpec>, t: DeclTypeSpec, l: LetterSpec)
    requires IsChar(l.lo)
    ensures forall c :: c in m ==> c in LetterSpecRules(m, t, l).0 && LetterSpecRules(m, t, l).0[c] == m[c]
  {
    if !(l.hi.Some? && l.hi.value < l.lo) {
      BindKeepsBindings(m, Walk(l.lo, if l.hi.Some? then l.hi.value else l.lo), t);
    }
  }

  lemma {:induction false} LetterSpecsKeep(m: map<char, DeclTypeSpec>, t: DeclTypeSpec, letters: seq<LetterSpec>)
    requires forall l :: l in letters ==> IsChar(l.lo)
    ensures forall c :: c in m ==>
      c in LetterSpecsRules(m, t, letters).0 && LetterSpecsRules(m, t, letters).0[c] == m[c]
  {
    if letters != [] {
      var init := letters[..|letters| - 1];
      LetterSpecsKeep(m, t, init);
      LetterSpecKeeps(LetterSpecsRules(m, t, init).0, t, letters[|letters| - 1]);
    }
  }

  /**
   * An IMPLICIT statement never changes a rule already made: every letter
   * bound before keeps its type, whatever the specs say.
   */
  lemma {:induction false} ImplicitSpecsKeepRules(m: map<char, DeclTypeSpec>, specs: seq<ImplicitSpec>)
    requires LowsAreChars(specs)
    ensures forall c :: c in m ==>
      c in ImplicitSpecsRules(m, specs).0 && ImplicitSpecsRules(m, specs).0[c] == m[c]
  {
    if specs != [] {
      var init := specs[..|specs| - 1];
      var last := specs[|specs| - 1];
      assert LowsAreChars(init);
      ImplicitSpecsKeepRules(m, init);
      LetterSpecsKeep(ImplicitSpecsRules(m, init).0, last.declType, last.letters);
    }
  }

  /**
   * A letter-spec lo - hi with lo <= hi, or a single letter lo, leaves every
   * letter of that range bound, to t unless it was bound before.
   */
  lemma LetterSpecBindsRange(m: map<char, DeclTypeSpec>, t: DeclTypeSpec, l: LetterSpec)
    requires IsLetter(l.lo) && (l.hi.Some? ==> IsLetter(l.hi.value) && l.lo <= l.hi.value)
    ensures var hi := if l.hi.Some? then l.hi.value else l.lo;
      var r := LetterSpecRules(m, t, l).0;
      forall c :: l.lo <= c <= hi ==> c in r && (c !in m ==> r[c] == t)
  {
    var hi := if l.hi.Some? then l.hi.value else l.lo;
    WalkIsLetterRange(l.lo, hi);
    BindKeepsBindings(m, Walk(l.lo, hi), t);
  }

  /**
   * Within one statement a range given after another one is reported once
   * for each of its letters the earlier one bound: IMPLICIT INTEGER (a-c),
   * REAL (b) reports b.
   */
  lemma OverlappingSpecsReported()
    ensures ImplicitSpecsRules(map[],
      [ImplicitSpec(DefaultInteger, [LetterSpec('a', Some('c'))]),
       ImplicitSpec(DefaultReal, [LetterSpec('b', None)])]) ==
      (map['a' := DefaultInteger, 'b' := DefaultInteger, 'c' := DefaultInteger], [MoreThanOneImplicitType('b')])
  {
    var s1 := ImplicitSpec(DefaultInteger, [LetterSpec('a', Some('c'))]);
    var s2 := ImplicitSpec(DefaultReal, [LetterSpec('b', None)]);
    var abc := map['a' := DefaultInteger, 'b' := DefaultInteger, 'c' := DefaultInteger];
    assert Walk('a', 'c') == ['a', 'b', 'c'];
    assert Bind(map[], ['a', 'b', 'c'], DefaultInteger) == abc by {
      assert ['a', 'b', 'c'][..2] == ['a', 'b'];
      assert ['a', 'b'][..1] == ['a'];
    }
    assert Rebound(map[], ['a', 'b', 'c'], DefaultInteger) == [] by {
      assert ['a', 'b', 'c'][..2] == ['a', 'b'];
      assert ['a', 'b'][..1] == ['a'];
    }
    assert LetterSpecsRules(map[], DefaultInteger, s1.letters) == (abc, []) by {
      assert s1.letters[..0] == [];
    }
    assert ImplicitSpecsRules(map[], [s1]) == (abc, []) by {
      assert [s1][..0] == [];
    }
    assert Walk('b', 'b') == ['b'];
    assert ['b'][..0] == [];
    assert Bind(abc, [], DefaultReal) == abc && Rebound(abc, [], DefaultReal) == [];
    assert 'b' in abc;
    assert Bind(abc, ['b'], DefaultReal) == abc;
    assert Rebound(abc, ['b'], DefaultReal) == [MoreThanOneImplicitType('b')];
    assert LetterSpecsRules(abc, DefaultReal, s2.letters) == (abc, [MoreThanOneImplicitType('b')]) by {
      assert s2.letters[..0] == [];
    }
    assert [s1, s2][..1] == [s1];
  }

  /** The part of a list before the first occurrence of x (all of it when x is absent). */
  function Before(specs: seq<NoneNameSpec>, x: NoneNameSpec): (r: seq<NoneNameSpec>)
    ensures |r| <= |specs| && r == specs[..|r|] && x !in r
    ensures |r| < |specs| ==> specs[|r|] == x
    ensures x !in specs ==> r == specs
  {
    if specs == [] then []
    else if specs[0] == x then []
    else [specs[0]] + Before(specs[1..], x)
  }

  /** How many times x occurs in specs. */
  function Count(specs: seq<NoneNameSpec>, x: NoneNameSpec): (n: nat)
    ensures n <= |specs|
    ensures n == 0 <==> x !in specs
  {
    if specs == [] then 0
    else Count(specs[..|specs| - 1], x) + (if specs[|specs| - 1] == x then 1 else 0)
  }

  /**
   * The verdict on an IMPLICIT NONE statement given which statements came
   * before it in the scope: whether it is accepted, and the messages.
   */
  function ImplicitNoneVerdict(prevImplicit: bool, prevImplicitNone: bool, prevParameter: bool,
                               specs: seq<NoneNameSpec>): (r: (bool, seq<Message>))
    ensures r.0 <==> |r.1| == 0
    ensures |r.1| <= 1
  {
    if prevImplicitNone then (false, [MoreThanOneImplicitNone])
    else if prevParameter then (false, [ImplicitNoneAfterParameter])
    else if specs == [] then
      if prevImplicit then (false, [ImplicitNoneAfterImplicit]) else (true, [])
    else NameSpecsVerdict(prevImplicit, specs)
  }

  /** The verdict on the name-specs of an IMPLICIT NONE that is itself in place. */
  function NameSpecsVerdict(prevImplicit: bool, specs: seq<NoneNameSpec>): (r: (bool, seq<Message>))
    ensures r.0 <==> |r.1| == 0
    ensures |r.1| <= 1
  {
    if NoneType in specs && prevImplicit then (false, [ImplicitNoneTypeAfterImplicit])
    else if Count(specs, NoneType) > 1 then (false, [TypeSpecifiedMoreThanOnce])
    else if Count(specs, NoneExternal) > 1 then (false, [ExternalSpecifiedMoreThanOnce])
    else (true, [])
  }

  /**
   * IMPLICIT NONE is accepted exactly when it is the first IMPLICIT NONE
   * and comes before any PARAMETER statement, when it names TYPE (or
   * nothing) only if no IMPLICIT statement came before, and when it names
   * TYPE and EXTERNAL at most once each.
   */
  lemma ImplicitNoneAcceptedIff(prevImplicit: bool, prevImplicitNone: bool, prevParameter: bool,
                                specs: seq<NoneNameSpec>)
    ensures ImplicitNoneVerdict(prevImplicit, prevImplicitNone, prevParameter, specs).0 <==>
      !prevImplicitNone && !prevParameter &&
      (prevImplicit ==> specs != [] && NoneType !in specs) &&
      Count(specs, NoneType) <= 1 && Count(specs, NoneExternal) <= 1
  {
    if specs == [] {
    }
  }

  /** A second IMPLICIT NONE is always an error, whatever else came before. */
  lemma SecondImplicitNoneRejected(prevImplicit: bool, prevParameter: bool, specs: seq<NoneNameSpec>)
    ensures ImplicitNoneVerdict(prevImplicit, true, prevParameter, specs) ==
      (false, [MoreThanOneImplicitNone])
  {
  }

  /** A scoping unit's symbol table. */
  class Scope {
    var symbols: map<Name, Symbol>

    constructor ()
      ensures symbols == map[]
    {
      symbols := map[];
    }
  }

  /** The symbol a MakeSymbol call leaves for a name that was already declared. */
  function Redeclared(old_: Symbol, attrs: set<Attr>, details: Details): (r: Symbol)
    ensures r.attrs == old_.attrs + attrs
    ensures old_.details != Unknown ==> r.details == old_.details
    ensures old_.details == Unknown ==> r.details == details
  {
    Symbol(old_.attrs + attrs,
      if details != Unknown && old_.details.Unknown? then details else old_.details)
  }

  /**
   * The messages that declaring the dummy arguments, in order, draws in a
   * subprogram scope that holds only the subprogram's name: a redeclaration
   * for each dummy named like the subprogram or like an earlier dummy.
   */
  function DummyClashes(name: Name, dummies: seq<Name>): seq<Message> {
    if dummies == [] then []
    else
      var d, before := dummies[|dummies| - 1], dummies[..|dummies| - 1];
      DummyClashes(name, before) +
        if d == name || d in before then [AlreadyDeclared(d), PreviousDeclaration(d)] else []
  }

  /** Declaring dummies is silent exactly when they are distinct and differ from the subprogram's name. */
  lemma {:induction false} DummyClashesNoneIff(name: Name, dummies: seq<Name>)
    ensures DummyClashes(name, dummies) == [] <==>
      name !in dummies && forall i, j :: 0 <= i < j < |dummies| ==> dummies[i] != dummies[j]
  {
    if dummies != [] {
      var d, before := dummies[|dummies| - 1], dummies[..|dummies| - 1];
      DummyClashesNoneIff(name, before);
      assert dummies == before + [d];
      if d in before {
        var k :| 0 <= k < |before| && before[k] == d;
        assert dummies[k] == dummies[|dummies| - 1];
      }
    }
  }

  /** A symbol still without a type: Unknown, or an entity with no type yet. */
  predicate Untyped(s: Symbol) {
    s.details.Unknown? || (s.details.Entity? && s.details.declType.None?)
  }

  /**
   * The symbol that ApplyImplicitRules leaves: Unknown becomes an entity,
   * and an entity without a type takes the type bound to its name's first
   * character, if there is one.
   */
  function Implicitly(s: Symbol, n: Name, types: map<char, DeclTypeSpec>): (r: Symbol)
    ensures r.attrs == s.attrs
    ensures !r.details.Unknown?
    ensures !Untyped(s) ==> r == s
    ensures Untyped(s) ==> r.details.Entity?
    ensures Untyped(r) <==> Untyped(s) && n[0] !in types
  {
    var d := if s.details.Unknown? then Entity(None, false) else s.details;
    if d.Entity? && d.declType.None? && n[0] in types then
      Symbol(s.attrs, d.(declType := Some(types[n[0]])))
    else Symbol(s.attrs, d)
  }

  /**
   * After the default rules every name that starts with a letter gets a
   * type, and a type once declared is kept.
   */
  lemma ImplicitlyTypesLetterNames(s: Symbol, n: Name, m: map<char, DeclTypeSpec>)
    requires IsLetter(n[0])
    ensures !Untyped(Implicitly(s, n, WithDefaults(m)))
    ensures s.details.Entity? && s.details.declType.Some? ==>
      Implicitly(s, n, WithDefaults(m)) == s
  {
  }

  /** The messages ms name, each once, exactly the untyped symbols among `names` of `symbols`. */
  ghost predicate ReportsUntyped(ms: seq<Message>, names: set<Name>, symbols: map<Name, Symbol>)
  {
    (forall i, j :: 0 <= i < j < |ms| ==> ms[i] != ms[j]) &&
    (forall m :: m in ms ==> m.NoExplicitType? && m.name in names && m.name in symbols &&
                             Untyped(symbols[m.name])) &&
    (forall n :: n in names && n in symbols && Untyped(symbols[n]) ==> NoExplicitType(n) in ms)
  }

  /**
   * The loop of ApplyImplicitRules over a scope, in whatever order the
   * names come: each symbol becomes Implicitly(symbol), and a symbol left
   * without a type is reported once.
   */
  method ImplicitlyTypeAll(symbols: map<Name, Symbol>, types: map<char, DeclTypeSpec>)
    returns (typed: map<Name, Symbol>, reported: seq<Message>)
    ensures typed.Keys == symbols.Keys
    ensures forall n :: n in typed ==> typed[n] == Implicitly(symbols[n], n, types)
    ensures ReportsUntyped(reported, typed.Keys, typed)
  {
    typed := symbols;
    reported := [];
    var todo := symbols.Keys;
    while todo != {}
      invariant todo <= symbols.Keys && typed.Keys == symbols.Keys
      invariant forall n :: n in todo ==> typed[n] == symbols[n]
      invariant forall n :: n in typed && n !in todo ==> typed[n] == Implicitly(symbols[n], n, types)
      invariant ReportsUntypedAfter(reported, symbols.Keys - todo, symbols, types)
      decreases |todo|
    {
      var n :| n in todo;
      var s := Implicitly(typed[n], n, types);
      ReportsOneMore(reported, symbols.Keys - todo, symbols, types, n);
      if Untyped(s) {
        reported := reported + [NoExplicitType(n)];
      }
      typed := typed[n := s];
      todo := todo - {n};
    }
    ReportsAfterTyping(reported, symbols, types, typed);
  }

  /**
   * ReportsUntyped of the symbols as they will be after implicit typing:
   * stated over the symbols before it, which the loop leaves fixed.
   */
  ghost predicate ReportsUntypedAfter(ms: seq<Message>, names: set<Name>, symbols: map<Name, Symbol>,
                                      types: map<char, DeclTypeSpec>)
  {
    (forall i, j :: 0 <= i < j < |ms| ==> ms[i] != ms[j]) &&
    (forall m :: m in ms ==> m.NoExplicitType? && m.name in names && m.name in symbols &&
                             Untyped(Implicitly(symbols[m.name], m.name, types))) &&
    (forall n :: n in names && n in symbols && Untyped(Implicitly(symbols[n], n, types)) ==> NoExplicitType(n) in ms)
  }

  /** Typing one more name keeps the report exact: a message is added exactly when it stays untyped. */
  lemma ReportsOneMore(ms: seq<Message>, done: set<Name>, symbols: map<Name, Symbol>,
                       types: map<char, DeclTypeSpec>, n: Name)
    requires ReportsUntypedAfter(ms, done, symbols, types) && n !in done && n in symbols
    ensures var s := Implicitly(symbols[n], n, types);
      ReportsUntypedAfter(ms + if Untyped(s) then [NoExplicitType(n)] else [], done + {n}, symbols, types)
  {
  }

  /** Once every name is typed, the report is ReportsUntyped of the typed symbols. */
  lemma ReportsAfterTyping(ms: seq<Message>, symbols: map<Name, Symbol>, types: map<char, DeclTypeSpec>,
                           typed: map<Name, Symbol>)
    requires ReportsUntypedAfter(ms, symbols.Keys, symbols, types) && typed.Keys == symbols.Keys
    requires forall n :: n in typed ==> typed[n] == Implicitly(symbols[n], n, types)
    ensures ReportsUntyped(ms, typed.Keys, typed)
  {
  }

  /**
   * The name-resolution visitor: the stack of scopes with their implicit
   * rules, and which of IMPLICIT, IMPLICIT NONE, IMPLICIT NONE(TYPE) and
   * PARAMETER has been seen in the current scope.
   */
  class Resolver {
    const sink: MessageSink
    var rules: seq<ImplicitRules>
    var scopes: seq<Scope>
    var prevImplicit: bool
    var prevImplicitNone: bool
    var prevImplicitNoneType: bool
    var prevParameterStmt: bool

    /** One set of implicit rules per open scope, all reporting to the shared sink. */
    ghost predicate Valid()
      reads this
    {
      |rules| > 0 && |scopes| == |rules| &&
      forall i :: 0 <= i < |rules| ==> rules[i].sink == sink
    }

    function Top(): (r: ImplicitRules)
      reads this
      requires Valid()
      ensures r.sink == sink
    {
      rules[|rules| - 1]
    }

    function CurrScope(): Scope
      reads this
      requires Valid()
    {
      scopes[|scopes| - 1]
    }

    function IsImplicitNoneType(): bool
      reads this, Top()
      requires Valid()
    {
      Top().isImplicitNoneType
    }

    /** The visitor starts in the global scope. */
    constructor (global: Scope, sink: MessageSink)
      ensures Valid() && this.sink == sink && scopes == [global]
      ensures fresh(Top()) && Top().types == map[] && !IsImplicitNoneType()
      ensures !prevImplicit && !prevImplicitNone && !prevImplicitNoneType && !prevParameterStmt
    {
      this.sink := sink;
      var r := new ImplicitRules(sink);
      rules := [r];
      scopes := [global];
      prevImplicit := false;
      prevImplicitNone := false;
      prevImplicitNoneType := false;
      prevParameterStmt := false;
    }

    /** PushScope(scope): fresh implicit rules, and no statement seen yet. */
    method PushScope(scope: Scope)
      requires Valid()
      modifies this
      ensures Valid()
      ensures scopes == old(scopes) + [scope] && rules[..|rules| - 1] == old(rules)
      ensures fresh(Top()) && Top().types == map[]
      ensures !Top().isImplicitNoneType && !Top().isImplicitNoneExternal
      ensures !prevImplicit && !prevImplicitNone && !prevImplicitNoneType && !prevParameterStmt
    {
      var r := new ImplicitRules(sink);
      rules := rules + [r];
      scopes := scopes + [scope];
      prevImplicit := false;
      prevImplicitNone := false;
      prevImplicitNoneType := false;
      prevParameterStmt := false;
    }

    /**
     * PopScope(): back to the enclosing scope and its rules.  The record of
     * statements seen is not restored: it still describes the scope left.
     */
    method PopScope()
      requires Valid() && |scopes| > 1
      modifies this`rules, this`scopes
      ensures Valid()
      ensures scopes == old(scopes[..|scopes| - 1]) && rules == old(rules[..|rules| - 1])
    {
      rules := rules[..|rules| - 1];
      scopes := scopes[..|scopes| - 1];
    }

    /** Post(ParameterStmt): records that a PARAMETER statement was seen. */
    method PostParameterStmt()
      modifies this`prevParameterStmt
      ensures prevParameterStmt
    {
      prevParameterStmt := true;
    }

    /**
     * HandleImplicitNone(nameSpecs): checks the statement's place and
     * records IMPLICIT NONE and its TYPE / EXTERNAL flags.  The flags are
     * set as the specs are read, so they stay set even when the statement
     * is rejected part way.
     */
    method HandleImplicitNone(specs: seq<NoneNameSpec>) returns (ok: bool)
      requires Valid()
      modifies this`prevImplicitNone, this`prevImplicitNoneType
      modifies Top()`isImplicitNoneType, Top()`isImplicitNoneExternal, sink`messages
      ensures var v := ImplicitNoneVerdict(prevImplicit, old(prevImplicitNone), prevParameterStmt, specs);
        ok == v.0 && sink.messages == old(sink.messages) + v.1
      ensures old(prevImplicitNone) || prevParameterStmt ==>
        prevImplicitNone == old(prevImplicitNone) && prevImplicitNoneType == old(prevImplicitNoneType) &&
        Top().isImplicitNoneType == old(Top().isImplicitNoneType) &&
        Top().isImplicitNoneExternal == old(Top().isImplicitNoneExternal)
      ensures !old(prevImplicitNone) && !prevParameterStmt ==>
        prevImplicitNone &&
        (var sets := specs == [] || NoneType in specs;
         prevImplicitNoneType == (old(prevImplicitNoneType) || sets) &&
         Top().isImplicitNoneType == (old(Top().isImplicitNoneType) || sets)) &&
        Top().isImplicitNoneExternal == (old(Top().isImplicitNoneExternal) ||
          NoneExternal in (if prevImplicit then Before(specs, NoneType) else specs))
    {
      if prevImplicitNone {
        sink.messages := sink.messages + [MoreThanOneImplicitNone];
        return false;
      }
      if prevParameterStmt {
        sink.messages := sink.messages + [ImplicitNoneAfterParameter];
        return false;
      }
      prevImplicitNone := true;
      if specs == [] {
        prevImplicitNoneType := true;
        Top().isImplicitNoneType := true;
        if prevImplicit {
          sink.messages := sink.messages + [ImplicitNoneAfterImplicit];
          return false;
        }
        return true;
      }
      ok := HandleNameSpecs(specs);
    }

    /**
     * The checks of HandleImplicitNone on a non-empty list of name-specs:
     * TYPE after an IMPLICIT statement stops the reading with an error; a
     * name-spec given more than once is an error afterwards.
     */
    method HandleNameSpecs(specs: seq<NoneNameSpec>) returns (ok: bool)
      requires Valid()
      modifies this`prevImplicitNoneType
      modifies Top()`isImplicitNoneType, Top()`isImplicitNoneExternal, sink`messages
      ensures var v := NameSpecsVerdict(prevImplicit, specs);
        ok == v.0 && sink.messages == old(sink.messages) + v.1
      ensures prevImplicitNoneType == (old(prevImplicitNoneType) || NoneType in specs)
      ensures Top().isImplicitNoneType == (old(Top().isImplicitNoneType) || NoneType in specs)
      ensures Top().isImplicitNoneExternal == (old(Top().isImplicitNoneExternal) ||
          NoneExternal in (if prevImplicit then Before(specs, NoneType) else specs))
    {
      var stopped, sawType, sawExternal := ReadNameSpecs(specs);
      if stopped {
        sink.messages := sink.messages + [ImplicitNoneTypeAfterImplicit];
        return false;
      }
      if sawType > 1 {
        sink.messages := sink.messages + [TypeSpecifiedMoreThanOnce];
        return false;
      }
      if sawExternal > 1 {
        sink.messages := sink.messages + [ExternalSpecifiedMoreThanOnce];
        return false;
      }
      return true;
    }

    /**
     * The loop of HandleImplicitNone over the name-specs: EXTERNAL and
     * TYPE set their flags and are counted; TYPE after an IMPLICIT
     * statement stops the loop, with the flags set so far left set.
     */
    method ReadNameSpecs(specs: seq<NoneNameSpec>) returns (stopped: bool, sawType: nat, sawExternal: nat)
      requires Valid()
      modifies this`prevImplicitNoneType, Top()`isImplicitNoneType, Top()`isImplicitNoneExternal
      ensures stopped <==> prevImplicit && NoneType in specs
      ensures !stopped ==> sawType == Count(specs, NoneType) && sawExternal == Count(specs, NoneExternal)
      ensures prevImplicitNoneType == (old(prevImplicitNoneType) || NoneType in specs)
      ensures Top().isImplicitNoneType == (old(Top().isImplicitNoneType) || NoneType in specs)
      ensures Top().isImplicitNoneExternal == (old(Top().isImplicitNoneExternal) ||
          NoneExternal in (if prevImplicit then Before(specs, NoneType) else specs))
    {
      var top := Top();
      sawType, sawExternal := 0, 0;
      var i := 0;
      while i < |specs|
        invariant 0 <= i <= |specs|
        invariant sawType == Count(specs[..i], NoneType)
        invariant sawExternal == Count(specs[..i], NoneExternal)
        invariant prevImplicit ==> sawType == 0
        invariant prevImplicitNoneType == (old(prevImplicitNoneType) || sawType > 0)
        invariant top.isImplicitNoneType == (old(top.isImplicitNoneType) || sawType > 0)
        invariant top.isImplicitNoneExternal == (old(top.isImplicitNoneExternal) || sawExternal > 0)
      {
        assert specs[..i + 1][..i] == specs[..i];
        match specs[i] {
          case NoneExternal =>
            top.isImplicitNoneExternal := true;
            sawExternal := sawExternal + 1;
          case NoneType =>
            prevImplicitNoneType := true;
            top.isImplicitNoneType := true;
            if prevImplicit {
              BeforeFirst(specs, NoneType, i);
              return true, sawType, sawExternal;
            }
            sawType := sawType + 1;
        }
        i := i + 1;
      }
      assert specs[..i] == specs;
      if prevImplicit {
        assert Before(specs, NoneType) == specs;
      }
      return false, sawType, sawExternal;
    }

    /**
     * Pre(ImplicitStmt): IMPLICIT NONE goes through HandleImplicitNone; an
     * IMPLICIT statement with specs is refused after IMPLICIT NONE(TYPE).
     * Either way the statement counts as an IMPLICIT statement afterwards.
     * The answer says whether the letter-specs are to be visited.
     */
    method PreImplicitStmt(stmt: ImplicitStmt) returns (visit: bool)
      requires Valid()
      modifies this`prevImplicit, this`prevImplicitNone, this`prevImplicitNoneType
      modifies Top()`isImplicitNoneType, Top()`isImplicitNoneExternal, sink`messages
      ensures prevImplicit
      ensures stmt.ImplicitNoneStmt? ==>
        var v := ImplicitNoneVerdict(old(prevImplicit), old(prevImplicitNone), prevParameterStmt, stmt.nameSpecs);
        visit == v.0 && sink.messages == old(sink.messages) + v.1
      ensures stmt.ImplicitNoneStmt? && (old(prevImplicitNone) || prevParameterStmt) ==>
        prevImplicitNone == old(prevImplicitNone) && prevImplicitNoneType == old(prevImplicitNoneType) &&
        Top().isImplicitNoneType == old(Top().isImplicitNoneType) &&
        Top().isImplicitNoneExternal == old(Top().isImplicitNoneExternal)
      ensures stmt.ImplicitNoneStmt? && !old(prevImplicitNone) && !prevParameterStmt ==>
        prevImplicitNone &&
        (var sets := stmt.nameSpecs == [] || NoneType in stmt.nameSpecs;
         prevImplicitNoneType == (old(prevImplicitNoneType) || sets) &&
         Top().isImplicitNoneType == (old(Top().isImplicitNoneType) || sets)) &&
        Top().isImplicitNoneExternal == (old(Top().isImplicitNoneExternal) ||
          NoneExternal in (if old(prevImplicit) then Before(stmt.nameSpecs, NoneType) else stmt.nameSpecs))
      ensures stmt.ImplicitSpecsStmt? ==>
        visit == !old(prevImplicitNoneType) &&
        sink.messages == old(sink.messages) + (if visit then [] else [ImplicitAfterImplicitNoneType]) &&
        prevImplicitNone == old(prevImplicitNone) && prevImplicitNoneType == old(prevImplicitNoneType) &&
        Top().isImplicitNoneType == old(Top().isImplicitNoneType) &&
        Top().isImplicitNoneExternal == old(Top().isImplicitNoneExternal)
    {
      match stmt {
        case ImplicitNoneStmt(specs) =>
          visit := HandleImplicitNone(specs);
        case ImplicitSpecsStmt(_) =>
          if prevImplicitNoneType {
            sink.messages := sink.messages + [ImplicitAfterImplicitNoneType];
            visit := false;
          } else {
            visit := true;
          }
      }
      prevImplicit := true;
    }

    /**
     * Pre(LetterSpec) under the type of its implicit-spec: a range whose
     * high letter comes before its low letter is reported and binds
     * nothing; otherwise the range is bound with SetType.
     */
    method PreLetterSpec(t: DeclTypeSpec, spec: LetterSpec) returns (visit: bool)
      requires Valid() && IsChar(spec.lo)
      modifies Top()`types, sink`messages
      ensures !visit
      ensures spec.hi.Some? && spec.hi.value < spec.lo ==>
        Top().types == old(Top().types) &&
        sink.messages == old(sink.messages) + [DoesNotFollowAlphabetically(spec.hi.value, spec.lo)]
      ensures spec.hi.None? || spec.lo <= spec.hi.value ==>
        var hi := if spec.hi.Some? then spec.hi.value else spec.lo;
        Top().types == Bind(old(Top().types), Walk(spec.lo, hi), t) &&
        sink.messages == old(sink.messages) + Rebound(old(Top().types), Walk(spec.lo, hi), t)
    {
      var hi := spec.lo;
      if spec.hi.Some? {
        hi := spec.hi.value;
        if hi < spec.lo {
          sink.messages := sink.messages + [DoesNotFollowAlphabetically(hi, spec.lo)];
          return false;
        }
      }
      Top().SetType(t, spec.lo, hi);
      return false;
    }

    /** The letter-specs of one implicit-spec, each visited by Pre(LetterSpec) under its type. */
    method PreLetterSpecs(t: DeclTypeSpec, letters: seq<LetterSpec>)
      requires Valid() && forall l :: l in letters ==> IsChar(l.lo)
      modifies Top()`types, sink`messages
      ensures Top().types == LetterSpecsRules(old(Top().types), t, letters).0
      ensures sink.messages == old(sink.messages) + LetterSpecsRules(old(Top().types), t, letters).1
    {
      var j := 0;
      while j < |letters|
        invariant 0 <= j <= |letters|
        invariant Top().types == LetterSpecsRules(old(Top().types), t, letters[..j]).0
        invariant sink.messages == old(sink.messages) + LetterSpecsRules(old(Top().types), t, letters[..j]).1
      {
        assert letters[..j + 1][..j] == letters[..j];
        var _ := PreLetterSpec(t, letters[j]);
        j := j + 1;
      }
      assert letters[..j] == letters;
    }

    /** The implicit-specs of an IMPLICIT statement, each one's letter-specs in turn. */
    method PreImplicitSpecs(specs: seq<ImplicitSpec>)
      requires Valid() && LowsAreChars(specs)
      modifies Top()`types, sink`messages
      ensures Top().types == ImplicitSpecsRules(old(Top().types), specs).0
      ensures sink.messages == old(sink.messages) + ImplicitSpecsRules(old(Top().types), specs).1
    {
      var i := 0;
      while i < |specs|
        invariant 0 <= i <= |specs|
        invariant LowsAreChars(specs[..i])
        invariant Top().types == ImplicitSpecsRules(old(Top().types), specs[..i]).0
        invariant sink.messages == old(sink.messages) + ImplicitSpecsRules(old(Top().types), specs[..i]).1
      {
        assert specs[i] in specs;
        PreLetterSpecs(specs[i].declType, specs[i].letters);
        assert specs[..i + 1][..i] == specs[..i];
        i := i + 1;
      }
      assert specs[..i] == specs;
    }

    /**
     * An IMPLICIT statement as the parse-tree walk visits it: Pre(ImplicitStmt),
     * then, when that allows, each letter-spec under its spec's type.
     */
    method ImplicitStatement(stmt: ImplicitStmt)
      requires Valid()
      requires stmt.ImplicitSpecsStmt? ==> LowsAreChars(stmt.specs)
      modifies this`prevImplicit, this`prevImplicitNone, this`prevImplicitNoneType
      modifies Top(), sink`messages
      ensures prevImplicit
      ensures stmt.ImplicitNoneStmt? ==>
        Top().types == old(Top().types) &&
        sink.messages == old(sink.messages) +
          ImplicitNoneVerdict(old(prevImplicit), old(prevImplicitNone), prevParameterStmt, stmt.nameSpecs).1
      ensures stmt.ImplicitNoneStmt? && (old(prevImplicitNone) || prevParameterStmt) ==>
        prevImplicitNone == old(prevImplicitNone) && prevImplicitNoneType == old(prevImplicitNoneType) &&
        Top().isImplicitNoneType == old(Top().isImplicitNoneType) &&
        Top().isImplicitNoneExternal == old(Top().isImplicitNoneExternal)
      ensures stmt.ImplicitNoneStmt? && !old(prevImplicitNone) && !prevParameterStmt ==>
        prevImplicitNone &&
        (var sets := stmt.nameSpecs == [] || NoneType in stmt.nameSpecs;
         prevImplicitNoneType == (old(prevImplicitNoneType) || sets) &&
         Top().isImplicitNoneType == (old(Top().isImplicitNoneType) || sets)) &&
        Top().isImplicitNoneExternal == (old(Top().isImplicitNoneExternal) ||
          NoneExternal in (if old(prevImplicit) then Before(stmt.nameSpecs, NoneType) else stmt.nameSpecs))
      ensures stmt.ImplicitSpecsStmt? && old(prevImplicitNoneType) ==>
        Top().types == old(Top().types) &&
        sink.messages == old(sink.messages) + [ImplicitAfterImplicitNoneType]
      ensures stmt.ImplicitSpecsStmt? && !old(prevImplicitNoneType) ==>
        Top().types == ImplicitSpecsRules(old(Top().types), stmt.specs).0 &&
        sink.messages == old(sink.messages) + ImplicitSpecsRules(old(Top().types), stmt.specs).1
      ensures stmt.ImplicitSpecsStmt? ==>
        prevImplicitNone == old(prevImplicitNone) && prevImplicitNoneType == old(prevImplicitNoneType) &&
        Top().isImplicitNoneType == old(Top().isImplicitNoneType) &&
        Top().isImplicitNoneExternal == old(Top().isImplicitNoneExternal)
    {
      var visit := PreImplicitStmt(stmt);
      if visit && stmt.ImplicitSpecsStmt? {
        PreImplicitSpecs(stmt.specs);
      }
    }

    /**
     * MakeSymbol(name, attrs, details): declares name in the current scope.
     * A name already there gets the attributes added; its details are
     * replaced only when they were Unknown, and otherwise a concrete
     * redeclaration is reported twice over (here, and at the previous one).
     */
    method MakeSymbol(name: Name, attrs: set<Attr>, details: Details)
      requires Valid()
      modifies CurrScope()`symbols, sink`messages
      ensures name !in old(CurrScope().symbols) ==>
        CurrScope().symbols == old(CurrScope().symbols)[name := Symbol(attrs, details)] &&
        sink.messages == old(sink.messages)
      ensures name in old(CurrScope().symbols) ==>
        var s := old(CurrScope().symbols)[name];
        CurrScope().symbols == old(CurrScope().symbols)[name := Redeclared(s, attrs, details)] &&
        sink.messages == old(sink.messages) +
          if details != Unknown && !s.details.Unknown? then [AlreadyDeclared(name), PreviousDeclaration(name)]
          else []
    {
      var scope := CurrScope();
      if name !in scope.symbols {
        scope.symbols := scope.symbols[name := Symbol(attrs, details)];
      } else {
        var s := scope.symbols[name];
        scope.symbols := scope.symbols[name := Redeclared(s, attrs, details)];
        if details != Unknown {
          if !s.details.Unknown? {
            sink.messages := sink.messages + [AlreadyDeclared(name), PreviousDeclaration(name)];
          }
        }
      }
    }

    /**
     * Post(EntityDecl) in a type declaration statement with attributes attrs
     * and type t: the name becomes an entity of type t, unless it already
     * has a type (reported, first type kept) or is something other than an
     * entity (reported as a redeclaration).
     */
    method PostEntityDecl(name: Name, attrs: set<Attr>, t: DeclTypeSpec)
      requires Valid()
      modifies CurrScope()`symbols, sink`messages
      ensures CurrScope().symbols.Keys == old(CurrScope().symbols).Keys + {name}
      ensures forall n :: n in old(CurrScope().symbols) && n != name ==>
        CurrScope().symbols[n] == old(CurrScope().symbols)[n]
      ensures CurrScope().symbols[name].attrs ==
        (if name in old(CurrScope().symbols) then old(CurrScope().symbols)[name].attrs else {}) + attrs
      ensures name !in old(CurrScope().symbols) || old(CurrScope().symbols)[name].details.Unknown? ==>
        CurrScope().symbols[name].details == Entity(Some(t), false) && sink.messages == old(sink.messages)
      ensures name in old(CurrScope().symbols) && !old(CurrScope().symbols)[name].details.Unknown? ==>
        var d := old(CurrScope().symbols)[name].details;
        if d.Entity? && d.declType.None? then
          CurrScope().symbols[name].details == d.(declType := Some(t)) && sink.messages == old(sink.messages)
        else
          CurrScope().symbols[name].details == d &&
          sink.messages == old(sink.messages) +
            if d.Entity? then [AlreadyHasType(name)] else [AlreadyDeclared(name), PreviousDeclaration(name)]
    {
      MakeSymbol(name, attrs, Unknown);
      var scope := CurrScope();
      var s := scope.symbols[name];
      if s.details.Unknown? {
        s := s.(details := Entity(None, false));
        scope.symbols := scope.symbols[name := s];
      }
      if s.details.Entity? {
        if s.details.declType.Some? {
          sink.messages := sink.messages + [AlreadyHasType(name)];
        } else {
          scope.symbols := scope.symbols[name := s.(details := s.details.(declType := Some(t)))];
        }
      } else {
        sink.messages := sink.messages + [AlreadyDeclared(name), PreviousDeclaration(name)];
      }
    }

    /**
     * HandleAttributeStmt(attr, names), for both the name-list and the
     * object-decl-list statements: each name gets attr, being declared
     * with only that attribute if it was not there.
     */
    method HandleAttributeStmt(attr: Attr, names: seq<Name>) returns (visit: bool)
      requires Valid()
      modifies CurrScope()`symbols
      ensures !visit
      ensures CurrScope().symbols.Keys == old(CurrScope().symbols).Keys + set n | n in names
      ensures forall n :: n in old(CurrScope().symbols) && n !in names ==>
        CurrScope().symbols[n] == old(CurrScope().symbols)[n]
      ensures forall n :: n in names && n in old(CurrScope().symbols) ==>
        CurrScope().symbols[n] == old(CurrScope().symbols)[n].(attrs := old(CurrScope().symbols)[n].attrs + {attr})
      ensures forall n :: n in names && n !in old(CurrScope().symbols) ==>
        CurrScope().symbols[n] == Symbol({attr}, Unknown)
    {
      var scope := CurrScope();
      var i := 0;
      while i < |names|
        invariant 0 <= i <= |names|
        invariant scope.symbols.Keys == old(scope.symbols).Keys + set n | n in names[..i]
        invariant forall n :: n in old(scope.symbols) && n !in names[..i] ==>
          scope.symbols[n] == old(scope.symbols)[n]
        invariant forall n :: n in names[..i] && n in old(scope.symbols) ==>
          scope.symbols[n] == old(scope.symbols)[n].(attrs := old(scope.symbols)[n].attrs + {attr})
        invariant forall n :: n in names[..i] && n !in old(scope.symbols) ==>
          scope.symbols[n] == Symbol({attr}, Unknown)
      {
        var n := names[i];
        if n !in scope.symbols {
          scope.symbols := scope.symbols[n := Symbol({attr}, Unknown)];
        } else {
          var s := scope.symbols[n];
          scope.symbols := scope.symbols[n := s.(attrs := s.attrs + {attr})];
        }
        assert names[..i + 1] == names[..i] + [n];
        i := i + 1;
      }
      assert names[..i] == names;
      return false;
    }

    /**
     * CheckImplicitSymbol(name), for a name used as a variable or in an
     * expression: without IMPLICIT NONE(TYPE) the name is entered in the
     * scope if absent; with it, a name absent or still Unknown is reported.
     */
    method CheckImplicitSymbol(name: Option<Name>)
      requires Valid()
      modifies CurrScope()`symbols, sink`messages
      ensures name.None? ==> CurrScope().symbols == old(CurrScope().symbols) && sink.messages == old(sink.messages)
      ensures name.Some? && !IsImplicitNoneType() ==>
        sink.messages == old(sink.messages) &&
        CurrScope().symbols ==
          if name.value in old(CurrScope().symbols) then old(CurrScope().symbols)
          else old(CurrScope().symbols)[name.value := Symbol({}, Unknown)]
      ensures name.Some? && IsImplicitNoneType() ==>
        CurrScope().symbols == old(CurrScope().symbols) &&
        sink.messages == old(sink.messages) +
          if name.value !in old(CurrScope().symbols) || old(CurrScope().symbols)[name.value].details.Unknown?
          then [NoExplicitType(name.value)] else []
    {
      if name.Some? {
        var scope := CurrScope();
        if !Top().isImplicitNoneType {
          if name.value !in scope.symbols {
            scope.symbols := scope.symbols[name.value := Symbol({}, Unknown)];
          }
        } else if name.value !in scope.symbols || scope.symbols[name.value].details.Unknown? {
          sink.messages := sink.messages + [NoExplicitType(name.value)];
        }
      }
    }

    /**
     * Post(SpecificationPart): under IMPLICIT NONE(TYPE), every name of the
     * scope that is Unknown or an entity without a type is reported once.
     * The messages come in the scope's name order, which the model leaves
     * open.
     */
    method PostSpecificationPart()
      requires Valid()
      modifies sink`messages
      ensures !IsImplicitNoneType() ==> sink.messages == old(sink.messages)
      ensures |sink.messages| >= |old(sink.messages)| &&
        sink.messages[..|old(sink.messages)|] == old(sink.messages)
      ensures IsImplicitNoneType() ==>
        ReportsUntyped(sink.messages[|old(sink.messages)|..],
          CurrScope().symbols.Keys, CurrScope().symbols)
    {
      if Top().isImplicitNoneType {
        var symbols := CurrScope().symbols;
        var todo := symbols.Keys;
        ghost var start := |sink.messages|;
        while todo != {}
          invariant todo <= symbols.Keys
          invariant |sink.messages| >= start && sink.messages[..start] == old(sink.messages)
          invariant ReportsUntyped(sink.messages[start..], symbols.Keys - todo, symbols)
          decreases |todo|
        {
          var n :| n in todo;
          ghost var before := sink.messages[start..];
          if Untyped(symbols[n]) {
            sink.messages := sink.messages + [NoExplicitType(n)];
            assert sink.messages[start..] == before + [NoExplicitType(n)];
          }
          todo := todo - {n};
        }
      }
    }

    /**
     * ApplyImplicitRules(): unless IMPLICIT NONE(TYPE) is in force, adds
     * the default rules and then gives every symbol of the scope its
     * implicit type (Implicitly); a symbol whose first character has no
     * rule is reported instead.  The messages come in the scope's name
     * order, which the model leaves open.
     */
    method ApplyImplicitRules()
      requires Valid()
      modifies Top()`types, CurrScope()`symbols, sink`messages
      ensures IsImplicitNoneType() ==>
        Top().types == old(Top().types) && CurrScope().symbols == old(CurrScope().symbols) &&
        sink.messages == old(sink.messages)
      ensures !IsImplicitNoneType() ==>
        Top().types == WithDefaults(old(Top().types)) &&
        CurrScope().symbols.Keys == old(CurrScope().symbols).Keys &&
        (forall n :: n in CurrScope().symbols ==>
          CurrScope().symbols[n] == Implicitly(old(CurrScope().symbols)[n], n, Top().types)) &&
        |sink.messages| >= |old(sink.messages)| &&
        sink.messages[..|old(sink.messages)|] == old(sink.messages) &&
        ReportsUntyped(sink.messages[|old(sink.messages)|..],
          CurrScope().symbols.Keys, CurrScope().symbols)
    {
      var top := Top();
      if !top.isImplicitNoneType {
        top.AddDefaultRules();
        var scope := CurrScope();
        var typed, reported := ImplicitlyTypeAll(scope.symbols, top.types);
        scope.symbols := typed;
        sink.messages := sink.messages + reported;
        assert sink.messages[|old(sink.messages)|..] == reported;
      }
    }

    /**
     * The end statement of a program unit (END PROGRAM, END SUBROUTINE,
     * END FUNCTION): the implicit rules are applied, then the scope is left.
     */
    method PostEndProgramUnit()
      requires Valid() && |scopes| > 1
      modifies this`rules, this`scopes, Top()`types, CurrScope()`symbols, sink`messages
      ensures Valid()
      ensures scopes == old(scopes[..|scopes| - 1]) && rules == old(rules[..|rules| - 1])
      ensures old(Top().isImplicitNoneType) ==>
        old(Top()).types == old(Top().types) && old(CurrScope()).symbols == old(CurrScope().symbols) &&
        sink.messages == old(sink.messages)
      ensures !old(Top().isImplicitNoneType) ==>
        var left := old(CurrScope()).symbols;
        old(Top()).types == WithDefaults(old(Top().types)) &&
        left.Keys == old(CurrScope().symbols).Keys &&
        (forall n :: n in left ==> left[n] == Implicitly(old(CurrScope().symbols)[n], n, old(Top()).types)) &&
        (forall n :: n in left ==> !left[n].details.Unknown?) &&
        |sink.messages| >= |old(sink.messages)| &&
        sink.messages[..|old(sink.messages)|] == old(sink.messages) &&
        ReportsUntyped(sink.messages[|old(sink.messages)|..], left.Keys, left)
    {
      ApplyImplicitRules();
      PopScope();
    }

    /**
     * PushSubprogramScope(name, details): declares the subprogram in the
     * current scope, opens its scope, and declares it again there so that
     * the name cannot be reused inside.
     */
    method PushSubprogramScope(name: Name, attrs: set<Attr>, details: Details) returns (inner: Scope)
      requires Valid()
      modifies this, CurrScope()`symbols, sink`messages
      ensures Valid() && fresh(inner) && scopes == old(scopes) + [inner]
      ensures old(CurrScope()).symbols ==
        if name in old(CurrScope().symbols)
        then old(CurrScope().symbols)[name := Redeclared(old(CurrScope().symbols)[name], attrs, details)]
        else old(CurrScope().symbols)[name := Symbol(attrs, details)]
      ensures inner.symbols == map[name := Symbol({}, details)]
      ensures sink.messages == old(sink.messages) +
        if name in old(CurrScope().symbols) && details != Unknown && !old(CurrScope().symbols)[name].details.Unknown?
        then [AlreadyDeclared(name), PreviousDeclaration(name)] else []
      ensures fresh(Top()) && Top().types == map[] && !Top().isImplicitNoneType
      ensures !prevImplicit && !prevImplicitNone && !prevImplicitNoneType && !prevParameterStmt
    {
      MakeSymbol(name, attrs, details);
      inner := new Scope();
      PushScope(inner);
      ghost var pushed := scopes;
      assert CurrScope() == inner && pushed == old(scopes) + [inner];
      MakeSymbol(name, {}, details);
      assert scopes == pushed && Valid();
    }

    /**
     * Post(SubroutineStmt): opens the subroutine's scope and declares each
     * dummy argument in it as a dummy entity.  The dummy names are added to
     * a local copy of the subprogram details after both symbols were made
     * from it, so the symbols' details list no dummies.  A dummy named like
     * the subroutine, or named twice, is a redeclaration (DummyClashes).
     */
    method PostSubroutineStmt(name: Name, attrs: set<Attr>, dummies: seq<Name>) returns (inner: Scope)
      requires Valid()
      modifies this, CurrScope()`symbols, sink`messages
      ensures Valid() && fresh(inner) && scopes == old(scopes) + [inner]
      ensures inner.symbols.Keys == {name} + set d | d in dummies
      ensures inner.symbols[name] == Symbol({}, Subprogram([], None))
      ensures forall d :: d in dummies && d != name ==> inner.symbols[d] == Symbol({}, Entity(None, true))
      ensures old(CurrScope()).symbols ==
        var subprogram := Subprogram([], None);
        if name in old(CurrScope().symbols)
        then old(CurrScope().symbols)[name := Redeclared(old(CurrScope().symbols)[name], attrs, subprogram)]
        else old(CurrScope().symbols)[name := Symbol(attrs, subprogram)]
      ensures sink.messages == old(sink.messages) +
        (if name in old(CurrScope().symbols) && !old(CurrScope().symbols)[name].details.Unknown?
         then [AlreadyDeclared(name), PreviousDeclaration(name)] else []) +
        DummyClashes(name, dummies)
      ensures fresh(Top()) && Top().types == map[] && !Top().isImplicitNoneType
    {
      ghost var outer := old(CurrScope());
      inner := PushSubprogramScope(name, attrs, Subprogram([], None));
      ghost var outerSymbols := outer.symbols;
      ghost var pushed := sink.messages;
      var i := 0;
      while i < |dummies|
        invariant 0 <= i <= |dummies|
        invariant Valid() && scopes == old(scopes) + [inner] && fresh(Top()) && Top().types == map[]
        invariant !Top().isImplicitNoneType
        invariant forall d :: d in inner.symbols <==> d == name || d in dummies[..i]
        invariant inner.symbols[name] == Symbol({}, Subprogram([], None))
        invariant forall d :: d in dummies[..i] && d != name ==> inner.symbols[d] == Symbol({}, Entity(None, true))
        invariant outer.symbols == outerSymbols
        invariant sink.messages == pushed + DummyClashes(name, dummies[..i])
      {
        var d := dummies[i];
        MakeSymbol(d, {}, Entity(None, true));
        assert dummies[..i + 1] == dummies[..i] + [d];
        assert dummies[..i + 1][..i] == dummies[..i];
        i := i + 1;
      }
      assert dummies[..i] == dummies;
      assert inner.symbols.Keys == {name} + set d | d in dummies;
    }

    /**
     * Pre(MainProgram): opens a main-program scope and declares the
     * program's name, when it has one, in it.
     */
    method PreMainProgram(name: Option<Name>) returns (inner: Scope)
      requires Valid()
      modifies this, sink`messages
      ensures Valid() && fresh(inner) && scopes == old(scopes) + [inner]
      ensures inner.symbols == if name.Some? then map[name.value := Symbol({}, MainProgram)] else map[]
      ensures fresh(Top()) && Top().types == map[] && !Top().isImplicitNoneType
      ensures !prevImplicit && !prevImplicitNone && !prevImplicitNoneType && !prevParameterStmt
      ensures sink.messages == old(sink.messages)
    {
      inner := new Scope();
      PushScope(inner);
      if name.Some? {
        MakeSymbol(name.value, {}, MainProgram);
      }
    }
  }

  /** The first occurrence of x in specs is at i exactly when specs[..i] lacks it and specs[i] is x. */
  lemma {:induction false} BeforeFirst(specs: seq<NoneNameSpec>, x: NoneNameSpec, i: nat)
    requires i < |specs| && specs[i] == x && x !in specs[..i]
    ensures Before(specs, x) == specs[..i]
  {
    if i > 0 {
      assert specs[0] in specs[..i];
      assert specs[1..][..i - 1] == specs[1..i];
      assert specs[1..i] == specs[..i][1..];
      BeforeFirst(specs[1..], x, i - 1);
    }
  }
}
