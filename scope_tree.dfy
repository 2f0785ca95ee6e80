/**
 * The scope tree: scopes of a fixed set of kinds, each created under a
 * parent whose kind that kind admits, some named by a symbol owned by the
 * parent.  The System scope is the root and the Global scope its child;
 * scopes below the Global scope are numbered 2, 3, ... in order of
 * creation from a counter the Global scope keeps.  A scope holds the
 * symbols added to it, in order.
 *
 * Scopes and symbols live in one table and refer to each other by index,
 * standing for the pointers of the C++ source.  A failed assert() or fail(),
 * which ends the compiler, is modelled as a None or false outcome that
 * leaves the table unchanged.
 */
module ScopeTree {
  import opened Wrappers

  datatype ScopeKind =
    | System | Global | Program | Module | Submodule | Function | Subroutine
    | BlockData | UseModule | Block | DerivedType | Interface

  /** The kinds of symbol that LookupProgramUnit and the Block check distinguish. */
  datatype SymbolKind =
    | ModuleSymbol | ProgramSymbol | SubroutineSymbol | FunctionSymbol | BlockDataSymbol
    | ConstructSymbol | OtherSymbol

  datatype SymbolData = SymbolData(name: string, owner: nat, kind: SymbolKind)

  /**
   * A scope: its kind, the id or (for the System and Global scopes) the id
   * counter, the symbol naming it, its parent, its host, and its entries.
   */
  datatype ScopeData = ScopeData(kind: ScopeKind, idOrCounter: int, self: Option<nat>,
                                 parent: Option<nat>, host: Option<nat>, entries: seq<nat>)

  /** The parent kinds each kind of scope admits. */
  function LegalParents(k: ScopeKind): set<ScopeKind> {
    match k
    case System => {}
    case Global => {System}
    case Program => {Global}
    case Module => {Global}
    case Submodule => {Global}
    case Function => {Global, Program, Module, Function, Subroutine, Interface, UseModule}
    case Subroutine => {Global, Program, Module, Function, Subroutine, Interface, UseModule}
    case BlockData => {Global}
    case UseModule => {Global}
    case Block => {Program, Block, Function, Subroutine}
    case DerivedType => {Program, Module, Function, Subroutine, Interface, UseModule}
    case Interface => {Program, Module, Function, Subroutine, UseModule}
  }

  /** The kinds that must be named by a symbol owned by the parent. */
  predicate NeedsSelf(k: ScopeKind) {
    k in {Module, Submodule, Function, Subroutine, BlockData, UseModule}
  }

  /** The kinds that check a naming symbol only when one is given. */
  predicate ChecksSelfIfGiven(k: ScopeKind) {
    k in {Program, Block}
  }

  predicate NonRoot(k: ScopeKind) {
    k != System && k != Global
  }

  /** Every parent was created before its child. */
  predicate ParentsBefore(scopes: seq<ScopeData>) {
    forall i :: 0 <= i < |scopes| && scopes[i].parent.Some? ==> scopes[i].parent.value < i
  }

  /** The nearest scope of kind Global among i and its ancestors. */
  function GlobalOf(scopes: seq<ScopeData>, i: nat): (r: Option<nat>)
    requires ParentsBefore(scopes) && i < |scopes|
    ensures r.Some? ==> r.value <= i && scopes[r.value].kind == Global
    decreases i
  {
    if scopes[i].kind == Global then Some(i)
    else if scopes[i].parent.None? then None
    else GlobalOf(scopes, scopes[i].parent.value)
  }

  /** The nearest scope of kind System among i and its ancestors. */
  function SystemOf(scopes: seq<ScopeData>, i: nat): (r: Option<nat>)
    requires ParentsBefore(scopes) && i < |scopes|
    ensures r.Some? ==> r.value <= i && scopes[r.value].kind == System
    decreases i
  {
    if scopes[i].kind == System then Some(i)
    else if scopes[i].parent.None? then None
    else SystemOf(scopes, scopes[i].parent.value)
  }

  /** Two tables agree on the kinds and parents of the scopes of the first. */
  predicate SameTree(before: seq<ScopeData>, after: seq<ScopeData>) {
    |before| <= |after| &&
    forall k :: 0 <= k < |before| ==> after[k].kind == before[k].kind && after[k].parent == before[k].parent
  }

  lemma {:induction false} GlobalOfStable(before: seq<ScopeData>, after: seq<ScopeData>, i: nat)
    requires ParentsBefore(before) && ParentsBefore(after) && SameTree(before, after) && i < |before|
    ensures GlobalOf(after, i) == GlobalOf(before, i)
    decreases i
  {
    if before[i].kind != Global && before[i].parent.Some? {
      GlobalOfStable(before, after, before[i].parent.value);
    }
  }

  /** The kind/parent table holds for every scope, and the host is the parent except for an interface. */
  predicate WellFormedTree(scopes: seq<ScopeData>) {
    ParentsBefore(scopes) &&
    (forall i :: 0 <= i < |scopes| ==> (scopes[i].kind == System <==> scopes[i].parent.None?)) &&
    (forall i :: 0 <= i < |scopes| && scopes[i].parent.Some? ==>
      scopes[scopes[i].parent.value].kind in LegalParents(scopes[i].kind)) &&
    (forall i :: 0 <= i < |scopes| ==>
      scopes[i].host == if scopes[i].kind == Interface then None else scopes[i].parent)
  }

  /** Every scope other than the System scope lies under a Global scope. */
  lemma {:induction false} UnderGlobal(scopes: seq<ScopeData>, i: nat)
    requires WellFormedTree(scopes) && i < |scopes| && scopes[i].kind != System
    ensures GlobalOf(scopes, i).Some?
    decreases i
  {
    if scopes[i].kind != Global {
      var p := scopes[i].parent.value;
      assert scopes[p].kind in LegalParents(scopes[i].kind);
      UnderGlobal(scopes, p);
    }
  }

  /** The ids below each Global scope lie between 2 and that scope's counter. */
  predicate IdsBelowCounter(scopes: seq<ScopeData>)
    requires WellFormedTree(scopes)
  {
    (forall i :: 0 <= i < |scopes| && scopes[i].kind == Global ==> scopes[i].idOrCounter >= 2) &&
    (forall i :: 0 <= i < |scopes| && NonRoot(scopes[i].kind) ==>
      GlobalOf(scopes, i).Some? && 2 <= scopes[i].idOrCounter < scopes[GlobalOf(scopes, i).value].idOrCounter)
  }

  /** Every entry of every scope is a symbol that scope owns. */
  predicate EntriesOwned(scopes: seq<ScopeData>, symbols: seq<SymbolData>) {
    forall i, k :: 0 <= i < |scopes| && 0 <= k < |scopes[i].entries| ==>
      scopes[i].entries[k] < |symbols| && symbols[scopes[i].entries[k]].owner == i
  }

  /** The Block check: a naming symbol of a BLOCK is a construct symbol. */
  function SelfAllowed(kind: ScopeKind, parent: nat, self: Option<nat>, symbols: seq<SymbolData>): bool
    requires self.Some? ==> self.value < |symbols|
  {
    if NeedsSelf(kind) then self.Some? && symbols[self.value].owner == parent
    else if ChecksSelfIfGiven(kind) && self.Some? then
      symbols[self.value].owner == parent && (kind == Block ==> symbols[self.value].kind == ConstructSymbol)
    else true
  }

  /** Whether the constructor's asserts all pass. */
  function ScopeAllowed(scopes: seq<ScopeData>, symbols: seq<SymbolData>, kind: ScopeKind,
                        parent: Option<nat>, self: Option<nat>): bool
    requires parent.Some? ==> parent.value < |scopes|
    requires self.Some? ==> self.value < |symbols|
  {
    if kind == System then parent.None?
    else (parent.Some? && scopes[parent.value].kind in LegalParents(kind) &&
          SelfAllowed(kind, parent.value, self, symbols))
  }

  /** The parent a scope of this kind may be created under. */
  predicate ParentLegal(scopes: seq<ScopeData>, kind: ScopeKind, parent: Option<nat>) {
    if kind == System then parent.None?
    else parent.Some? && parent.value < |scopes| && scopes[parent.value].kind in LegalParents(kind)
  }

  /**
   * The table after a scope is created: the System scope starts its
   * counter at -1 and the Global scope at 2; any other scope takes the id
   * its Global scope's counter holds, and that counter moves on by one.
   * The host is the parent, except for an interface, which has none.
   */
  function Created(scopes: seq<ScopeData>, kind: ScopeKind, parent: Option<nat>, self: Option<nat>): seq<ScopeData>
    requires WellFormedTree(scopes) && ParentLegal(scopes, kind, parent)
  {
    if kind == System then scopes + [FreshScope(System, -1, self, parent)]
    else if kind == Global then scopes + [FreshScope(Global, 2, self, parent)]
    else
      UnderGlobal(scopes, parent.value);
      var g := GlobalOf(scopes, parent.value).value;
      Counted(scopes, g, FreshScope(kind, scopes[g].idOrCounter, self, parent))
  }

  /** A new scope with no symbols; its host is its parent, except for an interface, which has none. */
  function FreshScope(kind: ScopeKind, id: int, self: Option<nat>, parent: Option<nat>): ScopeData {
    ScopeData(kind, id, self, parent, if kind == Interface then None else parent, [])
  }

  /** The table once the counter of g has moved on by one and created has been appended. */
  function Counted(scopes: seq<ScopeData>, g: nat, created: ScopeData): seq<ScopeData>
    requires g < |scopes|
  {
    scopes[g := scopes[g].(idOrCounter := scopes[g].idOrCounter + 1)] + [created]
  }

  /** The walk up the parent chain that getGlobalScope performs. */
  method FindGlobal(scopes: seq<ScopeData>, i: nat) returns (r: Option<nat>)
    requires ParentsBefore(scopes) && i < |scopes|
    ensures r == GlobalOf(scopes, i)
  {
    var scope: Option<nat> := Some(i);
    while scope.Some?
      invariant scope.Some? ==> scope.value < |scopes| && GlobalOf(scopes, scope.value) == GlobalOf(scopes, i)
      invariant scope.None? ==> GlobalOf(scopes, i).None?
      decreases if scope.Some? then scope.value + 1 else 0
    {
      if scopes[scope.value].kind == Global {
        return scope;
      }
      scope := scopes[scope.value].parent;
    }
    return None;
  }

  /**
   * The body of the Scope constructor once its asserts have passed: the
   * new scope, with its id taken from (and the counter moved on in) the
   * Global scope found by walking up from the parent.
   */
  method Create(scopes: seq<ScopeData>, kind: ScopeKind, parent: Option<nat>, self: Option<nat>)
    returns (after: seq<ScopeData>)
    requires WellFormedTree(scopes) && ParentLegal(scopes, kind, parent)
    ensures after == Created(scopes, kind, parent, self)
  {
    var host := if kind == Interface then None else parent;
    if kind == System || kind == Global {
      var counter := if kind == System then -1 else 2;
      return scopes + [ScopeData(kind, counter, self, parent, host, [])];
    }
    var p := parent.value;
    UnderGlobal(scopes, p);
    var g := FindGlobal(scopes, p);
    var id := scopes[g.value].idOrCounter;
    after := scopes[g.value := scopes[g.value].(idOrCounter := id + 1)] + [ScopeData(kind, id, self, parent, host, [])];
  }

  /** Creating a scope keeps the tree well formed and the ids below their counters. */
  lemma CreatedValid(scopes: seq<ScopeData>, kind: ScopeKind, parent: Option<nat>, self: Option<nat>)
    requires WellFormedTree(scopes) && IdsBelowCounter(scopes) && ParentLegal(scopes, kind, parent)
    ensures var after := Created(scopes, kind, parent, self);
      WellFormedTree(after) && IdsBelowCounter(after) && SameTree(scopes, after) && |after| == |scopes| + 1
  {
    var after := Created(scopes, kind, parent, self);
    if kind == System || kind == Global {
      var created := FreshScope(kind, if kind == System then -1 else 2, self, parent);
      assert after == scopes + [created];
      RootAdded(scopes, created);
      TreeAppended(scopes, created);
    } else {
      CreatedBelowGlobalValid(scopes, kind, parent, self);
    }
  }

  /** CreatedValid for a scope below a Global scope, whose counter moves on. */
  lemma CreatedBelowGlobalValid(scopes: seq<ScopeData>, kind: ScopeKind, parent: Option<nat>, self: Option<nat>)
    requires WellFormedTree(scopes) && IdsBelowCounter(scopes) && ParentLegal(scopes, kind, parent)
    requires kind != System && kind != Global
    ensures var after := Created(scopes, kind, parent, self);
      WellFormedTree(after) && IdsBelowCounter(after) && SameTree(scopes, after) && |after| == |scopes| + 1
  {
    var p := parent.value;
    UnderGlobal(scopes, p);
    var g := GlobalOf(scopes, p).value;
    var created := FreshScope(kind, scopes[g].idOrCounter, self, parent);
    CountedScopeAdded(scopes, p, g, created);
    assert Counted(scopes, g, created) == scopes[g := scopes[g].(idOrCounter := scopes[g].idOrCounter + 1)] + [created];
  }

  /**
   * Moving the counter of g on and appending a scope below p, whose Global
   * scope g is, with the id the counter held, keeps the tree well formed
   * and the ids below their counters.
   */
  lemma CountedScopeAdded(scopes: seq<ScopeData>, p: nat, g: nat, created: ScopeData)
    requires WellFormedTree(scopes) && IdsBelowCounter(scopes)
    requires p < |scopes| && GlobalOf(scopes, p) == Some(g)
    requires NonRoot(created.kind) && created.parent == Some(p) && scopes[p].kind in LegalParents(created.kind)
    requires created.host == (if created.kind == Interface then None else created.parent)
    requires created.idOrCounter == scopes[g].idOrCounter
    ensures var after := scopes[g := scopes[g].(idOrCounter := scopes[g].idOrCounter + 1)] + [created];
      WellFormedTree(after) && IdsBelowCounter(after) && SameTree(scopes, after) && |after| == |scopes| + 1
  {
    var mid := scopes[g := scopes[g].(idOrCounter := scopes[g].idOrCounter + 1)];
    CounterMoved(scopes, g);
    assert GlobalOf(mid, p) == Some(g);
    ScopeAdded(mid, p, g, created);
    SameTreeAppended(scopes, mid, created);
  }

  /** Appending a scope keeps the agreement with an earlier table. */
  lemma SameTreeAppended(before: seq<ScopeData>, mid: seq<ScopeData>, created: ScopeData)
    requires SameTree(before, mid)
    ensures SameTree(before, mid + [created])
  {
    assert forall k :: 0 <= k < |mid| ==> (mid + [created])[k] == mid[k];
  }

  /**
   * The created scope has the kind, parent and naming symbol asked for, no
   * entries, and a host that is its parent unless it is an interface.  A
   * scope below a Global scope gets an id larger than that of every scope
   * created before it below the same Global scope.
   */
  lemma CreatedScope(scopes: seq<ScopeData>, kind: ScopeKind, parent: Option<nat>, self: Option<nat>)
    requires WellFormedTree(scopes) && IdsBelowCounter(scopes) && ParentLegal(scopes, kind, parent)
    ensures var after, n := Created(scopes, kind, parent, self), |scopes|;
      |after| == n + 1 && after[n].kind == kind && after[n].parent == parent && after[n].self == self &&
      after[n].entries == [] && after[n].host == (if kind == Interface then None else parent)
    ensures var after, n := Created(scopes, kind, parent, self), |scopes|;
      NonRoot(kind) ==>
        GlobalOf(after, n).Some? && GlobalOf(after, n) == GlobalOf(scopes, parent.value) &&
        forall k :: 0 <= k < n && NonRoot(scopes[k].kind) && GlobalOf(scopes, k) == GlobalOf(after, n) ==>
          after[k].idOrCounter < after[n].idOrCounter
  {
    CreatedValid(scopes, kind, parent, self);
    var after, n := Created(scopes, kind, parent, self), |scopes|;
    if NonRoot(kind) {
      var p := parent.value;
      UnderGlobal(scopes, p);
      GlobalOfStableAll(scopes, after);
      assert GlobalOf(after, n) == GlobalOf(after, p);
    }
  }

  lemma CreatedKeepsValid(scopes: seq<ScopeData>, symbols: seq<SymbolData>, kind: ScopeKind,
                          parent: Option<nat>, self: Option<nat>)
    requires TableValid(scopes, symbols) && ParentLegal(scopes, kind, parent)
    ensures TableValid(Created(scopes, kind, parent, self), symbols)
  {
    var after := Created(scopes, kind, parent, self);
    CreatedValid(scopes, kind, parent, self);
    EntriesKept(scopes, after, symbols);
  }

  /** Entries of the scopes already there are kept, and the new scope has none. */
  lemma EntriesKept(before: seq<ScopeData>, after: seq<ScopeData>, symbols: seq<SymbolData>)
    requires EntriesOwned(before, symbols) && |before| < |after|
    requires forall k :: 0 <= k < |before| ==> after[k].entries == before[k].entries
    requires forall k :: |before| <= k < |after| ==> after[k].entries == []
    ensures EntriesOwned(after, symbols)
  {
  }

  /** The invariant of the table: a well-formed tree, ids below their counters, entries owned. */
  predicate TableValid(scopes: seq<ScopeData>, symbols: seq<SymbolData>) {
    WellFormedTree(scopes) && IdsBelowCounter(scopes) &&
    (forall i :: 0 <= i < |symbols| ==> symbols[i].owner < |scopes|) &&
    EntriesOwned(scopes, symbols)
  }

  class ScopeTable {
    var scopes: seq<ScopeData>
    var symbols: seq<SymbolData>

    predicate Valid()
      reads this
    {
      TableValid(scopes, symbols)
    }

    constructor ()
      ensures Valid() && scopes == [] && symbols == []
    {
      scopes := [];
      symbols := [];
    }

    /** getId: 0 for the System scope, 1 for the Global scope, else the id given at creation. */
    function GetId(i: nat): (r: int)
      requires Valid() && i < |scopes|
      reads this
      ensures scopes[i].kind == System ==> r == 0
      ensures scopes[i].kind == Global ==> r == 1
      ensures NonRoot(scopes[i].kind) ==> 2 <= r < scopes[GlobalOf(scopes, i).value].idOrCounter
    {
      if scopes[i].kind == System then 0
      else if scopes[i].kind == Global then 1
      else scopes[i].idOrCounter
    }

    /** A symbol of the table (Symbol itself is not part of this model). */
    method NewSymbol(name: string, owner: nat, kind: SymbolKind) returns (s: nat)
      requires Valid() && owner < |scopes|
      modifies this
      ensures Valid() && scopes == old(scopes)
      ensures s == |old(symbols)| && symbols == old(symbols) + [SymbolData(name, owner, kind)]
    {
      symbols := symbols + [SymbolData(name, owner, kind)];
      s := |symbols| - 1;
    }

    /** getGlobalScope: the nearest Global scope among i and its ancestors, or none. */
    method GetGlobalScope(i: nat) returns (r: Option<nat>)
      requires Valid() && i < |scopes|
      ensures r == GlobalOf(scopes, i)
    {
      r := FindGlobal(scopes, i);
    }

    /** getSystemScope: the nearest System scope among i and its ancestors; None where it fails. */
    method GetSystemScope(i: nat) returns (r: Option<nat>)
      requires Valid() && i < |scopes|
      ensures r == SystemOf(scopes, i)
    {
      var scope: Option<nat> := Some(i);
      while scope.Some?
        invariant scope.Some? ==> scope.value < |scopes| && SystemOf(scopes, scope.value) == SystemOf(scopes, i)
        invariant scope.None? ==> SystemOf(scopes, i).None?
        decreases if scope.Some? then scope.value + 1 else 0
      {
        if scopes[scope.value].kind == System {
          return scope;
        }
        scope := scopes[scope.value].parent;
      }
      return None;
    }

    /**
     * The Scope constructor.  Where an assert fails, None and no change;
     * otherwise the new scope is the last of the table, as Created says.
     */
    method NewScope(kind: ScopeKind, parent: Option<nat>, self: Option<nat>) returns (r: Option<nat>)
      requires Valid()
      requires parent.Some? ==> parent.value < |scopes|
      requires self.Some? ==> self.value < |symbols|
      modifies this
      ensures Valid() && symbols == old(symbols)
      ensures r.Some? <==> ScopeAllowed(old(scopes), symbols, kind, parent, self)
      ensures r.None? ==> scopes == old(scopes)
      ensures r.Some? ==> r == Some(|old(scopes)|) && scopes == Created(old(scopes), kind, parent, self)
    {
      var allowed := ScopeAllowed(scopes, symbols, kind, parent, self);
      if !allowed {
        return None;
      }
      assert ParentLegal(scopes, kind, parent);
      CreatedKeepsValid(scopes, symbols, kind, parent, self);
      r := Some(|scopes|);
      scopes := Create(scopes, kind, parent, self);
    }

    /** add: appends a symbol this scope owns; false (and no change) where an assert fails. */
    method Add(i: nat, s: Option<nat>) returns (ok: bool)
      requires Valid() && i < |scopes| && (s.Some? ==> s.value < |symbols|)
      modifies this
      ensures Valid() && symbols == old(symbols) && |scopes| == |old(scopes)|
      ensures ok <==> s.Some? && symbols[s.value].owner == i
      ensures !ok ==> scopes == old(scopes)
      ensures ok ==> scopes == old(scopes)[i := old(scopes[i]).(entries := old(scopes[i].entries) + [s.value])]
    {
      if s.None? || symbols[s.value].owner != i {
        return false;
      }
      ghost var before := scopes;
      scopes := scopes[i := scopes[i].(entries := scopes[i].entries + [s.value])];
      assert SameTree(before, scopes);
      forall k | 0 <= k < |scopes|
        ensures GlobalOf(scopes, k) == GlobalOf(before, k)
      {
        GlobalOfStable(before, scopes, k);
      }
      return true;
    }

    /**
     * Lookup: only the Global scope asks its parent, and every other scope
     * answers none; since the Global scope's parent is the System scope,
     * Lookup never finds a symbol.
     */
    function Lookup(i: nat, name: string): (r: Option<nat>)
      requires Valid() && i < |scopes|
      reads this
      ensures r.None?
      decreases i
    {
      if scopes[i].kind == Global then Lookup(scopes[i].parent.value, name) else None
    }

    /**
     * LookupLocal: none in the Global scope; otherwise the most recently
     * added entry of that name, or none.
     */
    method LookupLocal(i: nat, name: string) returns (r: Option<nat>)
      requires Valid() && i < |scopes|
      ensures scopes[i].kind == Global ==> r.None?
      ensures scopes[i].kind != Global ==> r == Found(scopes[i].entries, LastMatch(scopes[i].entries, symbols, name, false))
    {
      if scopes[i].kind == Global {
        return None;
      }
      r := FindLast(scopes[i].entries, symbols, name, false);
    }

    /**
     * LookupProgramUnit: the most recently added entry of the Global scope
     * that is a module, program, subroutine, function or block data and has
     * the name; or none.
     */
    method LookupProgramUnit(i: nat, name: string) returns (r: Option<nat>)
      requires Valid() && i < |scopes| && scopes[i].kind != System
      ensures GlobalOf(scopes, i).Some?
      ensures var entries := scopes[GlobalOf(scopes, i).value].entries;
        r == Found(entries, LastMatch(entries, symbols, name, true))
    {
      UnderGlobal(scopes, i);
      var g := GetGlobalScope(i);
      r := FindLast(scopes[g.value].entries, symbols, name, true);
    }
  }

  /** The symbol has the name and, when only program units count, is one. */
  predicate Matches(s: SymbolData, name: string, unitsOnly: bool) {
    s.name == name && (unitsOnly ==> IsProgramUnit(s))
  }

  /** The position of the last entry whose symbol matches, if any. */
  function LastMatch(entries: seq<nat>, symbols: seq<SymbolData>, name: string, unitsOnly: bool): (r: Option<nat>)
    requires forall k :: 0 <= k < |entries| ==> entries[k] < |symbols|
    ensures r.Some? ==> r.value < |entries| && Matches(symbols[entries[r.value]], name, unitsOnly)
    ensures r.Some? ==> forall m :: r.value < m < |entries| ==> !Matches(symbols[entries[m]], name, unitsOnly)
    ensures r.None? ==> forall m :: 0 <= m < |entries| ==> !Matches(symbols[entries[m]], name, unitsOnly)
  {
    if entries == [] then None
    else if Matches(symbols[entries[|entries| - 1]], name, unitsOnly) then Some(|entries| - 1)
    else LastMatch(entries[..|entries| - 1], symbols, name, unitsOnly)
  }

  /** The reverse scan of both lookups: the last matching entry, or none. */
  method FindLast(entries: seq<nat>, symbols: seq<SymbolData>, name: string, unitsOnly: bool) returns (r: Option<nat>)
    requires forall k :: 0 <= k < |entries| ==> entries[k] < |symbols|
    ensures r == Found(entries, LastMatch(entries, symbols, name, unitsOnly))
  {
    var k := |entries|;
    while k > 0
      invariant 0 <= k <= |entries|
      invariant LastMatch(entries, symbols, name, unitsOnly) == LastMatch(entries[..k], symbols, name, unitsOnly)
    {
      k := k - 1;
      assert entries[..k + 1][..k] == entries[..k];
      if Matches(symbols[entries[k]], name, unitsOnly) {
        return Some(entries[k]);
      }
    }
    return None;
  }

  /** The entry at a position, if any. */
  function Found(entries: seq<nat>, k: Option<nat>): Option<nat>
    requires k.Some? ==> k.value < |entries|
  {
    if k.Some? then Some(entries[k.value]) else None
  }

  predicate IsProgramUnit(s: SymbolData) {
    s.kind in {ModuleSymbol, ProgramSymbol, SubroutineSymbol, FunctionSymbol, BlockDataSymbol}
  }

  lemma GlobalOfStableAll(before: seq<ScopeData>, after: seq<ScopeData>)
    requires ParentsBefore(before) && ParentsBefore(after) && SameTree(before, after)
    ensures forall k :: 0 <= k < |before| ==> GlobalOf(after, k) == GlobalOf(before, k)
  {
    forall k | 0 <= k < |before|
      ensures GlobalOf(after, k) == GlobalOf(before, k)
    {
      GlobalOfStable(before, after, k);
    }
  }

  /** Appending a scope whose parent is legal keeps the tree well formed. */
  lemma TreeAppended(before: seq<ScopeData>, created: ScopeData)
    requires WellFormedTree(before)
    requires created.kind == System <==> created.parent.None?
    requires created.parent.Some? ==>
      created.parent.value < |before| && before[created.parent.value].kind in LegalParents(created.kind)
    requires created.host == (if created.kind == Interface then None else created.parent)
    ensures WellFormedTree(before + [created]) && SameTree(before, before + [created])
  {
    var after := before + [created];
    forall i | 0 <= i < |after|
      ensures after[i] == if i < |before| then before[i] else created
    {
    }
  }

  /** Moving a Global scope's counter on keeps the tree well formed and the ids below their counters. */
  lemma CounterMoved(before: seq<ScopeData>, g: nat)
    requires WellFormedTree(before) && IdsBelowCounter(before) && g < |before| && before[g].kind == Global
    ensures var after := before[g := before[g].(idOrCounter := before[g].idOrCounter + 1)];
      WellFormedTree(after) && IdsBelowCounter(after) && SameTree(before, after) &&
      forall k :: 0 <= k < |before| ==> GlobalOf(after, k) == GlobalOf(before, k)
  {
    var after := before[g := before[g].(idOrCounter := before[g].idOrCounter + 1)];
    assert SameTree(before, after);
    GlobalOfStableAll(before, after);
  }

  /** Appending a System or Global scope keeps the ids below their counters. */
  lemma RootAdded(before: seq<ScopeData>, created: ScopeData)
    requires WellFormedTree(before) && IdsBelowCounter(before)
    requires created.kind in {System, Global} && created.idOrCounter >= 2 - (if created.kind == System then 3 else 0)
    requires created.kind == System <==> created.parent.None?
    requires created.parent.Some? ==>
      created.parent.value < |before| && before[created.parent.value].kind in LegalParents(created.kind)
    requires created.host == created.parent
    ensures WellFormedTree(before + [created]) && IdsBelowCounter(before + [created])
  {
    var after := before + [created];
    TreeAppended(before, created);
    GlobalOfStableAll(before, after);
  }

  /**
   * Appending a scope below parent p, whose Global scope is g, with the id
   * g's counter held once that counter has moved on, keeps the ids below
   * their counters.
   */
  lemma ScopeAdded(mid: seq<ScopeData>, p: nat, g: nat, created: ScopeData)
    requires WellFormedTree(mid) && IdsBelowCounter(mid)
    requires p < |mid| && GlobalOf(mid, p) == Some(g)
    requires NonRoot(created.kind) && created.parent == Some(p) && mid[p].kind in LegalParents(created.kind)
    requires created.host == (if created.kind == Interface then None else created.parent)
    requires 2 <= created.idOrCounter < mid[g].idOrCounter
    ensures var after := mid + [created];
      WellFormedTree(after) && IdsBelowCounter(after) && GlobalOf(after, |mid|) == Some(g) &&
      forall k :: 0 <= k < |mid| ==> GlobalOf(after, k) == GlobalOf(mid, k)
  {
    var after := mid + [created];
    var n := |mid|;
    TreeAppended(mid, created);
    GlobalOfStableAll(mid, after);
    assert GlobalOf(after, n) == GlobalOf(after, p);
    forall i | 0 <= i < |after| && NonRoot(after[i].kind)
      ensures GlobalOf(after, i).Some? && 2 <= after[i].idOrCounter < after[GlobalOf(after, i).value].idOrCounter
    {
      if i < n {
        var h := GlobalOf(mid, i).value;
        assert after[i] == mid[i] && after[h] == mid[h];
      } else {
        assert after[g] == mid[g];
      }
    }
  }
}
