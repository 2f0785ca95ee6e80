# A verified model of the core of the f18 Fortran front end

This project models, in Dafny, the parts of the f18 Fortran compiler front
end that decide things by case analysis and small state machines, and proves
what their code promises. One module stands for each source file:

- **ResolveNames** (`lib/semantics/resolve-names.cc`): the IMPLICIT typing
  rules of a scope (section 8.7 of ISO/IEC 1539-1:2018), with the letter walk
  `Incr`, first-binding-wins `SetType` and `AddDefaultRules`. It also covers
  the ordering checks between IMPLICIT, IMPLICIT NONE and PARAMETER, and the
  symbol-table updates `MakeSymbol`, `Post(EntityDecl)`,
  `HandleAttributeStmt` and `ApplyImplicitRules`. A scope is a map from name
  to attributes and details, and diagnostics are an appended message list.
- **Prescan** (`lib/parser/prescan.cc`): the line classifiers of the
  prescanner. These are fixed- and free-form comment lines (sections 6.3.3
  and 6.3.2 of ISO/IEC 1539-1:2018), INCLUDE path extraction (section 6.4 of
  ISO/IEC 1539-1:2018), `#` directive lines,
  fixed-form continuation lines and compiler-directive sentinels. The
  classifiers are methods whose loops walk a position through one buffer.
- **Shapes** (`flang/lib/evaluate/shape.cc`): trip counts (section 11.1.7.4.1 of
  ISO/IEC 1539-1:2018),
  sizes, extents and bounds of dimensions, shapes of array references, calls
  and scalar constructs, and conformance checking. Extents are expressions
  that fold when constant and stay symbolic for descriptor inquiries.
- **EvaluateTools** (`lib/evaluate/tools.h`): typed expressions over
  (category, kind), wrapper layers, conversions, `ConvertToSameKind`,
  `EnsureKind` and `PromoteAndCombine`.
- **RealOperands** (`flang/lib/evaluate/tools.cc`): the case table of
  `ConvertRealOperands`, `ConvertToSameRealKind` and `ConvertToTypeOf`.
- **ScopeTree** (`flang/lib/Sema/Scope.cc`): scope creation under the
  kind/parent legality table, the two id counters, `add` and the lookups.
  Scopes and symbols live in a table addressed by index.
- **SemanticTypes** (`flang/lib/semantics/type.cc`): type-parameter checking,
  the interning cache of integer constants, component validation, the
  derived-type builder, and the rendering of bounds, shape specs and
  CHARACTER type specs.
- **Provenances** (`flang/lib/parser/provenance.h`): provenance arithmetic
  modulo 2^64 and intervals.
- **BitSets** (`lib/common/constexpr-bitset.h`): the word-sized bit set.
- **Calls** (`flang/lib/evaluate/call.h`): actual arguments and procedure
  references.
- **StaticData** (`lib/evaluate/static-data.h`): the static data object and
  its setters.
- **Mixins** (`lib/FIR/mixin.h`): mixin enabling conditions, `Zip` and
  `Unzip`.
- **Wrappers**: the Option type used throughout.

Where the source changes state in place (the bit set, the scope table, the
builders, the prescanner's sentinel set, the resolver's scope stack), the
model is a class whose methods state the whole new state. Each method is
proved against specification functions, and lemmas prove properties of
those functions. Where the source computes a value, the model uses
functions and lemmas. A CHECK, assert or die() that ends the compiler is
modelled in one of two ways. If the caller has to guarantee the condition,
it becomes a precondition. If the condition is the outcome being checked,
the failure becomes an observable result (None, false, or a named error)
that leaves the state unchanged.

## Model

| member | source | states |
|---|---|---|
| `BitSets.WordWidth` | lib/common/constexpr-bitset.h:31-33 | the storage word is 32 bits wide up to 32 elements and 64 bits above, so it always holds BITS positions |
| `BitSets.AllBits` | lib/common/constexpr-bitset.h:32-35 | allBits has exactly the positions below BITS set |
| `BitSets.BitSet.constructor` | lib/common/constexpr-bitset.h:40 | a default-constructed set is empty |
| `BitSets.BitSet.FromList` | lib/common/constexpr-bitset.h:41-45 | the initializer-list constructor sets exactly the listed elements, one set(x) each |
| `BitSets.BitSet.Test` | lib/common/constexpr-bitset.h:100-102 | test(x) is false for every x at or above BITS and otherwise tells whether bit x is set |
| `BitSets.BitSet.All` | lib/common/constexpr-bitset.h:104 | all() holds exactly when the word is allBits, and then every x below BITS tests true |
| `BitSets.BitSet.Any` | lib/common/constexpr-bitset.h:105 | any() holds exactly when some bit is set |
| `BitSets.BitSet.None` | lib/common/constexpr-bitset.h:106 | none() holds exactly when no bit is set |
| `BitSets.BitSet.Count` | lib/common/constexpr-bitset.h:108 | the population count is zero exactly when none() holds |
| `BitSets.CountIsNumberOfMembers` | lib/common/constexpr-bitset.h:100-108 | count() equals the number of positions x for which test(x) holds |
| `BitSets.AnyIsNotNone` | lib/common/constexpr-bitset.h:105-106 | any() is the negation of none() |
| `BitSets.BitSet.LeastElement` | lib/common/constexpr-bitset.h:139-145 | none exactly for the empty set; otherwise a member that is no larger than any other member |
| `BitSets.BitSet.SetAll` | lib/common/constexpr-bitset.h:110-113 | set() makes the word allBits, after which all() holds |
| `BitSets.BitSet.Set` | lib/common/constexpr-bitset.h:114-121 | set(x) adds x and test(x) then holds; set(x, false) removes x as reset(x) does; no other bit changes; the result is a copy of the new set |
| `BitSets.BitSet.ResetAll` | lib/common/constexpr-bitset.h:122-125 | reset() empties the set, after which none() holds |
| `BitSets.BitSet.Reset` | lib/common/constexpr-bitset.h:126-129 | reset(x) removes x only and test(x) is then false |
| `BitSets.BitSet.FlipAll` | lib/common/constexpr-bitset.h:130-133 | flip() xors the word with allBits: every x below BITS tests true exactly when it was not set |
| `BitSets.FlipTwice` | lib/common/constexpr-bitset.h:130-133 | applying flip() twice gives back the original word |
| `BitSets.BitSet.Flip` | lib/common/constexpr-bitset.h:134-137 | flip(x) toggles bit x and no other |
| `BitSets.BitSet.OrAssign` | lib/common/constexpr-bitset.h:67-74 | \|= makes the set the union of both |
| `BitSets.BitSet.AndAssign` | lib/common/constexpr-bitset.h:51-58 | &= makes the set the intersection of both |
| `BitSets.BitSet.XorAssign` | lib/common/constexpr-bitset.h:59-66 | ^= makes the set the symmetric difference of both |
| `BitSets.BitSet.Or` | lib/common/constexpr-bitset.h:85-88 | x is in a \| b exactly when it is in a or in b |
| `BitSets.BitSet.And` | lib/common/constexpr-bitset.h:77-80 | x is in a & b exactly when it is in both |
| `BitSets.BitSet.Xor` | lib/common/constexpr-bitset.h:81-83 | x is in a ^ b exactly when it is in one of them and not the other |
| `BitSets.BitSet.XorRvalueAsWritten` | lib/common/constexpr-bitset.h:84 | the rvalue overload of ^ as written yields the intersection a & b |
| `BitSets.BitSet.XorRvalue` | lib/common/constexpr-bitset.h:81-84 | the rvalue overload of ^, corrected, agrees with the lvalue overload: the symmetric difference |
| `BitSets.XorRvalueAsWrittenCounterexample` | lib/common/constexpr-bitset.h:84 | {0} ^ {1} through the rvalue overload as written is empty, where the intended result is {0, 1} |
| `BitSets.BitSet.ComplementAsWritten` | lib/common/constexpr-bitset.h:76 | ~ as written complements the whole storage word, positions between BITS and the word width included |
| `BitSets.BitSet.Complement` | lib/common/constexpr-bitset.h:34-76 | ~ masked to allBits stays below BITS, and x below BITS is in it exactly when test(x) was false |
| `BitSets.ComplementsAgreeBelowBits` | lib/common/constexpr-bitset.h:76 | the written and the corrected complement agree on every testable position |
| `BitSets.ComplementAsWrittenLeavesRange` | lib/common/constexpr-bitset.h:76-104 | with BITS = 8, ~ of the empty set as written has 32 members and is not allBits, so all() of it is false |
| `BitSets.ComplementTwice` | lib/common/constexpr-bitset.h:76 | the corrected complement stays within BITS and applying it twice is the identity |
| `BitSets.BitSet.Equal` | lib/common/constexpr-bitset.h:90-93 | == holds exactly when both sets have the same members |
| `BitSets.BitSet.NotEqualAsWritten` | lib/common/constexpr-bitset.h:94-97 | != as written returns the same answer as == |
| `BitSets.BitSet.NotEqual` | lib/common/constexpr-bitset.h:94-97 | != corrected is the negation of == |
| `BitSets.NotEqualAsWrittenOnEqualSets` | lib/common/constexpr-bitset.h:94-97 | for two equal sets the written != answers true and the corrected one false |
| `Provenances.Wrap` | flang/lib/parser/provenance.h:47-52 | offsets are size_t: a sum or difference is reduced modulo 2^64, and is unchanged when it is in range |
| `Provenances.FromOffset` | flang/lib/parser/provenance.h:39-61 | Provenance(offset) demands a positive offset and keeps it, so it never equals the default Provenance, whose offset is 0 |
| `Provenances.AsPtrDiff` | flang/lib/parser/provenance.h:45 | static_cast<ptrdiff_t> of an offset: the offset itself below 2^63, the offset minus 2^64 from 2^63 on |
| `Provenances.AddSigned` | flang/lib/parser/provenance.h:44-47 | p + n for a signed n demands n > -static_cast<ptrdiff_t>(offset), and an offset other than 2^63, whose cast cannot be negated; below 2^63 the offset moves by n, above it only a forward n that wraps past 2^64 is accepted and the offset becomes offset + n - 2^64; forward n without wrap is a later provenance at distance n and backward n an earlier one at distance -n |
| `Provenances.AddSize` | flang/lib/parser/provenance.h:49 | p + n for an unsigned n adds n to the offset, wrapping modulo 2^64 |
| `Provenances.LessEq` | flang/lib/parser/provenance.h:54-57 | <=, written as !(that < this), is the offset order: less than or equal |
| `Provenances.Sub` | flang/lib/parser/provenance.h:50-53 | q - p demands p <= q; it is the distance from p to q, zero exactly when they are equal |
| `Provenances.AddThenSub` | flang/lib/parser/provenance.h:49-53 | (p + n) - p == n when the sum does not wrap |
| `Provenances.SubThenAdd` | flang/lib/parser/provenance.h:49-53 | p + (q - p) == q for every q at or after p |
| `Provenances.Interval.NextAfter` | flang/lib/parser/provenance.h:108 | NextAfter() is the provenance one past the last member, start + size |
| `Provenances.Interval.Last` | flang/lib/parser/provenance.h:107 | Last() is start + size - 1 for a non-empty interval; for an empty one size - 1 wraps, landing one before start |
| `Provenances.Interval.Contains` | flang/lib/parser/provenance.h:83 | Contains(x) holds exactly when start <= x < start + size; the end start + size must be a valid Provenance only when start <= x, as the && builds it only then; an empty interval contains nothing |
| `Provenances.Interval.ContainsInterval` | flang/lib/parser/provenance.h:84-86 | the end of this interval must be a valid Provenance only when that.start is at or after start, and the last position of that only when that.start is contained, as each && evaluates its right side only then; an empty interval contains no interval |
| `Provenances.ContainsIntervalOutsideStart` | flang/lib/parser/provenance.h:84-86 | an interval that does not contain that.start does not contain that, whatever that.size, even when that's last position would wrap to 0, and even when this interval has no end because that.start lies below its start |
| `Provenances.EmptyIntervalBelowStart` | flang/lib/parser/provenance.h:84-86 | [5, 10) does not contain the empty interval at offset 1 |
| `Provenances.WrappingIntervalBelowStart` | flang/lib/parser/provenance.h:83-86 | the 5-byte interval ending at the top of size_t has no end Provenance, yet it does not contain offset 1 nor the interval of 3 bytes at offset 1 |
| `Provenances.ContainsIntervalIsInclusion` | flang/lib/parser/provenance.h:84-86 | for a non-empty interval, Contains(that) holds exactly when that starts no earlier and ends no later |
| `Provenances.Interval.ImmediatelyPrecedes` | flang/lib/parser/provenance.h:87-89 | ImmediatelyPrecedes(that) holds exactly when start + size is that.start |
| `Provenances.Interval.Annexed` | flang/lib/parser/provenance.h:90-96 | annexing succeeds exactly when this interval immediately precedes that; then the start is kept and the size grows by that.size, otherwise nothing changes |
| `Provenances.ProvenanceRange.constructor` | flang/lib/parser/provenance.h:68 | an interval from a start and a size |
| `Provenances.ProvenanceRange.AnnexIfPredecessor` | flang/lib/parser/provenance.h:90-96 | updates the size in place as Annexed describes, never the start, and returns whether it annexed |
| `Provenances.AnnexRequiresAdjacency` | flang/lib/parser/provenance.h:87-96 | annexing an interval that does not start at NextAfter() returns false and leaves the interval as it was |
| `Provenances.AnnexUnitesMembers` | flang/lib/parser/provenance.h:83-96 | after annexing, a provenance is a member exactly when it was a member of either interval |
| `Provenances.Interval.MemberOffset` | flang/lib/parser/provenance.h:98-101 | MemberOffset(x) demands Contains(x); it is the distance of x from start, below the size |
| `Provenances.Interval.OffsetMember` | flang/lib/parser/provenance.h:102-105 | OffsetMember(n) demands n < size; it is the provenance n past start |
| `Provenances.OffsetOfMemberRoundTrip` | flang/lib/parser/provenance.h:98-105 | OffsetMember(MemberOffset(x)) == x for every member x |
| `Provenances.MemberOfOffsetRoundTrip` | flang/lib/parser/provenance.h:98-105 | OffsetMember(n) is a member and MemberOffset of it is n, for every n below the size |
| `Provenances.Interval.Prefix` | flang/lib/parser/provenance.h:109 | Prefix(n) keeps the start and has size min(size, n) |
| `Provenances.Interval.Suffix` | flang/lib/parser/provenance.h:110-113 | Suffix(n) demands n <= size; it starts n later and its size plus n is the old size |
| `Provenances.PrefixPrecedesSuffix` | flang/lib/parser/provenance.h:87-113 | for n <= size, Prefix(n) immediately precedes Suffix(n), and annexing the suffix to the prefix gives back the whole interval |
| `Mixins.EnabledOnlyForItsKind` | lib/FIR/mixin.h:31-96 | where variant_size_v or tuple_size_v is undefined the empty primary template is chosen: the sum and copyable-sum mixins are enabled exactly for a variant with some alternative; the product mixin exactly for any type with tuple_size_v > 0, that is a tuple with some element, every pair, or an array of positive length; the maybe mixin exactly for an optional; an empty variant, tuple or array, or any other type, enables none; and no type enables mixins of two different families |
| `Mixins.Zip` | lib/FIR/mixin.h:110-118 | writes (xs[i], ys[i]) to consecutive positions from out, one per element of [first, last), touches nothing else, and returns out itself rather than the position past the last write |
| `Mixins.UnzipZipped` | lib/FIR/mixin.h:110-127 | taking zipped lists apart gives back the first list and the prefix of the second that was read |
| `Mixins.ZipUnzipped` | lib/FIR/mixin.h:110-127 | zipping the two halves of a list of pairs gives back the list |
| `Mixins.Unzip` | lib/FIR/mixin.h:120-127 | appends the first component of every pair to out.first and the second to out.second, in order, keeping what they held, and returns out |
| `Mixins.ZipThenUnzip` | lib/FIR/mixin.h:110-127 | unzipping what Zip wrote for two equal-length lists into an empty pair of vectors gives back the two lists |
| `Calls.Symbol.constructor` | flang/lib/evaluate/call.h:46-47 | a symbol with a name and whether it is ELEMENTAL; symbols are compared as objects |
| `Calls.AssumedTypeEquals` | flang/lib/evaluate/call.h:60-62 | two assumed types are equal exactly when they refer to the same symbol object |
| `Calls.AssumedTypeIsByIdentity` | flang/lib/evaluate/call.h:60-62 | two distinct symbol objects make unequal assumed types even when their names agree |
| `Calls.ActualArgument.FromExpr` | flang/lib/evaluate/call.h:70-135 | an argument built from an expression holds that expression, has no keyword, is neither an alternate return nor a passed object, and has intent Default |
| `Calls.ActualArgument.FromAssumedType` | flang/lib/evaluate/call.h:72-135 | an argument built from a TYPE(*) dummy holds it, with the same initial keyword, flags and intent |
| `Calls.ActualArgument.UnwrapExpr` | flang/lib/evaluate/call.h:76-91 | the held expression when u_ holds one, and null exactly when u_ holds an assumed type |
| `Calls.ActualArgument.GetAssumedTypeDummy` | flang/lib/evaluate/call.h:93-99 | the dummy's symbol when u_ holds an assumed type, and null exactly when u_ holds an expression |
| `Calls.ExactlyOneAlternative` | flang/lib/evaluate/call.h:76-131 | exactly one of UnwrapExpr() and GetAssumedTypeDummy() is non-null |
| `Calls.ActualArgument.SetKeyword` | flang/lib/evaluate/call.h:106-107 | set_keyword(x) makes keyword() return x and changes nothing else |
| `Calls.ActualArgument.SetIsAlternateReturn` | flang/lib/evaluate/call.h:108-109 | set_isAlternateReturn() sets the flag to true, the only value it can store, and changes nothing else |
| `Calls.ActualArgument.SetIsPassedObject` | flang/lib/evaluate/call.h:110-111 | set_isPassedObject(yes) stores yes, true by default, and changes nothing else |
| `Calls.ActualArgument.SetDummyIntent` | flang/lib/evaluate/call.h:114-118 | set_dummyIntent(intent) changes only the intent and returns the same object |
| `Calls.PassedObjectArgument` | flang/lib/evaluate/call.h:70-135 | a fresh argument marked as passed object with intent IN keeps its expression, stays without keyword and is not an alternate return |
| `Calls.ProcedureDesignator.GetSpecificIntrinsic` | flang/lib/evaluate/call.h:162-184 | non-null exactly when the designator is an intrinsic |
| `Calls.ProcedureDesignator.GetSymbol` | flang/lib/evaluate/call.h:162-184 | non-null exactly when the designator is a symbol or a component, giving the symbol or the component's symbol |
| `Calls.DesignatorHasOneReferent` | flang/lib/evaluate/call.h:162-164 | exactly one of GetSpecificIntrinsic() and GetSymbol() is non-null |
| `Calls.ProcedureDesignator.IsElemental` | flang/lib/evaluate/call.h:144-178 | an intrinsic is elemental as its characteristics say; a symbol or component is elemental as its symbol's ELEMENTAL attribute says |
| `Calls.ProcedureRef.constructor` | flang/lib/evaluate/call.h:190-191 | a reference holds the designator and the arguments it was given |
| `Calls.ProcedureRef.IsElemental` | flang/lib/evaluate/call.h:201 | a procedure reference is elemental exactly when its designator is |
| `StaticData.StaticDataObject.constructor` | lib/evaluate/static-data.h:59-63 | a new object has an empty name, alignment 0 and an empty, fresh data vector |
| `StaticData.StaticDataObject.Create` | lib/evaluate/static-data.h:38-63 | Create() returns a fresh object in that initial state |
| `StaticData.StaticDataObject.SetName` | lib/evaluate/static-data.h:40-44 | set_name(n) changes the name only and returns the same object |
| `StaticData.StaticDataObject.SetAlignment` | lib/evaluate/static-data.h:46-51 | set_alignment(a) demands a >= 0, changes the alignment only and returns the same object |
| `StaticData.Describe` | lib/evaluate/static-data.h:38-54 | naming, aligning and filling a created object through data() leaves it with exactly that name, alignment and byte contents: no step disturbs another |
| `StaticData.OverwriteByte` | lib/evaluate/static-data.h:53-54 | a write through data() persists in the object and leaves its other bytes, its name and its alignment unchanged |
| `ScopeTree.GlobalOf` | flang/lib/Sema/Scope.cc:165-173 | the walk up the parent chain stops at the nearest scope of kind Global, which is the scope itself or an ancestor, or finds none |
| `ScopeTree.SystemOf` | flang/lib/Sema/Scope.cc:153-162 | the walk up the parent chain stops at the nearest scope of kind System, or finds none |
| `ScopeTree.UnderGlobal` | flang/lib/Sema/Scope.cc:18-138 | under the kind/parent table every scope other than the System scope has a Global scope among itself and its ancestors, so the id of a new scope always comes from a Global counter |
| `ScopeTree.FindGlobal` | flang/lib/Sema/Scope.cc:165-173 | the loop of getGlobalScope returns the nearest Global scope among the scope and its ancestors, or none |
| `ScopeTree.ScopeTable.GetGlobalScope` | flang/lib/Sema/Scope.cc:165-179 | getGlobalScope returns the nearest Global scope among the scope and its ancestors, or none |
| `ScopeTree.ScopeTable.GetSystemScope` | flang/lib/Sema/Scope.cc:153-162 | getSystemScope returns the nearest System scope among the scope and its ancestors; none stands where it fails |
| `ScopeTree.Create` | flang/lib/Sema/Scope.cc:11-138 | the constructor body once its asserts pass: the System scope starts its counter at -1 and the Global scope at 2; any other scope takes its Global scope's counter as id and moves it on; the host is the parent except for an interface |
| `ScopeTree.CreatedValid` | flang/lib/Sema/Scope.cc:18-138 | creating a scope under a legal parent keeps every parent legal for its child and the ids below each Global scope's counter |
| `ScopeTree.CreatedScope` | flang/lib/Sema/Scope.cc:11-138 | the new scope has the kind, parent and naming symbol asked for, no entries, a host equal to its parent except for an interface, and an id larger than every id given before under the same Global scope |
| `ScopeTree.CreatedKeepsValid` | flang/lib/Sema/Scope.cc:11-138 | creating a scope keeps the whole table valid: tree, ids and entries owned by their scopes |
| `ScopeTree.ScopeTable.constructor` | flang/lib/Sema/Scope.cc:11-16 | the table starts with no scope and no symbol |
| `ScopeTree.ScopeTable.NewScope` | flang/lib/Sema/Scope.cc:11-138 | the Scope constructor: it succeeds exactly when every assert passes (the parent kind is legal for the kind; module, submodule, function, subroutine, block data and use-module scopes are named by a symbol the parent owns; program and block scopes check a given symbol, a block one a construct symbol); on success the new scope is appended as Create computes, otherwise nothing changes |
| `ScopeTree.ScopeTable.GetId` | flang/lib/Sema/Scope.cc:252-260 | getId is 0 for the System scope, 1 for the Global scope, and otherwise the id given at creation: at least 2 and below its Global scope's counter |
| `ScopeTree.ScopeTable.Add` | flang/lib/Sema/Scope.cc:263-268 | add(s) succeeds exactly when s is a symbol this scope owns, and then appends it to the scope's entries; nothing else changes |
| `ScopeTree.ScopeTable.Lookup` | flang/lib/Sema/Scope.cc:181-190 | never finds a symbol: only the Global scope asks its parent, which is the System scope, and every other scope answers null |
| `ScopeTree.LastMatch` | flang/lib/Sema/Scope.cc:199-229 | the last position whose symbol matches the name (and, for program units, is a module, program, subroutine, function or block data), with no match after it, or none when nothing matches |
| `ScopeTree.FindLast` | flang/lib/Sema/Scope.cc:199-231 | the reverse scan over the entries returns the symbol at LastMatch, or null |
| `ScopeTree.ScopeTable.LookupLocal` | flang/lib/Sema/Scope.cc:192-206 | null in the Global scope; otherwise the most recently added entry of the scope with the name, or null |
| `ScopeTree.ScopeTable.LookupProgramUnit` | flang/lib/Sema/Scope.cc:210-232 | the scope has a Global scope, and the result is the most recently added entry of it that is a program unit with the name, or null |
| `SemanticTypes.FirstMissing` | flang/lib/semantics/type.cc:16-23 | the first parameter definition, in declaration order, that has no default and no value, with every earlier one satisfied; none when every definition is satisfied |
| `SemanticTypes.CheckParams` | flang/lib/semantics/type.cc:12-30 | valid exactly when every definition without a default has a value and every value names a definition; otherwise the die() message: "no value or default value" for the first unsatisfied definition (reported before any invalid name), or "invalid parameter" for a value whose name no definition has |
| `SemanticTypes.CheckDerivedTypeSpec` | flang/lib/semantics/type.cc:139-146 | valid exactly when both the KIND and the LEN values pass checkParams; the KIND values are checked first: when they fail, the result is their failure (the first KIND definition without a value, else a KIND value naming no definition); only when they pass can a LEN failure be reported, with the same rule over the LEN lists |
| `SemanticTypes.IntConstCache.Make` | flang/lib/semantics/type.cc:36-48 | make(v) returns a constant holding v: the cached object for a value made before, with the cache unchanged; otherwise a fresh object added under v |
| `SemanticTypes.MakeTwice` | flang/lib/semantics/type.cc:42-48 | two calls of make with one value return the very same object, and the cache only grows |
| `SemanticTypes.ShapeSpecRoundTrip` | flang/lib/semantics/type.cc:174-199 | a bound renders as '*' when assumed, ':' when deferred, else its expression; a shape spec with an assumed lower bound (which must have an assumed upper bound) renders "..", otherwise lb ':' ub with deferred sides omitted; the text read back gives the shape spec again, so rendering loses nothing |
| `SemanticTypes.RenderBound` | flang/lib/semantics/type.cc:174-183 | a well-formed bound renders as "*" exactly when it is assumed and as ":" exactly when it is deferred |
| `SemanticTypes.RenderShapeSpec` | flang/lib/semantics/type.cc:185-199 | a shape spec renders as ".." exactly when its lower bound is assumed, and otherwise its text holds the ':' that separates the bounds |
| `SemanticTypes.CharacterTypeSpecRoundTrip` | flang/lib/semantics/type.cc:86-92 | CHARACTER(len) gets ", kind" only for a kind other than the default; the length and the kind are read back from the text |
| `SemanticTypes.RenderCharacterTypeSpec` | flang/lib/semantics/type.cc:86-92 | the text starts with "CHARACTER(" and ends with ')' |
| `SemanticTypes.CharacterKindShownIff` | flang/lib/semantics/type.cc:86-92 | for a length whose text holds no comma, the rendering holds a comma exactly when the kind is not the default one |
| `SemanticTypes.NewDataComponentDef` | flang/lib/semantics/type.cc:221-235 | the constructor succeeds exactly when the attributes are among Public, Private, Allocatable, Pointer and Contiguous and every dimension is deferred for an allocatable or pointer component and explicit otherwise; the component keeps what it was given |
| `SemanticTypes.NewProcComponentDef` | flang/lib/semantics/type.cc:253-262 | the constructor succeeds exactly when the Pointer attribute is present, every attribute is among Public, Private, NoPass, Pointer and Pass, and not both an interface name and a type are given; the built component keeps the declared name, the attributes, the interface name and the type |
| `SemanticTypes.DerivedTypeDefBuilder.constructor` | flang/lib/semantics/type.cc:274-275 | a builder starts from a definition with the name and nothing else |
| `SemanticTypes.DerivedTypeDefBuilder.Extends` | flang/lib/semantics/type.cc:277-280 | extends(x) sets the parent type and changes no other field |
| `SemanticTypes.DerivedTypeDefBuilder.AddAttr` | flang/lib/semantics/type.cc:281-286 | attr(x) unions in x without validating it and changes no other field |
| `SemanticTypes.DerivedTypeDefBuilder.AddAttrs` | flang/lib/semantics/type.cc:287-291 | attrs(x) succeeds exactly when x holds only ABSTRACT, PUBLIC, PRIVATE and BIND_C, and then unions x in; otherwise nothing changes |
| `SemanticTypes.DerivedTypeDefBuilder.LenParam` | flang/lib/semantics/type.cc:292-295 | lenParam(x) appends x at the end of the LEN parameters and changes no other field |
| `SemanticTypes.DerivedTypeDefBuilder.KindParam` | flang/lib/semantics/type.cc:296-299 | kindParam(x) appends x at the end of the KIND parameters and changes no other field |
| `SemanticTypes.DerivedTypeDefBuilder.DataComponent` | flang/lib/semantics/type.cc:300-304 | dataComponent(x) appends x at the end of the data components and changes no other field |
| `SemanticTypes.DerivedTypeDefBuilder.ProcComponent` | flang/lib/semantics/type.cc:305-309 | procComponent(x) appends x at the end of the procedure components and changes no other field |
| `SemanticTypes.DerivedTypeDefBuilder.SetPrivate` | flang/lib/semantics/type.cc:310-313 | Private(x) sets the private flag and changes no other field |
| `SemanticTypes.DerivedTypeDefBuilder.Sequence` | flang/lib/semantics/type.cc:314-317 | sequence(x) sets the sequence flag to x, which is true when omitted (as in the call `.sequence()` at line 347), and changes no other field |
| `SemanticTypes.BuildTwoComponents` | flang/lib/semantics/type.cc:274-304 | a type built with two data components holds them in the order they were added, and nothing else |
| `Shapes.Fold` | flang/lib/evaluate/shape.cc:137-147 | folding an extent expression never changes its value |
| `Shapes.FoldConstantIff` | flang/lib/evaluate/shape.cc:137-147 | a folded extent expression is a constant exactly when the expression has a value at compile time |
| `Shapes.CountTrips` | flang/lib/evaluate/shape.cc:149-153 | the trip-count expression has a value exactly when lower bound, upper bound and a nonzero stride all have values, and that value is the number of iterations of the DO loop with those parameters |
| `Shapes.CountTripsIfAll` | flang/lib/evaluate/shape.cc:161-165 | the overload on optional extents yields a trip count exactly when lower bound, upper bound and stride are all present |
| `Shapes.TripExprCounts` | flang/lib/evaluate/shape.cc:137-147 | the unfolded expression MAX((upper - lower + stride) / stride, 0) has a value exactly when all three operands do and the stride is nonzero, and then counts the iterations |
| `Shapes.TripsUpward` | flang/lib/evaluate/shape.cc:137-147 | for a positive stride the trip formula equals the number of iterations counted by stepping the index from lower to upper |
| `Shapes.TripsNegated` | flang/lib/evaluate/shape.cc:137-147 | a loop with a negative stride runs as often as the one on negated bounds and stride |
| `Shapes.TripsDownward` | flang/lib/evaluate/shape.cc:137-147 | for a negative stride the trip formula also equals the number of iterations counted by stepping |
| `Shapes.CountTripsCountsIterations` | flang/lib/evaluate/shape.cc:137-159 | CountTrips on constant bounds and a nonzero constant stride folds to the constant number of iterations of the DO loop with those parameters |
| `Shapes.CountTripsUnitStride` | flang/lib/evaluate/shape.cc:149-153 | CountTrips(1, 10, 1) folds to 10 |
| `Shapes.CountTripsZeroTrip` | flang/lib/evaluate/shape.cc:149-153 | CountTrips(10, 1, 1) folds to 0: the MAX with zero clamps an empty loop |
| `Shapes.CountTripsStrideTwo` | flang/lib/evaluate/shape.cc:149-153 | CountTrips(1, 10, 2) folds to 5 |
| `Shapes.GetSize` | flang/lib/evaluate/shape.cc:167-177 | the size is none exactly when some extent is unknown; it is 1 for a scalar; otherwise its value is the product of the extents' values |
| `Shapes.AsExtentArrayExpr` | flang/lib/evaluate/shape.cc:89-99 | the array constructor exists exactly when every extent is known, and holds the extents in order |
| `Shapes.AsShape` | flang/lib/evaluate/shape.cc:56-65 | a rank-one constant becomes one constant extent per element, in order |
| `Shapes.IsImpliedShape` | flang/lib/evaluate/shape.cc:26-41 | true exactly for an initialized PARAMETER object of positive rank whose every upper bound is deferred |
| `Shapes.IsExplicitShape` | flang/lib/evaluate/shape.cc:43-54 | true exactly for an object entity all of whose dimensions are explicit, so true for a scalar object and false for any other kind of symbol |
| `Shapes.GetLowerBound` | flang/lib/evaluate/shape.cc:188-205 | the declared lower bound folded, a lower-bound descriptor inquiry when it is not given, none for a dimension the object does not have |
| `Shapes.GetExtent` | flang/lib/evaluate/shape.cc:225-257 | the initializer's extent for an implied-shape constant; ub - lb + 1 folded, or ub when only that is given, for an explicit dimension; none for the last dimension of an assumed-size array; otherwise an extent descriptor inquiry |
| `Shapes.ExplicitExtent` | flang/lib/evaluate/shape.cc:237-242 | an explicit dimension lb:ub with constant bounds has the constant extent ub - lb + 1 |
| `Shapes.GetUpperBoundAsWritten` | flang/lib/evaluate/shape.cc:288-296 | the code as written gives a result exactly when lower bound and extent are both known |
| `Shapes.GetUpperBound` | flang/lib/evaluate/shape.cc:288-296 | the corrected upper bound lower + extent - 1 exists exactly when both are known |
| `Shapes.UpperBoundOfExtent` | flang/lib/evaluate/shape.cc:237-296 | the corrected upper bound recovered from a dimension's lower bound and its extent is the declared upper bound |
| `Shapes.UpperBoundAsWrittenCounterexample` | flang/lib/evaluate/shape.cc:288-296 | for lower bound 2 and extent 3 the code as written gives 2, the corrected one 4 |
| `Shapes.EntityShapeHasRank` | flang/lib/evaluate/shape.cc:314-326 | an object that is not an implied-shape constant has one extent per declared dimension |
| `Shapes.GetEntityShape` | flang/lib/evaluate/shape.cc:314-334 | the shape of a named entity: the initializer's shape for an implied-shape constant, the extents dimension by dimension for another object, the selector's shape for an associate entity, none otherwise |
| `Shapes.SubscriptExtentAsWritten` | flang/lib/evaluate/shape.cc:259-286 | as written, an omitted triplet upper bound stands for the dimension's extent; in every other case the result is the corrected one |
| `Shapes.GetSubscriptExtent` | flang/lib/evaluate/shape.cc:259-286 | corrected: a triplet selects the trip count, an omitted upper bound standing for the dimension's upper bound (lower bound + extent - 1) and an omitted lower bound for its lower bound; a vector subscript selects its one extent; a scalar or shapeless expression none |
| `Shapes.WholeDimensionSection` | flang/lib/evaluate/shape.cc:259-286 | corrected: the section a(:) of an explicit dimension lb:ub with constant bounds selects ub - lb + 1 elements, the dimension's extent |
| `Shapes.WholeSectionAsWrittenCounterexample` | flang/lib/evaluate/shape.cc:264-267 | as written, a(:) on a dimension 2:4 counts the trips from 2 to 3 and selects 2 elements; corrected, 3 |
| `Shapes.RankedExtentsCount` | flang/lib/evaluate/shape.cc:344-358 | an array reference has one extent per subscript of positive rank, and none exactly when every subscript is scalar |
| `Shapes.GetArrayRefShape` | flang/lib/evaluate/shape.cc:344-358 | the extents of the ranked subscripts in order, or the base's shape when every subscript is scalar |
| `Shapes.FirstRanked` | flang/lib/evaluate/shape.cc:415-419 | the index found is the first present argument of positive rank; none means no argument has positive rank |
| `Shapes.GetCallShape` | flang/lib/evaluate/shape.cc:411-442 | a scalar call has the empty shape; an elemental call the shape of its first ranked argument; a named procedure its result's shape; SHAPE, LBOUND and UBOUND a one-element vector; RESHAPE its SHAPE argument's value; anything else none |
| `Shapes.BoundInquiryShape` | flang/lib/evaluate/shape.cc:424-428 | SHAPE, LBOUND and UBOUND of an argument of rank n have the shape [n], of rank one |
| `Shapes.LeafShape` | flang/lib/evaluate/shape.cc:449-467 | structure constructors, implied-DO indices, descriptor inquiries and BOZ literals are scalar; the null pointer has no shape |
| `Shapes.FirstDiffer` | flang/lib/evaluate/shape.cc:479-491 | the dimension found is the first where both extents are known constants that differ; none means no such dimension |
| `Shapes.CheckConformance` | flang/lib/evaluate/shape.cc:469-495 | a scalar conforms with anything; different ranks fail with one rank message; equal ranks conform exactly when no dimension has two known, different extents, and otherwise fail with one message citing the first such dimension counted from 1; success says nothing |
| `EvaluateTools.Neg` | lib/evaluate/tools.h:29-32 | unary minus keeps the operand's specific type, and is well typed exactly when the operand is |
| `EvaluateTools.Combine` | lib/evaluate/tools.h:34-52 | +, -, * and / on two operands of one specific type have that type, and are well typed exactly when both operands are |
| `EvaluateTools.CategoryNeg` | lib/evaluate/tools.h:54-57 | unary minus of a category expression applies the operation of the operand's own kind: same category, same specific type, validity kept |
| `EvaluateTools.CategoryCombine` | lib/evaluate/tools.h:61-95 | a binary operator on two category expressions of one kind keeps the category and the specific type, and keeps validity |
| `EvaluateTools.AsCategoryExpr` | lib/evaluate/tools.h:107-115 | the category layer wraps the expression unchanged, under the category of its type; the wrapper is valid exactly when the expression is well typed |
| `EvaluateTools.AsGenericExpr` | lib/evaluate/tools.h:127-140 | the generic layer wraps the category layer around the unchanged expression; valid exactly when the expression is well typed |
| `EvaluateTools.ScalarAsGenericExpr` | lib/evaluate/tools.h:117-160 | a scalar becomes a valid constant expression of the scalar's own type, wrapped in the category and generic layers |
| `EvaluateTools.ConvertToType` | lib/evaluate/tools.h:166-169 | the conversion has the target type and converts exactly the given operand; well typed exactly when the operand is |
| `EvaluateTools.ConvertTo` | lib/evaluate/tools.h:171-181 | converting to a specific-kind expression yields the type of `to` with `from` as the converted operand |
| `EvaluateTools.ConvertToCategory` | lib/evaluate/tools.h:183-199 | converting to a category expression keeps the category and specific type of `to`, converts `from`, and is valid exactly when `from` is well typed |
| `EvaluateTools.ConvertToGeneric` | lib/evaluate/tools.h:201-208 | converting to a generic expression yields the specific type of `to` in both layers, converting `from` |
| `EvaluateTools.ConvertToSameKind` | lib/evaluate/tools.h:210-225 | of two valid expressions of one category the one of smaller kind is replaced in place by its conversion to the other's type and the other is untouched; equal kinds change nothing; afterwards both have the larger kind |
| `EvaluateTools.EnsureKind` | lib/evaluate/tools.h:252-278 | the result always has the target type and is well typed; an operand already of that type is returned unchanged; a COMPLEX operand of another kind is rebuilt from its real and imaginary parts converted to REAL of the target kind; any other gets one conversion |
| `EvaluateTools.EnsureKindIdempotent` | lib/evaluate/tools.h:252-278 | applying EnsureKind a second time changes nothing |
| `EvaluateTools.PromoteAndCombine` | lib/evaluate/tools.h:280-297 | the operation at the larger of the two kinds: the result is valid, of that kind, with the operand of that kind untouched and the other converted: outside COMPLEX by one conversion node, for COMPLEX by rebuilding it from its real and imaginary parts each converted to REAL of that kind |
| `EvaluateTools.PromoteIntegerKinds` | lib/evaluate/tools.h:280-297 | INTEGER(4) + INTEGER(8) converts the kind-4 operand alone, to INTEGER(8) |
| `RealOperands.ConvertToTypeOfAsWritten` | flang/lib/evaluate/tools.cc:23-33 | the code as written builds its result from `to` alone: a valid REAL expression of the type of `to` that converts `to` itself |
| `RealOperands.ConvertToTypeOfAsWrittenIgnoresFrom` | flang/lib/evaluate/tools.cc:23-68 | as written, the result is the same whatever INTEGER operand is passed, so that operand is lost from the pair; the corrected function converts it |
| `RealOperands.ConvertToTypeOf` | flang/lib/evaluate/tools.cc:23-33 | corrected: `from` converted to the REAL type of `to`, valid exactly when `from` is well typed |
| `RealOperands.ConvertToSameRealKind` | flang/lib/evaluate/tools.cc:35-48 | of two REAL expressions the one of smaller kind is replaced in place by its conversion to the other's type and the other is untouched; equal kinds change nothing; afterwards both have the larger kind |
| `RealOperands.RealOperandsAgree` | flang/lib/evaluate/tools.cc:50-79 | the pair fails exactly when an operand is neither INTEGER nor REAL; otherwise both results are valid REAL of one type: default REAL (kind 4) for two INTEGERs, the REAL operand's kind beside an INTEGER with that REAL operand untouched, the larger kind for two REALs |
| `RealOperands.ConvertRealOperands` | flang/lib/evaluate/tools.cc:50-79 | corrected: for an INTEGER beside a REAL it converts the INTEGER operand (with ConvertToTypeOf); otherwise it yields the pair described above; it appends "operands must be INTEGER or REAL" to the messages exactly once when it fails and nothing when it succeeds |
| `RealOperands.MixedOperandLostAsWritten` | flang/lib/evaluate/tools.cc:60-67 | as written, an INTEGER operand beside a REAL one is lost: the pair is the same for any two INTEGER operands, and its converted half is the REAL operand converted to its own type, where the corrected pair converts the INTEGER operand |
| `RealOperands.ConvertOptionalRealOperands` | flang/lib/evaluate/tools.cc:81-88 | with an operand absent: none and no message; with both present: the same as the overload on present operands |
| `Prescan.ToLower` | lib/parser/prescan.cc:475-479 | upper-case ASCII letters map to the corresponding lower-case letter, every other character to itself |
| `Prescan.SkipBlanks` | lib/parser/prescan.cc:461-463 | the scan over spaces and tabs stops at the first other character, which exists because the line ends with a newline, and passes over only blanks |
| `Prescan.SkipSpaces` | lib/parser/prescan.cc:538-539 | the scan over spaces stops at the first character that is not a space, and passes over only spaces |
| `Prescan.FixedBlankRun` | lib/parser/prescan.cc:434-447 | the fixed-form comment scan stops at the first position that is not a space, a tab, or a '0' in column 6 with no tab before it, and passes over only such positions |
| `Prescan.Unquote` | lib/parser/prescan.cc:486-496 | the path scan ends at the closing quote or at the newline, and the path read holds no newline |
| `Prescan.UnquoteDoubled` | lib/parser/prescan.cc:486-496 | reading back a path whose quotes are doubled, followed by a closing quote, gives the path and ends on the closing quote |
| `Prescan.Pack` | lib/parser/prescan.cc:735-750 | the packed sentinel is a 64-bit word: each character shifts it left by eight bits and the word wraps modulo 2^64 |
| `Prescan.PackLowered` | lib/parser/prescan.cc:735-738 | the loop computes the packed word of the lower-cased sentinel |
| `Prescan.Prescanner.constructor` | lib/parser/prescan.cc:17-19 | a prescanner over one newline-terminated buffer, with the source form and options given, no sentinels, an empty bloom filter and no messages |
| `Prescan.Prescanner.SkipBlankRun` | lib/parser/prescan.cc:472-482 | the blank-skipping loop stops where SkipBlanks does |
| `Prescan.Prescanner.IsFixedFormCommentLine` | lib/parser/prescan.cc:423-455 | in fixed form, a line is a comment when it starts with '*', 'C', 'c', '%' or (without old debug lines) 'D' or 'd'; or when its blank run reaches the column limit with no tab, ends at a '!' outside a character literal not in column 6 (unless a tab came first), or ends at the newline; never past the range or in free form |
| `Prescan.Prescanner.BlankFixedFormLineIsComment` | lib/parser/prescan.cc:434-454 | in fixed form a line holding only blanks up to its newline is a comment line |
| `Prescan.Prescanner.IsFreeFormComment` | lib/parser/prescan.cc:457-465 | in free form and within the range, a line is a comment exactly when its first non-blank character is '!' or the newline |
| `Prescan.Prescanner.MatchKeyword` | lib/parser/prescan.cc:475-479 | the seven characters at the position spell INCLUDE in any mixture of cases |
| `Prescan.Prescanner.ReadQuotedPath` | lib/parser/prescan.cc:486-496 | the loop reads the path and stops where Unquote says |
| `Prescan.Prescanner.IncludePath` | lib/parser/prescan.cc:483-505 | from the opening quote: with no closing quote, "malformed path name string" is said and no path results; otherwise the path results, and "excess characters after path name" is said when something other than blanks, '!' or the newline follows it |
| `Prescan.Prescanner.IncludeLine` | lib/parser/prescan.cc:467-505 | true exactly for a line within the range of blanks, INCLUDE in any case, blanks and an opening quote; false leaves the messages alone and yields no path; true yields the path with the diagnostics described for IncludePath |
| `Prescan.Prescanner.IncludeYieldsDoubledPath` | lib/parser/prescan.cc:486-500 | a path written between quotes with its quotes doubled is the path an INCLUDE line yields |
| `Prescan.Prescanner.IsPreprocessorDirectiveLine` | lib/parser/prescan.cc:533-546 | within the range, a '#' after leading spaces is a directive except in fixed form at column 6; failing that, a '#' after leading spaces and tabs |
| `Prescan.Prescanner.DirectiveAfterBlanks` | lib/parser/prescan.cc:533-546 | a '#' after leading blanks makes a directive line, exactly unless the form is fixed and the blanks are five spaces, which puts the '#' in the continuation column |
| `Prescan.Prescanner.FixedFormContinuationLine` | lib/parser/prescan.cc:592-615 | none past the range; '&' in column 1 resumes after it; a tab and a digit 1-9 resume after both and record the tab; five spaces and a column 6 other than newline, tab, space or '0' resume at column 7; otherwise the line resumes at its start inside open delimiters and is no continuation outside them; the resume point never passes the line's newline |
| `Prescan.Prescanner.IsCompilerDirectiveSentinel` | lib/parser/prescan.cc:745-755 | only the characters before the C string's terminator count; it is a sentinel exactly when it is not empty, both of its hashes are in the bloom filter and it is in the set |
| `Prescan.Prescanner.AddCompilerDirectiveSentinel` | lib/parser/prescan.cc:734-743 | the two hashes of the lower-cased sentinel join the bloom filter and the sentinel, as written, joins the set |
| `Prescan.LowerCaseSentinelRecognized` | lib/parser/prescan.cc:734-755 | a non-empty sentinel added in lower case is recognised afterwards |
| `Prescan.MixedCaseSentinelUnreachable` | lib/parser/prescan.cc:695-755 | a sentinel added with an upper-case letter never makes a lower-case word recognised: any lower-case word recognised afterwards was already in the set |
| `Prescan.SentinelsReadHaveNoUpperCase` | lib/parser/prescan.cc:689-730 | the words both directive classifiers read from a line hold no upper-case letter |
| `Prescan.SentinelOf` | lib/parser/prescan.cc:689-697 | the fixed-form sentinel read from columns holds at most one character per column and no space |
| `Prescan.LoweredRange` | lib/parser/prescan.cc:718-730 | the free-form word read holds one lower-cased character per column |
| `Prescan.WordEnd` | lib/parser/prescan.cc:718-728 | the free-form sentinel scan stops at the first blank, '&' or newline, and passes over none |
| `Prescan.CStringLength` | lib/parser/prescan.cc:748 | the length of a C string is the number of characters before its first '\0' |
| `Prescan.Prescanner.IsFreeFormCompilerDirectiveLine` | lib/parser/prescan.cc:705-732 | in free form within the range: '!' after blanks, then a word of one to four characters ended by a blank whose lower-cased form is a recognised sentinel; a blank right after '!', a newline, '&' or a fifth character make it false |
| `Prescan.Prescanner.ReadSentinelColumns` | lib/parser/prescan.cc:687-697 | the four sentinel columns contain no newline or tab exactly when the loop completes, and then the word is their non-blank characters lower-cased |
| `Prescan.Prescanner.IsFixedFormCompilerDirectiveLineAsWritten` | lib/parser/prescan.cc:676-703 | as written: in fixed form, '*', 'C', 'c' or '!' in column 1, no newline or tab in columns 3-6, a space or '0' in column 6, and the non-blank characters of columns 3-6 lower-cased a recognised sentinel |
| `Prescan.Prescanner.IsFixedFormCompilerDirectiveLine` | lib/parser/prescan.cc:676-703 | corrected: the same with the sentinel read from columns 2-5; a recognised sentinel of at most four characters results |
| `Prescan.Prescanner.FixedFormDirectiveColumnsCounterexample` | lib/parser/prescan.cc:688-690 | with "$omp" the only sentinel, the fixed-form line "!$omp x" is not a directive line as written |
| `Prescan.Prescanner.FixedFormDirectiveColumnsCorrected` | lib/parser/prescan.cc:676-703 | the same line is a directive line when columns 2-5 are read |
| `ResolveNames.Incr` | lib/semantics/resolve-names.cc:376-385 | the character after 'z' is '\0', which ends a walk; any other character is followed by the next one (wrapping to '\0' past 255 as an 8-bit char does) |
| `ResolveNames.WalkIncreases` | lib/semantics/resolve-names.cc:358-368 | the characters SetType visits climb strictly, so none is visited twice |
| `ResolveNames.WalkIsLetterRange` | lib/semantics/resolve-names.cc:358-385 | a walk between letters in order visits exactly the letters lo .. hi |
| `ResolveNames.WalkPastHiRunsToZ` | lib/semantics/resolve-names.cc:358-385 | with hi before lo the walk never meets hi and runs from lo to 'z' |
| `ResolveNames.BindKeepsBindings` | lib/semantics/resolve-names.cc:358-364 | emplacing never overwrites: old bindings survive unchanged, the walked letters become bound, and a newly bound letter gets the type given |
| `ResolveNames.ReboundOncePerBoundLetter` | lib/semantics/resolve-names.cc:358-364 | over a walk, "More than one implicit type specified" is said exactly once for each letter already bound and never for the others |
| `ResolveNames.WithDefaults` | lib/semantics/resolve-names.cc:371-374 | the default rules bind every letter, and every letter already bound keeps its type |
| `ResolveNames.DefaultsAreBound` | lib/semantics/resolve-names.cc:371-374 | binding i .. n to default INTEGER and then a .. z to default REAL leaves i .. n INTEGER and every other unbound letter REAL |
| `ResolveNames.EmplaceWalk` | lib/semantics/resolve-names.cc:356-369 | the loop of SetType leaves the map Bind gives over the walk and appends the messages Rebound gives, or none when applying the defaults |
| `ResolveNames.ImplicitRules.constructor` | lib/semantics/resolve-names.cc:347 | new rules report to the given handler, bind no letter and have neither IMPLICIT NONE flag set |
| `ResolveNames.ImplicitRules.GetType` | lib/semantics/resolve-names.cc:349-352 | the type bound to the character if there is one, none otherwise |
| `ResolveNames.ImplicitRules.SetType` | lib/semantics/resolve-names.cc:354-369 | every character of the walk from lo to hi is bound to the type unless already bound; each already-bound one is reported, except when applying the defaults |
| `ResolveNames.ImplicitRules.AddDefaultRules` | lib/semantics/resolve-names.cc:371-374 | afterwards every letter has a type, the rules are WithDefaults of the old ones, and nothing is reported |
| `ResolveNames.ImplicitNoneVerdict` | lib/semantics/resolve-names.cc:633-688 | an IMPLICIT NONE is accepted exactly when it draws no message, and draws at most one |
| `ResolveNames.NameSpecsVerdict` | lib/semantics/resolve-names.cc:651-686 | the name-specs are accepted exactly when they draw no message, and draw at most one |
| `ResolveNames.ImplicitNoneAcceptedIff` | lib/semantics/resolve-names.cc:633-688 | IMPLICIT NONE is accepted exactly when it is the first in the scope, precedes any PARAMETER statement, follows an IMPLICIT statement only when it names EXTERNAL alone, and names TYPE and EXTERNAL at most once each |
| `ResolveNames.SecondImplicitNoneRejected` | lib/semantics/resolve-names.cc:635-638 | a second IMPLICIT NONE is rejected with "More than one IMPLICIT NONE statement" whatever else came before |
| `ResolveNames.Redeclared` | lib/semantics/resolve-names.cc:321-333 | a name declared again gets the new attributes added; its details are replaced only when they were unknown |
| `ResolveNames.Implicitly` | lib/semantics/resolve-names.cc:819-834 | implicit typing keeps the attributes, turns an unknown symbol into an entity, leaves a typed one alone, and leaves a symbol untyped exactly when it was and its first character has no rule |
| `ResolveNames.ImplicitlyTypesLetterNames` | lib/semantics/resolve-names.cc:816-834 | after the default rules every name that starts with a letter has a type, and a declared type is kept |
| `ResolveNames.ImplicitlyTypeAll` | lib/semantics/resolve-names.cc:819-834 | the loop keeps the scope's names, leaves each symbol as Implicitly says, and reports each symbol left untyped exactly once, in whatever order the names come |
| `ResolveNames.Resolver.constructor` | lib/semantics/resolve-names.cc:203-206 | the visitor starts in the global scope with fresh rules and no statement seen |
| `ResolveNames.Resolver.PushScope` | lib/semantics/resolve-names.cc:622-628 | the scope and fresh rules are pushed, and no IMPLICIT, IMPLICIT NONE or PARAMETER statement counts as seen |
| `ResolveNames.Resolver.PopScope` | lib/semantics/resolve-names.cc:213-216 | the innermost scope and its rules are popped and the record of statements seen is left as it was |
| `ResolveNames.Resolver.PostParameterStmt` | lib/semantics/resolve-names.cc:572-574 | a PARAMETER statement is recorded as seen |
| `ResolveNames.Resolver.HandleImplicitNone` | lib/semantics/resolve-names.cc:633-688 | the answer and the one message are ImplicitNoneVerdict's; a second IMPLICIT NONE or one after PARAMETER changes no flag; otherwise IMPLICIT NONE is recorded, NONE(TYPE) is set when the list is empty or names TYPE, and NONE(EXTERNAL) when EXTERNAL is read before the loop stops |
| `ResolveNames.Resolver.HandleNameSpecs` | lib/semantics/resolve-names.cc:651-686 | the answer and message are NameSpecsVerdict's; the flags are set as the name-specs are read, up to the TYPE that stops the loop after an IMPLICIT statement |
| `ResolveNames.Resolver.ReadNameSpecs` | lib/semantics/resolve-names.cc:652-677 | the loop stops exactly on a TYPE after an IMPLICIT statement; otherwise it counts TYPE and EXTERNAL; the flags record what it read |
| `ResolveNames.Resolver.PreImplicitStmt` | lib/semantics/resolve-names.cc:576-594 | IMPLICIT NONE goes through HandleImplicitNone: its verdict and messages, the flags left alone after an earlier IMPLICIT NONE or a PARAMETER, and otherwise IMPLICIT NONE recorded with TYPE set for an empty list or a TYPE spec and EXTERNAL set for an EXTERNAL spec (after IMPLICIT, only one before the first TYPE); IMPLICIT with specs is refused with one message after IMPLICIT NONE(TYPE) and changes no flag; either way an IMPLICIT statement counts as seen afterwards |
| `ResolveNames.Resolver.PreLetterSpec` | lib/semantics/resolve-names.cc:596-611 | a range whose high letter precedes its low letter is reported and binds nothing; otherwise the range is bound as SetType does; the children are never visited |
| `ResolveNames.Resolver.ImplicitStatement` | lib/semantics/resolve-names.cc:576-620 | an IMPLICIT statement records itself; IMPLICIT NONE binds nothing, says what HandleImplicitNone's verdict says and sets the IMPLICIT NONE, TYPE and EXTERNAL flags as HandleImplicitNone does; IMPLICIT after IMPLICIT NONE(TYPE) binds nothing and is reported; otherwise the rules and the messages become what folding the letter-specs of each implicit-spec in order gives (ImplicitSpecsRules), and the IMPLICIT NONE flags are untouched |
| `ResolveNames.Resolver.PreImplicitSpecs` | lib/semantics/resolve-names.cc:596-611 | visiting the implicit-specs in order leaves the rules and messages that ImplicitSpecsRules gives |
| `ResolveNames.Resolver.PreLetterSpecs` | lib/semantics/resolve-names.cc:596-611 | visiting one implicit-spec's letter-specs in order leaves the rules and messages that LetterSpecsRules gives |
| `ResolveNames.ImplicitSpecsKeepRules` | lib/semantics/resolve-names.cc:576-611 | an IMPLICIT statement never changes a rule already made: every letter bound before keeps its type |
| `ResolveNames.LetterSpecBindsRange` | lib/semantics/resolve-names.cc:596-611 | a letter-spec lo - hi with lo <= hi, or a single letter, leaves every letter of its range bound, to its type unless bound before |
| `ResolveNames.OverlappingSpecsReported` | lib/semantics/resolve-names.cc:576-611 | IMPLICIT INTEGER (a-c), REAL (b) binds a, b and c to INTEGER and reports b once as having more than one implicit type |
| `ResolveNames.Resolver.MakeSymbol` | lib/semantics/resolve-names.cc:317-342 | a new name is entered with its attributes and details silently; a known one gets the attributes added and its details replaced only when unknown, and concrete details over concrete details say "already declared" and "Previous declaration" |
| `ResolveNames.Resolver.PostEntityDecl` | lib/semantics/resolve-names.cc:692-711 | the name is entered with the statement's attributes and becomes an entity of the declared type; an entity that already has a type keeps it and is reported; a symbol that is not an entity is reported as a redeclaration; no other name changes |
| `ResolveNames.Resolver.HandleAttributeStmt` | lib/semantics/resolve-names.cc:728-783 | every listed name gets the attribute, a new one being entered with that attribute alone; no other name changes; the children are not visited |
| `ResolveNames.Resolver.CheckImplicitSymbol` | lib/semantics/resolve-names.cc:279-299 | without IMPLICIT NONE(TYPE) a name is entered if absent and nothing is said; with it nothing is entered, and a name absent or unknown is reported |
| `ResolveNames.Resolver.PostSpecificationPart` | lib/semantics/resolve-names.cc:785-800 | under IMPLICIT NONE(TYPE) every untyped name of the scope is reported exactly once and nothing else is; otherwise nothing is said |
| `ResolveNames.Resolver.ApplyImplicitRules` | lib/semantics/resolve-names.cc:816-836 | under IMPLICIT NONE(TYPE) nothing changes; otherwise the default rules are added, every symbol becomes Implicitly(symbol) and every symbol left untyped is reported exactly once |
| `ResolveNames.Resolver.PostEndProgramUnit` | lib/semantics/resolve-names.cc:802-814 | at the end of a subroutine, function or main program (also lines 909-914) the implicit rules are applied and the scope left: under IMPLICIT NONE(TYPE) the rules, the symbols and the messages are unchanged; otherwise the default rules are added to the map, every symbol of the scope left becomes its implicitly typed self with no symbol added or removed and none unknown, and exactly the untyped names are reported after the old messages |
| `ResolveNames.Resolver.PushSubprogramScope` | lib/semantics/resolve-names.cc:890-896 | the subprogram is declared in the enclosing scope, a fresh scope is pushed, and the name is declared in it as well |
| `ResolveNames.Resolver.PostSubroutineStmt` | lib/semantics/resolve-names.cc:854-864 | the enclosing scope gets the subroutine's name with the pending attributes (or a redeclaration report), a fresh scope is pushed that holds the name, with details that list no dummies, and each dummy argument as a dummy entity; the messages grow by the redeclaration of the name in the enclosing scope, if any, followed by one already-declared report per dummy that repeats the name or an earlier dummy |
| `ResolveNames.DummyClashesNoneIff` | lib/semantics/resolve-names.cc:854-864 | declaring the dummies reports nothing exactly when none of them is the subroutine's name and no two of them are equal |
| `ResolveNames.Resolver.PreMainProgram` | lib/semantics/resolve-names.cc:898-907 | a fresh main-program scope is pushed, holding the program's name when it has one, and nothing is said |

## Left out

- Constants defined in files outside this model are fixed as follows. The
  prescanner's two bloom-filter primes are constructor parameters, because
  their values are in prescan.h, which is not part of this model. The default
  CHARACTER kind is taken as 0 and the default REAL kind as 4.
- `ShapeSpec::isExplicit` and `isDeferred` come from type.h, which is not
  part of this model. They are taken as "the upper bound is explicit" and
  "the lower bound is deferred".
- Fixed-width integer overflow in extent arithmetic (INTEGER(8)) and in the
  ids of the scope counters is not modelled: extents and ids are unbounded
  integers. Provenance offsets do wrap modulo 2^64.
- Shapes: the internals of `Fold` are modelled only for integer `+ - * /`
  and MAX over constants. A division by a constant zero stays unfolded.
  `DescriptorInquiry` and opaque specification expressions stay symbolic.
- Shapes: `GetShape` of a coarray reference, a DataRef, a substring, a
  complex part and a relational operation are not modelled. Neither are
  `AsConstantShape`, `AsConstantExtents`, `GetLowerBounds` and the
  `ContainsAnyImpliedDoIndex` visitor.
- Prescan: the `Prescan` main loop, `NextToken`/`NextChar`, token emission,
  `PadOutCharacterLiteral` and the preprocessor calls are not modelled. These
  are cursor juggling and output. `CommentLines`,
  `CommentLinesAndPreprocessorDirectives`, `FixedFormContinuation` and
  `FreeFormContinuation` are left out for the same reason: they drive the
  token stream.
- Prescan.Prescanner.IncludeLine: only the path extraction and its
  diagnostic are modelled. Opening the included file and prescanning it
  recursively are file I/O.
- Prescan.Prescanner.AddCompilerDirectiveSentinel: this stores the sentinel
  as given and hashes its lowercased form. A sentinel added with uppercase
  letters can never be found by the line classifiers, which lowercase what
  they read. `Prescan.MixedCaseSentinelUnreachable` states this behaviour
  rather than correcting it.
- ResolveNames: the parse-tree `Walk` plumbing, the `std::cout` scope dumps,
  `messages.Emit(std::cerr)` in `ResolveNames`, `GetKindParamValue`, the
  attribute and type visitors that feed `DeclTypeSpec`, and `operator<<` of
  ImplicitRules are not modelled. A DeclTypeSpec arrives as a value.
- ResolveNames: `Post(FunctionStmt)` is not modelled. Its result-name
  handling depends on parse-tree parts outside this model. Subroutine scopes,
  main programs and the end of program units are modelled.
- ResolveNames.Resolver.PostSpecificationPart: the messages are stated as
  one per untyped name, in an order left open. The source emits them in the
  name order of a std::map.
- ResolveNames.Resolver.ApplyImplicitRules: like PostSpecificationPart, the
  order of the "No explicit type" messages is left open.
- ResolveNames.ImplicitRules.SetType: the walk computes the new map and the
  new messages as values, which are then assigned. Nothing else can observe
  the intermediate states.
- SemanticTypes.CheckParams: when several supplied values name no
  definition, the model says only that some such name is reported. The
  source reports the first in std::map name order.
- SemanticTypes: the rendering of DerivedTypeDef, DerivedTypeSpec,
  DataComponentDef, ProcComponentDef and DeclTypeSpec is not modelled. Nor
  is the rendering of a component's DeclTypeSpec, whose type is in files
  outside this model. The builder's `return *this` chaining becomes a
  sequence of method calls.
- SemanticTypes.IntConstCache.Make: the function-local static cache of
  `IntConst::make` is an explicit cache object passed by the caller.
- ScopeTree: `toString` depends on Scope.def, which is not part of this
  model, and `LookupModule` is a stub. Both are left out, as is the stderr
  trace in `LookupProgramUnit`. The System-counter branch of the constructor
  is not modelled; `ScopeTree.UnderGlobal` proves it unreachable under the
  kind/parent table.
- Calls: `characteristics`, `Fold` and `AsFortran` are foreign. So are the
  ActualArgument constructors' and `ProcedureDesignator::IsElemental`'s
  bodies in call.cc, which is not part of this model. An intrinsic's and a
  symbol's ELEMENTAL property are therefore fields. `operator=`,
  `Parenthesize`, `GetType`, `Rank` and `Matches` of ActualArgument are not
  modelled.
- Mixins: `ChildMixin` (`getParent`, `getList`) depends on `llvm::iplist`
  and is left out. The copy and move semantics of the mixins are not
  modelled.
- StaticData: `StaticDataObject::Dump` is output and is not modelled. The
  shared pointer returned by `Create` is a fresh object.
- BitSets: `size()` returns the constant BITS and is not modelled further.
- EvaluateTools: the C++ template parameters are run-time fields, and the
  static typing they give is the predicate `WellTyped`.
  `ScalarConstantToExpr`, `AsExpr` and `NumericOperation` are not modelled;
  the last is only declared.
- Provenances: `AllSources`, `OffsetToProvenanceMappings` and
  `CookedSource` are declared only and involve file I/O.

## Findings

| source | as written | input that shows it | evidently intended | confidence | as-written member | corrected member |
|---|---|---|---|---|---|---|
| lib/common/constexpr-bitset.h:84 | the rvalue `operator^` combines the words with `&` | {0} ^ {1} gives {} | {0, 1}, the symmetric difference, which the lvalue `^` and `^=` give | high; not executed | `BitSets.BitSet.XorRvalueAsWritten`, `BitSets.XorRvalueAsWrittenCounterexample` | `BitSets.BitSet.XorRvalue` |
| lib/common/constexpr-bitset.h:76 | `operator~` complements the whole word without masking it to allBits | ~{} with BITS = 8 has bit 8 set, so count() is 32 | only the positions below BITS, so that every set position stays below BITS and count() <= BITS | high; not executed | `BitSets.BitSet.ComplementAsWritten`, `BitSets.ComplementAsWrittenLeavesRange` | `BitSets.BitSet.Complement`, `BitSets.ComplementTwice` |
| lib/common/constexpr-bitset.h:94-97 | `operator!=` returns `bits_ == that.bits_` | x != x is true for every x | the negation of `==` | high; not executed | `BitSets.BitSet.NotEqualAsWritten`, `BitSets.NotEqualAsWrittenOnEqualSets` | `BitSets.BitSet.NotEqual` |
| lib/parser/prescan.cc:688-690 | the fixed-form directive check advances p past the '!' and then reads `*++p`, so it takes the sentinel from columns 3-6 | the line "!$omp x" with sentinel "$omp" added is not recognised | the sentinel from columns 2-5, right after the comment character | medium; not executed | `Prescan.Prescanner.IsFixedFormCompilerDirectiveLineAsWritten`, `Prescan.Prescanner.FixedFormDirectiveColumnsCounterexample` | `Prescan.Prescanner.IsFixedFormCompilerDirectiveLine`, `Prescan.Prescanner.FixedFormDirectiveColumnsCorrected` |
| flang/lib/evaluate/shape.cc:288-296 | GetUpperBound computes extent - lower bound + 1 | lower bound 2 and extent 3 give 2 | extent + lower bound - 1 = 4, the inverse of GetExtent's ub - lb + 1 | high; not executed | `Shapes.GetUpperBoundAsWritten`, `Shapes.UpperBoundAsWrittenCounterexample` | `Shapes.GetUpperBound`, `Shapes.UpperBoundOfExtent` |
| flang/lib/evaluate/shape.cc:264-267 | an omitted triplet upper bound is replaced by GetExtent of the dimension | a(:) on a dimension 2:4 counts the trips from 2 to 3 and selects 2 elements | the dimension's upper bound, so that a(:) selects the 3 elements of the dimension | medium; not executed | `Shapes.SubscriptExtentAsWritten`, `Shapes.WholeSectionAsWrittenCounterexample` | `Shapes.GetSubscriptExtent`, `Shapes.WholeDimensionSection` |
| flang/lib/evaluate/tools.cc:23-33 | ConvertToTypeOf builds its result from `to` and never uses `from` | to = x of REAL(8) and from = i of INTEGER(4) give x converted to REAL(8), the same result for every from | `from` converted to the kind of `to` | high; not executed | `RealOperands.ConvertToTypeOfAsWritten`, `RealOperands.ConvertToTypeOfAsWrittenIgnoresFrom`, `RealOperands.MixedOperandLostAsWritten` | `RealOperands.ConvertToTypeOf`, `RealOperands.ConvertRealOperands` |
