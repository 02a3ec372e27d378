# Verified model of the Wasmnizer-ts compiler core and array runtime

Wasmnizer-ts compiles TypeScript to WebAssembly GC. This project models the parts of it in which
several passes or several operations have to agree, and proves that they do.

- **Statement lowering** (`Lowering*.dfy`). Source statements and lowered statements each get a
  fuel-indexed semantics over scopes, frames and a shared heap of arrays. The statement processor, with
  its three label stacks, is proved equal to a lowering function. What the lowered form of any program does
  is told on the source (`LoweringEmitted.Emitted`), with outcome, final state and divergence; for
  exactly characterised switches and under two conditions on for-of loops that is the meaning of the
  source. Every jump reaches the innermost construct it may target. No construct reuses a label of a construct
  around it.
- **Type ids** (`TypeIds.dfy`, `TypeReferences.dfy`, `TypeIdAllocation.dfy`, `TypeIdWalk.dfy`,
  `RecGroups.dfy`, `ShapeStaleness.dfy`, `TypeShapes.dfy`). The depth-first allocation over a possibly
  cyclic reference graph, with three colours, the shape table, the cycle branch and the naming of object
  types. Its invariants say which classes take the cycle branch, when two classes share an id, and that
  a recorded shape stays the current one for exactly the classes whose shapes rest on their references. Shape strings are parsed back, unions included, which tells what members two classes with
  one id have in common.
- **Closure conversion** (`ScopeTree.dfy`, `CaptureMarking.dfy`, `ClosureConversion.dfy`,
  `ClosureSoundness.dfy`, `ContextLoads.dfy`). Marking captured variables, giving them slots in a chain
  of contexts, walking that chain from any environment between a use and its declaration, and the loads
  the walk makes at run time.
- **Numbering of locals, name mangling, interface layout** (`LocalNumbering.dfy`, `Mangling.dfy`,
  `InterfaceLayout.dfy`).
- **The growable array** (`GrowableArray.dfy`, `QuickSort.dfy`, `ArrayJoin.dfy`). Each operation of
  the struct of a backing store and a length is proved against an operation on sequences, alone and
  over whole runs. The sort is proved to permute, and to sort exactly when every partition separates.
- **The data segment** (`Alignment.dfy`, `StringBytes.dfy`, `DataSegment.dfy`). 32-bit rounding down to
  the bits, interning, disjointness, and what a reader finds in the flattened block.
- **String literal escapes** (`Escapes.dfy`).

Objects whose methods update fields are classes here. Each method states its whole new state through a
step function on a snapshot of the object, and the properties are lemmas about those step functions.
`Prelude.dfy` holds small shared datatypes, joining, and the decimal numerals of labels and ids.

Assumptions: allocation succeeds, sums of lengths stay inside 32 bits, `wasm_array_obj_copy` moves
(reads before it writes), array indexes are integers, comparators are pure functions.

## What the code does differently from what one may expect

- An emitted switch tests its cases, then branches to the default, which stands behind all cases
  wherever it was written; without a default, control falls from the tests into the body of the first
  case (`src/backend/binaryen/wasm_stmt_gen.ts:281-328`). So a list of clauses is emitted correctly for
  all subjects and bodies exactly when it is empty or ends in its default
  (`LoweringSwitch.SwitchPreservedIff`, with `DefaultFirstChangesMeaning` and
  `MissingDefaultChangesMeaning` as failing programs). What any other switch runs is
  `LoweringSwitch.DefaultRunsLast`, `MatchRunsAsWritten` and `NoMatchRunsAll`.
- The element assignment of a lowered for-of loop is put inside the body's scope and evaluates the
  iterated expression again in every round, against a length taken once. So meaning is preserved under
  two conditions, `LoweringEmitted.Unshadowed` (no name of the assignment is redeclared by the
  body's own scope, and the body is not itself an unbraced for-of loop) and `LoweringEmitted.Stable`
  (the body keeps the array and its length). For loops over a variable whose body keeps the array, the
  first condition is exact for braced and unbraced bodies alike (`LoweringForOf.KeepingLoopsPreservedIff`). Every part of the two conditions
  has a program that changes its meaning without it: `ShadowingChangesMeaning` (declaring the loop
  variable or the array), `UnbracedNestingChangesMeaning`, `ReassigningChangesMeaning`,
  `GrowingArrayChangesMeaning`, `ExtendingWriteChangesMeaning`. `KeepingIsStable` gives a check on the
  body's syntax that suffices for the second condition; it admits element writes guarded by the length.
- The names collected in `continueFlagMap` are never removed, so a later loop at the same depth can
  carry a continue label that nothing in it targets (`src/statement.ts:500`). The flags are threaded
  through the model in just this way.
- A loop entry is overwritten when another loop is closed before the first one ends (`src/type.ts:2802`), and
  nothing is open once that one has ended (`src/type.ts:2826-2828`). So a class on a cycle can be left out
  of all rec groups (`RecGroups.OuterLoopIsLost`); when a class does join one is `TypeIdWalk.JoinsIffOpen`.
- A union prints its members by name (`src/type.ts:467-471`, `src/type.ts:824-828`,
  `src/type.ts:2882-2883`). An object type has no name until its id is allocated (`src/type.ts:2798-2800`,
  `src/type.ts:2817-2819`), and a union makes no references (`src/type.ts:2773-2788`). A static accessor
  makes none either, as it has the static modifier (`src/type.ts:2768`), and is still in the shape, as its
  kind is that of an accessor (`src/type.ts:2512-2517`, `src/type.ts:2855`). So such a shape can be taken
  too early. With `class A` before and `class B` behind an object type `P`, both with a field of the union
  of `P` and `string`, the recorded shape of `A` is stale at the end and `B` gets another id
  (`ShapeStaleness.UnionGoesStale`). While they have no name or id, different object types and different
  classes look alike (`ShapeStaleness.AnonymousLookAlike`, `ShapeStaleness.AccessorsShareId`).
  `TypeIds.RestsOnRefsIff` says exactly for which classes the shape rests on the references, and
  `TypeIds.GuardedIff` what that asks of the program text; the classes above fail it
  (`ShapeStaleness.UnionNotGuarded`, `ShapeStaleness.AccessorNotGuarded`). The theorems about current shapes are about
  these classes; the others share ids by their recorded shapes (`TypeIdAllocation.SharedIdIffSameRecord`).
- `getTypeString` leaves out the last parameter of a function type unless it is a rest parameter
  (`src/type.ts:2890-2907`), and an array of functions reads like a function that returns an array. So
  `{ f(x: number): void }` and `{ f(x: string): void }` share a shape, and with it a type id
  (`TypeShapes.ParameterTypesShareShape`). `TypeShapes.SharedIdIffSameMembers` says exactly what members
  of sharing classes have in common.
- A partition's scans stop where they meet, even on an element above the pivot
  (`runtime-library/stdlib/lib_array.c:382`, `runtime-library/stdlib/lib_array.c:407`), so `[1, 2, 5, 0]` is not sorted
  (`QuickSort.UnsortedResult`).
- `copyWithin` takes an `undefined` end for 0, so `[1, 2, 3].copyWithin(0, 1)` changes nothing
  (`GrowableArray.UndefinedEndDiffers`); `GrowableArray.UndefinedEndAgreesIff` says when that makes no
  difference.
- `splice` computes the delete count of a call without one from the unclamped start; clamping then
  gives the standard's count (`GrowableArray.ClampCount`).
- Past 2^31 the rounding expression leaves the range of its 32-bit operators
  (`Alignment.AlignIsLeastMultipleIff`).
- An escape outside the known ones is dropped with the character behind the backslash: `\0` vanishes,
  `\u0041` becomes `0041`, `\u{41}` becomes `{41}`, a CR LF line continuation leaves the line feed
  (`Escapes.UnfaithfulPieces`, `Escapes.UnfaithfulCodePoint`). Such mistakes change the string of every
  literal (`Escapes.StandardIffFaithful`), except that they can cancel out in one with both a CR LF
  continuation and `\u{a}` (`Escapes.MistakesCancel`).
- A string with U+0000 is stored whole, but a reader that stops at the first NUL gets only what stands
  before it (`DataSegment.StringReadsBackIff`).

## Model

| member | source | states |
|---|---|---|
| Lowering.StatementProcessor.VisitNode | src/statement.ts:661-990 | visiting any well-scoped statement yields the lowered form, grows the continue flags as the lowering function says, and leaves all three label stacks as they were |
| Lowering.StatementProcessor.VisitLoopBody | src/statement.ts:661-813 | a loop body is visited with its loop pushed on both stacks; afterwards the stacks are restored |
| Lowering.StatementProcessor.VisitStatements | src/statement.ts:625-660 | statement lists are visited in order, sharing the growing set of continue flags |
| Lowering.StatementProcessor.VisitClauses | src/statement.ts:891-968 | the clauses of a switch likewise, under the pushed switch labels |
| Lowering.BuildSwitch | src/semantics/statement_builder.ts:456-489 | the loop takes the default clause out and leaves the cases in order |
| LoweringCorrectness.LoweringMeaning | src/statement.ts:661-990 | for every statement that may be written, covered or not, every label context, flag set, state and fuel: the lowered form does what `Emitted` tells on the source, with matching outcomes (breaks and continues become jumps to the context's labels), the same user-visible state, untouched counters in outer scopes, and time-outs together |
| LoweringEmitted.RunsAsWritten | src/statement.ts:661-990 | for covered statements, what is told of the emitted program is the meaning of the source |
| LoweringCorrectness.LoweringPreservesMeaning | src/statement.ts:661-990 | hence every covered statement and its lowered form agree |
| LoweringCorrectness.SwitchMeaning | src/backend/binaryen/wasm_stmt_gen.ts:281-328 | any switch with at most one default, in the nest of blocks the backend builds, starts at the first equal case, else at the default, else at the first case, and falls through the cases in order and then the default; breaks end it and continues pass through it |
| LoweringSwitch.DefaultRunsLast | src/semantics/statement_builder.ts:456-489 | a switch whose default stands anywhere runs, for every subject, like the source switch with the default moved behind all cases |
| LoweringSwitch.MatchRunsAsWritten | src/backend/binaryen/wasm_stmt_gen.ts:270-328 | without a default, a subject that equals some case runs as in the source |
| LoweringSwitch.NoMatchRunsAll | src/backend/binaryen/wasm_stmt_gen.ts:281-328 | without a default, a subject that equals no case runs all bodies from the first on |
| LoweringSwitch.SwitchPreservedIff | src/backend/binaryen/wasm_stmt_gen.ts:281-328 | for every list of clause tests: all switches with these tests keep their meaning exactly when the list is empty or ends in its default |
| LoweringSwitch.DefaultFirstChangesMeaning | src/semantics/statement_builder.ts:456-489 | a default before a case falls through to it in the source and ends the emitted switch |
| LoweringSwitch.MissingDefaultChangesMeaning | src/backend/binaryen/wasm_stmt_gen.ts:287-308 | a subject that equals no case skips the source's switch and runs the first case of the emitted one |
| LoweringCorrectness.PlainLoopMeaning | src/backend/binaryen/utils.ts:286-330 | while, do-while and for loops, in the shape the backend flattens them to, behave as loops |
| LoweringCorrectness.IterationMeaning | src/backend/binaryen/utils.ts:286-330 | by induction over rounds: continue still runs the incrementor and the test, break leaves the loop |
| LoweringCorrectness.ForOfMeaning | src/statement.ts:1173-1238 | any for-of loop counts up to a length taken at its start, with nested loops reusing the names of the two counters |
| LoweringCorrectness.CountMeaning | src/statement.ts:1330-1373 | from round `i` on, the lowered loop agrees with counting from `i` |
| LoweringCorrectness.InsideMeaning | src/statement.ts:1330-1373 | in a round the element is read and assigned first thing in the scope the body opens, whatever that declares; in the scope of an inner for-of loop the index is not set yet |
| LoweringEmitted.CountAsWritten | src/statement.ts:1173-1238 | for a stable and unshadowed loop, counting is iterating over the array |
| LoweringForOf.KeepingIsStable | src/statement.ts:1173-1238 | a body that neither assigns a variable of the iterated expression nor pushes to an array, and writes elements only behind a check of the length, keeps the array and its length in every run |
| LoweringForOf.KeepingLoopsPreservedIff | src/statement.ts:1330-1373 | for every way a body opens its scope and every list of declarations: all loops over a variable whose bodies keep it are preserved exactly when that scope declares neither the loop variable nor the array and is not that of an unbraced for-of loop |
| LoweringForOf.ShadowingChangesMeaning | src/statement.ts:1330-1373 | a loop whose braced body, or unbraced for loop as its body, declares the loop variable or the array ends with the variable as it was, or undefined, after lowering |
| LoweringForOf.UnbracedNestingChangesMeaning | src/statement.ts:1330-1373 | so does a for-of loop whose body is an unbraced for-of loop, whatever that one declares: its variable ends undefined, unless the inner loop declares it |
| LoweringForOf.ReassigningChangesMeaning | src/statement.ts:1173-1238 | a body that assigns another array to the iterated variable makes the lowered loop read that one |
| LoweringForOf.GrowingArrayChangesMeaning | src/statement.ts:1173-1238 | a loop that pushes to its own array never ends in the source and ends after one round when lowered |
| LoweringForOf.ExtendingWriteChangesMeaning | src/statement.ts:1173-1238 | so does a loop that writes behind the end of its own array |
| LoweringLabels.ProgramMeaning | src/statement.ts:661-990 | the lowered form of any whole program has the outcome, final state and divergence told on the source |
| LoweringLabels.ProgramPreserved | src/statement.ts:661-990 | a whole covered program and its lowered form have equal outcome, final state and divergence |
| LoweringLabels.LoopHasContinueIff | src/statement.ts:969-990 | a lowered loop has a continue label exactly when its body has a continue of its own or an earlier loop has left the name |
| LoweringLabels.JumpsResolve | src/statement.ts:969-990 | resolving a jump by name reaches the innermost loop or switch (break) or loop (continue), and every continued loop has its continue label |
| LoweringLabels.LabelsFresh | src/statement.ts:661-910 | along every nesting path all loop, block, continue, case and switch labels differ |
| LoweringLabels.LoopDepthUnique | src/statement.ts:1534-1536 | one string cannot be a label of loops at two depths |
| LoweringLabels.SwitchDepthUnique | src/statement.ts:891-930 | nor of switches at two depths |
| LoweringLabels.LoopIsNotSwitch | src/statement.ts:661-930 | nor of a loop and of a switch |
| TypeIds.ShapeDependsOnReads | src/type.ts:2842-2915 | the shape string of a class depends on nothing but the ids its types print and the class names its unions print |
| TypeIds.RestsOnRefsIff | src/type.ts:2842-2915 | for every class: its shape depends on nothing but ids and names of the classes collected as its references and declared names, exactly when each id and name it prints is one of those |
| TypeIds.GuardedIff | src/type.ts:2757-2788 | that is so exactly when its unions print no class that has no declared name and is not collected, and its static accessors mention no class that is not collected |
| TypeReferences.ClassRefsIff | src/type.ts:2757-2788 | the references of a class are exactly the classes its fields and its methods without the static modifier mention, as themselves or through arrays, results and parameters, each once |
| TypeReferences.ShapeSpelled | src/type.ts:2842-2915 | the shape of a concrete class, written out |
| ShapeStaleness.ShapeStaysIff | src/type.ts:2790-2867 | while ids and names are handed out, a shape string stays the same exactly as long as nothing it prints gets its id or name |
| ShapeStaleness.UnionGoesStale | src/type.ts:2790-2867 | the pass over three concrete classes: the first one's recorded shape is not its shape at the end, and the third, the same class, has another id |
| ShapeStaleness.AnonymousLookAlike | src/type.ts:824-828 | while they have no names, two object types in a union give one shape |
| ShapeStaleness.AccessorGoesStale | src/type.ts:2764-2771 | the pass over a class whose static accessor returns a class visited later leaves it a stale shape |
| ShapeStaleness.AccessorsShareId | src/type.ts:2764-2771 | after the pass two classes whose static accessors return different classes have one id |
| TypeIdAllocation.CycleKeeps | src/type.ts:2790-2830 | the cycle branch keeps the invariant: its id is fresh and stays unshared, and a class without a name is named by it, which leaves the shapes recorded for classes that rest on their references current |
| TypeIdAllocation.ObjectNamesDiffer | src/type.ts:2798-2819 | object types with different ids get different names |
| TypeIdAllocation.ShapeKeeps | src/type.ts:2832-2867 | the shape branch keeps the invariant: the references of the class have ids, and the shapes recorded for classes that rest on their references stay current |
| TypeIdAllocation.ConcludeKeeps | src/type.ts:2790-2830 | finishing a class keeps the invariant and adds the class to at most one rec group, once |
| TypeIdWalk.AllocatedKeeps | src/type.ts:2790-2830 | so does the walk from any class, on cyclic graphs too; the classes on the stack stay visited |
| TypeIdWalk.AllocatedHistory | src/type.ts:2790-2830 | the walk gives the cycle branch only to classes that a path of references leads back to, gives every other class its id after those of its references, makes one rec group for each class of the cycle branch, ends the last group with such a class, and hands ids out without gaps |
| TypeIdWalk.CycleIsEntered | src/type.ts:2790-2830 | conversely every cycle of references holds a class of the cycle branch |
| TypeIdWalk.PassOutcome | src/type.ts:961-980 | after the pass every class has an id, no loop is open, every class on no cycle took the shape branch, and some class took the cycle branch exactly when there is a cycle |
| TypeIdWalk.PassSharesIds | src/type.ts:2790-2867 | after the pass two classes on no cycle that rest on their references share an id exactly when their shapes, computed anew, are equal |
| TypeIdWalk.JoinsIffOpen | src/type.ts:2823-2829 | a class joins a rec group exactly when a loop is open at the end of its visit |
| TypeIdWalk.AllocatedJoins | src/type.ts:2790-2830 | nothing leaves the groups, and a class whose visit ends inside an open loop is in one |
| RecGroups.PairIsGrouped | src/type.ts:2790-2830 | two classes that refer to each other make one group |
| RecGroups.OuterLoopIsLost | src/type.ts:2790-2830 | of three classes with a loop inside a loop, the one that closes the outer loop is in no group |
| TypeIdAllocation.SharedIdIffSameRecord | src/type.ts:2832-2840 | two classes of any kind share an id exactly when both took the shape branch with equal recorded shapes; ids of the cycle branch are never shared; ids keep the parity of the first |
| TypeIdAllocation.SharedIdIffSameShape | src/type.ts:2832-2867 | for classes that rest on their references: exactly when both took the shape branch and their shapes, computed anew, are equal |
| TypeShapes.PrintedReadsBack | src/type.ts:824-828 | what a union prints for a member, with names free of delimiters, determines what is printed of it and where it ends |
| TypeShapes.TextReadsBack | src/type.ts:2879-2915 | the text of a type with delimiter-free names determines the type, up to what texts leave out, and where it ends |
| TypeShapes.SameShapeIffSameMembers | src/type.ts:2842-2915 | two classes have equal shape strings exactly when their fields and their methods not of the static kind, static accessors among them, agree in name, optionality and erased type |
| TypeShapes.SharedIdIffSameMembers | src/type.ts:2832-2915 | hence classes that rest on their references share an id exactly when both took the shape branch and agree so |
| TypeShapes.PassSharesMembers | src/type.ts:2790-2915 | after the pass two such classes on no cycle share an id exactly when they agree so |
| TypeShapes.LastParameterIsLost | src/type.ts:2890-2907 | parameter lists that differ only in a last parameter that is no rest parameter have one text |
| TypeShapes.ParameterTypesShareShape | src/type.ts:2890-2907 | two concrete classes with methods of different parameter types have one shape |
| TypeShapes.ArrayOfFunctionsIsLost | src/type.ts:2884-2907 | an array of functions and a function returning an array have one text |
| TypeIdAllocation.ClosedHoldsPath | src/type.ts:2790-2830 | a set closed under references holds every path that starts in it |
| TypeIdAllocation.ReachableIsFinished | src/type.ts:2790-2830 | every class on a reference path from a finished class is finished with an id |
| TypeIdWalk.TypeIdAllocator.GenerateTypeId | src/type.ts:2832-2840 | a known shape keeps its id, a new one takes the next |
| TypeIdWalk.TypeIdAllocator.Allocate | src/type.ts:2790-2830 | terminates on cyclic graphs and computes the walk the laws above are about |
| TypeIdWalk.TypeIdAllocator.AllocateRoot | src/type.ts:2790-2830 | after a root call no class is left visited and everything reachable is processed with an id |
| TypeIdWalk.TypeIdAllocator.ParseTypeRefRelationship | src/type.ts:2757-2788 | adds exactly the classes that fields and methods without the static modifier refer to outside unions, to those already known |
| TypeIdWalk.TypeIdAllocator.Visit | src/type.ts:961-980 | collects all references and then walks from every class: the pass the laws above are about |
| CaptureMarking.ExpressionProcessor.VisitIdentifier | src/expression.ts:541-591 | one identifier marks its variable and the declaring scope exactly when it is captured |
| CaptureMarking.ExpressionProcessor.VisitAll | src/expression.ts:541-591 | the visits of a whole program mark the variables and scopes the marking functions say |
| CaptureMarking.WalkUp | src/expression.ts:559-573 | the scope walk finds the declaration lookup finds, and whether it passed the nearest function |
| ScopeTree.FindLocalIff | src/scope.ts:285-311 | a scope finds a name exactly when a variable or parameter of it has the name: the first such variable, else the first such parameter |
| ScopeTree.LookupIff | src/expression.ts:559-573 | a name denotes the declaration of the innermost scope around its use that owns it, and nothing exactly when no scope around the use does |
| CaptureMarking.CapturedIff | src/expression.ts:552-580 | a use captures a variable exactly when that is the declaration in the innermost owning scope, a function lies between the two, and the scope is inside a function |
| CaptureMarking.MarkedIff | src/expression.ts:552-580 | over all uses: the marked variables are those marked before and those some use captures so, told on the scope tree alone |
| CaptureMarking.ScopeMarkedIff | src/expression.ts:574-580 | and the marked scopes are those that own such a variable |
| CaptureMarking.CapturedIsMarked | src/expression.ts:552-580 | over all uses, every variable used from another function than its own is marked |
| CaptureMarking.MarkedIsCaptured | src/expression.ts:552-580 | and nothing else: a marked variable has a use that captures it |
| ClosureConversion.ParseScopeDone | src/type.ts:3026-3133 | one environment's marked parameters and variables get slots of their own types, numbered in order and without gaps, and the parent link they must have; other variables keep what they had |
| ClosureSoundness.HasContextIff | src/type.ts:3026-3082 | functions get a context, and so do blocks somewhere inside a function, and no other scopes |
| ClosureSoundness.TreeDone | src/type.ts:3026-3082 | after the recursive pass every environment below a scope is in order and nothing outside has changed |
| ClosureSoundness.WalkReaches | src/backend/binaryen/wasm_expr_gen.ts:410-440 | following parent links from an environment reaches the context of an enclosing environment in one step a block and two a function |
| ClosureSoundness.CapturedHasSlot | src/type.ts:3100-3133 | a captured variable's closure index selects its own type in the list of its declaring scope's context |
| ClosureSoundness.SlotsInOrder | src/type.ts:3100-3133 | after the pass a context's list is as long as its scope has marked parameters and variables, a marked one's closure index is the number of marked ones before it, parameters first, and unmarked variables are as before |
| ClosureSoundness.SlotsDiffer | src/type.ts:3100-3133 | two captured variables of one scope have different closure indexes |
| ClosureSoundness.ClosureConversionSound | src/type.ts:3026-3133 | marking and slotting together: from every environment between a use and the captured declaration the walk ends at the declaring context, not earlier |
| ContextLoads.LoadsFollowLinks | src/backend/binaryen/wasm_expr_gen.ts:426-440 | skipping the load for contexts without variables, the reference stays at the struct of the context reached |
| ContextLoads.EmitLoads | src/backend/binaryen/wasm_expr_gen.ts:420-440 | the loop that emits the loads ends, with a reference to the struct of the declaring context |
| ContextLoads.LoadsReachVariable | src/backend/binaryen/wasm_expr_gen.ts:420-448 | from every environment between a use and the captured declaration, the loads made end at the declaring scope's struct, and its field behind the closure index is the variable and that of no other captured variable of the scope |
| ClosureSoundness.ContextsStayUncaptured | src/scope.ts:603-620 | the context variables themselves are never captured |
| ClosureSoundness.CustomTypeResolver.ParseContext | src/type.ts:3026-3082 | the recursive method computes the pass and keeps types consistent |
| ClosureSoundness.CustomTypeResolver.Visit | src/type.ts:2987-3003 | the same for all modules |
| LocalNumbering.VarsBelowNoDuplicates | src/scope.ts:133-145 | the variables a function numbers are listed once each |
| LocalNumbering.VarsBelowComplete | src/scope.ts:133-145 | a function numbers exactly the variables declared in it and in blocks with no function between |
| LocalNumbering.DeclaredInARow | src/scope.ts:133-145 | those of one scope stand in a row, in the order of their declarations |
| LocalNumbering.InitNumbers | src/scope.ts:147-168 | parameters get 2 to P+1 and variables the contiguous range behind them; the counter for temporaries stands behind all |
| LocalNumbering.InitKeeps | src/scope.ts:147-168 | numbering one function leaves another's numbers alone |
| LocalNumbering.OthersUntouched | src/scope.ts:147-168 | what is neither parameter nor local of a function or module gets no index |
| LocalNumbering.ModuleNumbered | src/type.ts:2987-3003 | after the traversal every function of a module is numbered |
| LocalNumbering.IndexesDistinct | src/scope.ts:125-168 | no two locals of a function share an index; parameters come before variables and temporaries behind them |
| LocalNumbering.NoIndexWasted | src/scope.ts:133-168 | every index up to the counter belongs to a local, of a function or a module |
| LocalNumbering.ConsecutiveIndexes | src/scope.ts:133-145 | the variables of one scope have consecutive indexes |
| LocalNumbering.IndexAllocator.AssignVariableIndex | src/scope.ts:133-145 | the method assigns consecutive indexes and advances the counter by as many |
| LocalNumbering.IndexAllocator.TraverseScopeTree | src/type.ts:2987-3003 | the whole traversal equals initialising the scopes in preorder, each once |
| Mangling.MangledInside | src/utils.ts:229-283 | the name of a scope is that of the scope around it, the delimiter and its own |
| Mangling.JoinInjective | src/utils.ts:229-283 | joining parts free of the delimiter can be undone |
| Mangling.ManglingInjective | src/utils.ts:229-283 | distinct scopes have distinct mangled names |
| Mangling.Mangler.MangleScope | src/utils.ts:229-283 | names every scope of a subtree by the join of its path, touches no other scope and restores the prefix stack |
| Mangling.Mangler.MangleModules | src/utils.ts:229-283 | the pass names every scope of every module and leaves the stack empty |
| InterfaceLayout.ReorderedIsLayout | src/type.ts:2563-2588 | the back-to-front loops put the interface's members first in interface order and keep the order of the rest |
| InterfaceLayout.ReorderConserves | src/type.ts:2563-2588 | no member is lost or duplicated, for any keys |
| InterfaceLayout.InterfaceIsPrefix | src/type.ts:2563-2588 | the keys of the class start with exactly the interface keys it has |
| InterfaceLayout.KeptInterfaceIsPrefix | src/type.ts:2534-2588 | when the class keeps its interface after the check of optional members, the interface's fields and methods are prefixes of the reordered ones |
| InterfaceLayout.KeepsIff | src/type.ts:2534-2562 | a class keeps its interface exactly when every optional field of it is an optional field of the class, by name, and every optional method a mandatory one, by name and kind |
| InterfaceLayout.SameMethodAtSamePlace | src/type.ts:2563-2588 | a method of a kept interface and the class's method of the same name and kind stand at the same place |
| InterfaceLayout.ClassType.ReorderMembers | src/type.ts:2534-2588 | drops the interface exactly when an optional member fails the check, reorders fields and methods otherwise |
| GrowableArray.ArrayStruct.Push | runtime-library/stdlib/lib_array.c:18-62 | contents are appended, in place or in a larger store |
| GrowableArray.ArrayStruct.Pop | runtime-library/stdlib/lib_array.c:64-93 | the last element is returned and removed; an empty array is an error |
| GrowableArray.ArrayStruct.Shift | runtime-library/stdlib/lib_array.c:214-254 | the first element is returned and removed |
| GrowableArray.ArrayStruct.Unshift | runtime-library/stdlib/lib_array.c:571-623 | contents are put in front on all four paths |
| GrowableArray.ArrayStruct.Reverse | runtime-library/stdlib/lib_array.c:192-211 | contents are reversed in place, spare slots untouched |
| GrowableArray.ArrayStruct.Splice | runtime-library/stdlib/lib_array.c:436-567 | contents and the returned array are those of section 23.1.3.31 of ECMA-262 2023, for every start, count and items, on the in-place and the regrow path |
| GrowableArray.ArrayStruct.Slice | runtime-library/stdlib/lib_array.c:256-331 | the returned array holds the slice; the array is unchanged |
| GrowableArray.ArrayStruct.CopyWithin | runtime-library/stdlib/lib_array.c:1492-1537 | equals the simultaneous copy of section 23.1.3.4 with the code's end bound; nothing behind the length changes |
| GrowableArray.ClampStart | runtime-library/stdlib/lib_array.c:467-480 | the branches compute the relative index |
| GrowableArray.ClampCount | runtime-library/stdlib/lib_array.c:482-497 | and the standard's delete count |
| GrowableArray.ComputeIndex | runtime-library/stdlib/lib_array.c:1471-1490 | an index is brought into range, or -1 marks one at or past the end |
| GrowableArray.RelativeLaws | runtime-library/stdlib/lib_array.c:1471-1490 | an index inside the array stands for itself and for the one as far from the end; others are moved to the nearer end |
| GrowableArray.SpliceParts | runtime-library/stdlib/lib_array.c:436-567 | a splice keeps what is before the start and behind what it removes, puts the items between, and removes as many elements as the count asks for and there are |
| GrowableArray.SliceAt | runtime-library/stdlib/lib_array.c:256-331 | which element of a slice comes from where; a bound that is no number is left out |
| GrowableArray.CopyWithinAt | runtime-library/stdlib/lib_array.c:1492-1537 | which element comes from where, and which stay |
| GrowableArray.CopyWindow | runtime-library/stdlib/lib_array.c:1505-1532 | the early exits and the two clamps compute the standard's windows |
| GrowableArray.UndefinedEndAgreesIff | runtime-library/stdlib/lib_array.c:1518-1520 | on arrays of distinct elements an `undefined` end gives the standard's result exactly when a window is empty or both coincide |
| GrowableArray.UndefinedEndDiffers | runtime-library/stdlib/lib_array.c:1518-1520 | a concrete call on which they differ |
| GrowableArray.SpliceUndone | runtime-library/stdlib/lib_array.c:436-567 | splicing the removed elements back restores the array and returns the items |
| GrowableArray.SpliceConserves | runtime-library/stdlib/lib_array.c:256-567 | elements are conserved and the removed part is what slice would have returned |
| GrowableArray.RunConserves | runtime-library/stdlib/lib_array.c:18-623 | over any run, what is left and what was handed back is what was there and what was put in |
| GrowableArray.ArrayStruct.Execute | runtime-library/stdlib/lib_array.c:18-623 | any run of operations on one struct yields the contents and results of the same run on a sequence, with length within capacity throughout |
| QuickSort.ScansExtend | runtime-library/stdlib/lib_array.c:363-416 | after two scans both sides have grown, or the range is partitioned |
| QuickSort.SplitSides | runtime-library/stdlib/lib_array.c:333-420 | a partition ends with l <= j < r, nothing before j above the pivot, nothing behind it below, for every pure comparator with cmp(x, x) = 0 |
| QuickSort.SplitPermutes | runtime-library/stdlib/lib_array.c:333-420 | a partition rearranges its range and nothing else |
| QuickSort.SplitLocal | runtime-library/stdlib/lib_array.c:333-420 | where a range is cut and how it is rearranged depends on its own elements only |
| QuickSort.SortPermutes | runtime-library/stdlib/lib_array.c:333-420 | the recursive sort rearranges its range and nothing else |
| QuickSort.SeparatingLocal | runtime-library/stdlib/lib_array.c:333-420 | whether the partitions of a range separate depends on its own elements only |
| QuickSort.SortedIffSeparating | runtime-library/stdlib/lib_array.c:333-434 | for every total preorder the result is sorted exactly when in every partition, from the whole range on through the parts partitions leave, the element the scans ended on is not above any element behind it |
| QuickSort.UnsortedResult | runtime-library/stdlib/lib_array.c:407-407 | a concrete array that does not come out sorted |
| QuickSort.ScanUp | runtime-library/stdlib/lib_array.c:363-385 | the upward scan reads only inside the array and stops where specified |
| QuickSort.PartitionInPlace | runtime-library/stdlib/lib_array.c:333-416 | the nested loops terminate and leave the specified partition |
| QuickSort.QuickSortInPlace | runtime-library/stdlib/lib_array.c:333-420 | the recursion on the array computes the specified sort |
| QuickSort.SortArray | runtime-library/stdlib/lib_array.c:422-434 | sorting an array permutes its elements and leaves the spare slots alone |
| ArrayJoin.PaddedIsJoined | runtime-library/utils/type_utils.c:998-1007 | entries with a separator each, less the last separator, are the join |
| ArrayJoin.Measure | runtime-library/utils/type_utils.c:975-996 | the first pass fails exactly when an entry is neither null nor a string |
| ArrayJoin.ResultLength | runtime-library/utils/type_utils.c:998-1007 | the precomputed length is the length of the join |
| ArrayJoin.WriteAll | runtime-library/utils/type_utils.c:1022-1036 | no write leaves the buffer and the cursor ends exactly at its end |
| ArrayJoin.ArrayToString | runtime-library/utils/type_utils.c:941-1045 | the bytes are the join with null as the empty string and a comma by default |
| ArrayJoin.TextsAre | runtime-library/utils/type_utils.c:975-996 | what is joined are the strings, and nothing in the place of null |
| Alignment.MaskSplits | src/backend/index.ts:50-54 | the bits under a mask and under its complement add up to the number |
| Alignment.AlignMovesForward | src/backend/index.ts:50-54 | below 2^31 every positive alignment moves the offset forward by less than itself |
| Alignment.AlignIsLeastMultipleIff | src/backend/index.ts:50-54 | for every power of two of a 32-bit word the result is the least multiple not below the offset exactly when the sum stays below 2^31 |
| Alignment.LeastMultipleIsLeast | src/backend/index.ts:50-54 | that multiple is at most every other multiple not below the offset |
| StringBytes.UnitIsShortest | src/backend/binaryen/utils.ts:228-252 | the bytes of a code unit are the one sequence in the shortest form of table 3-7 of the Unicode Standard, surrogates included, that stands for it |
| StringBytes.EncodeIsStored | src/backend/binaryen/utils.ts:228-252 | so the bytes of a string are exactly the sequence of shortest forms of its units |
| StringBytes.EncodeRoundTrip | src/backend/binaryen/utils.ts:228-252 | the byte form of a string can be decoded |
| StringBytes.NulOnlyFromNul | src/backend/binaryen/utils.ts:228-252 | a zero byte occurs exactly when U+0000 does |
| StringBytes.Utf16ToUtf8 | src/backend/binaryen/utils.ts:228-252 | the loop computes the encoding: the shortest forms of the units, in order |
| DataSegment.InitialIsLaid | src/backend/index.ts:34-39 | a new context is laid out, so the theorems about runs apply to every run from it |
| DataSegment.StepKeeps | src/backend/index.ts:40-91 | storing keeps ranges ascending, disjoint and below the end, and strings interned with their terminator |
| DataSegment.StepIsTight | src/backend/index.ts:40-91 | a known string takes no space, other requests their bytes and less than their alignment |
| DataSegment.RunKeeps | src/backend/index.ts:25-119 | so does any run, and nothing stored is moved |
| DataSegment.SameOffsetIffSameString | src/backend/index.ts:60-91 | within a run two strings get the same offset exactly when they are equal |
| DataSegment.OffsetsAligned | src/backend/index.ts:40-91 | when every request asks for the same power of two all offsets are multiples of it |
| DataSegment.DefaultOffsetsAligned | src/backend/index.ts:40-91 | with the default alignment all offsets are multiples of four |
| DataSegment.FlattenedHoldsItem | src/backend/index.ts:93-114 | the flattened block holds every stored item at its offset |
| DataSegment.FlattenedIsZeroElsewhere | src/backend/index.ts:93-114 | its size is the end less 1024 and it is zero where nothing is stored |
| DataSegment.RunReadsBack | src/backend/index.ts:25-119 | after any run every request finds its bytes in the block |
| DataSegment.ReaderFinds | src/backend/index.ts:60-91 | reading from a string's offset to the first NUL gives the bytes of what stands before its first U+0000 |
| DataSegment.StringReadsBackIff | src/backend/index.ts:60-91 | so the reader gets the string exactly when it holds no U+0000 |
| DataSegment.DataSegmentContext.AddData | src/backend/index.ts:40-58 | the method is the step, with the offset it returns |
| DataSegment.DataSegmentContext.AddString | src/backend/index.ts:60-91 | likewise, a known string changing nothing |
| DataSegment.DataSegmentContext.GenerateSegment | src/backend/index.ts:93-114 | computes the flattened block; none without items |
| DataSegment.DataSegmentContext.GetDataEnd | src/backend/index.ts:116-118 | nothing stored reaches past the reported end, the flattened block ends there, and everything new is stored there |
| Escapes.DecimalizationInternal | src/utils.ts:501-514 | the loop with its carried-over digit computes the accumulated number, NaN included |
| Escapes.DigitsAccumulate | src/utils.ts:501-514 | hexadecimal digits, however many, accumulate to the number they stand for |
| Escapes.OtherCharacters | src/utils.ts:501-514 | behind a digit, a colon or semicolon makes NaN and other characters repeat the digit |
| Escapes.ProcessEscape | src/utils.ts:473-499 | the loop of varying stride computes the decoding of any string, well-formed or not |
| Escapes.LiteralDecodes | src/utils.ts:473-499 | a quoted sequence of tokens decodes to the concatenation of their meanings, hex pairs positionally |
| Escapes.EscapeRoundTrip | src/utils.ts:473-514 | however each 8-bit character is written, decoding the quoted text gives the string back |
| Escapes.StandardIffFaithful | src/utils.ts:473-499 | a literal of known tokens and simple line continuations has the standard's string value; any other literal, with an unknown escape, `\0`, a four-digit or code point escape or a CR LF continuation, has not, unless it holds both a CR LF continuation and `\u{a}` |
| Escapes.MistakesCancel | src/utils.ts:473-499 | a literal with both, none of whose pieces is decoded right, that has the standard's value all the same |
| Escapes.UnfaithfulPieces | src/utils.ts:473-499 | literals that have not: `\0`, `\u0041` and a CR LF continuation |
| Escapes.UnfaithfulCodePoint | src/utils.ts:473-499 | and `\u{41}` |

## Left out

- LoweringCorrectness.LoweringPreservesMeaning: expressions in conditions and iterated positions have no side effects; an effect is a statement, an incrementor or an initializer of its own. Element writes lengthen the array on both sides as in ECMA-262; that the emitted access traps out of range is not modelled.
- LoweringCorrectness.ForOfMeaning: for arrays; strings, the iterator-object branch and for-in are not modelled.
- LoweringCorrectness.SwitchMeaning: clauses declare no variables, although the source gives each clause a scope of its own (src/statement.ts:915-968).
- TypeIdAllocation.ConcludeKeeps: rec groups are not the strongly connected components of the reference graph (`RecGroups.OuterLoopIsLost`); which class joins which group is not characterised beyond the rows above.
- TypeIdAllocation.SharedIdIffSameShape: for classes that rest on their references; `ShapeStaleness` shows why not for others. Static fields and types that are no classes take no part, and mangled names are empty when classes are printed, as mangling comes later (src/frontend.ts:125-134).
- TypeShapes.SharedIdIffSameMembers: for names free of delimiters, and for unions without type parameters and enumerations.
- ContextLoads.LoadsReachVariable: structs are named by their contexts; the code that creates them and the casts are not modelled.
- Mangling.ManglingInjective: names of variables, interfaces and start functions, and the path conversion on Windows, are not modelled.
- GrowableArray.ArrayStruct.Shift: a shift of an empty array raises an exception in the source and then goes on with a length of -1; the model requires a non-empty array.
- GrowableArray.ArrayStruct.Execute: every operation gets a value array of its own, as unshift on an empty array takes over the backing store of its argument.
- DataSegment.RunKeeps: for runs that stay below 2^31 bytes, the reach of the rounding expression.
- Escapes.StandardIffFaithful: with both a CR LF continuation and `\u{a}` or `\u{A}` only one direction is proved, as the other is false.
- 32-bit wrap-around of lengths, allocation failure, garbage collection roots and fractional or NaN indexes.
- Concat, every, lastIndexOf, indexOf, includes, fill and the callback iterators of the array runtime.
- Try, throw and labelled statements, comma expressions, and a super call moved to the front of its block.
- Generic specialization and its caches; the type checker calls that build the class graph.
- Temporary variables that code generation adds to a function after numbering.
- The module loader, the command line, the QuickJS bridge and the object utilities.
