# Verification of the Rockr middle end

A Dafny model of the parts of the Rockr compiler where a wrong step would go unnoticed, with proofs of what they promise:

- **Match compilation** (`DecisionTree`, `MatchCompiler*`, `Binders`, `MatchBindings`, `MatchTests`, `TreeTypes`, `StructOrder`, `MatrixMethods`). A matrix of patterns becomes a decision tree by specialization, defaulting and the expansion of tuple and struct columns. Patterns, places (a local plus projections), matrices and trees are datatypes; the loops over rows and cells are methods proved equal to the functions.
- **Lowering to a block graph** (`Thir`, `Mir`, `Builder`, `Lowering*`, `TreeSim`, `StmtSim`, `LoopSim`, `IfSim`, `MatchSim`, `BodyFacts`, `BodySim`, `Flow`, `TreeLowering`, `TreeTags`, `LocalTypes`, `ThirToMir`). Structured bodies (blocks, `let`, assignment, `if`, `while`, `match`, `break`, `continue`, `return`, calls) become blocks. `ThirToMir.ThirToMIR` and `Builder.MIRBuilder` are the mutable objects of the source; each of their methods is proved to compute the function of the same name in `Lowering` or `Builder`, and the theorems are about those functions. `None` stands for a panic of the source.
- **Impl selection** (`Conformance`, `ImplSelection`). One-way matching with a table of constraints, and the query "does this type implement this interface" as the iteration that starts from "no".
- **Memory layout** (`Layout`, `LayoutProofs`, `TypeLayout`, `Layout64`). Sizes, alignments, field offsets and tags, through any nesting; that the layout of a type holds the scalars of the type; when 64-bit numbers are enough to compute them.
- **Symbol mangling** (`Mangle`). When two types, externs, functions or methods can have the same symbol.
- **Parsing** (`ExprGrammar`, `ExprParser`, `TypeExpr`, `TypeParser`). The binary-operator loop against the trees that precedence allows, and the type-expression printer, the lexing of ampersands and numerals and the parser as a round trip. The parsers that advance a position are classes, proved to compute functions of the remaining tokens.

How the main results fit together:

1. `CompileCorrect` says that walking a compiled tree picks the first row whose patterns match, is never stuck, and binds what that row binds, except for the binders that expansion forgets (`Dropped`), whose locals it binds to nothing. `DroppedExact` is the resulting equivalence: a binding of the selected row is missing if and only if it is `Dropped`; `BinderLost` is a concrete match that loses one. `NothingDropped` gives the condition on the patterns alone, `Keeps`: following the compiler through every test it could make, no row still in play binds the whole of a tuple or struct whose column is being expanded. `ExpandedBinderLost` is the other half: such a binder is lost for every value that selects its row there. `ClashFreeKeeps` and `PairByTagKeeps` are readable special cases. The compiler never reads the field names of a struct pattern: `RereadCompiles` says that a match is compiled as if the fields of every struct pattern, at any depth, were written in the order of the field table, so `RereadAnswers` tells what any other order does, and `WrongBranch` is a two-field match that takes an arm which does not match.
2. `LiteralKeysExact` says when the switch that the back end emits tells an integer literal from the other values of its type: if and only if the literal is in the range of the type (`LiteralConfused` is 256 on a byte). `SimTree` carries the walk over to the emitted switch blocks, and `SimStmts`, `SimIf`, `SimWhile`, `SimMatch` carry structured execution over to the blocks of each construct.
3. `LoweringPreservesMeaning` closes the argument for whole functions, in both directions: body and graph end in the same results, so one runs forever exactly when the other does. `LoweringPreservesStores` adds the values of all source locals.
4. `LoweringSucceeds` says exactly when the lowering does not panic: the body never writes to a closed block, and every enum that the tree of a match switches on has a tag the lowering can read. Then every block is closed and every jump leads to a block. `TidyFunctionsLower` is the case where nothing follows a break or a continue in its sequence, so that the tags alone decide; `TagReadable` says which enums have such a tag, `ReadPatternsTagged` that only the enums that patterns look into matter, and `PlainEnumPanics` is a match on an enum without payloads, which panics.
5. `LoweringTyped` says that the lowered graph is well typed when the source is: the locals it adds, for results of calls, of operations, for spilled operands and tags, have the types of what is stored in them, and every place has the type its projections lead to.
6. `AppliesExact` states what an impl asks for by its bounds alone, and derivations have a premise for each bound of each template; `LeafHeld` and `OnlyLeaves` compare a layout with the scalars read off the type; `LevelsExact` and `TwoOperators` compare the parser with a plain list of precedence levels; `TypeSpelled` compares what the type parser accepts with what is printed. Each of these has a specification of its own, beside the functions of the model.

Structured execution burns one unit of fuel per loop round, so that running forever is "out of fuel for every amount"; the theorems hold for all amounts. Expressions read the store deterministically; the machine supplies the meaning of pure operations and of calls, and a call may fail to return. An execution that reads an uninitialised or ill-typed place is `Broken`, which type checking rules out; `LoweringPreservesMeaning` assumes it does not happen.

Assumptions taken from earlier passes are predicates: `MatrixOk`, `Typed` (patterns fit their scrutinee), `Scoped` (locals and loop scopes resolve, the binders of an arm are distinct from each other and from a scrutinee that is read in place), `ImplOk` (templates of an impl are its own), and for `LoweringTyped` `SourceTyped` (initialisers, assigned values and binders have the types of their locals and places, calls the result types of their callees). That lowering goes through, and the shape of what it makes, needs nothing else. The theorems about meaning also need `Kept`: every match of the body keeps its bindings in the sense of `Keeps`, its literals are in the range of the types they are compared at, and its struct patterns are written in the order of the field table. The front end checks none of these, and each is needed, as the theorems above show.

## Model

| member | source | states |
|---|---|---|
| MatchCompilerTheorems.CompileCorrect | src/thir_to_mir/decision_tree.rs:75-111 | for every well-typed matrix whose struct patterns are in the order of the field table, and every value vector, the compiled tree reaches the branch of the first matching row, fails exactly when no row matches, is never stuck on a complete switch and tests only places that are defined; the row's bindings are the recorded ones and those in Dropped, and when the row binds each local once no local of Dropped is bound to anything |
| MatchCompilerTheorems.SwitchCorrect | src/thir_to_mir/decision_tree.rs:85-110 | the same for a node that tests a column, where a missing default is justified by the collected constructors |
| MatchCompilerTheorems.CompleteCovers | src/thir_to_mir/decision_tree.rs:388-403 | when the completeness test says yes, the constructor of every well-typed value of the column is among the cases |
| MatchCompilerTheorems.SignatureIncreasing | src/thir_to_mir/decision_tree.rs:312-323 | the constructors of a column are listed once each, in the order of the ordered set |
| MatchCompilerTheorems.SignatureOrder | src/thir_to_mir/decision_tree.rs:312-323 | that order is: variants by index, literals by value |
| MatchCompilerTheorems.DefaultExact | src/thir_to_mir/decision_tree.rs:103-110 | a node that tests a column has no default if and only if the column is of an enum type and every variant is mentioned in it, and its cases are the constructors mentioned |
| MatchCompiler.SpecializeShrinks | src/thir_to_mir/decision_tree.rs:204-244 | specializing for a collected constructor strictly lowers the number of refutable pattern nodes although it may add columns |
| MatchCompiler.DefaultShrinks | src/thir_to_mir/decision_tree.rs:181-202 | defaulting strictly lowers the same measure |
| MatchCompiler.ExpandShrinks | src/thir_to_mir/decision_tree.rs:113-179 | expanding a tuple or struct column strictly lowers the same measure although it may add columns |
| MatchCompiler.SpecializeOk | src/thir_to_mir/decision_tree.rs:204-298 | a specialized matrix is well typed again: its columns have the declared types of the parts, its sub-patterns fit them, fields are aligned by name |
| MatchCompiler.ExpandOk | src/thir_to_mir/decision_tree.rs:113-179 | the matrix with a tuple or struct column expanded is well typed again |
| MatchCompilerSteps.SpecializeRowAgrees | src/thir_to_mir/decision_tree.rs:211-241 | a row kept by specialization matches the parts of a value exactly when it matched the value, and a dropped row could not match |
| MatchCompilerSteps.ExpandRowsAgree | src/thir_to_mir/decision_tree.rs:152-176 | the first matching row is the same before and after expanding a tuple or struct column |
| MatchBindings.DroppedExact | src/thir_to_mir/decision_tree.rs:158-174 | a binding of the selected row is missing from the leaf if and only if it is in Dropped, and then its local is bound to nothing at all |
| MatchBindings.NothingDropped | src/thir_to_mir/decision_tree.rs:113-179 | when no row still in play binds the whole of a tuple or struct at the moment its column is expanded, on any path the compiler can take, no binding is lost for any value |
| MatchBindings.ExpandedBinderLost | src/thir_to_mir/decision_tree.rs:158-174 | a binder that stands in a column when it is expanded is lost for every value that selects its row |
| MatchBindings.ClashFreeKeeps | src/thir_to_mir/decision_tree.rs:158-174 | in particular nothing is lost when no row binds as a whole what a row above it takes apart at the same spot |
| MatchBindings.PairByTagKeeps | src/thir_to_mir/decision_tree.rs:85-93 | two arms on a pair that start with different constructors lose nothing, even where the second binds as a whole what the first takes apart |
| MatchBindings.KeepsAlike | src/thir_to_mir/decision_tree.rs:75-111 | whether bindings can be lost depends on the patterns and the column types only, not on where the scrutinee is stored |
| MatchBindings.RootBinderExact | src/thir_to_mir/decision_tree.rs:158-174 | a branch that binds the whole scrutinee of a tuple match gets its binding if and only if the first branch has no tuple pattern |
| MatchBindings.BinderLost | src/thir_to_mir/decision_tree.rs:158-174 | a concrete two-branch match on a pair whose second branch is selected with none of its bindings recorded |
| MatchTests.CompileTestsOnce | src/thir_to_mir/decision_tree.rs:113-274 | along every path of the tree no place is tested twice, nor after one of its own sub-places |
| TreeTypes.CompileTyped | src/thir_to_mir/decision_tree.rs:113-274 | in a compiled tree every tested or bound place has the type that its projections lead to from the local it starts at, and every binding has the type of its local |
| TreeTypes.ViewSound | src/thir_to_mir/decision_tree.rs:119-150 | the part of a well-typed value that a path leads to has the type that the path leads to |
| StructOrder.NamesUnread | src/thir_to_mir/decision_tree.rs:161-166 | two matrices whose patterns differ only in the field names of struct patterns, at any depth, compile to the same tree |
| StructOrder.RereadCompiles | src/thir_to_mir/decision_tree.rs:133-166 | a match compiles to the tree of the match whose struct patterns are all rewritten to the order of the field table, and that match is in order |
| StructOrder.RereadAnswers | src/thir_to_mir/decision_tree.rs:75-111 | so for struct patterns in any order, at any depth, walking the tree answers the first row that matches when every field is read by its position, with that row's bindings |
| StructOrder.StructOrderExact | src/thir_to_mir/decision_tree.rs:133-166 | compiled and walked on a value with pairwise different fields, a struct pattern of binders gives every binder its own field if and only if the fields are written in the order of the field table |
| StructOrder.BoundByPosition | src/thir_to_mir/decision_tree.rs:161-166 | on any value, each of these binders is bound to exactly the field at its position |
| StructOrder.WrongBranch | src/thir_to_mir/decision_tree.rs:161-166 | `{y: 1, x: _}` on x = 1 and y = 2, with x first in the table: the arm does not match, and the compiled tree takes it |
| MatrixMethods.CollectConstructors | src/thir_to_mir/decision_tree.rs:312-323 | the loop over the rows gathers exactly the constructors of the column, as a sorted set |
| MatrixMethods.CollectBindings | src/thir_to_mir/decision_tree.rs:325-343 | the loop over cells and places yields the bindings of a leaf in order |
| MatrixMethods.ChooseCol | src/thir_to_mir/decision_tree.rs:300-310 | the chosen column is the first one the first row can fail on, or column 0 when it cannot fail |
| MatrixMethods.SpecializeMatrix | src/thir_to_mir/decision_tree.rs:204-244 | the row loop computes the specialized matrix that the theorems speak of |
| MatrixMethods.DefaultMatrix | src/thir_to_mir/decision_tree.rs:181-202 | the row loop computes the default matrix |
| MatrixMethods.ExpandMatrix | src/thir_to_mir/decision_tree.rs:113-179 | the row loop computes the expanded matrix |
| MatrixMethods.CompileMatrix | src/thir_to_mir/decision_tree.rs:75-111 | the imperative compiler computes the tree of CompileCorrect |
| TreeSim.KeysFaithful | src/codegen/lir_to_llvm/mod.rs:623-643 | with literals in range and a tag that has room for the variants, the key of a case, cut to 64 bits and to the width of the value, is hit by a well-typed value if and only if the case is the value's own constructor |
| TreeSim.TagRoom | src/thir_to_mir/lower_match.rs:95-113 | the type at which the lowering reads a tag has room for every variant of the enum |
| TreeSim.LiteralKeysExact | src/codegen/lir_to_llvm/mod.rs:639 | the branch of an integer literal is taken for the literal and for no other value of the scrutinee's type if and only if the literal is in the range of that type |
| TreeSim.LiteralConfused | src/check/thir/sanity_check.rs:177-186 | the literal 256 is accepted against a byte, matches no byte, and its branch is taken for 0 |
| TreeSim.KeysDistinct | src/thir_to_mir/lower_match.rs:126-170 | as 128-bit keys, no two constructors that a case and a well-typed value can have share one |
| TreeSim.CompileTreeOk | src/thir_to_mir/decision_tree.rs:75-111 | every place of a compiled tree starts at the scrutinee, leaves name existing branches, the cases of a node are distinct, and their literals are in range if those of the patterns are |
| TreeSim.SimTree | src/thir_to_mir/lower_match.rs:73-199 | running the emitted blocks of a tree on a scrutinee walks the tree: it stops at the body block of the answered branch with the pattern locals assigned, or diverges when nothing matches |
| TreeSim.SimBindings | src/thir_to_mir/lower_match.rs:80-89 | the assignments of a leaf give each pattern local the value of its place |
| Scoping.MatchWalk | src/thir_to_mir/lower_match.rs:56-71 | for the one-column matrix of a match that keeps its bindings, the walk answers the first arm whose pattern matches with exactly that arm's bindings |
| Scoping.ArmBindingExact | src/thir_to_mir/lower_match.rs:56-71 | for any match whose arms bind distinct locals, the walk answers the first arm whose pattern matches, and a binding of that arm is missing if and only if it is in Dropped |
| Scoping.BranchStore | src/thir_to_mir/lower_match.rs:80-89 | the branch is entered with the store that naive matching prepares, in whatever order the bindings were recorded |
| LoweringSim.SimCall | src/thir_to_mir/mod.rs:662-689 | the emitted call stores the result and continues in the block after it, and diverges when the callee does not return or the type has no values |
| LoweringSim.SimOperand | src/thir_to_mir/mod.rs:820-834 | running the statements emitted for an expression computes its value and leaves older locals alone |
| LoweringSim.SimRValue | src/thir_to_mir/mod.rs:490-591 | the same for right-hand sides |
| StmtSim.SimSimple | src/thir_to_mir/mod.rs:336-369 | let, assignment, return, break, continue and expression statements run like the structured statement, jumps arriving at the loop's recorded begin or end block |
| BodySim.SimIf | src/thir_to_mir/mod.rs:742-775 | running the blocks of a conditional yields the store and exit of the structured conditional |
| BodySim.SimWhile | src/thir_to_mir/mod.rs:712-740 | running the blocks of a loop yields the store and exit of the structured loop, for any number of rounds, and takes at least one step per round |
| BodySim.SimMatch | src/thir_to_mir/mod.rs:398-409 | running the blocks of a match yields the store and exit of the first arm that matches, and diverges when none does |
| BodySim.SimArms | src/thir_to_mir/lower_match.rs:207-216 | each arm's body runs in its own block and joins the merge block |
| BodySim.SimStmts | src/thir_to_mir/mod.rs:294-371 | running the blocks of any statement sequence yields its store and exit: fall-through, returned value, or a jump to the begin or end block of an enclosing loop |
| LoweringCorrect.LoweringSimulates | src/thir_to_mir/mod.rs:870-886 | for every function whose matches are kept, every input and fuel: the graph returns what the body returns with the same source locals, diverges when it diverges, returns nothing from a void function that falls off its end, and is still running when the body runs out of fuel |
| LoweringCorrect.LoweringPreservesMeaning | src/thir_to_mir/mod.rs:870-886 | the body ends in a result if and only if the graph ends in it; in particular one runs forever exactly when the other does |
| LoweringCorrect.LoweringPreservesStores | src/thir_to_mir/mod.rs:870-886 | when both end, every source local holds the same value |
| LoweringCorrect.LoweringSucceeds | src/thir_to_mir/mod.rs:870-886 | lowering goes through if and only if a reading of the body that only tracks whether the current block is closed never writes to a closed one, and every enum that the tree of a match switches on has a tag the lowering reads |
| LoweringCorrect.TidyFunctionsLower | src/thir_to_mir/mod.rs:353-360 | when nothing follows a break or continue in its sequence, lowering goes through if and only if these tags can be read, and then all jumps lead to allocated blocks |
| LoweringCorrect.PlainEnumPanics | src/thir_to_mir/lower_match.rs:95-113 | a concrete function that matches on an enum without payloads is not lowered |
| TreeTags.ReadPatternsTagged | src/thir_to_mir/lower_match.rs:95-113 | it is enough that the enums some pattern looks into have readable tags; the other enums in the type of the scrutinee may be anything |
| TreeTags.FirstTestTagged | src/thir_to_mir/lower_match.rs:95-113 | the enum of the scrutinee must have a readable tag as soon as the first arm tests it |
| TreeTags.TaggedAnywhere | src/thir_to_mir/lower_match.rs:56-71 | whether the tags of a match can be read does not depend on where its scrutinee is stored |
| TreeTags.TagReadable | src/thir_to_mir/lower_match.rs:95-113 | the tag of an enum can be read if and only if it has at least two variants, one of them with a payload that takes up space, and its tag is of one byte or four: at most 256 variants or more than 65536 |
| TreeTags.TagReadAsStored | src/thir_to_mir/lower_match.rs:95-113 | the tag is read as an integer of exactly the layout in which the enum stores it, at the start of the enum |
| Flow.StmtsAfter | src/thir_to_mir/mod.rs:294-371 | lowering a sequence panics exactly when the reading does or a tag cannot be read, and otherwise leaves the current block closed exactly when the reading says so |
| Flow.AllTidyAfter | src/thir_to_mir/mod.rs:353-360 | a tidy sequence closes its last block exactly when it ends in a jump |
| TreeLowering.TreeLowered | src/thir_to_mir/lower_match.rs:73-199 | from any open block, a well-scoped tree is lowered without a panic if and only if every enum it switches on has a readable tag |
| TreeLowering.CompileFails | src/thir_to_mir/decision_tree.rs:76-78 | the tree of a match is Fail exactly when the match has no arms |
| LocalTypes.LoweringTyped | src/thir_to_mir/mod.rs:870-886 | the graph of a well-typed function keeps the function's locals first and is well typed: every place, as destination or operand, has the type its local and projections give it, what is assigned has the type of its destination, a call stores into a temporary of the callee's result type, a switch inspects an integer, only types that are copied are copied, and a local of the source is moved only if its type is not |
| LocalTypes.CallTyped | src/thir_to_mir/mod.rs:662-689 | the local made for a call has the result type of the callee |
| LocalTypes.OperandBuilt | src/thir_to_mir/mod.rs:820-834 | the operand of a well-typed expression is well typed and has the type of the expression |
| LocalTypes.TreeEmitted | src/thir_to_mir/lower_match.rs:73-199 | the blocks of a well-typed tree are well typed, tags included |
| LoweringShape.EveryBlockClosed | src/mir/builder.rs:119-141 | if the body is lowered without a panic, every allocated block is terminated, finalize succeeds, and every jump target of every block is allocated |
| LoweringShape.FinalizeExact | src/mir/builder.rs:119-141 | finalize goes through if and only if no allocated block is open, and then yields all blocks and locals |
| LoweringShape.LowerTreeFill | src/thir_to_mir/lower_match.rs:73-199 | lowering a tree closes the block it starts in and all blocks it makes, writes to no other block, and finalized blocks never change |
| LoweringShape.BuildStmtSeg | src/thir_to_mir/mod.rs:320-371 | lowering a statement touches no existing block but the current one, never changes a finalized block, and leaves open exactly what was open apart from the block it ends in |
| LoweringShape.BuildArmsFill | src/thir_to_mir/lower_match.rs:207-216 | lowering the arms closes exactly their blocks and every block they make |
| Scoping.StmtKeepsLoops | src/thir_to_mir/mod.rs:719-724 | lowering a statement never redirects the breaks and continues of an enclosing loop |
| Builder.MIRBuilder.Terminate | src/mir/builder.rs:66-72 | closes the current block with the terminator, or refuses and changes nothing when it is closed already |
| Builder.MIRBuilder.SwitchToBlock | src/mir/builder.rs:74-80 | moves to a block that is not closed, or refuses and changes nothing |
| Builder.MIRBuilder.EmitStmt | src/mir/builder.rs:82-93 | appends to the current block only, and refuses when it is closed |
| Builder.MIRBuilder.AddBlock | src/mir/builder.rs:95-97 | allocates an empty open block with the next id |
| Builder.MIRBuilder.FinalizeBlocks | src/mir/builder.rs:119-141 | yields the blocks and the locals exactly when as many blocks are closed as allocated |
| ThirToMir.ThirToMIR.BuildOperand | src/thir_to_mir/mod.rs:820-834 | the method leaves the builder in the state, and returns the operand, of the function that SimOperand is about |
| ThirToMir.ThirToMIR.BuildCall | src/thir_to_mir/mod.rs:662-689 | the method computes the state and result local of the function that SimCall is about |
| ThirToMir.ThirToMIR.LowerTree | src/thir_to_mir/lower_match.rs:73-199 | the recursive emission computes the state that SimTree is about |
| ThirToMir.ThirToMIR.LowerDecisionTree | src/thir_to_mir/lower_match.rs:201-220 | allocation of the branch blocks, tests, arms and the diverging block give the modelled state |
| ThirToMir.ThirToMIR.BuildIf | src/thir_to_mir/mod.rs:742-775 | the method computes the state that SimIf is about |
| ThirToMir.ThirToMIR.BuildWhile | src/thir_to_mir/mod.rs:712-740 | the method computes the state and loop tables that SimWhile is about |
| ThirToMir.ThirToMIR.BuildMatch | src/thir_to_mir/mod.rs:398-409 | the method computes the state that SimMatch is about |
| ThirToMir.ThirToMIR.BuildStmts | src/thir_to_mir/mod.rs:294-298 | the loop over statements computes the state that SimStmts is about |
| ThirToMir.Lower | src/thir_to_mir/mod.rs:870-886 | lowering with a fresh mutable builder yields the graph of the theorems, or fails exactly when the function does |
| Conformance.MatchSound | src/typecheck/conformance.rs:48-82 | a successful match extends the table by exactly the pattern's templates, and substituting the table into the pattern gives the type back |
| Conformance.MatchExact | src/typecheck/conformance.rs:48-82 | against a ground type, matching succeeds if and only if some substitution extending the table works, and its table is contained in every such substitution |
| Conformance.TypeMatchAux | src/typecheck/conformance.rs:48-82 | the matcher that fills one table in place succeeds with the modelled table exactly when matching does |
| Conformance.SubIsApply | src/typecheck/conformance.rs:290-303 | substitution by position agrees with substitution by table, unknown templates becoming error types |
| Conformance.SubIdentity | src/typecheck/conformance.rs:290-303 | replacing templates and Self by themselves changes nothing |
| Conformance.SubTwice | src/typecheck/conformance.rs:290-303 | substituting twice is substituting once by what the first substitution becomes |
| ImplSelection.SubsExact | src/typecheck/conformance.rs:173-202 | an impl is used with a substitution if and only if that substitution turns its type into the queried one and its interface into the requested one and every template occurs there; there is at most one |
| ImplSelection.AppliesExact | src/typecheck/conformance.rs:140-150 | an impl applies in a round if and only if some substitution makes it an instance of the query and every bound of every template, under that substitution, has an answer by then |
| ImplSelection.BoundRefused | src/typecheck/conformance.rs:140-150 | with `impl<T: Show> Show for Box<T>` alone, `Box<Nope>: Show` is refused in every round |
| ImplSelection.AnswersAreDerivations | src/typecheck/conformance.rs:140-209 | iterating from "no" reaches an answer for a query if and only if a finite derivation exists, one that proves every bound of every template of the impls it uses |
| ImplSelection.AnswerGrows | src/typecheck/conformance.rs:161-209 | an answer never goes away in later rounds and can only move to an earlier impl |
| ImplSelection.AnswerSettles | src/typecheck/conformance.rs:161-209 | from some round on the answer is the first impl, in order, that heads a finite derivation, or none if there is none |
| ImplSelection.StoppingSettles | src/typecheck/conformance.rs:152-163 | once a round changes no query of a set that contains every bound of every impl that is an instance of one of its queries, every query of the set has the answer it settles on |
| LayoutProofs.LayoutSound | src/layout/mod.rs:140-178 | the layout of every finite type is sound at every depth: size a multiple of alignment, fields aligned, in order, disjoint and inside, tags apart from payloads, variants inside |
| LayoutProofs.LayoutTight | src/layout/aggregate.rs:39-118 | no layout wastes space at any depth: an object is aligned like one of its parts, each field starts less than its alignment after the one before, payloads sit right after the tag, and tail padding is shorter than the alignment |
| LayoutProofs.TaggedTight | src/layout/union.rs:75-114 | the same for a tagged union of tight variants |
| LayoutProofs.ObjectSound | src/layout/mod.rs:140-178 | in an aligned object every scalar on any field, variant or tag path is aligned and inside, and two scalars overlap only if they belong to different variants of one enum |
| LayoutProofs.ScalarsDisjoint | src/layout/union.rs:75-114 | the same disjointness for any sound layout |
| LayoutProofs.AggregateSound | src/layout/aggregate.rs:39-47 | laying out fields with sound layouts gives a sound aggregate |
| LayoutProofs.TaggedSound | src/layout/union.rs:75-114 | the tag-first layout of sound variants is sound |
| LayoutProofs.AlignUpSpec | src/layout/utils.rs:31-34 | rounding up gives the least multiple of the alignment that is not smaller |
| LayoutProofs.TagHoldsIndices | src/layout/union.rs:75-137 | every variant index fits in the chosen tag if and only if the number of variants fits in a u32, and no narrower tag would hold them all |
| LayoutProofs.FatPtrSound | src/layout/fat_ptr.rs:27-55 | the two-word layout of a slice reference is sound |
| TypeLayout.LeafHeld | src/layout/mod.rs:140-178 | every scalar of a type, reached by fields and variants, is in the layout of the type with its own kind, size and alignment: integers at their width, booleans in a byte, pointers in a word, slice references in two, tags of enums with two variants or more |
| TypeLayout.OnlyLeaves | src/layout/mod.rs:140-178 | every scalar in the layout of a type is a scalar of the type |
| TypeLayout.ScalarsStored | src/layout/mod.rs:140-178 | in an aligned object every scalar of its type starts at a multiple of its size and is inside, and two of them are disjoint unless they belong to different variants of one enum |
| TypeLayout.SizeZeroExact | src/layout/mod.rs:140-178 | a type takes no space if and only if it has no scalars |
| TypeLayout.BytesHoldRange | src/layout/mod.rs:164-170 | an integer has exactly as many bytes as its values need |
| Layout64.LayoutExact | src/layout/utils.rs:31-89 | with every addition in 64 bits the layout is computed as above if and only if the size of the whole type is below 2^64; otherwise some addition overflows |
| Layout64.DoublingExact | src/layout/aggregate.rs:39-47 | pairs of pairs of bytes overflow at the sixty-fourth level of nesting and not before |
| Layout.AggregateLayout | src/layout/aggregate.rs:73-108 | the walk with a running offset fills the table with the offsets that AggregateSound is about |
| Mangle.ReadType | src/mangle.rs:211-236 | reading one type off two equal strings gives the same type and rest, or the one overlap: a one-byte integer against a sixteen-byte one with a 6 in between |
| Mangle.TypesDecodable | src/mangle.rs:211-236 | types are uniquely decodable in front of anything that is not a digit, up to the machine-word width |
| Mangle.SameTyMangles | src/mangle.rs:193-203 | types that differ only in naming the machine-word width have the same encoding |
| Mangle.FunctionsInjective | src/mangle.rs:238-260 | two functions have the same symbol if and only if they are the same function |
| Mangle.FunctionsAreNotMethods | src/mangle.rs:246-260 | a function and a method never share a symbol |
| Mangle.MethodsInjective | src/mangle.rs:250-254 | two methods with the same symbol are the same, unless receivers and name lengths overlap |
| Mangle.ShortMethodsInjective | src/mangle.rs:250-254 | methods with names of at most 60 bytes are the same when their symbols are |
| Mangle.CollisionsExact | src/mangle.rs:250-254 | a name of n bytes is the longer name of two different methods with one symbol if and only if n is written as a 6 followed by another length |
| Mangle.CollisionAt61 | src/mangle.rs:250-254 | two concrete methods, one with a name of 61 bytes, that share a symbol |
| Mangle.SymbolsInjective | src/mangle.rs:246-260 | over externs, functions and methods in any combination: the same have one symbol, and two with one symbol are the same, apart from the overlap of methods; an extern beside a function or method must not be declared under a name of their kind |
| Mangle.ExternClash | src/mangle.rs:249 | an extern shares a symbol with a function or method exactly when it is declared under it, and that name begins with `_ZF` or `_ZM` |
| Mangle.ExternSymbol | src/mangle.rs:249 | the symbol of an extern is its declared name |
| Mangle.FunctionSpelled | src/mangle.rs:238-260 | a concrete function and its symbol |
| Mangle.MethodSpelled | src/mangle.rs:250-254 | static and ordinary methods of a concrete receiver and their symbols |
| Mangle.IntsSpelled | src/mangle.rs:193-203 | integers are written with their number of bytes, a machine word with that of the target |
| ExprGrammar.ParseExact | src/parser/expr.rs:94-142 | the operator loop, casts included, returns a tree and a rest exactly when the tokens are the tree's followed by the rest, the tree is well bound (left children at least as tight as their parent, right children strictly tighter, the root tighter than the minimum) and the rest cannot be absorbed |
| ExprGrammar.TreeUnique | src/parser/expr.rs:39-61 | precedence and left associativity leave at most one well-bound tree for a token sequence |
| ExprGrammar.ChainParses | src/parser/expr.rs:94-192 | every chain of prefixed literals joined by binary operators and `..`, with casts after operands, is consumed whole, into the one well-bound tree it spells |
| ExprGrammar.LevelsExact | src/parser/expr.rs:40-61 | a whole expression is parsed into a tree if and only if the tokens are the tree's, the tree is grouped by an explicit list of ten levels of operators with casts above them, and no operator follows |
| ExprGrammar.TwoOperators | src/parser/expr.rs:40-61 | of two operators in a row the one on the tighter level of the list takes the operand between them, and of two on one level the left one does |
| ExprGrammar.CastTightest | src/parser/expr.rs:40-61 | a cast takes the operand in front of it, prefixes included, before any operator does |
| ExprGrammar.UnarySound | src/parser/expr.rs:144-192 | prefix operators apply to the operand after them, `&mut` included |
| ExprParser.Parser.ParseBinop | src/parser/expr.rs:94-142 | the loop that advances the position returns the tree and leaves the rest that ParseExact describes |
| ExprParser.Parser.ParseUnary | src/parser/expr.rs:144-192 | the same for prefix operators |
| TypeExpr.RoundTripExact | src/parser/type_expr.rs:29-186 | printing, lexing and parsing a type expression gives it back if and only if no nested type starts with the name `_` and every slice length is below 2^63 |
| TypeExpr.TypeReadBack | src/parser/type_expr.rs:29-164 | a printable type is read back in front of any text that cannot continue a type, and the whole panics in the lexer exactly when that text does |
| TypeExpr.TypeBack | src/parser/type_expr.rs:29-164 | the same after lexing, through runs of ampersands that are lexed in pairs and taken apart again |
| TypeExpr.TypePrintable | src/parser/type_expr.rs:29-186 | the parser only ever builds types that print back |
| TypeExpr.TypeSpelled | src/parser/type_expr.rs:29-186 | whatever the parser accepts is a spelling of its result: with ampersands apart and without commas in front of closing parentheses, the tokens it takes are those the result is printed with |
| TypeExpr.TrailingComma | src/parser/type_expr.rs:182-186 | a tuple is read the same with a comma behind its last element |
| TypeExpr.LexSplits | src/lexer/rules.rs:96-97 | lexing a text splits between any two tokens that are not both ampersands, and panics exactly when it panics on one of the parts |
| TypeExpr.LongSlicePanics | src/lexer/rules.rs:176-180 | the text of a slice type of length 2^63 makes the lexer panic |
| TypeExpr.PrintInjective | src/parse_tree/top_level.rs:184-259 | two printable types with the same text are the same |
| TypeExpr.UnderscoreLost | src/parser/type_expr.rs:166-180 | a reference to a type named `_` with arguments is a concrete type that does not come back |
| TypeParser.Parser.ParseTypeExpr | src/parser/type_expr.rs:29-164 | the parser that advances the position returns the type and leaves the rest of the modelled parse |
| TypeParser.Parser.ParseAnyTypeArgs | src/parser/type_expr.rs:182-186 | the list loop returns the arguments and leaves the rest of the modelled parse |

## Left out

- Reference peeling in matches: `RefWrappedTy` is not modelled, so a column of reference type is never matched through its references.
- MatchCompilerTheorems.CompileCorrect: struct patterns are in the order in which the field table is enumerated (the source enumerates a hash map, src/mir/concrete_ty.rs:320-326, so that order is its own). For any other order StructOrder.RereadAnswers says what the tree answers, as long as the sub-patterns fit the fields at their positions. Patterns that leave fields out, which make rows shorter than the columns, are not modelled.
- MatchCompilerTheorems.SwitchCorrect: the same restriction on struct patterns.
- MatchBindings.DroppedExact: the same restriction, also in NothingDropped and ExpandedBinderLost.
- MatchCompiler.ExpandOk: struct patterns name all fields, in any order; those that leave fields out are not modelled.
- MatchCompiler.ExpandShrinks: the same restriction on struct patterns.
- MatrixMethods.ExpandMatrix: the same restriction on struct patterns.
- MatchCompilerSteps.ExpandRowsAgree: struct patterns name all fields in the order of the field table, as in CompileCorrect.
- Boolean patterns: no pattern of the source yields a boolean constructor, so a boolean column is only ever a wildcard, and the lowering of a test on booleans or pointers is never used.
- Integer literals against booleans, characters and pointers, which the front end also accepts.
- TreeSim.LiteralKeysExact: a machine word is taken to have 64 bits; on a narrower target the range is that of the narrower word.
- Mir.Chosen: when several keys are cut to the same pattern the switch goes to any of their blocks; LLVM admits no two equal cases in a switch.
- Guards (the lowering asserts there are none), error patterns and error expressions.
- Reading the tag of an enum whose layout carries none that the lowering reads: this panics in the source and is `None` here (TreeTags.TagReadable says for which enums).
- Moves: a move is a read in execution, and LoweringTyped says which operands are moved; drops, move checking and borrow checking are other passes.
- The identity of locals: `local_map` is the identity here, spans and names are dropped, parameters are ordinary locals.
- Index and dereference projections, and address-of: places are projected by fields and downcasts, and every other right-hand side is a pure operation on operands.
- What becomes of a layout after a 64-bit addition overflowed: it is `None` here, a panic or a wrapped number in the source.
- Niche filling and field orderings other than source order, which the source does not implement.
- MatchBindings.NothingDropped: the condition looks at every path of the compiler, also at those that no value takes or whose rows no value selects; for a given value DroppedExact is exact.
- LoweringCorrect.LoweringPreservesMeaning: assumes that execution never reads an uninitialised or ill-typed place, which type checking establishes, and that the matches of the body are kept.
- LocalTypes.LoweringTyped: which operand types an operation, a call, a branch or a return accepts is not part of the model. In struct patterns out of table order a binder is compared with the field at its position, which is what is assigned to it.
- LoweringSim.SimRValue: address-of, references and index projections are not among the right-hand sides.
- Interning, caching, cycle detection inside the query engine, diagnostics, method lookup (src/typecheck/conformance.rs:224-266) and conformance of impl bodies: the query is its sequence of rounds.
- Mangle.SymbolsInjective: nothing in the source keeps an extern from being declared under a name that begins like a mangled one; ExternClash says what happens then.
- ExprGrammar.ParseExact: the type after `as` is one token that stands for what the type parser takes, and operands are prefixed literals; the prefix forms in front of them are modelled.
- ExprParser.Parser.ParseBinop: the same restriction on operands and on the type of a cast.
- ExprParser.Parser.ParseUnary: goes on to a literal where the source goes on to a postfix expression.
- The rest of the expression grammar: postfix operators, calls, struct literals, turbofish and parenthesised expressions; a token that would start one of them ends the expression here.
- Characters and spans: lexing is modelled on tokens, with the pairing of ampersands and the range of numerals as its only steps; names are taken to be identifiers that are no keywords, and the printed `<error>` type is not modelled.
- The bit-set and append-only-vector data structures, code generation apart from the width of switch keys, and the language server.
