# A verified model of the compiler's middle end

The repository is a small compiler for structured functions over integer variables. This project models its path
from expression tokens to SSA form, and the data structures and back-end parts around that path, and proves what
each step keeps.

- **Lowering** (`ir_creation.c`): syntax trees become blocks of instructions over virtual registers.
  `Lowering.dfy` has the creator object and the state functions it follows; `LoweringShape.dfy`, `LoweredGraph.dfy`,
  `LoadCover.dfy`, `LoweringForm.dfy` and `SelfInits.dfy` prove what every lowered graph looks like; `SourceMeaning.dfy`
  and `LoweringMeaning.dfy` prove that lowering keeps the meaning, `EvaluationOrder.dfy` which variable a name means and
  in which order operands are read; `LoweringLimits.dfy` and `StaleRegister.dfy` show
  where it does not.
- **Dominators** (`dominators.c`): `Postorder.dfy` (depth-first numbering), `LoopOrder.dfy` (the numbers of a loop),
  `Dominators.dfy` (the two-finger sweeps over the shared array), `Frontiers.dfy`, all against dominance over walks in
  `Graphs.dfy`.
- **SSA conversion** (`ssa_conversion.c`): `PhiPlacement.dfy` (analysis and worklist), `Renaming.dfy` (the walk over the
  dominator tree with a value stack per register), `SsaConversion.dfy` (all steps), against the definition of the
  nearest definition in `SsaSpec.dfy`; `Liveness.dfy` and `LastDefinition.dfy` say when that is the definition a run has
  met last; `SsaMeaning.dfy` proves by simulation that conversion keeps the meaning, and `IndexZero.dfy` has a source
  program on which the treatment of the first register loses it, `EmptyStack.dfy` code on which it leaves a load
  without a value.
- **The whole path**: `Renumbering.dfy` (blocks by creation and by postorder number) and `Pipeline.dfy`.
- **Register allocation** (`codegen.c`, the `arch_*` functions of `x86_64_assembly.c`): `RegAllocSpec.dfy`, `RegAlloc.dfy`.
- **Structures**: `Lists.dfy` (`list.c`), `HashMap.dfy` (`hashmap.c`), `UseLists.dfy` (use lists of `ir.c`),
  `Parser.dfy` (expressions of `parser.c`), `Relocation.dfy` (`relocation.c`, `writeLong` of `utils.c`).

Execution is defined in `IR.dfy` (before and after conversion) and in `SourceMeaning.dfy` (the source). The meaning of
the binary operators is a parameter, so every theorem holds for any of them. An object that the program refers to by
pointer is named by where or when it was created: blocks by number, instructions by block and position. State that the
program updates in place is a class with the same fields (the creator, the postorder, the dominator array, the
frontier table, the phi placer, the renamer, the allocator with its variables, the lists and the hash map, the parser,
labels and buffers); each method is proved against a specification, mostly a function of the old state, and the
properties below are proved about that specification.

Three places where the code does not do what its surroundings promise are kept as they are:

- `lastIteration` starts at 0 and is compared with `< i`, so the register at table position 0 gets phis at the plain
  dominance frontier only. `SsaConversion.ClosedIffFirstRegClosed` gives the exact condition under which the placed phis
  are still closed, `SsaConversion.LiveClosedIffFirstRegLiveClosed` with `LastDefinition.FaithfulIffLiveClosed` the one
  under which they are right for every live register, and `IndexZero.MeaningIsLost` a tree for which the compiled code
  computes something else. The form of the converted code and the discipline of the stacks do not depend on the
  condition; whether a load finds a value may, see `SsaSpec.ReachIffDefined` and `EmptyStack.LoadFindsNothing`.
- The back edge of a while goes on the first block of its body, and a return does not end a block.
  `LoweringForm.TerminatorsLastIffProper` says exactly for which trees every jump ends its block, and
  `LoweringLimits.NestedIfIsLost` has a program outside of them that terminates while its lowered code runs for ever.
- A declared name is in scope in its own initialiser, which may read it. `SelfInits.CoveredIffNoSelfInits` says that
  exactly such initialisers leave a load without an assign in front of it, and `StaleRegister.StaleValueIsRead` has a
  program whose lowered code reads a value that an earlier round of a loop left behind.

The single rotation of the expression parser does not give full operator precedence: `Parsing.CorrectIffValley` says
exactly for which chains of operators it does.

`dafny verify dfyconfig.toml` checks the whole project.

## Model

| member | source | states |
|---|---|---|
| Postorders.Postorder.Visit | dominators.c:20-37 | the visit numbers exactly the blocks it newly reaches; each listed block has a predecessor further down the list, and nothing reached is left out |
| Postorders.Postorder.Number | dominators.c:58-74 | the list is the postorder of the depth-first search that takes successors as they are listed; the numbering is a bijection between the reachable blocks and 0..n-1, the entry has n-1, and every other block has a predecessor with a higher number; of two successors of a block, the one listed first gets the smaller number if the block strictly dominates it and alone leads to the other |
| Postorders.DepthFirstInOrder | dominators.c:29-32 | that order of siblings, for every numbering in depth-first order |
| LoopOrder.FirstBranchIsFirst | dominators.c:29-32 | a block that alone leads to two others, of which it dominates the first, has the first numbered before the second |
| LoopOrder.BodyBeforeExit | ir_creation.c:212-243 | the body of a while gets a smaller number than its exit, whatever surrounds the loop |
| Postorders.NumbersAreFixed | dominators.c:27-36 | the order of the list fixes all numbers |
| Postorders.StrictDominatorsAreLater | dominators.c:20-37 | strict dominators of a reachable block have larger numbers |
| Postorders.DominatesRenumbered | dominators.c:39-43 | dominance among the numbers is dominance among the blocks they stand for, in the sense of walks |
| Postorders.RenumberedIsNumbered | dominators.c:85-97 | the numbered graph meets what the sweeps rely on if and only if the first listed predecessor of each non-entry block has a larger number |
| Postorders.DominatingFirstPredIsLater | dominators.c:92-97 | which follows when that predecessor dominates the block |
| Dominators.Intersect | dominators.c:48-56 | on a partly built tree both fingers climb to their lowest common chain element: it is on both chains, and everything common to both chains is on its chain |
| Dominators.SweepStep | dominators.c:88-112 | writing the meet of a block's predecessors keeps the sweep invariant, re-hanging the whole subtree below it, and moves an entry that was set to a strictly larger number |
| Dominators.Meet | dominators.c:90-108 | the predecessor loop computes the meet of all processed predecessors without reading unset entries |
| Dominators.Sweep | dominators.c:86-113 | a sweep that changes something makes the sum of the array strictly larger or sets an entry for the first time |
| Dominators.ExactAtExit | dominators.c:85-113 | when a sweep changes nothing, the chain of every block is exactly its set of dominators |
| Dominators.ExactGivesIDom | dominators.c:135-139 | then each entry is the immediate dominator: a strict dominator that all other strict dominators dominate |
| Dominators.Solve | dominators.c:71-113 | the sweeps terminate and leave the exact array, which is where the computation, described turn by turn, ends |
| Dominators.BuildTree | dominators.c:115-129 | the child list of d holds, in order, exactly the blocks other than d whose entry is d |
| Dominators.Compute | dominators.c:58-113 | if, in depth-first order, the first listed predecessor of each non-entry block has a larger number, every reachable non-entry block gets its immediate dominator |
| Dominators.ComputeNumbered | dominators.c:71-113 | the same for any numbering in which first listed predecessors are later, which is the exact condition of RenumberedIsNumbered |
| Dominators.DominatingFirstPredsAreAbove | dominators.c:92-97 | it is met where first listed predecessors dominate, as in all lowered code |
| Dominators.FirstPredMustBeLater | dominators.c:48-56 | with an unprocessed first predecessor the two inner loops of the intersection turn for ever |
| Dominators.NeverEnds | dominators.c:85-113 | if the first listed predecessor of some block is not later, the first sweep comes to the highest such block and never leaves it |
| Dominators.EndsIffNumbered | dominators.c:85-113 | the computation ends if and only if the first listed predecessor of each non-entry block has a larger number |
| Dominators.EndsIffFirstPredLater | dominators.c:39-113 | the same on a block graph with its depth-first numbers |
| Frontiers.PassesIsFrontier | dominators.c:177-187 | a runner that starts at some predecessor of b passes x exactly if x dominates a predecessor of b and does not strictly dominate b |
| Frontiers.RunnerStops | dominators.c:182-186 | every climb meets the immediate dominator of the block |
| Frontiers.FrontierTable.Climb | dominators.c:182-186 | one climb adds the block to the lists of exactly the blocks between the predecessor and the immediate dominator |
| Frontiers.FrontierTable.Compute | dominators.c:170-189 | as sets the lists are the dominance frontiers in the sense of walks |
| Frontiers.FrontierTable.Get | dominators.c:192-197 | looking up a frontier returns the recorded blocks and changes no frontier |
| PhiPlacement.AnalyseBlock | ssa_conversion.c:264-283 | a block's registers in the order of first mention, each once, with its last assign |
| PhiPlacement.Analyse | ssa_conversion.c:254-319 | the table lists every mentioned register once, with the last assign of exactly the blocks that assign it, and starts with the register mentioned first |
| PhiPlacement.PlainIsIterated | ssa_conversion.c:354-401 | the plain and the iterated frontier of the assigning blocks are equal if and only if the plain one is closed |
| PhiPlacement.PhiPlacer.GetOrCreatePhi | ssa_conversion.c:68-84 | a block has at most one phi for a register |
| PhiPlacement.PhiPlacer.PlaceRegister | ssa_conversion.c:357-407 | one register gets exactly one phi in each block of its iterated frontier, at table position 0 of its plain frontier, and none elsewhere; the growing worklist terminates |
| PhiPlacement.WorklistFits | ssa_conversion.c:392-400 | a block enters the worklist at most once per register, so it never gets longer than the graph |
| PhiPlacement.PhiPlacer.Place | ssa_conversion.c:356-407 | the same for all registers of the table at once |
| PhiPlacement.PlacementIsClosed | ssa_conversion.c:354-407 | the placed phis contain the frontier of every block that assigns the register or has its phi, if and only if this holds for the register at position 0 |
| PhiPlacement.PlacementIsLiveClosed | ssa_conversion.c:354-407 | and contain it where the register is live, if and only if this holds for the register at position 0 |
| SsaConversion.ClosedIffFirstRegClosed | ssa_conversion.c:354-401 | the condition in terms of the code alone: the frontier of the blocks assigning the first mentioned register is closed |
| SsaConversion.LiveClosedIffFirstRegLiveClosed | ssa_conversion.c:354-401 | the same where the first mentioned register is live |
| SsaSpec.EdgeKeepsReach | ssa_conversion.c:189-208 | along every edge, for a register that is live behind it, the nearest definition at the target is its phi, or the nearest definition at the end of the source |
| SsaSpec.ReachIffDefined | ssa_conversion.c:102-118 | wherever the phis are, a register has a nearest definition at a point if and only if an assign to it or a phi for it dominates the point |
| SsaSpec.DominatedLoadsReach | ssa_conversion.c:114-118 | so every load that an assign dominates has one, without any condition on the phis |
| SsaSpec.CoveredLoadsReach | ssa_conversion.c:114-118 | and, where the phis are closed for live registers, so has every load that is preceded by an assign on every path |
| SsaSpec.ReachDominates | ssa_conversion.c:145-235 | the nearest definition dominates the point it is taken for |
| LastDefinition.FaithfulIffLiveClosed | ssa_conversion.c:345-407 | on every walk, wherever a register is live, its last definition is the one renaming takes, if and only if the phis are closed under frontiers for live registers |
| Liveness.LiveIffNeeded | ssa_conversion.c:345-407 | live means: some way on leads to a load of the register, or to an end where it is observed, without an assign to it |
| LastDefinition.ReachIsNearest | ssa_conversion.c:102-129 | what renaming takes is the value of that definition |
| Renaming.LoadRenamed | ssa_conversion.c:174-178 | replacing the uses of a load everywhere is exactly what the substitution of nearest definitions prescribes next |
| Renaming.AllRenamed | ssa_conversion.c:172-187 | when all blocks are done, every instruction is rewritten with nearest definitions, and exactly loads and assigns are unlinked |
| Renaming.GrownTops | ssa_conversion.c:102-129 | with the stacks as on entry plus what the block pushed, every top is the nearest definition |
| Renaming.AllServed | ssa_conversion.c:189-208 | each phi has exactly one pair for each predecessor with a definition, and none for others, even when a terminator names a successor twice |
| Renaming.NothingLeft | ssa_conversion.c:218-234 | after popping, the stacks are what they were on entry |
| Renaming.SubtreeIsChildren | ssa_conversion.c:210-216 | the dominator subtree of a block is the block and the disjoint subtrees of its children |
| Renaming.Renamer.PushPhis | ssa_conversion.c:161-164 | pushes each phi of the block on its register's stack |
| Renaming.Renamer.RenameInst | ssa_conversion.c:172-187 | one load or assign: the top used for a load is the nearest definition; loads are never pushed; it fails exactly at a load without a nearest definition |
| Renaming.Renamer.RenameLoad | ssa_conversion.c:174-178 | the stack of a load's register is empty exactly if the load has no nearest definition; otherwise its top replaces the load in every operand, and no phi pair names a load |
| Renaming.Renamer.InsertPair | ir.c:459-478 | a pair is added once |
| Renaming.Renamer.FillSuccessors | ssa_conversion.c:189-208 | serves the phis of all successors with the values at the end of the block |
| Renaming.Renamer.PopBlock | ssa_conversion.c:221-234 | takes off exactly what the block pushed |
| Renaming.Renamer.Rename | ssa_conversion.c:145-235 | wherever the phis are: if every load of the subtree has a nearest definition, the walk renames every block of the subtree exactly once and leaves every stack as it was; otherwise, and only then, it meets an empty stack at a load and stops |
| SsaMeaning.SimInst | ssa_conversion.c:172-187 | one instruction keeps the simulation between register code and SSA code |
| SsaMeaning.SimEdge | ssa_conversion.c:189-208 | so does every edge, with the phis of the target taking their values at once |
| SsaMeaning.SimRun | ssa_conversion.c:145-235 | both programs stay together for any number of blocks |
| SsaMeaning.PrunedRun | ssa_conversion.c:426-435 | unlinking phis that nothing uses changes no used value on any run |
| SsaMeaning.ConversionPreservesMeaning | ssa_conversion.c:237-451 | from every initial state and after any number of blocks, both programs stand in front of the same block or have stopped, with the same value at every instruction that computes one, if the phis are closed for live registers |
| SsaMeaning.ConvertedForm | ssa_conversion.c:172-187 | no load or assign is left, no operand names a removed instruction, and every definition dominates its use |
| SsaMeaning.ConvertedPhis | ssa_conversion.c:189-208 | phi operands name what is still there, and dominate the end of the predecessor they are paired with |
| SsaMeaning.StoppingValues | ssa_conversion.c:145-235 | where a run stops, every assigned register that is observed has the value of its nearest definition: in the renamed program without exception, and in the pruned one unless that definition is an unlinked phi |
| SsaConversion.Prune | ssa_conversion.c:421-435 | a phi stays linked if and only if it was and some instruction has it as an operand or some pair of some phi has it as value |
| SsaConversion.LinkedIffNamed | ssa_conversion.c:421-435 | in the converted program a phi is linked if and only if some instruction object or pair in it names the phi |
| SsaConversion.Convert | ssa_conversion.c:237-451 | all steps together, for all well-formed code: phis are placed as required; there is a result if and only if every load has a nearest definition, and then it is the renamed and pruned program; that is so whenever assigns dominate the loads, or precede them on every path and the first register's frontier is closed where it is live, in which case the meaning is kept too |
| SsaConversion.LoadsFound | ssa_conversion.c:114-118 | which loads are sure to find a value, in terms of the code before conversion |
| EmptyStack.LoadFindsNothing | ssa_conversion.c:114-118 | code with an assign in front of its load on every path on which the load finds an empty stack, because the phis of the first register stop at the plain frontier |
| IndexZero.MeaningIsLost | ssa_conversion.c:354-401 | a tree with two nested ifs for which whatever the whole path of passes produces computes 0 where the source and the lowered code compute 1 |
| IndexZero.ProblemIsFixed | ssa_conversion.c:345-407 | on the code of that tree the placement of phis and the dominator array leave no choice |
| IndexZero.LowerTree | ir_creation.c:184-255 | the blocks and predecessor lists the lowering makes of that tree |
| IndexZero.TreeOrder | dominators.c:20-37 | the depth-first order of those blocks |
| Lowering.IrCreator.FindReg | ir_creation.c:71-82 | the innermost scope that knows a name decides |
| EvaluationOrder.FindIsInnermost | ir_creation.c:71-82 | of several scopes with a name the innermost one counts |
| EvaluationOrder.StoreIsInnermost | ir_creation.c:71-82 | and an assignment changes the variable of that scope only |
| EvaluationOrder.DeclaredOnce | ir_creation.c:71-94 | a declaration is accepted exactly if its name is new in its scope and what its initialiser reads is declared, an assignment exactly if all its variables are |
| EvaluationOrder.InnerNameHides | ir_creation.c:62-94 | a program that declares a name again in an inner scope is accepted, and the outer variable keeps its value |
| Lowering.IrCreator.CreateReg | ir_creation.c:84-94 | a name declared in the innermost scope gets the next register |
| Lowering.IrCreator.CreateValue | ir_creation.c:116-182 | expressions are evaluated left to right into the current block |
| EvaluationOrder.ReadsInOrder | ir_creation.c:116-182 | the code of an expression loads its variables from left to right |
| EvaluationOrder.OperandsInOrder | ir_creation.c:104-182 | an operator gets its left operand on the left |
| Lowering.IrCreator.CreateStatement | ir_creation.c:184-255 | blocks, predecessor lists, scopes and registers after a statement are those of the lowering function; scopes change by declarations only |
| Lowering.IrCreator.CreateBlock | ir_creation.c:257-291 | a syntax block is lowered into blocks of its own, and scope and current block are restored |
| Lowering.IrCreator.CreateFunction | ir_creation.c:48-60 | a function body is lowered with the first block as entry |
| LoweringShape.BuiltTrans | ir_creation.c:270-274 | what lowering establishes about graph and predecessor lists composes over statements |
| LoweringShape.IfBuilt | ir_creation.c:191-211 | an if hangs its blocks below the current one; the first listed predecessor of each is on the way to all others |
| LoweringShape.WhileBuilt | ir_creation.c:212-243 | so does a while, whatever its body; blocks the body created beyond its first one lose their only way in |
| LoweringShape.StmtBuilt | ir_creation.c:184-255 | hence every statement |
| LoweredGraph.ChainIsOnWalk | dominators.c:92-97 | the blocks found by following first listed predecessors are on every walk from the entry |
| LoweredGraph.LoweredIsConnected | ir_creation.c:184-291 | for every syntax tree: no edge enters the entry, predecessor lists and edges agree on reachable blocks, predecessors of reachable blocks are reachable, and the first listed predecessor of each dominates it |
| LoadCover.LoweredLoadsDominated | ir_creation.c:62-94 | when no initialiser names its own variable, every load is dominated by an assign to its register |
| SelfInits.CoveredIffNoSelfInits | ir_creation.c:62-94 | every load is preceded by an assign on every walk, or dominated by one, if and only if no initialiser names its own variable (straight while bodies, return only at the end) |
| StaleRegister.StaleValueIsRead | ir_creation.c:84-94 | a program with such an initialiser in a loop that goes on for ever while its lowered code stops, because the second round reads the register of the first |
| LoweringForm.LoweredIsTidy | ir_creation.c:104-182 | for every syntax tree operands are constants or results from earlier in the same block |
| LoweringForm.TerminatorsLastIffProper | ir_creation.c:212-254 | jumps and returns stand only at the end of blocks if and only if while bodies are straight and the only return is the last statement |
| LoweringLimits.NestedBlocksAreUnreachable | ir_creation.c:222-230 | whatever follows the first block of a while body is on no walk from the entry |
| LoweringLimits.NestedBlockIsLost | ir_creation.c:222-230 | and there is such a block for every while whose body is not straight and has no return of its own, whatever surrounds it |
| LoweringLimits.NestedIfIsLost | ir_creation.c:222-230 | a terminating program with an if inside a while whose lowered code never stops |
| SourceMeaning.ResultIsUnique | ir_creation.c:184-255 | the meaning of a source program does not depend on the fuel it is given |
| SourceMeaning.HaltedIsStopped | ir.c:545-591 | running instruction by instruction and block by block end in the same block and state |
| LoweringMeaning.AgreeStore | ir_creation.c:71-82 | writing the register found for a name is storing to the innermost variable of that name, and to no other |
| LoweringMeaning.AgreeBind | ir_creation.c:84-94 | a declaration gives its variable a register no other variable in scope has |
| LoweringMeaning.ExprRuns | ir_creation.c:116-182 | the code of an expression computes its value and writes no register |
| LoweringMeaning.LoopRuns | ir_creation.c:212-243 | the blocks of a while do what the loop does, round by round |
| LoweringMeaning.StmtRuns | ir_creation.c:184-255 | every statement, with arbitrarily nested ifs and shadowing |
| LoweringMeaning.TerminatingRun | ir_creation.c:48-60 | a terminating source program and its code end with the same values in all variables |
| LoweringMeaning.DivergingRun | ir_creation.c:48-60 | the code of a diverging program never stops |
| LoweringMeaning.LoweringPreservesMeaning | ir_creation.c:184-291 | the lowered code stops if and only if the source program terminates, with the same values of its variables, from any initial state |
| Renumbering.RenumberedIsWellFormed | dominators.c:39-43 | under postorder numbers lowered code has the form SSA conversion takes |
| Renumbering.RunMapped | dominators.c:39-43 | naming blocks by number changes no run |
| Pipeline.Compile | tests/ssa_test.c:36-54 | lowering, numbering, dominators, frontiers and conversion in the order in which they are run succeed for every good body and give the conversion of the lowered and numbered body; if in that code the frontier for the first register is closed where it is live, the program that comes out stops if and only if the source terminates, whatever its operators mean |
| Pipeline.ClosedIsOfProgram | ssa_conversion.c:354-401 | the condition speaks of the one program in depth-first order that the body is compiled to, and holds exactly if there the last definition of every live register on every walk is the one renaming takes |
| Pipeline.ConvertedInStep | tests/ssa_test.c:36-54 | block by block the SSA program does what the lowered one does |
| Pipeline.ConvertedTerminates | tests/ssa_test.c:36-54 | the SSA program stops if and only if the source program terminates |
| Pipeline.FinalValues | tests/ssa_test.c:36-54 | the final value of every source variable whose register is observed is the value of the nearest definition of that register: without exception before unused phis are unlinked, and afterwards wherever that definition is still linked |
| RegAllocSpec.SpillInv | codegen.c:70-80 | storing a variable keeps: registerStatus[r] is v exactly if v is in r, slots are distinct, within the frame and fill it, the list holds exactly the variables in registers |
| RegAllocSpec.SpillKeeps | codegen.c:70-80 | and every variable keeps its value |
| RegAllocSpec.EvictsLeastRecentlyUsed | codegen.c:82-96 | when no register is free, the variable that loses its register was used longer ago than every other one in a register |
| RegAllocSpec.NewVarKeeps | codegen.c:31-39 | a new variable has the value its register holds, and no other value changes |
| RegAllocSpec.RefKeeps | codegen.c:106-117 | getting a register for a variable, with eviction and reloading, changes no value |
| RegAllocSpec.OrderRef | codegen.c:98-117 | the list stays in the order of last use |
| RegAllocSpec.WriteKeeps | codegen.c:103-106 | a value computed into a variable's register is the variable's value, and no other changes |
| RegAllocSpec.SpillFromKeeps | codegen.c:21-29 | ending a block changes no value |
| RegAllocSpec.NothingResident | codegen.c:21-29 | and leaves every variable in a slot of the frame |
| RegAllocSpec.ArgumentsInPlace | x86_64_assembly.c:241-281 | right before the call the arguments are in the registers with the x86 numbers 7, 6, 2, 1, 8 and 9, that is RDI, RSI, RDX, RCX, R8, R9 (section 3.2.3 of the System V AMD64 ABI), also when a variable is passed twice |
| RegAllocSpec.ArgumentRegisters | x86_64_assembly.c:201-220 | the allocator numbers of the argument registers stand for these x86 registers |
| RegAllocSpec.PointersAreKept | x86_64_assembly.c:201-206 | RBX, RSP and RBP are never handed out |
| RegAllocSpec.CallKeeps | x86_64_assembly.c:241-281 | afterwards all registers are free and every variable has its value in its slot, whatever the callee leaves in the registers |
| RegAlloc.Codegen.constructor | codegen.c:7-15 | the allocator starts valid |
| RegAlloc.Codegen.VariableStore | codegen.c:70-80 | storing any variable keeps the invariant and every value; one in no register is loaded first; afterwards it is in none |
| RegAlloc.Codegen.StoreResident | codegen.c:70-80 | for a variable that is in a register |
| RegAlloc.Codegen.AllocateReg | codegen.c:82-96 | the first free register, or that of the head of the list |
| RegAlloc.Codegen.NewVarReg | codegen.c:31-39 | a new variable in a free register |
| RegAlloc.Codegen.VariableRef | codegen.c:106-117 | the variable is in the returned register, and most recently used |
| RegAlloc.Codegen.PopBlock | codegen.c:21-29 | no register is taken afterwards |
| RegAlloc.Codegen.InitFunction | codegen.c:53-59 | behind the variables there are already, the first six arguments get variables with the values of the x86 registers 7, 6, 2, 1, 8 and 9 |
| RegAlloc.Codegen.InitFunctionArg | x86_64_assembly.c:213-220 | each in the register its position prescribes, with the value of x86 register 7, 6, 2, 1, 8 or 9, and none for later arguments |
| RegAlloc.Codegen.FunctionCall | x86_64_assembly.c:241-281 | arguments in the x86 registers 7, 6, 2, 1, 8 and 9 at the call, registers free and values kept behind it |
| Lists.Add | list.c:6-11 | appends to the circle |
| Lists.AddAfter | list.c:13-18 | inserts behind a node of the circle |
| Lists.Deattach | list.c:20-23 | takes a node out of the circle and keeps the order of the rest |
| HashMaps.DoublingHelps | hashmap.c:122-127 | doubling the buckets once brings the load below 80 percent again |
| HashMaps.HashMap.constructor | hashmap.c:51-57 | an empty map |
| HashMaps.HashMap.FindInBucket | hashmap.c:68-81 | finds the entry of a key exactly if the map has one |
| HashMaps.HashMap.Get | hashmap.c:130-133 | lookup in the finite map |
| HashMaps.HashMap.Remove | hashmap.c:135-143 | removal from the finite map; the nodes of the table are old ones |
| HashMaps.HashMap.Set | hashmap.c:108-128 | update of the finite map, with a new entry or with the one that stands for the key already; every entry sits in the bucket of its hash, the size is the number of keys, and the load is below 80 percent; the nodes of the table are old ones, the entry, or newly allocated |
| HashMaps.HashMap.MoveBucket | hashmap.c:91-105 | relinking the entries of an old bucket, reading each next link before it is overwritten, moves every entry once |
| HashMaps.HashMap.Rehash | hashmap.c:83-106 | twice the buckets, the same map, in old or newly allocated nodes |
| HashMaps.HashMap.Insert | hashmap.c:280-303 | the map as a set: reports whether the key was new, and adds only newly allocated nodes |
| HashMaps.HashMap.Exists | hashmap.c:290-308 | membership |
| HashMaps.HashMap.PerformAll | hashmap.c:63-143 | over any sequence of set, remove and get, with rehashing wherever it happens, the map ends as the finite map does and every get is answered as by the finite map at that point |
| HashMaps.AnswerAt | hashmap.c:130-133 | which is what the operations before it have made of the map |
| UseLists.SetUse | ir.c:40-59 | a use is on the list of its value, once, exactly if it fills its slot; setting an operand keeps this and changes no other operand |
| UseLists.SetUseAppends | ir.c:40-59 | an empty slot gets a new use at the end of the list of the value, and all other lists stay |
| UseLists.SetUseMoves | ir.c:40-59 | the use of a filled slot leaves its list, whose order stays, for the end of the list of the new value, and all other lists stay |
| UseLists.ReplaceAllUses | ir.c:109-120 | the old list ends empty, the replacement's list gets its uses in order, and exactly the operands that were the old value become the replacement |
| UseLists.SelfReplaceEndsIff | ir.c:109-120 | replacing a value by itself ends if and only if it has fewer than two uses |
| UseLists.PhiInsertAdds | ir.c:459-478 | a phi gets a new pair at the end unless it has the pair, and no other instruction changes |
| UseLists.PhiInsertAppends | ir.c:459-478 | the two new uses go to the ends of the lists of the block and of the value, in this order |
| UseLists.UsedIsOperand | ir.c:122 | a value has a use exactly if it is some operand |
| UseLists.Context.InstSetUse | ir.c:40-59 | the operation on the lists |
| UseLists.Context.ValueReplaceAllUses | ir.c:109-120 | the loop over the list of the old value |
| UseLists.Context.HasUse | ir.c:122 | some operand is the value |
| UseLists.Context.PhiInsertValue | ir.c:459-478 | the search for the pair and the two new slots |
| Parsing.BuildIsMixed | parser.c:449-510 | whatever the operators, the tree is left-associated up to its root and right-associated behind it |
| Parsing.BuildKeepsOrder | parser.c:500-507 | rotations never reorder operands and operators |
| Parsing.CorrectIffValley | parser.c:449-510 | with products and quotients binding tighter than sums and differences, and these tighter than comparisons: the tree respects precedence and left association if and only if no operator binds tighter than the one before it up to some operator, and each does from there on |
| Parsing.FallingIsLeftAssociated | parser.c:493-499 | chains in which no operator binds tighter than the one before it come out left-associated |
| Parsing.PrecedenceOrders | parser.c:393-410 | the precedence numbers order the nine operators in the three classes |
| Parsing.TwoOperators | parser.c:393-510 | how a op1 b op2 c is read, for every pair of operators |
| Parsing.TwoProductsGoWrong | parser.c:449-510 | a + b * c * d is read as (a + b) * (c * d) |
| Parsing.ExpressionKeepsTokens | parser.c:413-510 | the tree read from left to right, with its parentheses and signs, is exactly the consumed tokens |
| Parsing.ExpressionIsChain | parser.c:444-510 | a parsed expression is a chain of operands, none of them an unparenthesised operator, and no operator follows it |
| Parsing.TreeIsParsed | parser.c:413-510 | the tokens of every well-formed expression are read to the end, as a tree with the same tokens |
| Parsing.ExpressionKeepsValue | parser.c:413-438 | what is built, without parentheses and signs, has the value of what was written, with a minus negating its number |
| Parsing.RotationIgnoresParentheses | parser.c:488-507 | although the parser forgets parentheses, it never rotates a parenthesised operand |
| Parsing.Parser.PeekToken | parser.c:351-356 | looking ahead consumes nothing |
| Parsing.Parser.Next | parser.c:358-368 | delivers the next token, also after looking ahead |
| Parsing.Parser.ReadAtom | parser.c:413-438 | numbers with a sign, variables and parenthesised expressions |
| Parsing.Parser.ParseExpression | parser.c:444-447 | an operand and the operators behind it |
| Parsing.Parser.ParseBinary | parser.c:449-510 | the tree and the remaining tokens are those of the specification |
| Relocations.WriteLong | utils.c:23-28 | the bytes written are the number modulo 256^bytes in little-endian order, and no other byte changes |
| Relocations.LeByte | utils.c:23-28 | in that order byte i counts 256^i times |
| Relocations.Moduli | relocation.c:4-15 | the widths 1, 2, 4 and 8 and their moduli |
| Relocations.CodeBuffer.RelocationEmit | relocation.c:33-37 | the new site lies in the buffer, is 1, 2, 4 or 8 bytes wide, and overlaps no site emitted before, for any label |
| Relocations.SelectedAreApart | relocation.c:22-37 | so the sites of one label are disjoint |
| Relocations.RelativeReachesLabel | relocation.c:39-49 | a relative site's value plus memory location, site offset and bias is the label's offset modulo 2^8, 2^16, 2^32 or 2^64 |
| Relocations.AbsoluteHoldsOffset | relocation.c:42-60 | an absolute site's value is the offset modulo 2^8, 2^16, 2^32 or 2^64 |
| Relocations.ApplyMemory | relocation.c:64-73 | every site of the label holds its value, no other byte changes, and the label waits for nothing any more |

## Left out

- Dumping and dot output, format strings, the ELF header, the command line, platform code: input and output only.
- The tokenizer: the parser model starts from tokens; statements and declarations of the parser are not modelled.
- Parse errors: the model says that no tree results, not with which message. Inputs for which the program text defines
  nothing (a sign in front of something that is no number, an expression that starts with no operand, an operator
  behind an operand that failed to parse) are a separate outcome, and the parser methods are specified for the others.
- Identity of syntax nodes: the rotation makes a new tree where the parser reassigns the fields of two nodes.
- Function calls, arguments and modules of the source language, `else`, call instructions, `ssa_convertBack`,
  `codegen_newTmp`: unfinished in the program.
- Data types of values and phis: all values are integers, and widths of the source arithmetic are in the operators,
  which are a parameter.
- LoweringMeaning.LoweringPreservesMeaning: for trees whose while bodies are straight and whose only return is the last
  statement, because for others the program emits something else (see LoweringLimits), and for initialisers that do not
  read their own variable, see SelfInits.CoveredIffNoSelfInits and StaleRegister.StaleValueIsRead.
- SsaMeaning.ConversionPreservesMeaning: for programs in which the frontier of the blocks assigning the first mentioned
  register is closed where that register is live, see SsaConversion.LiveClosedIffFirstRegLiveClosed,
  LastDefinition.FaithfulIffLiveClosed and IndexZero.MeaningIsLost.
- Pipeline.FinalValues: after unused phis have been unlinked, a variable whose nearest definition was one of them has
  no value in the program any more.
- What happens behind an empty stack: the program ends with a failed assertion, and the model has no result.
- Unreachable blocks: SSA conversion and the dominator computation are modelled on the numbered, reachable blocks; their
  predecessor lists do not name unreachable ones, as LoweredGraph.LoweredIsConnected shows.
- Instruction lists inside a block: an unlinked instruction keeps its position and is marked, instead of leaving a
  linked list. Use lists and the list of the allocator are sequences; the pointer operations that implement them are in
  `Lists.dfy`. Hash maps inside the other passes are finite maps; that the hash map refines one is in `HashMap.dfy`.
- Hash map iterators, and the hash functions themselves: the hash is any function of the key.
- Zone allocation and buffer capacity: allocation always succeeds and buffers grow.
- Printing and parsing of integers in `buffer.c`.
- x86 encodings: emitted code is loads, stores and moves between registers and slots. The displacement of a slot is one
  byte in the program, which limits a frame to 16 slots; the model has no such limit.
- Relocations.ApplyMemory: the memory it is given must hold all sites of the label; nothing checks this in the program.
- UseLists.ReplaceAllUses: to a different value; for the same value see UseLists.SelfReplaceEndsIff.
