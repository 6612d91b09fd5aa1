# Verified models of ILAng's core

ILAng describes hardware by instructions over architectural state and turns such descriptions into
constraints, rewritten descriptions and code. This project models the parts of it where a mistake
would silently change what a description means, and proves what they keep. Nothing here was executed;
every statement is established by the Dafny verifier. Automatic induction is switched off on every lemma:
the inductive steps are written out.

## What is modelled

**Memory consistency** (`Traces`, `TsoAxioms`, `StoreBuffer`, `TsoMachine`, `LocalState`, `Sequential`,
`TsoPrivate`, `ReadValues`, `ModelRelations`, `FinalStep`, `Litmus`, `Constraints`, `MemoryModels`,
`LocalLinks`, `Unrolling`, `EncodeRuns`). The axioms of the
SC and TSO builders are predicates over a program (a sequence of steps, step 0 the initial one), a
valuation and timestamps. The loops that build the constraints are methods proved to build exactly
these predicates; each core chooses whether its steps are ordered. The TSO axioms are proved equivalent
to FIFO store buffers over one memory, with a private cell for each private state, the SC axioms with
ordered local states to running the steps one by one. So the constraint list the unroller builds has
timestamps for exactly the runs of the machine. What a read returns is also said in the plain terms of
a step's loads and states, for the axioms and for both machines. SC behaviours are TSO behaviours, and fenced programs
have no others.

**Unrolling** (`Formulas`, `UnrollEncodings`, `Unrollers`, `MonoUnroll`, `PathUnroll`). Formulas over timed symbols
with evaluation and simultaneous substitution. The frame loops are methods of a class with the
original's buffers; the substituted, linked and unlinked encodings are related for every system,
path length and interpretation, and the one-hot choice of an instruction is proved to encode the runs:
the formula the object returns in monolithic mode has exactly them as solutions, and in path mode
exactly the runs that fire the path's instructions one after the other.

**Expressions** (`HashAst`, `Expressions`, `Rewriters`, `Hierarchy`, `Passes`, `Simplify`, `Prefixes`,
`Options`).
Hash-consing works on node objects whose arguments are overwritten in place. The rewriter keeps its
table as a mutable map; the passes overwrite the fields of the level and instruction objects. Each
pass is proved to keep every run of the whole hierarchy, and to do its work everywhere in it: the
patterns a pass removes are gone from every expression the objects hold.

**Portable form** (`Portable`, `PortableBack`, `PortableTree`, `PortableRoundTrip`, `PortableFuncs`). The
serializer fills an array of nodes and an index; the deserializer declares variables level by level,
rebuilds the nodes in order and fills in the levels. Together they give the hierarchy back. The table of
functions repeats a function for each application, since its index is never filled, and reading
collapses it again.

**Copying** (`CopyTree`, `CopyRuns`). A hierarchy is copied level by level through the table rewriter,
started with a table from the old variables to the new ones. A copied variable keeps its name but is
another variable; states of the two hierarchies give values to variables, not to names, and are related
by that table. The runs of every level are carried over by it, in both directions.

**Code for memory updates** (`VerilogMemory`, `VerilogExport`, `IlatorCode`, `IlatorMeaning`,
`IlatorUpdate`, `IlatorLoads`, `IlatorStep`, `IlatorOnce`, `Ilators`, `AbsMem`, `WordWrites`). The Verilog export is modelled down to the
non-blocking assignments of one clock edge (IEEE 1364-2005, section 9.2.2). The simulator generator
is modelled with its lookup table, its registered memory functions and the statements it emits, and
those statements are given a meaning, the load from a map that adds an absent key included. The depth-one abstract memory is a state machine over its
registers.

## Where the code and its purpose part

- `LocalState.OrderedIsExact`: the ordered encoding of private state links a read to the last writer
  in the trace even if that writer did not decode; it then takes the value the writer *read*. A writer
  that does not read the state gives any value. The condition is exact.
- `FinalStep.FinalSeesAll`: the final step's bound does not cover global facets, so under TSO the
  final property may miss a write that has executed. It sees every write in every solution if and
  only if each pure write has a fence or read-modify-write after it on its core;
  `Litmus.FinalMayMissWrite` is a program without.
- `ModelRelations.FencedSolutionIsSc`: a store reads its memory without loading from it
  (src/mcm/axiom_helper.cc:162-167), so it needs a source like a load, and two writes that become
  global at one time leave it none unless a later one hides them. Without such ties, and only then, the
  re-timed solution is an SC solution; `Litmus.TieDefeatsRetiming` has one.
- `UnrollEncodings.AgreeOnlyFromZero`: the end frame's suffix omits `pos`, so the substituted encoding
  means the linked one exactly when the path starts at frame 0.
- `VerilogMemory.ClockIsTree`, `VerilogExport.InnerStoreWins`: the ports list the outermost store
  first and the last non-blocking assignment stays, so of two stores to one address the inner one
  survives. The condition under which this is harmless is exact; different addresses suffice.
- `Passes.RewriteStoreLoad`: the pass declares its rule for loads with a parameter by value
  (src/ila-mngr/p_rewrite_store_load.cc:19), the general rule takes a reference
  (include/ilang/ila-mngr/u_rewriter.h:32), so it does not override it and the pass only rebuilds
  expressions. Both readings are proved to keep the runs. With its own rule in force a load from a
  variable or constant is returned as it is (src/ila-mngr/p_rewrite_store_load.cc:29-31), its address
  included, so a load from a store may stay there and nowhere else.
- `IlatorStep.UpdateIsStep`: the simulator generator refuses a memory update that loads from a store
  (src/target-sc/ilator.cc:247), but not a register update. If that store is a memory's next value that
  is prepared already, the load finds the placeholder, which holds only the pairs the update writes;
  any other address gives 0, and asking puts that 0 among the pairs, so it overwrites the old word.
  The pairs are also written over the updated variable, whatever memory the stores are built over. The
  states in which the whole update is right are given exactly: each such load asks for an address the
  update writes or where the value is 0, and beside those addresses the two memories agree.
  `IlatorStep.OldWordIsLost` and `IlatorStep.StoreOverOther` are inputs at which it is wrong.
- `IlatorLoads.LookupsSucceed`: a register that comes before the memory finds no entry at all. The
  failed lookup is asserted in debug builds only (include/ilang/util/log.h:33) and undefined otherwise.

## Abstractions

Words are unbounded integers and memories total maps; operators other than conditional, load, store,
equality, conjunction and negation are uninterpreted, so width effects are not modelled. A step has at
most one load address and one store address per memory. A step that reads a memory without loading
from it matches every write (src/mcm/axiom_helper.cc:162-167). A read-modify-write step is assumed to
write shared state, since the source dereferences its facet. Step identities, node numbers and hash
keys are structured values instead of strings. The SC and TSO builders share one class, since their
read axioms are built by the same loops; its field `m` selects the relations. The SMT simplifier is
the identity, and the solver call of the semantic simplification is any predicate that reports
equality only where it holds. Sanitizing a name for Verilog is the identity.

## Model

| member | source | states |
|---|---|---|
| Constraints.ForallList | src/mcm/axiom_helper.cc:81-93 | the built conjunction holds of a solution exactly when every listed constraint does |
| Constraints.ExistsList | src/mcm/axiom_helper.cc:96-108 | the built disjunction holds exactly when some listed constraint does |
| TsoAxioms.RmwIsAtomic | src/mcm/tso_manual.cc:167-250 | between the write an RMW reads from and its own global write no other decoded write to the address becomes global |
| StoreBuffer.LastGlobalSpec | src/mcm/tso_manual.cc:254-262 | the last matching write that became global is decoded, matching and followed by no other |
| StoreBuffer.MemIsLastGlobal | src/mcm/tso_manual.cc:265-291 | in every run the memory holds, at each location, the last write that became global |
| StoreBuffer.StateIsOk | src/mcm/tso_manual.cc:205-225 | after any prefix of a run each buffer holds exactly the executed, not yet global writes of its core, oldest first |
| TsoMachine.YoungestIsLast | src/mcm/tso_manual.cc:265-272 | the youngest matching buffered write is later in program order than every other one |
| TsoMachine.SourceIsForced | src/mcm/tso_manual.cc:145-196 | in a solution each shared read reads from its core's youngest buffered match, else the latest global match |
| TsoMachine.CommitOrder | src/mcm/tso_manual.cc:205-225 | in a run the writes of a core become global in program order |
| TsoMachine.DrainedBefore | src/mcm/tso_manual.cc:226-241 | in a run a write before a fence or RMW of its core is global before it |
| TsoMachine.GlobalOrder | src/mcm/tso_manual.cc:205-225 | in a run the shared writes of a core, RMWs included, become global in the order they execute |
| TsoMachine.OrderGivesRun | src/mcm/tso_manual.cc:197-250 | events in an order that respects program, store, fence and RMW order are a run as soon as each read returns what the machine finds |
| TsoMachine.AxiomsGiveRun | src/mcm/tso_manual.cc:145-250 | ordering the events of any solution by time gives a run of the store-buffer machine |
| TsoMachine.RunGivesAxioms | src/mcm/tso_manual.cc:145-250 | timestamps that follow a run satisfy all TSO axioms |
| TsoMachine.RunIsBehaviour | src/mcm/tso_manual.cc:145-250 | every run has such timestamps, with distinct event times |
| TsoMachine.ScheduleExists | src/mcm/tso_manual.cc:145-250 | the events of any ordered solution can be put in an order that extends its timestamps |
| TsoMachine.TsoIsStoreBuffer | src/mcm/tso_manual.cc:145-291 | a valuation satisfies the TSO axioms for some timestamps exactly when it is a run of the FIFO store-buffer machine |
| LocalState.UnorderedIsRun | src/mcm/memory_model.cc:451-620 | with a trace in time order the read-from/coherence form means running the trace on a private store |
| LocalState.OrderedIsRun | src/mcm/memory_model.cc:377-448 | the last-update form means the same run when every consulted writer decodes or reads what it writes |
| LocalState.StrayIsSolution | src/mcm/memory_model.cc:377-448 | a consulted writer that neither decodes nor reads gives a solution that is no run |
| LocalState.OrderedIsExact | src/mcm/memory_model.cc:377-448 | the two agree on all valuations with the given decodes if and only if every consulted writer decodes or reads |
| LocalState.OrderedIsUnordered | src/mcm/memory_model.cc:377-620 | under strict program-order times the two encodings have the same solutions |
| Sequential.MemIsLastWrite | src/mcm/sc_manual.cc:157-166 | one sequential memory holds the last decoded write to each location |
| Sequential.RunReads | src/mcm/sc_manual.cc:102-154 | in a sequential run each shared read returns the last decoded write before it |
| Sequential.PrivateIsLocal | src/mcm/memory_model.cc:377-448 | private state in an interleaving is that of each core's own run |
| Sequential.SolutionIsScRun | src/mcm/sc_manual.cc:102-166 | a solution of the SC axioms and ordered local states is a sequential run in every interleaving that extends its timestamps |
| Sequential.ScRunIsSolution | src/mcm/sc_manual.cc:102-166 | each sequential run gives a solution |
| Sequential.InterleavingExists | src/mcm/sc_manual.cc:102-166 | the steps of any ordered solution can be put in an order that extends its timestamps |
| Sequential.ScIsSequential | src/mcm/sc_manual.cc:102-166 | a valuation satisfies the SC axioms with ordered local states for some timestamps exactly when some interleaving is a sequential run |
| TsoPrivate.ExecsInterleave | src/mcm/tso_manual.cc:145-250 | the executions of a store-buffer run, taken alone, interleave the cores' steps |
| TsoPrivate.CellsAreLocal | src/mcm/memory_model.cc:377-448 | in a store-buffer run the private cells of a core agree with its reads and final values exactly when the core's own run does |
| TsoPrivate.TsoIsPrivateStoreBuffer | src/mcm/tso_manual.cc:145-291 | a valuation satisfies the TSO axioms with ordered local states for some timestamps exactly when it is a run of the store-buffer machine with private cells |
| ReadValues.LoadMeaning | src/mcm/axiom_helper.cc:162-189 | the source of a load is the initial word at its address, or a decoded write to its address whose word it returns |
| ReadValues.StateMeaning | src/mcm/axiom_helper.cc:242-259 | the source of a read of any other state is its initial value, or a decoded write of it whose value it returns |
| ReadValues.LoadSource | src/mcm/tso_manual.cc:146-196 | a write with that word at that address that comes before, and that no other decoded write to the address hides, is a source |
| ReadValues.UsesAreFree | src/mcm/axiom_helper.cc:162-167 | what a step that uses a shared memory without loading from it reads, and where, does not matter to the axioms |
| ReadValues.LoadInRun | src/mcm/axiom_helper.cc:162-189 | in a store-buffer run a load returns the initial word at its address or the word of a decoded write to it, and what the machine shows its core there |
| ReadValues.StateInRun | src/mcm/axiom_helper.cc:242-259 | so for a read of a shared state that is no memory |
| ReadValues.UsesAreFreeInRun | src/mcm/axiom_helper.cc:162-167 | such uses do not matter to a store-buffer run |
| ReadValues.LoadInScRun | src/mcm/axiom_helper.cc:162-189 | in a sequential run a load returns the initial word at its address or the word of a decoded write to it, and what memory holds there |
| ReadValues.StateInScRun | src/mcm/axiom_helper.cc:242-259 | so for a read of a shared state that is no memory |
| ReadValues.UsesAreFreeInScRun | src/mcm/axiom_helper.cc:162-167 | such uses do not matter to the shared reads of a sequential run |
| ModelRelations.ScIsTso | src/mcm/tso_manual.cc:145-291 | doubling the timestamps of an SC solution, each facet in the odd slot after its write, gives a TSO solution |
| ModelRelations.ScBehaviourIsTso | src/mcm/sc_manual.cc:102-166 | SC behaviours are TSO behaviours |
| ModelRelations.FencedSolutionIsSc | src/mcm/tso_manual.cc:197-291 | with a fence or RMW between each write and later read of a core, re-timing writes to their facets turns a TSO solution into an SC one if and only if no two facets of a state a later store reads are tied and unhidden |
| ModelRelations.FencedTsoIsSc | src/mcm/sc_manual.cc:102-166 | fenced programs have the same behaviours under TSO and SC |
| Litmus.TsoIsWeaker | src/mcm/tso_manual.cc:145-250 | without fences the store-buffering outcome is a TSO behaviour and no SC behaviour |
| Litmus.FinalMayMissWrite | src/mcm/tso_manual.cc:112-129 | the final step can read the initial value after a write has executed |
| Litmus.TieDefeatsRetiming | src/mcm/axiom_helper.cc:162-167 | a fenced program of two stores whose facets are tied has a TSO solution that is no SC solution when re-timed |
| FinalStep.DrainedIsSeen | src/mcm/tso_manual.cc:226-249 | a fence or RMW after every pure write of a core makes every write global before the final step, in every solution |
| FinalStep.UndrainedIsMissed | src/mcm/tso_manual.cc:112-129 | for any decodes, addresses, written values and initial memory, a pure write without one has a solution in which it becomes global after the final step |
| FinalStep.FinalSeesAll | src/mcm/tso_manual.cc:112-129 | for any decodes, addresses and written values, the final step follows every write's facet in every solution if and only if each pure write is followed by a fence or RMW of its core |
| MemoryModels.OrderMeaning | src/mcm/tso_manual.cc:265-291 | the rf, fr and co constraints mean the three order relations |
| MemoryModels.BetweenMeaning | src/mcm/tso_manual.cc:146-196 | the constraint for a pair of writes says no other decoded write to the address intervenes |
| MemoryModels.SourceMeaning | src/mcm/tso_manual.cc:146-196 | the constraint for a source says same address, same data, decoded and earlier |
| MemoryModels.MemoryModel.RegisterStep | src/mcm/tso_manual.cc:29-94 | the step joins exactly the lists of its attributes and gets its time bounds |
| MemoryModels.MemoryModel.FinishRegisterSteps | src/mcm/tso_manual.cc:96-110 | the pure writes are the shared writers that are no RMW |
| MemoryModels.MemoryModel.SetFinalProperty | src/mcm/tso_manual.cc:112-129 | the final step is bounded after every registered step, facets not included |
| MemoryModels.MemoryModel.BetweenConstrs | src/mcm/tso_manual.cc:146-196 | one constraint for each other write |
| MemoryModels.MemoryModel.ReadConstr | src/mcm/tso_manual.cc:146-196 | the disjunction over writers means that the read reads from some write |
| MemoryModels.MemoryModel.ReadAxiomConstr | src/mcm/tso_manual.cc:146-196 | the collected constraints mean the read axiom |
| MemoryModels.MemoryModel.FacetOrderConstr | src/mcm/tso_manual.cc:197-204 | the collected constraints mean that a pure write precedes its facet |
| MemoryModels.MemoryModel.StoreOrderConstr | src/mcm/tso_manual.cc:205-225 | the collected constraints mean store order |
| MemoryModels.MemoryModel.FenceOrderConstr | src/mcm/tso_manual.cc:226-241 | the collected constraints mean fence order |
| MemoryModels.MemoryModel.RmwSyncConstr | src/mcm/tso_manual.cc:242-249 | the collected constraints put each RMW's facet on itself |
| MemoryModels.MemoryModel.ApplyAxioms | src/mcm/tso_manual.cc:145-250 | the constraints added mean the model's axioms, for every valuation and timestamps |
| LocalLinks.SetLocalStateOrdered | src/mcm/memory_model.cc:377-449 | the constraints built with the last-update map mean the ordered encoding |
| LocalLinks.SetLocalStateUnordered | src/mcm/memory_model.cc:451-620 | the constraints built from all definitions mean the unordered encoding |
| Unrolling.RegisterSteps | src/mcm/tso_manual.cc:29-94 | a core's steps are registered with their program-order bounds |
| Unrolling.Unroll | src/mcm/inter_ila_unroller.cc:115-128 | all cores are registered and bounded, then the lists are settled |
| Unrolling.OrderMeaning | src/mcm/axiom_helper.cc:110-117 | bounds per trace and for the final step mean program order on the ordered cores and the final step last |
| Unrolling.Encode | src/mcm/inter_ila_unroller.cc:115-135 | the whole constraint list is satisfied exactly by the solutions of the axioms with program order on the ordered cores and each core's local states in its own form |
| Unrolling.AllInOrder | src/mcm/axiom_helper.cc:110-117 | with every core ordered the order on the flagged cores is program order |
| EncodeRuns.SolvesOrdered | src/mcm/inter_ila_unroller.cc:115-135 | with every core ordered the list asks for program order, the axioms of the model and the ordered local states |
| EncodeRuns.SolvesIsBehaviour | src/mcm/inter_ila_unroller.cc:115-135 | such timestamps exist exactly when the valuation is a run, sequential under SC and of the store-buffer machine with private cells under TSO |
| EncodeRuns.EncodeOrdered | src/mcm/inter_ila_unroller.cc:115-135 | the list built with every core ordered can be satisfied by some timestamps exactly by the runs, for valuations in which every consulted private writer decodes or reads |
| Formulas.SubstituteValue | src/ila-mngr/u_unroller.cc:298-303 | simultaneous substitution commutes with evaluation |
| Formulas.FrameValue | src/ila-mngr/u_unroller.cc:277-296 | a translated expression has the value of the expression at its frame |
| UnrollEncodings.AssnSplits | src/ila-mngr/u_unroller.cc:130-169 | the linked encoding holds exactly when every frame steps, with predicates and end frame |
| UnrollEncodings.SubsSplits | src/ila-mngr/u_unroller.cc:79-128 | the substituted encoding splits into frames, last state and end frame |
| UnrollEncodings.SubsIsAssn | src/ila-mngr/u_unroller.cc:79-169 | from frame 0 the substituted encoding holds exactly when intermediate states make the linked one hold |
| UnrollEncodings.NoneIsAssn | src/ila-mngr/u_unroller.cc:171-204 | the unlinked encoding with next-equals-current links and end predicates is the linked one |
| UnrollEncodings.OffsetBreaksSubs | src/ila-mngr/u_unroller.cc:111-128 | from any later frame one step tells the two encodings apart |
| UnrollEncodings.AgreeOnlyFromZero | src/ila-mngr/u_unroller.cc:79-169 | the two agree on every system, path and end states if and only if the path starts at frame 0 |
| Unrollers.Unroller.BootStrap | src/ila-mngr/u_unroller.cc:231-262 | the buffers are cleared and the first state is the variables at the first frame |
| Unrollers.CompletionsMean | src/ila-mngr/u_unroller.cc:206-214 | a variable without an update keeps its value, an instruction without a decode may always fire |
| Unrollers.Unroller.Transition | src/ila-mngr/u_unroller.cc:353-370 | a path step yields the decode and the next states of its own instruction |
| Unrollers.Unroller.MonoTransition | src/ila-mngr/u_unroller.cc:418-495 | a monolithic step yields the choice predicates and the next-state symbols |
| Unrollers.Unroller.AssertEqual | src/ila-mngr/u_unroller.cc:264-273 | one equation per variable between states and symbols |
| Unrollers.Unroller.UnrollSubs | src/ila-mngr/u_unroller.cc:79-128 | the frame loop returns the conjunction of the substituted encoding |
| Unrollers.Unroller.UnrollAssn | src/ila-mngr/u_unroller.cc:130-169 | the frame loop returns the conjunction of the linked encoding |
| Unrollers.Unroller.UnrollNone | src/ila-mngr/u_unroller.cc:171-204 | the frame loop returns the conjunction of the unlinked encoding |
| MonoUnroll.OneChoice | src/ila-mngr/u_unroller.cc:418-495 | the choice and next-state predicates hold exactly when one instruction or the deadlock bit alone is selected and taken |
| MonoUnroll.MonoSelectsOne | src/ila-mngr/u_unroller.cc:418-495 | in every solution each step selects exactly one instruction or the deadlock bit, which then decodes and moves, or nothing decodes and nothing changes |
| MonoUnroll.MonoIsRuns | src/ila-mngr/u_unroller.cc:130-169 | on states and inputs the solutions are exactly the runs of k steps, in which a variable without an update keeps its value |
| MonoUnroll.MonoAssn | src/ila-mngr/u_unroller.cc:386-390 | from frame 0 the returned formula has, on states and inputs, exactly the runs of k steps as solutions |
| PathUnroll.PathIsRuns | src/ila-mngr/u_unroller.cc:353-370 | the solutions of the linked encoding of a path are the state sequences in which step i fires instruction i and moves every variable by its update, or keeps it |
| PathUnroll.PathAssn | src/ila-mngr/u_unroller.cc:328-332 | from frame 0 the formula returned for a path has exactly the runs of the path as solutions |
| HashAst.SameKeySameTree | src/ila/hash_ast.cc:55-109 | two nodes with one key have the same arguments and stand for the same expression |
| HashAst.ExprMngr.RepsAreUnique | src/ila/hash_ast.cc:21-30 | two representatives of one expression are the same node |
| HashAst.ExprMngr.ArgReps | src/ila/hash_ast.cc:32-43 | each argument's representative stands for the same expression and is the argument itself if that is one |
| HashAst.ExprMngr.Visit | src/ila/hash_ast.cc:32-53 | a visit keeps the graph and closes the table under arguments; a visited node keeps its arguments |
| HashAst.ExprMngr.DepthFirstVisit | include/ilang/ila/ast/expr.h:100-106 | only unvisited nodes no taller than the root change; the table only grows |
| HashAst.ExprMngr.GetRep | src/ila/hash_ast.cc:21-30 | the result represents the node's expression, every node still unfolds to the expression it did, representatives stay |
| HashAst.TopEq | src/ila/ast_hub.cc:390-395 | true exactly when the two expressions are structurally equal, and no node changes its expression |
| Expressions.EvalHasSort | include/ilang/ila/ast/expr_op.h:340-362 | a well-sorted expression takes values of its sort |
| Expressions.SameArgs | src/ila-mngr/u_rewrite_expr.cc:39-213 | an operator over arguments of equal value has an equal value |
| Rewriters.GuardedStore | src/ila-mngr/p_rewrite_conditional_store.cc:48-61 | a store under a condition equals a store of a conditional word |
| Rewriters.GuardedStoreElse | src/ila-mngr/p_rewrite_conditional_store.cc:63-74 | the same with the store in the other branch |
| Rewriters.TwoStores | src/ila-mngr/p_rewrite_conditional_store.cc:76-88 | two stores into one memory merge into one with conditional address and word |
| Rewriters.LoadOfStore | src/ila-mngr/p_rewrite_store_load.cc:41-52 | a load from a store equals a comparison of addresses |
| Rewriters.Rewriter.Rebuild | src/ila-mngr/u_rewrite_expr.cc:39-213 | the same operator over the replacements has the value of the node |
| Rewriters.Rewriter.RewriteCondMem | src/ila-mngr/p_rewrite_conditional_store.cc:29-105 | the result replaces the node; equal branches give the branch, each mergeable pattern the store over the common memory, anything else the rebuilt node |
| Rewriters.Rewriter.RewriteLoad | src/ila-mngr/p_rewrite_store_load.cc:27-72 | the result replaces the node: a load from a variable or constant is kept, one from a single store becomes a conditional over a load from below, any other is rebuilt |
| Rewriters.Rewriter.Post | src/ila-mngr/u_rewrite_expr.cc:20-26 | a node gets its one entry; every entry preserves the value and is what the rule of the pass makes of the entries of the arguments |
| Rewriters.Rewriter.DepthFirstVisit | include/ilang/ila/ast/expr.h:110-122 | every node below is entered once, after its arguments, and no entry changes |
| Rewriters.NoneMergeableLeft | src/ila-mngr/p_rewrite_conditional_store.cc:22-105 | no entry of the table holds a conditional memory whose branches are one, or a leaf and a store over it, or two stores over one memory |
| Rewriters.NoneForwardableLeft | src/ila-mngr/p_rewrite_store_load.cc:19-72 | with the pass's own rule no entry holds a load from a single store, but below a load from a variable or constant |
| Hierarchy.KeptRuns | src/ila-mngr/p_rewrite_generic.cc:12-48 | a hierarchy whose levels and instructions keep their meaning has the same runs |
| Passes.RewriteInstr | src/ila-mngr/p_rewrite_generic.cc:28-40 | decode and each update become the table's replacements, of equal value; no update is added or lost |
| Passes.RewriteGeneric | src/ila-mngr/p_rewrite_generic.cc:12-48 | every level's valid and fetch and every instruction's decode and updates become the table's entries for them, of equal value; initial conditions stay |
| Passes.RewriteConditionalStore | src/ila-mngr/p_rewrite_conditional_store.cc:109-121 | the pass keeps every run of the hierarchy and leaves no valid, fetch, decode or update that holds a mergeable conditional memory |
| Passes.RewriteStoreLoad | src/ila-mngr/p_rewrite_store_load.cc:76-90 | the pass keeps every run of the hierarchy, with or without its own rule in force; with it, no load from a single store is left but below a load from a variable or constant |
| Simplify.SimpEqSubtree | src/ila-mngr/p_simplify_semantic.cc:78-96 | the update becomes a proper part of its sort that the solver equates, and stays if and only if there is none |
| Simplify.EqSubtree.DepthFirstVisit | src/ila-mngr/p_simplify_semantic.cc:13-69 | the candidate fits if any visited node does; the target's entry is the candidate |
| Simplify.SimplifyInstr | src/ila-mngr/p_simplify_semantic.cc:102-113 | decode stays, each update is reduced under valid and decode, and agrees with the old one when the instruction fires |
| Simplify.SimplifySemantic | src/ila-mngr/p_simplify_semantic.cc:73-128 | every update of every instruction below is reduced under its decode and the valid condition of its level, decodes stay, and every run is kept, for every sound solver |
| Portable.I2JSer.SerExprUnit | src/target-json/ila_to_json_serializer.cc:160-228 | a new node is appended after its arguments, a known one is not |
| Portable.I2JSer.SerExpr | src/target-json/ila_to_json_serializer.cc:120-132 | all parts of the expression are in the array, each once, arguments first, and the number is the expression's |
| PortableRoundTrip.JUpdatesAt | src/target-json/ila_to_json_serializer.cc:230-255 | the number written for a state is that of its update, or its own if it has none |
| Portable.I2JSer.SerInstr | src/target-json/ila_to_json_serializer.cc:230-255 | decode and the next value of every state by number, all in the array |
| Portable.I2JSer.SerIla | src/target-json/ila_to_json_serializer.cc:257-321 | the tree of the hierarchy by number, every expression held being in the array |
| PortableBack.LikeMeans | src/target-json/json_to_ila_deserializer.cc:108-153 | expressions equal up to node numbers have the same sort and the same value in every state |
| PortableBack.J2IDes.DesVarUnit | src/target-json/json_to_ila_deserializer.cc:377-431 | a level gets its parent's variables and its own new ones, and exactly its variables become known |
| PortableTree.DesVarHier | src/target-json/json_to_ila_deserializer.cc:433-449 | every level of the tree ends with exactly its variables, each declared once |
| PortableRoundTrip.DesExpr | src/target-json/json_to_ila_deserializer.cc:108-153 | one more node is rebuilt like the original |
| PortableRoundTrip.DesExprs | src/target-json/json_to_ila_deserializer.cc:41-45 | reading the array in order rebuilds every node |
| PortableRoundTrip.DesInstr | src/target-json/json_to_ila_deserializer.cc:451-475 | decode like the original, and a next value for every state: like its update, or like the state itself where there was none |
| PortableRoundTrip.DesIlaHier | src/target-json/json_to_ila_deserializer.cc:477-531 | a read level and its children are like the original; a missing fetch becomes a constant |
| PortableRoundTrip.RoundTrip | src/target-json/json_to_ila_deserializer.cc:26-54 | writing a hierarchy and reading it back gives it again, up to node numbers |
| PortableRoundTrip.SameTransitions | src/target-json/json_to_ila_deserializer.cc:451-531 | what is read back has the same valid, initial conditions and decodes in every state, and gives each state the value of its update, or its old value if it had none |
| PortableFuncs.FuncSer.SerFuncs | src/target-json/ila_to_json_serializer.cc:82-118 | one entry for each application, repeated or not |
| PortableFuncs.FuncDes.DesFuncs | src/target-json/json_to_ila_deserializer.cc:78-106 | exactly one new function for each number in the table, like the one written |
| PortableFuncs.RoundTripFuncs | src/target-json/json_to_ila_deserializer.cc:34-38 | written and read back, each application has a function like its own, and two applications the same one exactly if they had the same |
| CopyTree.SubstitutedVars | src/ila-mngr/u_abs_knob.cc:201-210 | substituting a table of variables leaves an expression over the new variables only |
| CopyTree.FoundIffKnown | src/ila-mngr/u_abs_knob.cc:314-338 | the copy has a variable of that name exactly if the variable has been duplicated |
| CopyTree.TreeCopier.DuplVars | src/ila-mngr/u_abs_knob.cc:314-338 | the copy's variables are exactly those the level's are mapped to, each with its name and sort, no two to one, inherited ones to the inherited copies |
| CopyTree.TreeCopier.Rewrite | src/ila-mngr/u_abs_knob.cc:201-210 | the result is the expression with the table put in place of its variables, and reads the copy's variables only |
| CopyTree.TreeCopier.DuplInstr | src/ila-mngr/u_abs_knob.cc:212-225 | decode and exactly the updates of the instruction, each copied |
| CopyTree.CopyHier | src/ila-mngr/u_rewrite_ila.cc:21-59 | a level, then its children, are copied over variables that children inherit |
| CopyTree.TreeStays | src/ila-mngr/u_rewrite_ila.cc:21-59 | a copied level stays a copy while the table grows with the variables of later levels |
| CopyTree.CopyIlaTree | src/ila-mngr/u_abs_knob.cc:296-311 | the copy has the same levels under a one-to-one map of all variables, each level exactly the images of its variables, and every expression with the map put in place |
| CopyRuns.SubstitutedValue | src/ila-mngr/u_abs_knob.cc:201-210 | an expression with the map put in place has, in the image of a state, the value the expression has in the state |
| CopyRuns.CopiedMoves | src/ila-mngr/u_abs_knob.cc:372-388 | a copied instruction moves between the images of two states exactly if the instruction moves between the states |
| CopyRuns.CopyHasRuns | src/ila-mngr/u_abs_knob.cc:296-311 | at every level, states are a run of the level and its children if and only if their images are a run of the copy |
| CopyRuns.CopyRunComesFrom | src/ila-mngr/u_abs_knob.cc:296-311 | every run of the copy over its variables is the image of one run of the original |
| VerilogMemory.CollectedIsTree | src/verilog-out/verilog_gen.cc:996-1041 | under the entry condition exactly one collected condition holds and its writes, last to first, give the tree's memory; otherwise none holds |
| VerilogMemory.VerilogGenerator.VisitMemNodes | src/verilog-out/verilog_gen.cc:1001-1041 | the walk collects the guarded writes of every path and restores the stack below its top |
| VerilogMemory.VerilogGenerator.ParseMemUpdateNode | src/verilog-out/verilog_gen.cc:1158-1179 | the collected writes are those of the whole tree under the condition |
| VerilogMemory.ExportCondWrites | src/verilog-out/verilog_gen.cc:1072-1152 | as many ports as the longest list, the first listed condition tested first |
| VerilogMemory.FirstDrives | src/verilog-out/verilog_gen.cc:1107-1131 | a port carries the write of the first list that drives it |
| VerilogMemory.NothingDrives | src/verilog-out/verilog_gen.cc:1107-1131 | a port no list drives is disabled |
| VerilogMemory.OrderIrrelevant | src/verilog-out/verilog_gen.cc:1133-1151 | first-to-last and last-to-first replays agree if and only if, at each address, the first and last listed words do |
| VerilogMemory.DistinctEndsAgree | src/verilog-out/verilog_gen.cc:1133-1151 | they agree when all addresses differ |
| VerilogMemory.ClockedIsForward | src/verilog-out/verilog_gen.cc:418-431 | one clock performs the writes of the chosen list from first to last |
| VerilogMemory.ClockIsTree | src/verilog-out/verilog_gen.cc:1072-1152 | the clocked memory is the tree's value if and only if the ends agree on the path taken |
| VerilogExport.ExportIla | src/verilog-out/verilog_gen.cc:1254-1297 | the statements of every state variable, in order |
| VerilogExport.ChainValue | src/verilog-out/verilog_gen.cc:1257-1268 | with exclusive decodes the chained memory expression is the step's next value |
| VerilogExport.ArmsValue | src/verilog-out/verilog_gen.cc:1273-1295 | with exclusive decodes and all grants the chain assigns the step's next value or nothing |
| VerilogExport.ArmsGranted | src/verilog-out/verilog_gen.cc:1273-1295 | for any decodes and grants the chain assigns the update of the first instruction that decodes, is granted and has one, and nothing if there is none |
| VerilogExport.ClockByGrants | src/verilog-out/verilog_gen.cc:1273-1295 | so one clock leaves a register alone while nothing that writes it is granted, and gives it that update otherwise |
| VerilogExport.ClockByVariable | src/verilog-out/verilog_gen.cc:398-434 | the clock gives each variable what its own statements would |
| VerilogExport.ClockIsStep | src/verilog-out/verilog_gen.cc:398-434 | one clock is one step of the model for registers, and for a memory if and only if the ends agree; nothing happens when not valid |
| VerilogExport.InnerStoreWins | src/verilog-out/verilog_gen.cc:1035-1038 | two stores to one address leave the inner word |
| IlatorMeaning.NodeIsRight | src/target-sc/ilator_dfs.cc:13-25 | a node whose arguments are in the table gets a place that holds what its code computes, and no other place changes |
| IlatorMeaning.LoadIsRight | src/target-sc/ilator_dfs.cc:151-167 | a load from a placeholder gives the word stored there or 0, which it adds, and leaves every other entry right |
| IlatorMeaning.RenderIsRight | src/target-sc/ilator.cc:727-749 | after rendering every table entry holds what is computed for its expression, or the memory's pairs with the zeros asked for |
| IlatorMeaning.PlainComputed | src/target-sc/ilator_dfs.cc:13-25 | without loads from placeholders what is computed is the value |
| IlatorMeaning.TreeIsRight | src/target-sc/ilator.cc:315-344 | rendering a store tree adds exactly the pairs it writes to the temporary memory |
| IlatorMeaning.BodyIsRight | src/target-sc/ilator.cc:362-383 | the function of a store or conditional adds those pairs and touches no member |
| IlatorMeaning.WrittenIsValue | src/target-sc/ilator_dfs.cc:100-118 | the pairs written over the memory below the path taken are the value of the update |
| IlatorUpdate.PrepareIsRight | src/target-sc/ilator.cc:229-267 | before any member is written every register's value is held and every memory's pairs are in its placeholder |
| IlatorUpdate.CommitsAreRight | src/target-sc/ilator.cc:268-284 | the assignments put the held values and pairs in place, one by one, and touch nothing else |
| IlatorLoads.PrepareGains | src/target-sc/ilator.cc:229-267 | the table ends with the placeholder loads of the next values and no others |
| IlatorLoads.LookupsSucceed | include/ilang/target-sc/ilator.h:157-161 | preparing finds every entry if and only if every register comes after the memories it loads from |
| IlatorStep.LoadIsValue | src/target-sc/ilator_dfs.cc:151-167 | a load from a placeholder computes its value if and only if its address is written on the path taken or holds 0 |
| IlatorStep.Innermost | src/target-sc/ilator_dfs.cc:151-167 | below an uncovered load lies one whose address is computed right, so that its 0 goes where the original would read |
| IlatorStep.UpdateIsStep | src/target-sc/ilator.cc:203-284 | where no lookup fails, the update takes all state variables to their next values at once and leaves the others if and only if every load is covered and every memory's update is built over what agrees with that memory |
| IlatorStep.LoadedRegister | src/target-sc/ilator.cc:240-247 | a register loading at a plain address from a prepared memory gets its next value if and only if that load is covered |
| IlatorStep.SimpleIsStep | src/target-sc/ilator.cc:203-284 | without such loads, and with every memory built over itself, the update is a step in every state |
| IlatorStep.OldWordIsLost | src/target-sc/ilator.cc:240-267 | one word is stored and another loaded from the result: the register gets 0 and the old word becomes 0 |
| IlatorStep.StoreOverOther | src/target-sc/ilator.cc:276-283 | a store over another memory is a step exactly in the states where the two agree beside the stored word |
| IlatorOnce.RenderOnce | src/target-sc/ilator_dfs.cc:13-288 | no place is computed twice, and none that was in use before |
| IlatorOnce.BodyOnce | src/target-sc/ilator.cc:362-383 | nor in the function of a memory and its two branches |
| IlatorOnce.PrepareOnce | src/target-sc/ilator.cc:229-267 | nor in the first part of an update function |
| Ilators.Ilator.DfsExpr | src/target-sc/ilator_dfs.cc:13-63 | the code of one node; exactly a conditional memory is registered, a constant memory and a concatenation's variable declared |
| Ilators.Ilator.RenderExpr | src/target-sc/ilator.cc:727-749 | the code of an expression; exactly the conditionals of a store tree are registered, and nothing for one that loads from placeholders only; constant memories and global variables in the table stay declared |
| Ilators.LoadIsFound | src/target-sc/ilator.cc:50-61 | the search finds a load from an operator exactly if one occurs in the expression |
| Ilators.TreesAreAccepted | src/target-sc/ilator.cc:247-249 | no memory update made of stores and conditionals is refused |
| Ilators.Ilator.RenderMemUpdate | src/target-sc/ilator.cc:318-344 | the code of a memory; nothing but its conditionals is registered |
| Ilators.Ilator.GenerateInstrContent | src/target-sc/ilator.cc:203-311 | refuses exactly a memory update in which a load from an operator occurs; otherwise emits the update code, registers its memory functions with all below them and declares what its table refers to |
| Ilators.Ilator.GenerateMemoryUpdate | src/target-sc/ilator.cc:315-395 | one function per registered update; every function called by one is among them, and what their tables refer to is declared |
| AbsMem.D1Model.Clock | src/vtarget-out/absmem.cc:313-360 | the registers after a clock are those of the transition function |
| AbsMem.OnSinceReset | src/vtarget-out/absmem.cc:313-318 | the instruction is under way exactly when it was issued since the last reset, or that reset or the start left it so |
| AbsMem.D1Model.VlgRdata | src/vtarget-out/absmem.cc:326-329 | an active read returns the word the side's overlay has there |
| AbsMem.D1Model.IlaRdata | src/vtarget-out/absmem.cc:331-334 | the same for the other side |
| AbsMem.D1Model.EqualIsAgreement | src/vtarget-out/absmem.cc:362-390 | while comparing, equal holds exactly when the two overlays agree at every address |
| AbsMem.EntryIsFirstWrite | src/vtarget-out/absmem.cc:336-360 | in every reachable state the entry is the first write since reset made while the instruction was under way and nothing was compared |
| AbsMem.OverlayIsReplay | src/vtarget-out/absmem.cc:336-360 | the overlay is the memory the writes made if and only if the first of them made all the difference; so with at most one |
| AbsMem.EqualComparesRuns | src/vtarget-out/absmem.cc:362-390 | equal then compares the memories the two sides have made |

## Left out

- Child programs and instruction sequences of a copied hierarchy, and levels without a valid condition.
- The JSON text, sorts and constants as JSON values, and what reading does with input no serializer wrote.
- Several loads or stores to one memory in a step, access sets of facets, fences recognised by name.
- Finding the shared states and duplicating the models of the cores (src/mcm/inter_ila_unroller.cc:49-113); a program lists its shared states.
- The cached form of `UnrollAssn`, and translating expressions to solver terms.
- Hash-consing while a pass runs: unification of set expressions is compiled off (src/ila/instr_lvl_abs.cc:9), and the syntactic simplification pass is `GetRep` for every field.
- Signed remainder and signed modulus, which the rewriter does not support.
- External memories, start signal, reset and initial statements, functions and the text of the Verilog export; memories read through loads from stores.
- The text of the SystemC program, its operator templates, constant memories' definitions, and the scheduling of child instructions.
- What the simulator generator emits after a failed table lookup, which is undefined outside debug builds.
- The read-abstracting variant of the abstract memory.
- Rewriters.Rewriter.Rebuild: asks that the rewriter knows every operator below, because the source stops on the two it does not know.
- Simplify.SimplifySemantic: asks that every level has a valid condition, as the source asserts.
- CopyTree.CopyIlaTree: asks that variables of a level have different names, that siblings share only inherited ones, and that the rewriter knows every operator.
- PortableRoundTrip.RoundTrip: asks that level names are unique, valid is set, each child has all its parent's variables, siblings share no others, states of a level have different names, and every variable used is declared; the source fails or merges otherwise.
- IlatorStep.UpdateIsStep: asks that stores and conditional memories occur in a register's update only where they are loaded from, and that a memory's update is made of them with plain addresses, words and conditions; a placeholder holds the pairs written and no memory that could be compared or passed to a function, and loads from stores inside a memory update are refused.
- VerilogExport.ClockIsStep: covers one clock outside reset with every grant bit set; with other grants registers do what `VerilogExport.ClockByGrants` says, while the write ports of a memory do not look at the grants.
