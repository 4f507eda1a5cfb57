# SOAC compiler and runtime: verified core

This project models the parts of diet-python (SOAC) that carry real invariants and proves what they
promise, for all inputs and all runs. Run `dafny verify dfyconfig.toml` to check it.

**Control-flow passes** (`BlockIr`, `BlockSemantics`, `Cfg*`). Blocks hold opaque instructions, structured
`if`s, a terminator, params and an exception edge. What an instruction does is a parameter: a machine of
functions that execute an instruction or evaluate an expression, either of which may raise, and bind block
params. A raise goes to the block's exception edge. Runs are small steps; two block lists have the same
runs from a label when they reach the same outcomes from every state, divergence included. Flattening,
folding, pruning and renumbering are proved to preserve runs for every such machine. Three assumptions
appear as hypotheses where they are needed: binding each name to the value it already has changes nothing
(`RebindIsIdentity`), block params do not outlive the frame (`BindIsLocal`), and loading None neither
raises nor changes the state (`LoadsNone`).

An edge passes its explicit arguments to the target's last params and forwards each other param by its own
name, as the code generator does (`soac-eval/src/jit/mod.rs:2951-3050`).

Pruning runs before flattening (`soac-blockpy/src/passes/ruff_to_blockpy/mod.rs:166-172`), and its
successor function looks only at a block's own terminator, not at terminators nested in structured `if`s.
`CfgPrune.PruneExact` gives the exact condition under which that is safe, and
`CfgPipeline.CompilerChainPreservesRuns` proves the compiler's order under the checkable condition that
nested jumps go to kept blocks. Lists that violate it exist (`CfgPrune.PruneCanLoseANestedTarget`), but the
lowering emits none: there nested branches only return or raise, and
`CfgPipeline.CompilerChainOnLoweredCode` needs no condition. Neither would flattening first.

**Optimisation fragments** (`OptFragment`). The memoised search over a fragment, with its stack and memo,
decides exactly whether all paths stay inside until the fallthrough label.

**Jump arguments** (`JumpArgs`, `JumpArgsRuns`, `JumpArgsExact`). The pass that writes implicit block
arguments out, and the edge validator. The pass looks for a param by name in the source block, then by role,
and else writes None; the code generator forwards by name alone. So it can change a run
(`JumpArgsExact.PopulateCanChangeRuns`), and `JumpArgsExact.PopulatePreservesRunsExactly` says exactly when
it does not on any machine obeying `RebindIsIdentity` and `BindIsLocal`: every live jump from whose target a
run can end must leave only params its own block declares.

**Name binding** (`NameOrder`, `CaptureLayout`, `SlotAllocation`, `ModuleConstants`, `ConstantEmitter`, `ConstantPool`).
Captures over the MakeFunction graph with every callee present: supported by chains of makers on any graph,
and exactly the directly defined layout on an acyclic one (a rank witnesses it);
local slots and the stack-slot list; extraction of constants and the code generator's pool, collected for
the lookups of an emitter that is defined on its own. Scope lookups are given functions. Constants are assumed to have fixed values, and reading a decimal numeral gives
its value (`ReadsDecimals`). A node evaluates its children left to right.

**Global cache** (`GlobalCacheSpec`, `GlobalCacheEvents`, `GlobalCache`). A state machine of dicts, slots and pending stacks;
any operations may run nested inside a dict call. The environment is `Allowed`: the watcher is told
before the mutation, exactly once for each successful write or delete; nothing that runs inside a dict call
writes the name being written; each name is used with its own slot. Tracked names are distinct and hold no
NUL, and no other code sets a global under a key that, cut at its first NUL, is another tracked name: the
watcher reads keys as C strings, and `SetReadAsNameExactly` says exactly when such a write does no harm. The one-event
hypothesis is not decoration: `StoreStaysCoherentExactly` and `DeleteStaysCoherentExactly` show it is
necessary and sufficient, and `StoreOfNewObjectExactly` says what it means for a caller of a dict that stays
quiet about writing the object already there, as CPython's is understood to (its source is not part of this
model). The class keeps ghost counts of references taken and of those handed to callers; `HandedAll` says
which a run hands out.

**Heavy hitters** (`HeavyHitters`). The space-saving counter and its streaming guarantees.

**Counter dumps** (`Bytes`, `CounterDump*`). The columnar encoder, writing into a byte buffer, the record
parser, and the round trip between them; `CounterDumpWire` and `CounterDumpIds` state the format apart from both, byte by byte.
Valid text is a parameter; the buffer's address is a multiple of 8, as a mapping's is.

**Fixtures** (`Fixture`, `FixtureGrammar`, `FixtureRoundTrip`, `FixtureExact`) and **reference counts** (`RefCount`).

Methods that update state in place are proved against a function giving the new state; the properties of
those functions are the lemmas below.

## Model

| member | source | states |
|---|---|---|
| CfgLinearize.LinearizedShape | soac-blockpy/src/block_py/cfg.rs:33-141 | flattening one body: the first block keeps the label, all other labels are fresh and drawn from the counter, no two are equal, no structured `if` is left, and every block has the original params and exception edge |
| CfgLinearize.LinearizedRuns | soac-blockpy/src/block_py/cfg.rs:33-141 | wherever the flattened blocks are placed, running from the first reaches what the structured body reaches: same state, same exit, same handler, with raises inside nested branches and branches that leave by themselves |
| CfgLinearize.BranchRuns | soac-blockpy/src/block_py/cfg.rs:143-171 | a flattened branch runs as the nested fragment and then, unless the branch left, as what follows the `if`; without a join the final terminator is copied into both arms |
| CfgLinearize.FragmentRuns | soac-blockpy/src/block_py/cfg.rs:143-171 | a flattened fragment ends by its own terminator or by the fallthrough it was given |
| CfgLinearizeBlocks.LinearizedBlocksShape | soac-blockpy/src/block_py/cfg.rs:173-212 | over a whole block list: labels stay distinct, every original label is kept, every other label lies between the old and the new counter, and no `if` remains |
| CfgLinearizeBlocks.LinearizePreservesRuns | soac-blockpy/src/block_py/cfg.rs:173-212 | from every original label and state the flattened list has the same outcomes as the structured one, divergence included |
| CfgLinearizer.Linearizer.LinearizeIfSequence | soac-blockpy/src/block_py/cfg.rs:33-141 | the recursive method pushing into the output lists and maps and drawing labels from a counter produces exactly the flattening, and records names and handler for each block it emits |
| CfgLinearizer.Linearizer.LinearizeFragment | soac-blockpy/src/block_py/cfg.rs:143-171 | the same for a nested fragment with its fallthrough |
| CfgLinearizer.Linearizer.LinearizeStructuredIfs | soac-blockpy/src/block_py/cfg.rs:173-212 | the whole pass produces the flattening of the list; the output maps name params and handler of every emitted block, and if the input handler map was right so is the output one |
| CfgFold.FoldPreservesRuns | soac-blockpy/src/block_py/cfg.rs:214-242 | replacing a jump to a block that only returns None by a return of None preserves every run, given that loading None neither raises nor changes the state |
| CfgFold.FoldedExactly | soac-blockpy/src/block_py/cfg.rs:214-242 | in the folded list no jump to a block of the input that only returns None is left: each becomes a return of None, and every other block is untouched |
| CfgBlockList.BlockList.FoldJumpsToTrivialNoneReturn | soac-blockpy/src/block_py/cfg.rs:214-242 | the in-place loop computes that folding |
| CfgBlockList.BlockList.Reach | soac-blockpy/src/block_py/cfg.rs:244-271 | the worklist loop terminates with the least set that holds the roots and is closed under successors |
| CfgBlockList.BlockList.PruneUnreachable | soac-blockpy/src/block_py/cfg.rs:244-271 | pruning keeps exactly the blocks reachable through successors from the entry and the extra roots, in order |
| CfgPrune.RetainedInOrder | soac-blockpy/src/block_py/cfg.rs:244-271 | blocks that are kept stay in their order |
| CfgPrune.PruneSafe | soac-blockpy/src/block_py/cfg.rs:244-271 | dropping blocks preserves every run from the entry as soon as every live block, nested jumps and handlers counted, is kept |
| CfgPrune.PruneUnsafe | soac-blockpy/src/block_py/cfg.rs:244-271 | when a live block is dropped there are instruction meanings and a state for which the runs differ |
| CfgPrune.PruneExact | soac-blockpy/src/block_py/cfg.rs:7-20 | hence pruning preserves the runs for all instruction meanings if and only if it keeps every live block |
| CfgPrune.PruneKeepsLive | soac-blockpy/src/block_py/cfg.rs:244-271 | with every handler among the roots, every live block is kept when jumps nested inside structured `if`s only go to kept blocks |
| CfgPrune.PruneFlatPreservesRuns | soac-blockpy/src/block_py/cfg.rs:244-271 | on flat blocks with handlers among the roots pruning preserves every run from the entry |
| CfgPrune.PruneCanLoseANestedTarget | soac-blockpy/src/block_py/cfg.rs:7-20 | a list of the block language, not one the lowering emits, whose only jump to a live block is nested in an `if`: successors that ignore nested terminators lose the block |
| CfgPrune.PruneCanChangeRuns | soac-blockpy/src/block_py/cfg.rs:244-271 | so on arbitrary lists of the block language pruning before flattening can change the runs from the entry |
| CfgBlockList.BlockList.RelabelDense | soac-blockpy/src/block_py/cfg.rs:273-299 | the in-place renumbering succeeds exactly when every destination is a block of the list, and then computes the renumbered list; otherwise it panics |
| CfgRelabel.RelabelIsDense | soac-blockpy/src/block_py/validate.rs:24-31 | the renumbering is one-to-one onto 0..n in list order and its output has block i labelled i, as the validator demands |
| CfgRelabel.DenseLookup | soac-blockpy/src/block_py/validate.rs:309-329 | on dense blocks the validator's lookup by position finds what a lookup by label finds |
| CfgRelabel.RelabelTargetsKnown | soac-blockpy/src/block_py/validate.rs:309-329 | every destination and handler in the renumbered list is a known block |
| CfgRelabel.RelabelPreservesRuns | soac-blockpy/src/block_py/cfg.rs:273-336 | renumbering preserves every run, each label standing for its position |
| CfgPipeline.CompilerChainPreservesRuns | soac-blockpy/src/passes/ruff_to_blockpy/mod.rs:166-172 | fold, prune, flatten and renumber, in the order the compiler runs them, preserve every run from the entry and never panic, provided nested jumps go to kept blocks |
| CfgPipeline.CompilerChainOnLoweredCode | soac-blockpy/src/passes/ruff_to_blockpy/stmt_sequences.rs:159-200 | where nested branches leave only by returning or raising, as the lowering makes them, the chain preserves every run with no such condition |
| CfgPipeline.FlattenFirstChainPreservesRuns | soac-blockpy/src/block_py/cfg.rs:173-336 | flattening first, the same chain preserves every run from the entry with no such condition |
| CfgPipeline.LinearizedClosed | soac-blockpy/src/block_py/cfg.rs:173-212 | flattening a list whose destinations are all present gives one whose destinations are all present |
| JumpArgs.PopulateJumpEdgeArgs | soac-blockpy/src/passes/name_binding.rs:2528-2574 | the in-place loop rewrites every jump as specified although it reads params while rewriting |
| JumpArgs.PopulatedArity | soac-blockpy/src/passes/name_binding.rs:2528-2574 | after the pass a jump has one argument per target param, unless it passed arguments to a block with no params |
| JumpArgs.PopulateTwice | soac-blockpy/src/passes/name_binding.rs:2528-2574 | a second application changes nothing |
| JumpArgs.WrittenExactly | soac-blockpy/src/passes/name_binding.rs:2547-2568 | what is written for a param the jump leaves without an argument: its own name if the source block declares it; else the name of the source's first param of its role; else None |
| JumpArgsRuns.WrittenAsReceivedExactly | soac-blockpy/src/passes/name_binding.rs:2547-2568 | what the pass writes on a jump is what the code generator would have passed if and only if the source declares every param the jump leaves without an argument; and what is written is passed as written |
| JumpArgsRuns.PopulatePreservesRuns | soac-eval/src/jit/mod.rs:2951-3050 | with implicit params forwarded by their own name, the pass preserves every run from the entry when every live jump from whose target a run can end leaves only declared params without an argument |
| JumpArgsExact.PopulatePreservesRunsExactly | soac-blockpy/src/passes/name_binding.rs:2528-2574 | it preserves the runs on every machine that obeys the laws of the other passes, whatever instructions mean, if and only if that holds |
| JumpArgsExact.PopulatePreservesStepsExactly | soac-blockpy/src/passes/name_binding.rs:2528-2574 | it preserves on every such machine each configuration a run goes through, endless runs included, if and only if every live jump leaves only declared params without an argument |
| JumpArgsExact.PopulateCanChangeRuns | soac-blockpy/src/passes/name_binding.rs:2547-2568 | a jump between two blocks whose exception params have different names, over a frame whose binding copies values: one list returns what the frame held under the target's name, the rewritten one what it held under the source's |
| JumpArgs.ValidateEdgeAccepts | soac-blockpy/src/block_py/validate.rs:136-229 | the validator accepts an edge exactly when it has no more arguments than params, for every implicitly forwarded param whose role the source has, the source's first of that role bears its name, an abrupt kind is passed only to an abrupt-kind param, and the current exception only to an exception param |
| JumpArgs.PopulatedJumpValidates | soac-blockpy/src/block_py/validate.rs:136-229 | after the pass the validator accepts a jump exactly when each argument it was written with fits its param by role: an abrupt kind an abrupt-kind param only, the current exception an exception param only |
| JumpArgs.AcceptedForwardingKeepsNames | soac-blockpy/src/block_py/validate.rs:136-202 | an accepted jump never passes a param on under another name |
| OptFragment.AllPathsEndExactly | soac-blockpy/src/passes/instrument.rs:185-246 | every path ends at the fallthrough label within as many steps as there are blocks, if and only if nothing reachable is unknown, returns, raises or lies on a cycle |
| OptFragment.FragmentWalk.AllPathsEndInFallthrough | soac-blockpy/src/passes/instrument.rs:185-246 | the memoised depth-first search terminates and answers that question whatever is already in the memo and on the stack |
| OptFragment.FragmentWalk.AllTargetsEnd | soac-blockpy/src/passes/instrument.rs:200-240 | its target loop answers it for all successors, stopping at the first bad one |
| OptFragment.ValidateOptBlock | soac-blockpy/src/passes/instrument.rs:142-183 | a fragment is accepted if and only if labels are distinct, every path from the entry stays inside until the fallthrough, and every dependency is reachable |
| OptFragment.ValidatedFragmentFallsThrough | soac-blockpy/src/passes/instrument.rs:142-183 | every run of a validated fragment along normal edges falls through, or raises, within as many steps as it has blocks |
| OptFragment.OptBlock.ReplaceFallthroughTarget | soac-blockpy/src/passes/instrument.rs:125-131 | redirects exactly the fallthrough targets of entry and dependencies, and says whether there was one |
| OptFragment.RedirectedFragmentLeavesForTarget | soac-blockpy/src/passes/instrument.rs:125-131 | after redirection those runs leave for the target, in the same state and with the same arguments as they fell through before |
| NameOrder.AscendingUnique | soac-blockpy/src/block_py/scope.rs:899-909 | sorting and deduplicating forgets the order names were collected in: ascending lists with the same members are equal |
| CaptureLayout.ScopeCapturesExactly | soac-blockpy/src/block_py/scope.rs:808-872 | which names a callable captures for itself, and under which name: what the scope calls the capture's source, else what it calls the cell, else the name itself |
| CaptureLayout.OwnCellsExactly | soac-blockpy/src/block_py/scope.rs:910-949 | an owned cell gets a slot if and only if it is not runtime-managed; the slot bears the scope's name for the storage, or the storage's own, and starts from a parameter if and only if that name is one, deleted otherwise |
| CaptureLayout.OwnsExactly | soac-blockpy/src/passes/name_binding.rs:2204-2227 | a callable owns a name if and only if one of its owned cells, not runtime-managed, bears it or is the one a capture of it reads |
| CaptureLayout.RuntimeNamesExactly | soac-blockpy/src/block_py/scope.rs:797-800 | which names the runtime manages |
| CaptureLayout.LayoutSolver.ComputeLayout | soac-blockpy/src/passes/name_binding.rs:2182-2275 | on any MakeFunction graph, cycles included, the memoised search with its visiting set terminates with a layout that keeps a preset, captures what the scope does, and captures nothing no chain of makers asks for; its slots ascend, freevars are inherited, and every owned cell that is not runtime-managed has one slot with the right name and initialiser; on an acyclic graph it is the directly defined recursive layout, whatever was computed before |
| CaptureLayout.LayoutSolver.CollectNeeds | soac-blockpy/src/passes/name_binding.rs:2228-2256 | its callee loop collects only names some chain of makers asks for, and on an acyclic graph exactly what the callees make their maker capture |
| CaptureLayout.EnsureModuleLayouts | soac-blockpy/src/passes/name_binding.rs:2277-2320 | for every visiting order each callable ends with such a layout, and on an acyclic graph with the directly defined one |
| CaptureLayout.OwnsStable | soac-blockpy/src/passes/name_binding.rs:2204-2227 | a callable's own cells are the same before and after its callees are looked at |
| CaptureLayout.CapturesExactly | soac-blockpy/src/passes/name_binding.rs:2228-2275 | a callable captures exactly what its scope does, and what some callee captures and it does not own |
| CaptureLayout.CalleeFreevarsAreSupplied | soac-blockpy/src/passes/name_binding.rs:2228-2256 | every freevar of a callee is a freevar of its maker or one of the maker's own cells, by name or by the storage its capture reads |
| CaptureLayout.CapturedIffChain | soac-blockpy/src/passes/name_binding.rs:2182-2275 | a name is captured if and only if a chain of makers, none owning it, leads to a callable that captures it itself |
| CaptureLayout.CaptureVectorMatchesSlots | soac-blockpy/src/passes/name_binding.rs:2452-2481 | a non-class callable is made with one capture for each of its freevars, in their order, each read from the source its scope gives |
| CaptureLayout.CaptureSourcesResolve | soac-blockpy/src/passes/name_binding.rs:1598-1640 | a capture that a non-class callee is made with reads the maker's cell of that name if and only if its source is the name itself, as for __class__, the source the maker would read the name from, or the storage of the maker's freevar of that name |
| SlotAllocation.ComputeLocalSlots | soac-blockpy/src/passes/name_binding.rs:1682-1749 | the allocation loop computes the specified slot map |
| SlotAllocation.AllocationOrder | soac-blockpy/src/passes/name_binding.rs:1682-1749 | with distinct parameter names slots are numbered in this order, each name once: parameters, owned cells by name, block params by first use, remaining locals by name |
| SlotAllocation.AllocationNumbers | soac-blockpy/src/passes/name_binding.rs:1682-1749 | with distinct parameter names the slots number the parameters at their own positions, then exactly the owned cells, block params and remaining locals, each once |
| SlotAllocation.RemainingLocalsExactly | soac-blockpy/src/passes/name_binding.rs:1655-1680 | beyond parameters, owned cells and block params exactly these names get a slot: those left over in the code without cell storage that are stored, bound neither as cell nor as global and resolve to a local; or are not stored but bound as an honoured local; or are unbound and defined locally |
| SlotAllocation.AllocationBijectiveExactly | soac-blockpy/src/passes/name_binding.rs:1685-1690 | the allocation is a bijection onto 0..n if and only if no parameter name is repeated |
| SlotAllocation.OrderedSlotNames | soac-blockpy/src/passes/name_binding.rs:1751-1755 | lists every name once in slot order |
| SlotAllocation.StackSlotsReadBack | soac-blockpy/src/passes/name_binding.rs:1757-1785 | a bijective allocation written to the stack-slot list in slot order and read back by position is unchanged |
| SlotAllocation.StorageLayout.CoverBlockParams | soac-blockpy/src/passes/name_binding.rs:1787-1798 | every block param gets a slot, nothing else does, and the earlier list stays a prefix |
| SlotAllocation.GrowingKeepsSlots | soac-blockpy/src/block_py/scope.rs:88-94 | growing a list of distinct names never moves a slot read back from it |
| SlotAllocation.ModuleGlobalSlots.SlotFor | soac-blockpy/src/passes/name_binding.rs:1810-1831 | issues one slot per name, never changes an issued one, and keeps the names distinct, which is what the global cache needs; it panics exactly when a new slot would not fit 32 bits |
| ModuleConstants.ModuleConstantExtractor.ExtractExpr | soac-blockpy/src/passes/name_binding.rs:2683-2697 | the rewriting visitor computes the specified extraction and appends the moved constants |
| ModuleConstants.ExtractionLeavesNothing | soac-blockpy/src/passes/name_binding.rs:2683-2697 | no literal and no load of a runtime name is left at any depth, and only such expressions are moved |
| ModuleConstants.ExtractionPreservesMeaning | soac-blockpy/src/passes/name_binding.rs:2645-2704 | an extracted expression, its constants read from the pool, evaluates as the original from every state |
| ConstantPool.ConstantCollector.PushExplicit | soac-eval/src/module_constants.rs:209-244 | an explicit constant takes the next place even when its value is pooled already, the first id stays, and it panics exactly on anything but a literal or a runtime name |
| ConstantPool.ConstantCollector.Intern | soac-eval/src/module_constants.rs:246-254 | interning returns the value's id, leads back to the value, appends it exactly when it is not pooled yet, and changes no issued id |
| ConstantPool.ConstantCollector.CollectExpr | soac-eval/src/module_constants.rs:418-512 | after collecting an expression no lookup fails that a separately defined emitter makes while emitting any part of it: names of globals and runtime names loaded, stored or deleted, keyword names, attribute names, known strings, and names of deleted variables; and nothing is added that is not collected for a part of it |
| ConstantPool.ConstantCollector.CollectFunction | soac-eval/src/module_constants.rs:372-416 | after collecting a function no lookup fails that emitting it makes for its params with defaults, in any block body or exit, and for the number 0 to 4 of every abrupt kind it passes on |
| ConstantPool.LookupMet | soac-eval/src/jit/intrinsics.rs:14-26 | what the collector interns for a node is exactly what emitting it looks up, and the name in any call of the deleted-name helper |
| ConstantPool.ConstantCollector.RequireUnicode | soac-eval/src/module_constants.rs:125-137 | the emitter's lookup succeeds exactly for pooled names and returns an index holding the name |
| ConstantPool.CollectFromModule | soac-eval/src/module_constants.rs:49-61 | explicit constants keep their index, ids lead back to values, and no lookup fails that emitting any function makes, the always-required helpers of calls and raises included; the pool holds nothing else, names in calls of the deleted-name helper aside; it panics exactly when an explicit constant is unsupported |
| ConstantPool.IntegerEntry | soac-eval/src/module_constants.rs:218-223 | an integer constant is pooled as a word up to 2^63 - 1 and beyond as the decimal numeral of its value |
| ConstantPool.EntryKeepsValue | soac-eval/src/module_constants.rs:76-119 | the object built from a constant's pool entry is the constant's value |
| ConstantPool.ExtractThenPoolPreservesMeaning | soac-eval/src/module_constants.rs:49-61 | extraction followed by pooling changes no expression's meaning, duplicate constants included |
| ConstantPool.ExtractedConstantsAreSupported | soac-eval/src/module_constants.rs:234-238 | the panic on an unsupported constant is unreachable on extracted constants |
| ConstantPool.ExtractedConstantsBelow | soac-blockpy/src/passes/name_binding.rs:2645-2704 | extracted code reads no constant but the extracted ones, as pooling demands |
| GlobalCacheSpec.StepKeepsInv | soac-eval/src/module_globals.rs:200-339 | every event, store, delete and load, with any operations nested inside dict calls, keeps every slot empty or right and leaves every pending stack as it was |
| GlobalCacheSpec.StepsKeepInv | soac-eval/src/module_globals.rs:200-339 | the same over whole runs |
| GlobalCacheEvents.SetExactly | soac-eval/src/module_globals.rs:291-321 | when other code sets a global, the slot its key is read as, up to a NUL, takes the value, unless the value is the one expected on top of the stack, which is then consumed; no other slot or stack changes |
| GlobalCacheEvents.DeletedExactly | soac-eval/src/module_globals.rs:291-321 | the same for a deletion, with an empty slot |
| GlobalCacheEvents.ReplacedExactly | soac-eval/src/module_globals.rs:291-321 | when the globals are cloned over, cleared or deallocated every slot is emptied and every expectation stays |
| GlobalCacheEvents.BuiltinExactly | soac-eval/src/module_globals.rs:323-339 | when a builtin is set or deleted the slot its key is read as is emptied unless the globals hold the key; no other slot changes |
| GlobalCacheEvents.BuiltinsReplacedExactly | soac-eval/src/module_globals.rs:323-396 | when the builtins are replaced exactly the slots of NUL-free names the globals lack are emptied |
| GlobalCacheEvents.StoreExactly | soac-eval/src/module_globals.rs:204-231 | with nothing running inside it a successful store puts the value in the globals and the slot and changes nothing else; one that fails without an event changes nothing |
| GlobalCacheEvents.DeleteExactly | soac-eval/src/module_globals.rs:233-266 | likewise a delete removes the name and empties its slot; of a missing name a quiet delete empties the slot, and a failing delete changes nothing |
| GlobalCacheSpec.StoreFillsSlot | soac-eval/src/module_globals.rs:204-231 | after a successful store, whatever ran inside the dict call, the slot holds the value and a load returns it |
| GlobalCacheSpec.DeleteEmptiesSlot | soac-eval/src/module_globals.rs:233-266 | after a delete of a name the globals hold that does not fail, whatever ran inside the dict call, the slot is empty |
| GlobalCacheSpec.LoadFillsSlot | soac-eval/src/jit/intrinsics.rs:548-605 | a load leaves the slot holding what it returns, and changes nothing else |
| GlobalCacheSpec.CachedLoadRefinesLookup | soac-eval/src/module_globals.rs:200-339 | over every allowed run from an empty cache nothing is pending between operations and a cached load returns what looking in globals, then builtins, returns |
| GlobalCacheSpec.NestedLoadRefinesLookup | soac-eval/src/module_globals.rs:204-266 | the same inside a dict call, for every name but those being written |
| GlobalCacheSpec.SilentStoreGoesStale | soac-eval/src/module_globals.rs:204-231 | a successful store without an event leaves its expectation pending and a later pair of external writes makes the slot wrong |
| GlobalCacheSpec.StoreStaysCoherentExactly | soac-eval/src/module_globals.rs:204-231 | after a store the slot is right in every allowed future if and only if the store was not silent |
| GlobalCacheSpec.StoreOfNewObjectExactly | soac-eval/src/module_globals.rs:204-231 | over a dict that announces a write exactly when it puts a different object in place, that is so if and only if the global did not already hold the stored object |
| GlobalCacheSpec.SilentDeleteGoesStale | soac-eval/src/module_globals.rs:233-266 | the same failure for a delete without an event |
| GlobalCacheSpec.DeleteStaysCoherentExactly | soac-eval/src/module_globals.rs:233-266 | after a delete the slot is right in every allowed future if and only if the delete was not silent |
| GlobalCacheSpec.AnnouncedDeleteStaysCoherent | soac-eval/src/module_globals.rs:233-266 | over such a dict, which announces every delete of a name it holds, it always is |
| GlobalCacheSpec.LoadInsideStoreExactly | soac-eval/src/module_globals.rs:204-231 | a load of the stored name from inside the dict call is right if and only if the slot was empty or already held the value |
| GlobalCacheSpec.LoadInsideDeleteExactly | soac-eval/src/module_globals.rs:233-266 | a load of the deleted name from inside the dict call is right if and only if the slot was empty or the builtins hold the object it holds |
| GlobalCacheSpec.SetReadAsNameExactly | soac-eval/src/module_globals.rs:354-365 | after other code sets a global whose key, cut at its first NUL, is a tracked name, the slot is right, and the whole invariant holds, if and only if the key is that name or the value is what a lookup of the name returns anyway |
| GlobalCacheSpec.NulKeyMisleads | soac-eval/src/module_globals.rs:354-365 | otherwise a load of the tracked name returns the value set under the longer key, while its lookup is unchanged |
| GlobalCacheSpec.NulKeyExample | soac-eval/src/module_globals.rs:354-365 | the run that sets the key of x, NUL, y makes a cached load of x return a value no lookup of x finds |
| GlobalCacheSpec.OwnWriteRecognisedExactly | soac-eval/src/module_globals.rs:354-365 | the cache recognises the announcement of its own write if and only if the name has no NUL |
| GlobalCache.SwapBalance | soac-eval/src/module_globals.rs:448-456 | swapping a slot trades the reference it owned for the one it is given |
| GlobalCache.ModuleGlobalCache.SwapSlot | soac-eval/src/module_globals.rs:448-456 | the swap drops the old reference, which is always held, and every reference stays accounted for |
| GlobalCache.ModuleGlobalCache.StoreBorrowedValue | soac-eval/src/module_globals.rs:341-348 | storing a borrowed value takes a reference first; null clears |
| GlobalCache.ModuleGlobalCache.ClearAllSlots | soac-eval/src/module_globals.rs:268-275 | clears every slot and drops what they owned |
| GlobalCache.ModuleGlobalCache.ClearUnshadowedSlots | soac-eval/src/module_globals.rs:379-396 | clears exactly the slots whose name has no NUL and is not in globals |
| GlobalCache.ModuleGlobalCache.PushPendingSelfUpdate | soac-eval/src/module_globals.rs:398-407 | pushes an expectation on the slot's stack |
| GlobalCache.ModuleGlobalCache.RemovePendingSelfUpdate | soac-eval/src/module_globals.rs:409-420 | withdraws it if it is still on top |
| GlobalCache.ModuleGlobalCache.TryIgnorePendingSelfUpdate | soac-eval/src/module_globals.rs:422-436 | consumes the top expectation exactly when it is the value announced |
| GlobalCache.ModuleGlobalCache.HandleGlobalsEvent | soac-eval/src/module_globals.rs:291-321 | a globals event updates the slot its key names when cut at the first NUL, unless the event was expected; other events clear everything |
| GlobalCache.ModuleGlobalCache.HandleBuiltinsEvent | soac-eval/src/module_globals.rs:323-339 | a builtins event clears the slot its key names when cut at the first NUL, unless globals hold the whole key; other events clear every unshadowed slot |
| GlobalCache.ModuleGlobalCache.StoreGlobalWriteThrough | soac-eval/src/module_globals.rs:204-231 | a store performs the specified step, returns a reference exactly when the write succeeded, and hands out exactly that reference and those its nested operations hand out |
| GlobalCache.ModuleGlobalCache.DelGlobalWriteThrough | soac-eval/src/module_globals.rs:233-266 | a delete performs the specified step, reports success exactly when the name was removed or its absence is forgiven, and hands out only what its nested operations hand out |
| GlobalCache.ModuleGlobalCache.LoadGlobal | soac-eval/src/jit/intrinsics.rs:548-605 | a hit returns the slot's value, a miss looks up, fills the slot with a stolen reference and returns another |
| GlobalCache.ModuleGlobalCache.PerformAll | soac-eval/src/module_globals.rs:200-339 | over every run the class reaches the specified state; every reference taken is owned by a slot or was handed to a caller, and those handed out are exactly one for each value a load or a successful store of the run returned, so nothing leaks |
| GlobalCache.ModuleGlobalCache.Drop | soac-eval/src/module_globals.rs:459-477 | after drop the slots own nothing: the references left are exactly those handed to callers |
| HeavyHitters.Counter.Record | soac-eval/src/counter.rs:98-130 | the array update is the specified one: count, take a free slot, or displace the smallest and inherit its count |
| HeavyHitters.Counter.MinSlotIndex | soac-eval/src/counter.rs:87-94 | finds the first slot with the smallest count |
| HeavyHitters.Counter.ApproxCount | soac-eval/src/counter.rs:132-138 | returns the approximate count in the slot that tracks the value, nothing for an untracked one; the count is at least the true one and at most the stream length |
| HeavyHitters.CountsSumToStream | soac-eval/src/counter.rs:98-130 | for positive capacity the counts sum to the length of the stream |
| HeavyHitters.CountsFit | soac-eval/src/counter.rs:98-130 | no count exceeds the stream length, so streams shorter than 2^64 never overflow it |
| HeavyHitters.CountsBoundTruth | soac-eval/src/counter.rs:8-12 | tracked values are distinct, and each true count lies between the lower bound and the approximate count |
| HeavyHitters.UntrackedIsRare | soac-eval/src/counter.rs:98-130 | an untracked value occurred at most the minimum count, and never while a slot is free |
| HeavyHitters.MinCountIsSmall | soac-eval/src/counter.rs:98-130 | once full, capacity times the minimum count is at most the stream length |
| HeavyHitters.OvercountIsSmall | soac-eval/src/counter.rs:8-12 | the standard error bound: capacity times any slot's overcount is at most the stream length |
| HeavyHitters.HeavyHittersAreTracked | soac-eval/src/counter.rs:98-130 | every value that makes up more than one part in the capacity of the stream is tracked |
| HeavyHitters.MinCountNeverDecreases | soac-eval/src/counter.rs:87-130 | whatever is recorded later, the minimum count of a full table never decreases |
| CounterDumpEncode.StringTable.Intern | soac-eval/src/counter_dump.rs:67-79 | interning returns the string's index, adds it at the end when new, and fails exactly when a new index would not fit |
| CounterDumpEncode.TableHolds | soac-eval/src/counter_dump.rs:67-79 | the finished table holds exactly the strings given, each once |
| CounterDumpEncode.InternRow | soac-eval/src/counter_dump.rs:110-148 | a row's pushed entries carry the ids its strings have in the finished table |
| CounterDumpEncode.Collect | soac-eval/src/counter_dump.rs:83-150 | one walk over the record yields the ids, the table and the columns of the finished record |
| CounterDumpEncode.StringSection | soac-eval/src/counter_dump.rs:151-163 | end offsets and concatenated bytes; fails exactly when the bytes do not fit 32 bits |
| CounterDumpEncode.RecordLengthBoundsFields | soac-eval/src/counter_dump.rs:165-216 | all offsets fit exactly when the record length does |
| CounterDumpEncode.WriteBytes | soac-eval/src/counter_dump.rs:278-287 | copies into the buffer and changes nothing else, or fails exactly when the range is out of bounds |
| CounterDumpEncode.WriteSections | soac-eval/src/counter_dump.rs:218-265 | writing each section at its offset into a zeroed buffer yields the sections laid end to end |
| CounterDumpEncode.Encode | soac-eval/src/counter_dump.rs:82-266 | encoding succeeds if and only if rows, strings and record length fit 32 bits, and yields the record's bytes, which EncodedOnWire and IdsOnWire describe byte by byte |
| CounterDumpWire.EncodedOnWire | soac-eval/src/counter_dump.rs:13-40 | the encoder's output byte by byte, at literal offsets: magic, version 4, header size 88, row and string counts, the name ids, sections packed in order with their alignment up to the record length, zeros between them, and in each column, in little-endian words, what each row says |
| CounterDumpIds.IdsOnWire | soac-eval/src/counter_dump.rs:67-150 | in those bytes strings are numbered from zero in the order of their first use: module, package, then for each row scope, kind, site kind, qualified name and block label; the string count is the number of different strings used |
| CounterDumpFormat.SectionStarts | soac-eval/src/counter_dump.rs:165-185 | the aligned, disjoint sections start at the offsets in the header and end at the record length in it |
| Bytes.AlignUp | soac-eval/src/counter_dump.rs:269-276 | the next multiple of the alignment, less than one alignment away |
| Bytes.FlattenPart | soac-eval/src/counter_dump.rs:218-265 | each section can be cut back out of the whole |
| CounterDumpParse.ParseRecords | soac-inspector/src/counter_dump.rs:152-334 | the loop advancing an offset returns what parsing record after record returns, or its first error |
| CounterDumpParse.ParseOne | soac-inspector/src/counter_dump.rs:152-330 | an accepted record has a positive length divisible by 8, sections in order and within it, columns of one entry per row, and an offset table from 0 to the string length |
| CounterDumpWire.ReadHeaderExactly | soac-inspector/src/counter_dump.rs:152-219 | on any bytes a header is accepted if and only if there are 88 bytes, they start with the magic, version 4 and size 88, and the address is aligned; each of its fields is the little-endian word at its own literal offset |
| CounterDumpWire.ParseOneExactly | soac-inspector/src/counter_dump.rs:152-330 | on any bytes a record is accepted if and only if header, length, order, extent and alignment of the sections and the ends of the offset table are as listed at literal offsets; its table and columns are the words at the offsets the header gives |
| CounterDumpWire.ReadRowExactly | soac-inspector/src/counter_dump.rs:84-149 | a row is read with given contents if and only if the bytes say so, column by column: ids lead to the bytes of a string, all-ones words stand for nothing |
| CounterDumpParse.CastSlice | soac-inspector/src/counter_dump.rs:360-376 | a cast slice is in bounds, has the requested length, and its words fit their width |
| CounterDumpParse.ParsedRecordsTile | soac-inspector/src/counter_dump.rs:152-334 | on any bytes the parser terminates, and the records it returns are sound and tile the input exactly |
| CounterDumpParse.EachRecordInPlace | soac-inspector/src/counter_dump.rs:152-334 | each record is what parsing finds where the records before it end |
| CounterDumpParse.AppendedDumps | soac-inspector/src/counter_dump.rs:152-334 | a dump appended to a well-formed one parses to the records of both |
| CounterDumpRoundTrip.ParseOneBack | soac-inspector/src/counter_dump.rs:152-330 | an encoded record is parsed back to its header, table and columns, whatever follows it |
| CounterDumpTheorems.ResolveBack | soac-inspector/src/counter_dump.rs:124-149 | the id of an interned string resolves to the string, and is never the reserved "none" id |
| CounterDumpTheorems.RowBack | soac-inspector/src/counter_dump.rs:84-114 | every row is read back, except that ids equal to the "none" sentinels read as absent |
| CounterDumpTheorems.CanonIsIdentityExactly | soac-eval/src/counter_dump.rs:86-90 | a record reads back unchanged if and only if it has no empty package name and no id is a sentinel |
| CounterDumpTheorems.DumpParsesBack | soac-inspector/src/counter_dump.rs:152-334 | the concatenation of encoded records parses to exactly their views, in order |
| CounterDumpTheorems.DumpRoundTrip | soac-eval/src/counter_dump.rs:81-267 | for any list of encodable records the parsed concatenation shows exactly those records, names and rows, up to sentinels |
| CounterDumpTheorems.DumpDeterminesRecords | soac-eval/src/counter_dump.rs:81-267 | two lists of records with the same bytes are the same up to sentinels |
| Fixture.ParseFixture | soac-blockpy/src/fixture.rs:14-101 | the line loop computes the specified parse |
| Fixture.RenderFixture | soac-blockpy/src/fixture.rs:103-126 | the printing loop computes the specified rendering |
| Fixture.PlainTextIsCopied | soac-blockpy/src/fixture.rs:72-94 | text without headers, separators or trailing carriage returns is copied into the current body as it is |
| FixtureGrammar.ParsedExactly | soac-blockpy/src/fixture.rs:14-101 | a text is read as given blocks if and only if its lines are blank lines and then, for each block, a header, body lines, one separator and body lines; names are trimmed, bodies copied; every other text is refused |
| FixtureGrammar.ContentExactly | soac-blockpy/src/fixture.rs:29-37 | a line loses its newline and, before that, one carriage return, and nothing else |
| FixtureRoundTrip.BlockIsRead | soac-blockpy/src/fixture.rs:14-126 | a printed block closes the previous block and is read with its name, input and output |
| FixtureGrammar.PrintedExample | soac-blockpy/src/fixture.rs:103-126 | the text printed for two blocks, one without output and one without input |
| FixtureRoundTrip.FixtureRoundTrip | soac-blockpy/src/fixture.rs:14-126 | parsing a printed fixture gives back each name and, newlines at the ends aside, each input and output, for printable blocks |
| FixtureExact.FixtureSurvivesExactly | soac-blockpy/src/fixture.rs:14-126 | and only for those: a fixture survives printing and parsing if and only if every block is printable |
| FixtureRoundTrip.RenderParseRender | soac-blockpy/src/fixture.rs:14-126 | printing what was parsed prints the same text |
| RefCount.PyObject.IncRef | soac-runtime/src/lib.rs:82-97 | the increment is the specified step; null and immortal objects are skipped |
| RefCount.PyObject.DecRef | soac-runtime/src/lib.rs:100-122 | the decrement is the specified step and calls the deallocator when the field becomes zero |
| RefCount.FieldTracksCountExactly | soac-runtime/src/lib.rs:52-122 | at every point of a run the field equals the true count until it first reaches 2^31, stays in the upper half afterwards, and the object has been deallocated once for each time the count of an object that never crossed fell to zero, if and only if the run drops no missing reference before it crosses |
| RefCount.FieldTracksCount | soac-runtime/src/lib.rs:52-122 | in particular at the end of every such run |
| RefCount.FieldNeverWraps | soac-runtime/src/lib.rs:82-122 | in such a run each operation moves the field by one or not at all |
| RefCount.StepField | soac-runtime/src/lib.rs:52-122 | what one operation does to the field, by literal bounds: from 2^31 up nothing for a decrement and from 3 * 2^30 up nothing for an increment, so the field None starts with never changes |
| RefCount.CrossedIsForever | soac-runtime/src/lib.rs:67-79 | once the count has reached 2^31 the object is not deallocated by any later operations, however many references they drop, and whatever was dropped before |
| RefCount.ExtraDecrefWraps | soac-runtime/src/lib.rs:100-122 | every run whose last operation drops a missing reference of an object that has not crossed leaves the field at its maximum: the dead object looks immortal |

## Left out

- Label counters are unbounded here; the source's labels are 32-bit and its counter could overflow, or reach the reserved fallthrough label.
- Block instructions are opaque, so passes that rewrite inside instructions (deleted-name guards, cell loads, generator and exception lowering) are not modelled.
- CompilerChainOnLoweredCode: the lowering itself is not modelled; that nested branches only return or raise is read off it.
- RelabelPreservesRuns: is about flat blocks, as renumbering runs after flattening; the passes that run in between are not modelled.
- ValidatedFragmentFallsThrough: follows normal edges only; a raise ends the run, since the validator does not look at exception edges. The entry must not carry the fallthrough label.
- RedirectedFragmentLeavesForTarget: the new target must not be a label of the fragment.
- PopulateJumpEdgeArgs: only jumps are rewritten, as in the source; arguments of other terminators do not exist.
- PopulatePreservesRunsExactly: is about flat blocks, as the pass runs after flattening; a block with two params of one name, and explicit names the frame lacks, which the code generator rejects, are bound like any other. On machines that only copy values the condition is sufficient: an earlier binding may happen to have made the two values equal.
- The rest of module validation (storage-layout scoping, exception edges, pass-specific checks) adds only easy members.
- EnsureModuleLayouts: missing callees, on which the source panics, are excluded; on a cyclic graph the layout depends on the visiting order, and only that it is supported is proved.
- CaptureSourcesResolve: takes the maker's own cells to be stored where a capture of their name reads them, leaves out runtime cells, and does not say which cell wins when cells of two names answer to one source; class bodies are left out, as their captures go through a renaming loop that may not terminate on arbitrary scope maps.
- ComputeLocalSlots: the walk that finds remaining and stored names is an input, and slots are unbounded instead of 32-bit.
- StackSlotsReadBack: an empty stack-slot list is not read back but recomputed from the callable.
- ExtractExpr: expressions are trees with uniform children; more than 2^32 constants, where the source panics, are not modelled.
- ExtractThenPoolPreservesMeaning: takes runtime names to have one value for the module's lifetime, as the pool builds each once.
- CollectExpr: ids may be issued in another order than the source's, which interns a node's keyword names before its children; only which values are pooled is proved.
- The cache registry, watcher installation, null dicts and names, globals and builtins being the same dict, and the reference to the builtins dict are not modelled.
- CachedLoadRefinesLookup: atomicity of slot swaps between threads is not modelled; operations interleave by nesting only.
- The counter's entry listing and sorted snapshot, and counts past 64 bits.
- Encode: allocation failure and 32-bit or big-endian hosts; error texts are shortened, and their order is the source's.
- ParseRecords: error texts do not carry byte offsets; file opening and memory mapping are not part of this model.
- Packing of function ids into 64 bits is taken as given; ids are opaque words.
- FixtureRoundTrip: newlines at the ends of a body are not kept by printing, so bodies are compared without them.
- FieldTracksCountExactly: 64-bit hosts only; the flag and overflow halves of the field are never touched by these functions and are left out.
- Ruff syntax passes, templates, macros, Cranelift emission, Python glue, module set-up and tear-down, the web inspector and all scripts.
