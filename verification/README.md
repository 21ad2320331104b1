# Valgrind's profilers, modelled

This project models the stateful algorithms of Valgrind's two cache profilers, and the checksum of
its debuginfo server, and proves what they promise. Code that changes things in place is modelled
by classes and methods over fields and arrays; each method is tied to a function of the old state,
and the theorems are about those functions over every input, run or reference stream.

- **The AVL map of cg_merge** (`SortedList`, `AvlTree`, `AvlNodes`, `WordFMs`, `Comparators`):
  pointer nodes rotated in place refine a pure tree, the tree refines a sorted list, the list is a
  map. The iterator with its fixed stack of 32 slots and the deep copy are included.
- **Cachegrind's instrumentation** (`Lru`, `CacheSim`, `CgSim`, `CgLaws`, `CgHelpers`, `Instrument`,
  `BlockLaws`, `CgStates`): the bounded event queue, its merging and batching rules, the helper calls
  and the two-level cache simulation they drive. `CgLaws` says what each helper does in terms of hits,
  misses and counter differences, `BlockLaws` what a block's statements make of addresses and counters.
- **Callgrind's caches** (`WriteBack`, `WbArray`, `WbLimits`, `CacheUse`, `UseLaws`, `UseArray`): the
  dirty flag in bit 0 of a tag, the slot pointers in the low tag bits, and the use records they lead to.
- **Callgrind's shadow stack** (`ShadowStack`, `BbSetup`, `CallLaws`, `CallCost`, `CostRuns`,
  `CallStacks`): calls, returns and jumps, unwinding by stack pointer, active counts, and the cost of
  call arcs. `CallLaws` says what a block execution does in terms of the exit taken and the stack
  pointer.
- **Callgrind's tables and dumps** (`ArcTable`, `JccHashes`, `QSort`, `QSortArray`, `ExecCount`).
- **Merging profiles** (`Profile`, `ProfileSums`, `ProfileMerge`, `ProfileText`, `ReadingLaws`,
  `ProfileLimits`, `ProfileReader`): the two-level map of counts, the parser, the printer and the merge.
  `ReadingLaws` says which texts are accepted and what they mean, down to characters.
- **Adler-32** (`Adler32`), as section 2.2 of RFC 1950 defines it.

## Where the code falls short

Six properties one might expect do not hold of the code. Each has a failing input in the table
below, beside the condition under which the property does hold.

- The iterator of cg_merge needs as many stack slots as the tree's left depth, and there are 32.
  A balanced tree with 9227464 entries can need 33, and no smaller one can. The comment at
  cachegrind/cg_merge.c:992 expects 2**32 entries to fit; the model follows the code.
- The quicksort of callgrind/dump.c moves the wrong number of elements at line 974 when there are
  fewer smaller elements than leading ties. Its output is then not sorted.
- Callgrind's write-back cache compares tags masked to 32 bits and clears them to 0, so it takes
  some blocks for others, or for empty ways. Blocks below the set span other than block 0, and
  blocks 2^32 bytes apart, are such blocks.
- With a single set, a reference that straddles two lines touches one tag twice, where the plain
  cache loads two blocks.
- The counter walk of a dump recognises only one side exit per instruction. With two at the same
  instruction it reports executions that did not happen.
- Printed profiles show counts as signed numbers, which the parser does not read. A profile with a
  count, line number or sum of 2^63 or more is refused when it is read back.

Besides, the context code dereferences the empty bottom of the function stack if the very first
function run belongs to a group (callgrind/context.c:289); the model asks for group 0 there.

## Model

| member | source | states |
|---|---|---|
| AvlTree.InsertIsUpdate | cachegrind/cg_merge.c:1062-1157 | Insertion into an ordered, balanced tree yields the old map with the key updated, and reports the value the key had before, if any. (Growth and balances are in the rows of `AvlTree.Insert` and `AvlNodes.InsertWrk`.) |
| AvlTree.Insert | cachegrind/cg_merge.c:1062-1157 | The result is balanced with every stored balance exact; growth is reported if and only if the height rose by one, and then a tree that was not empty keeps its root node, whose balance is not 0. |
| AvlTree.InsertKeeps | cachegrind/cg_merge.c:1062-1157 | Insertion keeps key order and distinct nodes, and links the new node exactly when the key was absent. |
| AvlTree.RemoveIsRemoval | cachegrind/cg_merge.c:1162-1286 | Removal yields the old map without the key, whether or not the key was there. (Heights and balances are in the rows of `AvlTree.Remove` and `AvlTree.RemoveRoot`.) |
| AvlTree.Remove | cachegrind/cg_merge.c:1162-1250 | The result is balanced with exact balances, and the flag is set if and only if the height fell, which it does by exactly one. |
| AvlTree.RemoveRoot | cachegrind/cg_merge.c:1252-1286 | The same for removing the root, where the root slot is overwritten by a neighbour taken from the deeper side. |
| AvlTree.RemoveKeeps | cachegrind/cg_merge.c:1162-1286 | Removal keeps key order and distinct nodes, and unlinks exactly the node the key was found at. |
| AvlTree.RemoveRootConcats | cachegrind/cg_merge.c:1252-1286 | Removing the root leaves the left walk followed by the right walk. |
| AvlTree.NeighbourFound | cachegrind/cg_merge.c:1267-1283 | The neighbour that replaces the root is found again by its key, on the side it is removed from. |
| AvlTree.FindIsLookup | cachegrind/cg_merge.c:1288-1300 | The search path finds a key if and only if the map holds it, with the value the map gives. |
| AvlTree.CopyKeeps | cachegrind/cg_merge.c:1341-1390 | A node-by-node copy is ordered and balanced, and its map is the old one with each value copied. |
| AvlTree.HeightNeedsEntries | cachegrind/cg_merge.c:992-1002 | A balanced tree of height h holds at least Fib(h + 2) - 1 entries. |
| AvlTree.SmallTreesFitStack | cachegrind/cg_merge.c:992-1002 | A balanced tree of fewer than 9227464 entries has left depth, and height, at most 32. |
| AvlTree.BoundIsTight | cachegrind/cg_merge.c:992-1002 | There is an ordered, balanced tree of 9227464 entries whose left depth is 33. |
| AvlNodes.InsertWrk | cachegrind/cg_merge.c:1062-1157 | On pointer nodes, rotating in place and without storing the child back when it reports growth, the nodes end up as the pure insertion's tree, with its growth report and previous value; on growth of a tree that was not empty the root pointer is unchanged. Nothing outside the tree and the new node changes. |
| AvlNodes.RemoveWrk | cachegrind/cg_merge.c:1162-1250 | The nodes end up as the pure removal's tree, with its height report; keys and values of nodes are untouched. |
| AvlNodes.RemoveRootWrk | cachegrind/cg_merge.c:1252-1286 | The same for removing a root: the neighbour's node takes over the slot, and the mutual recursion with the row above ends. |
| AvlNodes.FindNode | cachegrind/cg_merge.c:1288-1300 | The loop over pointers finds the node the pure search finds, or null. |
| AvlNodes.Dopy | cachegrind/cg_merge.c:1341-1390 | The copy has the shape, keys and balances of the original and copied values, and consists of fresh, distinct nodes. |
| WordFMs.WordFM.Add | cachegrind/cg_merge.c:1448-1462 | The bindings become the old ones with the key updated; a key already present links no node. |
| WordFMs.WordFM.Lookup | cachegrind/cg_merge.c:1480-1490 | The value bound to the key, or none. |
| WordFMs.WordFM.Delete | cachegrind/cg_merge.c:1465-1477 | The bindings lose exactly the key, the value it had is reported, and exactly its node is unlinked. |
| WordFMs.WordFM.Dopy | cachegrind/cg_merge.c:1548-1571 | The copy binds every key to its copied value, has nodes and stacks of its own, and leaves the original as it was. |
| WordFMs.WordFM.InitIter | cachegrind/cg_merge.c:1499-1505 | If the left depth is at most 32, all entries in key order remain to be visited. |
| WordFMs.WordFM.NextIter | cachegrind/cg_merge.c:1509-1541 | Each call yields the next remaining entry and leaves the rest, or yields nothing for good; the stack stays within its slots. |
| WordFMs.WordFM.Visit | cachegrind/cg_merge.c:1513-1539 | One turn of the iterator's loop changes the stack as `Turn` does, and yields the next entry or makes progress. |
| WordFMs.WalkNeedsLeftDepth | cachegrind/cg_merge.c:1302-1339 | Over the whole walk of any tree, the highest number of stack slots in use is exactly the tree's left depth, so the walk fits if and only if that is at most 32. |
| WordFMs.SmallWalksFit | cachegrind/cg_merge.c:992-1002 | The walk of a balanced tree with fewer than 9227464 entries fits the stack. |
| WordFMs.LargeWalkOverruns | cachegrind/cg_merge.c:992-1002 | Finding: the walk of some ordered, balanced tree with 9227464 entries needs a 33rd slot, at which the source asserts. |
| Comparators.FileFnOrder | cachegrind/cg_merge.c:441-449 | Comparing file names and then function names by strcmp is a total order, as the map demands. |
| Comparators.LineOrder | cachegrind/cg_merge.c:451-458 | So is the comparison of line numbers. |
| Comparators.KeysInOrder | cachegrind/cg_merge.c:441-458 | Keys ascend in the dictionary order of file names and, within a file, of function names; line numbers from the smallest. |
| Lru.HoldsMostRecent | cachegrind/cg_sim.c:87-121 | After any trace that never names block 0, a set holds its most recently used distinct blocks in order, padded with zeros. |
| Lru.CacheHoldsMostRecent | cachegrind/cg_sim.c:52-121 | The same for every set of a cleared cache: it holds the most recent of the blocks that map to it. |
| Lru.SetsAreIndependent | cachegrind/cg_sim.c:87-121 | What a set holds depends only on the blocks of the trace that map to it. |
| Lru.MoreWaysNeverHurt | cachegrind/cg_sim.c:124-161 | With equal sets and line size, the smaller-associativity cache stays a prefix of the larger over any reference stream, and the larger never has more misses. |
| Lru.AtMostTwoBlocks | cachegrind/cg_sim.c:124-161 | A reference no longer than a line touches one block or two neighbours, so the branch for more is dead. |
| CacheSim.CacheT.SetrefIsMiss | cachegrind/cg_sim.c:87-121 | The in-place shifting of the tag array reports a miss exactly when the set lacks the block, and moves the block to the front of its set alone. |
| CacheSim.CacheT.RefIsMiss | cachegrind/cg_sim.c:124-161 | For one line or two, the reported miss and the new tags are those of the plain reference. |
| CgSim.NoXIsGen | cachegrind/cg_sim.c:176-232 | When the no-crossing test passes, the one-block instruction path and the general one leave the same caches and misses. |
| CgLaws.RefLaw | cachegrind/cg_sim.c:124-161 | A reference makes its one or two blocks the most recent and misses if and only if one of them was not in its set. |
| CgLaws.HelpersObey | cachegrind/cg_main.c:304-470 | For every helper call: a data helper raises one of the line's read and write counters by one access, by one first-level miss if and only if a touched block is missing in D1, and by one last-level miss if and only if moreover one is missing in LL; LL sees the reference only then. Instruction helpers do the same to I1 and the instruction counter for each of their instructions, branch helpers count once and teach the predictor the branch's outcome. Nothing else changes. |
| CgHelpers.Simulator.Execute | cachegrind/cg_main.c:304-470 | Each helper call, over tag arrays changed in place, takes the specified step and obeys the laws of the row above. |
| Instrument.BatchingPreservesMeaning | cachegrind/cg_main.c:693-1337 | For every block, atom values, exit taken and queue capacity of at least 1, running the emitted statements and batched helper calls leaves the caches, counters and predictors as running the block's events one at a time, with every instruction read on the general path; no emitted call breaks the helpers' assertions. |
| Instrument.NothingLeftToMerge | cachegrind/cg_main.c:693-873 | No two neighbouring calls of a batch could have been one: a single special-path read is not followed by its data access or another such read, nor two such reads by a third. |
| BlockLaws.ReferenceTouches | cachegrind/cg_main.c:1094-1337 | The block's one-at-a-time reference touches, in order, what its statements say: each mark reads its instruction, loads, stores, guarded accesses whose guard holds, modifying helpers and compare-and-swaps access their address with sizes cut to the shortest line, a write right after a read of the same place is not counted again, side exits and a closing indirect jump inform the predictors, and an exit taken ends it. |
| BlockLaws.EmittedSimulates | cachegrind/cg_main.c:693-1337 | For every block, atom values, state and queue capacity, running the emitted code leaves by a side exit if and only if one of the block's is taken, goes through states that obey the helper laws for each touch of the statements, raises each line's five access counters by the number of its touches, and shows I1 and D1 exactly the addresses and sizes touched. |
| BlockLaws.OriginalsKept | cachegrind/cg_main.c:1060-1337 | The emitted code contains all of the block's own statements, in their order. |
| CgStates.AllReachable | cachegrind/cg_main.c:875-994 | Every sequence of requests of one instruction leaves a well-formed queue: all sizes are in range, and a data access right after an instruction read belongs to that instruction. |
| CgStates.CgState.ChooseCall | cachegrind/cg_main.c:693-860 | From a well-formed queue, the helper chosen at an event and the events it covers are the specified ones; the two same-instruction assertions of the source are proved on the way. |
| CgStates.CgState.FlushEvents | cachegrind/cg_main.c:693-873 | The loop over the event array emits the calls of the queue's batching, in order, and empties the queue. |
| CgStates.CgState.AddDw | cachegrind/cg_main.c:914-949 | A write is joined to the read just before it when instruction, size and address are the same, and queued otherwise, flushing a full queue first. |
| CgStates.CgInstrument | cachegrind/cg_main.c:1040-1337 | The whole pass emits the compiled block and uses one instruction record for each mark; for any state and atom values its output does what the block's statements touch (`BlockLaws.EmittedSimulates`), and it keeps the statements in order. |
| WriteBack.DirtyMeansWritten | callgrind/sim.c:352-418 | In the abstract cache, a line is dirty if and only if it was written since it was installed. |
| WriteBack.MissDirtyMeansWritten | callgrind/sim.c:352-418 | A dirty miss is reported if and only if a full set lacks the block and evicts a line written since it was installed. |
| WriteBack.RefWbRefines | callgrind/sim.c:352-418 | On in-range references, the tag words with the flag in bit 0 follow the abstract lines: same result, and the new words encode the new lines. |
| WriteBack.WriteBackHitsLikePlain | callgrind/sim.c:246-418 | After every stream of in-range references, an in-range reference hits the write-back cache if and only if it hits the plain one. |
| WriteBack.MissDirtyExactly | callgrind/sim.c:352-418 | After every stream of in-range references, a dirty miss is reported if and only if one of the blocks touched evicts a line written since it was installed. |
| WriteBack.LowAddressesDiffer | callgrind/sim.c:185 | Finding: a reference to a line below the set span, other than the first, hits the cleared write-back cache and misses the plain one. |
| WriteBack.HighAddressesDiffer | callgrind/sim.c:185 | Finding: after any in-range single-line reference, the address 2^32 above it hits the write-back cache and misses the plain one. |
| WbLimits.AgreeExactly | callgrind/sim.c:246-418 | For any set of blocks, the two caches agree on every stream of references to them if and only if different blocks of one set have different masked tags and only block 0 has the tag of an empty way. With one set, the streams are of references within a line. |
| WbLimits.EmptyTagDiffers | callgrind/sim.c:185 | Finding: a block other than 0 with tag 0 makes the caches differ on its first reference. |
| WbLimits.SharedTagDiffers | callgrind/sim.c:185 | Finding: two blocks of a set with the same masked tag make the caches differ on the second one. |
| WbLimits.OneSetStraddles | callgrind/sim.c:283-418 | Finding: with one set, after any in-range reference across two lines from a cleared cache, the second line hits the plain cache and misses the write-back one. |
| WbArray.SetrefWb | callgrind/sim.c:352-382 | The array form, shifting tags in place and saving the flag, has the specified result and new tags. |
| WbArray.RefWbIn | callgrind/sim.c:384-418 | So has a whole reference, one line or two. |
| CacheUse.PointersAlwaysSound | callgrind/sim.c:673-930 | In every state of every run, the low bits across the ways of each set of both levels are a permutation of the slots, and each way's record is for a memory line whose tag is that way's tag. |
| CacheUse.RecordsTravel | callgrind/sim.c:673-829 | A reference moves each way's use record along with its tag: the set's contents, read through the pointers, change as an LRU front move. |
| CacheUse.VictimFilled | callgrind/sim.c:935-972 | When the line at address 0 misses, for which no link to the next level is looked up, the slot it reuses already holds one. |
| CacheUse.CacheUseHitsLikePlain | callgrind/sim.c:673-829 | After every run of in-range reads, the cache-use simulation hits the first level if and only if the plain cache does. |
| UseLaws.OutcomeLikePlain | callgrind/sim.c:673-930 | After every run of reads whose lines the tags of both levels tell apart, a read is a first-level hit if and only if no line of it is missing in the plain first-level cache, and goes to memory if and only if a line missing there is also missing in a plain last-level cache fed exactly the lines the first level missed. |
| UseLaws.OutcomeInRange | callgrind/sim.c:673-930 | In particular for every run of reads past the first span of both levels and below 4 GiB. |
| UseLaws.RecordsCountUses | callgrind/sim.c:673-829 | After every such run, each first-level record in use belongs to one line, its count is the number of references to the line since it was brought in, and its mask the union of their masks. |
| UseLaws.EvictionCharged | callgrind/sim.c:846-978 | A line that is present leaves the last level alone. Otherwise the oldest slot starts a new count, what it had counted is added to the last-level record it is linked to if costs are collected, the new line is linked to its own last-level slot, which starts from zero if the line was not there, and no other last-level record changes. |
| UseArray.UseSim.Read | callgrind/sim.c:673-935 | Both levels, their tag words and use records changed in place, take the step and report the outcome that the four rows above speak of. |
| ShadowStack.PopUndoesEnter | callgrind/callstack.c:184-368 | Popping right after a counted call gives back exactly the state before it: frames, context, function stack, active counts and collect flag. |
| ShadowStack.PopUndoesSkip | callgrind/callstack.c:184-368 | The same for a skipped call. |
| ShadowStack.UnwindExact | callgrind/callstack.c:405-435 | Unwinding pops the L frames below the stack pointer and min(E, max(0, k - L)) of the E frames level with it. |
| BbSetup.MatchPopsFindsInnermost | callgrind/bbcc.c:639-670 | The number of frames a level return leaves ends at the innermost level frame that returns to this address, and is 0 if there is none. |
| BbSetup.ReturnUnwinds | callgrind/bbcc.c:639-780 | What a return then pops: every frame below the stack pointer if there are any, else those matched. |
| BbSetup.EveryStateSound | callgrind/bbcc.c:561-860 | In every state of every run: recorded stack pointers never increase towards the top, each function's active count is its number of counted frames plus one if it is the bottom function, and every counted frame saves a place of its own context in the function stack. |
| BbSetup.CallersUntouched | callgrind/bbcc.c:561-860 | While a run pops no more than the frames above a level, undoing those frames gives the same state at each point. |
| BbSetup.BalancedRunRestores | callgrind/bbcc.c:561-860 | A run that stays above the frames it began with and returns to that depth restores the whole state: context, function stack, active counts and collect flag. |
| BbSetup.TopActive | callgrind/bbcc.c:827-850 | The function of the current context always has an active count above 0, so the recursion level read from it is in range. |
| CallLaws.SetupObeys | callgrind/bbcc.c:561-860 | One block execution, by the exit taken: a return that leaves the top frame's stack area pops the frames below the stack pointer, one to where a level frame was called pops up to the innermost such frame, and both push nothing. Any other exit pops the frames below the stack pointer; if there are none and it is a call, an unmatched return, or leads to an entry or another section or object, one frame is pushed, with given arc, stack pointer and return address. Context, function stack, skip state and recursion level are given as well. |
| CallLaws.FirstObeys | callgrind/bbcc.c:561-860 | The first block of all puts its function at the bottom of the function stack, active once, with no frame. |
| CallLaws.JumpInside | callgrind/bbcc.c:672-725 | A jump or fall-through to no entry, within a section and object, with no frame below the stack pointer, changes nothing but the current block. |
| CallLaws.CollectAlwaysRight | callgrind/callstack.c:115-174 | In every state of every run, collection is as it was at the start, switched once for each toggle function that is active by a call and is not the bottom function. |
| CallCost.AddDiffCost | callgrind/events.c:375-398 | The loop adds now minus then to the sum, word by word with wrap-around, brings then up to date, and reports whether anything changed. |
| CallCost.InclusiveCostConserved | callgrind/callstack.c:184-368 | For every arc and event, over every sequence of spending, pushes, pops, settlings and prints: cost printed, plus cost held, plus what its open calls owe, grows (modulo 2^64) by exactly the cost spent while calls of the arc were open. |
| CallCost.CallsConserved | callgrind/dump.c:640-662 | Calls printed plus calls held grow by exactly the calls pushed. |
| CallCost.DumpShowsAll | callgrind/dump.c:640-662 | After settling the active calls and printing an arc, nothing is held or owed, what has been printed is all the arc ever had (modulo 2^64), and if there was cost to print all its calls are printed too. |
| CostRuns.PrintedHeldAndOwed | callgrind/bbcc.c:561-860 | Over every run of block executions with dumps in between, from the start: for every arc, printed plus held plus owed cost is what the executed blocks cost while frames of the arc were on the shadow stack, modulo 2^64. |
| CallStacks.CallStack.EnsureStackSize | callgrind/callstack.c:86-110 | Growing the entry array keeps every frame, the spare entry above the top and all costs. |
| CallStacks.CallStack.PushCxt | callgrind/context.c:272-322 | The context push, with its growing function stack, has the specified effect on the control state and none on costs. |
| CallStacks.CallStack.PushCallStack | callgrind/callstack.c:184-268 | Pushing a frame changes the control state as a call or skipped call does, and the account as opening its arc. |
| CallStacks.CallStack.PopCallStack | callgrind/callstack.c:312-368 | Popping changes the control state and the account as leaving the top call does. |
| CallStacks.CallStack.UnwindCallStack | callgrind/callstack.c:405-435 | The loop unwinds as specified, keeps the invariant, counts its pops, and settles each call left. |
| CallStacks.CallStack.SetupBbcc | callgrind/bbcc.c:561-860 | One block execution takes the specified step of stack, current block and costs, obeys the laws of `CallLaws.SetupObeys` or `CallLaws.FirstObeys`, and is a step of the runs above, or it stops at an underflow with the stack unchanged. |
| CallStacks.CallStack.SettleStep | callgrind/dump.c:1033-1058 | Settling the active calls at a dump is a step of the runs above. |
| CallStacks.CallStack.PrintStep | callgrind/dump.c:640-662 | Printing an arc and zeroing it is a step of the runs above. |
| ArcTable.RehashKeeps | callgrind/jumps.c:81-130 | Rehashing keeps the table canonical (each arc once, in its own chain, one per key) and holds exactly the arcs it held. |
| JccHashes.JccHash.GetJcc | callgrind/jumps.c:184-232 | The arc returned is for the triple asked, an old one or a fresh one; nothing else is added, and the shortcuts through the last arcs of either end do not change the answer. |
| JccHashes.JccHash.GetAll | callgrind/jumps.c:184-232 | Over any sequence of lookups, through resizes, the same triple always gets the same object and different triples different ones, and an arc already there is the one returned. |
| JccHashes.JccHash.Resize | callgrind/jumps.c:81-130 | Relinking every node in place leaves the chains of the rehashed table, of size 2n + 3. |
| JccHashes.JccHash.OneArcPerKey | callgrind/jumps.c:134-232 | In a valid table two arcs are the same object if and only if they have the same triple. |
| QSort.QuickPermutes | callgrind/dump.c:909-1009 | The result is a permutation of the input. |
| QSort.PartsShrink | callgrind/dump.c:909-1009 | The two parts sorted next are together shorter than the input, as the pivot is in neither: the recursion ends. |
| QSort.SortsExactlyWhenSmooth | callgrind/dump.c:909-1009 | The result is sorted if and only if no call, here or deeper, has some smaller elements but fewer than the ties gathered at the front, which is when line 974 moves too few. |
| QSort.SortsWithoutTies | callgrind/dump.c:909-1009 | With a consistent comparator and no ties the result is sorted. |
| QSort.TiesCanBreakIt | callgrind/dump.c:973-974 | Finding: six equal elements followed by a smaller one are not sorted. |
| QSortArray.Qsort | callgrind/dump.c:909-1009 | The in-place sort of a part of an array leaves there what the specified sort yields, and leaves the rest alone. |
| ExecCount.WalkCountsExecutions | callgrind/dump.c:699-763 | With side exits at increasing instructions, the walk's counter at each instruction is the number of executions that ran it. |
| ExecCount.DumpAgreesExactly | callgrind/dump.c:699-763 | The dumped counts sum to the instructions counted live, for all executions, if and only if every exit is at the end or is one the walk gets to. |
| ExecCount.IncreasingAgrees | callgrind/dump.c:699-763 | With side exits at increasing instructions and the end at the last one, the dumped counts sum to the instructions counted live. |
| ExecCount.SameInstructionMissed | callgrind/dump.c:756-763 | Finding: with two side exits at one instruction and one execution leaving by the second, the dump says 3 where 1 was executed. |
| ExecCount.BlockCounts.Count | callgrind/bbcc.c:598-613 | Counting an execution adds to the total counter what the execution ran. |
| ExecCount.BlockCounts.Dump | callgrind/dump.c:699-828 | The walk over the counters gives the specified counts and clears every counter. |
| Profile.MergeAdds | cachegrind/cg_merge.c:766-846 | For every file, function and line, the merged counts are the sums modulo 2^64 of the two sides, and a line is present if and only if it is on a side. |
| Profile.MergeCommutes | cachegrind/cg_merge.c:766-846 | The order of two profiles does not matter. |
| Profile.MergeAssociates | cachegrind/cg_merge.c:766-846 | Nor does their grouping. |
| Profile.OrderIrrelevant | cachegrind/cg_merge.c:766-846 | Merging the same profiles in any order gives the same profile. |
| ProfileSums.AddLineBalanced | cachegrind/cg_merge.c:549-602 | Adding one line of counts keeps the summary equal to the column sums. |
| ProfileSums.MergeBalanced | cachegrind/cg_merge.c:766-846 | So does merging two profiles. |
| ProfileMerge.AddCounts | cachegrind/cg_merge.c:521-529 | The loop over two count vectors leaves their word-wise wrapped sum in the first. |
| ProfileMerge.ProfileFile.AddCountsToMap | cachegrind/cg_merge.c:530-547 | The counts are added at their line; the vector is kept by the profile exactly when the line is new. |
| ProfileMerge.ProfileFile.HandleCounts | cachegrind/cg_merge.c:549-602 | A line with the right number of counts is added to map and summary, keeping them consistent; any other is refused without a change. |
| ProfileMerge.ProfileFile.MergeFrom | cachegrind/cg_merge.c:766-846 | Profiles with the same events line merge as the pure merge, summaries add, and consistency is kept; otherwise nothing changes. The source keeps its contents and shares no count vector with the destination. |
| ProfileText.ReadsBack | cachegrind/cg_merge.c:462-480 | Printed digits followed by no digit read back as the number. |
| ProfileText.PrintThenParse | cachegrind/cg_merge.c:396-763 | Parsing the printed text of a well-formed profile with numbers below 2^63, its map listed in any order, returns that profile. |
| ReadingLaws.LinesAre | cachegrind/cg_merge.c:156-190 | A text is read as its lines, each up to its first NUL; what stands after the last newline is a line if it is not empty. |
| ReadingLaws.NumbersExactly | cachegrind/cg_merge.c:462-519 | Reading numbers to the end of a line succeeds if and only if the line is decimal numbers with blanks (six kinds) around them, and gives their values modulo 2^64. |
| ReadingLaws.EventsAreStarts | cachegrind/cg_merge.c:671-681 | The number of events is the number of places where a blank is followed by an upper- or lower-case letter. |
| ReadingLaws.NamesCounted | cachegrind/cg_merge.c:671-681 | A list of names that begin with a letter and hold no blank, each after a blank, counts as that many events. |
| ReadingLaws.NamedRoundTrip | cachegrind/cg_merge.c:396-763 | A profile described by its list of event names prints to a text that parses back to it. |
| ReadingLaws.AcceptedExactly | cachegrind/cg_merge.c:610-763 | A file is accepted if and only if it is description lines, a command, an events line naming at least one event, lines of data in any arrangement, and last a summary line that spells the sums of all counts. The counts it gives for a file, function and line are then the sums, modulo 2^64, of the count lines with that number under the nearest file and function names before them. |
| ProfileLimits.PrintParseExactly | cachegrind/cg_merge.c:396-763 | Finding: of any otherwise well-formed profile of 64-bit numbers, the printed text parses back to it if and only if all numbers printed are below 2^63, and is refused otherwise. |
| ProfileReader.ParseFile | cachegrind/cg_merge.c:610-763 | The reader's loops over characters accept exactly the texts of `ReadingLaws.AcceptedExactly` and build the specified profile, in fresh storage, with its summary equal to its column sums. |
| ProfileReader.SplitUpCountsLine | cachegrind/cg_merge.c:486-519 | A counts line is split as specified, or refused if it has too few numbers or anything after them. |
| Adler32.Adler32 | auxprogs/valgrind-di-server.c:247-365 | For every starting checksum and buffer, on the one-byte, short, block and tail paths, the result is the byte-at-a-time checksum modulo 65521; a null buffer gives 1. Every 32-bit sum is in range. |
| Adler32.BlockFits | auxprogs/valgrind-di-server.c:247-365 | No sum over a block of 5552 bytes overflows 32 bits. |
| Adler32.ChecksumSums | auxprogs/valgrind-di-server.c:247-365 | The low half of the checksum is the start plus all bytes, the high half the start plus every value the low half takes on, both modulo 65521. |
| Adler32.ChecksumConcat | auxprogs/valgrind-di-server.c:247-365 | Checksumming in pieces gives the checksum of the whole. |

## Left out

- Sockets, polling, compression, tables, file access and launchers; debug-info lookup; the name-pattern trie of callgrind/clo.c; branch predictors, which are opaque functions here.
- Construction of VEX statements: a block is a list of abstract statements whose addresses are atoms with fixed values.
- Instrument.BatchingPreservesMeaning: covers instructions no longer than the shortest cache line; the source also lets through a cache-flush request longer than that.
- Wrap-around at the top of memory.
- Cache geometry: masks and shifts are written as division and remainder, as sets and line sizes are powers of two. The cost counters of cachegrind are unbounded numbers.
- WbLimits.AgreeExactly: with a single set it covers references within one line; across two lines `WbLimits.OneSetStraddles` gives the failure.
- Cost attribution of the cache-use simulation (AcCost, SpLoss and the instruction charged); a use mask is a set of bits. Hardware prefetch.
- Signal handlers, thread switching, call stack underflow (`handleUnderflow`, reported as an outcome) and `skip_direct_recursion`.
- The text of callgrind dumps and the order of cost centres in it.
- Context interning and the lookup of cost centres: the context a lookup returns is a parameter of the step. The cost accumulated by skipped calls is not tracked.
- BbSetup.EveryStateSound: asks that the first function run has no group; for one that has, the source dereferences a null pointer.
- Cost vectors are values, so sharing between two of them is not modelled; event-set construction and masks.
- CallStacks.CallStack.SetupBbcc: the arc's held cost is a map from arcs; that one arc object stands for one triple is proved of the arc table on its own.
- The resize test of the arc table multiplies by 10 in 32 bits; the model's numbers do not wrap there.
- ProfileMerge.ProfileFile.MergeFrom: the two maps of a profile are maps over heap vectors, not nested `WordFM` objects; `Comparators` and `WordFMs` show that a `WordFM` over these keys is such a map, and iteration visits keys in any order rather than ascending.
- ProfileReader.ParseFile: a file that ends right after its description lines makes the source dereference a null pointer; the model refuses it like any other malformed file.
- Failing allocation and read errors, and the freeing of memory.
- Adler32.Adler32: a null buffer of length 1, which the source would read.
