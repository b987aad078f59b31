# Verified models of e2factory's Lua runtime, hashes and poll loop

e2factory ships its own Lua 5.1.3 interpreter, the SHA-1 and SHA-256 code that its checksums
rest on, and a poll loop that collects the output of the tools it runs. This project models
the parts of these with the most state and branching, and proves what they are for.

| area | modules | what is modelled |
|---|---|---|
| garbage collector | `Gc*` | incremental tri-colour collection with barriers, open upvalues and string interning, as a state machine over collector steps and program actions, and as a class that works in place |
| stack | `StackMove` | moving a thread's stack under its pointers and open upvalues |
| tables | `Table*` | the chained scatter table with Brent's variation, its rehash, `next` and the length operator |
| code generator | `LuaVm`, `Code*` | jump lists, short-circuit logic, negation and comparisons, in place and with lists threaded through the code, against the virtual machine that runs it |
| sort | `Sort` | the in-place quicksort of `table.sort` |
| patterns | `Pattern*` | the backtracking matcher of `string.find` |
| quoting | `Quote*` | the `%q` format against the lexer that reads it back |
| precompiled chunks | `Dump*` | dumping and loading of functions, over a stream that comes in pieces |
| hashes | `Sha*`, `WordBits` | both hash contexts against FIPS 180-4, and its constants and functions on words |
| poll loop | `PollLoop` | `e2lib.callcmd_poll` with line buffering |

Code that changes things in place is a class or a method with the source's loops, proved
against functions and predicates on values; code that only computes is functions and lemmas.
The main results are statements about those functions for all inputs or all runs.

## How the larger results are built

* **Collector.** `GcInvariant.Inv` collects what every phase keeps. `GcMark` has the mark phase,
  `GcCycle` the atomic phase, `GcSweep` and `GcUpval` the sweep with its open upvalues,
  `GcStrings` the string table, `GcMutator` and `GcAlloc` what a program does meanwhile, `GcStep`
  and `GcFull` the collector's own steps. `GcStore` says what the actions of a program do. `GcRun` interleaves all of it, from the state `GcOpen`
  builds. `GcRing` is the ring of open upvalues as linked nodes. `GcCollector` is the
  code in place; each of its methods computes the transition of the same name.
* **Tables.** A ghost list `order` holds the used nodes chain after chain, so links are acyclic
  and lead only to the next node. `Table.Inv` says that every key is reached from its main
  position through it.
* **Code generator.** The code under construction has holes: jumps without a target. `LuaVm.Run`
  stops at a hole, `CodeMeaning.Means` says where a run of an unfinished expression stops, with
  what value and what the last jump carries, and each operation of the generator keeps this.
  There the lists are kept beside the code. `CodeFlow.Flow` is the course that the code of an
  expression takes, and `CodeExact` compares it with what the expression means. `CodeState` is
  the generator in place, with lists threaded through the pending jumps; `CodeThreads.Rep` ties
  the two, and `CodeRun` puts generator and interpreter together. `CodeOrder` says what comparisons
  and tests mean, and `CodeOperands` that operands fit their fields.
* **Patterns.** The specification is declarative: a sequence of repetition counts leads through
  the items of a pattern to an outcome (`Pattern.Follow`), counts are ordered by what is tried
  first (`Pattern.Before`), and the matcher returns the first outcome. `PatternLaws` reads this off
  the text of patterns: which characters a class has, and what a class with its suffix finds.
* **Chunks.** `DumpFormat` lays down the format by offsets, apart from the dumper and the loader, and
  proves that the loader accepts this format and no other.
* **String literals.** `QuoteEscapes` says what each way of writing a character denotes.
* **Hashes.** `ShaWords` proves that the constants are the bits of square and cube roots of primes.

## Where the code differs from what it says

* The comment on `computesizes` asks for at least half of the slots to be in use; the code asks
  for more than half, and so does `TableSizes.BestSize`.
* `string.find` skips the pattern matcher when a pattern has no special characters, but a closing
  bracket is not among these although the matcher treats it as one, and the test stops at a NUL.
  `PatternFind.PlainAgrees` and `PatternFind.PlainDiffers` together say exactly when the shortcut
  agrees with the matcher.
* A literal that is entered by pending jumps takes them along into its own list. If such a jump
  carries a value, an expression such as `((x or false) and true) or false` gets the wrong value:
  `CodeTheorems.WrongValue`. `CodeFlow.Flow` follows, on the expression and without running code,
  which value is held where, and `CodeTheorems.ExpressionRuns` proves that the code does just that.
  `CodeTheorems.ExpressionExact` says for every expression, register contents and world exactly when
  the code is right: unless a literal on the left of an `and` or `or` decides while another value is
  held, and the expression or an operand of a comparison is left that way. As a condition, and under
  a negation, the value does not matter (`CodeTheorems.ConditionExact`).
* Without `strip` a dumped function comes back the same only if every function in it has a
  source; otherwise the missing names are those of the enclosing function or `=?`
  (`DumpRoundTrip.SameIfSourced`).

## Model

| member | source | states |
|---|---|---|
| `GcRun.NeverFreesReachable` | lua/lua-5.1.3/src/lgc.c:556-607 | in every interleaving of collector steps with program actions (allocation, guarded stores, interning, opening and closing upvalues, resuming threads), what a root can reach is in the heap, is not dead, and is not freed by the next action, whichever it is |
| `GcRun.CollectIsInvisible` | lua/lua-5.1.3/src/lgc.c:556-607 | after any run, a collector step leaves everything reachable reachable and with the same contents |
| `GcRun.InternedInEveryRun` | lua/lua-5.1.3/src/lstring.c:75-93 | after any run two strings have equal bytes if and only if they are the same object |
| `GcRun.DoKeepsInv` | lua/lua-5.1.3/src/lgc.c:556-710 | every program action and collector step keeps the whole collector invariant (tri-colour, gray lists, two whites per phase, string table, open upvalues) and frees nothing reachable |
| `GcOpen.InitialInv` | lua/lua-5.1.3/src/lstate.c:70-76 | what lua_newstate and the first half of f_luaopen set up, with the main thread, the table of globals, the registry and an empty string table, satisfies the invariant |
| `GcOpen.NewStateReached` | lua/lua-5.1.3/src/lstate.c:70-81 | the state lua_newstate returns, with all the names that f_luaopen interns and fixes, is reached from there by a run of program actions, so it has the invariant and every theorem about runs holds from it |
| `GcOpen.NamesNeverCollected` | lua/lua-5.1.3/src/ltm.c:30-44 | in every run of every program the names of the events, the reserved words and the message for lack of memory are there, each as one fixed string that is never collected |
| `GcRun.FixedStays` | lua/lua-5.1.3/src/lstring.h:24-24 | in every run, collections included, what was fixed stays in the heap, of the same kind and with the same bytes |
| `GcRing.UpvalRing.Link` | lua/lua-5.1.3/src/lfunc.c:73-76 | linking a new upvalue behind the head of the doubly linked ring gives the ring with it in front |
| `GcRing.UpvalRing.Unlink` | lua/lua-5.1.3/src/lfunc.c:82-86 | unlinking an upvalue gives the ring without it, in the same order |
| `GcRing.UpvalRing.Walk` | lua/lua-5.1.3/src/lgc.c:515-522 | the walk from the head until the head comes again sees exactly the upvalues of the ring, in order |
| `GcRing.UpvalRing.LinkUnlink` | lua/lua-5.1.3/src/lfunc.c:73-86 | linking and unlinking an upvalue gives every reference of the ring back as it was |
| `GcRing.Neighbours` | lua/lua-5.1.3/src/lfunc.c:83-83 | the assertion of the source: the neighbours of every node refer to it |
| `GcRing.OneSequence` | lua/lua-5.1.3/src/lstate.h:91-91 | the references of a ring determine the sequence the collector reads from it |
| `GcRing.OneRing` | lua/lua-5.1.3/src/lstate.h:91-91 | and the sequence determines the references |
| `GcFull.FullGCExact` | lua/lua-5.1.3/src/lgc.c:636-659 | after a full collection started in any phase the heap holds exactly what was reachable or fixed, all of it with unchanged contents and white for the next cycle, in the pause |
| `GcFull.StepProgress` | lua/lua-5.1.3/src/lgc.c:556-607 | outside the pause each step moves to a later phase or leaves strictly less work in the same phase, so a cycle ends |
| `GcFull.MarkAtomicallySound` | lua/lua-5.1.3/src/lgc.c:525-553 | if only reachable objects were marked before, the atomic phase marks only reachable objects |
| `GcMark.MarkAtomicallyComplete` | lua/lua-5.1.3/src/lgc.c:525-553 | once atomic has marked, every root and everything a marked object refers to is marked, although the program ran between the mark steps and stacks and open upvalues have no barrier |
| `GcMark.PropagateMarkKeepsInv` | lua/lua-5.1.3/src/lgc.c:277-320 | traversing the first gray object keeps the mark invariant: no black object refers to a white one, and the gray lists hold exactly the gray objects to be traversed |
| `GcMark.PropagateAllKeepsInv` | lua/lua-5.1.3/src/lgc.c:323-327 | propagateall empties the gray list, terminates, and keeps the mark invariant |
| `GcMark.RemarkUpvalsDone` | lua/lua-5.1.3/src/lgc.c:515-522 | after remarkupvals every gray open upvalue has a marked value |
| `GcMark.ForwardBarrier` | lua/lua-5.1.3/src/lgc.c:662-672 | marking the stored value restores the tri-colour invariant that a store into a black object had broken |
| `GcCycle.AtomicKeepsInv` | lua/lua-5.1.3/src/lgc.c:525-553 | the flip of the current white at the end of atomic turns the mark invariant into the sweep invariant: what survives refers only to what survives |
| `GcStep.SingleStepKeepsInv` | lua/lua-5.1.3/src/lgc.c:556-607 | a single step in any phase keeps the invariant; sweep steps free dead objects only |
| `GcStep.SweepDone` | lua/lua-5.1.3/src/lgc.c:596-603 | when the sweep has passed all of rootgc, every object is white for the next cycle |
| `GcSweep.SweepCurrKeepsInv` | lua/lua-5.1.3/src/lgc.c:407-428 | sweeping one object of rootgc, with the open upvalues of a thread and the closing of those of a dead thread, keeps the invariant and frees only dead objects |
| `GcSweep.CloseCommutes` | lua/lua-5.1.3/src/lgc.c:378-400 | closing the upvalues of a dead thread gives the same state whether the thread is unlinked before or after |
| `GcMutator.SetSlotKeepsInv` | lua/lua-5.1.3/src/lgc.h:86-97 | every guarded store (forward or backward barrier, or an unguarded stack write) puts the value in its slot, leaves every other slot and every root as it was, and keeps the invariant in every phase |
| `GcStore.StoredReachable` | lua/lua-5.1.3/src/lvm.c:134-147 | a value stored in a reachable object is reachable afterwards, through open upvalues too |
| `GcStore.StoredSurvives` | lua/lua-5.1.3/src/lgc.c:636-659 | so a full collection keeps it, with its contents |
| `GcStore.UpvalueStores` | lua/lua-5.1.3/src/lvm.c:447-452 | after a store to an upvalue, open or closed, its value is the one stored |
| `GcStore.ActionMeans` | lua/lua-5.1.3/src/lapi.c:698-727 | what the other actions of a program do: a new object is there, empty, beside the others as they were; a store stores; a stack keeps what is below its top; the coroutine runs; the one metatable is set; the string is fixed |
| `GcMutator.StoreBreaks` | lua/lua-5.1.3/src/lgc.h:86-97 | the store itself breaks the invariant at most at the edge it makes, and not at all where the macros call no barrier |
| `GcUpval.CloseKeepsInv` | lua/lua-5.1.3/src/lfunc.c:96-112 | luaF_close keeps the invariant and the value every upvalue shows, and leaves open exactly the upvalues below the level |
| `GcUpval.LinkGrayUpval` | lua/lua-5.1.3/src/lgc.c:695-710 | linking a closed upvalue that is still gray while marking blackens it and marks its value, restoring the mark invariant |
| `GcFindUpval.FindUpvalKeepsInv` | lua/lua-5.1.3/src/lfunc.c:53-79 | luaF_findupval keeps the invariant, returns an upvalue of that slot that is not dead, and makes a new one if and only if the slot had none |
| `GcStrings.InternUnique` | lua/lua-5.1.3/src/lstring.c:75-93 | interning returns the one string with these bytes, never a dead one, and makes a new one if and only if there was none |
| `GcStrings.ResizeKeepsTable` | lua/lua-5.1.3/src/lstring.c:22-47 | resizing keeps every string, once, in the bucket of its hash at the new size |
| `GcAlloc.InternKeepsInv` | lua/lua-5.1.3/src/lstring.c:75-93 | interning keeps the collector invariant in every phase, also when it revives a dead string or doubles the table |
| `GcAlloc.LinkKeepsInv` | lua/lua-5.1.3/src/lgc.c:686-692 | a new object is current white at the front of rootgc and keeps the invariant, also in the middle of a sweep |
| `GcAlloc.LinkUserdataKeepsInv` | lua/lua-5.1.3/src/lstring.c:96-110 | a new userdata goes right behind the main thread in rootgc and keeps the invariant, on either side of the sweep |
| `GcAlloc.ResizeKeepsInv` | lua/lua-5.1.3/src/lstring.c:22-47 | resizing the string table keeps the collector invariant |
| `GcCollector.GlobalState.MarkValue` | lua/lua-5.1.3/src/lgc.c:69-112 | the recursive marking in place computes the marking function the invariant is proved of |
| `GcCollector.GlobalState.Propagate1` | lua/lua-5.1.3/src/lgc.c:277-320 | propagatemark in place is the step proved to keep the mark invariant |
| `GcCollector.GlobalState.PropagateToEnd` | lua/lua-5.1.3/src/lgc.c:323-327 | the loop of propagateall ends with the gray list empty, in the state of the specification |
| `GcCollector.GlobalState.RemarkOpenUpvals` | lua/lua-5.1.3/src/lgc.c:515-522 | the loop over the ring of open upvalues marks the values of the gray ones |
| `GcCollector.GlobalState.AtomicStep` | lua/lua-5.1.3/src/lgc.c:525-553 | atomic in place is the transition proved complete and sound |
| `GcCollector.GlobalState.SweepWholeList` | lua/lua-5.1.3/src/lgc.c:407-428 | the sweep loop over a list frees exactly the doomed objects of it and recolours the others |
| `GcCollector.GlobalState.SweepRootList` | lua/lua-5.1.3/src/lgc.c:407-428 | the sweep of at most count objects of rootgc is that many sweep steps |
| `GcCollector.GlobalState.CloseUpvalues` | lua/lua-5.1.3/src/lfunc.c:96-112 | the loop of luaF_close is the close of the specification |
| `GcCollector.GlobalState.LinkUpvalue` | lua/lua-5.1.3/src/lgc.c:695-710 | luaC_linkupval in place is the link of the specification |
| `GcCollector.GlobalState.Resize` | lua/lua-5.1.3/src/lstring.c:22-47 | the loops that move strings between buckets give the resized table |
| `GcCollector.GlobalState.Step` | lua/lua-5.1.3/src/lgc.c:556-607 | singlestep in place is the step all run theorems are about |
| `GcCollector.GlobalState.FullCollect` | lua/lua-5.1.3/src/lgc.c:636-659 | luaC_fullgc in place, both loops, is the full collection proved exact |
| `GcCollector.GlobalState.BarrierF` | lua/lua-5.1.3/src/lgc.c:662-672 | if the invariant is broken at most at the edge from the black object to the white value, it holds again after the forward barrier, in every phase |
| `GcCollector.GlobalState.BarrierB` | lua/lua-5.1.3/src/lgc.c:675-683 | the same for the backward barrier of a table |
| `GcCollector.GlobalState.SetField` | lua/lua-5.1.3/src/lgc.h:86-97 | a store puts the value in the slot and changes no other slot and no root; with the barrier its object calls for it keeps the invariant |
| `GcCollector.GlobalState.LinkObject` | lua/lua-5.1.3/src/lgc.c:686-692 | a new object goes to the front of rootgc in the current white |
| `GcCollector.GlobalState.FindUpvalue` | lua/lua-5.1.3/src/lfunc.c:53-79 | the search along the open list in place finds or inserts as the specification does |
| `GcCollector.GlobalState.NewLStr` | lua/lua-5.1.3/src/lstring.c:75-93 | the search along the bucket in place is the interning proved unique |
| `StackMove.Thread.CorrectStack` | lua/lua-5.1.3/src/ldo.c:126-138 | every pointer into the stack is corrected by the distance the stack moved |
| `StackMove.Thread.ReallocStack` | lua/lua-5.1.3/src/ldo.c:141-149 | wherever the stack moves, top, base, calls and open upvalues stay on their slots, no pointer leads out of the stack, and every open upvalue shows the same value |
| `StackMove.Thread.GrowStack` | lua/lua-5.1.3/src/ldo.c:161-166 | a stack that grows has the room asked for and keeps all its slots |
| `TableOps.LuaTable.Get` | lua/lua-5.1.3/src/ltable.c:435-491 | a lookup returns what the table holds as a map |
| `TableOps.LuaTable.Set` | lua/lua-5.1.3/src/ltable.c:494-529 | a store, through newkey and rehash where needed, changes the map at that key and nowhere else, and keeps the invariant of chains and main positions |
| `TableOps.LuaTable.NewKey` | lua/lua-5.1.3/src/ltable.c:399-429 | newkey either inserts the key, changing the map there only, or finds no free node and changes nothing but lastfree |
| `TableOps.LuaTable.InsertColliding` | lua/lua-5.1.3/src/ltable.c:399-429 | on a collision the misplaced key moves to the free node, or the new key does, and every key stays reachable from its main position |
| `TableOps.LuaTable.GetFreePos` | lua/lua-5.1.3/src/ltable.c:382-388 | the free pointer only passes used nodes, so None means that no node is free |
| `TableOps.LuaTable.Find` | lua/lua-5.1.3/src/ltable.c:469-491 | the walk along a chain ends and finds the node of the key if there is one anywhere in the table |
| `TableOps.LuaTable.FindPrevious` | lua/lua-5.1.3/src/ltable.c:409-414 | the walk from the main position of a misplaced key ends at the node linked to it |
| `TableOps.LuaTable.ClearKey` | lua/lua-5.1.3/src/lgc.c:62-66 | clearing the key of an empty entry keeps the invariant and the map, and leaves the dead key in place for next |
| `TableOps.LuaTable.Resize` | lua/lua-5.1.3/src/ltable.c:297-324 | resizing keeps the map, and none of the insertions it makes needs another rehash |
| `TableOps.LuaTable.ReinsertSlice` | lua/lua-5.1.3/src/ltable.c:303-313 | the vanishing slice of the array part moves to the hash part, and nothing else changes |
| `TableOps.LuaTable.ReinsertNodes` | lua/lua-5.1.3/src/ltable.c:317-321 | the old nodes are inserted again from the last to the first, each with its value |
| `TableOps.LuaTable.Rehash` | lua/lua-5.1.3/src/ltable.c:333-349 | rehash keeps the map, gives the array part the largest power of two more than half of whose slots are used, and leaves room for the pending key |
| `TableOps.LuaTable.SetNodeVector` | lua/lua-5.1.3/src/ltable.c:272-294 | a fresh hash part is empty, valid and has room for the requested keys |
| `TableOps.LuaTable.constructor` | lua/lua-5.1.3/src/ltable.c:358-371 | a new table is valid and empty |
| `TableOps.RoomNeeded` | lua/lua-5.1.3/src/ltable.c:333-349 | the size rehash gives the hash part is exactly the number of entries, with the pending one, that do not go to the array part |
| `TableSizes.ComputeSizes` | lua/lua-5.1.3/src/ltable.c:189-208 | the loop over the slices, with its early exits, finds the largest power of two more than half of whose slots are used, and how many keys go there |
| `TableSizes.NumUseArray` | lua/lua-5.1.3/src/ltable.c:222-244 | the counts of the array part are the numbers of keys in each slice between powers of two |
| `TableSizes.NumUseHash` | lua/lua-5.1.3/src/ltable.c:247-260 | the integer keys of the hash part are added to the counts of their slices, each once |
| `TableOps.LuaTable.FindIndex` | lua/lua-5.1.3/src/ltable.c:137-159 | findindex finds the first node with the key, live or dead, if and only if there is one |
| `TableOps.LuaTable.Next` | lua/lua-5.1.3/src/ltable.c:162-179 | next returns the entry after the position of the key, nothing at the end, and the error if and only if the key was never there |
| `TableTraverse.TraversalVisitsOnce` | lua/lua-5.1.3/src/ltable.c:162-179 | a traversal during which values change, are erased and their keys collected reports what the table holds, never a key twice, and every key that has a value all along |
| `TableWalk.Traverse` | lua/lua-5.1.3/src/ltable.c:162-179 | calling next in place from nil to the end, with any stores to present keys, erasures and cleared keys between the calls, ends without an error, reports no key twice, each with its value at that time, and every key that is not erased meanwhile |
| `TableWalk.Modify` | lua/lua-5.1.3/src/ltable.c:494-529 | a store to a key that is there, or the clearing of a key, changes the map as it should and keeps all keys in their places |
| `TableTraverse.LiveIsFirst` | lua/lua-5.1.3/src/ltable.c:137-159 | a key that was live stays the one findindex finds after it dies, even if another node shows the same dead key |
| `TableOps.LuaTable.GetN` | lua/lua-5.1.3/src/ltable.c:560-576 | the length is a border: a present integer key, or zero, followed by an absent one |
| `TableOps.LuaTable.UnboundSearch` | lua/lua-5.1.3/src/ltable.c:532-553 | the doubling search with its linear fallback ends and finds a border |
| `TableRun.Replay` | lua/lua-5.1.3/src/ltable.c:399-529 | after any sequence of stores, erasures and keys cleared by the collector the table holds exactly what a mathematical map holds |
| `TableRun.Answers` | lua/lua-5.1.3/src/ltable.c:469-576 | after any such sequence a lookup answers as the map does, and the length is a border of the map |
| `CodeTheorems.ExpressionExact` | lua/lua-5.1.3/src/lcode.c:390-411 | for every expression of locals, upvalues, literals, not, and, or and comparisons: the register gets the value of the expression after the comparisons it means, unless a literal on the left of an and or or decides while another value is held and the expression or an operand of a comparison is left that way; the condition is read off the expression, the registers and the world before the run |
| `CodeTheorems.ExpressionRuns` | lua/lua-5.1.3/src/lcode.c:390-411 | without any condition the code runs to its end, and the target register and the comparisons are those of the course of the expression, a function of the expression that runs no code; no register below is touched |
| `CodeExact.FlowExact` | lua/lua-5.1.3/src/lcode.c:718-789 | the yield and the comparisons of a course are those the expression means if and only if it is neither left with the value of something else nor has an operand of a comparison that is |
| `CodeExact.FlowIs` | lua/lua-5.1.3/src/lcode.c:718-789 | a course whose comparisons get the values of their operands has the truth and the comparisons of the expression; any other makes a comparison that the expression does not mean |
| `CodeExact.AstrayIs` | lua/lua-5.1.3/src/lcode.c:567-591 | a course brings another value exactly if a literal on the left of an and or or decided while that value was held |
| `CodeFlow.EndValue` | lua/lua-5.1.3/src/lcode.c:539-591 | a course that arrives at the end of a literal or constant has that value there, and one that arrives at a test a boolean |
| `CodeTheorems.ValueExact` | lua/lua-5.1.3/src/lcode.c:567-591 | the comparisons are right if and only if no operand of one is left with the value of something else, and then the register is wrong if and only if the expression is left so |
| `CodeTheorems.ExpressionCorrect` | lua/lua-5.1.3/src/lcode.c:390-411 | if by its text no run can leave the expression or an operand of a comparison with the value of something else, the value of the expression is in the target register, after the comparisons in the order the language prescribes |
| `CodeTheorems.ConditionCorrect` | lua/lua-5.1.3/src/lcode.c:539-564 | as a condition such an expression goes on exactly when its value is true and leaves by the false list otherwise; only the operands of its comparisons matter |
| `CodeTheorems.ConditionExact` | lua/lua-5.1.3/src/lcode.c:539-564 | for every expression as a condition the comparisons are those it means if and only if no operand of one is left with the value of something else, and then the branch is right; how the expression itself is left does not matter |
| `CodeTheorems.ConditionRuns` | lua/lua-5.1.3/src/lcode.c:539-564 | the code of every condition makes the comparisons of its course and branches by the truth the course finds |
| `CodeExact.SoundOperands` | lua/lua-5.1.3/src/lcode.c:539-591 | conditions whose comparisons have operands without boolean literals and negated constants on the left of and or or meet the guard, whatever literals stand elsewhere |
| `CodeExact.SoundClear` | lua/lua-5.1.3/src/lcode.c:681-694 | if by the text no operand of a comparison can be left with the value of something else, none is in any run |
| `CodeExact.MarksCover` | lua/lua-5.1.3/src/lcode.c:59-66 | what the text says about jumps that may carry a value, or another value, holds of every course |
| `CodeTheorems.WrongValue` | lua/lua-5.1.3/src/lcode.c:567-591 | the code for ((x or false) and true) or false leaves x itself in the register for every true x, where the value is true |
| `CodeTheorems.BadCourse` | lua/lua-5.1.3/src/lcode.c:567-591 | for that expression the exact condition is on x alone: it goes wrong if and only if x is neither false, nil nor true |
| `CodeTheorems.BadAdopted` | lua/lua-5.1.3/src/lcode.c:567-591 | the guard shuts that expression out as a value, but neither its negation nor the expression as a condition |
| `CodeCompile.CompileGood` | lua/lua-5.1.3/src/lcode.c:718-789 | for every expression and every place it is entered from, with a value held there or not, the generator keeps the code well formed, its lists disjoint and earlier code intact, and the code takes the course of the expression: its truth, its comparisons, and what the jump carries by which it leaves or what is held at its end |
| `CodeCompile.LogicGood` | lua/lua-5.1.3/src/lcode.c:718-742 | and/or: the code leaves with what the left operand carries or goes on as the right operand does, with what is held passed on |
| `CodeCompile.RelGood` | lua/lua-5.1.3/src/lcode.c:681-694 | comparisons: both operands are evaluated in order, kept in registers or constants, and what they yield is compared, with the operands exchanged for > and >= |
| `CodeJumps.GoIfChooses` | lua/lua-5.1.3/src/lcode.c:539-591 | luaK_goiftrue and luaK_goiffalse: the code goes on exactly for the wanted values and leaves with the others; a jump carries the tested value, nothing after a comparison or a negation, and what was held where a literal always jumps |
| `CodeNots.CodeNotGood` | lua/lua-5.1.3/src/lcode.c:594-626 | codenot: with the lists exchanged and their values removed the code finds the negation, its jumps carry nothing, and only a constant leaves what is held as it is |
| `CodeValues.Exp2RegGood` | lua/lua-5.1.3/src/lcode.c:390-411 | exp2reg: wherever the code of the expression goes, by a jump with a value, without one, or by falling through, what it brings gets to the register |
| `CodeValues.Exp2RegIsTail` | lua/lua-5.1.3/src/lcode.c:390-411 | exp2reg patches every jump of the lists to the end or to the load of its boolean and no other instruction |
| `CodeValues.Exp2NextRegGood` | lua/lua-5.1.3/src/lcode.c:414-419 | luaK_exp2nextreg: what the code brings gets to the next free register |
| `CodeValues.Exp2AnyRegGood` | lua/lua-5.1.3/src/lcode.c:422-433 | luaK_exp2anyreg: what the code brings is in a register afterwards |
| `CodeValues.Exp2RKGood` | lua/lua-5.1.3/src/lcode.c:444-469 | luaK_exp2RK: what the code brings is in a register or is a constant small enough for the operand |
| `CodeShape.KeepsTrans` | lua/lua-5.1.3/src/lcode.c:59-196 | what the operations keep about finished code composes over any number of them |
| `CodeShape.OpRun` | lua/lua-5.1.3/src/lcode.c:59-196 | a run through the code after an operation is the run before it up to where that stopped, and goes on from there |
| `LuaVm.Resume` | lua/lua-5.1.3/src/lvm.c:403-581 | patching unfinished jumps does not change what a run does before it comes to one of them |
| `CodeState.FuncState.Concat` | lua/lua-5.1.3/src/lcode.c:185-196 | joining two threaded lists gives the list of both and changes no other instruction |
| `CodeState.FuncState.NeedValue` | lua/lua-5.1.3/src/lcode.c:122-128 | the walk along a threaded list finds whether some jump has no value |
| `CodeState.FuncState.PatchListAux` | lua/lua-5.1.3/src/lcode.c:150-160 | the walk that overwrites the links it follows patches exactly the jumps of the list, as the code generator is proved to need |
| `CodeState.FuncState.RemoveValues` | lua/lua-5.1.3/src/lcode.c:144-147 | the tests before the jumps of the list lose their values, and nothing else changes |
| `CodeState.FuncState.Jump` | lua/lua-5.1.3/src/lcode.c:59-66 | the new jump heads the list of the jumps to here |
| `CodeState.FuncState.PatchToHere` | lua/lua-5.1.3/src/lcode.c:179-182 | the list joins the pending jumps and no jump is lost |
| `CodeState.FuncState.Code` | lua/lua-5.1.3/src/lcode.c:797-809 | the pending jumps get the current position as their target before an instruction is added |
| `CodeLists.ListUnique` | lua/lua-5.1.3/src/lcode.c:100-106 | the jump a list starts at determines the list |
| `CodeLists.ListJoined` | lua/lua-5.1.3/src/lcode.c:185-196 | linking the last jump of one list to the head of another joins them |
| `CodeLists.LinksForgotten` | lua/lua-5.1.3/src/lcode.c:150-160 | the links threaded through pending jumps play no part in what the operations make of the code, so lists can be kept beside it |
| `CodeExact.NothingAdopted` | lua/lua-5.1.3/src/lcode.c:539-591 | in every expression without boolean literals and negated constants as left operands no literal takes along a value, so those are compiled right |
| `CodeTheorems.KindOfEnd` | lua/lua-5.1.3/src/lcode.c:594-626 | what the generator makes of an expression is a literal, another constant or a test exactly when the expression ends in one, through negations |
| `CodeState.FuncState.CondJump` | lua/lua-5.1.3/src/lcode.c:74-77 | a test and its jump are added, the jump as a list of its own |
| `CodeState.FuncState.AddK` | lua/lua-5.1.3/src/lcode.c:229-247 | a constant is found where it was first put or is added at the end |
| `CodeState.FuncState.DischargeVars` | lua/lua-5.1.3/src/lcode.c:304-334 | in place, with threaded lists, it does what it does with lists beside the code, and touches no jump of another expression |
| `CodeState.FuncState.Discharge2Reg` | lua/lua-5.1.3/src/lcode.c:343-379 | the same for discharge2reg |
| `CodeState.FuncState.Discharge2AnyReg` | lua/lua-5.1.3/src/lcode.c:382-387 | the same for discharge2anyreg |
| `CodeState.FuncState.LoadValues` | lua/lua-5.1.3/src/lcode.c:398-403 | the same for the loads of the booleans and the jump over them |
| `CodeState.FuncState.Exp2Reg` | lua/lua-5.1.3/src/lcode.c:390-411 | the same for exp2reg, whose lists are gone afterwards |
| `CodeState.FuncState.Exp2NextReg` | lua/lua-5.1.3/src/lcode.c:414-419 | the same for luaK_exp2nextreg |
| `CodeState.FuncState.Exp2AnyReg` | lua/lua-5.1.3/src/lcode.c:422-433 | the same for luaK_exp2anyreg, which leaves a value in a register alone |
| `CodeState.FuncState.Exp2Val` | lua/lua-5.1.3/src/lcode.c:436-441 | the same for luaK_exp2val |
| `CodeState.FuncState.Exp2RK` | lua/lua-5.1.3/src/lcode.c:444-469 | the same for luaK_exp2RK, which leaves an operand in place alone |
| `CodeState.FuncState.InvertJump` | lua/lua-5.1.3/src/lcode.c:516-521 | the same for invertjump |
| `CodeState.FuncState.JumpOnCond` | lua/lua-5.1.3/src/lcode.c:524-536 | the same for jumponcond, also when it takes back a negation |
| `CodeState.FuncState.GoIfTrue` | lua/lua-5.1.3/src/lcode.c:539-564 | the same for luaK_goiftrue; its list is held while the next operand is compiled |
| `CodeState.FuncState.GoIfFalse` | lua/lua-5.1.3/src/lcode.c:567-591 | the same for luaK_goiffalse |
| `CodeState.FuncState.CodeNot` | lua/lua-5.1.3/src/lcode.c:594-626 | the same for codenot, with the lists exchanged |
| `CodeState.FuncState.CodeComp` | lua/lua-5.1.3/src/lcode.c:681-694 | the same for codecomp, with the operands exchanged for > and >= |
| `CodeState.FuncState.Expression` | lua/lua-5.1.3/src/lparser.c:828-853 | for every expression the generator in place, recursion included, keeps all lists finite, acyclic and disjoint and represents the state with lists beside the code |
| `CodeRun.Generate` | lua/lua-5.1.3/src/lparser.c:828-858 | for every expression the code made in place through threaded lists is exactly the code the theorems are about |
| `CodeRun.Evaluate` | lua/lua-5.1.3/src/lvm.c:403-581 | generating code in place and interpreting it gives the yield and the comparisons of the course of the expression, which are those it means if and only if ExpressionExact says so, and always under the guard of ExpressionCorrect |
| `CodeRun.EvaluatePlain` | lua/lua-5.1.3/src/lvm.c:403-581 | the same for every expression without boolean literals and negated constants as left operands |
| `CodeOrder.ComparisonMeans` | lua/lua-5.1.3/src/lcode.c:781-786 | the six comparisons: which question is asked of which operands, with those of > and >= exchanged, and which answer counts as true |
| `CodeOrder.NumbersCompare` | lua/lua-5.1.3/src/lvm.c:221-256 | where numbers are compared as numbers, each of the six comparisons has the value of the order |
| `CodeOrder.CompareNumbers` | lua/lua-5.1.3/src/lvm.c:541-566 | and so has the result of generating code for the comparison and running it, unless the operands are led astray as ExpressionExact says |
| `CodeOrder.TruthMeans` | lua/lua-5.1.3/src/lobject.h:103-103 | not, and and or take nil and false for false, and every other value for true |
| `CodeOrder.TestMeans` | lua/lua-5.1.3/src/lvm.c:505-581 | the tests and the negation of the machine do the same |
| `CodeOperands.CompileFits` | lua/lua-5.1.3/src/lopcodes.h:113-130 | whatever the number of constants, the operands of the generated comparisons fit nine bits of which one marks a constant |
| `CodeOperands.ConstantOperand` | lua/lua-5.1.3/src/lcode.c:444-470 | a literal is an operand itself as long as its index fits, and no code is generated for it |
| `CodeExec.Interpreter.Execute` | lua/lua-5.1.3/src/lvm.c:537-581 | the interpreter loop, in which a test takes the jump behind it at once or skips it, ends at the end of the code in the state of the instruction-by-instruction run |
| `Sort.Table.AuxSort` | lua/lua-5.1.3/src/ltablib.c:185-246 | for every strict weak order the range ends up sorted and is a rearrangement, nothing outside is touched, and the recursion is at most log2(n + 1) deep |
| `Sort.Table.SortAll` | lua/lua-5.1.3/src/ltablib.c:248-256 | the elements end up in order, each as often as before |
| `Sort.Table.Partition` | lua/lua-5.1.3/src/ltablib.c:210-235 | the pivot ends up between nothing greater and nothing less; the scans never leave the range |
| `Sort.Table.MedianOfThree` | lua/lua-5.1.3/src/ltablib.c:189-208 | the first, middle and last elements are put in order |
| `Sort.Table.FewElements` | lua/lua-5.1.3/src/ltablib.c:189-209 | two or three elements are sorted by the median step alone |
| `Sort.Table.SortSmaller` | lua/lua-5.1.3/src/ltablib.c:210-244 | the smaller part is sorted by the recursive call and the larger part is what is left, with everything else in its final place |
| `PatternMatch.MatchState.Match` | lua/lua-5.1.3/src/lstrlib.c:364-439 | match returns the first outcome in the order of greedy, lazy and optional repetitions, with the captures it leaves behind, or no match if no way of repeating the items matches |
| `PatternMatch.MatchState.MaxExpand` | lua/lua-5.1.3/src/lstrlib.c:300-312 | repetitions are tried from the longest to the shortest |
| `PatternMatch.MatchState.MinExpand` | lua/lua-5.1.3/src/lstrlib.c:315-325 | repetitions are tried from the shortest on |
| `PatternMatch.MatchState.StartCapture` | lua/lua-5.1.3/src/lstrlib.c:328-339 | an opened capture is undone when the rest fails, and too many are an error |
| `PatternMatch.MatchState.EndCapture` | lua/lua-5.1.3/src/lstrlib.c:342-350 | a closed capture is reopened when the rest fails, and one that was never opened is an error |
| `PatternMatch.MatchState.MatchCapture` | lua/lua-5.1.3/src/lstrlib.c:353-361 | a back reference matches the text of a closed capture and is an error otherwise |
| `PatternMatch.MatchState.MatchBalance` | lua/lua-5.1.3/src/lstrlib.c:280-297 | the balanced text ends where for the first time as many closing as opening characters are read, and there is none if that never happens; if both are the same character it ends at the next one |
| `Pattern.BalanceExactly` | lua/lua-5.1.3/src/lstrlib.c:280-297 | the counting scan and that description agree on every subject and every end |
| `PatternMatch.MatchState.MatchBracketClass` | lua/lua-5.1.3/src/lstrlib.c:244-264 | a set matches if one of its ranges, classes or characters does, or none when complemented |
| `Pattern.OrderTotal` | lua/lua-5.1.3/src/lstrlib.c:364-439 | of two different ways to repeat the items that lead to outcomes, one is tried before the other |
| `Pattern.FirstUnique` | lua/lua-5.1.3/src/lstrlib.c:364-439 | so the outcome of a match is determined by the specification |
| `PatternFind.PatternSearch` | lua/lua-5.1.3/src/lstrlib.c:509-531 | the search finds the first outcome at the leftmost start that has one, with the captures as texts or positions, or the error if a capture was left open |
| `PatternFind.PushCaptures` | lua/lua-5.1.3/src/lstrlib.c:465-491 | the loop pushes every capture, or raises the error exactly when one is not closed |
| `PatternFind.UnfinishedExactly` | lua/lua-5.1.3/src/lstrlib.c:465-491 | on a match, the error of an unfinished capture is raised if and only if the pattern opens more captures than it closes, whatever the subject |
| `PatternFind.FollowCaptures` | lua/lua-5.1.3/src/lstrlib.c:328-350 | whatever way a match goes, the captures left open are those the pattern opens and does not close |
| `PatternFind.LMemFind` | lua/lua-5.1.3/src/lstrlib.c:443-463 | the plain search finds the leftmost occurrence, or there is none |
| `PatternFind.StrFind` | lua/lua-5.1.3/src/lstrlib.c:494-534 | find takes the plain or the pattern search as the pattern demands, from a start counted from either end and clamped to the subject |
| `PatternLaws.ClassWritten` | lua/lua-5.1.3/src/lstrlib.c:225-241 | a letter after % names the characters of its class, given by their codes, a capital letter all others, and any other character itself |
| `PatternLaws.ItemReads` | lua/lua-5.1.3/src/lstrlib.c:201-278 | any class with a suffix, written anywhere in a pattern, is read as that item: any character, a character itself, a class, or a set of characters, ranges and classes or its complement |
| `PatternLaws.ItemFinds` | lua/lua-5.1.3/src/lstrlib.c:299-325 | what a pattern of one class finds: the leftmost character of it; with + the longest run there, with * the longest run at the start, with ? at most one character and with - none; in brackets it is captured |
| `PatternLaws.FindItem` | lua/lua-5.1.3/src/lstrlib.c:494-534 | string.find on the text of such a pattern finds just that, from any start and with or without an anchor |
| `PatternLaws.PositionFinds` | lua/lua-5.1.3/src/lstrlib.c:328-340 | empty brackets give the position counted from 1, up to 32 times; one more is the error of too many captures |
| `PatternFind.PlainAgrees` | lua/lua-5.1.3/src/lstrlib.c:500-508 | the shortcut for patterns without special characters finds what the pattern search would, if the pattern has no closing bracket and no NUL |
| `PatternFind.PlainDiffers` | lua/lua-5.1.3/src/lstrlib.c:500-508 | with a closing bracket or a NUL in such a pattern there is a subject on which they differ |
| `Quote.RoundTrip` | lua/lua-5.1.3/src/llex.c:276-329 | the lexer reads a quoted string back as it was, whatever stands before and after it, or reports too many lines exactly when the line counter would overflow |
| `Quote.AddQuoted` | lua/lua-5.1.3/src/lstrlib.c:695-722 | the quoting loop produces the quoted form the round trip is about |
| `Quote.LexState.ReadString` | lua/lua-5.1.3/src/llex.c:276-329 | the reading loop, with its escapes, line counting and errors, computes the specified result |
| `Quote.FormatAndRead` | lua/lua-5.1.3/src/lstrlib.c:695-722 | formatting and reading back gives the string for every string of bytes |
| `QuoteEscapes.LiteralReads` | lua/lua-5.1.3/src/llex.c:276-329 | a literal written from characters, letter escapes, escaped characters, escaped newlines and codes of up to three digits is read as the characters with those codes, and its lines are counted |
| `QuoteEscapes.UnitReads` | lua/lua-5.1.3/src/llex.c:287-318 | each of these ways to write a character |
| `QuoteEscapes.CodeRefused` | lua/lua-5.1.3/src/llex.c:304-315 | a code above 255 is the error of an escape too large |
| `DumpRoundTrip.FunctionInverse` | lua/lua-5.1.3/src/lundump.c:162-179 | a dumped function, at any depth of nesting and whatever follows it, is read back as the function, with exactly the missing source names filled in and the stripped parts left out |
| `DumpRoundTrip.ChunkInverse` | lua/lua-5.1.3/src/lundump.c:193-207 | loading a dumped chunk, stripped or not, gives that function back and consumes all of it |
| `DumpRoundTrip.SameIfSourced` | lua/lua-5.1.3/src/ldump.c:129-141 | without strip a function comes back the same if and only if every function in it has a source |
| `DumpRoundTrip.StripsAll` | lua/lua-5.1.3/src/ldump.c:111-141 | with strip all debug information is gone and everything else is kept |
| `DumpRoundTrip.RoundTrip` | lua/lua-5.1.3/src/ldump.c:153-164 | a chunk with sources comes back identical |
| `DumpStream.Zio.Fill` | lua/lua-5.1.3/src/lzio.c:21-32 | the next piece is taken, or the end of the stream reported |
| `DumpStream.Zio.Lookahead` | lua/lua-5.1.3/src/lzio.c:35-45 | looking ahead does not consume anything |
| `DumpStream.Zio.Read` | lua/lua-5.1.3/src/lzio.c:58-71 | a block is read across any number of pieces, or the number of missing bytes is reported exactly when there are too few |
| `DumpStream.LoadState.Function` | lua/lua-5.1.3/src/lundump.c:162-179 | the loader reading from pieces agrees with the loader on the whole stream, in results and in errors |
| `DumpStream.LoadState.Undump` | lua/lua-5.1.3/src/lundump.c:193-207 | the same for a whole chunk with its header |
| `DumpWriter.DumpState.Function` | lua/lua-5.1.3/src/ldump.c:129-141 | the dumper writes the bytes of the function, or a prefix of them once the writer fails |
| `DumpWriter.DumpState.Chunk` | lua/lua-5.1.3/src/ldump.c:153-164 | if the dumper reports no failure the writer has the whole chunk; otherwise it has a prefix of it |
| `DumpFormat.FunctionFound` | lua/lua-5.1.3/src/lundump.c:162-179 | what is loaded lies in the bytes as the format says: each field, vector and nested function at its offset, numbers with the low byte first |
| `DumpFormat.FunctionLoads` | lua/lua-5.1.3/src/lundump.c:162-179 | and bytes that lie so are loaded as that function, if its code passes the check |
| `DumpFormat.ChunkExactly` | lua/lua-5.1.3/src/lundump.c:181-225 | the loader accepts a chunk if and only if it has the twelve bytes of the header and a function of the format after it |
| `DumpFormat.ChunkRefused` | lua/lua-5.1.3/src/lundump.c:181-188 | a shorter chunk, or another header, is refused |
| `DumpFormat.ConstRead` | lua/lua-5.1.3/src/lundump.c:101-130 | a constant is loaded if and only if its first byte is 0, 1, 3 or 4 and nil, a byte, eight bytes or a string follow |
| `DumpFormat.ConstRefused` | lua/lua-5.1.3/src/lundump.c:126-128 | any other first byte is a bad constant |
| `DumpFormat.IntRefused` | lua/lua-5.1.3/src/lundump.c:62-68 | a negative int is refused where a size or a line is wanted |
| `DumpFormat.ConstWritten` | lua/lua-5.1.3/src/ldump.c:80-105 | a constant is written in the format, booleans as 0 or 1 and strings with a final zero |
| `DumpFormat.FunctionWritten` | lua/lua-5.1.3/src/ldump.c:129-141 | a dumped function lies in its bytes as the format says |
| `DumpFormat.ChunkWritten` | lua/lua-5.1.3/src/ldump.c:143-164 | and so does a dumped chunk, after the twelve bytes of the header |
| `DumpWriter.ReadBack` | lua/lua-5.1.3/src/lundump.c:193-207 | however a dumped chunk, stripped or not, is cut into pieces, the loader gives the function back with the stripped parts left out and missing source names filled in; unstripped and with sources it is identical |
| `Sha256.HashChunks` | generic/sha2.c:519-628 | a message hashed in any number of pieces of any length has the SHA-256 digest of FIPS 180-4 of the whole |
| `Sha256.Context.Transform` | generic/sha2.c:439-515 | the transform, with the schedule kept in sixteen words of the buffer that may also hold the data, is the compression function of the standard |
| `Sha256.Context.Update` | generic/sha2.c:519-565 | after an update the context stands for the message with the data added |
| `Sha256.Context.Final` | generic/sha2.c:567-628 | the digest of the message, in one or two last blocks, and the context is wiped |
| `ShaWords.KIsCubeRoots` | generic/sha2.c:228-245 | the constant of round i has the first 32 bits of the fraction of the cube root of the i-th prime |
| `ShaWords.H0IsSquareRoots` | generic/sha2.c:248-257 | the initial hash value has those of the square roots of the first eight primes |
| `ShaWords.Sigma0Bits` | generic/sha2.c:205-205 | bit by bit, the sum of the bits 2, 13 and 22 further on |
| `ShaWords.Sigma1Bits` | generic/sha2.c:206-206 | the same for 6, 11 and 25 |
| `ShaWords.LowerSigma0Bits` | generic/sha2.c:207-207 | the same for 7 and 18, and 3 without wrapping around |
| `ShaWords.LowerSigma1Bits` | generic/sha2.c:208-208 | the same for 17 and 19, and 10 without wrapping around |
| `ShaWords.ChoiceBits` | generic/sha2.c:201-201 | each bit is that of the second word where the first has one, and of the third elsewhere |
| `ShaWords.MajorityBits` | generic/sha2.c:202-202 | each bit is what two of the three words have |
| `ShaWords.AddCounts` | generic/sha2.c:462-467 | addition is that of the numbers below 2^32 with wrap-around, counted up by ones |
| `ShaWords.Sha1Constants` | generic/sha1.c:49-53 | the constants of SHA-1 are the square roots of 2, 3, 5 and 10, times 2^30 |
| `ShaWords.Sha1Initial` | generic/sha1.c:116-120 | the bytes of the initial hash value count up and down in steps |
| `ShaWords.LogicalBits` | generic/sha1.c:49-53 | the function of a round of SHA-1, bit by bit: choice, parity, majority and parity |
| `ShaWords.MixBits` | generic/sha1.c:45-46 | a word of the schedule of SHA-1 is the sum of four words before it, rotated by one bit |
| `Sha256.FinalState` | generic/sha2.c:577-613 | compressing the one or two last blocks gives the hash of the padded message |
| `Sha256.Expand` | generic/sha2.c:485-490 | the expansion in place in sixteen words is the message schedule |
| `Sha256.ReversedLoad` | generic/sha2.c:460-464 | reading a word in machine order and reversing it gives the big-endian word of the block |
| `Sha1.HashChunks` | generic/sha1.c:127-176 | a message hashed in pieces has the SHA-1 digest of the whole |
| `Sha1.Transform` | generic/sha1.c:58-110 | the unrolled rounds with rotating roles of the variables are the compression function of the standard |
| `Sha1.Context.Update` | generic/sha1.c:127-144 | after an update the context stands for the message with the data added |
| `Sha1.Context.Final` | generic/sha1.c:149-176 | padding byte by byte until the count fits gives the digest of the message |
| `Sha1.Rewritten` | generic/sha1.c:50-53 | the choice and majority functions as they are computed are those of the standard |
| `Sha1.CountsAdd` | generic/sha1.c:132-134 | the two-word bit count with its carry test is the length of the message |
| `Sha1.PadMore` | generic/sha1.c:159-161 | the padding loop stops after the padding of the standard, no sooner and no later |
| `PollLoop.Poller.Poll` | generic/e2lib.lua:1533-1618 | how the loop ends is determined by the answers of poll; when it succeeds every callback has got exactly what was read from its descriptor until that was closed, in order, and line by line where asked for |
| `PollLoop.Poller.Pass` | generic/e2lib.lua:1580-1615 | a pass gives up if and only if nothing has an event or something has a bad one; otherwise every descriptor has been served once and the closed ones, and no others, are removed, although positions shift during the pass |
| `PollLoop.Poller.Serve` | generic/e2lib.lua:1580-1615 | one entry: its data reaches its own callback, a closed descriptor is flushed and removed, and a bad event stops the loop |
| `PollLoop.LineBuffer` | generic/e2lib.lua:1495-1509 | all complete lines are delivered in order and the rest is kept: calls and buffer together are the input |
| `PollLoop.LineBufferFinal` | generic/e2lib.lua:1511-1519 | an unfinished last line is delivered, so the calls together are the input |
| `PollLoop.PollFd` | generic/le2lib.c:366-401 | the walk down the descriptors reports every event with its position, the highest first, and stops after the last one |
| `PollLoop.Poller.FindWritefunc` | generic/e2lib.lua:1521-1531 | the first callback of a descriptor is found if there is one |
| `PollLoop.Poller.constructor` | generic/e2lib.lua:1533-1545 | the descriptors polled are those with a callback |

## Left out

Collector:

- weak tables, finalizers and the separation of userdata with finalizers: no object has a finalizer here, and all tables are strong.
- the pacing of luaC_step, the estimate of the work done, and memory limits: a step may happen at any time.
- GcCollector.GlobalState.FindUpvalue: the ring of open upvalues is a sequence in this class; GcRing.UpvalRing proves that the linked ring of the source holds that sequence.
- stack positions are counted from the base of the stack in the collector; StackMove proves that moving a stack does not change them.
- GcRun.NeverFreesReachable: a program action handles only objects that are not dead, which is what the interpreter guarantees by reading them from roots.

Tables:

- floating point keys are integers or opaque values; NaN and nil keys, which raise errors before newkey is reached, are not keys here.
- the array part is at most 2^26 slots, as MAXASIZE allows; the error for larger requests is left out.
- TableWalk.Modify: a store to a key that the table does not have is not made during a traversal; the language leaves such a traversal undefined.
- TableOps.LuaTable.constructor: asks for at most 2^26 array slots, because the error for larger requests is left out.

Code generator:

- arithmetic with constant folding, concatenation, calls, varargs, globals and table accesses in expressions, and all statements.
- nil as a literal of its own with the peephole of luaK_nil; its value can be had from a local or an upvalue.
- limits on registers, constants in a function and jump distances, which raise errors; NO_REG is not a register.
- CodeTheorems.ExpressionCorrect: its guard is a sufficient condition on the text of the expression alone; which literals are reached with another value held depends on the registers and the world, and CodeTheorems.ExpressionExact is exact in these.
- CodeTheorems.ConditionCorrect: the same for the operands of its comparisons; CodeTheorems.ConditionExact is exact.
- CodeRun.EvaluatePlain: its condition on the text of the expression is sufficient only; CodeRun.Evaluate is exact.
- metamethods of comparisons may do anything, upvalues included, but change the local variables of the running function.
- expression descriptors are passed and returned as values in CodeState, not updated through a pointer.

Other parts:

- Sort.Table.AuxSort: asks for a strict weak order; what the checks for an invalid order function catch, and what they miss, is left out.
- gsub, gmatch and match, and the locale dependence of character classes, which are those of the C locale here.
- the checker of bytecode is a parameter of the loader; numbers are machine words that are copied as they are.
- Sha1.Context.Update: pieces of 2^32 - 63 bytes and more, for which the index arithmetic of the source wraps around, are left out.
- Sha1.HashChunks: the same bound on each piece.
- SHA-384 and SHA-512, the hexadecimal output, and the unrolled variant of the SHA-256 transform.
- the byte order of the machine is little endian; the reversal of the 64-bit count before it is stored is taken together with the store.
- PollLoop.Poller.constructor: asks that no two callbacks share a descriptor, as pipes made for one child each do not.
- logging, the signal that is passed on to children, and the error objects of the poll loop; poll and read are given by their answers.
- the rest of e2factory (projects, environments, transports, collections) and of the interpreter.
