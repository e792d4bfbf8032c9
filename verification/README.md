# A model of the Slate virtual machine

The Slate virtual machine (`src/vm`) rewrites bytecode in place, moves objects under the program's feet, threads two
data structures through one stack array, and keeps three layers of caches in front of a search over a delegation graph.
This project models those parts in Dafny, in the form they have in the source (classes whose methods update fields and
arrays, loops with invariants), and proves what each of them is for. One more model is of the search for call cycles in
the profiler's `gprof2dot.py`. `dafny verify dfyconfig.toml` verifies everything.

| part | files | main result |
|---|---|---|
| Bytecode inliner | `Opcodes`, `CodeVector`, `Execution`, `EditedCode`, `Rewriting`, `Renumbering`, `Definedness`, `Returns`, `Inlining`, `InlinedCall`, `Guards`, `Sites`, `Optimizer` | inlining changes the outcome of no run, and puts in front of every send just what it should |
| Object memory and collector | `HeapModel`, `Marking`, `Roots`, `Sweeping`, `Allocating`, `Forwarding`, `Tenuring`, `Collecting`, `YoungCollecting`, `Survival`, `YoungAllocating`, `Cloning`, `Growing`, `Mutating`, `Effects` | a full collection is an isomorphism on what is reachable, whatever the remembered set misses; a young one loses nothing; a program runs as in a heap that is never collected |
| Activation stack, ensure handlers | `Activations`, `Interpreter`, `Unwinding` | a return runs exactly the handlers it must, innermost first, and calls are well bracketed |
| Multimethod dispatch and caches | `Delegation`, `Ranking`, `Dispatch`, `SameDispatch`, `SharedMaps`, `OrderMatters`, `GlobalCache`, `StaleCache`, `Probing`, `InlineCaches` | early exit is sound; cache hits are what a full search would return, and when exactly they can stop being so |
| Role and slot tables | `Probing`, `TableSizes`, `SlotTables`, `RoleTables` | regrowth is restriction of a map; role chains stay complete |
| Images | `ForwardTable`, `Images`, `ImageFile`, `ImageSaving`, `Reloading` | saving and loading at any base is an isomorphism |
| Call cycles | `CallGraph`, `Cycles`, `Profile` | cycles are exactly the components of mutual recursion |
| Small integers | `SmallIntegers` | exact results or overflow, on words that wrap around |

## How things are modelled

- **Bytecode.** Words are integers and small integers are tagged as `2 * x + 1`. A machine runs code over registers and a
  *world*; whatever an instruction does outside its frame (sends, primitives, closures, variables of outer contexts) is
  one oracle `effect` from the instruction's key, its argument values and the world to an answer and a new world. Two
  codes are the same when every run of one that ends has a run of the other with the same outcome, in both directions.
  A callee or primitive in an inline cache is assumed to do what a send would do for arguments with its maps
  (`CalleeImplements`, `PrimitiveImplements`): that is what the cache means.
- **Instruction tables.** `Opcodes.Operands` says what the interpreter's own cases take, operand by operand; the machine
  and what counts as a register are defined by it, and the optimizer's tables of lengths, jumps and register masks are
  proved to agree with it.
- **Memory.** A memory maps addresses, in words, to blocks: free, used, or used and moved away. A used block has its
  header, its map, the words that may hold references, and raw words. A space is *tiled* when walking from block to
  block comes to its end and meets every block. Running out of the first part of a space is modelled as the position
  past its end, where the source has NULL. The interpreter is an object of the heap and its stack is whatever its slot
  refers to, old or young.
- **Programs.** An ideal heap gives every object a number for good and is never collected. `Represents` says that
  everything live in one heap is in another, one to one, where a map says; the map is composed along collections.
- **Stack.** The interpreter's array is the real state; a ghost sequence of frames says what it means, and `Valid`
  equates the array, word for word, with the layout of those frames. The lemmas in `Unwinding` are about an abstract
  machine over frames whose return step is proved to be the one of the array.
- **Dispatch.** Maps, objects and definitions are numbers. `|=` into disjoint 5-bit fields of the rank is addition.
- **Hash masks.** For a capacity that is a power of two, masking with the capacity less one is the remainder. Hashes are
  arbitrary functions.
- **Images.** A file is the sequence of blocks addressed from zero; writing and reading it moves the same words to other
  addresses (`Rebased`).

## What is required

- *Inliner:* the callee writes a register that is not an argument before it reads it, since inlined code skips the nil
  fill; it has no instruction that asks for the running method or closure (`LOAD_ENVIRONMENT`, `NEW_CLOSURE`); it is not
  heap-allocated; and none of its jumps is of the two kinds that `ReturnsExactly` tells apart.
- *Collector:* the special objects array and the interpreter are themselves reachable and old (of the array and of the
  interpreter's stack only the contents are marked), and old space has room for what is tenured. The stack itself may be
  young. A full collection, and so saving an image, does not ask the remembered set what is live: it is right whatever
  that set misses, as long as only old objects in use are in it, and leaves it right if and only if it knew of the live old objects that refer to *pinned* young ones;
  so it repairs the set whenever no young object is pinned. A young collection needs a remembered set that misses nothing.
- *Programs:* special objects and interpreter stay reachable as the program runs. Stores may have the write barrier or
  not, and the stack may grow without it.
- *Stack:* the ensure marker's code is the one instruction RESUME; handlers take no arguments; the target of a non-local
  return is live.
- *Dispatch:* no resend, no accessor rewriting of the receiver, at most six arguments and at most 31 maps on the walk of
  each. A definition's roles name only positions it dispatches on. When more than 256 delegates wait, the walk ends, as
  in the source; but the source has then already written them past the end of its array (`src/vm/method.cpp:215-231`),
  and what that overwrites is not modelled.
- *Global cache:* masks of the first three positions and calls with enough arguments to cover them, whose walks meet at
  most 31 maps and never have more than 256 delegates waiting. When an object gets a role, its copy of the map must be
  `Harmless`: every other walk within those bounds keeps its order. Who delegates to whom decides that, before the call
  and whatever the roles are, and `NeverStaleExactly` shows that nothing less will do. It is so if the object has its map
  to itself, or if no object of that map can be met behind the map's delegates, nor where delegation is restricted to the
  argument itself: the first method of a prototype whose clones share its map, for instance.
- *Tables:* power-of-two capacities, and not a request of 1 on a table of capacity 0.
- *Images:* an address of a block is a word address, so adding a base leaves the tag bit alone. Room in the forwarding
  table is not required: saving is proved to succeed exactly when there is room.
- *Profiler:* `validate` has removed calls to undefined functions.

## Where the code does not do what it seems to

- Rewriting returns mis-aims not only a jump back to a return but also a *forward jump to the instruction right behind a
  return* (`src/vm/optimizer.cpp:403-428`): the deletion makes it a jump to the very place where the replacement is then
  inserted. `ReturnsExactly` gives the exact condition, `TwoAnswersNotClear` a small example, and `TwoAnswersGoWrong` runs
  it: the method answers one register and the rewritten code leaves with another one. What a callee must be clear of, with
  its variable instructions still in it, is just what the pass would get wrong once they are gone (`CutClear`,
  `PrepareCallee`).
- `doFullGCNext` is set only by the sweep of old space (`src/vm/gc.cpp:433-443`), which only a full collection makes, and
  a full collection clears it at its end, so after the first one it stays false.
- A definition flushes the global cache for its own selector only (`src/vm/primitives.cpp:372`), but it gives the object
  a copy of its map (`src/vm/object.cpp:425-428`). A walk that met that map once may then meet the map and its copy, and
  push the same delegates twice. Usually the second time changes nothing. It matters only if an object of the map can be
  met again behind the map's own delegates, so delegation must be cyclic, or where the map restricts delegation; then
  the order of the rest of the walk, and the result of *another* selector, may change. `AnotherSelectorsDefinition` is
  such a heap. `OrderKeptExactly` says for each walk exactly when its order stays, `OrderMatters` that whenever it does
  not there are definitions whose best one changes, and `NeverStaleExactly` puts both together: no entry can become stale if and only if
  every walk keeps its order.
- `interpreter_grow_stack` and `prim_initializeThreadOn` put a new, young stack into the interpreter without the write
  barrier (`src/vm/interpreter.cpp:14`, `src/vm/primitives.cpp:251`), and the interpreter's stores of variables show the
  barrier the stack and not the stored value (`src/vm/interpreter.cpp:886`, `src/vm/interpreter.cpp:927`). `StoreUnseen`
  says exactly when the remembered set survives such a store, `Grow` says it for the stack, and `GrownStackIsLost` is a
  heap in which a young collection then does not find the new stack, which is live. The next full collection still finds
  it and, unless it is pinned, tenures it.
- `heap_clone` copies the words of the original without the barrier, which is right for a young copy. When young space is
  full the copy goes to old space (`src/vm/gc.cpp:235-278`), and if it refers to a young object it is an old object that
  is not remembered. `Clone` says exactly that. `RunProgram` goes on after this, and after unseen stores, and stops where
  young objects would have to be collected while something old is unnoticed.
- `method_check_cache` compares the mask with `1 << n` by `>` (`src/vm/method.cpp:31`), so the one mask `1 << n` passes
  and the argument behind the last one is read. The model takes what is there as a parameter, `beyond`.
- The table that forwards addresses while an image is written can be too small (`src/vm/primitives.cpp:2136`); see
  `SizingCanFail`. Adding to it happens inside an assertion (`src/vm/object.cpp:643`) and so only when assertions are
  compiled in; the model has them compiled in.
- `Cycle.add_function` adds the function before its loop over the old cycle's functions asks whether it is missing
  (`src/profiler/gprof2dot.py:207-215`), so the loop never adds anything. Relabelling is right nevertheless, because a
  component is always found again as a whole.

## Model

| member | source | states |
|---|---|---|
| `Optimizer.InlineCallees` | src/vm/optimizer.cpp:464-600 | Whenever the inliner succeeds, every run of the method from any registers and any world ends with the new code exactly as with the old one, and conversely; in front of every plain send of the old code that no earlier guard marks are the blocks of the first three implementations of its selector, one right behind the other, and the send right behind them; the registers are more by exactly those of the compiled ones; the result has only in-range registers, no variable instruction and no internal send. It succeeds if every guard of a primitive that the code has already jumps forward to right behind a send, and does not if one jumps forward to anywhere else, where the source fails an assertion |
| `Optimizer.LookAtGuards` | src/vm/optimizer.cpp:471-498 | The send right behind which a guard of a primitive jumps is marked as internal, and the plain send that the guard of a method jumps to; no other word changes. It stops where the source asserts that there is such a send |
| `Optimizer.InlineSend` | src/vm/optimizer.cpp:500-590 | Where the send was there are min(3, implementations) blocks, end to end, and then the send, now marked: each starts with a guard that has the maps of its implementation and the arguments of the send and is aimed at the next block (a primitive's: at what is behind the send, with its index and the result register); a compiled one's code is behind its guard. The registers grow by theirs; code before stays, code behind moves, all runs are kept and no guard behind changes |
| `Guards.MovedRest` | src/vm/optimizer.cpp:471-485 | Code put in front of a send changes nothing about where the guards behind it jump to |
| `Optimizer.InlineCallee` | src/vm/optimizer.cpp:506-588 | One such block in front of one send, in new registers, keeps all runs of the caller; what is before it stays and what is from the send on moves, which is why the walk ends |
| `Sites.LookAhead` | src/vm/optimizer.cpp:471-498 | What is ahead of the walk is what the original code has there, with exactly the sends marked that the guards passed so far belong to |
| `Sites.FoundPlain` | src/vm/optimizer.cpp:500-506 | So the walk finds a plain send just at the plain sends of the original code that no earlier guard marks, and with their words |
| `Sites.KeptSite` | src/vm/optimizer.cpp:567-587 | Code put in further on moves no block that is in place: not its guard, maps, arguments, jumps or callee's code |
| `Sites.StripInlined` | src/vm/optimizer.cpp:592-593 | Nor do deleting variable instructions and taking back marks move a block away from its send or open one up |
| `Optimizer.PrepareCallee` | src/vm/optimizer.cpp:538-557 | The callee's code is renumbered, freed of variable instructions, has the argument moves in front and its returns rewritten, and nothing else; its jumps are aimed at what they were aimed at if and only if the callee's code was clear of the jumps the rewriting gets wrong |
| `Optimizer.MethodInserted` | src/vm/optimizer.cpp:534-571 | A guarded, renumbered, return-free body put in front of its send keeps soundness, register bounds and every run of the caller, the registers growing by those of the callee |
| `Optimizer.PrimitiveInserted` | src/vm/optimizer.cpp:573-587 | A primitive guard put in front of its send keeps soundness, register bounds and every run of the caller |
| `InlinedCall.MethodBlockBehaves` | src/vm/optimizer.cpp:520-571 | Guard, argument moves and rewritten body reach the place behind the send with the caller's registers as the send leaves them, result included, when the guard passes; a failing guard falls through with nothing changed |
| `InlinedCall.PrimitiveBlockBehaves` | src/vm/interpreter.cpp:1203-1219 | A primitive guard does what the send would have done and jumps behind it, or falls through with nothing changed |
| `InlinedCall.BodyForward` | src/vm/optimizer.cpp:403-428 | Every run of the callee that ends has a run of the rewritten body that stores the answer in the result register and continues at the place behind the send |
| `InlinedCall.BodyBackward` | src/vm/optimizer.cpp:403-428 | The rewritten body ends, or goes on behind the send, only if the callee's own run ends |
| `InlinedCall.CalleeSameEnds` | src/vm/interpreter.cpp:239 | The callee in its own nil-filled frame and its renumbered code in the caller's registers, whatever those held, have the same outcomes |
| `InlinedCall.PreludeRuns` | src/vm/optimizer.cpp:519-524 | The argument moves put every argument into its register of the callee and change no register of the caller |
| `Inlining.BlockSameRuns` | src/vm/optimizer.cpp:567-587 | A block that behaves like the send it stands in front of changes no run of the caller, whatever jumps there from before or from behind |
| `Inlining.SiteForward` | src/vm/interpreter.cpp:1203-1234 | With the block in place, every run of the caller that ends still ends, the same, from any corresponding place |
| `Inlining.SiteBackward` | src/vm/interpreter.cpp:1203-1234 | And the code with the block ends only as the caller would |
| `CodeVectors.CodeVector.InsertCode` | src/vm/optimizer.cpp:263-292 | The new code is at the offset; every other word is where one explicit position map puts it, and every jump is re-aimed by that map: a forward jump to the very insertion point lands on the new code, any other one behind it; no other operand changes |
| `CodeVectors.CodeVector.DeleteCode` | src/vm/optimizer.cpp:294-322 | The words are gone, every other word is where the position map puts it, and every jump is re-aimed by it; no other operand changes |
| `CodeVectors.InsertedJump` | src/vm/optimizer.cpp:263-292 | A jump goes to the instruction it went to; one from before the place where code was put in to just that place goes to the new code |
| `CodeVectors.DeletedJump` | src/vm/optimizer.cpp:294-322 | A jump goes to the instruction it went to, and one to the deleted words to what follows them |
| `CodeVectors.CodeVector.OffsetValue` | src/vm/optimizer.cpp:234-238 | One tagged number changes by the offset and nothing else does |
| `EditedCode.InsertBoundary` | src/vm/optimizer.cpp:263-292 | After an insertion the old instructions, shifted behind the insertion point, and the inserted ones start where instructions start |
| `EditedCode.InsertBoundaryOnly` | src/vm/optimizer.cpp:263-292 | And instructions start nowhere else |
| `EditedCode.CutBoundary` | src/vm/optimizer.cpp:294-322 | After a deletion of a whole instruction the others start where instructions start |
| `EditedCode.CutBoundaryOnly` | src/vm/optimizer.cpp:294-322 | And instructions start nowhere else |
| `EditedCode.SpliceSound` | src/vm/optimizer.cpp:263-292 | An insertion whose own jumps land on instructions keeps every jump of the code on an instruction |
| `EditedCode.CutSameEnds` | src/vm/interpreter.cpp:856-895 | Deleting a load or store of a variable of a method that keeps its variables in registers changes the outcome of no run |
| `EditedCode.RenamedSameEnds` | src/vm/optimizer.cpp:443-452 | Sends and internal sends run alike, so renaming them changes the outcome of no run |
| `Rewriting.RemoveRedundantOps` | src/vm/optimizer.cpp:430-441 | For a method that is not heap-allocated the variable instructions are gone and every other instruction is there, one behind the other, its jump aimed at what it was aimed at; every run ends as before, and no jump is left that the rewriting of returns would spoil if and only if there was none to come; otherwise the code is untouched |
| `Rewriting.OffsetRegisters` | src/vm/optimizer.cpp:240-261 | Exactly the operands that the interpreter takes for registers, and those that an instruction counts, change by the offset |
| `Rewriting.OffsetInstruction` | src/vm/optimizer.cpp:240-261 | The same for one instruction |
| `Opcodes.Operands` | src/vm/interpreter.cpp:676-1265 | What the interpreter's own case for each opcode takes, operand by operand; there are as many as the optimizer's table of lengths says |
| `Opcodes.MaskIsRegisters` | src/vm/optimizer.cpp:193-228 | The optimizer's register masks have exactly the operands that the interpreter takes for registers |
| `Opcodes.JumpIsParameter` | src/vm/optimizer.cpp:145-190 | Its table of jumps has exactly the operand that the interpreter jumps by |
| `Opcodes.LengthIsCounted` | src/vm/optimizer.cpp:66-106 | And its lengths have as many further operands as the interpreter takes |
| `Execution.RegisterRead` | src/vm/interpreter.cpp:676-1265 | The register operands of an instruction are those it reads, the one it writes and the variable's |
| `Renumbering.ShiftRun` | src/vm/optimizer.cpp:240-261 | Renumbered code, on registers shifted alike, runs in lockstep with the original and ends with the same outcome |
| `Definedness.RunAgrees` | src/vm/interpreter.cpp:239 | Code that writes its registers before it reads them runs the same whatever the unwritten ones hold, so the nil fill may be skipped |
| `Returns.ChangeReturnsToJumps` | src/vm/optimizer.cpp:403-428 | Every return becomes a move or load into the result register and a jump to exactly the final size plus the given distance; every other instruction is where the position map for all returns puts it, its jump re-aimed |
| `Returns.ReturnsExactly` | src/vm/optimizer.cpp:403-428 | All jumps of the code are aimed at what they were aimed at if and only if none jumps back to a return and none jumps forward to the instruction behind a return |
| `Returns.TwoAnswersNotClear` | src/vm/optimizer.cpp:403-428 | A concrete sound code, a branch around one of two returns, for which the condition fails |
| `Returns.TwoAnswersGoWrong` | src/vm/optimizer.cpp:403-428 | When its branch is taken that code answers the second register; whatever the pass makes of it leaves with the first one in the result register |
| `Returns.CutClear` | src/vm/optimizer.cpp:294-322 | Deleting variable instructions first neither brings about nor takes away a jump that the return rewriting would spoil |
| `Returns.PosMonotone` | src/vm/optimizer.cpp:403-428 | The position map for all returns keeps order and leaves room for every instruction |
| `Optimizer.OpLocationBefore` | src/vm/optimizer.cpp:456-460 | The result is where the operation starts that ends at the given place |
| `Optimizer.RemoveInternalOps` | src/vm/optimizer.cpp:443-452 | No internal send is left, and nothing else changes |
| `Collecting.FullGc` | src/vm/gc.cpp:663-686 | Whatever the remembered set misses, there is a one-to-one forwarding map, the identity on old and pinned objects, under which what was reachable is copied with map and references redirected and all else equal; nothing else is in use afterwards; young space holds only pinned objects and coalesced free blocks; cursors and tiling are right again; each live object was pushed once. The remembered set is right afterwards if and only if it had every live old object that refers to a pinned young one |
| `Collecting.FullRootsExactly` | src/vm/gc.cpp:663-676 | What counts as reachable starts from exactly the objects with a pin count above zero, the elements of the special objects array and the cells of the stack below the stack pointer |
| `Collecting.IsomorphicExactly` | src/vm/gc.cpp:663-686 | Field by field, what the copy of a live object has in common with it |
| `Collecting.NoticedIf` | src/vm/gc.cpp:545-561 | That is so if it was right before, and if no young object is pinned |
| `Collecting.MarkAll` | src/vm/gc.cpp:663-676 | An object is marked if and only if it can be reached from pins, special objects or the used part of the stack; what was pushed is each such object once |
| `Marking.Heap.MarkRecursively` | src/vm/gc.cpp:402-410 | Starting from the marked roots exactly their reflexive transitive closure over map, slot and array references ends up marked, each object pushed at most once; it terminates although the stack grows on demand |
| `Marking.Heap.Mark` | src/vm/gc.cpp:347-367 | An unmarked object is marked and pushed, a marked one is not; a full stack is replaced by one with the same contents |
| `Marking.Heap.MarkFields` | src/vm/gc.cpp:389-400 | The map and every object a word refers to are marked and, if new, pending |
| `HeapModel.ClosedHoldsReachable` | src/vm/gc.cpp:402-410 | A set that holds the roots and what its members refer to holds everything reachable |
| `HeapModel.BlockEnds` | src/vm/gc.cpp:412-444 | In a tiled space the walk from one block comes to the next, and blocks do not overlap |
| `HeapModel.SpaceReplace` | src/vm/gc.cpp:91-113 | Retiling one stretch between two block boundaries keeps the space exactly tiled |
| `Roots.StartGc` | src/vm/gc.cpp:332-335 | What was marked counts as unmarked and nothing is pending |
| `Roots.UnmarkAll` | src/vm/gc.cpp:446-456 | No object of the space is marked, and nothing else changes |
| `Roots.MarkPinned` | src/vm/gc.cpp:633-647 | Exactly the pinned objects of the space are marked in addition |
| `Roots.MarkSpecials` | src/vm/gc.cpp:369-377 | Exactly the elements of the special objects array, old ones only if asked, are marked in addition |
| `Roots.MarkInterpreterStack` | src/vm/gc.cpp:379-387 | Exactly the objects in the used part of the stack, old ones only if asked, are marked in addition |
| `Sweeping.FreeAndCoalesceUnmarked` | src/vm/gc.cpp:412-444 | No marked block changes, no unmarked one is left in use, no two free blocks are neighbours and the space stays exactly tiled; dead old objects are no longer remembered; a full collection is asked for just when in old space nothing or less than every third block was freed |
| `Sweeping.SweptExactly` | src/vm/gc.cpp:412-444 | Block by block: in use are the marked ones, as they were, and what follows a free block is in use or the end |
| `Sweeping.FreeObject` | src/vm/gc.cpp:299-320 | The block is free with its size kept, and an old one is forgotten |
| `Sweeping.SweepKeeps` | src/vm/gc.cpp:412-431 | One step of the sweep that joins nothing keeps what the sweep has established |
| `Sweeping.SweepMerges` | src/vm/gc.cpp:412-431 | One step that joins a free block to the one before it keeps it, too |
| `Allocating.FindFirstFree` | src/vm/gc.cpp:191-205 | The first block from the cursor on that is free and large enough, or none is |
| `Allocating.FitsExactly` | src/vm/gc.cpp:191-205 | A block that can be split for a request is no object, and large enough |
| `Allocating.AllocateOld` | src/vm/gc.cpp:207-233 | If some block from the cursor on can be split for the request, the first one is, and old space does not grow; otherwise, and only then, the block is behind the end and old space grows by just its size. Every other used block is as it was, and old space stays exactly tiled |
| `Allocating.SplitPlaces` | src/vm/gc.cpp:207-233 | Splitting a free block places the new one and leaves a free rest of at least a header |
| `Allocating.AppendPlaces` | src/vm/gc.cpp:207-233 | Extending the space places the new block at its end |
| `YoungAllocating.Allocate` | src/vm/gc.cpp:235-278 | After at most two collections a block of exactly the requested size is placed in what was free, in young space unless no young block there can be split even after a full collection. What was live before those collections is live after them, one to one, with its contents, where a forwarding map says; the heap the block is put into has its roots, tiling and remembered set right, and cursors sit on block boundaries |
| `Survival.SurvivesBoth` | src/vm/gc.cpp:235-278 | What is represented in a second heap, and what is live there in a third one, is represented in the third one under the composed map |
| `Survival.LiveCarried` | src/vm/gc.cpp:663-712 | What is live in one heap is live where it is represented in another one |
| `Survival.SurvivedThen` | src/vm/gc.cpp:256-270 | What survives one collection and then another survives both, pinned objects and the roots staying where they are |
| `Cloning.Clone` | src/vm/gc.cpp:756-776 | The copy has the original's map, words and bytes as they are after the collections that made room for it, a hash of its own and no pins, and is where nothing live is; everything live survives. The heap is ready for the next operation, unless the copy is in old space and refers to a young object, and then it is exactly the remembered set that is wrong |
| `Cloning.Pin` | src/vm/slate.hpp:1062-1090 | Pinning an object leaves the heap in order |
| `Cloning.CloneAtOnce` | src/vm/gc.cpp:756-776 | The same copy without any collection, or nothing changes, and the remembered set is as right as it was |
| `Growing.Grow` | src/vm/interpreter.cpp:3-15 | After collections, if they are needed, a new array is the interpreter's stack: its size is the old one's doubled as often as needed, at least once; its cells are those below the stack pointer as they were, references renamed, and nil from there on; its map is that of the prototype of arrays. Everything live survives. A right remembered set stays right if and only if the array is in old space and refers to nothing young, or is young and the interpreter was remembered |
| `Growing.GrownHolds` | src/vm/interpreter.cpp:12-13 | Cell by cell, what the new stack has of the old one, wherever the collections have put that |
| `Growing.EnlargedIsFirst` | src/vm/interpreter.cpp:8-11 | The new size is the old one times the least power of two, from two on, that reaches the minimum |
| `Effects.GrowEffect` | src/vm/interpreter.cpp:3-15 | In the heap that is never collected: the new stack has the cells of the old one up to the stack pointer, nil behind them and the least sufficient size, and nothing else changes |
| `Effects.CloneEffect` | src/vm/gc.cpp:756-776 | There a clone is one new object with the original's map and contents, its own hash and no pins, a cell refers to it, and nothing else changes |
| `Effects.LoadEffect` | src/vm/interpreter.cpp:856-880 | There a load changes one cell of the stack, to what the slot has |
| `Effects.StoreEffect` | src/vm/object.cpp:145-150 | There a store changes one slot, to what the cell has |
| `Effects.SetSmallEffect` | src/vm/interpreter.cpp:837-855 | There a literal goes into one cell |
| `Effects.MoveEffect` | src/vm/interpreter.cpp:17-28 | There moving the stack pointer, within the stack, moves nothing else |
| `Effects.NoEffect` | src/vm/gc.cpp:235-278 | There an operation that names no cell in use, no object or no slot of it does nothing; nor does a collection |
| `Effects.FollowsExactly` | src/vm/gc.cpp:663-712 | Field by field, what it means that a heap follows the one that is never collected |
| `Effects.GrowthExactly` | src/vm/gc.cpp:215-223 | The room a program must find in old space for an operation: at most twice young space and the block it makes |
| `Growing.PutInOrder` | src/vm/gc.cpp:735-749 | Filling a new block with what refers to nothing new keeps tiling, roots and survivors, and the remembered set right but for the block itself |
| `Growing.CanGrowStill` | src/vm/interpreter.cpp:3-15 | Collections do not change whether and to what size the stack can grow |
| `Mutating.RunProgram` | src/vm/gc.cpp:235-278 | Any sequence of clones, loads, stores with and without barrier, growing stacks, moving stack pointers and collections, young or full, has the effect it has in a heap that is never collected: after every operation what is live there is here, one to one, with its contents. It stops early only when old space may have no room for what the next operation moves there, or when a young collection would come while an old object refers to a young one unnoticed. A program whose stores have the barrier, and that does not allocate, leaves nothing unnoticed |
| `Mutating.FollowsItself` | src/vm/gc.cpp:235-278 | Any heap that is ready may be taken as its own ideal, so that this applies to every program from every heap |
| `Mutating.Step` | src/vm/gc.cpp:235-278 | One operation keeps the two heaps in agreement; a full collection repairs the remembered set if it knew who refers to pinned young objects. A clone or a longer stack fails for something unnoticed only if no young block from the cursor on can be split for it |
| `Mutating.FindUnnoticed` | src/vm/gc.cpp:581-631 | An old object that refers to a young one and is not remembered, or there is none |
| `Mutating.GrownAgrees` | src/vm/interpreter.cpp:3-15 | Growing the stack in both heaps keeps them in agreement |
| `Mutating.PointerAgrees` | src/vm/interpreter.cpp:17-28 | Moving the stack pointer in both heaps keeps them in agreement, what is behind it included |
| `Mutating.SurvivalAgrees` | src/vm/gc.cpp:663-712 | A collection keeps the two heaps in agreement on everything that is live |
| `Mutating.WriteAgrees` | src/vm/object.cpp:145-150 | The same store in both heaps keeps them in agreement |
| `Mutating.CopyAgrees` | src/vm/gc.cpp:756-776 | A copy in both heaps keeps them in agreement |
| `YoungAllocating.TryAllocate` | src/vm/gc.cpp:238-254 | The first block that can be split from the cursor on, or nothing changes and none can |
| `YoungAllocating.AllocateAtOnce` | src/vm/gc.cpp:238-254 | A block placed without any collection, or nothing changes; this needs no remembered set at all |
| `YoungAllocating.Collect` | src/vm/gc.cpp:250-264 | Young or full, a collection keeps all that is live; a full one may start from a remembered set that misses something |
| `Forwarding.TenureMoves` | src/vm/gc.cpp:495-516 | Moving one marked, unpinned object to its place keeps the forwarding map one-to-one and all copies as they were |
| `Forwarding.TenureSkips` | src/vm/gc.cpp:495-531 | Passing any other block frees it only if it is dead |
| `Tenuring.Tenure` | src/vm/gc.cpp:489-579 | Marked young objects that are not pinned are in old space, every reference to them is redirected, pinned ones stay, the rest of young space is free and coalesced; a tenured object next to a pinned one it refers to is remembered |
| `Tenuring.UpdateForwardedPointers` | src/vm/gc.cpp:458-480 | Every used block of the space is redirected by the forwarding words, and nothing else changes |
| `Tenuring.RememberTenured` | src/vm/gc.cpp:545-561 | Exactly the tenured objects that refer to young ones are remembered in addition |
| `Tenuring.CoalesceFree` | src/vm/gc.cpp:565-576 | Neighbouring free blocks are one, and no used block changes |
| `Tenuring.Redirected` | src/vm/gc.cpp:541-543 | Redirecting both spaces redirects every used block |
| `Tenuring.CopiedFollow` | src/vm/gc.cpp:458-480 | Every reference in a used block leads to a used block or to a forwarding word |
| `Tenuring.CoalesceKeeps` | src/vm/gc.cpp:565-576 | Joining free blocks changes no object |
| `Collecting.SettledIsomorphic` | src/vm/gc.cpp:489-579 | A heap that has been tenured after exact marking is an isomorphic copy of what was live |
| `Collecting.IsomorphicSound` | src/vm/gc.cpp:663-686 | In the isomorphic copy no reference dangles |
| `Collecting.RememberedAfter` | src/vm/gc.cpp:545-561 | After tenuring next to pinned young objects every old object with a young reference is remembered if and only if the live ones that refer to pinned ones were |
| `Collecting.StillLive` | src/vm/gc.cpp:663-686 | What was live is live, where it is now |
| `Collecting.RootsStayAfter` | src/vm/gc.cpp:663-686 | The assumption on special objects and the interpreter holds again, so that collections may follow each other |
| `Collecting.StackMoves` | src/vm/gc.cpp:541-543 | The interpreter stays where it is and its slot refers to where its stack is now, with the stack's contents redirected |
| `YoungCollecting.YoungGc` | src/vm/gc.cpp:688-712 | No young object that pins, special objects, the stack or any old object leads to is moved, changed or lost; every other one is freed; free blocks are coalesced; the remembered set is pruned to just what it needs |
| `YoungCollecting.AllRootsExactly` | src/vm/gc.cpp:688-712 | What must not be lost starts from exactly the young objects with a pin count above zero, the special objects, the cells of the stack in use and everything in use in old space |
| `YoungCollecting.YoungKeptExactly` | src/vm/gc.cpp:688-712 | Field by field, an object that is kept is what it was |
| `YoungCollecting.StillNeededExactly` | src/vm/gc.cpp:592-618 | An object stays remembered exactly while its map or one of its words refers to a young object |
| `YoungCollecting.MarkRemembered` | src/vm/gc.cpp:581-631 | The young objects that remembered objects refer to are marked, and exactly the remembered objects without one are forgotten |
| `YoungCollecting.FoundIfLive` | src/vm/gc.cpp:581-631 | If every old object with a young reference is remembered, tracing that does not follow old objects finds every young object any old object leads to |
| `YoungCollecting.LiveIfFound` | src/vm/gc.cpp:688-712 | And it finds nothing else |
| `YoungCollecting.YoungSound` | src/vm/gc.cpp:688-712 | No reference dangles after a young collection |
| `YoungCollecting.YoungRemembered` | src/vm/gc.cpp:581-631 | The pruned remembered set still holds every old object with a young reference |
| `YoungCollecting.YoungRootsStay` | src/vm/gc.cpp:688-712 | What the roots led to they lead to afterwards |
| `YoungCollecting.StoreInto` | src/vm/inline.hpp:6-16 | An old object is remembered just when a young one is stored into it |
| `YoungCollecting.StoreWord` | src/vm/object.cpp:145-150 | A store behind the barrier keeps every old object with a young reference remembered, if they were |
| `YoungCollecting.StoreUnseen` | src/vm/interpreter.cpp:11-14 | A store whose value the barrier does not see keeps a right remembered set right if and only if the object was remembered, or is not old, or the value is not young |
| `YoungCollecting.GrownStackIsLost` | src/vm/interpreter.cpp:11-14 | A concrete heap in which the interpreter gets a young stack that way: the stack is live, and what a young collection traces does not lead to it |
| `YoungCollecting.YoungStack` | src/vm/gc.cpp:688-712 | A young collection keeps the interpreter's stack where it is, old or young |
| `Interpreters.Interpreter.ReturnResult` | src/vm/interpreter.cpp:363-469 | A return, local or not, starts the innermost handler at or above the target frame if there is one, storing the result first and keeping everything above it resumable, and cuts the stack to the caller only when there is none; the array holds the frames word for word throughout |
| `Interpreters.Interpreter.ApplyTo` | src/vm/interpreter.cpp:145-255 | A call puts exactly one frame on top: saved pointers, arguments, then nil in the other registers; the frames below are unchanged even when the stack grows |
| `Interpreters.Interpreter.SetRegister` | src/vm/interpreter.cpp:936-951 | A store into a register of the running activation changes that register of the top frame and nothing else |
| `Interpreters.Interpreter.Ensure` | src/vm/primitives.cpp:274-291 | The body is called with the handler registered at the head of the chain |
| `Interpreters.Interpreter.GrowStack` | src/vm/interpreter.cpp:3-15 | Capacity is the old one doubled as often as needed for the minimum, at least once; the contents stay, the rest is nil |
| `Interpreters.Interpreter.StackAllocate` | src/vm/interpreter.cpp:17-28 | The stack pointer moves up and nothing below it changes; the stack is a new one just when there was not enough room |
| `Interpreters.Interpreter.StackPush` | src/vm/interpreter.cpp:30-44 | The value is on top of what was there; the stack is a new one just when it was full |
| `Activations.HeadAbove` | src/vm/interpreter.cpp:402-403 | The head of the handler chain is at or above a frame exactly when a handler of that frame or above is still armed |
| `Activations.HeadBelow` | src/vm/interpreter.cpp:420-437 | The head of the handler chain never lies above the stack pointer |
| `Activations.SetRegFlat` | INTERNALS:8-14 | Writing a register changes one word of the array and neither frames nor chain |
| `Activations.SpendFlat` | src/vm/interpreter.cpp:420-437 | Taking the innermost handler off the chain changes only the head |
| `Activations.HeaderAt` | INTERNALS:8-14 | Each frame's six header words are where the layout says |
| `Activations.FlatPrefix` | INTERNALS:8-14 | Lower frames are laid out the same whatever is above them |
| `Unwinding.ReturnIsNext` | src/vm/interpreter.cpp:363-469 | Starting a handler in the array is the step of the abstract machine of frames |
| `Unwinding.StepIsOrderly` | src/vm/interpreter.cpp:394-437 | A return starts the handler registered last among those still armed, at or above its target, and cuts only when every one at or above it has been started |
| `Unwinding.EveryRunIsOrderly` | src/vm/interpreter.cpp:363-469 | Over every run each registered handler is armed in a live frame or has been started, never both, never twice |
| `Unwinding.CallRestores` | src/vm/interpreter.cpp:439-459 | Any well-bracketed run of a callee followed by its return leaves frames, place in the code, closure and context as before, but for the result register |
| `Unwinding.HandlerRestores` | src/vm/interpreter.cpp:400-437 | A handler that runs to its end leaves everything as before but for its being spent and the result cell, at the return instruction that is executed again |
| `Unwinding.ReturnCompletes` | src/vm/interpreter.cpp:363-469 | A return to a live frame starts the handlers armed at or above that frame, all of them, once each, innermost first, and no other; then it cuts the stack with its own result in place |
| `Unwinding.RerunsEnd` | src/vm/interpreter.cpp:394-437 | The return cannot be executed again for ever: after any number of handlers those that ran are the first of the armed ones, and it starts another one exactly when there are more of them |
| `Profiles.Profile.FindCycles` | src/profiler/gprof2dot.py:244-261 | Two different functions share a cycle exactly when each reaches the other; functions alone in their component have none; every cycle is a whole component and is listed once |
| `Profiles.Profile.Tarjan` | src/profiler/gprof2dot.py:263-292 | One search labels exactly the components it completes, again as a whole if an earlier search had labelled them, and keeps order and low links of what it found |
| `Profiles.Profile.AddFunction` | src/profiler/gprof2dot.py:207-215 | The function is in the new cycle and points to it; its companions of an older cycle are left alone |
| `Cycles.PartIsComponent` | src/profiler/gprof2dot.py:285-288 | What is popped when low link and order agree is a strongly connected component |
| `Cycles.PartClosed` | src/profiler/gprof2dot.py:285-288 | Nothing in the popped part calls what is left on the stack |
| `Cycles.PopOk` | src/profiler/gprof2dot.py:285-288 | Popping a component keeps the invariant of the search |
| `Cycles.LeaveOk` | src/profiler/gprof2dot.py:285 | A function that stays on the stack leads back to one seen before it |
| `Cycles.EnterOk` | src/profiler/gprof2dot.py:271-277 | Entering a function keeps the invariant of the search |
| `Cycles.FollowingRecursion` | src/profiler/gprof2dot.py:281-282 | A recursive call carries what its low link promises to the caller |
| `Cycles.RelabelOk` | src/profiler/gprof2dot.py:288-291 | Giving a component, new or found again, a new cycle keeps all labels whole components |
| `Cycles.LabelsAre` | src/profiler/gprof2dot.py:244-261 | Labels that are whole components of everything seen mean mutual reachability |
| `Dispatching.Dispatcher.Dispatch` | src/vm/method.cpp:57-254 | The definition returned is one of highest rank among all applicable ones of an exhaustive search, and none only if there is none; returned early it alone has that rank |
| `Dispatching.Dispatcher.DispatchIn` | src/vm/method.cpp:57-94 | The same in whatever memory and for whatever selector the next dispatch is, its number being the only thing that tells its notes from older ones |
| `Dispatching.Dispatcher.DispatchArgument` | src/vm/method.cpp:97-235 | The walk for one argument notes exactly what the maps up to where it stops say |
| `Dispatching.Dispatcher.FindRole` | src/vm/method.cpp:128-191 | A definition found at a new position gets its digit, and the best definition so far stays the best so far |
| `Dispatching.EarlyExit` | src/vm/method.cpp:199-210 | Whatever the rest of the search would find, the definition returned early ranks above every other |
| `Dispatching.LateExit` | src/vm/method.cpp:237-254 | Without an early exit the result is best among all |
| `Dispatching.JudgeOk` | src/vm/method.cpp:175-191 | The bookkeeping of best definition, best rank and sole holder of that rank is right after every role |
| `Ranking.RankIsLexicographic` | src/vm/method.cpp:142 | Comparing packed ranks is comparing digit by digit, argument 0 first |
| `Ranking.NoneCatchesUp` | src/vm/method.cpp:199-210 | What is found later cannot overtake a complete definition that is strictly ahead |
| `Ranking.CompleteIsFinal` | src/vm/method.cpp:175-191 | A definition found at all its positions has its final rank |
| `Delegation.WalkDistinct` | src/vm/method.cpp:97-235 | The walk visits each map at most once and ends, cyclic delegation included |
| `Delegation.NewMapOnWalk` | src/vm/method.cpp:108-223 | A new map is visited and its delegates are walked next, last one first; where delegation is restricted, at a map reached by delegation, its own delegates still are but theirs are not |
| `Delegation.NextOnStack` | src/vm/method.cpp:225-235 | The walk goes on with the last object waiting, skips maps it has seen, lifts a restriction below its height, and ends when none is left or more than 256 are |
| `SameDispatch.SameMapSameWalk` | src/vm/method.cpp:97-235 | Arguments of one map are walked alike, although the walk asks whether it is at the argument itself |
| `SameDispatch.MaskDecides` | src/vm/method.cpp:33-48 | Arguments at positions outside the mask cannot affect the result of a dispatch, nor can anything but the maps at the others |
| `SharedMaps.OrderKeptExactly` | src/vm/object.cpp:415-430 | After an object got a copy of its map, a walk meets the same maps in the same order, the copy taken for the map and met once, if and only if pushing the map's delegates a second time, where the walk meets the other one of the two, leads to nothing new |
| `SharedMaps.OrderKeepsBest` | src/vm/object.cpp:415-430 | Walks that keep their order have the same best definitions, although their depths are other ones |
| `SharedMaps.ApartKeepsOrder` | src/vm/object.cpp:415-430 | If no object of the map can be met behind its delegates, nor where delegation is restricted, or the object has its map to itself, every walk keeps its order and needs no more of the stack than with the copy |
| `OrderMatters.OrderMatters` | src/vm/object.cpp:415-430 | If a walk does not keep its order there are roles of two definitions for which the best of them changes |
| `GlobalCache.MethodCache.Send` | src/vm/method.cpp:57-254 | With enough arguments to cover the mask and walks within bounds, a send returns what the full search would, hit or not, and leaves every cache entry right |
| `GlobalCache.MethodCache.Define` | src/vm/method.cpp:560-603 | The roles of the selector are changed as the definition says, and after the flush every cache entry of every selector is right, if for each object that gets a role its copy of the map does no harm when its turn comes |
| `GlobalCache.MethodCache.DefineAt` | src/vm/method.cpp:586-598 | The same for one role, and other objects stay as undisturbed as they were |
| `GlobalCache.OneHarmless` | src/vm/method.cpp:586-598 | For a definition that gives one object a role the condition is that its copy does no harm |
| `GlobalCache.UndisturbedAllHarmless` | src/vm/method.cpp:586-598 | Copies do no harm for objects that have their maps to themselves, or whose maps nobody else can be met with behind the map's delegates or under restriction |
| `GlobalCache.HarmlessIsSafe` | src/vm/object.cpp:415-430 | Whether a copy does harm does not depend on the roles |
| `GlobalCache.MethodCache.CheckCache` | src/vm/method.cpp:23-51 | A hit needs the selector, enough arguments and equal maps at exactly the masked positions; with a mask of just 1 << n whatever is behind the last argument is compared, too |
| `GlobalCache.MethodCache.SaveCache` | src/vm/method.cpp:9-21 | One entry gets selector, definition and the maps of the arguments, the maps beyond them staying stale |
| `GlobalCache.MethodCache.FlushCache` | src/vm/gc.cpp:84-88 | No entry of the selector is left and every other one is as it was |
| `GlobalCache.SavedIsRight` | src/vm/method.cpp:9-21 | What a full search found for some arguments is right for all arguments with the same maps at the masked positions |
| `GlobalCache.OthersStayRight` | src/vm/object.cpp:415-430 | A role added for one selector leaves the entries of all others right, if every walk keeps its order |
| `GlobalCache.UndisturbedIsSafe` | src/vm/object.cpp:415-430 | And every walk does if the object has its map to itself, or no object of that map can be met behind the map's delegates or under restriction |
| `GlobalCache.StillUndisturbed` | src/vm/object.cpp:415-430 | Another object's copy of a map leaves this so |
| `StaleCache.AnotherSelectorsDefinition` | src/vm/object.cpp:423-428 | A concrete heap, with cyclic delegation and two objects of one map, in which defining a method of one selector makes the entry of another selector wrong |
| `StaleCache.NeverStaleExactly` | src/vm/object.cpp:415-430 | Whatever roles other selectors have, a role for this one can make none of their entries wrong if and only if every walk keeps its order, that is, if and only if the copy does no harm |
| `StaleCache.LostGoesStale` | src/vm/object.cpp:415-430 | If a walk loses its order there is a memory, different in roles only, with a right entry that becomes wrong |
| `InlineCaches.InlineCache.FindCallee` | src/vm/method.cpp:504-537 | If some entry is for the selector and the maps, the definition of one that is, which is counted once more, and nothing else changes; if none is, nothing. No lookup changes |
| `InlineCaches.InlineCache.AddCallee` | src/vm/method.cpp:460-502 | The callee is at the first free position from its home, and nothing else changes; a full table stays as it is |
| `InlineCaches.InlineCache.Match` | src/vm/method.cpp:367-397 | An entry matches just when selector, arity and all maps are equal; only its count changes |
| `InlineCaches.LookupSound` | src/vm/method.cpp:504-537 | What is found was added for this selector, arity and these maps |
| `InlineCaches.LookupComplete` | src/vm/method.cpp:504-537 | A lookup misses only what was never added, despite wrapping around and stopping at nil |
| `InlineCaches.AddLookup` | src/vm/method.cpp:460-502 | What is added after a miss, while space remains, is found from then on; no earlier lookup changes |
| `Probing.ProbeIffPresent` | src/vm/object.cpp:153-176 | Probing from an entry's home finds one if and only if the table has one |
| `Probing.InsertOk` | src/vm/object.cpp:179-200 | An entry at the first free position keeps every entry within reach |
| `Probing.InsertLookup` | src/vm/object.cpp:179-200 | It changes no lookup that found something, and otherwise only its own |
| `TableSizes.Accommodate` | src/vm/object.cpp:268-300 | The least power of two that holds what is requested, except that a request of 1 on a table of capacity 0 is excluded |
| `TableSizes.ZeroStaysZero` | src/vm/object.cpp:277-280 | Why it is excluded: doubling zero never gets there |
| `TableSizes.LeastPow2` | src/vm/object.cpp:268-300 | A power of two less than twice the request is the least that holds it |
| `SlotTables.SlotTable.GrowExcluding` | src/vm/object.cpp:349-368 | The new table is the old map without the excluded name, has room for n more and the least sufficient capacity |
| `SlotTables.SlotTable.EntryForName` | src/vm/object.cpp:218-241 | The first entry with the name before a free one |
| `SlotTables.SlotTable.EntryForInsertingName` | src/vm/object.cpp:244-264 | The first free position |
| `SlotTables.SlotTable.EmptySpace` | src/vm/object.cpp:314-323 | The number of free positions |
| `SlotTables.LookupIsContents` | src/vm/object.cpp:218-241 | Looking a name up gives its entry if and only if the table has one |
| `SlotTables.RestrictedContents` | src/vm/object.cpp:349-368 | Holding just the entries of other names is being the old map without the name |
| `RoleTables.RoleTable.GrowExcluding` | src/vm/object.cpp:326-346 | Every name has its roles but for those of the excluded definition, chained in the order they had in the old table (not that of the old chain), there is room for n more and the capacity is the least sufficient one |
| `RoleTables.RoleTable.Insert` | src/vm/object.cpp:203-215 | The role is at the end of its name's nextRole chain, and every other chain is as it was |
| `RoleTables.RoleTable.EntryForName` | src/vm/object.cpp:153-176 | The first entry with the name before a free one |
| `RoleTables.RoleTable.EntryForInsertingName` | src/vm/object.cpp:179-200 | The first free position |
| `RoleTables.RoleTable.EmptySpace` | src/vm/object.cpp:303-312 | The number of free positions |
| `RoleTables.LinkedOk` | src/vm/object.cpp:203-215 | Linking a new entry keeps all chains acyclic, complete and starting where a lookup arrives |
| `RoleTables.NewChain` | src/vm/object.cpp:203-215 | The chain of the name has the new entry at its end |
| `RoleTables.OldChain` | src/vm/object.cpp:203-215 | The chain of any other name is unchanged |
| `RoleTables.ChainHoldsAll` | src/vm/object.cpp:203-215 | A chain lists all entries of its name and no others, as sets; in which order is said by NewChain and OldChain |
| `RoleTables.LinkedContents` | src/vm/object.cpp:203-215 | What the chains say, name by name, after an insertion |
| `ImageSaving.SaveImage` | src/vm/primitives.cpp:2134-2149 | Whatever the remembered set misses, exactly when the forwarding table has room for all objects the heap left by a full collection is saved: an isomorphic image based at zero, tiled by used blocks only, special_objects_oop mapped with it |
| `ImageSaving.WriteImage` | src/vm/primitives.cpp:2135-2149 | The same for a given sound heap of two spaces and any address of the buffer |
| `ImageSaving.LoadImage` | src/vm/vm.cpp:222-223 | At any base the loaded memory is isomorphic to the heap that was saved, tiled by used blocks, with no pins; small integers and raw words are untouched; the special objects are the image of the heap's |
| `Reloading.SaveAndLoad` | src/vm/primitives.cpp:2134-2149 | Whatever the remembered set misses, exactly when the forwarding table has room, saving and loading at any base gives a memory that holds what was live before and nothing else, one to one, with its contents but for marks and pins, special objects included |
| `Reloading.ReloadedExactly` | src/vm/primitives.cpp:2134-2149 | Field by field, what a loaded object has in common with the one that was live |
| `ImageSaving.SameReachability` | src/vm/primitives.cpp:2134-2149 | In heap and image the same objects can be reached from the special objects |
| `ImageSaving.ShiftedImage` | src/vm/object.cpp:675-708 | Moving all blocks and all references by one distance gives an isomorphic image again |
| `ImageSaving.RedirectedImage` | src/vm/object.cpp:652-672 | Copies with their references looked up in the table are an isomorphic image |
| `Reloading.SizingCanFail` | src/vm/primitives.cpp:2136 | A concrete heap with special objects, interpreter and stack, everything in it live, whose objects do not fit the forwarding table |
| `Images.CopyOne` | src/vm/object.cpp:638-650 | Appending one copy keeps image, forwarding map and tiling right |
| `Images.SoundImage` | src/vm/object.cpp:652-672 | A sound heap has a sound image |
| `Images.SamePoints` | src/vm/object.cpp:652-672 | A copy refers to another just when the objects do |
| `Images.ShiftedCopy` | src/vm/object.cpp:675-690 | Shifting a redirected block is redirecting it by the shifted map |
| `ImageFiles.ImageMemory.CopyUsedObjects` | src/vm/object.cpp:638-650 | All used blocks of the space, and no free one, are copied one after the other and entered in the table, or the table has no room for them |
| `ImageFiles.ImageMemory.AdjustObjectFieldsWithTable` | src/vm/object.cpp:652-672 | Every block is redirected by the table and nothing else changes |
| `ImageFiles.ImageMemory.AdjustOopPointersFrom` | src/vm/object.cpp:693-708 | Every reference of every used block is shifted and nothing else changes |
| `ImageFiles.ImageMemory.ZeroPinCounts` | src/vm/gc.cpp:115-123 | No used block is pinned and nothing else changes |
| `ImageFiles.AdjustWithTable` | src/vm/object.cpp:652-672 | One block redirected by looking its references up |
| `ImageFiles.AdjustFieldsBy` | src/vm/object.cpp:675-690 | One block with all its references, and not its small integers, shifted |
| `ForwardTables.ForwardTable.Get` | src/vm/object.cpp:603-622 | The first position from the hashed one that has the address or is free |
| `ForwardTables.ForwardTable.Add` | src/vm/object.cpp:624-635 | The table holds one more pair, and fails exactly when it is full |
| `ForwardTables.SlotFinds` | src/vm/object.cpp:603-622 | What was added is found, and an address that was not leads to a free position unless the table is full |
| `ForwardTables.SlotTakes` | src/vm/object.cpp:624-635 | A new pair at the position found keeps the table a faithful map |
| `SmallIntegers.Plus` | src/vm/primitives.cpp:2219-2232 | The exact sum if it is in the tagged range, and overflow otherwise |
| `SmallIntegers.Minus` | src/vm/primitives.cpp:2285-2298 | The exact difference if it is in the tagged range, and overflow otherwise |
| `SmallIntegers.Times` | src/vm/primitives.cpp:2301-2314 | The exact product if it is in the tagged range, and overflow otherwise, although the product may have wrapped around |
| `SmallIntegers.BitShift` | src/vm/primitives.cpp:2254-2282 | Left: the exact result if it is in the tagged range, and overflow otherwise; right: division rounding down, for every distance |
| `SmallIntegers.QuotientTells` | src/vm/primitives.cpp:2309 | A wrapped product divided by one factor gives the other just when it did not wrap around |
| `SmallIntegers.ShiftTells` | src/vm/primitives.cpp:2270 | Shifting back gives the number just when no bit was lost |
| `SmallIntegers.FitsIsTopBits` | src/vm/object.cpp:56 | The two top bits of the word that a number is wrapped into are equal if and only if what the word holds, as a signed number, is in the tagged range |
| `SmallIntegers.TopBitOfXor` | src/vm/object.cpp:56 | On bits: the exclusive or with the shifted word has no top bit just when the two top bits are equal, and that is so for exactly the lowest and the highest quarter of the words |

## Left out

- InlineCallees: what sends, primitives and variables of outer contexts do is one oracle, the same before and after; heap-allocated callees, and sends with optional arguments as inlining sites, are not covered.
- PrimitiveBlockBehaves: that a primitive writes just its result register is part of the oracle.
- AllocateOld: the limit of old space is assumed not to be reached.
- RunProgram: the program's own objects are cloned; making arrays and payloads of other sizes only differs in how many words are filled with nil.
- Grow: the prototype of arrays has no slots of its own, and its map is read when the block has been allocated, as if it had not moved; a stack of size zero, whose doubling would not end, does not grow.
- Step: when a first try to allocate fails while something old is unnoticed the program stops, even if the collection that is due would be a full one.
- StoreWord: the stores that pass something else than the stored value to the barrier, or have none, are modelled by `StoreUnseen`, whose contract says when they break the remembered set.
- FullGc: pinning what the C stack may refer to and the profiler's list of moved objects are not part of this model; the pin counts in headers are.
- ApplyTo: wrong numbers of arguments, optional keywords and rest arguments are not covered.
- ReturnResult: the return from the bottom frame, which ends the interpreter, and the test for a dead context are not covered.
- Dispatch: of several definitions of the same highest rank the result is one of them; the order that decides which is not stated.
- Define: how the replaced definition is found (`src/vm/method.cpp:582-585`) is a parameter, and so is any choice it could make.
- NeverStaleExactly: that no walk gets shorter or needs less of the delegation stack by the copy is required of the walks of other objects, since entries are only claimed right for walks within those bounds.
- Send: hits for masks above 7, which compare no maps, are not covered.
- AddCallee: agreement with definitions that are made later is not claimed, since a more specific method does not flush the caches of callers.
- Accommodate: the request of 1 on capacity 0 is required away, because the source does not end.
- SaveImage: opening, writing and closing the file and its header, the magic number, the next hash and the dispatch number are not covered.
- FitsIsTopBits: that shifting a word left by one doubles it, and right by 63 leaves its top bit, is how the two shifts are read as arithmetic; `TopBitOfXor` is the statement on bits.
- BitShift: a shift of zero by a word or more is required away, because it has no meaning in the source.
- The clearing of the whole global cache at the end of a collection (`src/vm/gc.cpp:322-325`), which leaves an empty and so a right cache.
- `object_remove_slot`, whose second copy starts behind the first slot and not behind the removed one (`src/vm/object.cpp:592`).
- `prim_quo` of the least integer by -1, which is not checked against the range.
- `heap_forward`, and the ways of making objects other than `heap_clone`, which only add easy cases to allocation.
- Deciding which callees are worth inlining, and decompiling methods when a selector is redefined.
- Floats, files, sockets, pipes, external libraries, processes and printing: foreign calls.
- Plugins, editor modes and build files; parsing and drawing in `gprof2dot.py`, and its propagation of times.
