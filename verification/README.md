# SaltyOS, modelled and proved in Dafny

SaltyOS is a capability microkernel with its own boot loader, image tools and file system.
This project models the parts of it where something can go subtly wrong, and proves what
they promise.  `dafny verify dfyconfig.toml` checks everything.

* **Capabilities** (`Cap*.dfy`, `CNodeResolve.dfy`). The derivation forest, untyped memory,
  reference counts and slot allocator as one abstract state machine (`CapState`, `CapOps`)
  with invariants over all runs (`CapForest`, `CapRuns`, `CapMemory`, `CapRetype`,
  `CapRefs`, `CapSizes`) and the exact answer of every operation (`CapAnswers`), and the
  kernel's own form, an object of arrays with intrusive links and a
  bitmap (`CapSpace`), proved to implement it (`CapLinks`, `CapBitmap`). Two promises, about
  retype and reset, hold only under conditions: they are given as if-and-only-if lemmas,
  each with a concrete run in which two live frames end up on one page (`CapExamples`).
* **Arithmetic runtime** (`Bits`, `Wide`, `Udiv64`, `FloatSpec`, `Sticky`, `SoftFloat`,
  `SoftMul`, `SoftConvert`). 128-bit integers and IEEE 754 doubles on plain words. A finite
  double is an integer multiple of 2^-1074, so correct rounding (sections 4.3.1 and 5.4.1
  of IEEE 754-2019) is a statement about integers.
* **Memory objects** (`Mo*.dfy`). Copy-on-write parent chains, what destroying one object
  does to all others and where its frames go, and exactly when it leaves their child lists
  exact.
* **Console** (`ConsoleSpec`, `ConsoleModes`, `ConsoleLaws`). One screen, three buffering
  schemes, and what the control sequences mean in bytes and pixels.
* **Writers and their readers.** The initrd archive (`Cpio`, `CpioWriter`), the boot
  manifest and raw loads (`Crc64`, `CrcTable`, `Manifest`, `ManifestGuard`, `RawLoad`,
  `BootImage`, `DiskLayout`), boot memory and the BootInfo handed to the kernel (`BootAlloc`,
  `BootRoom`, `BootTlv`, `BootHandoff`, `BootMap`), and the SaltyFS image with the driver's
  search and read (`Salty*.dfy`). Each is proved from the writer's input to the reader's
  answer, and the formats between them in literal offsets and numbers (`Formats`,
  `SaltyFormat`).
* **Queues and ordering** (`WaitQueues`, `FutexKeys`, `Futex`, `PkgOrder`).

Machine words are natural numbers with explicit bounds; wrap-around is written as a
remainder where it can happen, and masks and shifts by powers of two as remainder and
quotient (`Bits` proves the two agree). Null pointers and empty slots are a reserved index.
Everything under one kernel lock is one step.

Where code and comments disagree the code is followed: the untyped reset comment promises
safety that holds only when the region is idle through every slot naming it; multiplication
below the normal range rounds twice; a boot allocation close to 2^64 bytes wraps; the
collapse of an emptied memory object leaves it on its parent's list; and the comment in the
SaltyFS handlers gives the extent header 48 bytes where both sides use 56.

## Model

| member | source | states |
|---|---|---|
| CapRuns.Run | kernite/src/cap/cdt.rs:26-177 | every sequence of boot, copy, mint, delete, revoke, retype, reset and untype steps, successful or failing in any mixture, ends in a state whose derivation tree is an acyclic forest with exact child lists, whose untyped lists are subsets of the tree children, and whose per-edge rules (rights, kinds, homes) hold |
| CapRuns.StepWellFormed | kernite/src/cap/untyped.rs:474-610 | one operation with any arguments, whether it succeeds, is refused or runs out of slots part-way, keeps the state well formed |
| CapRuns.InitialWellFormed | kernite/src/cap/slot.rs:131-180 | the empty slot array is well formed |
| CapForest.Revoke | kernite/src/cap/cdt.rs:118-137 | the depth-first revocation terminates and frees exactly the slot and everything derived from it; every other slot keeps its capability, parent and sibling order, with the slot only spliced out of its parent's list |
| CapForest.RevokeCompose | kernite/src/cap/cdt.rs:118-137 | revoking a child and then the rest frees the same slots as revoking the whole |
| CapForest.SubtreeSplits | kernite/src/cap/cdt.rs:197-211 | the slots derived from one are itself and the disjoint subtrees of its children |
| CapForest.InsertChildForest | kernite/src/cap/cdt.rs:38-63 | linking a parentless childless slot under a live one keeps the forest acyclic and its lists exact |
| CapForest.DeleteLeafForest | kernite/src/cap/cdt.rs:141-177 | deleting a childless capability keeps the forest |
| CapForest.DeleteLeafIsRevocation | kernite/src/cap/cdt.rs:141-177 | deleting a leaf frees just that slot and disturbs nothing else |
| CapRuns.HomeIsAncestor | kernite/src/cap/untyped.rs:368-467 | in every reachable state, walking up from a capability reaches the live slot that created its object, and both name the same object and kind |
| CapRuns.MetadataOwnedBySubtree | kernite/src/cap/untyped.rs:368-467 | all capabilities naming slot-indexed metadata lie in the derivation subtree of that slot, which is live; so reusing a free slot never overwrites metadata a live capability names |
| CapRuns.MintedIsLeaf | kernite/src/cap/mod.rs:243-288 | in every reachable state a minted capability has no derivation children |
| CapRuns.RightsShrink | kernite/src/cap/mod.rs:194-233 | along any chain of copies rights only shrink while object and kind stay |
| CapRuns.ParentsCanDerive | kernite/src/cap/mod.rs:194-233 | a capability with children has the grant right or is untyped memory |
| CapRefs.RunGood | kernite/src/cap/refcount.rs:21-68 | over every disciplined run live memory stays apart, reference counts equal the number of slots naming each object, and each object is destroyed exactly when its last capability goes |
| CapRefs.DisciplinedStep | kernite/src/cap/refcount.rs:21-68 | each single disciplined operation keeps memory apart and all counts and lifetimes exact |
| CapRefs.InitialGood | kernite/src/cap/refcount.rs:63-70 | the empty system is in such a state |
| CapRefs.DeleteAccounts | kernite/src/cap/refcount.rs:21-50 | deleting a capability logs a destruction if and only if it was the only one naming its object |
| CapRefs.CountsFit | kernite/src/cap/refcount.rs:63-70 | no more slots name an object than a 32-bit counter holds, so the wrapping increment never wraps |
| CapRefs.CarvedObjectIsFresh | kernite/src/cap/untyped.rs:540-604 | no existing capability names an object just carved |
| CapMemory.Laminar | kernite/src/cap/untyped.rs:474-610 | any two live objects that own memory are disjoint, or one was carved, possibly through nested untypeds, from the other |
| CapMemory.PhysicallyAligned | kernite/src/cap/untyped.rs:512-538 | when booted regions start at multiples of their size, every carved object whose alignment is a power of two is aligned in physical memory, through any nesting of untypeds |
| CapMemory.ObjectsUnique | kernite/src/cap/untyped.rs:303-360 | two live creations never share an object |
| CapRetype.RetypeMemory | kernite/src/cap/untyped.rs:474-610 | a retype keeps the memory invariant (carved objects disjoint, aligned, below their watermark) if and only if the request it carves has enough free slots, does not wrap the byte count, and, for more than one object, has a size that is a multiple of its alignment |
| CapRetype.CarvingBadlyBreaksMemory | kernite/src/cap/untyped.rs:540-607 | otherwise some carved object ends above the committed watermark or off its alignment |
| CapRetype.ShortRetypeStays | kernite/src/cap/untyped.rs:540-607 | a retype that runs out of slots part-way leaves its first object live at the unmoved watermark |
| CapRetype.CarvedAgain | kernite/src/cap/untyped.rs:540-607 | with a live object at the watermark the next retype of that size puts a second live object on the same span |
| CapRetype.LoopCompletes | kernite/src/cap/untyped.rs:540-604 | the allocation loop finishes if and only if there are as many free slots as objects |
| CapRetype.NthCarved | kernite/src/cap/untyped.rs:540-604 | the k-th object of a request sits at the base plus k sizes and is still there when the loop ends |
| CapRetype.ResetMemory | kernite/src/cap/untyped.rs:248-261 | rewinding the watermark keeps memory disjoint if and only if the region is idle through every slot that names it, not only through the slot the check looks at |
| CapExamples.SharedResetOverlaps | kernite/src/cap/untyped.rs:248-261 | a concrete run: carving through a copy of an untyped and resetting through the original leaves two live frames over the same page with no error reported |
| CapExamples.ShortRetypeOverlaps | kernite/src/cap/untyped.rs:540-607 | a concrete run: three frames asked for with two slots left, one deleted, one asked for again, and two live frames share a page |
| CapSizes.RunSized | kernite/src/cap/untyped.rs:268-300 | over every run each live carved object, and each booted region, spans exactly what its kind takes: the kernel structure for fixed kinds, 4096 bytes and tracking for an address space, a power of two of at least a page for a frame, a header and four bytes an entry for a CNode, whole pages for a memory object |
| CapSizes.SizeOccupies | kernite/src/cap/untyped.rs:268-300 | the computed size is that size for every kind and bits, and the only sizes refused are CNodes of 1 to 3 or more than 16 bits |
| CapSizes.RetypeMakes | kernite/src/cap/untyped.rs:540-604 | every slot a retype fills holds the kind asked for at the size its bits give, with every right, no badge and no derivation |
| CapAnswers.CopyAnswers | kernite/src/cap/mod.rs:194-233 | a copy succeeds if and only if the source has right 0x8, a slot is free, the rights are a subset and the depth is below 64; otherwise the first of these to fail names the error and nothing changes; the copy keeps object, kind and badge one level deeper |
| CapAnswers.MintAnswers | kernite/src/cap/mod.rs:243-288 | a mint succeeds if and only if a slot is free, the source is an endpoint or notification with right 0x8, the new rights lack 0x8 and the depth is below 64; errors and result likewise |
| CapAnswers.DeleteAnswers | kernite/src/cap/cdt.rs:141-177 | delete refuses exactly the capabilities others derive from, and otherwise frees that slot alone |
| CapAnswers.ResetAnswers | kernite/src/cap/untyped.rs:248-261 | the three refusals of a reset, and that it otherwise rewinds one region and changes nothing else |
| CapAnswers.UntypeAnswers | kernite/src/cap/untyped.rs:618-646 | the three refusals of an untype: not carved through this slot, others derive from it, others refer to its object; otherwise it frees that slot alone |
| CapAnswers.BootAnswers | kernite/src/init.rs:643-660 | a boot capability fails only without a free slot, and enters exactly what was asked for |
| CapAnswers.RetypeAnswers | kernite/src/cap/untyped.rs:474-610 | which answer a retype gives, for every request: each refusal in order, and success if and only if the bytes (modulo 2^64) fit from the next boundary of the kind and there are as many free slots |
| CapAnswers.BadCNodeRefused | kernite/src/cap/untyped.rs:268-300 | a CNode of 1 to 3 or more than 16 bits is an invalid argument |
| CapBitmap.SetBitmap | kernite/src/cap/slot.rs:198-243 | or-ing one bit into a word makes the bitmap stand for the occupancy with that slot taken |
| CapBitmap.ClearBitmap | kernite/src/cap/slot.rs:246-266 | masking one bit out makes it stand for the occupancy with that slot free |
| CapBitmap.TestBit | kernite/src/cap/slot.rs:198-243 | the masked test reads a slot as free exactly when it is |
| CapLinks.InsertLinked | kernite/src/cap/cdt.rs:38-63 | the four link writes of an insertion turn links that spell the old child lists into links that spell the new ones |
| CapLinks.UnlinkLinked | kernite/src/cap/cdt.rs:66-93 | the link writes of a removal spell the lists without the leaf, for first, middle and last children |
| CapLinks.AddUtLinked | kernite/src/cap/untyped.rs:173-192 | pushing a child on the untyped list, as links and as a sequence |
| CapLinks.RemoveUtLinked | kernite/src/cap/untyped.rs:195-231 | splicing a child out of the untyped list at any position, as links and as a sequence |
| CapSpace.Space.constructor | kernite/src/cap/slot.rs:131-180 | fresh arrays and bitmap represent the empty state |
| CapSpace.Space.AllocSlot | kernite/src/cap/slot.rs:198-243 | returns the first free slot from the cursor, then from zero, or none if and only if all are taken; arrays, links and bitmap represent the state with it taken |
| CapSpace.Space.FreeSlot | kernite/src/cap/slot.rs:246-266 | an isolated slot becomes free in the abstract state, bitmap and links together; an index out of range changes nothing |
| CapSpace.Space.InsertChild | kernite/src/cap/cdt.rs:38-63 | the in-place link update implements the abstract insertion |
| CapSpace.Space.Remove | kernite/src/cap/cdt.rs:66-93 | the in-place unlink implements the abstract removal of a leaf |
| CapSpace.Space.AddUtChild | kernite/src/cap/untyped.rs:173-192 | the in-place push implements the abstract one |
| CapSpace.Space.RemoveUtChild | kernite/src/cap/untyped.rs:195-231 | the list walk takes the child out wherever it stands and changes nothing when it is absent |
| CapSpace.Space.ReleaseObject | kernite/src/cap/refcount.rs:21-50 | counts down and logs the destruction exactly as the abstract release |
| CapSpace.Space.DeleteCapability | kernite/src/cap/cdt.rs:141-177 | deletes a live leaf with all its links and its reference, and leaves a free slot alone |
| CapSpace.Space.RevokeSlot | kernite/src/cap/cdt.rs:118-137 | the recursion inside a loop over mutating links reaches the abstract revocation |
| CapSpace.Space.CopySlot | kernite/src/cap/cnode.rs:193-233 | every check in order with its own error and an unchanged CNode, else the abstract copy and the new reference in the destination entry |
| CapSpace.Space.MintSlot | kernite/src/cap/cnode.rs:240-277 | likewise for minting |
| CapSpace.MoveSlot | kernite/src/cap/cnode.rs:283-309 | moves one reference between entries of one or two CNodes: the multiset of references is conserved, all other entries stay, and each error leaves both unchanged |
| CapSpace.Space.DeleteSlot | kernite/src/cap/cnode.rs:414-458 | refuses a capability with children, else deletes it and clears the entry |
| CapSpace.Space.RevokeIndex | kernite/src/cap/cnode.rs:392-408 | revokes and clears only the entry it was called on |
| CapSpace.Space.Reset | kernite/src/cap/untyped.rs:248-261 | succeeds exactly when this slot's untyped list is empty and then rewinds the watermark |
| CapSpace.Space.CarveLoop | kernite/src/cap/untyped.rs:540-604 | the loop creates the objects of the abstract one and puts their slots into consecutive entries |
| CapSpace.Space.Retype | kernite/src/cap/untyped.rs:474-610 | all checks, alignment, the loop and the watermark update implement the abstract retype; on success exactly num fresh slots are entered |
| CapSpace.Space.ChildCount | kernite/src/cap/cdt.rs:182-193 | the list walk counts the children |
| CapSpace.Space.DescendantCount | kernite/src/cap/cdt.rs:197-211 | the recursive walk counts the subtree without its root |
| CapSpace.Space.AllocatedCount | kernite/src/cap/slot.rs:316-327 | summing the ones of the bitmap words counts the occupied slots |
| CNodeResolve.ResolversAgree | kernite/src/cap/cnode.rs:534-728 | the three decoders give one answer on every address and width: same errors, and the capability or slot found is the one in the entry the third names |
| CNodeResolve.EncodedPathResolves | kernite/src/cap/cnode.rs:542-592 | any address whose low bits encode a path of guards and indices resolves to the end of that path |
| CNodeResolve.ResolutionTracesPath | kernite/src/cap/cnode.rs:542-592 | whatever resolves was reached along a path that the address encodes |
| CNodeResolve.ResolvesExactlyPaths | kernite/src/cap/cnode.rs:534-592 | an address of at most 64 bits resolves to a target if and only if it encodes a path of at most nine levels to it |
| Wide.UDivMod | rust/compiler_builtins.rs:350-373 | n = q*d + r with r < d for all 128-bit inputs and nonzero divisors, above 2^127 too |
| Wide.NextBit | rust/compiler_builtins.rs:361-370 | the shifted remainder never leaves 128 bits, whatever the divisor |
| Wide.SignedMulOverflow | rust/compiler_builtins.rs:386-412 | the product wraps to 128 bits, and overflow is flagged if and only if the true product is no i128 |
| Wide.SignedDivMod | rust/compiler_builtins.rs:471-494 | truncated division with the sign of the dividend on the remainder; only the minimum divided by -1 wraps |
| Wide.MulWideCorrect | rust/compiler_builtins.rs:313-335 | the schoolbook product of two words is exact |
| Wide.MulWordsCorrect | rust/compiler_builtins.rs:338-347 | the truncated product is the true product modulo 2^128 |
| Wide.ShlCorrect | rust/compiler_builtins.rs:264-277 | left shift is multiplication by a power of two modulo 2^128 for every count |
| Wide.LshrCorrect | rust/compiler_builtins.rs:280-293 | logical right shift is division for every count |
| Wide.AshrCorrect | rust/compiler_builtins.rs:296-310 | arithmetic right shift rounds the signed value toward minus infinity for every count |
| Wide.WrappingAdd | rust/compiler_builtins.rs:220-226 | word-wise addition with carry adds the 128-bit values modulo 2^128 |
| Wide.WrappingSub | rust/compiler_builtins.rs:229-235 | word-wise subtraction with borrow subtracts them modulo 2^128 |
| Udiv64.UDiv | boot/common/udiv64.c:14-41 | the shift-subtract loop returns n / d, and 0 for a zero divisor |
| Udiv64.UMod | boot/common/udiv64.c:44-66 | and n mod d, or 0 |
| SoftFloat.AddF64 | rust/compiler_builtins.rs:702-855 | for all operands the result is the exact sum rounded to nearest, ties to even, exact among subnormals, infinite past the overflow midpoint, +0 on cancellation; NaNs are passed on quiet, opposite infinities give the default NaN |
| SoftFloat.SubF64 | rust/compiler_builtins.rs:697-699 | the same for the difference |
| SoftFloat.SumUnique | rust/compiler_builtins.rs:702-855 | that specification leaves no choice: one bit pattern meets it |
| SoftFloat.SumNearest | rust/compiler_builtins.rs:824-855 | no finite double is closer to the exact sum than the result |
| SoftFloat.SumCommutes | rust/compiler_builtins.rs:702-855 | addition commutes, except for which of two NaNs is passed on |
| SoftFloat.Combine | rust/compiler_builtins.rs:760-802 | aligning with a sticky bit and adding or subtracting loses nothing that rounding could notice, with the right sign |
| SoftFloat.Normalize | rust/compiler_builtins.rs:807-822 | moving the top bit into place keeps the significand tracking the exact sum |
| SoftFloat.RoundAndPack | rust/compiler_builtins.rs:824-855 | rounding and packing yields the code of the rounded significand at its exponent |
| SoftFloat.PackedRounds | rust/compiler_builtins.rs:824-855 | three extra bits decide rounding as the exact value does, carry and overflow included |
| SoftFloat.ShiftStickyJams | rust/compiler_builtins.rs:764-786 | the guarded shift keeps exactly one bit of information about what was dropped |
| SoftMul.MulF64 | rust/compiler_builtins.rs:861-961 | the product is the correctly rounded one if and only if a result below the normal range is not rounded a second time by truncation; otherwise it is the next double towards zero |
| SoftMul.LeastTimesThreeQuarters | rust/compiler_builtins.rs:950-957 | a concrete pair: three quarters of the least double should be the least double and is not precise |
| SoftMul.ProductUnique | rust/compiler_builtins.rs:861-961 | one bit pattern is the correctly rounded product |
| FloatSpec.RoundsToNearest | rust/compiler_builtins.rs:702-855 | what rounding to nearest means: no finite double is nearer, and an equally near one exists only when the chosen one is even |
| FloatSpec.RoundsToUnique | rust/compiler_builtins.rs:702-855 | a number rounds to one code only |
| FloatSpec.OverflowThreshold | rust/compiler_builtins.rs:840-855 | rounding overflows if and only if the number reaches the midpoint above the largest double |
| SoftConvert.CmpF64 | rust/compiler_builtins.rs:1119-1152 | the answer is the sign of the difference of the values for all operands that are not NaN, and the caller's choice with a NaN |
| SoftConvert.FloatFromInt | rust/compiler_builtins.rs:1218-1259 | the double nearest to the integer, ties to even, for every i64 |
| MoTable.Objects.ResolvePageDepth | kernite/src/cap/memory_object.rs:303-349 | returns the frame of the nearest object up the parent chain whose entry holds one, told from the entry's bits above the twelfth, with the number of steps; nothing if and only if the index is past the end, the entry is being committed, or no such object exists |
| MoTable.Objects.ReleasePages | kernite/src/cap/memory_object.rs:485-548 | every frame goes back as often as the table holds it, entries with bit 0 to the untyped free lists and the others to the frame allocator, busy entries not at all, whatever the 128-entry batches do |
| MoTable.Objects.RemoveFromChildList | kernite/src/cap/memory_object.rs:652-671 | takes the child out of the list wherever it stands, and changes nothing when it is absent |
| MoTable.Objects.Destroy | kernite/src/cap/memory_object.rs:448-646 | destroys exactly the chain of objects whose last reference this was, returns each of their frames as often as they held it to where it came from, and leaves every survivor with its pages, its list without the dead, and its parent, or its parent's parent after a collapse |
| MoTable.Objects.CanCollapse | kernite/src/cap/memory_object.rs:600-613 | holds exactly for an intermediate object with one child left, no pages and a parent |
| MoTable.Objects.RepointChild | kernite/src/cap/memory_object.rs:613-638 | hands the remaining child and its slot to the grandparent |
| MoPages.EntryParts | kernite/src/cap/memory_object.rs:23-32 | whatever the low twelve bits of an entry, its address is the rest, bit 0 tells untyped memory and bit 1 a page being committed |
| MoPages.ResolvesToNearest | kernite/src/cap/memory_object.rs:303-349 | page i of an object is the frame of the nearest ancestor that has one, with the distance |
| MoPages.ResolvesToNothing | kernite/src/cap/memory_object.rs:303-349 | exactly when a page resolves to nothing |
| MoPages.ReleaseReturns | kernite/src/cap/memory_object.rs:485-548 | for every frame, how often it goes back to each allocator is how often the table holds it with that tag |
| MoPages.DestroyReturns | kernite/src/cap/memory_object.rs:448-646 | over a whole destroy with its cascade, each allocator gets each frame as often as the destroyed objects held it, and no other frame |
| MoDestroy.ResolveKept | kernite/src/cap/memory_object.rs:448-646 | after a destroy with its cascade and collapse every survivor resolves every index to the same page |
| MoCollapse.ExactUnlessCollapse | kernite/src/cap/memory_object.rs:448-646 | after a destroy the links can be read as exact child lists and reference counts if and only if the heap before it was not one where an object gets collapsed |
| MoCollapse.CollapseForeseen | kernite/src/cap/memory_object.rs:600-613 | whether a destroy collapses an object is decided by the heap before it: reference counts up the chain, then pages, parent and children of the first object that stays |
| MoCollapse.EmptyParentLingers | kernite/src/cap/memory_object.rs:613-642 | a concrete family of four: destroying one child leaves its dead parent on the grandparent's list |
| MoAfter.ExactAfter | kernite/src/cap/memory_object.rs:448-646 | when nothing was collapsed, which lists and counts are exact again |
| MoAfter.CollapseLeavesDangling | kernite/src/cap/memory_object.rs:613-642 | after a collapse no reading of the links is exact: the emptied object stays on its parent's list |
| PkgOrder.ResolveInstallOrder | tools/pkg/main.rs:351-389 | terminates on every repository; succeeds if and only if no missing package and no cycle is reachable from the requests; the order then has no repeats, holds every request and puts each dependency first; a failure names a reachable missing package or cycle |
| PkgOrder.Resolver.Visit | tools/pkg/main.rs:359-383 | extends the order by the package and all it needs, or blames something on a path from the request |
| PkgOrder.OrderedIsSound | tools/pkg/main.rs:351-389 | nothing reachable from a name in a dependency-first order is missing or cyclic |
| PkgOrder.OpenNameCycles | tools/pkg/main.rs:372-374 | meeting a package that is still open closes a dependency cycle |
| WaitQueues.WaitQueue.Push | kernite/src/ipc/queue.rs:35-47 | appends to the sequence the links spell; other links are untouched |
| WaitQueues.WaitQueue.PushFront | kernite/src/ipc/queue.rs:50-58 | prepends |
| WaitQueues.WaitQueue.Pop | kernite/src/ipc/queue.rs:61-75 | takes the first element, or answers null on an empty queue |
| WaitQueues.WaitQueue.Remove | kernite/src/ipc/queue.rs:89-117 | finds a thread if and only if it is queued and drops just it, tail pointer included |
| WaitQueues.RecvWaitQueue.Push | kernite/src/ipc/queue.rs:138-149 | appends, with both link directions exact |
| WaitQueues.RecvWaitQueue.PushFront | kernite/src/ipc/queue.rs:152-162 | prepends, with both link directions exact |
| WaitQueues.RecvWaitQueue.Pop | kernite/src/ipc/queue.rs:165-181 | takes the first link and clears its pointers |
| WaitQueues.RecvWaitQueue.Remove | kernite/src/ipc/queue.rs:192-220 | constant-time removal of a queued link drops just it; a link in no queue and the null link are refused |
| WaitQueues.LinkedDrop | kernite/src/ipc/queue.rs:89-117 | bypassing one element spells the sequence without it, with the right new head and tail |
| Futex.FutexTable.constructor | kernite/src/ipc/futex.rs:30-40 | no word has waiters |
| Futex.FutexTable.Wait | kernite/src/ipc/futex.rs:139-262 | blocks the caller last in line of its word if the word still holds the expected value, with or without a timeout; every refusal leaves the table as it was |
| Futex.FutexTable.RemoveThread | kernite/src/ipc/futex.rs:72-114 | takes the thread out of its word's line and disturbs no other word; a thread that does not wait changes nothing |
| Futex.FutexTable.Wake | kernite/src/ipc/futex.rs:267-368 | readies exactly the first min(count, waiters) threads of the word, longest waiting first, and leaves the rest and every other word in order, sharing a bucket or not |
| Futex.FutexTable.BucketInsert | kernite/src/ipc/futex.rs:57-66 | appends to one bucket with head and tail exact |
| Futex.FutexTable.TakeMatching | kernite/src/ipc/futex.rs:280-325 | one pass over the bucket unlinks matching waiters into a wake list in order until count is reached |
| Futex.FutexTable.Deliver | kernite/src/ipc/futex.rs:327-362 | readies the wake list in order |
| FutexKeys.KeepOther | kernite/src/ipc/futex.rs:280-325 | taking one word's waiters out of a bucket keeps every other word's line |
| Cpio.ParseHex8 | kernite/src/cpio.rs:21-36 | the value of eight hexadecimal digits of either case, or nothing for a short or malformed field |
| Cpio.FieldRoundTrip | tools/mkcpio.py:28-46 | a header field below 2^32 reads back as written |
| Cpio.ReadWritten | kernite/src/cpio.rs:47-107 | one written entry, met at a multiple of four, gives its bytes, stops at the trailer, or leads to the next entry |
| Cpio.FindFile | kernite/src/cpio.rs:47-107 | the loop is the recursive reader on every byte string, malformed ones too |
| Cpio.ArchiveLookup | kernite/src/cpio.rs:47-107 | in every written archive a lookup gives the first item of that name |
| CpioWriter.CalcPadPayloadSize | tools/mkcpio.py:85-102 | the least padding in range that puts the next data on a page boundary |
| CpioWriter.PadExists | tools/mkcpio.py:85-102 | from a multiple of four such a padding always exists |
| CpioWriter.PlanHolds | tools/mkcpio.py:128-182 | the alignment error is unreachable, and every selected entry's data starts on a 4096-byte boundary |
| CpioWriter.CreateArchive | tools/mkcpio.py:128-182 | the loops produce the bytes of the planned items and the trailer |
| CpioWriter.ArchiveFinds | kernite/src/cpio.rs:47-107 | for all sources that fit and avoid the tool's names, find_file on the generated archive returns exactly the first source's bytes, or nothing |
| CpioWriter.PlanOwned | tools/mkcpio.py:128-182 | every source's entry has the mode, owner and group listed for its rooted name, else for its bare name, else those of a plain file of root |
| CpioWriter.ExtensionsMatch | tools/mkcpio.py:80-82 | an entry is aligned if and only if its name ends in a listed extension, in either case |
| Formats.ArchiveEntry | tools/mkcpio.py:28-77 | every archive entry field by field at the offsets of the format, its name, and its data at the next multiple of four |
| Formats.TrailerStops | kernite/src/cpio.rs:47-107 | the reader stops at the trailer entry |
| Crc64.InitTable | tools/mkimage.py:88-99 | entry b is eight bit steps from b |
| Crc64.TableCrc | tools/mkimage.py:102-110 | the table-driven loop equals the bit-at-a-time LSB-first checksum on every byte string |
| Crc64.EightSteps | tools/mkimage.py:102-110 | eight bit steps are one table lookup and a byte shift |
| Crc64.FeedBitsIsSteps | tools/mkimage.py:88-110 | feeding bits one by one is xoring them in and stepping |
| CrcTable.LoaderTable | boot/common/manifest.h:114-181 | the values of the loader's 256 literal words are the table the checksum loop needs |
| Manifest.HeaderValid | boot/common/manifest.h:191-236 | with the loader's literal table, accepts exactly the valid headers and restores the buffer it zeroed in place |
| Manifest.BuiltIsValid | tools/mkimage.py:186-268 | every manifest the tool builds passes the loader's check, whatever follows it |
| Manifest.EntryReadsBack | tools/mkimage.py:148-183 | a written entry reads back field by field |
| Manifest.ManifestIsBytes | tools/mkimage.py:186-268 | and is a byte string |
| ManifestGuard.BuiltGuarded | boot/common/manifest.h:191-236 | of all one-byte changes to a built manifest the loader still takes none, except clearing the flag that asks for the check |
| ManifestGuard.OneByteRefused | boot/common/manifest.h:191-236 | any manifest that passes with its checksum is refused after a change of one byte outside size and flag |
| ManifestGuard.ChecksumsDiffer | tools/mkimage.py:102-110 | data that differ in one byte have different checksums |
| ManifestGuard.WrongChecksumRefused | boot/common/manifest.h:223-233 | a checksum field other than the checksum of the bytes is refused |
| Formats.ManifestHeader | boot/common/manifest.h:55-67 | a built manifest header in its literal numbers |
| Formats.ManifestEntry | boot/common/manifest.h:75-88 | every entry of a built manifest has its fields at the documented offsets |
| Formats.LoaderFinds | boot/common/manifest.h:238-270 | kernel and ramdisk are found as types 1 and 2 |
| Formats.StageThreeFound | boot/common/manifest.h:238-270 | and stage 3 as type 3, with its bytes at its extent |
| RawLoad.FindEntry | boot/common/manifest.h:238-270 | the loop returns the first entry of the type |
| RawLoad.BuiltFind | boot/common/manifest.h:257-270 | in a built manifest the first component of a type is found, and nothing when there is none |
| RawLoad.LoadExtents | boot/stage3/fs/raw.c:14-84 | when the extents are on the disk the buffer gets their bytes in order up to its size, and nothing past that; a negative result means a read failed |
| RawLoad.LoadPartial | boot/stage3/fs/raw.c:30-54 | the last extent is cut at the end of the buffer: whole sectors, then part of one |
| RawLoad.LoadFromEntry | boot/stage3/fs/raw.c:86-123 | at most the recorded size is loaded; a bad extent count and a failed read have their own results |
| BootImage.ImageHolds | tools/mkimage.py:711-868 | manifest, kernel and ramdisk are where the manifest says in the finished image |
| BootImage.ImageLoads | boot/stage3/fs/raw.c:86-123 | from every image the tool accepts, the entries found for kernel and ramdisk yield exactly the original bytes |
| BootImage.LoadKernel | boot/stage3/fs/raw.c:86-123 | finding and loading the kernel of any accepted image fills the buffer with its own bytes, or as many as fit, and leaves the rest of the buffer alone |
| BootImage.LoadInitrd | boot/stage3/fs/raw.c:86-123 | likewise for the ramdisk, which is found if and only if it has bytes |
| BootImage.YieldsLoad | boot/stage3/fs/raw.c:86-123 | such an entry fills a buffer with the data or as much as fits |
| DiskLayout.ImagePlaces | tools/mkimage.py:711-868 | boot record, manifest, stage 2, stage 3 and kernel are at sectors 0, 2048, 2112, 2240 and 2752, the ramdisk at the first sector after the kernel, the root file system at the next megabyte, none disturbed by a later write |
| DiskLayout.ImageLength | tools/mkimage.py:711-760 | the image is as long as asked for or, when that is too short, ends at the next megabyte |
| ConsoleModes.SameInEveryMode | kernite/src/console/mod.rs:367-965 | two consoles in any of ring, linear and text-grid mode, fed the same chunks and flushed after each, show the same text-area pixels after every flush |
| ConsoleModes.Console.WriteBytes | kernite/src/console/mod.rs:345-363 | a run of bytes leads to the screen the specification gives for them, and after its flush video memory shows it |
| ConsoleModes.Console.Flush | kernite/src/console/mod.rs:926-965 | afterwards every text pixel of video memory is the screen's and no row is dirty, although only dirty rows are copied |
| ConsoleModes.Console.WriteChar | kernite/src/console/mod.rs:367-416 | escape parsing and output follow the specification in every mode |
| ConsoleModes.Console.DispatchCsi | kernite/src/console/mod.rs:454-517 | cursor, erase and colour sequences act as the specification says, whose meaning ConsoleLaws gives in bytes and pixels |
| ConsoleModes.Console.EmitChar | kernite/src/console/mod.rs:419-452 | printing, wrapping and line feeds follow it |
| ConsoleModes.Console.HandleSgr | kernite/src/console/mod.rs:519-583 | the colour codes apply in order |
| ConsoleModes.Console.EraseInDisplay | kernite/src/console/mod.rs:604-661 | the pixel fill and the cell clear erase the same part of the screen |
| ConsoleModes.Console.EraseInLine | kernite/src/console/mod.rs:664-693 | likewise for a line |
| ConsoleModes.Console.DrawGlyph | kernite/src/console/mod.rs:764-812 | pixels in a shadow and a cell in the grid stand for the same glyph |
| ConsoleModes.Console.ScrollUp | kernite/src/console/mod.rs:815-883 | advancing the ring, compacting it, moving lines and moving cells all scroll the screen by one row |
| ConsoleModes.Console.FillRow | kernite/src/console/mod.rs:886-924 | fills exactly the pixels of the erased cells |
| ConsoleModes.Console.ClearCells | kernite/src/console/mod.rs:586-601 | blanks exactly the cells of the rectangle |
| ConsoleModes.ColorRoundTrip | kernite/src/console/mod.rs:698-722 | a palette colour survives the trip through its index |
| ConsoleSpec.WriteInBounds | kernite/src/console/mod.rs:367-416 | every byte keeps the cursor on the screen and the parser state in range |
| ConsoleSpec.WriteAll | kernite/src/console/mod.rs:345-363 | so does every stream |
| ConsoleSpec.SpaceIsBlank | kernite/src/console/mod.rs:725-753 | a blank cell renders as background, as an erased shadow does |
| ConsoleLaws.ProgramDone | kernite/src/console/mod.rs:367-583 | a program of commands written as one byte stream does each of them in turn: cursor moves by the number in the named direction, clipped; placement; erasure of exactly the pixels after, before or around the cursor; colour codes; saving and restoring; printing; line feed, return, tab and backspace |
| ConsoleLaws.CommandDone | kernite/src/console/mod.rs:367-517 | each command on its literal bytes, with numbers of any size (read modulo 2^16) and any number of colour codes (the first eight count) |
| ConsoleLaws.CharacterDone | kernite/src/console/mod.rs:419-452 | a printed character puts the font row at its cell, highest bit leftmost, moves one column on, and at the end of the last row scrolls the picture up sixteen lines |
| ConsoleLaws.ColoursDone | kernite/src/console/mod.rs:519-583 | the codes of a colour sequence apply in order: 30 to 37, 40 to 47, 90 to 97 and 100 to 107 select palette entries, 1 brightens, 0, 22, 39 and 49 go back to defaults |
| ConsoleLaws.NumberLeftOut | kernite/src/console/mod.rs:404-416 | a sequence without a number acts as with zero |
| ConsoleLaws.CursorComesBack | kernite/src/console/mod.rs:507-517 | whatever commands come between a save and the next restore, the cursor comes back |
| SaltyTree.SplitLeafItems | tools/mksaltyfs.py:289-322 | the packing loop yields the specified leaves, or the error |
| SaltyTree.SplitHolds | tools/mksaltyfs.py:289-322 | splitting keeps every item in order, makes only leaves of at most 4096 bytes, and fails if and only if one item alone does not fit |
| SaltyFormat.KeyOrder | userland/drivers/filesystems/saltyfs/src/types.rs:82-96 | keys compare as numbers with the object above the item type above the offset |
| SaltyFormat.SplitPacks | tools/mksaltyfs.py:289-322 | leaves are cut only where the next item would pass 4096 bytes, counting 64 for the header and 25 for each item, and an item is refused if and only if it has more than 4007 bytes |
| SaltyFormat.InodeLayout | tools/mksaltyfs.py:521-690 | a file's inode item, key and fields at their offsets |
| SaltyFormat.ExtentLayout | tools/mksaltyfs.py:657-687 | a file's extent item: up to 256 bytes inline, otherwise position and length of its blocks |
| SaltyFormat.TreeStarts | tools/mksaltyfs.py:511-517 | where the tree starts for an image of any size |
| SaltySearch.BlocksFit | tools/mksaltyfs.py:243-287 | every leaf and internal block fits 4096 bytes |
| SaltyBuild.BuildLevels | tools/mksaltyfs.py:341-368 | the levels shrink to one root, each grouping the one below |
| SaltyBuild.WriteBlocks | tools/mksaltyfs.py:370-392 | nodes are numbered leaves first, root last, and each block is the right node of its level |
| SaltyBuild.BuildTree | tools/mksaltyfs.py:325-392 | no items or one too large is an error; otherwise the blocks are exactly a contiguous range and hold the tree |
| SaltySearch.Search | userland/drivers/filesystems/saltyfs/src/btree.rs:71-129 | the driver's loop with its depth limit is the recursive descent |
| SaltySearch.ChooseHolds | userland/drivers/filesystems/saltyfs/src/btree.rs:101-125 | the chosen pointer starts at or before the key and the next one after it |
| SaltySearch.SearchFinds | userland/drivers/filesystems/saltyfs/src/btree.rs:71-129 | for strictly sorted items a search answers as the item list does, for keys present and absent |
| SaltySearch.LeafFind | userland/drivers/filesystems/saltyfs/src/btree.rs:13-32 | the scan gives the first item with the key |
| SaltyLayout.SortSorts | tools/mksaltyfs.py:689-690 | distinct keys come out in strictly growing order with the same items |
| SaltyLayout.SortPermutes | tools/mksaltyfs.py:689-690 | the sort is a permutation |
| SaltyLayout.SortFinds | tools/mksaltyfs.py:689-690 | it is stable: the first item with a key stays first |
| SaltyLayout.BuildMetadata | tools/mksaltyfs.py:521-690 | items, data extents and the next free block are those of the specification |
| SaltyLayout.CountKept | tools/mksaltyfs.py:692-717 | probe and final pass always build trees with the same number of blocks |
| SaltyLayout.LeavesShape | tools/mksaltyfs.py:289-322 | the number of leaves depends only on keys and sizes |
| SaltyLayout.TilesCover | tools/mksaltyfs.py:657-687 | extents that follow one another overlap nowhere and leave no block out |
| SaltyLayout.DepthFits | userland/drivers/filesystems/saltyfs/src/btree.rs:71-129 | a tree with 64-bit block numbers stays within the driver's sixteen levels |
| SaltyImage.BuildBitmap | tools/mksaltyfs.py:742-745 | bit b is set if and only if block b is in use |
| SaltyImage.WriteExtents | tools/mksaltyfs.py:770-780 | every extent ends up at its block, zero padded, with nothing before it disturbed |
| SaltyImage.CreateImage | tools/mksaltyfs.py:521-792 | the block-count error is unreachable; each other error is reported if and only if the image is under 16 blocks, an item cannot be stored, or more blocks are needed than there are; otherwise the image is sound |
| SaltyRead.BlocksOwned | tools/mksaltyfs.py:719-745 | every block below the mark belongs to the head, the tree or exactly one file, none above does, and the bitmap marks just these |
| SaltyRead.ImageFinds | userland/drivers/filesystems/saltyfs/src/btree.rs:293-299 | over distinct keys a lookup in the image answers as the item list does |
| SaltyRead.ImageBlocksFit | tools/mksaltyfs.py:325-392 | every tree block of the image fits 4096 bytes |
| SaltyRead.VisitFirst | userland/drivers/filesystems/saltyfs/src/btree.rs:222-267 | what the driver's walk over an inode's items meets first in a leaf |
| SaltyRead.VisitMeets | userland/drivers/filesystems/saltyfs/src/btree.rs:222-267 | in a sorted leaf it meets the item at offset 0 first if that is there |
| SaltyRead.ReadRegular | userland/drivers/filesystems/saltyfs/src/handlers.rs:381-402 | the block loop copies the bytes of the range, or fails if and only if one of them cannot be read |
| SaltyRead.ReadExtent | userland/drivers/filesystems/saltyfs/src/handlers.rs:326-406 | the clipped part of an inline or regular extent |
| SaltyRead.ReadFile | userland/drivers/filesystems/saltyfs/src/handlers.rs:300-410 | reading any file of an image at any offset and count, with its size from the inode item and its extent from the walk, gives exactly those bytes of its content |
| BootAlloc.RunSafe | boot/stage3/boot_alloc.c:62-94 | over every run of requests of at most 4 GB all allocations are page aligned, inside usable memory, below 4 GB and pairwise disjoint |
| BootAlloc.StepKeeps | boot/stage3/boot_alloc.c:159-205 | one such request keeps that, and its answer is 0 or covers the request at the asked alignment |
| BootAlloc.ProperWhen | boot/stage3/boot_alloc.c:62-94 | an answer is proper if and only if the request is at most 4 GB or no region passes the wrapping comparison |
| BootAlloc.HugeRequestSucceeds | boot/stage3/boot_alloc.c:84-90 | a concrete request just short of 2^64 bytes wraps and is granted |
| BootRoom.AllocFails | boot/stage3/boot_alloc.c:62-94 | a request of at most 4 GB fails if and only if it is for nothing or no usable region has an aligned place for its pages above the watermark and below 4 GB |
| BootRoom.AllocFirst | boot/stage3/boot_alloc.c:62-94 | otherwise it gets the lowest such place in the first region that has one |
| BootAlloc.Allocator.BiosAlloc | boot/stage3/boot_alloc.c:62-94 | the scan takes the first region that passes and moves the watermark, or changes nothing |
| BootAlloc.Allocator.Allocate | boot/stage3/boot_alloc.c:159-205 | implements the abstract step, with the first sixteen allocations on record |
| BootAlloc.Allocator.RecordAlloc | boot/stage3/boot_alloc.c:23-38 | records in order while there is room |
| BootTlv.WalkReads | kernite/src/bootinfo.rs:232-316 | the kernel's walk over any written record list applies exactly those records in order and never leaves the buffer |
| BootTlv.Parse | kernite/src/bootinfo.rs:210-317 | a bad magic, version or size gives nothing, otherwise the result of the walk |
| Formats.BootInfoHeader | boot/common/bootinfo_tlv.h:59-66 | the header in its literal numbers |
| Formats.BootInfoRecord | boot/common/bootinfo_tlv.h:234-269 | a record's type, length, data and zero padding to eight bytes |
| BootHandoff.CopyIn | boot/common/bootinfo_tlv.h:256-263 | the forward copy is right even when source and destination overlap in one buffer |
| BootHandoff.Builder.Add | boot/common/bootinfo_tlv.h:234-269 | appends one record if and only if it fits, with the header's total kept exact, also from data further on in the same buffer |
| BootHandoff.Builder.Finish | boot/common/bootinfo_tlv.h:271-281 | writes the end marker if it fits |
| BootMap.WriteMap | boot/stage3/handoff.c:59-203 | firmware entries, cut to leave room, then every record, at the end of the buffer |
| BootMap.MapReads | kernite/src/bootinfo.rs:250-268 | a map parses back whole up to 256 entries and as its first 256 past that |
| BootMap.ExpectedTells | boot/stage3/handoff.c:17-28 | the map holds as many firmware regions as 256 entries leave room for, each of its own type or reserved, then every allocation as type 17, 18 or 19 for kernel, ramdisk and BootInfo and 16 for all others |
| BootMap.BuildBootinfo | boot/stage3/handoff.c:30-275 | the kernel's parse of the buffer has that map, the kernel image and the ramdisk |
| BootMap.BootAndParse | kernite/src/bootinfo.rs:210-317 | while at most sixteen allocations were made, the parsed map holds every one with its address, length and type number, is usable (type 1) only where a firmware region of type 1 is, and flags, kernel and ramdisk come through |

## Left out

- CNode destruction, save_caller, IRQ bindings and scheduler references: other holders of objects than capability slots.
- CNode entries: after a revoke other CNodes may still hold references to freed slots; invariants are about the global slot array.
- CapRefs.RunGood: for disciplined runs only, that is boot hands out fresh memory, retype requests can be met in full and a reset region is idle through every slot naming it; the exact conditions are RetypeMemory and ResetMemory.
- CapRuns.RightsShrink: not along mint edges, where the code checks no subset.
- `mutate_slot` and the CDT integrity checker: they only combine operations modelled here.
- CapRefs.DisciplinedStep: for disciplined operations only, as RunGood.
- Mapping state, page tables, TLB and cache maintenance, locks and interrupt masking.
- Memory object commit, copy-on-write resolution and reverse maps; the radix tree is a sequence of entries, and giving an untyped page back always finds its region.
- Destroy pins of memory-object clones held by other kernel objects.
- MoCollapse.ExactUnlessCollapse: one destroy at a time; runs of several destroys are claimed only as long as none collapses an object.
- Division, f32 and f128 arithmetic, truncation and float-to-integer conversions in the runtime.
- SoftFloat.AddF64: the payload of a NaN result is the first operand's NaN made quiet, as in the code; signalling is not modelled.
- Console start-up geometry: at least one row and column, a pitch that holds the width and, in text mode only, at most 240 columns are preconditions; a pitch is counted in pixels, memory by scan lines, and the precomputed table for the default colours is the same pixel function.
- ConsoleModes.SameInEveryMode: pixels of the text area; margins beyond whole cells are not compared.
- Futex timeouts: the race between a wake and an expiring timer lies in the sleep queue; a timed wait is modelled up to its queueing.
- Futex.FutexTable.Deliver: the guard for a thread the timer already readied does not fire, since the timer's half of that race is not modelled.
- Futex.FutexTable.Wait: the address is nonzero and the caller is not already waiting, as the system call guarantees.
- The archive tool's manifest and permission files are inputs, as lists and maps.
- CpioWriter.ArchiveFinds: sources whose names avoid the padding and trailer names and whose sizes fit the 32-bit header fields.
- GPT, protective MBR and the EFI partition of the disk image: their sectors are inputs.
- ELF loading and ACPI.
- ManifestGuard.OneByteRefused: a change to the size field is not claimed to be refused when more bytes follow the manifest, since the checksum then covers other bytes.
- BootAlloc.Allocator.Allocate: the BIOS allocator only, not the UEFI one.
- BootMap.WriteMap: firmware maps in E820 format only, not the UEFI one; BuildBootinfo likewise.
- BootMap.BuildBootinfo: the records after the ramdisk are a list of foreign records, whatever their contents.
- BootTlv.Parse: framebuffer, ACPI and SMBIOS records are skipped like unknown ones.
- SaltyFS nodes are structured blocks: their byte layout and CRC32C are not modelled, only their sizes and the bytes of inode and extent items.
- SaltyLayout.BuildMetadata: directory items and back references are inputs; names hash to keys, and lookups are claimed for distinct keys.
- SaltyRead.VisitFirst: the walk is followed to the first item it meets, which ends it for every file the tool writes; its way on to further leaves is not modelled.
- SaltyRead.ReadExtent: specified for extents at file offset 0 that span the file, the only ones the tool writes.
- SaltyFS copy-on-write updates, the intent log and the allocator of the mounted file system.
- SaltyImage.CreateImage: a tail shorter than one block after the last block is not represented.
- PkgOrder.ResolveInstallOrder: error values name the package; message texts are not modelled.
