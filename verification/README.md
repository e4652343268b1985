# Verified model of the kernel's ACPI, block I/O and boot-memory core

This project models the parts of the kernel where several steps, several agents
or several layers have to agree, and proves what they agree on. Concurrent
protocols are state machines over single shared accesses, and the results hold
at every point of every run. Code that walks or rewrites linked structures and
buffers is written as methods over nodes, arrays and sequences, each proved
against a function or predicate that says what it must achieve.

| file | what it models |
|---|---|
| `GlobalLock.dfy` | the lock word shared with firmware, its waiters, the release interrupt, and the public sequence-number check |
| `RwLock.dfy` | the readers-writer lock built from two mutexes and a count |
| `GpeMask.dfy` | masking one general-purpose event or a whole block against interrupts, deferred work and the wake action |
| `MutexOrder.dfy` | the array of held mutexes and the sync-level discipline of one interpreter context |
| `Namespace.dfy`, `NamespaceWalk.dfy`, `NamespaceTeardown.dfy` | the namespace tree, its pointer-chasing traversal and its teardown |
| `OpRegion.dfy` | which address-space handler serves which operation region |
| `Names.dfy`, `AmlNames.dfy` | resolving path strings and AML NameStrings, printing paths |
| `RefCount.dfy` | reference counts of chained objects |
| `DeepCopy.dfy` | copying nested packages with an explicit stack |
| `Bits.dfy`, `BitCopy.dfy`, `BufferField.dfy`, `FieldUnit.dfy` | bit copies, buffer fields and field units |
| `ResourceCodec.dfy` | what a resource template means, and which template a list of native resources gets |
| `ResourcePrograms.dfy`, `ResourceEncoding.dfy`, `ResourceBuffers.dfy` | the conversion programs, the two interpreters that run them over byte buffers, and the conversions of whole templates |
| `Numbers.dfy` | printing an integer and parsing it back |
| `BlockIo.dfy` | byte-granular reads and writes over a sector device |
| `MemoryMap.dfy` | boot memory maps of the Linux and LoongArch paths |
| `Common.dfy` | the option type and the minimum and maximum that the other modules share |

## What the model takes from outside

- Atomic accesses, spinlocks, mutexes and semaphores behave as such; which thread
  moves next, which timeout expires and which allocation address comes back is
  left open. Allocation succeeds.
- Firmware follows the Global Lock protocol of section 5.2.10.1 of ACPI 6.5.
- The wait primitive used while masking an event drains the work that was in
  flight. The kernel's own binding of that primitive is a stub
  (`kernel/src/acpi/kernel_api.c`, lines 342-350), so this is an assumption and not
  a fact about this kernel.
- Device and user-copy failures are decided by the environment, request by
  request; a failed transfer may leave anything in the range it was asked to fill.
- Integers are unbounded except where the width matters: bytes are 8-bit vectors
  in the bit and field modules, the Global Lock word is a 32-bit vector, the
  recursion depth of a mutex stops at 0xFFFF, firmware memory ranges wrap at 64 bits.

## Where the code differs from what one would expect

- Releasing the Global Lock with the sequence number that acquiring it returned is
  always rejected; `GlobalLockTicket.AcceptedIff` says which number is accepted.
- A bare NullName resolves to the scope as a string but is rejected as AML bytes,
  and a bare MultiName of one segment is searched for above the scope only as a
  string; `NameStrings.ResolversAgreeIff` is exact about both, and
  `NameStrings.MultiNameDiffers` is a namespace in which the second happens.
- Clearing a whole event block with a plain register write can be undone by a call
  that has already loaded the register: `GpeMask.BlockMaskLosesRace` is such a run,
  `GpeMask.BlockMaskHoldsIff` the exact condition. The block call also skips a
  register whose current mask is empty, masked or not, enabled or not
  (`GpeMask.BlockMaskSkipsIff`). A racing conditional enable is one way to an enabled
  register with an empty current mask (`GpeMask.SkipsAfterRace`); the wake action
  followed by adding and removing a user of another event is one without any race
  (`GpeMask.SkipsAfterWake`); and a register that is masked and clear when it is
  skipped can still be enabled by a call that loaded it earlier
  (`GpeMask.SkippedReopens`).
- The bulk wake action ignores masks: a masked event stays disabled exactly if no
  wake action is committed while it is armed (`GpeMask.MaskedStaysDisabledIff`,
  `GpeMask.WakeEnablesMasked`).
- Disarming an event for wake keeps the bit of that event and drops the bits of all
  others of its register (`GpeMask.ArmedMeans`, `GpeMask.DisarmedStaysArmed`).
- A serialized method that calls itself gives up its mutex when the inner call
  returns (`MutexOrder.NestedCallUnlocks`, `MutexOrder.RunProtectedIff`). A return
  that leaves a mutex held can put the context's level below that mutex
  (`MutexOrder.ReturnLeavesLevelLow`, `MutexOrder.ReturnKeepsIff`).
- A reference copied as a package element keeps what it refers to but not its kind:
  the copy is always of the RefOf kind (`DeepCopy.CopiedSameIff`,
  `DeepCopy.ArgumentKindLost`).
- The traversal leaves its type-match flag as the previous node set it when a node
  carries no object, so such a node can get calls that its type does not earn
  (`NamespaceWalk.BareNodeIsCalled`), and if it is temporary it can hide wanted nodes
  below it (`NamespaceWalk.BareNodeHides`); `NamespaceWalk.CallsWantedIff` is exact
  about both.
- The short IRQ form is chosen without looking at the wake capability, which it
  cannot hold (`ResourceCodec.WakeLost`, `ResourceCodec.ContentBackIff`).
- The short form of a start of dependent functions skips one instruction too few and
  sets a bit in the byte behind its descriptor. The next descriptor's header replaces
  that byte, and there always is one (`ResourceEncoding.ProgramEncodes`,
  `ResourceBuffers.NativeResourcesToAml`).

## Model

| member | source | states |
|---|---|---|
| `LockWordBits.AcquireFields` | kernel/src/acpi/mutex.c:20-40 | the bit expression of an acquire attempt sets owned, sets pending exactly if the word was owned, and keeps the 30 reserved bits |
| `LockWordBits.ReleaseFields` | kernel/src/acpi/mutex.c:42-51 | the bit expression of a release clears owned and pending and keeps the reserved bits |
| `LockWordBits.FieldsDetermineWord` | kernel/src/acpi/mutex.c:20-51 | two 32-bit words with the same fields are equal, so the compare-and-swap on the word is one on the fields |
| `GlobalLock.RunKeeps` | kernel/src/acpi/mutex.c:53-109 | the invariant of lock word, waiters, spinlock, event and interrupt holds at every point of every interleaving |
| `GlobalLock.MutualExclusion` | kernel/src/acpi/mutex.c:53-109 | never two owners among all OS threads and firmware; the owned bit is set exactly while somebody owns the lock |
| `GlobalLock.ReleaseReportsRequests` | kernel/src/acpi/mutex.c:42-51 | however often the swaps of acquire and release are retried, a release reports exactly whether firmware tried to take the lock while the thread owned it; it cleared both bits in one swap and the thread did nothing since |
| `GlobalLock.NoLostWakeup` | kernel/src/acpi/event.c:1960-1984 | while an OS thread waits, its event is signalled or a release notification is owed, sent or being handled |
| `GlobalLock.QuiescentMeansSignalled` | kernel/src/acpi/event.c:1960-1984 | with firmware out and its notifications handled no waiter is left asleep |
| `GlobalLock.FirmwareNoLostWakeup` | kernel/src/acpi/mutex.c:99-109 | firmware that found the lock taken is owed or has been sent the OS's release notification |
| `GlobalLock.ReservedBitsKept` | kernel/src/acpi/mutex.c:20-51 | the reserved bits of the word never change over a run |
| `GlobalLockTicket.AcceptedIff` | kernel/src/acpi/mutex.c:136-176 | after an acquire a release is accepted exactly for the returned number plus one, never for the returned number |
| `RwLock.RunKeeps` | kernel/src/acpi/mutex.c:326-363 | the invariant tying both mutexes and the reader count to the threads holds in every interleaving, failures included |
| `RwLock.WriterIsAlone` | kernel/src/acpi/mutex.c:326-363 | no writer is inside together with a reader or another writer |
| `RwLock.WriteMutexMeaning` | kernel/src/acpi/mutex.c:326-363 | outside the transition steps the write mutex is held exactly if there is a writer or the reader count is positive, and the count is the number of readers |
| `RwLock.DecrementAlwaysEnabled` | kernel/src/acpi/mutex.c:342-352 | the reader count never underflows |
| `GpeMask.RunKeeps` | kernel/src/acpi/event.c:327-389 | the masking invariant holds for any number of state changes in flight, with wake and block actions among them |
| `GpeMask.MaskedStaysDisabledIff` | kernel/src/acpi/event.c:1196-1242 | over every run without an unmask: once masking has returned, the hardware enable bit stays clear exactly if no wake action is committed while the event is armed |
| `GpeMask.SettledUntil` | kernel/src/acpi/event.c:1196-1242 | only an unmask of the event, or a wake action while it is armed, ends the masked state |
| `GpeMask.LoadedSince` | kernel/src/acpi/event.c:327-375 | the value a call holds is the register at its load, and still the register if no unlocked write came since |
| `GpeMask.NeighboursKept` | kernel/src/acpi/event.c:327-375 | over every run: a state change leaves the other bits of the register alone unless an unlocked write came after its load; then it puts the loaded bits back |
| `GpeMask.WakeEnablesMasked` | kernel/src/acpi/event.c:666-702 | a run in which the wake action enables an event after its mask call has returned |
| `GpeMask.ArmedMeans` | kernel/src/acpi/event.c:1748-1783 | an event is armed for wake exactly if no other event of the register has been disarmed since it was armed |
| `GpeMask.DisarmedStaysArmed` | kernel/src/acpi/event.c:1748-1783 | a run in which an event is armed, disarmed and still armed |
| `GpeMask.BlockMaskLosesRace` | kernel/src/acpi/event.c:704-738 | a run of the machine in which the block call returns with a masked event enabled |
| `GpeMask.BlockMaskSkipsIff` | kernel/src/acpi/event.c:704-738 | over every run: a block call that finds the current mask empty changes nothing, and whatever follows the register stays masked and clear, until an unmask or an armed wake, exactly if it already was and no call holds a loaded value to write back non-empty |
| `GpeMask.SkipsAfterRace` | kernel/src/acpi/event.c:704-738 | a run in which a racing conditional enable leaves an enabled register that is skipped |
| `GpeMask.SkipsAfterWake` | kernel/src/acpi/event.c:1119-1131 | a run without interrupts in which adding and removing a user clears the current mask of a register that the wake action enabled, and the block call skips it |
| `GpeMask.SkippedReopens` | kernel/src/acpi/event.c:704-738 | a run in which a skipped register is masked and clear at the return and enabled afterwards |
| `GpeMask.BlockMaskHoldsIff` | kernel/src/acpi/event.c:704-738 | over every run, any other block call reaches its unlocked write, and from there until an unmask or an armed wake the register stays masked and clear exactly if at the write no call holds a loaded value that it will write back non-empty |
| `HeldArrays.HeldArray.Push` | kernel/src/acpi/interpreter.c:108-119 | appending, inline or in the growing block, appends to the contents |
| `HeldArrays.HeldArray.At` | kernel/src/acpi/interpreter.c:104-106 | an index reads the contents across both storages |
| `HeldArrays.HeldArray.Pop` | kernel/src/acpi/interpreter.c:104-106 | drops the newest entry |
| `HeldArrays.RemoveIdx` | kernel/src/acpi/interpreter.c:121-162 | removing an index from the split storage is removing it from the sequence |
| `HeldArrays.FindFromEnd` | kernel/src/acpi/interpreter.c:203-219 | the backward search finds the last occurrence, or reports that there is none |
| `MutexOrder.RunOrdered` | kernel/src/acpi/interpreter.c:3453-3539 | at every point of every run of acquire, release, entry and return, as long as the returns fit, the held mutexes are distinct, owned and ordered by sync level, and the context level is at least the newest one's |
| `MutexOrder.RunOrderedIff` | kernel/src/acpi/interpreter.c:3453-3539 | that holds throughout a run exactly if every return in it fits: it finds its mutex on top or restores a level no lower than what stays on top |
| `MutexOrder.SortedMeans` | kernel/src/acpi/interpreter.c:170-230 | what the order says about any two positions |
| `MutexOrder.AcquireKeeps` | kernel/src/acpi/interpreter.c:3466-3502 | acquiring keeps the discipline, also when ignored, recursive, denied or timed out |
| `MutexOrder.ReleaseKeeps` | kernel/src/acpi/interpreter.c:3507-3530 | releasing keeps it, also out of order, nested, or ignored for a level mismatch |
| `MutexOrder.EnterKeeps` | kernel/src/acpi/interpreter.c:4185-4224 | entering a serialized method keeps it and records a level that can be restored |
| `MutexOrder.ReturnKeepsIff` | kernel/src/acpi/interpreter.c:5566-5580 | a return keeps the order exactly if it fits |
| `MutexOrder.ReturnLeavesLevelLow` | kernel/src/acpi/interpreter.c:5566-5580 | a call that returns with a mutex still held leaves the context's level below it |
| `MutexOrder.NestedCallUnlocks` | kernel/src/acpi/interpreter.c:4209-4219 | a nested call of a serialized method leaves the outer call without its mutex |
| `MutexOrder.ReturnProtectsIff` | kernel/src/acpi/interpreter.c:5566-5573 | a return leaves the remaining calls protected exactly if none is a call of the same method |
| `MutexOrder.OtherStepsProtect` | kernel/src/acpi/interpreter.c:3507-3530 | no other step takes the mutex of an active call away |
| `MutexOrder.RunProtectedIff` | kernel/src/acpi/interpreter.c:5566-5573 | in every run, whether or not its returns fit, each active serialized call holds its mutex throughout exactly if no return leaves a call of the same method behind |
| `MutexOrder.Context.RemoveAndRelease` | kernel/src/acpi/interpreter.c:170-230 | over the split storage: a release in any position, forced or not, with its refusals, is the release of the state machine |
| `MutexOrder.Context.Acquire` | kernel/src/acpi/interpreter.c:3466-3505 | the Acquire operation over the split storage is the machine's step |
| `MutexOrder.Context.Release` | kernel/src/acpi/interpreter.c:3507-3530 | so is the Release operation |
| `MutexOrder.Context.EnterMethod` | kernel/src/acpi/interpreter.c:4185-4224 | so is the entry into a serialized method |
| `MutexOrder.Context.ReturnFromMethod` | kernel/src/acpi/interpreter.c:5566-5580 | so is the return, also when its mutex is gone |
| `NamespaceWalk.DoForEachChild` | kernel/src/acpi/namespace.c:771-871 | the loop over node, depth and direction terminates and computes the recursive descending and ascending visit, error cases included |
| `NamespaceWalk.WalkCalls` | kernel/src/acpi/namespace.c:771-871 | for every forest, depth limit, filter and pruning callback: the traversal tours the part it looks at and calls back exactly where the carried flag is up |
| `NamespaceWalk.CallsWantedIff` | kernel/src/acpi/namespace.c:771-871 | for every forest the calls are exactly the two looks at each wanted node of the plainly pruned forest if and only if every node without an object that is looked at after a match is filtered out and hides no wanted node |
| `NamespaceWalk.BareNodeIsCalled` | kernel/src/acpi/namespace.c:771-871 | two siblings of which the second gets both calls without being wanted |
| `NamespaceWalk.BareNodeHides` | kernel/src/acpi/namespace.c:771-871 | a wanted node below a temporary sibling without an object gets no call |
| `NamespaceWalk.PreAndPostorderIff` | kernel/src/acpi/namespace.c:771-871 | under the same condition, and only then: descending calls in preorder, ascending calls in postorder, on exactly the wanted nodes, each with its depth |
| `NamespaceWalk.BrokenIsPrefix` | kernel/src/acpi/namespace.c:771-871 | a traversal that is broken off or rejected has made a prefix of the calls it would have made |
| `NamespaceWalk.PrunedExactly` | kernel/src/acpi/namespace.c:828-858 | a node should be looked at exactly if it is a root or its parent should be and is open |
| `NamespaceWalk.CalledOnceIff` | kernel/src/acpi/namespace.c:771-871 | under the same condition, and only then: each wanted node that should be looked at gets exactly one call in each direction, and no other node gets any |
| `Namespace.DepthCountsParents` | kernel/src/acpi/namespace.c:939-948 | the depth handed to callbacks counts parent links |
| `NamespaceTeardown.Uninstall` | kernel/src/acpi/namespace.c:324-415 | a childless node leaves its sibling list wherever it stands; a node with a child is refused and nothing changes |
| `NamespaceTeardown.Deinitialize` | kernel/src/acpi/namespace.c:194-235 | the pointer walk terminates, never meets a refusal, uninstalls the nodes in teardown order and leaves the root empty |
| `NamespaceTeardown.TeardownOnce` | kernel/src/acpi/namespace.c:194-235 | the teardown order lists every node exactly once |
| `NamespaceTeardown.ChildrenFirst` | kernel/src/acpi/namespace.c:194-235 | every node comes after all its children |
| `RegionList.InstallHandler` | kernel/src/acpi/opregion.c:268-279 | a region becomes the first of its handler's list and the handler gains a reference |
| `RegionList.FindPreviousLink` | kernel/src/acpi/opregion.c:185-202 | finds the predecessor, the region itself if it is first, null if it is not linked |
| `RegionList.UninstallHandler` | kernel/src/acpi/opregion.c:285-346 | takes exactly that region out of the list and drops its reference |
| `RegionMemory.RegionInstallHandler` | kernel/src/acpi/opregion.c:268-279 | over region and handler objects, binding leads from memory that shows a handler state to memory that shows the bound one, writing only the region and its handler |
| `RegionMemory.RegionUninstallHandler` | kernel/src/acpi/opregion.c:285-346 | the same for unbinding, writing only the region, its handler and the links of the regions that share it |
| `OpRegion.UnbindKeeps` | kernel/src/acpi/opregion.c:285-346 | unbinding keeps lists, cached handlers and reference counts in agreement, freeing at zero |
| `OpRegion.BindKeeps` | kernel/src/acpi/opregion.c:268-279 | binding keeps them in agreement |
| `OpRegion.WalkSweeps` | kernel/src/acpi/opregion.c:386-429 | the traversal with the install or uninstall callback treats exactly the regions not hidden by a closer device |
| `OpRegion.SweepServes` | kernel/src/acpi/opregion.c:386-429 | afterwards those regions are bound to the new handler, or to none |
| `OpRegion.InstallAddressSpaceHandler` | kernel/src/acpi/opregion.c:564-638 | the install call, its three failures included, computes the specified state |
| `OpRegion.UninstallAddressSpaceHandler` | kernel/src/acpi/opregion.c:647-714 | so does the uninstall call |
| `OpRegion.InitializeOpRegionNode` | kernel/src/acpi/opregion.c:716-758 | a new region finds the nearest handler above it by parent links |
| `OpRegion.NewRegionSees` | kernel/src/acpi/opregion.c:716-758 | what it finds is what the specification of adding a region binds it to |
| `OpRegion.InstallKeeps` | kernel/src/acpi/opregion.c:564-638 | installing leaves every region with its nearest handler in every space |
| `OpRegion.UninstallKeeps` | kernel/src/acpi/opregion.c:647-714 | uninstalling unbinds all regions of the handler, frees it, and disturbs nothing else |
| `OpRegion.AddKeeps` | kernel/src/acpi/opregion.c:716-758 | a region added anywhere starts with its nearest handler |
| `OpRegion.DropKeeps` | kernel/src/acpi/opregion.c:362-370 | detaching one region keeps everything else |
| `OpRegion.RunServes` | kernel/src/acpi/opregion.c:268-429 | at every point of every run each region is bound to its nearest handler or to none, exactly to the nearest if nothing was removed; lists hold exactly the bound regions and counts are conserved |
| `NameTree.FindSubNode` | kernel/src/acpi/namespace.c:417-435 | the first child of that name |
| `StringResolver.SegmentToName` | kernel/src/acpi/namespace.c:437-456 | a segment ends at a dot, at four characters or at the end, and is padded with underscores |
| `StringResolver.WalkPrefix` | kernel/src/acpi/namespace.c:481-525 | root and parent prefixes, their order check and the attempt to climb past the root |
| `StringResolver.SearchAboveScope` | kernel/src/acpi/namespace.c:545-553 | the upward search visits the scopes above in order |
| `StringResolver.NodeResolve` | kernel/src/acpi/namespace.c:458-557 | the string resolver computes the meaning of the path |
| `AmlResolver.AmlWalkPrefix` | kernel/src/acpi/interpreter.c:462-499 | prefixes of encoded names |
| `AmlResolver.FindOrRise` | kernel/src/acpi/interpreter.c:574-583 | a lone segment is searched for in the scope and then above it |
| `AmlResolver.AmlWalkSegments` | kernel/src/acpi/interpreter.c:545-597 | segments are validated and followed one by one |
| `AmlResolver.ResolveNameString` | kernel/src/acpi/interpreter.c:449-603 | the AML resolver computes the meaning of the bytes, malformed ones included |
| `NameStrings.CountPrefix` | kernel/src/acpi/interpreter.c:352-374 | counts the prefix bytes and rejects a name that ends there |
| `NameStrings.NameStringToPath` | kernel/src/acpi/interpreter.c:338-442 | prints the name into a buffer of exactly the computed size |
| `NameStrings.PathTextIsPrint` | kernel/src/acpi/interpreter.c:338-442 | for every well-formed NameString the printed path is its text |
| `NameStrings.AmlMeans` | kernel/src/acpi/interpreter.c:449-603 | what the bytes of a well-formed NameString mean: climb, then descend or search upwards |
| `NameStrings.StringMeans` | kernel/src/acpi/namespace.c:458-557 | what its text means |
| `NameStrings.ResolversAgreeIff` | kernel/src/acpi/interpreter.c:449-603 | for every tree, scope and well-formed NameString the two resolvers agree exactly outside two named families |
| `NameStrings.MultiNameDiffers` | kernel/src/acpi/interpreter.c:574-583 | a namespace in which a MultiName of one segment is found as a string and not as bytes |
| `AbsolutePath.NodeDepth` | kernel/src/acpi/namespace.c:939-948 | counts the names on the path to the root |
| `AbsolutePath.GenerateAbsolutePath` | kernel/src/acpi/namespace.c:954-990 | for any names of four characters the path is written from the back into an array of exactly the computed number of bytes |
| `AbsolutePath.PathRoundTrip` | kernel/src/acpi/namespace.c:458-585 | with valid, distinct sibling names, resolving a node's absolute path from any scope finds that node |
| `RefCount.ObjectHeap.RefObject` | kernel/src/acpi/types.c:669-678 | counts up exactly the chain |
| `RefCount.ObjectHeap.FreeTheChain` | kernel/src/acpi/types.c:680-694 | frees the objects of the chain that reached zero |
| `RefCount.ObjectHeap.UnrefObject` | kernel/src/acpi/types.c:696-716 | counts the chain down, then frees |
| `RefCount.ObjectHeap.AttachChild` | kernel/src/acpi/types.c:869-882 | adds the parent's count to the child's chain |
| `RefCount.ObjectHeap.DetachChild` | kernel/src/acpi/types.c:884-897 | takes it away again, possibly freeing the child |
| `RefCount.UnrefMeaning` | kernel/src/acpi/types.c:680-716 | an unref counts down exactly the chain and frees exactly the objects that reach zero |
| `RefCount.UnrefFreesPrefix` | kernel/src/acpi/types.c:680-716 | the freed objects are a prefix of the chain |
| `RefCount.CountsGrowAlong` | kernel/src/acpi/types.c:669-716 | counts never decrease along a chain |
| `RefCount.UnrefKeeps` | kernel/src/acpi/types.c:696-716 | after giving up a handle no live object leads to a freed one |
| `RefCount.RefKeeps` | kernel/src/acpi/types.c:669-678 | taking a handle keeps the weighted sums |
| `RefCount.AttachKeeps` | kernel/src/acpi/types.c:869-882 | attaching keeps handles and sums |
| `RefCount.DetachKeeps` | kernel/src/acpi/types.c:884-897 | detaching keeps handles and sums |
| `RefCount.CreateKeeps` | kernel/src/acpi/shareable.c:9-12 | a new object starts with one handle and nothing pointing at it |
| `RefCount.RunConserves` | kernel/src/acpi/types.c:669-716 | over every run each count equals the outside handles plus the counts of the references to it, and every chain stays finite |
| `RefCount.LiveExactlyReachable` | kernel/src/acpi/types.c:680-716 | an object is alive exactly if somebody outside can still reach it |
| `DeepCopy.ObjectStore.PackageAlloc` | kernel/src/acpi/types.c:145-162 | the object becomes a package of new, distinct, uninitialized objects in order, and nothing else changes |
| `DeepCopy.ObjectStore.AssignLeaf` | kernel/src/acpi/types.c:1241-1331 | deep assignment of anything but a package: equal value, own buffer, references flattened to their target |
| `DeepCopy.ObjectStore.CopyOne` | kernel/src/acpi/types.c:763-803 | one package is copied and exactly its nested packages are requested |
| `DeepCopy.ObjectStore.DeepCopyPackage` | kernel/src/acpi/types.c:805-825 | the worklist terminates with the value a recursive copy has, package-index references removed: the source's value exactly if all its references are of the RefOf kind; it shares no package or buffer with the source |
| `DeepCopy.CopiedSameIff` | kernel/src/acpi/types.c:1308-1310 | a value survives copying unchanged exactly if it holds no reference of another kind than RefOf |
| `DeepCopy.ArgumentKindLost` | kernel/src/acpi/types.c:1308-1310 | a reference to a method argument is copied as a RefOf reference |
| `DeepCopy.ServedKeeps` | kernel/src/acpi/types.c:763-803 | serving one request keeps every other copy on course |
| `DeepCopy.MatchesMeans` | kernel/src/acpi/types.c:805-825 | with no request pending, structure and independence follow |
| `BitCopy.FetchBit` | kernel/src/acpi/io.c:59-74 | eight bits gathered from one or two source bytes, cut at the source's end |
| `BitCopy.StoreBit` | kernel/src/acpi/io.c:76-84 | masks and shifts replace exactly the wanted bits of one or two bytes |
| `BitCopy.CopyBits` | kernel/src/acpi/io.c:43-88 | destination bit k becomes source bit k, or zero past the source, and no other bit changes |
| `BufferField.CutMisalignedTail` | kernel/src/acpi/io.c:15-23 | clears the bits beyond the field in one byte |
| `BufferField.ReadBufferField` | kernel/src/acpi/io.c:90-116 | the aligned path and the bit-copy path read the same |
| `BufferField.WriteBufferField` | kernel/src/acpi/io.c:118-158 | the aligned path and the bit-copy path write the same bits and keep the rest of the last byte |
| `BufferField.MemCpyZerout` | kernel/src/acpi/stdlib.c:107-117 | copies what fits and clears the rest |
| `BufferField.WriteThenRead` | kernel/src/acpi/io.c:90-158 | reading back yields the source cut to the field or extended with zeroes |
| `FieldUnit.DeclaredWhereAsked` | kernel/src/acpi/interpreter.c:1675-1680 | unit offset and bit offset of a declared field add up to the declared bit |
| `FieldUnit.ReadMisaligned` | kernel/src/acpi/io.c:363-408 | unit by unit, the field's bits followed by zeroes |
| `FieldUnit.ReadFieldUnit` | kernel/src/acpi/io.c:410-454 | the single-access path and the general path read the same |
| `FieldUnit.Prepare` | kernel/src/acpi/io.c:482-501 | the unit before the field's bits go in, for each update rule |
| `FieldUnit.WriteFieldUnit` | kernel/src/acpi/io.c:456-518 | the field gets the source's bits; the rest of the touched units is kept, set or cleared by the update rule; nothing else changes |
| `FieldUnit.WriteThenReadUnit` | kernel/src/acpi/io.c:363-518 | for every offset, length and width reading back yields the source cut or zero-extended |
| `ResourceCodec.BitsAscend` | kernel/src/acpi/resources.c:1571-1594 | a mask unpacks to a strictly ascending list |
| `ResourceCodec.MaskOfBits` | kernel/src/acpi/resources.c:2060-2075 | the mask of the list is the mask it came from |
| `ResourceCodec.BitsOfMask` | kernel/src/acpi/resources.c:2060-2075 | every ascending list survives packing and unpacking |
| `ResourceCodec.ExtraSize` | kernel/src/acpi/resources.c:143-167 | the space reserved for a mask is the length of its list |
| `ResourceCodec.BodyBack` | kernel/src/acpi/resources.c:589-721 | every native resource in range comes back from its descriptor, of the size computed for it, with the form that was used and without a wake capability that the short form cannot hold |
| `ResourceCodec.ContentBackIff` | kernel/src/acpi/resources.c:167-197 | its content comes back exactly if it is not a wake-capable interrupt that qualifies for the short form |
| `ResourceCodec.WakeLost` | kernel/src/acpi/resources.c:167-197 | an edge-triggered, active-high, exclusive interrupt loses its wake capability |
| `ResourceCodec.DecodeEncoded` | kernel/src/acpi/resources.c:2018-2083 | decoding an encoded list gives the list with the forms that were used |
| `ResourceCodec.ListBackIff` | kernel/src/acpi/resources.c:167-228 | a list keeps its content exactly if no interrupt in it loses its wake capability |
| `ResourceCodec.TemplateRoundTrip` | kernel/src/acpi/resources.c:2298-2346 | re-encoding a decoded template keeps its length, and decoding it again gives the same resources |
| `ResourceCodec.NativeSizingExact` | kernel/src/acpi/resources.c:1389-1399 | the native sizing pass equals what the conversion uses |
| `ResourceCodec.AmlSizingExact` | kernel/src/acpi/resources.c:169-197 | the template sizing pass equals what the conversion writes |
| `ResourcePrograms.ProgramConverts` | kernel/src/acpi/resources.c:589-721 | for every descriptor of every kind the program to native runs within descriptor and structure and leaves in memory exactly the resource the descriptor means |
| `ResourceEncoding.PackIsMask` | kernel/src/acpi/resources.c:2060-2075 | or-ing one bit per entry gives the mask of the list, whatever its order |
| `ResourceEncoding.BodySizeChosen` | kernel/src/acpi/resources.c:167-228 | the size chosen from the bytes of a native resource is the length of its descriptor |
| `ResourceEncoding.ProgramEncodes` | kernel/src/acpi/resources.c:589-721 | for every native resource, whatever its padding, the program to AML stays within bounds and writes exactly its descriptor, and one bit behind it for the short start of dependent functions |
| `ResourceBuffers.UnpackBits` | kernel/src/acpi/resources.c:1571-1594 | the loop over a mask writes the positions of its bits and their number |
| `ResourceBuffers.PackBits` | kernel/src/acpi/resources.c:2060-2075 | the loop over a list sets its bits in the mask |
| `ResourceBuffers.AmlResourceToNative` | kernel/src/acpi/resources.c:1538-1608 | the interpreter loop, with its skips, computes the run of the program and touches nothing outside the structure |
| `ResourceBuffers.NativeResourceToAml` | kernel/src/acpi/resources.c:2018-2083 | so does the loop in the other direction |
| `ResourceBuffers.NativeBufferSize` | kernel/src/acpi/resources.c:1794-1811 | the sizing loop over descriptors finds the size of the native list, or the template's error |
| `ResourceBuffers.NativeResourcesFromAml` | kernel/src/acpi/resources.c:1829-1867 | the native buffer holds exactly the resources the template means, one behind the other; each error is reported |
| `ResourceBuffers.AmlBufferSize` | kernel/src/acpi/resources.c:2277-2296 | the sizing loop over native resources finds the length of the template |
| `ResourceBuffers.NativeResourcesToAml` | kernel/src/acpi/resources.c:2255-2346 | the buffer written is exactly the template of the resources, bits set behind a descriptor included |
| `ResourceBuffers.ReadWriteRead` | kernel/src/acpi/resources.c:1829-2346 | reading, writing and reading again through the code: the template keeps its length and the native buffers are equal byte for byte |
| `Numbers.OverflowTest` | kernel/src/acpi/utilities.c:223-284 | dividing the wrapped number detects exactly the numbers that do not fit into 64 bits |
| `Numbers.ScanExact` | kernel/src/acpi/utilities.c:223-284 | digits up to the end are parsed to the number they write, or to the largest number exactly if it does not fit |
| `Numbers.StringToInteger` | kernel/src/acpi/utilities.c:223-284 | the parsing loop with its prefix handling and failures computes that value |
| `Numbers.TextValue` | kernel/src/acpi/stdlib.c:283-343 | the text of a number consists of its digits without a leading zero and writes that number |
| `Numbers.WriteInteger` | kernel/src/acpi/stdlib.c:283-343 | digits produced from the back are that text |
| `Numbers.IntegerRoundTrip` | kernel/src/acpi/interpreter.c:2539-2566 | every 64-bit number comes back from its decimal or prefixed hexadecimal text |
| `BlockIo.ReadSectors` | kernel/src/block/block.c:362-434 | whole sectors, direct or bounced, in capped requests |
| `BlockIo.ReadPart` | kernel/src/block/block.c:378-397 | part of one sector through a bounce buffer |
| `BlockIo.BlkdevRead` | kernel/src/block/block.c:343-454 | a read returns exactly the requested bytes, reports each error, never touches the rest of the buffer or the disk, and succeeds when nothing fails |
| `BlockIo.WriteSectors` | kernel/src/block/block.c:475-556 | whole sectors written in capped requests |
| `BlockIo.WritePart` | kernel/src/block/block.c:492-518 | read-modify-write keeps the rest of a shared sector |
| `BlockIo.BlkdevWrite` | kernel/src/block/block.c:456-581 | a write changes exactly the requested bytes; a failed one stays within their sectors; it succeeds when nothing fails |
| `BlockIo.WriteThenRead` | kernel/src/block/block.c:343-581 | reading back what was written returns it |
| `LinuxMemoryMap.AppendUsable` | kernel/src/boot/linux_boot.c:52-69 | exactly the part of a range that no start-sorted span covers |
| `LinuxMemoryMap.BuildMemoryMap` | kernel/src/boot/linux_boot.c:71-108 | every address is usable as often as the firmware lists it as RAM below the limit, unless reserved; wrapping entries are ignored; the map cannot overflow |
| `LoongArchMemoryMap.AppendPieces` | kernel/src/boot/la_boot.c:378-418 | an entry is replaced by its pieces if they fit |
| `LoongArchMemoryMap.PiecesCount` | kernel/src/boot/la_boot.c:378-418 | the pieces partition the entry |
| `LoongArchMemoryMap.AddReservedRange` | kernel/src/boot/la_boot.c:365-425 | the split map, or the unchanged one on overflow or for an empty range |
| `LoongArchMemoryMap.ReservedExactly` | kernel/src/boot/la_boot.c:365-425 | exactly the usable addresses in the page-rounded range become reserved |

## Left out

- The AML interpreter as a whole, table loading, notification and sleep code: only the pieces named above are modelled.
- `GpeMask`: register accesses that fail, and the check that an event is wake-capable before it is armed.
- `RefCount`: counts driven to zero by mistake and marked as bugged (0 or 0xFFFFFFFF), and packages and buffers as holders of references.
- DeepCopy.ObjectStore.AssignLeaf: object kinds other than integers, strings, buffers, packages, references and uninitialized objects; mutexes and events get a new allocation when they are copied deeply, the others share a pointer.
- `DeepCopy`: copying a package into one of its own elements.
- `OpRegion`: running _REG methods and attach callbacks, temporary nodes, and the order of a device's handlers, of which there is at most one per space.
- OpRegion.UninstallAddressSpaceHandler: handler lists are modelled as one entry per device and space, so the unlinking from the device's list is not.
- FieldUnit.ReadFieldUnit: only plain memory regions and ordinary fields; bank, index, write-then-read and buffer-access fields are not modelled, nor are accesses that fail.
- FieldUnit.WriteFieldUnit: the same kinds of fields, and update rules other than the three defined ones.
- StringResolver.NodeResolve: locking, the denial of temporary nodes, and a missing start node.
- AmlResolver.ResolveNameString: the mode that creates the last segment, and the advance of the code offset.
- `NamespaceTeardown`: objects and locks of the uninstalled nodes, and the release of the root itself.
- `ResourceCodec`: vendor, address-space, extended interrupt, generic register, GPIO, serial bus, pin and clock descriptors; the variants for a single resource.
- ResourceBuffers.NativeResourcesToAml: native buffers that no decoding produces, such as unknown types or values out of range.
- `BlockIo`: a device whose request limit is below its block size, for which the source's loops make no progress; offsets that overflow 64 bits.
- LoongArchMemoryMap.AddReservedRange: ranges whose rounded end or entries whose end overflow 64 bits.
- `MutexOrder`: waiting, and the other threads behind a mutex.
- Numbers.WriteInteger: flags, padding, precision and signs of the formatter.
- Table checksums and other single-loop helpers: they would only add easy members.
