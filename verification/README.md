# Verified model of rocSHMEM's stateful core

rocSHMEM is an OpenSHMEM-style runtime for GPUs. This project models the parts of it that keep state, run
concurrently or depend on careful arithmetic, and proves what they promise for every input, every run and every
interleaving.

- **Local user buffers** (`Intervals`, `UserBuffers`): an ordered map of disjoint regions whose overlap test looks at
  two neighbours only.
- **Symmetric registration** (`SymmModel`, `SymmView`, `SymmProtocol`, `SymmTheorems`, `SymmCalls`,
  `SymmCapacity`, `SymmBackend`):
  the collective protocol export, agree, all-gather, open, agree, publish, with its rollbacks; the slot table that is
  compacted by moving its last entry; and `ipcPeerPtr`, which reads that table. `SymmBackend.Backend` is the object
  with its fields, loops and early returns, proved to do what the functions of `SymmModel` do; `SymmView` says what
  one PE stores; `SymmProtocol` shows that each collective call of N processes refines one step on a single list of
  registrations; `SymmTheorems` states the results over all runs, `SymmCalls` what the calls of a run do in terms of the
  arguments and driver results on each process, and `SymmCapacity` what the size of the table does to them.
- **SDMA dirty mask** (`BitWords`, `WordValues`, `Sdma`, `SdmaThreads`, `SdmaHistory`): once as a context that one
  thread uses at a time, once under every interleaving of any number of threads, where mask and counters are also given as
  functions of the events alone. Words are sets of bit positions; `WordValues` ties
  them to numbers.
- **Device module registry** (`DeviceModules`, `DeviceHistory`, `DeviceRegistry`): two locks, one of them re-entered
  during HIP calls; threads are stacks of frames. `DeviceHistory` gives the snapshot, the list and the modules' values from
  the events of a run. `DeviceRegistry` is the same code as one thread runs it, with its loops.
- **Tile copies and the halo exchange** (`CopyOps`, `Tile`, `TileWave`, `TileTheorems`, `TileMemcpy`, `Halo`): four
  layouts, two dimensions and three scopes that all mean one element-wise copy, byte by byte and in any order; and the
  example that exchanges halos with them.
- **Teams** (`Teams`, `TeamGrid`, `TeamSplit2d`, `TeamBackend`): strided splits of any depth, translation, the
  two-dimensional split and the limit on tracked teams.
- **IPC membership** (`IpcAvailability`): a wrap-around check in place of a scan.
- **Debug modifiers** (`DebugFlags`, `DebugLaws`): a tokenizer with lookahead that equals a left fold, and what each
  flag then depends on.

`Arith`, `MachineInts` and `Options` hold shared definitions. `dafny verify dfyconfig.toml` checks everything.

## Findings

Properties that the code meets only under a condition, each with the exact condition and a case outside it:

- Tile copies count in `int`. Exactly the tile is copied, with no `int` overflow, if and only if a strided tile has
  elements and workers that add up to at most 2^31, and a packed tile that a wave copies has fewer than 2^31 bytes and
  leaves room for the counter (`WholeTileIff`). A strided tile of 2^31 elements is not copied at all
  (`NothingCopied`); nor is a packed tile of 2^36 bytes by a wave (`WaveCopiesNothing`); for a line of 2^36 - 8 bytes
  a wave writes outside the tile (`WaveWritesOutside`).
- The halo exchange computes the start of the last row in `int`: the put to the north is right if and only if `(n + 1)
  * (n + 2)` is below 2^31 (`NorthIff`), that is up to an inner size of 46339 (`LastInnerSize`).
- The range check of a team split compares the last PE with the size of the world, and with `>`. For every team of
  consecutive PEs it admits a split that leaves the team (`EndCheckIsWide`, `LeavesParent`), and it admits a last PE
  that overflows `int` (`EndCheckOverflows`); members are all in the parent if and only if `start + stride * (size -
  1)` is (`InsideIff`).
- Translating a PE to another team and back is the identity if and only if the PE was a number of the first team, or
  -1 (`TranslateRoundTrip`, `TranslateOutOfRange`): `get_pe_in_world` does not check its argument.
- A two-dimensional split makes two teams but needs three free slots, unless the PE is in the last column
  (`Split2dOutcome`), so one collective call can succeed on some PEs and fail on others (`ThirdSlotNeeded`). A split
  that fails leaves the teams for which there were slots tracked and handed out.
- The slot table's capacity goes through `int`. The capacity test at the end of a registration never refuses an
  otherwise good registration if and only if fewer than 2^31 regions are configured (`SlotTestIff`); for every larger
  number some run ends in such a refusal (`SlotTestCanFail`).
- When threads share a context, a thread's own fence may return while its copy is unfinished, because another thread
  has taken the bit (`FenceCanReturnEarly`). A fence that finds its bits clear leaves nothing unfinished but what
  other threads hold (`FenceFindsClear`); one that drains leaves nothing that was flagged before it, but what other
  threads are draining (`FenceDrains`).

Where a comment and the code differ, the model follows the code: the comment at src/rocshmem.cpp:856 speaks of the size
being out of bounds, while the code compares the last PE with the size of the world.

## Assumptions

- Collective calls run in lock step on all processes; driver results are arbitrary, except that a new mapping lies at
  addresses not in use, does not wrap, and an alias misses the heap and the live aliases of its process; opening a
  handle maps the exporter's buffer; closing a handle succeeds; `peer_global[self_index]` is the calling process;
  every process is configured with the same maximum; a buffer that passes `ValidateVMMRegistration` is non-null and
  non-empty. In an unregistration every process passes its alias of the same registration, or none passes a live
  alias.
- `shm_size * numChannels` is at most 64 and there are 1 to 8 channels, as the source states and checks. Atomic
  operations on the mask are single steps, a queue finishes its copies in order, and submitting a copy to a queue is
  one step.
- Sections under `registry_mutex` are single steps. While a HIP call runs, the same thread may register modules.
- All lanes of a wave take part in a wave copy. Address arithmetic of tiles, and their `size_t` loop counters, stay
  within the address space; source and destination of a copy do not overlap. The number of workers is an `int`.
- Stored team strides fit an `int`. Ranks are PE numbers, so they are not negative.
- Whether the backend makes a team is a parameter of the split.

## Model

| member | source | states |
|---|---|---|
| `Intervals.LowerBound` | src/backend_bc.cpp:363-364 | the ordered map's `lower_bound`: the returned key is the least one at or after the start, or there is none |
| `Intervals.Before` | src/backend_bc.cpp:374-376 | `std::prev`: the returned key is the greatest one before the position, or the position is the beginning |
| `Intervals.TwoNeighboursSuffice` | src/backend_bc.cpp:363-384 | in a map of disjoint regions, the test of two neighbours passes if and only if the new range overlaps no region at all |
| `Intervals.AddSeparated` | src/backend_bc.cpp:386 | adding a range that overlaps nothing keeps the regions pairwise disjoint |
| `UserBuffers.OnlyPredecessorCanHold` | src/backend_bc.cpp:399-411 | the entry before `upper_bound(target)` is the only region that can contain the target, whatever else is registered |
| `UserBuffers.UserBuffers.BufferRegister` | src/backend_bc.cpp:340-390 | succeeds if and only if the range is non-null, non-empty, does not wrap and overlaps no registered region; then adds exactly it, otherwise changes nothing |
| `UserBuffers.UserBuffers.BufferUnregister` | src/backend_bc.cpp:392-415 | removes exactly the one region that contains the address, and fails, changing nothing, if and only if there is none |
| `UserBuffers.UserBuffers.BufferUnregisterAll` | src/backend_bc.cpp:417-419 | leaves no region |
| `UserBuffers.EveryRunSeparated` | src/backend_bc.cpp:340-419 | after every run of the three operations the regions are pairwise disjoint, non-empty and do not wrap |
| `UserBuffers.RegisterThenUnregister` | src/backend_bc.cpp:340-415 | unregistering through any byte of a region just registered restores the map |
| `SymmModel.TableCapacity` | src/backend_bc.cpp:565-568 | at least one slot; the configured number when that survives the cast to `int` |
| `SymmView.OpenThenClose` | src/backend_bc.cpp:650-679 | closing what was opened restores the address space exactly |
| `SymmView.RegisterIpcOutcome` | src/backend_bc.cpp:629-729 | handles and mappings are conserved: every failing path leaves the whole state as before; success adds one export, one mapping of each peer but this PE, one slot and one record, and nothing else |
| `SymmView.NeighbourTestMeans` | src/backend_bc.cpp:451-475 | the overlap test on original ranges means no overlap with any live registration |
| `SymmView.HostTestMeans` | src/backend_bc.cpp:437-485 | the host part succeeds exactly when the buffer is valid, the count is below the limit, the range does not wrap or overlap, and the alias was made |
| `SymmView.HostUndo` | src/backend_bc.cpp:488-519 | undoing the host part restores both maps |
| `SymmView.RegisterOutcome` | src/ipc/backend_ipc.cpp:604-642 | on one PE a call succeeds exactly when lengths match, every PE's host part succeeded, every export and open succeeded and a slot is free; a failing call changes nothing |
| `SymmView.RegisterKeepsView` | src/backend_bc.cpp:710-728 | after a success the maps, table, records, mappings and handles store the old registrations and the new one, in slot order, and nothing else |
| `SymmView.UnregisterKeepsView` | src/backend_bc.cpp:742-783 | unregistering the registration in a slot succeeds, closes exactly its mappings and its export, and stores what is left after moving the last slot into it |
| `SymmView.RegisterThenUnregister` | src/ipc/backend_ipc.cpp:587-658 | on one PE, unregistering the registration just made restores the whole state |
| `SymmView.SwapRemoveMultiset` | src/backend_bc.cpp:762-777 | swap-with-last loses and duplicates no other entry |
| `SymmView.SlotOrderIrrelevant` | src/ipc_policy.hpp:194-202 | two tables that hold the same registrations in different slots translate every address alike |
| `SymmView.TranslatesOffset` | src/ipc_policy.hpp:180-206 | byte k of a registration goes to byte k of the peer's mapping of it |
| `SymmView.TranslatesExactly` | src/ipc_policy.hpp:180-206 | an address translates to something if and only if the heap or a registration holds it |
| `SymmProtocol.AllPesAgree` | src/backend_bc.hpp:408-419 | the gather-and-scan is true if and only if the predicate holds of every PE's value |
| `SymmProtocol.AllPesSucceeded` | src/backend_bc.hpp:427-429 | true if and only if no PE reports zero |
| `SymmProtocol.SymmLengthsMatch` | src/backend_bc.hpp:437-439 | true if and only if every PE passed the length of this PE |
| `SymmProtocol.ExportsAgreed` | src/backend_bc.cpp:629-637 | true if and only if every PE exported a handle |
| `SymmProtocol.LengthsMatchUnanimous` | src/backend_bc.hpp:437-439 | although each PE compares with its own length, all PEs get the same answer, and it is true only if all lengths are equal |
| `SymmProtocol.RegisterUnanimous` | src/ipc/backend_ipc.cpp:604-642 | for every pattern of failures all PEs return the same status, and a failure leaves every PE as it was |
| `SymmProtocol.RegisterRefines` | src/backend_bc.cpp:629-729 | a successful collective call appends one registration to the job's single list of registrations |
| `SymmProtocol.UnregisterRefines` | src/ipc/backend_ipc.cpp:648-658 | passing every PE its alias of a registration removes that registration on all PEs, from the same slot |
| `SymmProtocol.UnregisterRefuses` | src/backend_bc.cpp:742-746 | an address that is no live alias is refused and nothing changes |
| `SymmTheorems.Run` | src/ipc/backend_ipc.cpp:587-662 | after every run of collective calls, with any failures, every PE stores exactly the same registrations in the same slots |
| `SymmTheorems.StatusUnanimous` | src/ipc/backend_ipc.cpp:604-658 | in every run all PEs return the same status from every call |
| `SymmTheorems.FailureChangesNothing` | src/backend_bc.cpp:629-708 | in every run a call that returns an error changes nothing on any PE: no mapping stays open and no export is kept |
| `SymmTheorems.SlotsAgree` | src/backend_bc.cpp:694-728 | after every run all PEs agree on the number of entries and on every registration's slot; slots are exactly 0 to count-1, one per record, and each holds its record's base and peer array |
| `SymmTheorems.BoundedAndSeparated` | src/backend_bc.cpp:442-519 | after every run aliases and original ranges correspond one to one with equal lengths, originals are pairwise disjoint and the count is within the limit |
| `SymmCapacity.SlotTestNeverFails` | src/backend_bc.cpp:697-708 | in every run of every job whose maximum is below 2^31, a registration that passes every other test finds a slot |
| `SymmCapacity.SlotTestCanFail` | src/backend_bc.cpp:697-708 | for every maximum from 2^31 on, a run that fills the table, after which a registration that passes every other test is refused |
| `SymmCapacity.SlotTestIff` | src/backend_bc.cpp:565-568 | the slot test never refuses a registration that passes every other test, in any run of any job, if and only if the maximum is below 2^31 |
| `SymmTheorems.TranslationReachesPeer` | src/ipc_policy.hpp:180-206 | after every run, on every PE: byte k of a live registration translates, for peer j, to byte k of an open mapping of the buffer that j registered in that same collective call |
| `SymmTheorems.TranslationOfHeap` | src/ipc_policy.hpp:184-191 | after every run a heap address keeps its offset into the peer's heap, modulo 2^64 |
| `SymmTheorems.TranslationOfNothingElse` | src/ipc_policy.hpp:193-205 | after every run every other address gives null |
| `SymmTheorems.RegisterUnregisterRoundTrip` | src/ipc/backend_ipc.cpp:587-658 | from every reachable state, registering and unregistering restores every PE's state |
| `SymmCalls.RegisterSucceedsIff` | src/ipc/backend_ipc.cpp:587-642 | in every state of a run a registration succeeds, on any PE, if and only if all lengths are equal, every PE has a usable buffer clear of its live originals, an alias, an export and all opens, and the limit and the table leave room |
| `SymmCalls.RegisteredAsAsked` | src/ipc/backend_ipc.cpp:587-642 | a success adds one registration, the last; on every PE it records the address and length which that PE passed, the alias it got, the handle it exported and the mappings it opened |
| `SymmCalls.RegisteredIsStored` | src/backend_bc.cpp:442-729 | every PE then stores a new alias, original range, table entry and record of just those values, and exports one more handle |
| `SymmCalls.RegisteredReachesPeer` | src/ipc_policy.hpp:180-206 | and `ipcPeerPtr` takes byte k of its alias, for peer j, to byte k of the mapping opened for j, which shows the address and length that j passed to that call |
| `SymmCalls.UnregisteredAsAsked` | src/ipc/backend_ipc.cpp:648-658 | unregistering through every PE's alias succeeds everywhere, moves the last registration into the free slot and leaves no alias, range, record, mapping or handle of the one removed |
| `SymmBackend.CompactKeepsSlots` | src/backend_bc.cpp:766-782 | after compaction the slots in use are again 0 to count-1, each named by one record |
| `SymmBackend.Backend.constructor` | src/backend_bc.cpp:559-589 | empty maps and an empty table of the given capacity |
| `SymmBackend.Backend.HostRegisterSymmetric` | src/backend_bc.cpp:421-498 | the fields change as the host part on values does, including every early return |
| `SymmBackend.Backend.HostUnregisterSymmetric` | src/backend_bc.cpp:500-525 | the same for the host part of unregistration |
| `SymmBackend.Backend.OpenPeers` | src/backend_bc.cpp:647-669 | the loop opens peers in order and, on a failure, closes what it opened |
| `SymmBackend.Backend.CloseBases` | src/backend_bc.cpp:672-679 | the loop closes the mappings of all peers but this PE |
| `SymmBackend.Backend.RegisterIpcSymmRegion` | src/backend_bc.cpp:607-733 | all four outcomes with their rollbacks, on the fields and the slot array |
| `SymmBackend.Backend.RelabelLast` | src/backend_bc.cpp:770-775 | the record of the moved entry, and no other, gets the freed slot |
| `SymmBackend.Backend.UnregisterIpcSymmRegion` | src/backend_bc.cpp:735-787 | closing, compaction and erasure, on the fields and the slot array |
| `SymmBackend.Backend.BufferRegisterSymmetric` | src/ipc/backend_ipc.cpp:587-646 | the whole call on one PE |
| `SymmBackend.Backend.BufferUnregisterSymmetric` | src/ipc/backend_ipc.cpp:648-662 | the whole call on one PE |
| `SymmBackend.Backend.IpcPeerPtr` | src/ipc_policy.hpp:180-206 | the scan returns the translation that the theorems above are about |
| `BitWords.FieldIs` | src/sdma_policy.hpp:109 | the shifted mask covers exactly the channels of the PE |
| `WordValues.DecSubtracts` | src/sdma_policy.hpp:109 | on words as sets of positions, taking one away is subtraction of one from the number they spell, modulo 2^64 |
| `WordValues.ShlMultiplies` | src/sdma_policy.hpp:95-109 | a left shift is multiplication by a power of two, modulo 2^64 |
| `WordValues.FieldValue` | src/sdma_policy.hpp:109 | the mask is the number that the expression says |
| `BitWords.Lowest` | src/sdma_policy.hpp:130 | the position is the lowest one bit |
| `Sdma.LayOutHandles` | src/sdma_policy.cpp:77-92 | the nested loops put each (PE, channel) handle at the index that the mask uses |
| `Sdma.SdmaContext.constructor` | src/sdma_policy.cpp:38-95 | the handles are laid out so, the mask is zero and nothing is pending |
| `Sdma.SdmaContext.AssignSdmaChannel` | src/ipc_policy.hpp:380-390 | every wavefront gets a channel in range; in context 0 or on request any run of as many wavefronts as there are channels gets different ones; otherwise all get the channel of the context |
| `Sdma.Spread` | src/sdma_policy.hpp:79-80 | two wavefronts closer than the number of channels never share a channel when spread |
| `Sdma.SdmaContext.SdmaCopy` | src/sdma_policy.hpp:77-100 | a non-blocking copy adds one pending copy to the queue of its wavefront and flags it; a blocking one leaves that queue drained; no other queue changes |
| `Sdma.SdmaContext.IpcCopy` | src/ipc_policy.hpp:400-409 | SDMA is used exactly when enabled and from the threshold on; then the copy is pending and flagged on the queue `pe * channels + (channel + stride * wavefront) % channels`, or that queue is drained if blocking; no other queue changes |
| `Sdma.SdmaContext.SdmaQuiet` | src/sdma_policy.hpp:107-121 | nothing is pending on any channel of the PE, its bits are clear, and other PEs' bits and queues are unchanged |
| `Sdma.SdmaContext.SdmaQuietAll` | src/sdma_policy.hpp:126-137 | terminates with a zero mask and nothing pending anywhere |
| `Sdma.SdmaContext.IpcFencePe` | src/ipc_policy.hpp:451-481 | looking before draining gives the same: nothing pending on the PE, other PEs unchanged |
| `Sdma.SdmaContext.IpcFence` | src/ipc_policy.hpp:441-469 | fence and quiet on the context return with nothing pending |
| `SdmaThreads.StepKeepsInv` | src/sdma_policy.hpp:77-137 | every step of every thread keeps it: an unfinished copy is flagged, or its issuer has yet to flag it, or a thread that took its bit has not finished draining that queue |
| `SdmaThreads.Run` | src/sdma_policy.hpp:77-137 | that invariant holds after every interleaving |
| `SdmaThreads.QuietMeansDone` | src/sdma_policy.hpp:77-137 | after every interleaving, a zero mask with no thread inside an operation means that every copy ever submitted has finished |
| `SdmaThreads.FenceFindsClear` | src/ipc_policy.hpp:451-458 | a fence that finds its bits clear may conclude that what is unfinished on those queues is in the hands of another thread |
| `SdmaThreads.FenceDrains` | src/ipc_policy.hpp:451-458 | when a fence that drains returns, after any interleaving, every copy on its queues that was flagged before it looked has finished or is being drained by another thread |
| `SdmaThreads.FenceCanReturnEarly` | src/ipc_policy.hpp:451-458 | it may conclude no more: a run in which a thread's own fence returns while its copy is unfinished |
| `SdmaHistory.MaskIs` | src/sdma_policy.hpp:77-137 | after every interleaving the mask holds exactly the bits that were set and not taken since: setting adds the bit of the queue its thread submitted to, taking removes the bits its thread looked at and no other |
| `SdmaHistory.QueuesAre` | src/sdma_policy.hpp:77-137 | after every interleaving each queue counts exactly the copies submitted to it and finished on it |
| `DeviceModules.StepKeepsInv` | src/device_module_registry.cpp:74-139 | every step, re-entrant registrations included, keeps the lock count, the frames and, for a valid snapshot, that each module is up to date or some call is going to bring it up to date |
| `DeviceModules.Run` | src/device_module_registry.cpp:74-139 | that invariant holds after every interleaving of registration, sync and clear |
| `DeviceModules.EveryModuleHoldsSnapshot` | src/device_module_registry.cpp:74-139 | whenever the lifecycle lock is free and the snapshot is valid, every registered module holds exactly that snapshot or its own registration is pending |
| `DeviceModules.QuiescentMeansUpToDate` | src/device_module_registry.cpp:74-139 | when all calls have returned, every registered module holds the valid snapshot |
| `DeviceModules.SomeCallCanGoOn` | src/device_module_registry.cpp:74-139 | the two locks never deadlock |
| `DeviceHistory.SnapshotIs` | src/device_module_registry.cpp:96-139 | after every interleaving the snapshot is what the last publication or clearing left, computed from the events alone |
| `DeviceHistory.PublishedFields` | src/device_module_registry.cpp:98-127 | a publication makes a snapshot whose k-th field is the k-th value its thread read since it called, re-entrant registrations in between or not |
| `DeviceHistory.ClearedUntilPublish` | src/device_module_registry.cpp:135-139 | after a clearing no snapshot is valid until the next publication |
| `DeviceHistory.RegisteredWhileInvalid` | src/device_module_registry.cpp:74-91 | a module first registered while no snapshot is valid, so between a clearing and the next publication, keeps the values it came with until then |
| `DeviceHistory.ModulesAre` | src/device_module_registry.cpp:76-82 | the list holds each registered module once, in order of first registration |
| `DeviceHistory.RegisteredAgain` | src/device_module_registry.cpp:79-80 | registering a listed module changes nothing |
| `DeviceHistory.CallsCanStart` | src/device_module_registry.cpp:74-139 | an idle thread can start any call; a thread inside a HIP call can register a module |
| `DeviceRegistry.Registry.ApplySnapshot` | src/device_module_registry.cpp:61-69 | the six setters install the snapshot in that module and in no other |
| `DeviceRegistry.Registry.RegisterDeviceModule` | src/device_module_registry.cpp:74-91 | a known module changes nothing; a new one is appended and holds the snapshot if there is one |
| `DeviceRegistry.Registry.SyncDeviceModules` | src/device_module_registry.cpp:96-133 | the source's values become the snapshot and every registered module holds them |
| `DeviceRegistry.Registry.ClearDeviceModuleState` | src/device_module_registry.cpp:135-139 | the snapshot is invalid and modules keep their values |
| `CopyOps.AnyOrder` | src/tile_memcpy_device.hpp:66-126 | copies with one source per destination, none of whose destinations is read, give the same memory in every order and with repetitions |
| `TileWave.WaveHas` | src/util.hpp:661-695 | below 2^31 bytes every byte of a wave copy is moved by some lane |
| `TileWave.WaveOnly` | src/util.hpp:661-695 | below 2^31 bytes no lane of a wave moves anything else |
| `TileWave.WaveFits` | src/util.hpp:676-694 | below 2^31 bytes no `int` overflows if and only if the first chunk count and the lanes fit the counter |
| `TileWave.WaveFails` | src/util.hpp:676-694 | from 2^31 bytes on an `int` overflows or the last byte is left out |
| `TileWave.WaveStrays` | src/util.hpp:676-694 | for 2^36 - 8 bytes no `int` overflows and lane 0 copies to before the destination |
| `TileTheorems.RowIs` | src/tile_memcpy_device.hpp:85-91 | a row piece of a row-contiguous tile is exactly its elements |
| `TileTheorems.ColIs` | src/tile_memcpy_device.hpp:92-98 | a column piece of a column-contiguous tile is exactly its elements |
| `TileTheorems.PackedIs` | src/tile_memcpy_device.hpp:81-84 | the one run of a contiguous tile is exactly its elements |
| `TileTheorems.StridedIs` | src/tile_memcpy_device.hpp:99-110 | the element loop visits the elements whose row-major number is below its bound |
| `TileTheorems.WorkersCopyTile` | src/tile_memcpy_device.hpp:33-126 | for every layout, dimension, scope and number of workers, if the tile fits the `int` arithmetic, the bytes that all workers move together are exactly those of the element-wise copy |
| `TileTheorems.AnySchedule` | src/tile_memcpy_device.hpp:66-126 | then, in whatever order those bytes reach memory, the element-wise copy is made and no other byte changes |
| `TileTheorems.BoxElement` | src/tile_layout.hpp:84-113 | a put writes array elements `start + (i, j)` from tile elements `(i, j)`; a get reads them |
| `TileTheorems.LineElement` | src/tile_layout.hpp:114-126 | the same in one dimension |
| `TileTheorems.SameRemote` | src/tile_layout.hpp:84-129 | a get with the same box reads exactly where the put wrote |
| `TileTheorems.PutThenGet` | src/tile_layout.hpp:84-129 | putting a tile into a box and getting the box back gives the tile, for any strides, layouts, scopes and schedules that fit |
| `TileTheorems.WholeTileIff` | src/tile_memcpy_device.hpp:66-126 | no `int` overflows and exactly the tile is copied, if and only if a packed tile under a wave has fewer than 2^31 bytes, a strided one has elements and workers that add up to at most 2^31, and the counters fit |
| `TileTheorems.NothingCopied` | src/tile_memcpy_device.hpp:100-101 | a strided tile of 2^31 elements of which none is copied |
| `TileTheorems.WaveCopiesNothing` | src/util.hpp:676-694 | a packed tile of 2^36 bytes of which a wave copies none |
| `TileTheorems.WaveWritesOutside` | src/util.hpp:676-694 | a packed line for which a wave writes a byte outside the tile |
| `TileMemcpy.MemcpyLane` | src/util.hpp:603-620 | chunks of 16, 8, 4, 2 and 1 bytes copy exactly the range |
| `TileMemcpy.MemcpyWave` | src/util.hpp:660-695 | one lane copies exactly its chunks, with the narrowed counts of the source |
| `TileMemcpy.CopyPieces` | src/tile_memcpy_device.hpp:85-124 | one worker copies exactly its rows, columns or elements |
| `TileMemcpy.TileMemcpyRma` | src/tile_memcpy_device.hpp:66-126 | one worker copies exactly its bytes and changes no other |
| `Halo.Reciprocal` | examples/tile_halo_exchange.cc:198-205 | a PE's neighbour is in the grid and has it as neighbour in the opposite direction |
| `Halo.NeighbourAt` | examples/tile_halo_exchange.cc:198-205 | the PE in row r and column c has the PEs at (r-1, c), (r+1, c), (r, c-1), (r, c+1) to its north, south, west and east, where the grid has them |
| `Halo.PutCarries` | examples/tile_halo_exchange.cc:103-148 | each put carries exactly the boundary row or column to the facing halo, for every inner size that the `int` products admit |
| `Halo.NorthIff` | examples/tile_halo_exchange.cc:98-114 | for every inner size, the put to the north does so if and only if `(n + 1) * (n + 2)` is below 2^31 |
| `Halo.LastInnerSize` | examples/tile_halo_exchange.cc:98-114 | 46339 is the last such size; for 46340 the put goes below the domain |
| `Halo.NeverRead` | examples/tile_halo_exchange.cc:103-148 | no byte that a put writes is read by a put |
| `Halo.OneWriter` | examples/tile_halo_exchange.cc:103-148 | two puts that write one byte are the same put of the same PE |
| `Halo.RaceFree` | examples/tile_halo_exchange.cc:103-148 | no two puts of any PEs write the same byte and none writes a byte that another reads |
| `Halo.HaloExchanged` | examples/tile_halo_exchange.cc:89-151 | for every grid, every inner size up to that bound and every interleaving: the upper halo row of the PE at (r, c) holds the last inner row of (r-1, c), the lower one the first of (r+1, c), the left column the last of (r, c-1), the right one the first of (r, c+1), where these are in the grid; everything else is unchanged |
| `Teams.Limit` | src/team_tracker.hpp:101-153 | the configured number of teams, when it survives the narrowing; from there on a number close to 2^64 |
| `Teams.TripletComposes` | src/rocshmem.cpp:851-870 | at every depth the stored world triplet is the composition of all the splits |
| `Teams.NestedInWorld` | src/rocshmem.cpp:851-859 | numbers of a team whose splits stay inside their parents are PEs of the world |
| `Teams.BackFromWorld` | src/team.cpp:107-132 | `get_pe_in_my_team` gives back a number of the team and -1 for any other number |
| `Teams.WorldFromBack` | src/team.cpp:107-132 | a PE that has a number is the PE of that number |
| `Teams.ActiveSetAgrees` | src/rocshmem.cpp:812-822 | `pe_in_active_set` gives a PE its number in the new team |
| `Teams.SplitGivesMembers` | src/rocshmem.cpp:824-914 | a split inside the parent gives a team to exactly the PEs that the composed splits name, with that number, and tracks that team only |
| `Teams.SplitNotCreated` | src/rocshmem.cpp:880-914 | when the backend cannot make the team, exactly the PEs that the split names return an error, and nobody gets a team |
| `Teams.RefusedIff` | src/rocshmem.cpp:851-859 | with a free slot and arguments in range, and a last PE that fits an `int`, a split is refused, with nothing tracked, if and only if that PE is greater than the size of the world |
| `Teams.RefusedEarly` | src/rocshmem.cpp:832-849 | no free slot, or start, size or stride out of range: -1 and nothing tracked; no parent: 0 and nothing tracked |
| `Teams.TranslateRoundTrip` | src/team.cpp:56-69 | there and back gives the PE again if and only if it was a number of the source team, or was the -1 that other numbers come back as |
| `Teams.TranslateOutOfRange` | src/team.cpp:56-69 | a number past the end that translates but does not come back |
| `Teams.TranslatedIsSame` | src/team.cpp:56-69 | the answer is -1, always so without both teams, or the number in the destination team of the same PE of the world |
| `Teams.InsideIff` | src/rocshmem.cpp:845-859 | all members of a split are in the parent if and only if `start + stride * (size - 1)` is |
| `Teams.EndCheckIsWide` | src/rocshmem.cpp:854-859 | for every team of consecutive PEs inside the world, and for the world, the check admits a split of two from its last number on |
| `Teams.LeavesParent` | src/rocshmem.cpp:824-914 | and then the last PE of the parent gets a team with a member that is not in the parent |
| `Teams.EndCheckOverflows` | src/rocshmem.cpp:853-859 | in a world of eight the check admits a split whose last PE overflows `int` |
| `Teams.NestedAccepted` | src/rocshmem.cpp:851-859 | a split inside a nested parent always passes the check |
| `TeamGrid.Partition` | src/rocshmem.cpp:938-985 | rows partition the parent and so do columns |
| `TeamGrid.Within` | src/rocshmem.cpp:938-985 | every split of the two loops is sane and inside the parent |
| `TeamGrid.PairNamesPe` | src/rocshmem.cpp:938-985 | a row and a column share at most one PE, and the pair names it |
| `TeamGrid.Numbering` | src/rocshmem.cpp:938-985 | a PE's number in its row is its column and the other way round |
| `TeamSplit2d.LoopIs` | src/rocshmem.cpp:948-985 | what a whole loop comes to on a member PE, with any number of free slots |
| `TeamSplit2d.Split2dOutcome` | src/rocshmem.cpp:916-987 | on a member PE the split succeeds if and only if three slots are free, or two and the PE is in the last column; then it tracks exactly its row, consecutive PEs, and its column, every x-th PE to the end, each with its number; a failure leaves behind what there were slots for |
| `TeamSplit2d.OneRow` | src/rocshmem.cpp:938 | a row length of the parent's size or more gives one row of the whole parent and columns of one PE |
| `TeamSplit2d.Split2dRefuses` | src/rocshmem.cpp:923-933 | without a parent or with a row length below 1: an error and no team |
| `TeamSplit2d.ThirdSlotNeeded` | src/rocshmem.cpp:916-987 | four PEs with two slots each: one call succeeds in the last column and fails in the other |
| `TeamBackend.Backend.TeamSplitStrided` | src/rocshmem.cpp:824-914 | every path of the split, on the tracked list: -1 exactly for a full list, arguments out of range, or a last PE, as an `int`, above the size of the world; the limit and the soundness of tracked teams are kept |
| `TeamBackend.Backend.MakeXTeams` | src/rocshmem.cpp:945-964 | the first loop |
| `TeamBackend.Backend.MakeYTeams` | src/rocshmem.cpp:966-985 | the second loop |
| `TeamBackend.Backend.TeamSplit2d` | src/rocshmem.cpp:916-987 | the whole call, on the tracked list |
| `TeamBackend.Backend.DestroyAll` | src/team_tracker.hpp:88-94 | every tracked team is destroyed once, last one first |
| `IpcAvailability.PatternAgrees` | src/ipc_policy.hpp:222-253 | for all ranks and every `int` target, the wrapped subtraction, truncating division and stride test find what a scan finds |
| `IpcAvailability.NextTerm` | src/ipc_policy.hpp:141-145 | the wrapping comparison of the detection decides the exact one |
| `IpcAvailability.IpcImpl.IpcDetectPattern` | src/ipc_policy.hpp:131-147 | a positive stride means an arithmetic progression with that stride; 0 means that there is none |
| `IpcAvailability.IpcImpl.Scan` | src/ipc_policy.hpp:211-220 | the first position of the target, or none |
| `IpcAvailability.IpcImpl.HostIsIpcAvailable` | src/ipc_policy.hpp:149-158 | the answer of the scan, negative without a list |
| `IpcAvailability.IpcImpl.IsIpcAvailableStrided` | src/ipc_policy.hpp:222-231 | the answer of the scan, for strided ranks |
| `IpcAvailability.IpcImpl.DeviceIsIpcAvailable` | src/ipc_policy.hpp:233-253 | the same verdict and index as the host, for every rank list and target |
| `DebugFlags.ModifiersAreTokens` | src/envvar.cpp:92-96 | what the positions cut out are the colon-separated tokens after the first |
| `DebugFlags.AfterEnv` | src/envvar.cpp:105-118 | taking the token after `env` as well means the same as not looking ahead |
| `DebugFlags.Modify` | src/envvar.cpp:94-127 | one turn of the loop |
| `DebugFlags.MakeDebugFlags` | src/envvar.cpp:73-130 | for every string the flags are those of a left fold over the tokens |
| `DebugLaws.MessageFlags` | src/envvar.cpp:78-104 | a message flag holds if and only if the level reaches it and its negation is nowhere among the modifiers; statistics if and only if asked for |
| `DebugLaws.ColorFlag` | src/envvar.cpp:123-124 | colour is off if and only if the last of `color` and `nocolor` is the latter |
| `DebugLaws.EnvFlags` | src/envvar.cpp:80-122 | the last of `env` and `noenv` decides, else the level; the last of `env`, `all`, `full` and `modified` decides how much |
| `DebugLaws.LowerIs` | src/envvar.cpp:97 | modifiers are compared without regard to case |

## Left out

- GPU assembly, memory orders, cache flushes and fences of the hardware: atomics are single sequentially consistent
  steps.
- The bytes that SDMA copies move: queues count copies.
- Device allocations for the peer-base arrays, `free_ipc_symm_table` and `cleanup_symm_registration`: they add no new
  state rule.
- The GDA and reverse-offload backends, the heap allocator, bootstrap, RCCL and the collective launcher.
- MPI communicators of teams, and the bitmask of pooled work arrays from which a team takes its index.
- `TeamTracker::untrack` and team destruction other than `destroy_all`, which only shorten the tracked list.
- `memcpy_wg`, which the tile engine does not call, and the multi-workgroup copies.
- Re-entering `sync_device_modules` or `clear_device_module_state` during a HIP call; only registrations re-enter.
- The `wait_until` family, whose treatment of the status array is not settled by the code.
- Parsing of the debug level itself, statistics, logging and environment printing.
- The grid set-up of the halo example other than the neighbour numbers: filling and printing buffers.
- TileMemcpy.CopyPieces: the source's four loops over rows, columns, elements and line elements are one loop over the
  piece function `Piece`.
- Sdma.SdmaContext.SdmaCopy: a null handle, which the caller asserts away, leaves everything unchanged here.
