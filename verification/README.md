# A model of the binder user-space library

This project models the parts of Android's binder user-space library and of `servicemanager` in which several
operations have to agree with each other, and proves what they agree on.

- **RPC references** (`RpcWire`, `RpcNodes`, `RpcRefProtocol`, `RpcRefResults`, `RpcLateFlush`, `RpcState`): two
  endpoints of an RPC session count the references they send and receive per address. A state is both endpoints with the
  parcels being written or read and the messages on the wire; any message may arrive next, and threads interleave at
  every lock. The counts are conserved in every run and an object is never freed while the other side can still use it.
  The flush that follows reading one's own binder can still hit its fatal checks, because it runs after the lock was
  given up; the exact condition is proved, and that it takes two flushes of one address at the same time. No other
  fatal check on the counts, and no error exit for a message of the other side, is reachable.
- **RPC oneway calls** (`RpcOneway`, `RpcState`): calls over unordered connections start in sending order, and as long
  as calls are left one of them can go on.
- **RPC connections and sessions** (`RpcConnections`, `RpcLifecycle`): who may use which connection, and how sessions
  end.
- **Shared memory** (`ChunkList`, `Blocks`, `BestFit`, `MemoryDealer`): the best-fit allocator on its linked list
  refines a plain set of free units; live allocations never overlap.
- **Parcels** (`ParcelObjects`, `ParcelCodec`, `ParcelForms`, `ParcelOutput`, `ParcelWriter`): the search hint for
  objects against a full scan; the byte format, and that the readers accept exactly it; and writing at the end, with
  what each writer leaves behind and answers when the buffer cannot grow, and exactly when all of it arrives.
- **Persistable bundles** (`PersistableBundle`, `BundleOutput`, `BundleWriter`, `BundleObject`): the recursive,
  back-patched codec inverts itself, exactly when it fits, and reading on top of a bundle overlays it.
- **Service manager and lazy registrar** (`ServiceManager`, `ServiceManagerObject`, `LazyRegistrar`): services hear of
  their clients before they can be taken back; shutdown is all or nothing.
- **Smaller cores** (`ScatterGather`, `TextOutput`, `ProxyCount`), and `Basics`, which others share.

Each state machine is a set of functions on values with an invariant and theorems about every run. Beside it stand
classes and methods in the shape of the source, with its loops and updates in place, each proved equal to the
functions. What the environment decides (memory, sockets, random numbers, access checks, the driver's reference
counts, the steps of other processes) is a parameter, so the theorems hold for all of it.

Where the code and its own comments or intentions differ, the model follows the code:

- `flushExcessBinderRefs` can abort a process between honest endpoints (`RpcLateFlush.LateFlushHappens`,
  `RpcRefProtocol.LateFlushIff`; never with one flush at a time, `RpcRefResults.NoneFatal`).
- The test of the FOR_SERVER bit on entering addresses compares a mask (0 or 2) with a truth value, so on a server it
  never rejects anything (`RpcRefResults.RejectsIff`, `RpcRefResults.ServerTakesOwn`); between honest endpoints it is
  not needed.
- A DEC_STRONG carries a 32-bit amount; what is cut off is lost (the `leaked` term, `RpcRefResults.SendDecLosesIff`), as
  are references in parcels that are destroyed unsent or unread. In all other runs nothing is
  (`RpcRefResults.NothingLost`).
- An allocation size within 31 bytes of the largest one wraps when rounded up (`MemoryDealer.WrapHappens`;
  `MemoryDealer.StepKeeps` has the exact condition).
- `writeString16` and the vector writers can answer "no error" without having written everything: when the buffer for
  the data would have to grow beyond INT32_MAX, and, as nobody looks at the write of a vector's size, when that word
  did not fit and nothing follows it (`ParcelOutput.StringLostIff`, `ParcelOutput.VectorLostIff` and
  `ParcelOutput.LossesHappen`). The other way round, an empty vector has no storage, and writing it whole answers
  whatever error the parcel noted before (`ParcelOutput.NoteReturned`).
- Rounding the heap up to pages wraps for a size within a page of the largest one, which gives a heap without units.
- The length in front of a bundle does not include the header words, unlike its comment says.
- `PersistableBundle::erase` removes the key from the first map that has it only (`BundleObject.PutUniqueIff`,
  `BundleObject.PutLeavesOther`).
- `readObject` can miss an object in a table that is out of order (`ParcelObjects.UnsortedMisses`; `ReadObjectAt` has
  the exact condition).

## Model

| member | source | states |
|---|---|---|
| RpcWire.RawRoundTrip | libs/binder/RpcWireFormat.h:30-41 | Raw 64-bit keys and (options, address) pairs are in bijection; only the zero address is raw 0. |
| RpcNodes.LeavingCounts | libs/binder/RpcState.cpp:80-136 | Sending a binder adds one to what was sent under its address, makes the node own it and touches no other address; only local binders and proxies of this session get there. |
| RpcNodes.EnteringCounts | libs/binder/RpcState.cpp:138-183 | The exact condition of each answer, with the option bits as numbers, and what an accepted address does to the counts and hands out. |
| RpcNodes.DecToCounts | libs/binder/RpcState.cpp:637-671 | When giving back is dead, nothing, fatal or sent, and then the amount, the counts and whether the node stays. |
| RpcNodes.ProcessDecCounts | libs/binder/RpcState.cpp:1012-1063 | When a DEC_STRONG is ignored, refused, fatal or processed, and then the counts, the strong reference and whether the node stays. |
| RpcRefProtocol.LeaveKeeps | libs/binder/RpcState.cpp:55-136 | Handing a binder to the peer keeps the two-sided invariant: counts balance, nodes own exactly what was sent. |
| RpcRefProtocol.ReadSucceeds | libs/binder/RpcState.cpp:138-183 | A reference that arrived is always accepted: no error exit is taken and the binder handed out is strong and of the right kind. |
| RpcRefProtocol.ReadKeeps | libs/binder/RpcState.cpp:138-183 | Reading a reference out of a received parcel keeps the invariant. |
| RpcRefProtocol.FlushCheckKeeps | libs/binder/RpcState.cpp:185-211 | The locked check of the flush is fatal exactly when the node has gone meanwhile or names another binder, and keeps the invariant otherwise. |
| RpcRefProtocol.FlushSendKeeps | libs/binder/RpcState.cpp:212-216 | The second half of the flush, after the lock was given up: fatal exactly when the node is gone, otherwise the invariant is kept. |
| RpcRefProtocol.SendDecKeeps | libs/binder/RpcState.cpp:637-671 | Lowering a received count and sending the difference keeps the invariant; the fatal checks do not fire. |
| RpcRefProtocol.DropKeeps | libs/binder/RpcState.cpp:637-671 | The last outside holder of a proxy lets go: the proxy gives back all it received, unless its node still owns it. |
| RpcRefProtocol.AckSucceeds | libs/binder/RpcState.cpp:991-1047 | A DEC_STRONG that arrives finds its node, a strong binder and a large enough count: the exits at 1014, 1020 and 1029 and the fatal check at 1035 are unreachable. |
| RpcRefProtocol.AckKeeps | libs/binder/RpcState.cpp:991-1063 | Processing a DEC_STRONG, with the node and the proxy it may release, keeps the invariant. |
| RpcRefProtocol.PostKeeps | libs/binder/RpcState.cpp:495-594 | Sending a parcel moves its references from the outbox to the wire and changes no view of any address. |
| RpcRefProtocol.DeliverKeeps | libs/binder/RpcState.cpp:761-805 | Any message may arrive next; its references move from the wire to the inbox. |
| RpcRefProtocol.ActKeeps | libs/binder/RpcState.cpp:55-216 | For every action in every state of the invariant: no error exit, a fatal check exactly for a late flush, and the invariant afterwards. |
| RpcRefProtocol.RunKeeps | libs/binder/RpcState.cpp:55-216 | The invariant holds in every state of every interleaving of the two endpoints over unordered connections. |
| RpcRefProtocol.Conservation | libs/binder/RpcState.cpp:637-671 | In every state of every run, for each address and both directions: sent equals received plus references in parcels, on the wire, in DEC_STRONG messages, and lost; RpcRefResults.ExactConservation has the runs that lose none. |
| RpcRefProtocol.NodeIff | libs/binder/RpcState.h:208-228 | The creator has the node exactly while the other side knows it or references are under way, and then it is local and strongly held; a held proxy has received references. |
| RpcRefProtocol.NoPrematureFree | libs/binder/RpcState.cpp:1049-1063 | In every run, while a proxy lives or a reference travels either way, the owner has the node with a strong reference, and only then. |
| RpcRefResults.SendDecLosesIff | libs/binder/RpcState.cpp:655-671 | A DEC_STRONG loses references if and only if the amount it should carry does not fit the 32-bit field. |
| RpcRefResults.NothingLost | libs/binder/RpcState.cpp:55-216 | In every run that destroys no parcel with references in it and has no count of 2^32 or more, nothing is ever lost. |
| RpcRefResults.ExactConservation | libs/binder/RpcState.cpp:637-671 | In every state of such a run sent equals received plus what is in parcels, in messages and in DEC_STRONG messages, for each address and both directions. |
| RpcRefProtocol.LateFlushIff | libs/binder/RpcState.cpp:185-216 | The delayed part of a flush is fatal if and only if the other side has let go of everything in between. |
| RpcLateFlush.LateFlushHappens | libs/binder/RpcState.cpp:185-216 | Two concrete runs of honest endpoints reach a fatal check of the flush, one the check under the first lock, one the check under the second. |
| RpcRefResults.FlushesAreOwed | libs/binder/RpcState.cpp:185-216 | As long as no address had two flushes pending at one side, each pending flush finds its node, its own binder and received references to return. |
| RpcRefResults.NoneFatal | libs/binder/RpcState.cpp:55-216 | In such a run no step that either side could take next is fatal or takes an error exit. |
| RpcRefResults.AlwaysChecked | libs/binder/RpcState.cpp:85-92 | In every state of every run the remaining fatal checks on the table hold: a proxy is listed under its own address (90), every node's binder is owned when the session is cleared (274), and a held proxy has a node to transact on (507). |
| RpcRefResults.RejectsIff | libs/binder/RpcState.cpp:167-173 | An unknown address is rejected if and only if this side is a client and the FOR_SERVER bit is clear: a client rejects exactly what claims to be its own, a server nothing. |
| RpcRefResults.ServerTakesOwn | libs/binder/RpcState.cpp:167-180 | A server makes a proxy for an address of its own making that it never handed out. |
| RpcOneway.PushAscends | libs/binder/RpcState.h:238-247 | The priority queue with the reversed comparison keeps the lowest number on top. |
| RpcOneway.SendKeeps | libs/binder/RpcState.cpp:503-518 | Numbering a oneway send keeps the invariant of the call order. |
| RpcOneway.ReceiveKeeps | libs/binder/RpcState.cpp:806-843 | A call that arrives runs if it is its turn and waits otherwise; the invariant is kept. |
| RpcOneway.DoneKeeps | libs/binder/RpcState.cpp:923-953 | After a call the next one in order, if it is there, is taken from the queue; the invariant is kept. |
| RpcOneway.OnewayOrder | libs/binder/RpcState.cpp:806-843 | In every run: calls begin in sending order, once each, one at a time; queued numbers are above the node's number. |
| RpcOneway.NothingIsStuck | libs/binder/RpcState.cpp:923-953 | The call whose turn it is is travelling or running, never queued; when nothing travels or runs, the queue is empty and all calls have run. |
| RpcOneway.ReceiveEnabledIff | libs/binder/RpcState.cpp:806-843 | A call in its turn is always taken; one out of turn is queued if and only if fewer than 9999 calls wait, and the queue then holds it and all others. |
| RpcOneway.DoneEnabled | libs/binder/RpcState.cpp:923-937 | A running call can always finish: the numbers do not run out below 2^64 - 1 calls. |
| RpcOneway.SomeStepEnabled | libs/binder/RpcState.cpp:806-953 | In every state of every run in which a call is left to run there is a step other than a send that can be taken, however many calls are queued. |
| RpcOneway.WeightFalls | libs/binder/RpcState.cpp:806-953 | Every step but a send uses up a measure, so without further sends every run ends. |
| RpcOneway.AllCanRun | libs/binder/RpcState.cpp:806-953 | From every such state steps lead to one in which all calls sent have run, in order, and nothing is left. |
| RpcStateObject.TakenBound | libs/binder/RpcState.cpp:101-136 | Pigeonhole: consecutive ids of the 32-bit counter whose addresses are all taken are that many different keys. |
| RpcStateObject.RpcState.FreshAddress | libs/binder/RpcState.cpp:109-136 | The search ends within table size + 1 tries with an address that is unused and of this side's own kind. |
| RpcStateObject.RpcState.OnBinderLeaving | libs/binder/RpcState.cpp:55-136 | INVALID_OPERATION exactly for kernel proxies and proxies of another session, the exact condition of every other answer, the new table, and nothing changed without success. |
| RpcStateObject.RpcState.OnBinderEntering | libs/binder/RpcState.cpp:138-183 | The table and the binder handed out follow the specification, including the comparison of a mask with a truth value. |
| RpcStateObject.RpcState.FlushCheck | libs/binder/RpcState.cpp:185-211 | For a local binder in a live session the answer is that of the protocol's step FlushCheck, for every endpoint with this table that still has to flush: abort exactly where the step is fatal, and a send exactly where it makes the flush pending. |
| RpcStateObject.RpcState.SendDecStrongToTarget | libs/binder/RpcState.cpp:637-671 | The new table and the amount to send, or the fatal outcomes, including dropping waiting oneway calls. |
| RpcStateObject.RpcState.ProcessDecStrong | libs/binder/RpcState.cpp:991-1047 | The outcome and table of processing a DEC_STRONG follow the specification. |
| RpcStateObject.RpcState.TryEraseNode | libs/binder/RpcState.cpp:1049-1063 | The strong reference is released when nothing is sent, the node erased when nothing is left; false where calls still wait. |
| RpcStateObject.RpcState.TransactNumber | libs/binder/RpcState.cpp:503-518 | A oneway send takes the node's number and advances it, until the numbers run out. |
| RpcStateObject.RpcState.Receive | libs/binder/RpcState.cpp:806-843 | A call runs exactly in its turn, waits exactly while fewer than 9999 are queued, and terminates the session otherwise; with the queue after it. |
| RpcStateObject.RpcState.Done | libs/binder/RpcState.cpp:923-953 | The node moves on and hands out the next call exactly when its number has come; nothing happens if the node is gone. |
| RpcStateObject.RpcState.DrainOneway | libs/binder/RpcState.cpp:845-953 | The goto loop, while other threads deliver calls and take back references until the node may go, ends and runs calls of consecutive numbers, each of them delivered. |
| RpcStateObject.RpcState.Clear | libs/binder/RpcState.cpp:252-285 | A session ends once and forgets all nodes, fatal exactly if some node's binder is not owned any more; after that there are no nodes to clear. |
| ChunkList.LinkedList.InsertAfter | libs/binder/MemoryDealer.cpp:61-67 | The list stays a well-formed doubly linked list with the node behind the given one. |
| ChunkList.LinkedList.InsertBefore | libs/binder/MemoryDealer.cpp:69-75 | The same in front of it. |
| ChunkList.LinkedList.InsertHead | libs/binder/MemoryDealer.cpp:77-87 | The same at the head. |
| ChunkList.LinkedList.Remove | libs/binder/MemoryDealer.cpp:100-106 | The list stays well-formed without the node. |
| Blocks.NoneFitsIff | libs/binder/MemoryDealer.cpp:333-347 | No chunk fits if and only if no run of that many free units exists (on a page boundary if asked): best fit misses nothing. |
| Blocks.BestIsSmallestRun | libs/binder/MemoryDealer.cpp:338-346 | Without alignment the chosen chunk is the smallest maximal free run that is long enough, the lowest on ties. |
| Blocks.MaximalIff | libs/binder/MemoryDealer.cpp:141-150 | Free chunks are exactly the maximal runs of free units. |
| Blocks.TakeKeeps | libs/binder/MemoryDealer.cpp:349-375 | Allocation keeps the chunks a tiling without empty chunks or free neighbours, and exactly the units handed out stop being free. |
| Blocks.ReleaseKeeps | libs/binder/MemoryDealer.cpp:389-412 | Freeing keeps the tiling, exactly the units of the chunk become free, and every other used chunk stays. |
| Blocks.ReleaseTwice | libs/binder/MemoryDealer.cpp:385-388 | Freeing a chunk that is free already changes nothing. |
| Blocks.AllFree | libs/binder/MemoryDealer.cpp:389-401 | When all units are free there is one chunk, the whole heap. |
| BestFit.SimpleBestFitAllocator.constructor | libs/binder/MemoryDealer.cpp:276-283 | The heap is the size rounded up to pages, or nothing for a size within a page of 2^64, and is one free chunk, cut to 28 bits of units. |
| BestFit.SimpleBestFitAllocator.FindBest | libs/binder/MemoryDealer.cpp:327-347 | The search finds the smallest chunk that fits, first on ties, or there is none. |
| BestFit.SimpleBestFitAllocator.CarveOut | libs/binder/MemoryDealer.cpp:349-375 | Splitting in place gives the specified chunks and keeps the linked list well-formed. |
| BestFit.SimpleBestFitAllocator.Alloc | libs/binder/MemoryDealer.cpp:322-377 | The whole answer: zero size, no memory exactly if nothing fits, else the offset in the best chunk and the new list. |
| BestFit.SimpleBestFitAllocator.FindStart | libs/binder/MemoryDealer.cpp:379-385 | The first chunk at an offset, or there is none. |
| BestFit.SimpleBestFitAllocator.MergeFrom | libs/binder/MemoryDealer.cpp:389-401 | The merging loop on the linked list refines merging on values, and the chunk returned is free. |
| BestFit.SimpleBestFitAllocator.Dealloc | libs/binder/MemoryDealer.cpp:379-418 | The first chunk at the offset is released and merged, or nothing changes; the fatal check after merging does not fire for a chunk that has units. |
| MemoryDealer.StepKeeps | libs/binder/MemoryDealer.cpp:322-418 | Allocations and used chunks stay in one-to-one correspondence after every step, if and only if the step is not a request that wraps when rounded up. |
| MemoryDealer.RunKeeps | libs/binder/MemoryDealer.cpp:322-418 | So they do in every state of every run without such requests. |
| MemoryDealer.NoOverlap | libs/binder/MemoryDealer.cpp:237-245 | Two live allocations of at least one byte never share a byte and lie inside the heap. |
| MemoryDealer.FreeIff | libs/binder/MemoryDealer.cpp:322-418 | A unit is free exactly when no live allocation covers it. |
| MemoryDealer.FindsOwn | libs/binder/MemoryDealer.cpp:379-388 | Destroying a live allocation always finds exactly its own chunk. |
| MemoryDealer.AllGivenBack | libs/binder/MemoryDealer.cpp:379-418 | Once all are destroyed, in any order, the heap is one free chunk again. |
| MemoryDealer.RefusedIff | libs/binder/MemoryDealer.cpp:322-377 | A request is refused exactly when no long enough free run exists; aligned requests get aligned offsets. |
| MemoryDealer.WrapHappens | libs/binder/MemoryDealer.cpp:327-327 | A request of 2^64 - 1 bytes to a heap of one page of 4096 bytes succeeds: rounding it up wraps to zero units. |
| MemoryDealer.TrimsWholePages | libs/binder/MemoryDealer.cpp:184-201 | A page is given back to the kernel if and only if all of it lies inside the allocation. |
| MemoryDealer.Dealer.Allocate | libs/binder/MemoryDealer.cpp:237-245 | The dealer takes an allocation step. |
| MemoryDealer.Dealer.Destroy | libs/binder/MemoryDealer.cpp:176-227 | The destructor takes a destroy step; size zero never reaches the allocator. |
| ParcelObjects.SortSorts | libs/binder/Parcel.cpp:1489-1501 | The insertion sort yields a sorted permutation. |
| ParcelObjects.SortInPlace | libs/binder/Parcel.cpp:1489-1501 | The in-place loops compute that sort. |
| ParcelObjects.Parcel.constructor | libs/binder/Parcel.cpp:2232-2276 | A table is kept exactly if its offsets are in order, do not overlap and have known types. |
| ParcelObjects.Parcel.CheckSorted | libs/binder/Parcel.cpp:1477-1486 | The quick scan from the end tells exactly whether the table is sorted. |
| ParcelObjects.Parcel.CheckFromHint | libs/binder/Parcel.cpp:1457-1475 | Looking only from the hint on denies exactly when the full scan does. |
| ParcelObjects.Parcel.ValidateReadData | libs/binder/Parcel.cpp:1454-1505 | Denies exactly when some object starts below the upper bound and ends beyond the position, for sorted and unsorted tables. |
| ParcelObjects.Parcel.ReadBytes | libs/binder/Parcel.cpp:1507-1531 | Answer and position as the full scan gives them; a denied read still moves. |
| ParcelObjects.Parcel.ReadObjectAt | libs/binder/Parcel.cpp:2134-2193 | In any table an object is found exactly if the way back from the first offset not before it, counted from the hint, meets it before anything smaller; in a sorted table exactly if it is in the table. |
| ParcelObjects.SortedFinds | libs/binder/Parcel.cpp:2163-2184 | With a sorted table and a hint that is not past the position the two searches miss nothing. |
| ParcelObjects.UnsortedMisses | libs/binder/Parcel.cpp:2163-2184 | In a table out of order they miss an object that is there. |
| ParcelObjects.Parcel.SetDataPosition | libs/binder/Parcel.cpp:373-384 | The position moves, hint and flag are reset. |
| ParcelObjects.Replay | libs/binder/Parcel.cpp:1454-1605 | Any sequence of reads, object reads and moves gets the answers of a reader that scans all objects each time. |
| ParcelCodec.Int32RoundTrip | libs/binder/Parcel.cpp:1585-1603 | A 32-bit integer is read back, and the position is behind it. |
| ParcelCodec.Int64RoundTrip | libs/binder/Parcel.cpp:1585-1603 | A 64-bit integer (or the bits of a double) is read back. |
| ParcelCodec.StringRoundTrip | libs/binder/Parcel.cpp:1185-1202 | A 16-bit string with its length, terminator and padding is read back by readString16Inplace. |
| ParcelCodec.VectorWordsRoundTrip | libs/binder/include/binder/Parcel.h:975-1006 | Vectors of booleans and 32-bit integers are read back. |
| ParcelCodec.VectorLongsRoundTrip | libs/binder/include/binder/Parcel.h:975-1006 | Vectors of 64-bit integers and doubles are read back. |
| ParcelCodec.VectorStringsRoundTrip | libs/binder/include/binder/Parcel.h:975-1006 | Vectors of strings are read back. |
| ParcelForms.StringIff | libs/binder/Parcel.cpp:1886-1902 | A string is read if and only if its length, its units and a terminating zero stand there and the padding fits; otherwise the answer is UNEXPECTED_NULL. |
| ParcelForms.WordsIff | libs/binder/include/binder/Parcel.h:1161-1184 | A vector of booleans or 32-bit integers is read if and only if its size and its elements stand there. |
| ParcelForms.LongsIff | libs/binder/include/binder/Parcel.h:1161-1184 | The same for 64-bit integers and doubles. |
| ParcelForms.StringsIff | libs/binder/include/binder/Parcel.h:1161-1206 | The same for strings, one after the other; a size beyond the bytes left is BAD_VALUE. |
| ParcelForms.VectorFailures | libs/binder/include/binder/Parcel.h:1161-1206 | Which status a vector that cannot be read gives: no size, a negative size, or elements that are not there. |
| ParcelForms.WordBytes | libs/binder/Parcel.cpp:1619-1632 | Integers stand in memory order, least significant byte first. |
| ParcelForms.StringBytes | libs/binder/Parcel.cpp:1185-1202 | A string byte by byte: length without the terminator, units, terminator, padding. |
| ParcelForms.VectorBytes | libs/binder/include/binder/Parcel.h:977-1006 | Vectors byte by byte. |
| ParcelWriter.Parcel.ContinueWrite | libs/binder/Parcel.cpp:2562-2573 | Growing keeps the contents; it fails exactly for sizes over INT32_MAX or refused memory, and only the latter is noted. |
| ParcelWriter.Parcel.GrowData | libs/binder/Parcel.cpp:2366-2379 | The buffer grows to half as much again, at least 128, or the exact reason why not. |
| ParcelWriter.Parcel.WriteAligned | libs/binder/Parcel.cpp:1619-1632 | Succeeds exactly if the bytes fit or the buffer can grow, and overwrites just those bytes. |
| ParcelWriter.Parcel.WriteInplace | libs/binder/Parcel.cpp:872-921 | The same for padded bytes, the padding cleared. |
| ParcelWriter.Parcel.WriteString16 | libs/binder/Parcel.cpp:1185-1202 | Contents, buffer, noted error and answer are those of ParcelOutput.PutString: all, only the length word, or nothing. |
| ParcelOutput.ExactString | libs/binder/Parcel.cpp:1185-1202 | The answer is NoError and the whole string is there if and only if its two pieces have room one after the other. |
| ParcelOutput.StringLostIff | libs/binder/Parcel.cpp:1190-1201 | The characters are missing and the answer is NoError if and only if no error was noted, the length word fits, and the buffer for the rest would have to grow beyond INT32_MAX. |
| ParcelOutput.ExactVector | libs/binder/include/binder/Parcel.h:977-1002 | The answer is NoError and the whole flat vector is there if and only if its two pieces have room and, for an empty one other than of booleans, no error was noted before. |
| ParcelOutput.VectorLostIff | libs/binder/Parcel.cpp:856-870 | A flat vector loses bytes and answers NoError exactly in the stated cases: an empty one whose size word did not fit and left no note it returns, or one of integers whose first piece that did not fit was too large for any buffer. |
| ParcelOutput.ExactStrings | libs/binder/include/binder/Parcel.h:977-1006 | The answer is NoError and the whole vector of strings is there if and only if all its pieces have room. |
| ParcelOutput.LossesHappen | libs/binder/Parcel.cpp:856-870 | A string, a vector of integers and an empty vector of booleans that are lost with the answer NoError. |
| ParcelOutput.NoteReturned | libs/binder/Parcel.cpp:856-870 | An empty vector that is written whole still answers the error noted before. |
| ParcelOutput.RoomForTotal | libs/binder/Parcel.cpp:2366-2379 | Pieces have room whenever their total fits the buffer or a buffer for it can be had. |
| ParcelOutput.IntAnswers | libs/binder/Parcel.cpp:1619-1632 | The exact condition of each answer of an aligned write, in numbers, and what is left in the parcel and noted. |
| ParcelOutput.VectorAnswers | libs/binder/Parcel.cpp:856-870 | What a vector that is not written answers. |
| ParcelWriter.Parcel.WriteVector | libs/binder/include/binder/Parcel.h:977-1002 | Contents, buffer, noted error and answer are those of ParcelOutput.PutVector on every parcel, with and without room. |
| ParcelWriter.Parcel.WriteStrings | libs/binder/include/binder/Parcel.h:977-1006 | Contents, buffer, noted error and answer are those of ParcelOutput.PutStrings on every parcel, with and without room. |
| PersistableBundle.StoreAssigns | libs/binder/PersistableBundle.cpp:416-470 | Storing an entry is one assignment to the map of its type. |
| PersistableBundle.StoreAscends | libs/binder/PersistableBundle.cpp:416-470 | The maps stay in key order. |
| PersistableBundle.RoundTrip | libs/binder/PersistableBundle.cpp:94-138 | For every finitely nested bundle: reading its parcel form into an empty bundle gives the same eleven maps and stops right behind it. |
| PersistableBundle.MagicRoundTrip | libs/binder/PersistableBundle.cpp:399-404 | The same for forms with either of the two magics. |
| PersistableBundle.ReadOver | libs/binder/PersistableBundle.cpp:126-138 | Reading the form of any bundle on top of any other gives the second overlaid with the first, nested ones on top of those with the same key. |
| PersistableBundle.OverlaidMaps | libs/binder/PersistableBundle.cpp:408-476 | What the overlay means, map by map: places the form has hold its values, nested bundles merged, and all other places what they held. |
| ParcelForms.TagsInOrder | libs/binder/ParcelValTypes.h:22-52 | The type tags as numbers, and that the maps are written and searched in the order of these tags. |
| ParcelForms.BundleBytes | libs/binder/PersistableBundle.cpp:94-124 | A bundle byte by byte: length of the body, magic, count, key, tag, value. |
| ParcelForms.BundleFailures | libs/binder/PersistableBundle.cpp:126-138 | A negative length is UNEXPECTED_NULL, no length or zero is nothing to read, and anything else without one of the magics is BAD_VALUE. |
| ParcelForms.TypeFailure | libs/binder/PersistableBundle.cpp:470-474 | A tag other than the eleven is BAD_TYPE. |
| BundleOutput.ExactBundle | libs/binder/PersistableBundle.cpp:94-124 | For every bundle, at any nesting, and every parcel: NoError and the whole form, length filled in, if and only if its pieces have room and no noted error meets an empty vector of integers or doubles in it. |
| BundleOutput.RoomForBundle | libs/binder/PersistableBundle.cpp:94-124 | The pieces have room whenever the whole form fits the buffer or one that can be had. |
| BundleOutput.FailureEnds | libs/binder/PersistableBundle.cpp:315-386 | The first write that fails ends the writing, with its answer. |
| BundleWriter.WriteInner | libs/binder/PersistableBundle.cpp:315-386 | The count and the entries of the eleven maps in order, up to the first write that fails, exactly as BundleOutput.PutInner says. |
| BundleWriter.BackPatch | libs/binder/PersistableBundle.cpp:114-123 | Filling in the length changes the reserved word and nothing else. |
| BundleWriter.WriteToParcel | libs/binder/PersistableBundle.cpp:94-124 | What is appended and answered is BundleOutput.PutBundle, on every parcel, with and without room or a noted error. |
| BundleWriter.WriteAndRead | libs/binder/PersistableBundle.cpp:94-138 | The write answers NoError with the whole form there exactly under the condition of BundleOutput.ExactBundle, and then the bundle read back is the same and the read ends at the end. |
| BundleObject.Bundles.Erase | libs/binder/PersistableBundle.cpp:158-170 | The first of the eleven maps that has the key loses it, and nothing else changes. |
| BundleObject.Bundles.Put | libs/binder/PersistableBundle.cpp:172-225 | The value is there under its key afterwards, the first map that had the key lost it, and every entry of another key is as before. |
| BundleObject.PutIsAssignment | libs/binder/PersistableBundle.cpp:172-225 | The same of the specification, in terms of the eleven maps. |
| BundleObject.PutUniqueIff | libs/binder/PersistableBundle.cpp:158-225 | After a put the key is in one map if and only if the erase left it in no map but the one put into; other keys are unaffected. |
| BundleObject.PutLeavesOther | libs/binder/PersistableBundle.cpp:158-180 | A parcel can bring a key into two maps, and after a put it is still in two. |
| BundleObject.ChangesKeepOnce | libs/binder/PersistableBundle.cpp:158-225 | Any sequence of puts and erases on an empty bundle keeps every key in at most one map. |
| BundleObject.Bundles.ReadFromParcel | libs/binder/PersistableBundle.cpp:126-138 | Reads on top of what the bundle holds, as specified. |
| BundleObject.ReadInto | libs/binder/PersistableBundle.cpp:126-138 | The reading loop, nested reads included, computes the specified result or status. |
| BundleObject.ReadOne | libs/binder/PersistableBundle.cpp:415-476 | One entry: key, type tag, value, with nested bundles read into the existing one. |
| RpcConnections.FindConnection | libs/binder/RpcSession.cpp:893-918 | The loop returns the first connection of the thread and the first free one before it, counted from the offset. |
| RpcConnections.FindKeeps | libs/binder/RpcSession.cpp:800-891 | A round of find keeps the agreement of owners and guards. |
| RpcConnections.ReleaseKeeps | libs/binder/RpcSession.cpp:920-932 | So does giving back the innermost guard. |
| RpcConnections.RunKeeps | libs/binder/RpcSession.cpp:708-729 | In every interleaving the owner table says exactly what the threads' guard stacks say, and the offset is in range. |
| RpcConnections.Exclusive | libs/binder/RpcSession.cpp:859-867 | No two threads ever have guards on the same outgoing connection. |
| RpcConnections.OwnsOne | libs/binder/RpcSession.cpp:859-867 | No thread owns two outgoing connections. |
| RpcConnections.ReleaseFrees | libs/binder/RpcSession.cpp:920-932 | A reentrant guard frees nothing; the owning one frees its connection, which then no guard uses. |
| RpcConnections.WaitsIff | libs/binder/RpcSession.cpp:859-887 | A thread waits or is refused exactly when all outgoing connections belong to others and no incoming one may be used. |
| RpcConnections.IncomingIff | libs/binder/RpcSession.cpp:835-857 | An incoming connection is used if and only if it is the first the thread itself serves, the call is not asynchronous, and calls may be nested in it or it is about references and no free connection comes first. |
| RpcConnections.OutgoingChosen | libs/binder/RpcSession.cpp:813-867 | A reused outgoing connection is the thread's own; one that is taken is the first free one from the offset, and the thread had none. |
| RpcConnections.OffsetMoves | libs/binder/RpcSession.cpp:830-833 | The offset moves by one exactly for an asynchronous call that finds a connection free or its own. |
| RpcConnections.NeverShared | libs/binder/RpcSession.cpp:800-891 | In every run no two threads have guards on the same connection, outgoing or incoming. |
| RpcConnections.Connections.FindOne | libs/binder/RpcSession.cpp:800-891 | A round of find on the object is the specified step; what it answers with is free, or the thread's own, or served by it. |
| RpcConnections.Connections.GiveBack | libs/binder/RpcSession.cpp:920-932 | The destructor of a guard is the specified step. |
| RpcConnections.Connections.BeginAdd | libs/binder/RpcSession.cpp:708-715 | The connection is appended and belongs to the thread that adds it. |
| RpcConnections.Connections.EndAdd | libs/binder/RpcSession.cpp:723-729 | The connection belongs to nobody once it is set up. |
| RpcLifecycle.StepKeeps | libs/binder/RpcSession.cpp:750-794 | No step is fatal: an ended session is found in the server table as itself, and a served connection is in its list. |
| RpcLifecycle.RunKeeps | libs/binder/RpcServer.cpp:372-432 | In every run sessions and table agree: a session is listed until its listener call was made. |
| RpcLifecycle.EndsOnce | libs/binder/RpcSession.cpp:759-766 | Once a connection is gone no new one is accepted for the rest of the run, and the listener is called at most once. |
| RpcLifecycle.AcceptedIff | libs/binder/RpcSession.cpp:750-776 | In every run a connection is accepted if and only if the session has fewer than its maximum and none has ever gone. |
| RpcLifecycle.NewSessionId | libs/binder/RpcServer.cpp:383-397 | An unused id is found within six tries exactly if one of the six drawn is unused. |
| RpcLifecycle.SessionObject.AssignIncoming | libs/binder/RpcSession.cpp:750-776 | A connection is accepted exactly below the limit and before any has gone. |
| RpcLifecycle.SessionObject.RemoveIncoming | libs/binder/RpcSession.cpp:778-794 | The connection is removed if present; the listener is due when the list became empty. |
| ServiceManager.SendKeeps | cmds/servicemanager/ServiceManager.cpp:669-691 | A notification that differs from the record passes both checks and is recorded. |
| ServiceManager.PassStaysCovered | cmds/servicemanager/ServiceManager.cpp:628-667 | After an interval pass nothing handed out is unannounced. |
| ServiceManager.UnregisterKeeps | cmds/servicemanager/ServiceManager.cpp:693-746 | Unregistering removes only a registration with nothing outstanding. |
| ServiceManager.RunKeeps | cmds/servicemanager/ServiceManager.cpp:244-278 | The invariant holds after every sequence of requests, passes and deaths. |
| ServiceManager.AnnouncedBeforeRemoval | cmds/servicemanager/ServiceManager.cpp:693-746 | Between handing a registration out and removing it there is a pass in which it was on record as having clients or was told so. |
| ServiceManager.KeptUntilPass | cmds/servicemanager/ServiceManager.cpp:266-275 | The law on calls: after a service was handed out, no request whatever takes that registration back before an interval pass has counted its references. |
| ServiceManager.WatchedUntilPass | cmds/servicemanager/ServiceManager.cpp:336-344 | The same for a service handed to its watchers when it was added. |
| ServiceManager.HandleIs | cmds/servicemanager/ServiceManager.cpp:628-667 | What counting does to the record: the guarantee is used up, and a pass records whether there is more than one reference. |
| ServiceManager.ListenersLeft | cmds/servicemanager/ServiceManager.cpp:500-541 | When a binder dies exactly its listeners go. |
| ServiceManager.ToldInTurns | cmds/servicemanager/ServiceManager.cpp:669-691 | What a registration is told strictly alternates, beginning with true, and neither check ever fails. |
| ServiceManagerObject.Object.TryGetService | cmds/servicemanager/ServiceManager.cpp:244-278 | Exactly when a binder is handed out, and then the guarantee is set and the handing out is on record; otherwise nothing changes. |
| ServiceManagerObject.Object.AddService | cmds/servicemanager/ServiceManager.cpp:295-347 | The exact condition of each answer; a new registration replaces the old, with the guarantee exactly if it has watchers. |
| ServiceManagerObject.Object.SendClientCallbackNotifications | cmds/servicemanager/ServiceManager.cpp:669-691 | Every listener is called once, in order, and the record changes; a name that is not registered is left alone. |
| ServiceManagerObject.Object.HandleServiceClientCallback | cmds/servicemanager/ServiceManager.cpp:628-667 | The result and every notification follow the specification. |
| ServiceManagerObject.Object.TryUnregisterService | cmds/servicemanager/ServiceManager.cpp:693-746 | The exact condition of each answer, with at most two references for success, and the removal or the guarantee it sets. |
| ServiceManagerObject.Object.BinderDied | cmds/servicemanager/ServiceManager.cpp:525-541 | Exactly the services and listeners of the dead binder go. |
| LazyRegistrar.Registrar.TryUnregisterLocked | libs/binder/LazyServiceRegistrar.cpp:188-202 | A name is marked registered exactly if the manager still has its binder for it, and not at all if the manager gave it up, wherever the loop stops. |
| LazyRegistrar.Registrar.ReRegisterLocked | libs/binder/LazyServiceRegistrar.cpp:204-218 | Every unregistered name is registered again with its own binder, or one could not be added, while others go on between the calls. |
| LazyRegistrar.Registrar.TryShutdownLocked | libs/binder/LazyServiceRegistrar.cpp:269-278 | All or nothing: exit with no name left, or every name mapped to its own binder and marked registered, whatever clients and the manager do before each call; and it does exit if the manager grants each name, counts at most two references and nobody asks for it. |
| LazyRegistrar.Registrar.MaybeTryShutdownLocked | libs/binder/LazyServiceRegistrar.cpp:220-241 | Nothing changes while the process is told to stay, a service has clients, or the callback for active services takes care of a change; that callback is told each change once. |
| LazyRegistrar.Registrar.OnClients | libs/binder/LazyServiceRegistrar.cpp:243-267 | A repeated report is fatal; the process exits only when no service has clients and neither the override nor the callback holds it back. |
| LazyRegistrar.ConnectedNone | libs/binder/LazyServiceRegistrar.cpp:252-260 | The cached count is zero exactly when no service has clients. |
| ScatterGather.TrimEnd | libs/binder/RpcTransportRaw.cpp:68-80 | Empty buffers at the end are dropped and nothing else. |
| ScatterGather.Advance | libs/binder/RpcTransportRaw.cpp:104-126 | A partial transfer takes exactly its bytes off the front; the fatal check is unreachable. |
| ScatterGather.Transfer | libs/binder/RpcTransportRaw.cpp:53-141 | What was moved followed by what is left is the original; how it ends and how much was moved follow from what the socket offered round by round; no empty request reaches the socket. |
| TextOutput.RenderPlain | libs/binder/BufferedTextOutput.cpp:170-188 | Without indent the rendering is the text, which is why lines may go around the buffer. |
| TextOutput.RenderLine | libs/binder/BufferedTextOutput.cpp:143-205 | A line is shown behind two spaces a level, at most 152, where it starts, and the empty lines behind it without. |
| TextOutput.RenderPart | libs/binder/BufferedTextOutput.cpp:143-205 | Text without a line break is shown behind the same spaces if it starts a line. |
| TextOutput.BufferedTextOutput.PrintLines | libs/binder/BufferedTextOutput.cpp:170-188 | The fast path writes whole lines and keeps the stream as rendered. |
| TextOutput.BufferedTextOutput.PrintGroup | libs/binder/BufferedTextOutput.cpp:192-205 | A group goes through the buffer and out when it ends a line outside bundles. |
| TextOutput.BufferedTextOutput.Print | libs/binder/BufferedTextOutput.cpp:143-209 | The stream grows by the rendering of the text; outside bundles nothing waits at the start of a line. |
| TextOutput.BufferedTextOutput.PopBundle | libs/binder/BufferedTextOutput.cpp:226-247 | The end of the last bundle writes complete lines and changes no text. |
| TextOutput.Replay | libs/binder/BufferedTextOutput.cpp:143-247 | For any sequence of operations, written and waiting text together are the expected text. |
| ProxyCount.IncrementIff | libs/binder/BpBinder.cpp:54-57 | One more proxy adds one to the count and leaves the flag, exactly below 2^31 - 1. |
| ProxyCount.CreateKeeps | libs/binder/BpBinder.cpp:117-156 | Creating a proxy keeps count, flag and callback history in step. |
| ProxyCount.DestroyKeeps | libs/binder/BpBinder.cpp:461-489 | So does destroying one. |
| ProxyCount.CountIsAlive | libs/binder/BpBinder.cpp:117-156 | In every state of every run the masked count is the number of live proxies of the uid; flag set means at least low, clear means at most high. |
| ProxyCount.CallbacksSpaced | libs/binder/BpBinder.cpp:126-145 | Between two limit callbacks for a uid the count grew by more than high, or the flag was cleared. |
| ProxyCount.CallsExactly | libs/binder/BpBinder.cpp:117-149 | In every run, creating a proxy calls back exactly if no callback stands and there are at least high proxies, or more than high beyond what the standing one reported. |
| ProxyCount.ClearsExactly | libs/binder/BpBinder.cpp:461-489 | Destroying one clears the flag exactly if a callback stands and at most low proxies are left. |
| ProxyCount.ProxyTracker.Created | libs/binder/BpBinder.cpp:117-156 | The packed maps after a creation, and whether the callback is called. |
| ProxyCount.ProxyTracker.Destroyed | libs/binder/BpBinder.cpp:461-489 | The packed maps after a destruction. |

## Left out

- Sockets, TLS, polling, ioctl, mmap, ashmem, SELinux, VINTF, properties, JNI and the NDK: foreign calls; where an
  operation depends on one, its answer is a parameter.
- The generated and hand-written interface classes: they would only add easy members.
- References and oneway calls are two models of the same nodes: the order of oneway calls is proved for a node that
  stays in both tables, and erasing a node with waiting calls is the fatal outcome of the object's methods.
- Sends that fail after a binder was counted are the step that destroys a parcel unsent; the undo that the source marks
  as still to do does not exist.
- The time between a proxy's last strong release and its DEC_STRONG is one step.
- Waiting and waking of threads, the number of waiting threads, and the shutdown of a server.
- Binders handed out by `registerForNotifications` for a service that is registered already, which sets no guarantee.
- The first registration of a service with the lazy registrar; the callback for active services is its answer, and
  does not itself unregister or register.
- The multithreaded buffer lookup and allocation failures of the text output; 32-bit overflow of the indent.
- Throttled creation of proxies, and changing the watermarks or switching counting off while proxies live.
- Heaps of zero units, in which every request of at least one unit is refused.
- What a failed bundle read leaves in the bundle, and the depth of the call stack for nested bundles.
- Parcels with a position beyond their data, with writes between reads of objects, or taken over from another owner.
- Page sizes are powers of two, so that the masks of the source are remainders; reference counts are unbounded numbers.
- Tables of objects that overlap, which only a parcel written out of order can have.
- RpcConnections.RunKeeps: a thread that adds a connection holds no guard and looks for none until it is done, as in
  all of its callers.
- BundleWriter.WriteToParcel: writes at the end of the parcel, as do the other writers.
- LazyRegistrar.Registrar.TryShutdownLocked: other processes look services up and passes run between its calls, but
  none of them adds a service under one of its names.
- RpcLifecycle.NewSessionId: the random source is the sequence of ids drawn; that reading it can fail is not modelled.
- ScatterGather.Transfer: the socket's answers are a finite list, and Running is the answer when it is used up.
