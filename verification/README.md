# Models and proofs for the state-keeping core

This project models the parts of the server whose correctness rests on more than one function at a time, and proves what
they are for. `dafny verify dfyconfig.toml` checks all of it.

## The epoll emulation (`ext/wepoll/wepoll.c`)

- `TreeShapes`, `TreeMemory`, `RedBlackTree`: the intrusive red-black tree with parent pointers. Shapes with a focus (a
  path and a subtree) carry the colour and order arguments; `TreeMemory` says when a memory of linked cells holds such a
  shape; the class `Tree` runs the pointer code on node objects and is proved against both.
- `Queues`: the circular doubly linked queue, node objects against a sequence.
- `PollGroups`: the allocator that shares poll groups of 32.
- `PollEvents`, `PortModel`, `PortInvariants`, `PortRuns`, `PortWaiting`, `PortReports`, `PortInterest`, `PortRequests`,
  `PortEffects`, `Port`: the port and its socket states. `PortModel` gives every operation under the port lock as a
  transition of one state; the kernel's answers, the allocator's answers and the completions are arbitrary inputs.
  Memory is explicit: `socks` holds exactly the allocated socket states, and `fault` becomes true when an assertion
  fails or an address that is not allocated is used. The class `Port` performs the same operations in place and is
  proved equal to the transitions; its `Valid()` is the invariant of the runs, which every operation keeps, and it adds
  the final deletion of the port. `PortInterest` is the view from outside: the list of sockets, events and data that the
  user has set up, and exactly what is reported from it; `PortRequests` ties it to what was asked for along a run, and
  `PortWaiting` says that whoever waits, waits for all of it. `PortEffects` states the operations on one socket field by
  field.
- `HandleProtocol`: the reference-counted lock and the thread-safe handle tree, as a state machine over any number of
  concurrent calls of `epoll_ctl`, `epoll_wait` and `epoll_close`, one step per lock operation, interlocked operation or
  rendezvous, with the 32-bit word written out.

## Encoders and their decoders

- `Bits`, `Zlib`: the table-driven bit compressor, its decompressor, and the jump table (`src/common/zlib.cpp`).
- `Arithmetic`, `BitFields`, `Names`, `Soultrapper`: bit fields in both numberings, and the 6-bit and 7-bit name codecs
  (`src/common/utils.cpp`).
- `Blowfish`: the Feistel cipher (`src/common/blowfish.cpp`).

## Stateful code against a simpler meaning

- `Rfc1321`, `Md5Context`: streaming MD5 (`src/common/md52.cpp`) against RFC 1321, sections 3.1 to 3.5; `Rfc1321Answer`
  carries out a known answer.
- `Scouter`: the status-sync module (`modules/sanctum/scouter_status_sync.cpp`) against itself without eviction.

## Results about the code

- Adding a socket to a port that another thread has closed in the meantime trips the assertion in `port_get_iocp_handle`
  when no poll group has room. `PortRuns.FaultExactly` says that this is the only way to make any assertion of the port
  fail, and `PortRuns.CloseThenAdd` reaches it.
- While a call waits, every registered socket is handed to the kernel at once (`PortWaiting.WaitsForAll`), except after
  a refusal: `port__update_events_if_polling` ignores that, so that a call can wait while a socket that was added
  successfully is not watched (`PortWaiting.LoopAwake`, `PortWaiting.RefusedWhileWaiting`).
- A packed linkshell name or signature is copied as a C string. Two neighbouring characters can pack into a zero byte,
  which cuts the name: "Spam" comes back as "S". `Names.ThereAndBack` and `Names.SignedAndRead` say exactly which names
  survive.
- A linkshell name of 20 characters without a bad pair fills the 20 bytes that it is decoded to, and no terminator
  follows (`Names.ThereAndBack` for every name, `Names.Unended`); the callers in `item_linkshell.cpp:75-78` and
  `lua_base_entity.cpp:20063-20066` read those bytes as a C string. The comment at the size (`utils.h:75`) speaks of 19
  characters and a terminator; the code packs 20 characters, and the model follows the code.
- The most-significant-first packing reverses 1, 2, 4 or 8 bytes into a copy and packs there with the other numbering.
  For spans of 17 to 24 and of 33 to 56 bits, and for no others, the word used there reaches up to three bytes behind
  the copy (`BitFields.MirrorReach`). What it finds there does not matter and is written back unchanged
  (`BitFields.PackMirrored`). `linkshell_list.cpp:95` packs such a field (`BitFields.ReachedBehind`).
- An input that does not fit is not always refused by `zlib_compress`: in a buffer no longer than the input and one byte
  it is replaced by a filler and the size of the input is returned, which looks like a success (`Zlib.Compress`,
  `Zlib.FillerReached`); in a buffer of one byte the filler would overrun it (`Zlib.OverrunReached`).
- In a soul plate name a character above 127 may change the character before it, or be read itself
  (`Soultrapper.HighCharacter`). `Soultrapper.SamePrefix` says exactly when it does neither.
- `zlib_decompress` reports a full buffer when the last byte fits exactly, so a buffer needs one byte to spare
  (`Zlib.RoundTrip`). With an empty buffer it reports a success and writes nothing.
- The comment in `sock__delete` says that `port_close()` takes care of waiting socket states; it is `port_delete()` that
  does. The model follows the code.

## Model

| member | source | states |
|---|---|---|
| TreeShapes.RecolouredGrows | ext/wepoll/wepoll.c:2019-2026 | Recolouring at a red uncle keeps a tree whose only defect is one red node below a red parent, two levels further up: order, black heights and all other colours stay right |
| TreeShapes.StraightGrows | ext/wepoll/wepoll.c:2028-2031 | A rotation at the parent brings an inner red child into line without moving the defect or changing any black height |
| TreeShapes.FinalGrows | ext/wepoll/wepoll.c:2032-2034 | In line, painting and one rotation at the grandparent leave a black parent in focus, so that the defect is gone |
| TreeShapes.StartGrowing | ext/wepoll/wepoll.c:2009-2015 | Hanging a red leaf into an empty place of a red-black tree makes exactly such a tree |
| TreeShapes.GrowingDone | ext/wepoll/wepoll.c:2066-2068 | Once the parent in focus is black, painting the root black gives a red-black tree |
| TreeShapes.BypassTaken | ext/wepoll/wepoll.c:2096-2120 | Taking out a node with at most one child leaves a tree that is short of one black node at most, just above that child |
| TreeShapes.SuccessorTaken | ext/wepoll/wepoll.c:2104-2145 | Putting the successor in the place of a node with two children, with its colour, leaves a tree that is short only where the successor was |
| TreeShapes.SuccessorEntries | ext/wepoll/wepoll.c:2104-2145 | That loses exactly the entry of the node taken out |
| TreeShapes.SiblingExists | ext/wepoll/wepoll.c:2071-2095 | Where a black node is missing, the sibling is not missing: the rebalancing code never follows a null sibling |
| TreeShapes.SunkShort | ext/wepoll/wepoll.c:2073-2078 | Rotating a red sibling away keeps the shortage where it is and gives it a black sibling |
| TreeShapes.TurnedShort | ext/wepoll/wepoll.c:2080-2085 | Turning the sibling so that its red child is on the outside keeps the shortage and all black heights |
| TreeShapes.FilledMended | ext/wepoll/wepoll.c:2086-2091 | With a red outer child of the sibling, one rotation at the parent makes up for the missing black node, whatever colour the parent has |
| TreeShapes.FadedShort | ext/wepoll/wepoll.c:2093-2095 | A sibling with black children turns red, and the shortage moves one level up or ends at a red parent |
| TreeShapes.MendedDone | ext/wepoll/wepoll.c:2160-2167 | When the loop ends, painting the node in focus black completes a red-black tree |
| TreeShapes.KeysDistinct | ext/wepoll/wepoll.c:2036-2069 | No key occurs twice in an ordered tree |
| TreeShapes.AbsentKey | ext/wepoll/wepoll.c:2036-2054 | An empty place whose range contains the key proves that the key is nowhere in the tree |
| TreeShapes.HeightBound | ext/wepoll/wepoll.c:2169-2180 | In every red-black tree the number of nodes on a way down is at most 2 * log2(n + 1) for n keys |
| TreeMemory.TurnLinked | ext/wepoll/wepoll.c:1980-2007 | The six pointer updates of a rotation turn the linked form of one shape into the linked form of the rotated shape, for either side |
| TreeMemory.Painted | ext/wepoll/wepoll.c:2017-2035 | Writing one colour bit in memory paints exactly that node of the shape |
| TreeMemory.NearSuccessor | ext/wepoll/wepoll.c:2104-2145 | The pointer updates for a successor that is the right child give the linked form of the tree without the node |
| TreeMemory.FarSuccessor | ext/wepoll/wepoll.c:2104-2145 | The pointer updates for a successor further down give the linked form of the tree without the node |
| TreeMemory.Bypassed | ext/wepoll/wepoll.c:2096-2145 | Redirecting the parent's pointer past a node with at most one child gives the linked form of the tree without it |
| TreeMemory.Locate | ext/wepoll/wepoll.c:2096-2100 | Every member node sits somewhere in the shape, under the key it holds, so deletion can start from the node alone |
| RedBlackTree.Tree.Rotate | ext/wepoll/wepoll.c:1980-2007 | Rotates in place, for either side: afterwards the memory holds exactly the rotated shape, all other nodes as they were |
| RedBlackTree.Tree.RebalanceAfterInsert | ext/wepoll/wepoll.c:2017-2035 | One round of the insertion loop, ending with a black parent in focus or two levels further up |
| RedBlackTree.Tree.RepairAfterInsert | ext/wepoll/wepoll.c:2056-2068 | The insertion loop ends, and the parent in focus is black |
| RedBlackTree.Tree.Add | ext/wepoll/wepoll.c:2036-2069 | Returns -1 and changes nothing if the key is taken; otherwise the tree is a valid red-black tree with consistent parent links and exactly the old entries plus the new one |
| RedBlackTree.Tree.RebalanceAfterRemove | ext/wepoll/wepoll.c:2071-2095 | One round of the removal loop: mended, or short one level further up |
| RedBlackTree.Tree.RepairAfterRemove | ext/wepoll/wepoll.c:2147-2163 | The removal loop ends, and the node in focus can be painted black |
| RedBlackTree.Tree.Delete | ext/wepoll/wepoll.c:2096-2167 | For every member of every valid tree, the result is a valid red-black tree with consistent links and exactly the old entries less that one |
| RedBlackTree.Tree.Find | ext/wepoll/wepoll.c:2169-2180 | Finds the node with the key if and only if there is one, visiting at most 2 * log2(n + 1) nodes |
| Queues.Bypass | ext/wepoll/wepoll.c:1470-1473 | Linking the neighbours of a node to each other leaves the ring of the others, in order |
| Queues.Queue.Prepend | ext/wepoll/wepoll.c:1483-1488 | The node comes first; the other nodes keep their order; the ring stays closed in both directions |
| Queues.Queue.Append | ext/wepoll/wepoll.c:1490-1495 | The node comes last |
| Queues.Queue.MoveToStart | ext/wepoll/wepoll.c:1497-1500 | The node comes first and occurs once |
| Queues.Queue.MoveToEnd | ext/wepoll/wepoll.c:1502-1505 | The node comes last and occurs once |
| Queues.Queue.Remove | ext/wepoll/wepoll.c:1507-1510 | The node is gone from the queue and linked to itself |
| Queues.Queue.First | ext/wepoll/wepoll.c:1475-1477 | The first node, or null exactly for the empty queue |
| Queues.Queue.Last | ext/wepoll/wepoll.c:1479-1481 | The last node, or null exactly for the empty queue |
| Queues.Queue.IsEmpty | ext/wepoll/wepoll.c:1512-1514 | The head is linked to itself exactly when the queue is empty |
| Queues.Queue.IsEnqueued | ext/wepoll/wepoll.c:1516-1518 | A node's link tells whether it is in the queue |
| Queues.NeverInTwo | ext/wepoll/wepoll.c:1412-1442 | With one pair of links, a node is never in two queues at once |
| PollGroups.NewOnlyWhenFull | ext/wepoll/wepoll.c:1002-1005 | A group is created only when every group that exists is full |
| PollGroups.AcquireOk | ext/wepoll/wepoll.c:994-1012 | Taking a slot keeps the full groups in front, no group above 32, and counts the slot in the group that was returned |
| PollGroups.ReleaseOk | ext/wepoll/wepoll.c:1014-1024 | Giving a slot back keeps the same, wherever the group was in the queue |
| PollGroups.GroupsBound | ext/wepoll/wepoll.c:994-1024 | Over any run of takes and returns, the number of groups never exceeds the largest number of slots in use at one time divided by 32, rounded up |
| PollEvents.RequestSees | ext/wepoll/wepoll.c:1730-1770 | What is handed to the kernel can report back every known event that was asked for, except EPOLLMSG, and always asks for closed sockets |
| PollEvents.AskedExactly | ext/wepoll/wepoll.c:1730-1749 | The kernel is asked for an event if and only if its report holds something that is wanted; for a failed connection if and only if errors are wanted; always for closed sockets, and for nothing else |
| PollEvents.ReportedExactly | ext/wepoll/wepoll.c:1751-1770 | Each of the eleven known events is reported if and only if one of its causes among the kernel events happened, and nothing else is reported |
| PollEvents.ReportTable | ext/wepoll/wepoll.c:1751-1770 | The report of each single kernel event, as a number |
| PollEvents.NoMessages | ext/wepoll/wepoll.c:1751-1770 | The kernel's answers never report EPOLLMSG, and EPOLLMSG is the only known event that none of them reports |
| PollEvents.CoveredIsSeen | ext/wepoll/wepoll.c:1781-1815 | Whatever is wanted and covered by the recorded mask, the request handed to the kernel can report |
| PollEvents.CoveredExactly | ext/wepoll/wepoll.c:1772-1780 | What is wanted is covered if and only if every known event of it is watched |
| PollEvents.CoveredSees | ext/wepoll/wepoll.c:1781-1815 | A request for what is watched asks for every kernel event whose report holds something that is wanted and covered |
| PollEvents.Wanted | ext/wepoll/wepoll.c:1713-1728 | A registration always wants errors and hang-ups, so a request that watches nothing never covers it |
| PollEvents.Flags | ext/wepoll/wepoll.c:40-62 | The flag for a single report is the highest bit |
| PortModel.RetireSteps | ext/wepoll/wepoll.c:1679-1687 | Retiring a registered socket is: cancel, leave the update queue, leave the tree, mark, in this order |
| PortModel.UpdateDequeues | ext/wepoll/wepoll.c:1772-1832 | Every successful update takes its socket off the update queue, also where it deletes it |
| PortInvariants.DeleteCore | ext/wepoll/wepoll.c:1676-1711 | Deleting frees exactly when forced or idle; otherwise the socket state waits on the deleted queue with its request cancelled if the kernel agreed; every other socket state, queue position and group count is kept |
| PortInvariants.FreeCore | ext/wepoll/wepoll.c:1694-1698 | Freeing a waiting socket state gives back its slot: each group still counts exactly the allocated socket states that use it |
| PortInvariants.SetEventInv | ext/wepoll/wepoll.c:1713-1728 | Changing the mask never leaves a wanted event unwatched and unqueued |
| PortInvariants.UpdateSockInv | ext/wepoll/wepoll.c:1772-1832 | Every branch of the update, with every answer of the kernel, keeps the whole invariant |
| PortInvariants.FeedEventInv | ext/wepoll/wepoll.c:1834-1887 | Feeding a completion keeps the whole invariant and hands the status block back exactly once |
| PortInvariants.UpdateAllInv | ext/wepoll/wepoll.c:1168-1184 | The update loop ends, keeps the invariant, and on success leaves the queue empty |
| PortInvariants.NewSockInv | ext/wepoll/wepoll.c:1635-1674 | Every way in which creating a socket state can fail gives everything back; on success only it is not looked after yet |
| PortRuns.PerformInv | ext/wepoll/wepoll.c:1137-1446 | Every operation under the port lock keeps the invariant |
| PortRuns.FaultExactly | ext/wepoll/wepoll.c:1444-1447 | An assertion fails or freed memory is touched if and only if a socket is added to a closed port while no group has room |
| PortRuns.CloseThenAdd | ext/wepoll/wepoll.c:1127-1135 | That can happen: close the port, then add a first socket |
| PortRuns.EveryRun | ext/wepoll/wepoll.c:1168-1446 | In every reachable state no assertion has failed, the kernel only holds allocated memory, each socket state is in the tree or on the deleted queue and never on two queues, and every registered socket is queued for an update, or its cancelled request is still to end, or the kernel is asked for everything whose report holds something that is wanted |
| PortRuns.AllWatched | ext/wepoll/wepoll.c:1168-1184 | After a successful pass over the update queue the queue is empty and the kernel has a request for every registered socket, that asks for everything whose report holds something that is wanted, unless it was cancelled |
| PortRuns.FlightKept | ext/wepoll/wepoll.c:1676-1703 | Whatever operation runs, a socket state whose request has not completed stays allocated |
| PortWaiting.EmptiedExactly | ext/wepoll/wepoll.c:1168-1184 | Working off the update queue leaves it empty if and only if the kernel refused nothing on the way |
| PortWaiting.GrantedNotRefused | ext/wepoll/wepoll.c:1168-1184 | A kernel that lets go of cancelled requests and takes new ones, or finds their handle invalid, refuses nothing |
| PortWaiting.LoopAwake | ext/wepoll/wepoll.c:1186-1189 | An operation that works off the queue because a call waits leaves it empty, if and only if the kernel refused nothing |
| PortWaiting.OthersAwake | ext/wepoll/wepoll.c:1319-1359 | The other operations put nothing on the queue while a call waits, except for the end of a poll, which does not give up the lock |
| PortWaiting.WaitsForAll | ext/wepoll/wepoll.c:1186-1331 | In every run, whenever the lock is free and a call waits: unless the kernel refused a request when the queue was last worked off, the queue is empty and the kernel has a request for every registered socket, which asks for everything whose report holds something that the user wants, unless it was cancelled |
| PortWaiting.RefusedWhileWaiting | ext/wepoll/wepoll.c:1186-1189 | A refusal that is ignored: a call waits, and a socket that was added successfully is on the queue and not watched |
| PortInterest.SetEventInterest | ext/wepoll/wepoll.c:1713-1728 | Setting a mask puts exactly the events asked for, errors and hang-ups, and the user's data on the list that the user sees |
| PortInterest.AddedExactly | ext/wepoll/wepoll.c:1635-1674 | Adding succeeds if and only if the socket is valid and not on the list yet, the allocations are granted, and some group has room or a new one can be had while the port is open |
| PortInterest.UpdateSockInterest | ext/wepoll/wepoll.c:1772-1832 | An update takes its socket off that list if and only if the socket was idle and the kernel found the handle invalid; no other entry changes |
| PortInterest.FeedEventInterest | ext/wepoll/wepoll.c:1834-1887 | One completion reports exactly the reported events among those on the list, if there are any, with the data on the list; then a closed socket is off the list and a one-shot entry asks for nothing |
| PortInterest.ReportsExactly | ext/wepoll/wepoll.c:1834-1887 | A completion is reported for an event if and only if its socket is neither deleted nor closed, the user asked for the event, and the completion stands for it: a kernel event that causes it, or an error for a failed request |
| PortInterest.FeedAllInterest | ext/wepoll/wepoll.c:1191-1207 | A batch reports exactly that for each of its completions, judged by the list before the batch: the order of feeding does not matter and no report is lost |
| PortInterest.ToldFromList | ext/wepoll/wepoll.c:1868-1886 | The events and the data of a report are those of the list |
| PortInterest.PerformInterest | ext/wepoll/wepoll.c:1319-1388 | What every operation reports and does to the list: add and modify set one entry, remove takes one off, polls report and spend one-shot entries, nothing else changes except sockets found closed |
| PortEffects.SetEventExactly | ext/wepoll/wepoll.c:1713-1728 | A new mask with errors and hang-ups and the new data are kept, and the socket goes to the end of the queue if and only if some event of the mask is not watched yet; nothing else changes |
| PortEffects.UpdateExactly | ext/wepoll/wepoll.c:1772-1832 | Field by field, what an update does in each state of the request and for each answer of the kernel; a new request asks for exactly the events whose report holds something that is wanted |
| PortEffects.CountsWaiting | ext/wepoll/wepoll.c:1209-1239 | In every run the counter is the number of calls that began to wait less those that stopped |
| PortReports.PerformReports | ext/wepoll/wepoll.c:1834-1887 | Every operation reports at most one event set per completion; each is not empty and within the mask that is kept for its socket, with the data that is kept |
| PortReports.OneShot | ext/wepoll/wepoll.c:1876-1883 | After a report for a one-shot registration nothing more is reported for that socket in any run until its mask is set again |
| PortRequests.StepHonoured | ext/wepoll/wepoll.c:1319-1388 | Every operation keeps the list within the last accepted requests: an entry has the data of the last add or modify that was accepted for its socket, and its events or, after a one-shot report, none |
| PortRequests.ReportsWhatWasAsked | ext/wepoll/wepoll.c:1319-1388 | In every run, every report carries the data of the last accepted add or modify of its socket and at least one event, all of them among those that were asked for there |
| Port.Port.RequestSocketUpdate | ext/wepoll/wepoll.c:1412-1418 | Appends to the update queue unless the socket is on a queue |
| Port.Port.CancelSocketUpdate | ext/wepoll/wepoll.c:1420-1426 | Takes the socket off whichever queue it is on |
| Port.Port.AcquireSlot | ext/wepoll/wepoll.c:994-1012 | The slot allocator on the port's fields; fails its assertion where a new group is needed after the close |
| Port.Port.ReleaseSlot | ext/wepoll/wepoll.c:1014-1024 | Gives the slot back and moves the group to the end |
| Port.Port.CancelSockPoll | ext/wepoll/wepoll.c:1623-1633 | A cancelled request watches nothing; a refused cancellation changes nothing |
| Port.Port.RetireSocket | ext/wepoll/wepoll.c:1679-1687 | In place, the transition that PortInvariants is about |
| Port.Port.DeleteSocket | ext/wepoll/wepoll.c:1676-1703 | In place, and the address is given back exactly when the socket state disappears |
| Port.Port.SetSocketEvent | ext/wepoll/wepoll.c:1713-1728 | In place, the transition that PortInvariants is about |
| Port.Port.UpdateSocket | ext/wepoll/wepoll.c:1772-1832 | In place, for every answer of the kernel |
| Port.Port.FeedSocketEvent | ext/wepoll/wepoll.c:1834-1887 | In place, for every outcome of the request |
| Port.Port.UpdateEvents | ext/wepoll/wepoll.c:1168-1184 | The loop does what the recursive transition says, ends for every queue, and leaves it empty when it succeeds |
| Port.Port.FeedEvents | ext/wepoll/wepoll.c:1191-1207 | The reports are in the first n entries of the buffer, n is at most the number of completions, and no entry behind them is written |
| Port.Port.NewSocket | ext/wepoll/wepoll.c:1635-1674 | In place, with every failure path; it succeeds if and only if AddedExactly's condition holds |
| Port.Port.AddSocket | ext/wepoll/wepoll.c:1319-1334 | In place, the operation that the run lemmas are about; it succeeds if and only if the socket can be added |
| Port.Port.ModifySocket | ext/wepoll/wepoll.c:1336-1349 | In place, the operation that the run lemmas are about; it succeeds if and only if the socket is on the list |
| Port.Port.RemoveSocket | ext/wepoll/wepoll.c:1351-1359 | In place, the operation that the run lemmas are about; it succeeds if and only if the socket is on the list |
| Port.Port.BeginPoll | ext/wepoll/wepoll.c:1209-1218 | In place; the poll counts as active only when the update succeeded |
| Port.Port.EndPoll | ext/wepoll/wepoll.c:1227-1239 | In place; reports go to the front of the user's buffer |
| Port.Kept | ext/wepoll/wepoll.c:1127-1359 | Every operation under the lock keeps the invariant, whatever the kernel and the allocators answer, unless a socket is added after the close with no room in the groups |
| Port.Drained | ext/wepoll/wepoll.c:1137-1166 | When nothing is registered or waiting any more, no socket state is left, the update queue is empty, and no group is used |
| Port.Port.Delete | ext/wepoll/wepoll.c:1137-1166 | From every state that satisfies the invariant of a closed port: the three loops end, every allocated socket state is freed exactly once, every group has size 0 when it is deleted, and the update queue is empty |
| Port.Port.CloseAndDelete | ext/wepoll/wepoll.c:605-609 | From every state that satisfies the invariant, which a new port does and every operation under the lock keeps: after closing and deleting, nothing is left, every allocated socket state was freed exactly once, and no assertion failed |
| HandleProtocol.StepInv | ext/wepoll/wepoll.c:1554-1585 | Every interlocked, lock or rendezvous step of any number of calls keeps the invariant that ties the 32-bit word to the number of references and to how far the closing has got |
| HandleProtocol.FaultExactly | ext/wepoll/wepoll.c:1554-1585 | None of the assertions fails and the deleted port is never touched, if and only if the step does not take reference number 2^28 |
| HandleProtocol.PoisonCaught | ext/wepoll/wepoll.c:1520-1585 | Whoever comes upon the word of a destroyed lock trips an assertion |
| HandleProtocol.MisuseCaught | ext/wepoll/wepoll.c:1137-1142 | Deleting a port that is not closed and destroying a lock that is still referenced trip an assertion |
| HandleProtocol.NoOverflow | ext/wepoll/wepoll.c:1554-1560 | With fewer than 2^28 calls under way that never happens |
| HandleProtocol.AloneAtDelete | ext/wepoll/wepoll.c:591-614 | When the port is about to be deleted, it is closed and out of the handle tree, and every other call has returned, has not looked it up yet, or will not find it |
| HandleProtocol.Progress | ext/wepoll/wepoll.c:616-681 | In every reachable state, a call that is not at rest means that some step is possible: no schedule gets stuck in the locks or at the event |
| HandleProtocol.WaitsWhileOpen | ext/wepoll/wepoll.c:1241-1331 | A call without a timeout goes on waiting while the port is open, and no other does |
| HandleProtocol.StepShrinks | ext/wepoll/wepoll.c:1915-1970 | Every step brings some call nearer to its return |
| HandleProtocol.EverySchedule | ext/wepoll/wepoll.c:1520-1585 | Every schedule of any calls ends; on the way nothing fails, the port is deleted at most once, and the event is signalled at most once and only for a closing call that waits |
| HandleProtocol.WhereItEnds | ext/wepoll/wepoll.c:591-681 | If anyone closed the handle, all calls return and the port is deleted exactly once, even with calls that wait without a timeout; otherwise only such calls are left |
| Bits.SetThenGet | src/common/zlib.cpp:173-179 | Setting a bit is seen at its own place and nowhere else |
| Bits.BitByShift | src/common/zlib.cpp:156-182 | Bit s of a byte is the lowest one after a shift by s |
| Bits.ByteValue | src/common/zlib.cpp:156-182 | A byte is the sum of the powers of two of its bits |
| Zlib.CompressSub | src/common/zlib.cpp:156-182 | Succeeds exactly when the code has at most 32 bits and fits; then writes exactly its bits and keeps every bit outside its range |
| Zlib.CodeEntry | src/common/zlib.cpp:188-201 | In unsigned terms both halves of the table start with the bytes from 0x80 on; the bytes of a code are those of its word, least significant first |
| Zlib.Compress | src/common/zlib.cpp:184-223 | Succeeds exactly when the code of the whole input is shorter than the buffer allows; then the first byte is 1, the payload is the concatenation of the codes, and the rest of the buffer is kept. Otherwise the codes that fitted have been written and nothing else, or, in a buffer no longer than the input and one byte, the three runs of the filler over them, with the size of the input as the result |
| Zlib.FillerReached | src/common/zlib.cpp:205-213 | Four equal bytes whose code has at least eight bits are replaced by the filler in a buffer of five bytes |
| Zlib.OverrunReached | src/common/zlib.cpp:205-213 | For any input that is not empty, the filler would overrun a buffer of one byte |
| Zlib.PopulateJumpTable | src/common/zlib.cpp:115-142 | Every entry is the pointer or byte that the table of addresses means, and the assertion about data entries passes exactly when each non-zero byte has null pointers two and three before it |
| Zlib.SmallTable | src/common/zlib.cpp:115-265 | A table of thirteen addresses with two codes: which codes it decodes, to which bytes, and which one is broken, whatever follows |
| Zlib.Decompress | src/common/zlib.cpp:225-265 | Writes exactly the bytes that walking the table yields, reports a full buffer, a wrong first byte, or a broken table, and writes nothing behind them |
| Zlib.DecodedWalk | src/common/zlib.cpp:239-256 | A code that walks to the leaf of its byte, and to no leaf before, is decoded to that byte whatever bits follow |
| Zlib.DecodedEncoded | src/common/zlib.cpp:184-265 | For all tables that agree, decoding the code of an input gives back the input as far as there is room, and reports a full buffer exactly when there is room for some byte and the input has no fewer bytes than that; without any room it ends as a success |
| Zlib.Injective | src/common/zlib.cpp:184-223 | For such tables no two inputs have the same code |
| Zlib.RoundTrip | src/common/zlib.cpp:184-265 | Decompressing the payload bits of a compression that fitted succeeds with exactly the input when the buffer is larger than the input; a smaller one that is not empty gets the bytes that fit and is reported to be full; an empty one yields a success with no bytes, so success means the whole input exactly if the buffer is larger or both are empty |
| Md5Context.FastFIsF | src/common/md52.cpp:90-90 | The rewritten F is the F of RFC 1321 |
| Md5Context.FastMix | src/common/md52.cpp:111-111 | With the rewritten F and G, each round mixes as section 3.4 says |
| Md5Context.SameOperation | src/common/md52.cpp:78-83 | One unrolled operation is [abcd k s i] of section 3.4, for all registers |
| Md5Context.Round1 | src/common/md52.cpp:92-107 | 16 unrolled operations are lines 1 to 4 of section 3.4 |
| Md5Context.Round2 | src/common/md52.cpp:113-128 | 16 unrolled operations are lines 5 to 8 of section 3.4 |
| Md5Context.Round3 | src/common/md52.cpp:134-149 | 16 unrolled operations are lines 9 to 12 of section 3.4 |
| Md5Context.Round4 | src/common/md52.cpp:155-170 | 16 unrolled operations are lines 13 to 16 of section 3.4 |
| Md5Context.Process | src/common/md52.cpp:53-178 | Takes one block into the registers as section 3.4 does |
| Md5Context.Context.Count | src/common/md52.cpp:191-202 | The two words count bytes modulo 2^64, with the carry taken from the comparison with the length |
| Md5Context.Context.Update | src/common/md52.cpp:181-224 | Whatever was buffered and however long the piece is, the registers have taken in exactly the whole blocks of the message so far and the buffer holds the rest |
| Md5Context.TwoWords | src/common/md52.cpp:240-244 | The eight length bytes are those of one 64-bit number, least significant first |
| Md5Context.Context.MessageLength | src/common/md52.cpp:240-244 | Shifting the counter gives the number of bits modulo 2^64, as section 3.2 wants it |
| Md5Context.Context.Finish | src/common/md52.cpp:230-254 | Padding and length are those of sections 3.1 and 3.2, and the digest is that of RFC 1321 for the whole message |
| Md5Context.Digest | src/common/md52.cpp:260-266 | For every message and every split of it into pieces, empty ones included, the digest is that of RFC 1321 |
| Rfc1321Answer.KnownAnswer | src/common/md52.cpp:230-266 | The digest of "abc" is the one of appendix A.5 of RFC 1321 |
| Scouter.BroadcastCoupled | modules/sanctum/scouter_status_sync.cpp:325-348 | A group whose state was evicted is broadcast exactly like one whose state was kept, because the kept one is past its heartbeat |
| Scouter.BatchesSame | modules/sanctum/scouter_status_sync.cpp:309-323 | An evicted subscription was expired, so the same viewers are collected |
| Scouter.StepCoupled | modules/sanctum/scouter_status_sync.cpp:265-350 | Every event sends the same with and without eviction and keeps the two states coupled |
| Scouter.EvictionUnobservable | modules/sanctum/scouter_status_sync.cpp:365-385 | On every run with a steady clock, the module with cleanup and the module without it send the same snapshots with the same sequence numbers to the same viewers in the same order |
| Scouter.TickTells | modules/sanctum/scouter_status_sync.cpp:325-348 | Whatever the order of the hash table, after a tick the group of every subscribed character in the zone has been told its present snapshot within the last 15 seconds |
| Scouter.BatchesPartition | modules/sanctum/scouter_status_sync.cpp:308-323 | Every subscribed character of the zone is in the batch of its own group, and nobody else is in it |
| Scouter.AnyOrder | modules/sanctum/scouter_status_sync.cpp:325-325 | Walking the batches in any order visits each of them once, with no group twice |
| Scouter.TickServes | modules/sanctum/scouter_status_sync.cpp:325-348 | Whatever the order of the hash table, on a tick every subscribed character in the zone gets the snapshot of its group if that changed or was not told for 15 seconds, and nothing is sent but snapshots of such groups to subscribed characters |
| Scouter.NumbersCount | modules/sanctum/scouter_status_sync.cpp:325-363 | A tick uses one number, counted modulo 2^16, for each group that was not told its present snapshot in the last 15 seconds |
| Scouter.HandshakeAnswered | modules/sanctum/scouter_status_sync.cpp:277-283 | A handshake is answered to its sender under the next number |
| Scouter.StaysSubscribed | modules/sanctum/scouter_status_sync.cpp:310-317 | Without a zone-out a subscription lasts for 120 seconds after the handshake, whatever else happens, with or without eviction |
| Scouter.SubscribedExactly | modules/sanctum/scouter_status_sync.cpp:265-317 | On every run, with or without eviction, a character is subscribed if and only if its last handshake since it last left a zone is at most 120 seconds old |
| Scouter.PolledExactly | modules/sanctum/scouter_status_sync.cpp:301-307 | A zone is polled at every tick that is at least a second after it was polled before, and at no other |
| Scouter.CleanedExactly | modules/sanctum/scouter_status_sync.cpp:365-385 | A cleanup keeps exactly the subscriptions of the last two minutes and the groups seen in the last five, and the next one is a minute later |
| Scouter.NothingStale | modules/sanctum/scouter_status_sync.cpp:365-385 | On every steady run, when a zone has been polled, no subscription older than three minutes and no group unseen for six is remembered |
| Scouter.Chunk | modules/sanctum/scouter_status_sync.cpp:387-423 | Packets of at most 24 records, at least one of them, all but the last full and none empty unless it is alone, that together hold every record once and in order |
| Scouter.StatusSync.OnIncomingPacket | modules/sanctum/scouter_status_sync.cpp:265-284 | Takes exactly the handshakes, and answers those of the known version |
| Scouter.StatusSync.OnCharZoneOut | modules/sanctum/scouter_status_sync.cpp:286-292 | Forgets the subscription |
| Scouter.StatusSync.OnZoneTick | modules/sanctum/scouter_status_sync.cpp:294-350 | In place, with its loops over characters and batches, the step that the run lemmas are about |
| Scouter.StatusSync.EvictStale | modules/sanctum/scouter_status_sync.cpp:365-385 | Keeps exactly the live subscriptions and the groups seen in the last five minutes |
| BitFields.NumberLow | src/common/utils.cpp:300-306 | Reading the low bits of a number gives its remainder |
| BitFields.ValueNumber | src/common/utils.cpp:277-334 | The bits of a buffer are the bits of the number that its bytes represent, least significant byte first |
| BitFields.PackBitsBE | src/common/utils.cpp:277-334 | Writes exactly the bits of the field, least significant first, keeps all others, refuses fields wider than 64 bits, and returns the end of the field; the number that the bytes represent has value mod 2^length in the field and is else the same |
| BitFields.UnpackBitsBE | src/common/utils.cpp:341-383 | Reads the field of the number that the bytes represent, or 0 for fields wider than 64 bits |
| BitFields.RoundTripBE | src/common/utils.cpp:277-383 | Unpacking what was packed gives the value modulo 2^length |
| BitFields.MirroredBit | src/common/utils.cpp:428-431 | Bit k of the reversed bytes is the bit k from the end, counted most significant first |
| BitFields.BigNumber | src/common/utils.cpp:390-439 | In the other numbering they are the bits of the number that the bytes represent, most significant byte first |
| BitFields.MirrorReach | src/common/utils.cpp:421-435 | The word that is used inside the reversed bytes ends within them if and only if the field, from the start of its first byte, spans at most 16, 25 to 32 or 57 to 64 bits; otherwise it reaches at most three bytes behind them |
| BitFields.ReachedBehind | src/common/utils.cpp:421-435 | A field of 20 bits at the start of a byte reaches one byte behind the reversed bytes, one of 33 bits reaches three |
| BitFields.PackMirrored | src/common/utils.cpp:428-435 | The field is written into the reversed bytes, and whatever bytes lie behind them are written back as they were |
| BitFields.PackBitsLE | src/common/utils.cpp:390-439 | For every offset and every length from 1 to 64, and whatever lies behind the reversed bytes: writes exactly the bits of the field, most significant first, keeps all others, and returns the end of the field; the number that the bytes represent, most significant first, has value mod 2^length in the field and is else the same; a field that spans more than 64 bits is refused with 0 |
| BitFields.UnpackBitsLE | src/common/utils.cpp:446-497 | Reads the field of the number that the bytes represent, most significant first, whatever lies behind the reversed bytes, or 0 if it spans more than 64 bits |
| BitFields.RoundTripLE | src/common/utils.cpp:390-497 | Unpacking what was packed gives the value modulo 2^length in this numbering too, even if what lies behind the reversed bytes has changed in between |
| Names.CutAt | src/common/utils.cpp:499-530 | Where the packed bytes of a name are cut by strncpy: at the zero byte of the first bad pair of characters, or where the ones at the end end |
| Names.LinkshellAlphabet | src/common/utils.cpp:508-522 | The codes count the lower-case letters, the upper-case letters and the digits from 1 on |
| Names.EncodeStringLinkshell | src/common/utils.cpp:499-530 | The buffer holds the codes of at most 20 characters and 4 or 6 ones, and the target gets what comes before the first zero byte |
| Names.DecodeStringLinkshell | src/common/utils.cpp:532-571 | The 20 bytes of the target hold the text up to a field of 63, or up to the character before a field of 0, and null characters behind it as far as there is room |
| Names.TextBack | src/common/utils.cpp:499-571 | Decoding the cut bytes of an alphanumeric name of up to 20 characters gives the name up to its first bad pair |
| Names.TextFills | src/common/utils.cpp:499-571 | For every name, 20 characters are read from the packed bytes exactly when its first 20 characters are alphanumeric and have no bad pair |
| Names.ThereAndBack | src/common/utils.cpp:499-571 | For every name: the target holds it as a string if and only if it is alphanumeric, has at most 19 characters and no bad pair (second and third character of a group of four, with a code divisible by 16 and a code below 4); an alphanumeric name comes back up to its first bad pair; and the target has a terminator unless the name has 20 characters or more of which the first 20 are alphanumeric and have no bad pair |
| Names.PaddedTextBack | src/common/utils.cpp:499-571 | Decoding a 15-byte field filled with zeros gives the same text; names that end in four ones need the rule about a field of 0 |
| Names.StoredAndRead | src/map/items/item_linkshell.cpp:72-87 | When the packed bytes are kept in the 15-byte field of an item, the same names survive and the same names leave no terminator |
| Names.CutShort | src/common/utils.cpp:499-530 | "Spam" is a name with a bad pair: only its first character comes back |
| Names.SignatureAlphabet | src/common/utils.cpp:578-592 | The codes count the digits, the upper-case letters and the lower-case letters from 1 on |
| Names.Unended | src/common/utils.cpp:570-570 | Twenty times the letter a, alone or followed by an underscore, is a name that leaves no terminator |
| Names.EncodeStringSignature | src/common/utils.cpp:573-597 | The same packing with another alphabet, at most 15 characters and no end mark |
| Names.DecodeStringSignature | src/common/utils.cpp:599-621 | The 16 bytes of the target hold the characters of the 16 fields up to the first field of 0, and null characters behind them as far as there is room |
| Names.SignedAndRead | src/common/utils.cpp:573-621 | For every signature: it comes back if and only if it is alphanumeric, has at most 15 characters and no bad pair; an alphanumeric one comes back up to and including the first character of its first bad pair, and the target always has a terminator |
| Names.SignatureCutShort | src/common/utils.cpp:573-621 | "AF0" is a signature with a bad pair: it comes back as "AF" |
| Soultrapper.ShiftStepwise | src/common/utils.cpp:650-658 | The bitwise loop, which clears the highest bit between two steps, is one shift of the whole byte |
| Soultrapper.PackName | src/common/utils.cpp:625-672 | The 14 bytes are the low seven bits of the characters one after the other, with zeros behind; the highest bit of a character is added to the lowest one of the character before it, except across a group of eight |
| Soultrapper.UnpackName | src/common/utils.cpp:676-718 | Reads 7 bits at a time up to the first character outside '0'..'z' or the end of the bytes |
| Soultrapper.SamePrefix | src/common/utils.cpp:625-718 | The shown prefix of what was packed is that of the name itself if and only if the name is all shown, or the next character is below 128, or it is hidden without its highest bit too and that bit lands across a group of eight or on a bit that is set |
| Soultrapper.ThereAndBack | src/common/utils.cpp:625-718 | For every name of 8-bit characters, what comes back is the longest prefix in '0'..'z' of what was packed; it is that of the name cut to 15 characters and stripped of underscores if and only if that is undisturbed as SamePrefix says, and always without characters above 127; it is the whole name if and only if that has at most 15 characters, no underscore and only characters in '0'..'z' |
| Soultrapper.HighCharacter | src/common/utils.cpp:640-660 | A name with a character above 127 whose other character is changed, and that is read further than its shown prefix |
| Blowfish.TTBytes | src/common/blowfish.cpp:292-295 | The lowest byte and the second highest of the word select a word of the table each, the other two select words of which only the lowest bit counts |
| Blowfish.FlippedBit | src/common/blowfish.cpp:292-295 | That bit counts with 32 added |
| Blowfish.Encipher | src/common/blowfish.cpp:361-391 | The 16 rounds and the two last key words, in place on the two halves |
| Blowfish.Decipher | src/common/blowfish.cpp:459-491 | The same rounds with the key words from last to first |
| Blowfish.Backwards | src/common/blowfish.cpp:459-491 | After j rounds backwards the right half of round 16 - j is back, hidden by one key word only |
| Blowfish.Inverse | src/common/blowfish.cpp:297-491 | For every block and all tables, deciphering undoes enciphering and enciphering undoes deciphering |

## Left out

The epoll emulation:

- The port keeps its socket tree as a map and its queues as sequences. The linked tree and the linked queue are modelled
  as separate classes; going from an embedded node to the object around it is not modelled.
- Windows calls appear only by their results: a request is submitted, refused because the handle is invalid, or refused
  otherwise; a cancellation succeeds or fails; a lock is granted. Error numbers, the one-time initialisation and the
  loading of functions are not modelled.
- The kernel completes each submitted request once. A completion that was dequeued but not yet fed counts as still with
  the kernel.
- `port_wait` is modelled as its steps under the lock (begin of a poll, end of a poll, last update), which may come in
  any order and number from several threads. The due time, the time-out and the choice of the completion buffer are not
  modelled.
- PortModel.UpdateDequeues: the answers of the kernel are a sequence that is long enough for the queue; one answer per
  socket is consulted.
- HandleProtocol.WhereItEnds: work on the port between taking and dropping a reference is one step that ends, except for
  calls without a timeout, which end once the port is closed; that closing the completion port wakes them is what the
  source relies on.
- HandleProtocol.StepInv: one port. A handle value that is used again for a new port while an old call still holds the
  value is not modelled, nor the failure of `epoll_create` to register a new handle, after which `port_delete` would
  find the port open.
- Port.Port.Delete: the requests of the socket states that it frees may still be with the kernel, whose completion port
  has been closed.

Encoders and decoders:

- Zlib.Compress: sizes of the buffer are limited to 1..2^28 bytes, because the number of bits is returned as a signed
  32-bit integer, and nothing is said about the buffer when the filler would reach beyond it (`Overrun`).
- Zlib.DecodedEncoded: that the two table files agree is a hypothesis; reading them is not modelled.
- BitFields.PackBitsLE: what lies behind the reversed copy is an arbitrary parameter, at least three bytes long unless
  the word stays inside the copy; whether the source may touch those bytes is not modelled. Length 0, where the source
  shifts by 64, is excluded.
- BitFields.PackBitsBE: the machine word is a sequence of bits on a little-endian machine; offsets are not negative.
- Names.SignedAndRead: the signature is read from a 12-byte field, as items keep it.
- Names.ThereAndBack: a name with other than alphanumeric characters never comes back; which part of it does is not
  stated.
- Blowfish.Inverse: the key schedule `blowfish_init` and the table of subkeys are not modelled; the statement is about
  all tables. The inline assembly for 32-bit Windows is not modelled.

MD5 and status sync:

- Md5Context.Context.MessageLength: the bitwise or of two words that share no bits is written as a sum.
- Md5Context.Context.Update: the byte counter is kept as two numbers below 2^32; pieces are shorter than 2^32 bytes, as
  the type of the length says.
- Scouter.EvictionUnobservable: what a snapshot contains and its hash come with the characters, and the order in which
  the hash table of batches is walked is an arbitrary function of the batches. The clock does not go back.
- Scouter.Chunk: the byte layout of a record is not modelled.
- Scouter.TickTells: the snapshot of a group is the one that comes with its first subscribed character.

Not modelled at all, because they are input and output around libraries or would only add easy members: login,
databases, Lua, logging, the network front end, the geometry and string helpers of `utils.cpp`, and the small bit-set
helpers.
