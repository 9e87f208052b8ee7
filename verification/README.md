# A small train-control kernel, modelled and verified in Dafny

The repository is a real-time kernel with message passing for an ARM board, and the servers and applications that run
model trains on it. This project models the parts whose correctness is not visible from one function, and proves what
they are for. It verifies with `dafny verify dfyconfig.toml`.

| file | models |
|---|---|
| `Facts.dfy` | two facts of arithmetic and sequences that several modules need |
| `Newton.dfy`, `Kinematics.dfy` | the integer square root, and the acceleration estimates that use it |
| `RingBuffer.dfy`, `Heap.dfy` | the ring buffer and the priority queue under everything else |
| `Track.dfy`, `RoutePrices.dfy`, `RouteSearch.dfy`, `ActionQueue.dfy`, `RoutePlan.dfy` | track graphs and paths; the order in which the search finishes nodes; the route search; the queue of routing actions; backtracking, switches, the cut at a segment change |
| `RouteGaps.dfy` | what the distances of a route measure, on the path and on the way a train drives |
| `TrackServer.dfy`, `TrackServerReplies.dfy`, `TrackServerProgram.dfy` | the lock server for track segments: its step on a message and what holds over runs; what each message is answered; the program, in place |
| `Chains.dfy`, `TaskTable.dfy` | intrusive linked lists; the task descriptors |
| `TaskAlloc.dfy`, `TaskQueue.dfy`, `StackAlloc.dfy`, `EventQueue.dfy` | the kernel's allocators and queues |
| `Messages.dfy`, `Conservation.dfy`, `Kernel.dfy` | the invariants of Send, Receive and Reply and their history; what the kernel conserves; the kernel with its calls, interrupts and main loop |
| `Marklin.dfy`, `MarklinProgram.dfy` | the byte sender driven by the CTS line: step and runs; the program on its four queues |
| `Clock.dfy`, `ClockProgram.dfy` | the clock server: step and runs; the sorted linked queue and the loop, in place |
| `NameServer.dfy` | the chained hash table, against a plain map |
| `NumberText.dfy` | printing and parsing numbers, and the round trips |
| `Snake.dfy` | the controller of a row of trains, with its queued speed changes and shared timer |

Conventions. An index stands for a pointer into a table and -1 for NULL; a field of a table of records is one column, a
`seq` that assignments replace at one place (the registers x2 to x5 of the descriptors are one column together). A field
declared `ghost` (the members of a linked list in order, the history of calls, replies or written bytes) is kept for the
proofs only. Where a server is modelled twice, the functions (`Step`, `Run`) are the specification over which the
properties of runs are proved, and every method of the program class ends in the state that the specification gives.
Inputs from outside (clock readings, answers of the lock server, bytes and levels read, estimates from tables) are
parameters.

## What turned out different from the intent

- The square root does not end exactly when `n + 1` is a perfect square (`Newton.StopsIff`, `Newton.Alternates`), and
  for `n == 0` its divisor becomes 0 (`Newton.ZeroReachesZero`).
- Of the two times at which a braking train is as far as asked, the estimate takes the least positive one in whole
  ticks: when the first takes less than a tick and the second does not, that is the second, at which the train would run
  backwards (`Kinematics.BrakingIff`).
- The route search leaves its loop at a target before it looks whether the target was reached. With an end that cannot
  be reached it may therefore report that end, at distance INT32_MAX, instead of ERR_NO_ROUTE
  (`RouteSearch.MissingRouteGoesUnreported`). A route exists if and only if a node is reported and its distance is
  not INT32_MAX; ERR_NO_ROUTE does mean there is none (`RouteSearch.Search`, `RouteSearch.FoundTarget`,
  `RouteSearch.NothingLeft`). Whether a missing route is reported as ERR_NO_ROUTE turns on which of the unreached
  nodes, all of the same key, the heap hands out first. From a start without edges this is the node with the highest
  number, or the parent of the start in the heap when the start has that number: the route is reported missing if and
  only if that node is no target (`RouteSearch.Search`, `Heap.SecondOut`). Going on from an unreached end, the planner comes to NULL when
  the start is left out, and otherwise reads from the empty queue of sensors; the latter also happens with a route, if
  and only if it stays in one segment (`RoutePlan.FollowToSegmentChange`, `RoutePlan.PlanConstantRoute`).
- A switch is set by the node the path goes on to, not by the edge it takes. The distance in a sensor's action is always
  the length of the path to the next sensor (`RouteGaps.GapIsLength`), but what a train drives with the switches thrown
  is as long on every part of the path if and only if no branch that the path leaves straight has a curved edge of
  another length to the same node (`RouteGaps.DrivenIff`; `RouteGaps.TwinEdgesMislead` is a graph for which the planner
  announces 15 and the train drives 17).
- `priority_queue_decrease` keeps heap order if and only if the new priority exceeds no child of the node
  (`Heap.PriorityQueue.Decrease`, `Heap.AboveTooLargeKey`).
- In the lock server, a waiting request for one of two sets is retried with the lists of the incoming message, not its
  own: by a message that frees segments, for the freeing train, and at its timeout with lists the notifier was never
  sent. The answer it gets is true exactly under the conditions of `TrackServer.FreeAnswersTwoSetIff` and
  `TrackServer.TimeoutAnswersTwoSetIff`; runs from the start that end in an untrue one are
  `TrackServer.TimeoutGrantIsUntrue`, `TrackServer.TimeoutRefusalIsUntrue` and `TrackServer.FreeGrantIsUntrue`. The
  clients only send the request with a timeout (track-control/src/track-segment-locking.c:162 and 184), so only the
  first two arise from them. Neither FREE_ALL nor TRAIN_REGISTER looks at waiting trains; exactly when that loses no
  wake-up is `TrackServer.FreeAllNoLostWakeUpIff` and `TrackServer.RegisterNoLostWakeUpIff`. TRAIN_REGISTER overwrites
  an owner unless the segment was available (`TrackServer.RegisterIsLawfulIff`).
- The loop at kernel/src/task-state.c:164-167 reads the head of the list again on every pass, so it never ends once a
  sender waits (`Messages.WrittenLoopEndsIff`). The model walks to the last sender, as docs/k2/k2.tex:196 describes.
- `waiting_senders_next` is the head of a task's own list of senders and its link in another's. Send keeps the lists if
  and only if no sender is blocked on its caller and its receiver is not itself blocked in Send
  (`Messages.SendKeepsListsIff`). Otherwise the receiver also takes the messages of the caller's senders, the caller
  lands on the list of its receiver's receiver, or, if that is the caller itself, its list never ends
  (`Messages.SendMisplacesSenders`). A task may exit if and only if no sender is blocked on it
  (`Messages.TaskLeavesIff`).
- Identifiers go through a 16-bit signed variable: adding a task fails if and only if every identifier from the next one
  to 32767 is in use, so from 32767 to 65534 it always does, and at 65535 it works again, from 300 on
  (`TaskQueue.Queue.Add`), although docs/k2/k2.tex describes a range up to 65535.
- The length of a copy is the smaller of two signed numbers, converted to `size_t`: every copy of a run stays inside both
  buffers if and only if neither is negative (`Kernel.CopyFitsIff`, `Kernel.Kernel.CopiesFitIff`).
- The state of the Märklin sender that waits for announced sensor bytes never matters: when the count reaches 0
  there is nothing to send (`Marklin.ReadStep`).
- A notification of the clock server wakes every overdue task if and only if none of them waits behind an entry with
  identifier 0 (`Clock.NotifyWakesExactlyTheOverdue`; `Clock.ZeroHoldsUpOthers` is a run that shows it). The server
  takes any identifier, but its clients send their own (src/clock.c:16, 36 and 58), which are never 0: for them all the
  overdue tasks wake (`Clock.EveryOverdueTaskWakes`).
- Tasks that wait for the same tick do not wake in the order of their requests: a new one goes before the others of its
  tick, but behind the head of the queue (`Clock.RequestsWait`).
- A printed number comes back exactly when no digit of its base follows, nor, behind a lone 0, an x: `parse_num` takes
  that for a prefix (`NumberText.DecimalRoundTrip`, `NumberText.HexRoundTrip`, `NumberText.ZeroBeforeX`).
- The start of a train takes no grace period: between a speed change and the next one of the same train its timer fired
  if and only if the first was not its start (`Snake.ChangesAreSpacedIff`; `Snake.SlowedAfterStart` is a run).
- A gap that closes fast is widened even when it is within its margins or too wide (`Snake.DecisionTowardsIff`,
  `Snake.WidenedAlthoughWide`), and the train right behind a gap may do the opposite of what was decided, when the
  decision cannot be queued for it and the opposite still was (`Snake.ChangeAtOnce`).

## Model

| member | source | states |
|---|---|---|
| Newton.RefineFacts | src/math.c:8-15 | one refinement from above the root stays at or above it, in 64 bits, and goes strictly down until the root is reached |
| Newton.ReachesRoot | src/math.c:3-18 | for every n >= 1 some round of the loop is exactly at floor(sqrt(n)) |
| Newton.StopsIff | src/math.c:3-18 | the loop stops if and only if n + 1 is not a perfect square, and only ever on floor(sqrt(n)) |
| Newton.Alternates | src/math.c:3-18 | otherwise it alternates between the root and its successor for ever |
| Newton.ZeroReachesZero | src/math.c:3-18 | n == 0 starts at 2^63 and is halved in each round without stopping, to 1 in round 63 and then to 0, the next divisor |
| Newton.Sqrt | src/math.c:3-18 | the loop as written returns floor(sqrt(n)) whenever it ends |
| Kinematics.SquaresReached | final-project/src/speed-data.c:313-342 | the acceleration times the estimated time squares to within known bounds of the exact solution |
| Kinematics.TimeIsFirstRoot | final-project/src/speed-data.c:326-341 | the minimum of the positive solutions is the first root, and its truncation loses less than one tick |
| Kinematics.NeverTooFar | final-project/src/speed-data.c:293-342 | the distance estimated for the estimated time never exceeds the requested distance |
| Kinematics.ShortfallBound | final-project/src/speed-data.c:293-342 | the shortfall is at most s/a + s/100 + 1 micrometres, s being the root of v1^2 + 2ad |
| Kinematics.TimeForDistance | final-project/src/speed-data.c:293-342 | both bounds for the program with the square root inside, its 63-bit radicand and its 32-bit result; a time cut off to 32 bits still never goes too far, and nothing overflows on the way |
| Kinematics.TruncatesTowardZero | final-project/src/speed-data.c:290-305 | the division used truncates toward zero for every sign |
| Kinematics.LeastPositive | final-project/src/speed-data.c:326-341 | for every train the time is the least positive of the two solutions in whole ticks, and 0 exactly when neither is positive |
| Kinematics.BrakingIff | final-project/src/speed-data.c:326-341 | a train that brakes gets the first solution exactly when that takes a tick at least, or neither does; otherwise the second |
| RingBuffer.Deque.Init | src/deque.c:7-19 | an exponent over 10 is refused with -1 and changes nothing; otherwise the buffer is empty with room for 2^e |
| RingBuffer.Deque.PushBack | src/deque.c:43-48 | the element goes behind the others, or is dropped when the buffer is full |
| RingBuffer.Deque.PopBack | src/deque.c:50-57 | the last element leaves and is returned; -1 from an empty buffer |
| RingBuffer.Deque.PushFront | src/deque.c:63-68 | the element goes before the others, or is dropped when the buffer is full |
| RingBuffer.Deque.PopFront | src/deque.c:70-77 | the first element leaves and is returned; -1 from an empty buffer |
| RingBuffer.SlotsDiffer | src/deque.c:43-77 | two elements of the buffer never share a cell, wherever the front is |
| Heap.PriorityQueue.Heapify | src/priority-queue.c:9-36 | from order everywhere but below one node, order everywhere, over the same nodes |
| Heap.SwapDown | src/priority-queue.c:28-34 | exchanging a node with its least child moves the one defect a level down |
| Heap.PriorityQueue.Init | src/priority-queue.c:38-42 | an arbitrary array becomes a heap of the same multiset of nodes |
| Heap.OneRises | src/priority-queue.c:38-42 | of keys alike but for one lesser, the lesser node rises to the root, its ancestors move down its way, and no other node moves |
| Heap.SecondOut | src/priority-queue.c:38-83 | such a heap hands out the lesser node and then the last one |
| Heap.PriorityQueue.BubbleUp | src/priority-queue.c:44-59 | from order everywhere but above one node, order everywhere, over the same nodes; it ends at index 0 too |
| Heap.SwapUp | src/priority-queue.c:44-59 | exchanging a node with its larger parent moves the one defect a level up |
| Heap.PriorityQueue.Add | src/priority-queue.c:61-68 | the heap gains exactly the new pair, or stays as it is when it holds 256 |
| Heap.RootIsLeast | src/priority-queue.c:70-83 | in a heap of any size no node is below the root |
| Heap.PriorityQueue.PopMin | src/priority-queue.c:70-83 | removes and returns a pair of least priority and nothing else; NULL when empty |
| Heap.PriorityQueue.Decrease | src/priority-queue.c:85-96 | true exactly when the value is present; exactly that pair changes its key; the order is kept exactly when the key exceeds no child, so always for a smaller one |
| Heap.AboveTooLargeKey | src/priority-queue.c:85-96 | a key above a child's is not below the parent's either: nothing moves and the order is broken |
| ActionQueue.DecodeFirst | track-control/src/routing.c:50-62 | reading four integers with the narrowing casts gives back the record that was written |
| ActionQueue.RoutingActionQueue.PushBack | track-control/src/routing.c:36-41 | the record is appended whole, or dropped whole when 256 are held |
| ActionQueue.RoutingActionQueue.PushFront | track-control/src/routing.c:43-48 | the record is prepended whole, or dropped whole when 256 are held |
| ActionQueue.RoutingActionQueue.PopFront | track-control/src/routing.c:50-62 | the first record leaves and is returned; from an empty queue every field reads -1 |
| ActionQueue.RoutingActionQueue.Front | track-control/src/routing.c:78-89 | returns the first record and leaves the queue |
| RouteSearch.TreeGrows | track-control/src/routing.c:224-234 | a relaxation keeps the search tree: every prev chain a simple path from the start as long as dist says |
| RouteSearch.NearestWaiting | track-control/src/routing.c:192-235 | with nothing locked, every path out of the finished nodes is at least as long as the nearest waiting node is far |
| RouteSearch.NoWayOut | track-control/src/routing.c:201-205 | when the least waiting node was never reached, no path leaves the finished nodes |
| RouteSearch.PoppedFits | track-control/src/routing.c:192-235 | a popped reached node is at its least distance without locks, and its edges keep the keys below 65535 |
| RouteSearch.Penalty | track-control/src/routing.c:213-221 | the penalty follows the lock server's answer, which is asked for at most once a segment |
| RouteSearch.RelaxEdge | track-control/src/routing.c:209-234 | the loop body over an edge keeps the search invariant |
| RouteSearch.Expand | track-control/src/routing.c:207-234 | so does the whole loop over a node's edges |
| RouteSearch.Iterate | track-control/src/routing.c:192-235 | a round keeps the invariant and shrinks the heap, or reports a target, or finds that there is no route |
| RouteSearch.FoundTarget | track-control/src/routing.c:195-199 | a reached target lies on a simple path of length dist, and without locks no path to a target is shorter |
| RouteSearch.NothingLeft | track-control/src/routing.c:201-205 | popping an unreached node before a target means neither the end nor its reverse can be reached |
| RouteSearch.Search | track-control/src/routing.c:162-235 | ERR_NO_ROUTE only without a route; a reported target is reached exactly when there is one; then its path is simple, as long as dist, and shortest without locks; with locks, too, nodes are finished in the order of prices, 15 times the edge out of a segment in use, and the target is the first one so finished; from a start without edges ERR_NO_ROUTE exactly when the node that leaves the heap second is no target |
| RouteSearch.TreeDistances | track-control/src/routing.c:224-234 | the distance of every node on a path of the tree is the length of the path up to it |
| RoutePrices.PricedPop | track-control/src/routing.c:192-199 | the node finished next is at the end of an edge with the lowest price out of those finished |
| RoutePrices.PricedRelax | track-control/src/routing.c:220-234 | a better price for a waiting node keeps: its weight is the price of the edge it is reached by, and no edge to it is cheaper |
| RouteSearch.MissingRouteGoesUnreported | track-control/src/routing.c:195-205 | a graph of two nodes without edges for which the unreachable end is reported |
| RoutePlan.StepBack | track-control/src/routing.c:299-300 | prev leads back along the tree path one node at a time and ends at the start |
| RoutePlan.TreeLeadsBack | track-control/src/routing.c:224-234 | the tree's path of a reached node is what prev leads back through, to the start and then to NULL |
| RoutePlan.Backtrack | track-control/src/routing.c:237-300 | the walk leaves the branch marks of exactly the path, and its sensors in order, each with the difference of the distances to the next one; it comes to NULL exactly when it does not come by the node it should end at |
| RoutePlan.GatherBranches | track-control/src/routing.c:543-567 | exactly the branches before the given sensor become SWITCH actions in front of the route, in order |
| RoutePlan.SwitchListSound | track-control/src/routing.c:555-564 | the switch list throws every branch of the path, and each only the way the path leaves it |
| RoutePlan.SwitchesRealisePath | track-control/src/routing.c:543-567 | with those switches thrown, a train at any node of the path drives along it up to the segment's last sensor |
| RoutePlan.MarksCount | track-control/src/routing.c:246-297 | a path takes three cells of the stack a branch and two a sensor |
| RoutePlan.FollowToSegmentChange | track-control/src/routing.c:468-490 | sensors move to the route up to and including the first one in another segment, and the segment left is recorded; the loop ends exactly when there is one, and otherwise reads from the empty queue |
| RoutePlan.PlanSegment | track-control/src/routing.c:302-312 | the route of the first segment: its switches, then its sensors, which realise the path; or the empty queue, exactly when the path stays in one segment |
| RoutePlan.RouteRealises | track-control/src/routing.c:468-490 | the route handed over drives a train along the path to its last sensor |
| RoutePlan.PlanConstantRoute | track-control/src/routing.c:152-491 | for any lock answers, with a route the planner finds a simple one, shortest without locks, with the distance of each of its nodes, chosen edge by edge for the lowest price with the locks, and delivers its first segment exactly when it leaves one; without a route it reports that, or goes on from the unreached end to NULL or to the empty queue |
| RouteGaps.GapIsLength | track-control/src/routing.c:288-293 | the action of a sensor carries the length of the path between it and the next sensor, with no sensor between them; that of the last sensor 0 |
| RouteGaps.GapIsDriven | track-control/src/routing.c:288-293 | with the route's switches thrown, a train at one of its sensors meets the next one of the route before any other, after exactly the distance in the action, if the hops are clear |
| RouteGaps.GapsAreDriven | track-control/src/routing.c:288-293 | and the distances add up to what it drives from the first sensor of the route to its last |
| RouteGaps.DrivenIff | track-control/src/routing.c:555-564 | what is driven along each part of the path is its length exactly when every hop is clear: the switch does not send the train to the same node over another distance |
| RouteGaps.TwinEdgesMislead | track-control/src/routing.c:270-276 | a graph for which the planner announces 15 to the next sensor and the train drives 17 |
| TrackServer.LockSafety | track-control/src/track-server.c:46-87 | outside TRAIN_REGISTER every change of owner takes a segment that is free or the taker's, or clears one the freeing train owns; what is shown is the table |
| TrackServer.AllIsTruthful | track-control/src/track-server.c:146-184 | an ALL request succeeds at once exactly when every segment is available, and then all are owned; otherwise the table stays |
| TrackServer.OneIsTruthful | track-control/src/track-server.c:186-223 | a ONE request is granted exactly when a segment of its list is available, and then that is owned and nothing else changes |
| TrackServer.NotifIsTruthful | track-control/src/track-server.c:341-384 | a timed-out request other than a two-set one with timeout is answered: success only with what was asked for owned, failure only when it cannot be granted, the table then unchanged |
| TrackServer.FreeIsTruthful | track-control/src/track-server.c:281-339 | after FREE_SEGMENTS a waiting request is as before, or was answered and its train owns what it was told |
| TrackServer.StepNoLostWakeUp | track-control/src/track-server.c:146-339 | no request, timeout or free leaves a train waiting for what the table could grant |
| TrackServer.RunNoLostWakeUp | track-control/src/track-server.c:110-423 | so in every run of them from the start |
| TrackServer.RunShowsTheTable | track-control/src/track-server.c:110-423 | in every run the owners shown on the console are those of the table |
| TrackServer.RegisterIsLawfulIff | track-control/src/track-server.c:407-419 | TRAIN_REGISTER takes a segment lawfully exactly when it was available |
| TrackServer.FreeAllNoLostWakeUpIff | track-control/src/track-server.c:386-405 | FREE_ALL loses no wake-up exactly when each other waiting train still lacks a segment the message does not clear |
| TrackServer.RegisterNoLostWakeUpIff | track-control/src/track-server.c:407-419 | TRAIN_REGISTER loses no wake-up exactly when it gives no waiting train the last segment it waited for |
| TrackServer.FreeAnswersTwoSetIff | track-control/src/track-server.c:318-336 | every waiting two-set request of another train is answered exactly when a list of the message is available to the freeing train when the scan comes to it, and truly exactly when its train owned the set named already |
| TrackServer.ScanKeepsAvailable | track-control/src/track-server.c:281-336 | those lists are available then exactly when they are before the message, if no ALL or ONE request waits ahead |
| TrackServer.TimeoutAnswersTwoSetIff | track-control/src/track-server.c:352-368 | a timed-out two-set request is answered, and truly exactly when the message's available list covers what the train lacks of the set named, or neither list and neither stored set is available |
| TrackServer.OwnListsAreTrue | track-control/src/track-server.c:352-368 | retried with its own lists the answer would always be true |
| TrackServer.TimeoutGrantIsUntrue | track-control/src/track-server.c:352-368 | a run in which a train is told at its timeout that it has a set another train owns |
| TrackServer.TimeoutRefusalIsUntrue | track-control/src/track-server.c:352-368 | a run in which it is told it can have neither set although both are free |
| TrackServer.FreeGrantIsUntrue | track-control/src/track-server.c:318-336 | a run in which a freeing train gets its segment back and the waiting one is told it has it |
| TrackServerReplies.OwnRecord | track-control/src/track-server.c:149 | trains 24, 58 and 77, and no others, have a record, and each its own |
| TrackServerReplies.AskFreeAnswered | track-control/src/track-server.c:140-144 | yes exactly when nobody owns the segment; nothing changes |
| TrackServerReplies.AllAnswered | track-control/src/track-server.c:146-184 | a request for all of a list gets its success as the only reply, and the segments, exactly when all are free or its train's; otherwise it is remembered as it came, and with a timeout, and only then, its notifier is started |
| TrackServerReplies.OneAnswered | track-control/src/track-server.c:186-223 | a request for one gets the first of its list that is free or its train's, by name, as the only reply, exactly when there is one; otherwise likewise |
| TrackServerReplies.TwoAnswered | track-control/src/track-server.c:225-279 | a request for one of two lists gets the first if it can have it all, else the second, and is told which; otherwise likewise |
| TrackServerReplies.FreeAnswered | track-control/src/track-server.c:281-339 | FREE_SEGMENTS clears exactly the listed segments its train owns, tells the sender so, and looks at each record once, in order, with the replies and segments each gets |
| TrackServerReplies.FreeAllAnswered | track-control/src/track-server.c:386-405 | FREE_ALL clears exactly what the train owns but a segment listed alone, its record waits no more, and the sender gets an empty reply |
| TrackServerReplies.RegisterAnswered | track-control/src/track-server.c:407-414 | TRAIN_REGISTER gives the train exactly that segment, and the sender an empty reply |
| TrackServerReplies.TimeoutAnswered | track-control/src/track-server.c:341-384 | a timeout is answered once to the task that asked, with success exactly when the request can be granted, which it then is; nothing happens when nobody waits or a notifier starts |
| TrackServerReplies.OtherAnswered | track-control/src/track-server.c:417-420 | any other message gets an error |
| TrackServerReplies.WaitsForTheLastRequest | track-control/src/track-server.c:98-107 | in any run a record that waits holds the last request of its train, as it was sent |
| TrackServerProgram.Server.LockOneSafe | track-control/src/track-server.c:64-77 | takes the first available segment of the list, or -1 and no change |
| TrackServerProgram.Server.LockAllSafe | track-control/src/track-server.c:79-87 | takes all or none, exactly as they are all available |
| TrackServerProgram.Server.FreeSegmentsOf | track-control/src/track-server.c:281-339 | the program frees, scans and answers as the specification's step does |
| TrackServerProgram.Server.Timeout | track-control/src/track-server.c:341-384 | and so at a timeout |
| TrackServerProgram.Server.Handle | track-control/src/track-server.c:139-422 | and so for every message |
| TrackServerProgram.Server.Serve | track-control/src/track-server.c:139-422 | so its whole life is a run of the specification |
| Chains.ChainAppend | kernel/src/task-queue.c:15-29 | linking behind the last element appends to the list, whatever the other links are |
| Chains.ChainRemove | kernel/src/task-queue.c:92-97 | redirecting the link before an element takes exactly that element out |
| Chains.ChainInsert | kernel/src/task-alloc.c:64-80 | redirecting two links puts an element in at a position |
| TaskAlloc.InsertedSorted | kernel/src/task-alloc.c:56-82 | freeing keeps the free list in slab order |
| TaskAlloc.TaskAllocator.AddToFreeList | kernel/src/task-alloc.c:56-82 | the task enters the acyclic, sorted free list before the first task of its slab or a later one |
| TaskAlloc.CounterCountsLive | kernel/src/task-alloc.c:41-44 | the counter of an active slab is the number of its live tasks, and with its free ones makes 8 |
| TaskAlloc.TakeSettles | kernel/src/task-alloc.c:38-49 | handing out the first free task keeps the books of all slabs |
| TaskAlloc.FullSlab | kernel/src/task-alloc.c:95-120 | eight free tasks of a slab are all of them, so a slab is taken out of use only without live tasks |
| TaskAlloc.TaskAllocator.RemoveSlab | kernel/src/task-alloc.c:96-116 | exactly the tasks of that slab leave the free list, in one pass |
| TaskAlloc.TaskAllocator.New | kernel/src/task-alloc.c:11-54 | hands out a task that was not live, cleared, and no other changes; NULL exactly when all 1024 are live |
| TaskAlloc.TaskAllocator.Free | kernel/src/task-alloc.c:84-122 | exactly the given task stops being live |
| TaskQueue.Queue.Push | kernel/src/task-queue.c:15-29 | the task joins the end of its priority's list and no other list changes |
| TaskQueue.Queue.Schedule | kernel/src/task-queue.c:66-111 | removes the first runnable task of the highest priority that has one, leaving all other order; NULL exactly when none is runnable |
| TaskQueue.Queue.GetTid | kernel/src/task-queue.c:31-54 | the next identifier no queued task has, wrapping from 65535 to 300; -1 exactly when all those are in use |
| TaskQueue.Queue.Add | kernel/src/task-queue.c:113-132 | a task without identifier gets the least unused one from the next on; that fails, and the task is not queued, exactly when all of them up to 32767 are in use |
| TaskQueue.Queue.Get | kernel/src/task-queue.c:156-167 | finds a queued task with the identifier exactly when there is one |
| TaskQueue.Queue.FreeTid | kernel/src/task-queue.c:143-154 | exactly the queued children of that task lose their parent (with the NULL check the source lacks) |
| TaskQueue.Queue.Empty | kernel/src/task-queue.c:134-141 | true exactly when no task is queued between the idle and the server priorities |
| TaskQueue.RunsWithin | kernel/src/task-queue.c:66-111 | in any run of the kernel, a task that is ready with k tasks ahead of it in its list runs within k + 1 rounds, if until then nothing above its priority is ready |
| TaskQueue.RoundsAreFair | kernel/src/task-queue.c:66-111 | so from any round of the run on |
| TaskQueue.RoundAdvances | kernel/src/kernel.c:82-117 | in one round a ready task runs, or stays ready while one ahead of it leaves its list |
| StackAlloc.SlotStarts | kernel/src/stack-alloc.c:26-32 | the address arithmetic inverts, and different slots are a whole stack apart |
| StackAlloc.StackAllocator.New | kernel/src/stack-alloc.c:14-27 | the first free slot; its assertion holds whenever a slot is free |
| StackAlloc.StackAllocator.Free | kernel/src/stack-alloc.c:29-33 | exactly the slot of that address becomes free |
| EventQueue.Queue.Block | kernel/src/event-queue.c:14-29 | the task goes behind those waiting for the event; false exactly for an invalid event, and then nothing changes |
| EventQueue.Queue.UnblockOne | kernel/src/event-queue.c:31-46 | the task waiting longest is ready with the value in x0; false exactly when none waits |
| EventQueue.Queue.UnblockAll | kernel/src/event-queue.c:48-53 | all that waited, and only they, are ready with the value |
| Messages.OnOneList | kernel/src/task-state.c:158-173 | a task is blocked in Send exactly when it is on one list, that of its receiver |
| Messages.SendBlocks | kernel/src/task-state.c:158-173 | blocking behind the last sender keeps all the lists |
| Messages.SendKeepsListsIff | kernel/src/task-state.c:158-173 | with the links Send writes, the lists are kept exactly when nobody is blocked on the caller and the receiver is not blocked in Send |
| Messages.SendMisplacesSenders | kernel/src/task-state.c:158-173 | where the caller and the senders blocked on it end up: on the list the receiver's link leads into, or in a circle |
| Messages.WrittenLoopEndsIff | kernel/src/task-state.c:162-167 | the loop as written ends exactly when no sender waits |
| Messages.ReceiveUnblocks | kernel/src/task-state.c:178-195 | taking the first sender keeps all the lists |
| Messages.TaskLeavesIff | kernel/src/task-state.c:116-118 | a task can go without harm to the lists exactly when nobody is blocked on it |
| Messages.TraceSentAndReceived | kernel/src/task-state.c:144-157 | a Send to a waiting receiver keeps the history in order |
| Messages.EachSendIsAnsweredOnce | kernel/src/task-state.c:137-222 | acts in order mean one Receive and one Reply for each Send, but for one still under way |
| Conservation.SlotLeft | kernel/src/stack-alloc.c:20-22 | while a descriptor is unused a stack slot is free |
| Conservation.StacksDisjoint | kernel/src/task-state.c:58-69 | the stacks of two tasks never overlap |
| Conservation.ChildrenOrphaned | kernel/src/task-state.c:244-248 | freeing an identifier clears the parent of that task's children and of no other, so no parent dangles |
| Conservation.WaitsWoken | kernel/src/event-queue.c:31-53 | releasing the first waiting tasks keeps: on an event's list exactly while waiting for it |
| Conservation.OthersKept | kernel/src/event-queue.c:31-53 | waking tasks touches neither the lists of senders nor the history |
| Kernel.CopyFitsIff | kernel/src/task-state.c:149-150 | a copy stays inside both buffers exactly when neither length is negative |
| Kernel.Kernel.Dispatch | kernel/src/kernel.c:83-91 | a task always runs, the one the scheduler's rule picks, and the invariant holds |
| Kernel.Kernel.Deliver | kernel/src/task-state.c:144-157 | message, length and identifier go to the waiting receiver, which is ready; the sender waits for the reply |
| Kernel.Kernel.BlockOn | kernel/src/task-state.c:158-173 | the sender is last on the receiver's list and waits |
| Kernel.Kernel.Send | kernel/src/task-state.c:137-176 | which of these happens, or -1 without such a task; nothing else changes |
| Kernel.Kernel.TakeSender | kernel/src/task-state.c:179-195 | the first blocked sender's message is received and it waits for the reply |
| Kernel.Kernel.Receive | kernel/src/task-state.c:178-199 | that, with the copy, identifier and length it takes, or the task waits, exactly when no sender is blocked on it |
| Kernel.Kernel.Reply | kernel/src/task-state.c:201-222 | the reply reaches a task that waits for one, which is ready; -1 without such a task, -2 when it does not wait |
| Kernel.Kernel.Await | kernel/src/task-state.c:223-232 | the task waits for the event it named, or gets -1 for an invalid one |
| Kernel.Kernel.Exit | kernel/src/task-state.c:116-118 | the task is marked killed, for the loop to give back |
| Kernel.Kernel.Create | kernel/src/task-state.c:81-102 | -1 for a wrong priority, -2 exactly when all descriptors are in use, otherwise a new task with the next identifier at that priority, a child of the caller |
| Kernel.Kernel.Handle | kernel/src/task-state.c:76-235 | every call has the effect of its number on the messages, the copies, x0, the event lists, the tasks and the states of all of them, and fails with its error exactly when it should; no other ready task stops being ready; only Exit kills |
| Kernel.Kernel.Equip | kernel/src/task-state.c:25-70 | a new descriptor always finds a stack slot of its own |
| Kernel.Kernel.SerialInterrupt | kernel/src/interrupts.c:76-106 | for each line that reports, in that order, the task waiting longest is ready with the value in x0; nothing else changes |
| Kernel.Kernel.Interrupt | kernel/src/interrupts.c:65-111 | that, or on a timer interrupt every task waiting for the tick; interrupts only make tasks that waited for an event ready |
| Kernel.Kernel.Requeue | kernel/src/kernel.c:110-113 | the task that ran is last in its list, ready if it did not block |
| Kernel.Kernel.Dealloc | kernel/src/task-state.c:244-248 | an exited task's descriptor, slot and identifier are free, and only its children lose their parent |
| Kernel.Kernel.Boot | kernel/src/kernel.c:27-67 | the invariant holds after initialisation, with the name server, the first user task and the idle task, at their identifiers and priorities |
| Kernel.Kernel.Step | kernel/src/kernel.c:82-121 | one iteration keeps the invariant, whatever the task that runs calls or the interrupt is, and is a step of the scheduler in which every other ready task stays ready; the task picked is the one served, with the whole effect of its call or of the interrupt, exactly an exited one is gone, and the loop ends exactly when only servers and the idle task are left |
| Kernel.Kernel.Run | kernel/src/kernel.c:82-121 | so does every run of calls and interrupts; it goes on until only servers are left, each iteration is a round of the scheduler, no ready task starves, and the history of messages and copies only grows |
| Kernel.Kernel.CopiesFitIff | kernel/src/task-state.c:149-150 | over any run each copy stayed inside both buffers exactly when neither length given was negative |
| Kernel.Kernel.CopiesCarry | kernel/src/task-state.c:149-150 | over any run each copy between lengths that are not negative was as long as the shorter |
| Kernel.DeliveredCarries | kernel/src/task-state.c:144-157 | a message to a waiting receiver fills its buffer with as much of the sender's as fits, and its x0 says how much |
| Kernel.TakenCarries | kernel/src/task-state.c:185-195 | and so a message taken from a blocked sender |
| Kernel.AnsweredCarries | kernel/src/task-state.c:209-219 | and a reply, whose length both tasks are told |
| Kernel.SerialTells | kernel/src/interrupts.c:76-106 | on a serial interrupt the task waiting longest for CTS is told the level, for a byte from the controller that byte, for the console 0; these are ready and nothing else changes |
| Kernel.Kernel.TaskIsQueuedOnce | kernel/src/kernel.c:82-121 | in any such state every descriptor in use is in exactly one list, at its priority, with an identifier of its own and no dangling parent |
| Kernel.Kernel.StacksApart | kernel/src/stack-alloc.c:14-27 | in any such state stacks are disjoint, and a slot is free unless all descriptors are in use |
| Kernel.Kernel.BlockedSenders | kernel/src/task-state.c:137-199 | in any such state a task is blocked in Send exactly on the list of its receiver; a task waiting in Receive has no blocked senders |
| Kernel.Kernel.FirstInFirstReceived | kernel/src/task-state.c:137-199 | over any run what a task was sent is what it received, in order, then those still blocked |
| Kernel.Kernel.SendsAnswered | kernel/src/task-state.c:137-222 | over any run each Send has one Receive, then one Reply, but for the one the sender's state shows under way |
| Kernel.Kernel.EventWaiters | kernel/src/event-queue.c:14-53 | in any such state a task is on an event's list exactly while it waits for that event |
| Marklin.SettledRun | src/marklin-server.c:144-216 | after every message: READY only with an empty queue; waiting for empty only while it is not; readers only while no byte is buffered |
| Marklin.ReadStep | src/marklin-server.c:189-206 | a byte read goes to the first reader or into the buffer and never makes the server send |
| Marklin.RunBalances | src/marklin-server.c:48-216 | in any run, of bytes to the wire, bytes read, readers and tasks waiting for empty: what left, then what is held, is what was accepted, in order |
| Marklin.BytesAreTheCommands | src/marklin-server.c:60-80 | in any run the bytes put on the wire, and then the queue, are one to one and in order the characters of the commands that found room, 0xFF going out as 0 and any other unchanged |
| Marklin.RoundRun | src/marklin-server.c:60-105 | in any run the state of the server is where its writes and the CTS levels put the line, and no byte goes out of turn |
| Marklin.WritesAreSeparated | src/marklin-server.c:60-105 | in any run CTS fell and then rose between two bytes written |
| Marklin.FreeIff | src/marklin-server.c:60-105 | in any run the line is held for free, and then nothing is left to send, exactly when CTS fell and then rose after every byte |
| Marklin.EachIsAnswered | src/marklin-server.c:144-221 | what each message is answered, and that nobody else hears anything but the first reader and those who waited for an empty queue |
| Marklin.QueriesAnnounce | src/marklin-server.c:68-72 | 128 + n announces n bytes and 192 + n two, for n up to 5, and no other byte any |
| MarklinProgram.Server.ReplyWaiting | src/marklin-server.c:48-58 | every task waiting for an empty queue is answered, in order |
| MarklinProgram.Server.SendByte | src/marklin-server.c:60-80 | the program sends as the specification does |
| MarklinProgram.Server.Serve | src/marklin-server.c:144-221 | and handles every message as its step does |
| Clock.RunSorted | src/clock-queue.c:45-77 | in any run the queue is in the order of deadlines and holds at most 256 |
| Clock.NotifyWakesExactlyTheOverdue | src/clock-server.c:30-49 | in any run a notification wakes only tasks whose deadline has passed, in the order of their deadlines, and all of them exactly when none waits behind an identifier 0 |
| Clock.EveryOverdueTaskWakes | src/clock-server.c:30-49 | in any run of requests with identifiers of tasks it wakes exactly the tasks whose deadline has passed |
| Clock.RunConserves | src/clock-server.c:74-103 | in any run every request that found room was answered once or still waits, and nothing else was answered |
| Clock.NobodyWakesEarly | src/clock-queue.c:19-25 | in any run nobody is woken at or before its deadline |
| Clock.RequestsWait | src/clock-server.c:84-95 | in any run a request that finds room waits for the tick it named, or for the sum of the time and the ticks it asked for in 64 bits, behind the earlier ones and before the others of its tick but for the head; otherwise nobody new waits |
| Clock.WaitersHaveAsked | src/clock-server.c:74-103 | in any run who waits, is woken or fails had asked for just that in an earlier message |
| Clock.WokenAfterAsked | src/clock-server.c:30-49 | in any run a task is woken later than the tick it named, or than the time of its request and the ticks it asked for |
| Clock.OthersAnswered | src/clock-server.c:79-107 | a question for the time gets it, and an unknown message an error |
| Clock.ZeroHoldsUpOthers | src/clock-server.c:36-39 | a run in which an entry with identifier 0 ends the notification although another task is due |
| ClockProgram.ClockQueue.Get | src/clock-queue.c:28-42 | the first entry leaves for the free list, or 0 when there is none or it is not yet due |
| ClockProgram.ClockQueue.Insert | src/clock-queue.c:45-77 | the entry goes where the order puts it, or nothing happens when no entry is free; the two lists always partition the 256 entries |
| ClockProgram.LinksIn | src/clock-queue.c:58-76 | linking in keeps both lists and the partition |
| ClockProgram.Server.DequeueAllReady | src/clock-server.c:30-49 | the program drains the queue as the specification says |
| ClockProgram.Server.Serve | src/clock-server.c:74-108 | and handles every message as its step does |
| NameServer.Hash | src/nameserver.c:30-39 | the loop with its shift computes the hash in 64 bits, modulo 64 |
| NameServer.HashWraps | src/nameserver.c:30-39 | the hash is 33 times itself and the next character, from 5381 on, as a number of any size, of which 64 bits count |
| NameServer.Compare | src/util.c:75-84 | comparing over 256 characters gives 0 exactly for equal names shorter than that |
| NameServer.BucketGrows | src/nameserver.c:62-75 | a new entry keeps every bucket a finite list of exactly the names that hash to it |
| NameServer.Server.AddEntry | src/nameserver.c:42-76 | the registrations become those of the map with the name set, each name stored once |
| NameServer.Server.GetEntry | src/nameserver.c:78-93 | the identifier the map holds for the name, or -1 |
| NameServer.Server.Run | src/nameserver.c:111-141 | every sequence of messages that registers at most 256 names is answered as a plain map answers it |
| NameServer.LatestWins | src/nameserver.c:42-93 | that map holds for each name the identifier registered last |
| NameServer.UnregisteredIsUnknown | src/nameserver.c:78-93 | and no name that was never registered |
| NameServer.AnsweredWithTheLatest | src/nameserver.c:111-141 | in any run a question gets the identifier registered last before it under that name, and an error when there is none; registrations succeed and other messages are errors |
| NumberText.Ui2a | src/util.c:12-28 | writes exactly the digits of the number in the base, then the terminator |
| NumberText.Evaluate | track-control/src/parsing.c:41-46 | the 32-bit loop computes the value of the digits, wrapped to an int |
| NumberText.ParseInt | track-control/src/parsing.c:25-47 | consumes exactly the decimal digits in front and returns their value, 128 digits counting |
| NumberText.ParseHexInt | track-control/src/parsing.c:49-75 | and so in base 16, in either case of letters |
| NumberText.ParseNum | track-control/src/parsing.c:78-88 | with the prefix 0x or 0X the second, otherwise the first, also on an empty buffer |
| NumberText.DecimalRoundTrip | src/util.c:12-28 | a number below 2^31 printed in base 10 parses back, exactly its characters being consumed, if and only if no digit follows, nor an x behind a lone 0 |
| NumberText.ZeroBeforeX | track-control/src/parsing.c:78-88 | the 0 of "0x5" is taken for part of a prefix |
| NumberText.HexRoundTrip | track-control/src/parsing.c:49-75 | and so in base 16 if and only if no hexadecimal digit follows |
| NumberText.LargeNumbersWrap | track-control/src/parsing.c:25-47 | from 2^31 to 2^32 a printed number comes back less 2^32 |
| NumberText.CaseDoesNotMatter | track-control/src/parsing.c:49-75 | capital letters count as small ones do |
| NumberText.OnlyTheFirst128Count | track-control/src/parsing.c:25-47 | of a longer row of digits all are consumed and 128 count |
| Snake.Controller.TryWaitTimer | final-project/src/snake.c:108-131 | the timer is set for the earliest grace period unless it runs; afterwards none is pending without it |
| Snake.Controller.TryMakeQueued | final-project/src/snake.c:143-175 | a queued adjustment is made only outside a grace period, to a supported speed, and starts one |
| Snake.RequeueKeeps | final-project/src/snake.c:179-197 | queueing what is supported keeps: every queued adjustment is supported when it is made, too |
| Snake.Controller.ChangeFwd | final-project/src/snake.c:179-197 | exactly the trains in front that can take the change have it queued |
| Snake.Controller.ChangeBehind | final-project/src/snake.c:214-237 | and so behind, where the first one changes at once |
| Snake.DecisionTowardsIff | final-project/src/snake.c:254-353 | which gap a decision is about, and exactly when it widens or narrows it, in numbers; and it never leads away from the wanted distance except, and exactly, when a gap closes fast that is not too near |
| Snake.WhoActs | final-project/src/snake.c:298-353 | both sides act in a crowded row, at a gap that closes fast and at one of 630 mm; otherwise those behind, unless only those in front can all take the change |
| Snake.PlanQueues | final-project/src/snake.c:177-237 | exactly what a decision leaves queued for each train |
| Snake.ChangeMade | final-project/src/snake.c:143-175 | a queued change is made exactly outside a grace period, which then ends when the estimated time is over but within 300 ticks |
| Snake.GapMeasured | final-project/src/snake.c:87-105 | the gap is the distance between the heads less a train's length, and less 120 mm for one that runs backwards, not below 0 |
| Snake.JoinsAtMedium | final-project/src/snake.c:437-473 | a train that joins is the last of the row, at speed 9, turned around exactly if need be |
| Snake.WidenedAlthoughWide | final-project/src/snake.c:298-353 | a gap within its margins and one too wide that are both widened |
| Snake.ChangeAtOnce | final-project/src/snake.c:214-237 | what the train right behind the gap does at once, and exactly when that is the opposite of the decision |
| Snake.Controller.AdjustTrains | final-project/src/snake.c:298-353 | does what is decided |
| Snake.Controller.FirstActivation | final-project/src/snake.c:443-473 | a queued change is made, then the next train joins and is started; the invariant holds |
| Snake.Controller.SecondActivation | final-project/src/snake.c:474-487 | and after a gap was measured and adjusted |
| Snake.Controller.TimerEnd | final-project/src/snake.c:490-498 | the train's grace period is over, and the timer runs again while another is pending |
| Snake.Controller.Handle | final-project/src/snake.c:437-503 | every event has the effect of its kind on the trains, the speeds and the history, pick-ups included |
| Snake.Controller.Run | final-project/src/snake.c:437-503 | the invariant holds over every run of sensor and timer events, and exactly the timer events end grace periods |
| Snake.ChangesAreSpacedIff | final-project/src/snake.c:143-175 | over any run, between a speed change of a train and its next one its timer fired exactly when the first was not its start |
| Snake.AdjustmentsAreSpaced | final-project/src/snake.c:143-175 | so between any two adjustments of a train its timer fired |
| Snake.SlowedAfterStart | final-project/src/snake.c:437-487 | a run in which a train is slowed down right after its start |
| Snake.ChangesSupported | final-project/src/snake.c:143-175 | over any run every speed set, starts included, is supported, and every adjustment is one step |

## Left out

- Device registers, the interrupt controller, the UART, context-switch assembly, system-call stubs, stopwatches, the console and the monitor: hardware and display.
- The contents of the track and speed tables: graphs and velocities are arbitrary. A sensor's number is its index and branch numbers are below 256 (`RoutePlan.Numbered`).
- Columns instead of records: the descriptors, clock entries and name entries are modelled with one `seq` a field, so aliasing between fields of one record in memory is not expressed.
- RouteSearch.Search: weighted distances must stay below 65535, the size of the heap's keys (`FitsKeys`); with locked segments the order of prices, existence and soundness of the route are claimed and not that it is the cheapest, because the penalty is added to the plain distance (`RoutePrices.Offer`).
- RoutePlan.PlanConstantRoute: the short-move, stopping and acceleration cases of the planner, the decision point and its delay (track-control/src/routing.c:313-467 and 495-540) are not modelled; the branch stack must hold the paths to the target.
- The meaning of the planner's lock query: its answers are arbitrary.
- TrackServer.StepNoLostWakeUp: FREE_ALL and TRAIN_REGISTER are excluded here; exactly when they lose no wake-up is stated beside it. Segment numbers in messages are in range.
- Kernel.Kernel.Run: the idle task makes no calls (kernel/src/kernel.c:25). Kill, KillAllChildren, IdleStatus and unknown call numbers end a run; so do a Send or an Exit that would misplace blocked senders, and a Create from identifier 32767 on. The branch of the loop for a task found killed when scheduled does not arise without Kill.
- Kernel.Kernel.Send: a Send that would misplace blocked senders is excluded, because no invariant of the lists survives it; what it writes is `Messages.SendMisplacesSenders`.
- Kernel.Kernel.BlockOn: the same.
- Kernel.Kernel.Exit: an exit with senders blocked on the task is excluded; they would stay blocked on nobody's list (`Messages.TaskLeavesIff`).
- Kernel.Kernel.Create: from identifier 32767 on the source drops the new task without giving its descriptor back; runs end before.
- Kernel.Kernel.Interrupt: which interrupt fires, and re-arming the timer (kernel/src/interrupts.c:54-63), are outside.
- User memory: what the kernel writes to it is recorded as a list of copies; the bytes are not modelled.
- Marklin.RunBalances: a byte beyond 256 queued, and a task beyond 32 waiting, are dropped by the source; the statement is about those accepted.
- Clock.RunConserves: a request beyond 256 waiting is dropped by the source and never answered.
- NameServer.Server.Run: names of 256 characters and more, and the assertion for a 257th name, are excluded.
- Snake.Controller.Run: trains in the row are different ones; the velocity estimates and the sensor queue (final-project/src/sensor-queue.c) are parameters, and the 32-bit overflow of the trend comparison is not modelled.
- `deque_move` and `deque_end` (src/deque.c:27-41 and 87-89), the command parser above numbers, the game server, the user server, position tracking, train notifiers and the second sensor queue: glue, or the same proofs again.
