# ServerCore in Dafny

A model of the hard parts of ServerCore, with proofs: dungeon generation and path search, the lock-free queue, the job
scheduler, sessions over a completion ring with provided buffers, the HTTP router, the WebSocket codec, the send buffer
pool, the matchmaker and the packet framing of the game server. `dafny verify dfyconfig.toml` checks the project.

- `Grid`, `Passage`, `Regions`, `RoomGraph`, `ClosestRooms`, `Dungeon`, `AStar`: from any grid, of any width and height,
  `ProcessMap` leaves one connected floor, and A* finds shortest paths on it. Costs are whole numbers.
- `MpscQueue`, `JobQueue`: machines whose steps are the atomic accesses or locked regions, with any number of threads
  interleaved under sequential consistency. Theorems speak of every state of every run.
- `SessionSpec`, `SessionWorld`, `Sessions`: a session's handlers as functions of its state, many sessions against a
  kernel that completes what it likes when it likes, and the objects that refine those functions. Callbacks are the
  calls they make on their session; calls on other sessions and tasks posted to the ring are steps of their own.
  Completions of one session are dispatched in order, those of different sessions in any order. A session is started
  once and called only after that, on the ring thread; a receive that runs out of buffers ends its multishot; sendmsg
  sends everything or fails; the shutdown gets its submission entry, except in the `ForcedRelease` lemmas.
- `Paths`, `RadixTree`, `Router`: the tree of routes against a prioritised list of routes.
- `WsFrames`, `WsStreams`, `WsParser`: the incremental parser for sections 5.2 to 5.4 of RFC 6455, as lenient as the
  code about reserved bits, length forms and masking, and the frame builder.
- `BufferPool`: chunks, reference counts and deferred reclamation; an allocation or a last release is one step, and the
  try-lock may fail at any time.
- `Matchmaker`, `Packets`: greedy grouping, and length-prefixed packets over a sliding buffer.
- `Options`, `Division`, `Bytes`: small shared definitions. Bit masks and shifts on bytes are division and remainder.

Where the code does not do what a reader would expect, the model follows the code and a lemma says exactly when:
`MpscQueue.FailureHonestIff`, `SessionSpec.ForcedReleaseSafeIff`, `Sessions.FillCompleteIff`, `Router.OwnNamesIff`,
`Router.WildcardValue`, `Router.LiteralMatchesItself` (the comment at src/web/RadixTree.cpp:50 calls a path with a trailing
slash distinct, but inserting drops that slash), `WsStreams.DeliveredAtOnceIff`, `WsStreams.BuiltReadBackIff`,
`BufferPool.ReclaimedIff`, `BufferPool.AllocateKeepsInvIff`, `Matchmaker.LoneTicketIff`, `Packets.RecoveredIff`.

What the main operations compute is also stated apart from the functions that they are proved against: distances in
coordinates, masking bit by bit, the outcome of each completion as a condition, the order of the global queue over
whole runs, thresholds and limits as numbers, and for a round of matching a proof that it has only one outcome.

## Model

| member | source | states |
|---|---|---|
| `Dungeon.DungeonGenerator.ProcessMap` | examples/GameServer/src/game/dungeon_generator.cpp:131-177 | From any grid of any size the floor ends as one 4-connected piece, and it is exactly the floor that the two pruning passes keep plus one passage for each link made; the rooms are exactly the components of at least 20 cells, each once, with exactly their tiles beside a wall as edge tiles, in descending size, all accessible, the first one main; flags are exact; with two or more rooms each has a link, and its first link leads to a room at the least squared Euclidean distance between edge tiles, one way or the other |
| `Dungeon.DungeonGenerator.GetRegionTiles` | examples/GameServer/src/game/dungeon_generator.cpp:339-365 | The flood fill returns exactly the 4-connected component of its start cell, every cell once, the start first |
| `Dungeon.DungeonGenerator.GetRegions` | examples/GameServer/src/game/dungeon_generator.cpp:322-337 | The regions are the components of one tile type: pairwise disjoint, and together all cells of the type |
| `Dungeon.DungeonGenerator.VisitNeighbours` | examples/GameServer/src/game/dungeon_generator.cpp:353-362 | Exactly the unvisited 4-neighbours of the tile's type are flagged and queued, none twice |
| `Dungeon.DungeonGenerator.PruneWallRegions` | examples/GameServer/src/game/dungeon_generator.cpp:132-138 | Exactly the wall components of fewer than 15 cells become floor |
| `Dungeon.DungeonGenerator.CollectRooms` | examples/GameServer/src/game/dungeon_generator.cpp:140-166 | Floor components of fewer than 20 cells become wall, each of the others becomes one room with its edge tiles; what is left is exactly the large components, and with two or more rooms each has an edge tile |
| `Regions.OtherRoomGivesEdge` | examples/GameServer/src/game/dungeon_generator.cpp:152-163 | A room that shares the map with another room has an edge tile |
| `Regions.EdgesUnmoved` | examples/GameServer/src/game/dungeon_generator.cpp:143-163 | Turning small regions into wall while rooms are collected does not change which cells lie beside a wall |
| `Dungeon.SortBySize` | examples/GameServer/src/game/dungeon_generator.cpp:170-171 | The rooms come out in descending size and are the same rooms |
| `Regions.ApartPermuted` | examples/GameServer/src/game/dungeon_generator.cpp:170-171 | Sorting keeps every region in one room only |
| `Dungeon.DungeonGenerator.SetAccessible` | examples/GameServer/src/game/dungeon_generator.cpp:257-263 | The recursive marking ends; a room is flagged afterwards exactly if it was before or is reached from the start through unflagged rooms; nothing else changes |
| `Dungeon.DungeonGenerator.LinkRooms` | examples/GameServer/src/game/dungeon_generator.cpp:254-268 | Adds the link both ways and keeps a room's flag set exactly when the main room reaches it |
| `RoomGraph.LinkKeepsFlagsExact` | examples/GameServer/src/game/dungeon_generator.cpp:265-268 | Marking from the new end of a link whose other end is accessible keeps the flags exact |
| `RoomGraph.FarLinkKeepsFlagsExact` | examples/GameServer/src/game/dungeon_generator.cpp:265-268 | A link between two rooms that are both out of reach needs no marking |
| `Dungeon.DungeonGenerator.CreatePassage` | examples/GameServer/src/game/dungeon_generator.cpp:253-273 | Keeps flags exact and every room connected floor, joins linked rooms by floor, and adds exactly the discs along the line |
| `RoomGraph.AllReachedFloorConnected` | examples/GameServer/src/game/dungeon_generator.cpp:244-250 | If the main room reaches every room in the graph then the floor is one piece |
| `Dungeon.DungeonGenerator.DrawCircle` | examples/GameServer/src/game/dungeon_generator.cpp:275-286 | Exactly the in-range cells of the disc become floor |
| `Passage.GetLine` | examples/GameServer/src/game/dungeon_generator.cpp:288-320 | The accumulator loop yields the closed-form line: as many cells as king moves between the ends |
| `Passage.LineKingStep` | examples/GameServer/src/game/dungeon_generator.cpp:309-318 | Consecutive cells of the line are one king move apart |
| `Passage.LineEnd` | examples/GameServer/src/game/dungeon_generator.cpp:309-318 | The line stops exactly one move short of its target |
| `Passage.PassageJoins` | examples/GameServer/src/game/dungeon_generator.cpp:270-286 | Discs of radius 1 along the line join its two ends by 4-connected floor, diagonals included |
| `Passage.CarvedCellJoined` | examples/GameServer/src/game/dungeon_generator.cpp:270-286 | Every cell drawn for a passage is joined to its first tile |
| `Dungeon.GrowsByLink` | examples/GameServer/src/game/dungeon_generator.cpp:253-273 | Each link adds its own passage to the floor and itself to both rooms, and undoes no earlier one |
| `Dungeon.DungeonGenerator.ScanPair` | examples/GameServer/src/game/dungeon_generator.cpp:220-237 | The best candidate is a real pair of edge tiles or the old candidate; a new one is no farther apart, in coordinates, than any pair of edge tiles of the two rooms, and no farther than the old one |
| `Dungeon.DungeonGenerator.ScanRoom` | examples/GameServer/src/game/dungeon_generator.cpp:210-238 | The best candidate beats every pair of edge tiles with every other room not yet linked |
| `Dungeon.DungeonGenerator.LinkToClosest` | examples/GameServer/src/game/dungeon_generator.cpp:200-242 | One room is linked, by a single passage, across a pair of edge tiles that no edge tiles of it and any other room are closer than, in coordinates |
| `Dungeon.DungeonGenerator.LinkEachToClosest` | examples/GameServer/src/game/dungeon_generator.cpp:189-242 | Each room that has no link yet is linked to its closest room; with two or more rooms none stays without a link; exactly the passages of the links made are carved |
| `ClosestRooms.FirstLinksStep` | examples/GameServer/src/game/dungeon_generator.cpp:201-242 | Every room's first link stays a closest one while further passages are made |
| `ClosestRooms.ClosestIsNearest` | examples/GameServer/src/game/dungeon_generator.cpp:224-229 | What the loops call closest is the least of dx*dx + dy*dy over all edge tiles of the room and of all others |
| `Dungeon.DungeonGenerator.ClosestToAccessible` | examples/GameServer/src/game/dungeon_generator.cpp:182-188 | Finds a pair of edge tiles across the flag boundary, and in coordinates no such pair is closer; there is none only if every room is accessible |
| `Dungeon.DungeonGenerator.JoinClosest` | examples/GameServer/src/game/dungeon_generator.cpp:244-247 | One forced round links, by a single passage, the closest room out of reach to one in reach, and fewer rooms are out of reach; or all rooms are accessible and nothing changes |
| `Dungeon.DungeonGenerator.ConnectClosestRooms` | examples/GameServer/src/game/dungeon_generator.cpp:179-251 | Terminates with every room accessible, flags exact after every passage, links only added, and exactly the passages of the links made are carved |
| `AStar.AStarSearch` | examples/GameServer/src/game/bot_manager.cpp:40-101 | Terminates; for an in-range start and a different floor goal it returns a 4-adjacent floor path of minimum length, or an empty one exactly when the goal is unreachable; empty in the other cases |
| `AStar.SearchProcessed` | examples/GameServer/src/game/bot_manager.cpp:40-101 | On a processed dungeon a search between two different floor cells always returns a path |
| `AStar.Search` | examples/GameServer/src/game/bot_manager.cpp:52-90 | When the loop ends, by the goal or by an empty queue, the goal's cost is minimal or the goal is unreachable, stale entries included |
| `AStar.Expand` | examples/GameServer/src/game/bot_manager.cpp:77-89 | After the four directions every floor neighbour costs at most one more than the cell, whose own cost is unchanged |
| `AStar.Offer` | examples/GameServer/src/game/bot_manager.cpp:78-88 | A cheaper cost is stored with its parent and queued; the search invariant is kept |
| `AStar.EstimateAdmissible` | examples/GameServer/src/game/bot_manager.cpp:65-86 | The Manhattan estimate never exceeds the length of what is left of any path |
| `AStar.TrailFrontier` | examples/GameServer/src/game/bot_manager.cpp:70-90 | Along any path either the costs are already right or an entry with a small enough estimate is queued |
| `AStar.GoalCostMinimal` | examples/GameServer/src/game/bot_manager.cpp:73 | Stopping when the goal is taken from the queue gives a cost no larger than any path |
| `AStar.WalkBack` | examples/GameServer/src/game/bot_manager.cpp:94-100 | Following the parents ends at the start, never at the missing parent, and reversed gives a path no longer than the goal's cost, of exactly that length once the cost is minimal |
| `MpscQueue.StepKeepsInv` | include/servercore/MpscQueue.h:65-109 | Every atomic step of any producer or of the consumer keeps the chain invariant |
| `MpscQueue.RunInv` | include/servercore/MpscQueue.h:65-109 | Every state of every interleaving has a chain from consume_end to produce_end with the invariant |
| `MpscQueue.PoppedInExchangeOrder` | include/servercore/MpscQueue.h:65-109 | In every run the popped values are a prefix of the pushed ones in the order of the exchanges |
| `MpscQueue.ItemsConserved` | include/servercore/MpscQueue.h:65-109 | In every run pushed equals popped plus the one in hand plus those chained, and exactly the stub, the chained and the held nodes are allocated |
| `MpscQueue.NoUseAfterFree` | include/servercore/MpscQueue.h:65-109 | No step of any run reads or writes a node that is not allocated, although addresses may be reused |
| `MpscQueue.StubRecycledOnce` | include/servercore/MpscQueue.h:90-92 | In every run the stub occurs at most once in the chain, and is re-pushed only while it is not in it |
| `MpscQueue.FailsOnlyEmptyOrOverlapped` | include/servercore/MpscQueue.h:70-104 | In every run TryPop fails only if the queue is empty or a push was under way at some moment of the call |
| `MpscQueue.FailureHonestIff` | include/servercore/MpscQueue.h:87-104 | In every run, when TryPop fails with no push between exchange and link, the queue is empty if and only if it is not the load of produce_end that fails |
| `MpscQueue.FailsBetweenPushes` | include/servercore/MpscQueue.h:75-88 | A concrete run in which TryPop fails on a non-empty queue with no push under way at that step |
| `MpscQueue.TryPopWaitFree` | include/servercore/MpscQueue.h:65-104 | Every call ends after at most twelve of its own steps, whatever the producers do |
| `MpscQueue.TryPopAlone` | include/servercore/MpscQueue.h:65-104 | With no push under way a call fails exactly on an empty queue and otherwise pops the oldest item |
| `MpscQueue.DrainAlone` | include/servercore/MpscQueue.h:54-62 | With no push under way Drain ends, has handed over every item in order, and leaves only the stub allocated |
| `JobQueue.StepKeepsInv` | src/job/JobQueue.cpp:10-66 | Every atomic or locked region of Push, Execute and the global queue keeps the invariant: one token, exact counters, jobs in order, and a global queue that is what was registered minus what was taken, in order |
| `JobQueue.OneToken` | src/job/JobQueue.cpp:10-66 | In every run the counter is positive exactly when one token exists, held by one pusher that saw 0, one global entry or one worker |
| `JobQueue.ExecuteIsExclusive` | src/job/JobQueue.cpp:24-66 | No two workers are ever inside Execute of the same queue |
| `JobQueue.NoQueueForgotten` | src/job/GlobalQueue.cpp:5-17 | A queue with jobs always has a holder or a global entry |
| `JobQueue.FirstInFirstOut` | src/job/GlobalQueue.cpp:5-17 | In every run what workers took from the global queue and then what waits in it is what was registered, in order |
| `JobQueue.NoOvertaking` | src/job/GlobalQueue.cpp:5-17 | In every run the queue with n others ahead of it is handed out by the pop after n more, whatever is registered meanwhile, and waits in its place until then |
| `JobQueue.PopTakesOldest` | src/job/GlobalQueue.cpp:10-17 | A worker enters the queue registered longest ago among those not taken yet |
| `JobQueue.DeadlineDecides` | src/job/JobQueue.cpp:35-63 | In a batch a worker can only run the next job until the deadline has passed or the batch is used up, then only put the rest back in front of newer jobs; with jobs left it goes round again before the deadline and past it leaves with its queue last in the global queue |
| `JobQueue.OthersLeaveThreadAlone` | src/job/JobQueue.cpp:24-66 | What a worker has seen of the deadline stands until its own next step |
| `JobQueue.JobsRunInOrder` | src/job/JobQueue.cpp:24-47 | In every run executed, then the rest of the batch, then the stored jobs are the push_backs in order, across yields and front re-insertion |
| `JobQueue.CounterExact` | src/job/JobQueue.cpp:10-66 | The counter is stored jobs plus batch jobs not yet subtracted plus pushes between increment and push_back |
| `JobQueue.QuietMeansAllRan` | src/job/JobQueue.cpp:10-66 | When no thread is in a call and the global queue is empty every job has run, in order, and the counter is 0 |
| `SessionWorld.PendingIoExact` | src/io/Session.cpp:19-235 | In every run of many sessions against an adversarial kernel pending_io_ is the number of operations in flight, self_ref_ is held while there is one, OnDisconnected fires at most once and only when none is left, a disconnecting session with none has been released, and a started one that is not disconnecting has its receive in flight |
| `SessionWorld.NoCompletionDropped` | src/ring/IoRing.cpp:107-135 | A session with operations or completions outstanding has not been destroyed, so no completion meets a dead owner |
| `SessionWorld.HeldThroughBatch` | src/ring/IoRing.cpp:107-137 | In every run a session whose completion was dispatched is not destroyed before the batch ends |
| `SessionWorld.BuffersPartitioned` | src/io/Session.cpp:83-95 | In every run a buffer id is in the ring or carried by exactly one undispatched completion, never both |
| `SessionWorld.BufferLifeClean` | src/ring/RingBuffer.cpp:91-114 | At no point of any history is a buffer returned twice, seen twice, or seen while free |
| `SessionWorld.SendsInOrder` | src/io/Session.cpp:31-46 | While a session is not disconnecting completed, in flight and pending sends are the accepted ones in order, one sendmsg is in flight exactly when the queue is registered, and pending stays within its limit |
| `SessionWorld.StepKeepsInv` | src/ring/IoRing.cpp:91-138 | Every start, call, completion, dispatch, end of batch and destruction keeps the invariant of sessions and buffers |
| `SessionWorld.DispatchKeepsInv` | src/ring/IoRing.cpp:124-131 | Dispatching keeps the invariant, and the owner is alive |
| `SessionSpec.CallsKeepCore` | src/io/Session.cpp:31-70 | Whatever a callback calls, in any order and nested in overflow callbacks, keeps counters, sends and ownership consistent |
| `SessionSpec.CallsAfterDisconnect` | src/io/Session.cpp:165-177 | Calls on a disconnecting session, such as those of its release callbacks, change nothing |
| `SessionSpec.StartKeepsOk` | src/io/Session.cpp:19-29 | Start leaves a session that receives or is going down |
| `SessionSpec.OnRecvKeepsOk` | src/io/Session.cpp:74-128 | A receive completion of any kind keeps the invariant |
| `SessionSpec.OnSendKeepsOk` | src/io/Session.cpp:130-155 | A send completion keeps order, registration and counters |
| `SessionSpec.OnDisconnectKeepsOk` | src/io/Session.cpp:157-177 | A shutdown completion releases the session exactly when it was the last operation |
| `SessionSpec.ErrorsDisconnect` | src/io/Session.cpp:105-147 | A closed peer, a failed receive or a failed send takes the session down |
| `SessionSpec.OnRecvOutcome` | src/io/Session.cpp:74-128 | After a receive completion the session is going down if and only if the callback took it down, the peer closed or the receive failed other than by lack of buffers, or the receive ended and no submission entry was left; otherwise it is as the callback left it, with one receive in flight |
| `SessionSpec.OnSendOutcome` | src/io/Session.cpp:130-155 | After a send completion the session is going down if and only if the send failed or buffers are queued and no entry was left; otherwise the batch counts as sent and exactly the queued buffers are the next batch |
| `SessionSpec.StartOutcome` | src/io/Session.cpp:19-29 | After Start the session is going down if and only if a callback took it down or no entry was left; otherwise one receive is in flight |
| `SessionSpec.SendCallLeadsTo` | src/io/Session.cpp:31-46 | After Send the session is going down if and only if the queue was full or the buffer was the first and no entry was left; the buffer is accepted exactly if the queue was not full, whatever the overflow callback does; it goes out at once if nothing is being sent, else it waits last |
| `SessionSpec.GoingDownOutcome` | src/io/Session.cpp:97-177 | A session that is going down is released exactly by the completion that leaves nothing in flight, and takes on nothing new |
| `SessionSpec.CallsInTurn` | src/io/Session.cpp:31-70 | The calls of a callback take effect one after the other, and a Disconnect among them takes the session down |
| `SessionSpec.ForcedReleaseSafeIff` | src/io/Session.cpp:55-60 | The release without a submission entry keeps the count exact and the owner alive if and only if pending_io_ was 0 |
| `SessionSpec.ForcedReleaseNeverSafe` | src/io/Session.cpp:55-60 | Between handlers it never is, because the receive is in flight |
| `SessionSpec.ForcedReleaseTwice` | src/io/Session.cpp:55-60 | The end of that receive then releases the session a second time |
| `SessionSpec.ForcedReleaseExample` | src/io/Session.cpp:55-60 | A started session has its receive in flight, so there the forced release leaves it ownerless |
| `Sessions.Session.Start` | src/io/Session.cpp:19-29 | Establishes the session invariant; the session is going down if and only if a callback took it down or no entry was left, and otherwise receives |
| `Sessions.Session.Send` | src/io/Session.cpp:31-46 | Keeps counters, order and ownership, overflow callback included; succeeds exactly when not disconnecting and below the limit, and then and only then the buffer is accepted; the outcome is that of SendCallLeadsTo |
| `Sessions.Session.RunCalls` | src/io/Session.cpp:31-70 | Whatever calls a callback makes, counters, order and ownership are kept |
| `Sessions.Session.Disconnect` | src/io/Session.cpp:48-70 | With a submission entry keeps counters and ownership exact; a second call does nothing; without one the new state is that of SessionSpec.Disconnect |
| `Sessions.Session.OnRecv` | src/io/Session.cpp:74-128 | Consumes its completion and keeps the session invariant, with the outcome of OnRecvOutcome; data is shown exactly when there is some and the session is not disconnecting, while the kernel cannot fill the buffer; the buffer goes back once, in every case, after that |
| `Sessions.Session.OnSend` | src/io/Session.cpp:130-155 | Consumes its completion and keeps the session invariant, with the outcome of OnSendOutcome: what was queued meanwhile is sent next, or the queue is unregistered |
| `Sessions.Session.OnDisconnect` | src/io/Session.cpp:157-161 | Consumes its completion and keeps the session invariant; the session is released exactly if nothing is left in flight |
| `Sessions.Session.TryRelease` | src/io/Session.cpp:165-177 | A session that is going down and not released yet is released if and only if nothing is in flight, and the invariant holds |
| `Sessions.Session.RegisterRecv` | src/io/Session.cpp:185-195 | A receive is counted exactly when it was submitted; without an entry the session goes down; the invariant holds either way |
| `Sessions.Session.RegisterSend` | src/io/Session.cpp:197-204 | Everything pending is drained into one batch, with the counters exact afterwards |
| `Sessions.Session.SendBatch` | src/io/Session.cpp:206-235 | A batch is in flight and counted exactly when it was submitted; without an entry the session goes down; counters and order hold either way |
| `Sessions.SendQueue.Push` | include/servercore/buffer/SendQueue.h:24-34 | Overflow leaves the queue alone; otherwise the buffer goes to the end and the first push since MarkSent asks for registration |
| `Sessions.SendQueue.Drain` | include/servercore/buffer/SendQueue.h:37-42 | Hands over everything pending, in order |
| `Sessions.SendQueue.MarkSent` | include/servercore/buffer/SendQueue.h:45-49 | Clears the registration exactly when nothing is pending |
| `Sessions.RingBuffer.Create` | src/ring/RingBuffer.cpp:24-67 | Succeeds exactly for powers of two that register; the fill loop adds the ids below the count cut to sixteen bits, once each |
| `Sessions.FillCompleteIff` | src/ring/RingBuffer.cpp:59-63 | The fill gives the kernel every id if and only if the count fits in sixteen bits |
| `Sessions.ViewsDisjoint` | src/ring/RingBuffer.cpp:87-99 | Views of different buffers never overlap |
| `Sessions.Log2Exact` | src/ring/RingBuffer.cpp:14-20 | Shifting by the logarithm is multiplying by the size, exactly for powers of two |
| `Sessions.RingBuffer.ViewOf` | src/ring/RingBuffer.cpp:91-99 | The view starts at its buffer, holds all bytes asked for unless the buffer is smaller, stays inside the buffer and the data area, and is empty for an id out of range |
| `Sessions.RingBuffer.Return` | src/ring/RingBuffer.cpp:101-114 | An id in range is added once; others are ignored |
| `Paths.SplitPath` | src/web/RadixTree.cpp:13-31 | Returns the segments of a route path |
| `Paths.SplitPathView` | src/web/RadixTree.cpp:33-56 | Returns the segments of a request path, with one empty segment more for a trailing slash |
| `Paths.RunsMaximal` | src/web/RadixTree.cpp:13-31 | Segments are maximal runs without a slash |
| `Paths.RunsInOrder` | src/web/RadixTree.cpp:13-31 | Segments come in the order of the path |
| `Paths.RunsCover` | src/web/RadixTree.cpp:13-31 | Every character that is not a slash is in a segment |
| `Router.Router.Insert` | src/web/RadixTree.cpp:58-113 | The tree stays the tree of the list of inserted routes |
| `Router.Router.InsertSegments` | src/web/RadixTree.cpp:69-113 | The recursion over nodes, with its search for a child, computes the inserted tree |
| `RadixTree.InsertThenLookup` | src/web/RadixTree.cpp:69-113 | Inserting changes the handler of the route's shape and method and of nothing else |
| `RadixTree.InsertThenName` | src/web/RadixTree.cpp:79-97 | A parameter keeps the name of the first route through it; a new one takes the route's |
| `RadixTree.TreeLookup` | src/web/RadixTree.cpp:58-113 | The handler stored for a shape and method is that of the latest such route |
| `RadixTree.TreeName` | src/web/RadixTree.cpp:58-113 | The name stored at a position is that of the earliest route through it |
| `Router.Router.Match` | src/web/RadixTree.cpp:115-134 | Returns the outcome defined by the search of the tree |
| `Router.Router.MatchNode` | src/web/RadixTree.cpp:136-194 | The backtracking with pushed and popped parameters yields exactly that outcome |
| `RadixTree.FindBest` | src/web/RadixTree.cpp:157-193 | No matching shape with a handler goes before the one that the search finds |
| `RadixTree.ShapeAt` | src/web/RadixTree.cpp:79-113 | A star with a name is a wildcard and ends the route, a colon with a name is a parameter, anything else is literal |
| `RadixTree.MatchesIff` | src/web/RadixTree.cpp:136-194 | A route matches if and only if its literals are the request's segments in their places and the number of segments is the same, or at least that with a wildcard at the end |
| `RadixTree.BeforeIff` | src/web/RadixTree.cpp:157-176 | Which of two routes goes first is decided where they first differ: a literal before the rest, a parameter before a wildcard |
| `Router.HandlerOfBestRoute` | src/web/RadixTree.cpp:115-194 | For any sequence of inserts the handler is that of the matching route for the method that is first under static before parameter before wildcard, the latest of equal shapes; params are its captures under the stored names |
| `Router.BestUnique` | src/web/RadixTree.cpp:115-194 | There is only one such route |
| `Router.BestIsMoreLiteral` | src/web/RadixTree.cpp:157-176 | Where another matching route first differs from the one found, the one found is literal and the other is not, or has a parameter and the other a wildcard |
| `Router.ParamOfBestRoute` | src/web/RadixTree.cpp:168-189 | There is one param for each parameter and wildcard of the route found, in order, with the stored name; a parameter has its segment, a wildcard the rest of the path, which is empty at a trailing slash |
| `Router.HandlerIff` | src/web/RadixTree.cpp:115-194 | There is a handler exactly when some route for the method matches; without one params is empty |
| `Router.PathExistsIff` | src/web/RadixTree.cpp:139-192 | path_exists holds exactly when some route of any method matches |
| `Router.OwnNamesIff` | src/web/RadixTree.cpp:90-94 | The params carry the matched route's own names if and only if the first routes through its parameters use the same names |
| `Router.NamesClash` | src/web/RadixTree.cpp:90-94 | Two routes for which they do not: a POST request is bound to the name in the GET route |
| `Router.WildcardValue` | src/web/RadixTree.cpp:175-182 | Without a trailing slash a wildcard captures the rest of the path; its value is no piece of the path if and only if the path has a trailing slash and a named segment is left; at the slash itself it is empty |
| `Router.LiteralMatchesItself` | src/web/RadixTree.cpp:50-53 | A literal route matches its own path if and only if the path has no trailing slash |
| `WsFrames.ChunkingIndependent` | src/web/ws/WsFrameParser.cpp:30-151 | However a byte stream is cut, feeding the pieces emits the same messages in the same order and the same error flag as feeding it at once |
| `WsFrames.AnyChunking` | src/web/ws/WsFrameParser.cpp:30-151 | The same from any state between calls; without an error also the same parser state and leftover bytes |
| `WsFrames.DriveSplit` | src/web/ws/WsFrameParser.cpp:48-151 | Parsing two pieces in turn is parsing their concatenation, wherever the cut falls |
| `WsFrames.PayloadInTwo` | src/web/ws/WsFrameParser.cpp:131-147 | Payload bytes may arrive in one piece or in two |
| `WsFrames.UnmaskedTwice` | src/web/ws/WsFrameParser.cpp:23-28 | Unmasking undoes masking |
| `WsFrames.UnmaskedBitwise` | src/web/ws/WsFrameParser.cpp:23-28 | Every bit of every unmasked byte is the wire's, flipped exactly where the key byte of its position modulo four has a one |
| `WsFrames.FlippedByOne` | src/web/ws/WsFrameParser.cpp:23-28 | Those flips leave only one payload |
| `Bytes.XorBitwise` | src/web/ws/WsFrameParser.cpp:26 | A bit of an exclusive or differs from the first operand's exactly where the second operand has a one |
| `WsStreams.MaskedFrameParsed` | src/web/ws/WsFrameParser.cpp:23-147 | Whatever the key and the masked bytes on the wire, a masked frame is delivered with the payload that those flips give |
| `WsStreams.UnmaskMasked` | src/web/ws/WsFrameParser.cpp:23-28 | Unmasking undoes the masking of a sender who walks round the key byte by byte |
| `WsStreams.FrameParsed` | src/web/ws/WsFrameParser.cpp:55-147 | A frame, masked or not, in any of the three length forms and with any reserved bits, is delivered with its payload recovered, in front of anything |
| `WsStreams.StreamParsed` | src/web/ws/WsFrameParser.cpp:48-183 | A stream of frames in front of anything yields the messages and the error flag that the frames mean |
| `WsStreams.DeliveredAtOnceIff` | src/web/ws/WsFrameParser.cpp:53-99 | A frame is delivered by its own last byte if and only if it is not an unmasked empty frame with an extended length; the next byte delivers that one too |
| `WsStreams.OversizeRejected` | src/web/ws/WsFrameParser.cpp:100-111 | A 64-bit length above 16 MiB is an error, whatever follows |
| `WsStreams.BuildRoundTrip` | src/web/HttpSession.cpp:176-212 | Parsing a concatenation of the bytes that BuildWsFrame writes gives back exactly the opcodes and payloads, in all length encodings |
| `WsStreams.BuiltIsEncoded` | src/web/HttpSession.cpp:176-212 | Those bytes are the encoding of a final, unmasked frame in the shortest length form |
| `WsStreams.BuildRoundTripChunked` | src/web/HttpSession.cpp:176-212 | The same in whatever pieces the bytes arrive |
| `WsStreams.BuiltReadBackIff` | src/web/HttpSession.cpp:176-212 | A built frame is read back if and only if its payload is at most 16 MiB |
| `WsStreams.FragmentedMessage` | src/web/ws/WsFrameParser.cpp:153-183 | The bytes of a fragmented message, in front of anything, are parsed to the interleaved control frames in place and then the joined payload under the first opcode |
| `WsStreams.StrayContinuation` | src/web/ws/WsFrameParser.cpp:168-172 | A continuation with no message in progress is an error, and nothing is delivered then or later |
| `WsParser.WsFrameParser.Feed` | src/web/ws/WsFrameParser.cpp:30-46 | Emits exactly the messages of the specified run over the leftover and the new bytes; takes all input unless an error occurred before |
| `WsParser.WsFrameParser.ParseBuffer` | src/web/ws/WsFrameParser.cpp:48-151 | The loop computes the specified run and leaves the unconsumed bytes |
| `WsParser.WsFrameParser.ParseTurn` | src/web/ws/WsFrameParser.cpp:54-148 | Each state's branch computes the specified turn |
| `WsParser.WsFrameParser.Unmask` | src/web/ws/WsFrameParser.cpp:23-28 | The in-place loop flips every bit of the payload where the key, repeated every four bytes, has a one, and leaves an unmasked payload alone |
| `WsParser.WsFrameParser.ProcessFrame` | src/web/ws/WsFrameParser.cpp:153-183 | Emits, collects or fails as the meaning of a complete frame says |
| `WsParser.BuildWsFrame` | src/web/HttpSession.cpp:176-212 | The bytes written are the specified frame, as long as header and payload fit in 32 bits |
| `BufferPool.BuffersSafe` | include/servercore/buffer/SendBuffer.h:60-75 | In every run live buffers lie inside chunks in use and no two share a byte |
| `BufferPool.CountsExact` | include/servercore/buffer/SendBuffer.h:98-183 | In every run a reference count is the number of live buffers, at most eight chunks are free, active plus free stay within max_chunks_ |
| `BufferPool.LiveChunkKept` | include/servercore/buffer/SendBuffer.h:146-156 | In every run no step resets a chunk that has a live buffer |
| `BufferPool.StepKeepsInv` | include/servercore/buffer/SendBuffer.h:106-183 | Allocation and release, with or without the lock, keep the invariant |
| `BufferPool.FlushReclaims` | include/servercore/buffer/SendBuffer.h:140-144 | After a flush exactly the waiting chunks are out of use |
| `BufferPool.ReclaimedIff` | include/servercore/buffer/SendBuffer.h:178-183 | A release takes the chunk out of use if and only if the buffer was its last, the chunk is full and the lock is free; without the lock it waits |
| `BufferPool.ReclaimedGoesFree` | include/servercore/buffer/SendBuffer.h:146-156 | A chunk taken out of use is emptied and put on the free list, as long as fewer than eight are there |
| `BufferPool.AllocatedWhere` | include/servercore/buffer/SendBuffer.h:106-167 | A buffer goes behind what the last active chunk holds, if that has room; else to the start of the chunk freed last; else, only when none is free, to the start of a new one |
| `BufferPool.AllocateSucceedsIff` | include/servercore/buffer/SendBuffer.h:106-126 | Allocation succeeds if and only if the last active chunk has room or another chunk can be had and is large enough |
| `BufferPool.OversizeUsesChunk` | include/servercore/buffer/SendBuffer.h:116-125 | A request larger than a chunk fails and uses up a chunk |
| `BufferPool.Stranded` | include/servercore/buffer/SendBuffer.h:110-119 | Runs after which nothing is live and still a request that fits a chunk fails |
| `BufferPool.RoomTestExactIff` | include/servercore/buffer/SendBuffer.h:60-62 | The 32-bit room test gives the right answer if and only if the sum does not wrap |
| `BufferPool.AllocateKeepsInvIff` | include/servercore/buffer/SendBuffer.h:60-75 | An allocation keeps the pool consistent if and only if offset plus size of the chunk it tries fits in 32 bits |
| `BufferPool.RoomTestWraps` | include/servercore/buffer/SendBuffer.h:60-62 | An input on which it wraps |
| `BufferPool.SendBufferPool.Allocate` | include/servercore/buffer/SendBuffer.h:106-126 | Keeps the invariant and computes the specified pool; a buffer returned is new and of the requested size |
| `BufferPool.SendBufferPool.Open` | include/servercore/buffer/SendBuffer.h:60-75 | Hands out the next bytes of the chunk and counts the buffer, exactly when the room test passes |
| `BufferPool.SendBufferPool.MoveToFree` | include/servercore/buffer/SendBuffer.h:146-156 | Takes an active chunk out, resets it and keeps it if there is space among the free ones; other numbers change nothing |
| `BufferPool.SendBufferPool.FlushPendingGc` | include/servercore/buffer/SendBuffer.h:140-144 | The drain loop frees all waiting chunks in order |
| `BufferPool.SendBufferPool.AcquireChunk` | include/servercore/buffer/SendBuffer.h:158-167 | Yields the latest free chunk or a new one, and none exactly when no chunk is free and the limit is reached |
| `BufferPool.SendBufferPool.OnRelease` | include/servercore/buffer/SendBuffer.h:178-183 | Keeps the invariant and computes the specified pool, with or without the lock |
| `Matchmaker.MatchmakerQueue.TryMatch` | src/game/matchmaker/MatchmakerQueue.cpp:72-134 | Each ticket is in exactly one group or kept in order; partners have the leader's handler and both accept each other; a group is never larger than its leader's maximum, except that two are allowed, and never smaller than its minimum; groups are the one outcome of a round (RoundDetermined) |
| `Matchmaker.MatchRound` | src/game/matchmaker/MatchmakerQueue.cpp:91-127 | The two nested loops serve leaders in queue order, give each the earliest partners, and leave over only tickets for which no match could be made when their turn came or can be made with what is left over |
| `Matchmaker.FormGroup` | src/game/matchmaker/MatchmakerQueue.cpp:96-110 | A group is the leader and the earliest free compatible tickets behind it, in order, all of them unless the maximum is reached with at least two |
| `Matchmaker.RoundDetermined` | src/game/matchmaker/MatchmakerQueue.cpp:91-127 | Groups in leader order with the earliest partners, and tickets left over only when turned down: there is exactly one such outcome |
| `Matchmaker.PartnersSuit` | src/game/matchmaker/MatchmakerQueue.cpp:100-109 | Partners share the handler with their leader and both accept each other; a ticket that suits a leader is in its group, in an earlier one, or behind a full one |
| `Matchmaker.WithinBounds` | src/game/matchmaker/MatchmakerQueue.cpp:106-112 | Where 2 <= min_count <= max_count the size of the group lies between them |
| `Matchmaker.BoundsMatter` | src/game/matchmaker/MatchmakerQueue.cpp:106-112 | Tickets that ask for more than they stop collecting at are all left over although the partners are there |
| `Matchmaker.LoneTicketIff` | src/game/matchmaker/MatchmakerQueue.cpp:73 | A lone ticket is rightly left over if and only if it asks for at least two |
| `Matchmaker.MatchmakerQueue.HandleAddTicket` | src/game/matchmaker/MatchmakerQueue.cpp:46-51 | The ticket is added last with a fresh id; ids keep increasing |
| `Matchmaker.MatchmakerQueue.ExpireTimeouts` | src/game/matchmaker/MatchmakerQueue.cpp:136-152 | Kept and expired tickets split the queue by whether the timeout has passed, each in order |
| `Matchmaker.MatchmakerQueue.HandleRemoveTicket` | src/game/matchmaker/MatchmakerQueue.cpp:53-57 | Exactly the tickets with the id are removed |
| `Matchmaker.MatchmakerQueue.HandleRemoveByPlayer` | src/game/matchmaker/MatchmakerQueue.cpp:59-63 | Exactly the player's tickets are removed |
| `Matchmaker.KeptExactly` | src/game/matchmaker/MatchmakerQueue.cpp:129-133 | A ticket is kept exactly when it is not flagged |
| `Matchmaker.KeptIdsIncrease` | src/game/matchmaker/MatchmakerQueue.cpp:129-133 | Removing tickets keeps the ids increasing |
| `Packets.AnyChunking` | examples/GameServer/src/net/packet_session.cpp:4-31 | However a stream is cut into pieces of at most 57345 bytes the same packets are delivered, the connection is closed for the same streams and the buffer never overflows |
| `Packets.NoOverflowIff` | include/servercore/buffer/RecvBuffer.h:27-35 | A piece fits whatever is held if and only if it has at most 57345 bytes |
| `Packets.RestIsShort` | examples/GameServer/src/net/packet_session.cpp:12-30 | Fewer than 8192 bytes are left after a successful call |
| `Packets.ClosesAtOnceIff` | examples/GameServer/src/net/packet_session.cpp:18-22 | With a header at hand the connection is closed without a packet if and only if the size field is below 4 or above 8192 |
| `Packets.BuiltRecovered` | examples/GameServer/src/net/packet_builder.h:16-36 | Any sequence of built packets of at most 8192 bytes each is recovered |
| `Packets.RecoveredIff` | examples/GameServer/src/net/packet_builder.h:16-36 | A built packet is recovered if and only if it has at most 8192 bytes in all |
| `Packets.RecvBuffer.Append` | include/servercore/buffer/RecvBuffer.h:27-35 | Appends to the queue of unread bytes, or fails exactly when they do not fit |
| `Packets.RecvBuffer.Compact` | include/servercore/buffer/RecvBuffer.h:57-64 | Moves the unread bytes to the front unchanged, in place |
| `Packets.RecvBuffer.OnRead` | include/servercore/buffer/RecvBuffer.h:49-55 | Drops bytes from the front of the queue |
| `Packets.RecvBuffer.ReadRegion` | include/servercore/buffer/RecvBuffer.h:41-43 | The unread bytes |
| `Packets.PacketSession.OnRecv` | examples/GameServer/src/net/packet_session.cpp:4-31 | Refines the framing of the stream, overflow and invalid sizes included; what would pass 65536 bytes closes the connection and is not looked at |
| `Packets.BuildPacket` | examples/GameServer/src/net/packet_builder.h:16-36 | The bytes written are the specified header and payload |

## Left out

- io_uring, sockets, mmap, accept and the upstream client: only completions, and whether a submission entry is available, enter the model.
- C++ memory orderings: all steps are sequentially consistent. The 32-bit job counter and 64-bit ticket ids do not overflow.
- The completion of a cancel request: the ring ignores it, so it has no effect on a session.
- Router nodes are values owned by their parent, so update in place and aliasing of nodes are not captured; a handler that is inserted is never an empty function.
- A* keeps its cost and parent tables as sequences rather than arrays; its priority queue is a multiset from which any least entry is taken.
- The sort of the rooms is an insertion sort: only descending order and the same rooms matter, ties may come in any order.
- AStar.AStarSearch: the grid has at most 2^31 - 1 cells, so that the mark for an unreached cell is larger than any cost.
- BufferPool.SendBufferPool.Allocate: the offset of the last active chunk plus the request stays below 2^32, because otherwise the room test wraps and the pool becomes inconsistent (AllocateKeepsInvIff); the runs make the same assumption.
- SessionWorld.PendingIoExact: the forced release is not part of the runs, because it breaks the count (ForcedReleaseSafeIff).
- Sessions.Session.OnRecv: what user code does with the data is the list of calls it makes on its session; the buffer that a completion carries is one the kernel took from the ring, as in every run (SessionWorld.BuffersPartitioned).
- Packets.PacketSession.OnRecv: packet handlers are recorded, not run, so a handler that disconnects its own session is not captured.
- Packets.BuildPacket: the payload is given as serialized bytes.
- Matchmaker.MatchmakerQueue.TryMatch: queries are an abstract relation between tickets, and match creation succeeds or fails per leader; joining and notifying players are left out.
- WsParser.BuildWsFrame: header and payload together stay below 2^32 bytes, because the code cuts their sum to 32 bits before it allocates and then copies the whole payload.
- WsParser.WsFrameParser.Feed: error texts and Reset are left out; frame callbacks are recorded, not run.
- HTTP parsing, JSON, tokens, handshakes, databases, middleware, static files and proxying: glue over other libraries.
- Random fill, smoothing, props, lights, combat and bot steering: randomness and floating point; none of them changes the floor after ProcessMap.
