# Binary State Distance Vector Routing: a verified model

This project models one node of the BSDVR protocol, a network of such nodes, the node's data buffer, its pending-reply
queue and its neighbour list, and proves what they keep over every run.

BSDVR is a distance-vector protocol whose routes carry a binary state. A node keeps one row of routes for each
neighbour (the distance-vector table) and one route for each destination (the forwarding table). Hellos introduce
neighbours, UPDATEs carry one route each, and a link failure turns the neighbour's own route INACTIVE. An INACTIVE route
still forwards each buffered packet once; the packet stays buffered and is forwarded once more if the route becomes
ACTIVE.

## How it is laid out

| file | contents |
|---|---|
| `Routes.dfy` | entries, the binary-state route order, the readings described below |
| `Tables.dfy` | the two tables as values, and ComputeForwardingTable as one fold for each destination |
| `Selection.dfy` | what that fold selects, without the fold; tables that were just computed |
| `RouteChoice.dfy` | which route the table takes, in hop counts and states alone |
| `Changes.dfy`, `Currency.dfy` | the change list, and whether neighbours know what the table says |
| `NeighborOrder.dfy` | when the order of the neighbour list decides which route is selected |
| `Withdrawals.dfy` | what UPDATEs, link failures and Hellos do to single entries, and what is sent |
| `UpdateEffects.dfy` | what one UPDATE does to a table that was just computed |
| `Greetings.dfy` | what a first Hello tells the newcomer and the other neighbours |
| `Answers.dfy` | who is answered when a route is withdrawn, at once or at a timeout |
| `NodeSteps.dfy` | each protocol event as a function from tables to tables and messages |
| `Network.dfy` | nodes joined by first-in-first-out links that may lose messages; runs of events |
| `HopSoundness.dfy` | hop counts are lengths of walks, in every run |
| `LoopFreedom.dfy`, `HopDescent.dfy` | loop-free delivery and the order of hop counts along each link |
| `ForwardingLoops.dfy` | exactly when every route leads to its destination, under every reading |
| `Exactness.dfy` | hop counts are shortest distances when neighbours agree; small networks never wrap a hop count |
| `AsWritten.dfy` | a permanent forwarding loop in the code as written |
| `Unreported.dfy` | runs in which a neighbour is not told of a change it is due |
| `HopWrap.dfy` | a failure-free run of 256 nodes in which a hop count wraps and packets circle |
| `NeighborList.dfy`, `PendingReplies.dfy` | the two lists as objects, with their loops, and their run invariants |
| `DataQueue.dfy`, `BufferRuns.dfy` | the data buffer as an object, draining it, and its run invariants |
| `RoutingProtocol.dfy` | the routing object: the source's loops over its fields, proved equal to `NodeSteps.dfy` |
| `Collections.dfy` | sequences, filtering, key order |

The classes have the source's fields and loops. Each of their methods is proved to compute a function of the old state,
and the theorems about runs are about those functions.

## Where the code and its documentation disagree

The model follows the code. Three disagreements are switches of `Routes.Reading`, so that a theorem can be stated for
the code as written (`AS_WRITTEN`, all switches false), for the documented intent, or for every combination. The fourth
is not a switch.

- `installsBetter`: `isBetterRoute (r1, r2)` takes the current route first (`model/bsdvr.cc:1258-1261`), but the call
  passes the new one first and installs it on true (`model/bsdvr.cc:1517-1519`), so the worse route is installed. The
  header asks for alternatives to replace worse routes (`model/bsdvr.h:348-351`). `BestRouteExactly` says when the
  selected route is nevertheless the best, `RoutesAlwaysArriveExactly` when every route nevertheless leads to its
  destination, and `AsWrittenCanLoop` that four nodes without any failure can forward a packet in a circle for ever.
- `pushesAbsent`: a changed destination is listed when it is listed already (`model/bsdvr.cc:1521`,
  `model/bsdvr.cc:1529`); the intent is to list it once. `UpdateIsListedExactly` and `UpdateKeepsCurrentExactly` say,
  from the tables before an UPDATE, when the list is nevertheless complete; `UpdateGoesUnreported` is a run in which it
  is not.
- `writesExisting`: an UPDATE from a neighbour that has a row already is not stored (`model/bsdvr.cc:1421-1425`),
  although routes should be added or updated (`model/bsdvr.cc:990`, `model/bsdvr.h:335-336`). `NeighborUpdateIsInert`
  says what this costs: such an UPDATE never changes a route, so in a failure-free run only first Hellos do
  (`OnlyFirstHellosMoveRoutes`).
- The `Status` constructor does not store its argument (`model/bsdvr-rqueue.h:25-27`). A new packet's status is modelled
  as stored: NOT_FORWARDED.

Three other behaviours are modelled as they are: the narrowing of hop counts to eight bits (`model/bsdvr.cc:987`), a
repeated Hello that leaves a settled node unchanged (`model/bsdvr.cc:902-908`), and a first Hello that is answered only
to its sender (`model/bsdvr.cc:895-900`); `FirstHelloKeepsOthersCurrentExactly` says what the last one costs. A neighbour
that was purged and is heard again has its entry already, so its Hello computes nothing (`model/bsdvr.cc:884-908`), and
the next UPDATE from anybody moves the routes that its row takes over; `UpdateGoesUnreported` is such a run.

## Parameters

Clocks are integers passed to each operation. Hardware addresses are numbers looked up by the caller. Timers, message
loss and link failures are nondeterministic events of a run. Addresses are natural numbers in the order of `std::map`.
A node has one address and one interface.

## Model

| member | source | states |
|---|---|---|
| `LoopFreedom.EveryRouteArrives` | model/bsdvr.cc:978-1029 | in every failure-free run in which no hop count wraps, under the documented route order (or if no hop count rises), each next hop is strictly closer and following the tables arrives within the hop count claimed, whether or not stored rows are overwritten |
| `Exactness.SmallNetworkRoutesArrive` | model/bsdvr.cc:987 | the same delivery theorem without any assumption on hop counts, for networks of at most 255 nodes |
| `HopWrap.TwoHundredFiftySixNodesCanLoop` | model/bsdvr.cc:987 | the bound is tight: under the documented reading a row of 256 nodes has a failure-free, loss-free run in which hop count 255 is narrowed to zero, after which packets of node 254 for node 0 never arrive |
| `Exactness.SmallNetworksNeverWrap` | model/bsdvr.cc:987 | with at most 255 nodes the eight-bit narrowing never bites in a failure-free run: every hop count was passed along that many different nodes |
| `LoopFreedom.EveryRunFlows` | model/bsdvr.cc:978-1029 | the whole-run invariant behind delivery: on every link the stored hop count, the ones in flight and the sender's own are ordered, and no node's hop count ever rises |
| `LoopFreedom.StepFlows` | model/bsdvr.cc:855-1029 | each kind of event (link up, Hello, UPDATE, loss, timed-out reply) keeps that invariant and raises no hop count |
| `LoopFreedom.UpdateSettles` | model/bsdvr.cc:978-1007 | an ACTIVE UPDATE leaves one node with every route equal to its next hop's row entry, no hop count risen, and sends only its own routes |
| `LoopFreedom.HelloSettles` | model/bsdvr.cc:855-910 | the same for a Hello, first or repeated |
| `HopDescent.LinkHistoryDescends` | model/bsdvr.cc:987-1007 | along every link, for every destination but the sender: stored hop less one, hops in flight in order, and the sender's hop form a descending sequence, and if it is not empty the sender has a route |
| `HopDescent.NeverRisesExactly` | model/bsdvr.cc:1517-1519 | with the arguments as passed, hop counts never rise in a failure-free run if and only if no event offers its receiver a longer route |
| `HopDescent.StepRisesExactly` | model/bsdvr.cc:1475-1552 | the same for one event: a hop count rises exactly on a Hello from a node whose stored row has a longer route, or an UPDATE longer than the current route that the write guard stores |
| `HopDescent.OnlyHellosOfferLonger` | model/bsdvr.cc:1421-1425 | as written only such a Hello can raise a hop count, because a current neighbour's row is never written |
| `ForwardingLoops.RoutesAlwaysArriveExactly` | model/bsdvr.cc:855-1029 | under every reading: in a failure-free run every route leads to its destination at every moment if and only if no event closes a loop, that is, makes a node select a next hop whose way comes past that node; hop counts may wrap |
| `ForwardingLoops.StepDeliversExactly` | model/bsdvr.cc:855-1029 | one event: if every route led to its destination before, it still does if and only if the event does not close a loop |
| `ForwardingLoops.HelloDeliversExactly` | model/bsdvr.cc:855-900 | a first Hello closes a loop exactly when the newcomer's stored row takes over a route whose way from the newcomer comes past the node that hears it |
| `ForwardingLoops.OnlyFirstHellosLoop` | model/bsdvr.cc:1421-1425 | as UPDATEs are stored, nothing but a first Hello closes a loop |
| `ForwardingLoops.OnlyFirstHellosMoveRoutes` | model/bsdvr.cc:1421-1425 | as UPDATEs are stored, nothing but a first Hello changes any forwarding table of a failure-free run |
| `ForwardingLoops.RerouteDeliversExactly` | model/bsdvr.cc:1517-1519 | when one node changes its next hop for one destination, every node that delivered still does if and only if the way of the new next hop does not come back |
| `ForwardingLoops.EveryRunIsCalm` | model/bsdvr.cc:855-1029 | in every failure-free run, under every reading, all tables are just computed and equal to the entries behind them, and rows and messages are about what their neighbour has a route to |
| `HopDescent.RoutesArriveUnlessLonger` | model/bsdvr.cc:1475-1552 | what the guard above adds to delivery: no longer route offered means strictly closer next hops and arrival within the hop count claimed |
| `AsWritten.AsWrittenCanLoop` | model/bsdvr.cc:1517-1519 | as written, any four nodes in range of each other have a failure-free, loss-free run, without wrapped hop counts, after which packets from one to another never arrive |
| `HopSoundness.EveryRunIsSound` | model/bsdvr.cc:891-1029 | under every reading, with loss and link failures: every stored, forwarded or in-flight hop count is the length of a walk over links that have been up, modulo 256, exactly so while none has wrapped; and the two tables agree at every node |
| `HopSoundness.StepIsSound` | model/bsdvr.cc:855-1242 | each event keeps this, purges and their link-failure callbacks included |
| `Exactness.HopsAreShortestDistances` | model/bsdvr.cc:1475-1552 | in any failure-free state where every row agrees with its neighbour's table, nodes have routes to exactly the destinations they are connected to, at the length of a shortest walk |
| `Exactness.WalkBoundsHops` | model/bsdvr.cc:1475-1552 | Bellman induction: when no link can be relaxed, any walk bounds the hop count at its start |
| `RoutingProtocolObject.RoutingProtocol.ComputeForwardingTable` | model/bsdvr.cc:1475-1552 | the nested loop over neighbours and rows, refreshing and replacing in place, leaves exactly the table of the independent per-destination fold and returns exactly the specified change list |
| `RouteChoice.DocumentedChoice` | model/bsdvr.cc:1255-1292 | documented order: the chosen route is on offer, has the fewest hops of its state, is ACTIVE if an ACTIVE route below 16 hops is on offer, and INACTIVE if there is an INACTIVE one and every ACTIVE one exceeds 16 |
| `RouteChoice.ChoiceAsPassed` | model/bsdvr.cc:1517-1519 | as passed: it has the most hops of its state, is ACTIVE if an ACTIVE route above 16 hops is on offer, and INACTIVE if there is an INACTIVE one and every ACTIVE one is below 16 |
| `RouteChoice.UnheldIsLeftAlone` | model/bsdvr.cc:1492-1549 | a destination that no current neighbour holds keeps its entry, or stays unknown |
| `Tables.CellStep` | model/bsdvr.cc:1504-1546 | one iteration of the inner loop, repeated refresh included, is one step of the fold |
| `Tables.PickIsFresh` | model/bsdvr.cc:1447-1473 | refreshing is idempotent on everything the fold can produce, since each row belongs to its neighbour |
| `Tables.ComputedProperties` | model/bsdvr.cc:1475-1552 | the new entry is the refreshed known one or a current neighbour's, none on offer displaces it, and it equals its next hop's row entry; destinations no neighbour holds are untouched |
| `Selection.SelectsExactly` | model/bsdvr.cc:1492-1549 | which value the whole loop selects from a start and a list of candidates, without the loop: nothing displaces it, and it is the start's or that of a candidate that displaces the start and wins its tie |
| `Selection.RouteStandsExactly` | model/bsdvr.cc:1475-1552 | a known route keeps its hop count and state through ComputeForwardingTable if and only if the tables before it say so |
| `Tables.BestRouteExactly` | model/bsdvr.cc:1255-1292 | the selected route is the best on offer if and only if the arguments are in the documented order or the starting route ties with all candidates |
| `NeighborOrder.SelectionIgnoresOrderExactly` | model/bsdvr.cc:1492-1549 | in the documented order, hop and state selected are independent of neighbour order if and only if it is not the case that an ACTIVE route at exactly 16 hops meets an INACTIVE one with nothing ACTIVE and shorter on offer |
| `NeighborOrder.FirstTiedRouteWins` | model/bsdvr.cc:1255-1292 | in that case whichever of the tied routes is looked at first wins |
| `Routes.BeatsIsStrictPartialOrder` | model/bsdvr.cc:1255-1292 | the order is irreflexive, asymmetric and transitive, with the arguments either way round |
| `Routes.TiesExactly` | model/bsdvr.cc:1255-1292 | the only incomparable pairs: equal hop and state, or ACTIVE at the threshold against INACTIVE |
| `Routes.TiesChainExactly` | model/bsdvr.cc:1255-1292 | incomparability is transitive except through an ACTIVE route at the threshold between INACTIVE routes of different length |
| `Tables.ComputedIsFixpoint` | model/bsdvr.cc:1475-1552 | computing again with unchanged rows and neighbours changes no entry |
| `Changes.FixpointListIsEmpty` | model/bsdvr.cc:1521-1533 | and reports nothing, under every reading |
| `Tables.ComputedIsConsistent` | model/bsdvr.cc:1447-1552 | every route keeps its backing entry in its next hop's row, and equals it wherever a current neighbour holds the destination |
| `NodeSteps.UpdateKeepsConsistent` | model/bsdvr.cc:1382-1445 | absorbing any route, erasures included, keeps the tables in agreement |
| `NodeSteps.LinkFailuresKeepConsistent` | model/bsdvr.cc:1118-1152 | so does any sequence of link-failure callbacks |
| `NodeSteps.HelloKeepsConsistent` | model/bsdvr.cc:855-910 | so does a Hello, with the purge it may start |
| `NodeSteps.RefreshFindsItsRow` | model/bsdvr.cc:1459-1472 | a refresh after RemoveFakeRoutes always finds its entry, so no default entry is ever inserted |
| `NodeSteps.SuspectRoutesStayPinned` | model/bsdvr.cc:1294-1380 | after an INACTIVE UPDATE only its sender still offers a suspect destination, the route stays through the sender, and it turns into the INACTIVE entry exactly when the write is made |
| `NodeSteps.UpdateIsStoredExactly` | model/bsdvr.cc:1421-1444 | an UPDATE is in its sender's row afterwards if and only if the write guard admits it or it was there before |
| `Withdrawals.UpdateIsStored` | model/bsdvr.cc:987-1004 | the sender's row takes the UPDATE's state and its hop count plus one in eight bits, if rows are overwritten, or the sender has no row or is not current; otherwise the row stays as it was |
| `Withdrawals.OtherEntriesAfterUpdate` | model/bsdvr.cc:1294-1380 | of every other entry, exactly these are erased: in the rows of other current neighbours, on an INACTIVE UPDATE about a known destination, that destination if its ACTIVE route goes through the sender, and if it is the current sender itself, every destination with an ACTIVE route through it |
| `Withdrawals.WithdrawalErasesAlternatives` | model/bsdvr.cc:1310-1369 | after an INACTIVE UPDATE about an ACTIVE route through its sender no other current neighbour holds the destination |
| `Withdrawals.WithdrawalTakesEffect` | model/bsdvr.cc:998-1005 | the route stays through the sender, and if that is current turns INACTIVE with rows overwritten, or keeps the old row entry as written |
| `Withdrawals.FailureIsStored` | model/bsdvr.cc:1144-1148 | a link failure turns the failed neighbour's own entry INACTIVE with rows overwritten, and changes nothing else of its row |
| `Withdrawals.OtherEntriesAfterFailure` | model/bsdvr.cc:1318-1369 | the rows of the other current neighbours lose exactly the destinations whose ACTIVE route goes through the failed one |
| `Withdrawals.FailureLeavesNoAlternative` | model/bsdvr.cc:1118-1152 | each such destination stays routed through the failed neighbour, and no other current neighbour holds it |
| `Withdrawals.FailureIsReported` | model/bsdvr.cc:1149-1150 | with the documented list guard, every other neighbour is sent every known route whose hop count or state the failure changed |
| `Withdrawals.FailureSendsAreTruthful` | model/bsdvr.cc:1206-1242 | the failed neighbour is told nothing, and the others only routes the table has, with its hop counts and states |
| `Withdrawals.UpdateSendsAreTruthful` | model/bsdvr.cc:1095-1117 | everything sent on an UPDATE names the sender and a table route with its hop count and state, and goes to a current neighbour other than the destination |
| `Withdrawals.FirstHelloIsStored` | model/bsdvr.cc:884-895 | a first Hello lists its origin and gives it an ACTIVE one-hop entry in its own row, and changes no other entry |
| `Withdrawals.FirstHelloSendsAreTruthful` | model/bsdvr.cc:1188-1205 | everything sent goes to the newcomer, and is a table route other than the node's own |
| `Withdrawals.HelloListsAndPurges` | model/bsdvr-neighbor.cc:49-70 | only a node not listed yet is added by its Hello, and only then do the neighbours found closed leave the list |
| `Withdrawals.HelloHandlesFailuresFirst` | model/bsdvr-neighbor.cc:98-110 | their link failures are handled first, in turn, with all of them still listed |
| `Withdrawals.LaterHelloIsQuiet` | model/bsdvr.cc:902-908 | a Hello of a node that has its entry sends nothing, moves no route, and sets only that entry's hop count and next hop |
| `RoutingProtocolObject.RoutingProtocol.RemoveFakeRoutes` | model/bsdvr.cc:1294-1380 | the loops erase what the specification erases (entry by entry: `OtherEntriesAfterUpdate`, `OtherEntriesAfterFailure`), and leave the forwarding table unchanged although it is accessed with operator[] |
| `RoutingProtocolObject.RoutingProtocol.FindFakes` | model/bsdvr.cc:1306-1334 | the destinations collected are exactly the suspect ones |
| `RoutingProtocolObject.RoutingProtocol.FindErasable` | model/bsdvr.cc:1348-1363 | the destinations to erase are the suspect ones of the row whose route does not go through its neighbour |
| `RoutingProtocolObject.RoutingProtocol.UpdateDistanceVectorTable` | model/bsdvr.cc:1382-1445 | the rows become those of the specification and the forwarding table is unchanged |
| `RoutingProtocolObject.RoutingProtocol.RefreshForwardingTable` | model/bsdvr.cc:1447-1473 | the entry is copied from the next hop's row, kept when that row lacks it, and INACTIVE when there is no row |
| `RoutingProtocolObject.RoutingProtocol.LookupRoute` | model/bsdvr-rtable.cc:75-92 | the row's entry, or none |
| `RoutingProtocolObject.RoutingProtocol.AddRoute` | model/bsdvr-rtable.cc:104-111 | inserts only when absent |
| `RoutingProtocolObject.RoutingProtocol.Update` | model/bsdvr-rtable.cc:112-125 | overwrites only when present |
| `RoutingProtocolObject.RoutingProtocol.RecvUpdate` | model/bsdvr.cc:978-1029 | new tables, UPDATEs sent, replies queued, timeouts fired and packets released are those of the specification, and the tables still agree |
| `RoutingProtocolObject.RoutingProtocol.RetransmitToNeighbor` | model/bsdvr.cc:1554-1626 | without an ACTIVE route that avoids the asker nothing happens; otherwise, with hop counts of eight bits, the route is sent at once exactly if it is one hop long or its next hop's row has for the asker the sum of both routes' hops less one, and else a reply to the asker is pending and only timed-out replies are sent |
| `NodeSteps.RepliesAtOnceExactly` | model/bsdvr.cc:1590-1620 | the 32-bit cost comparison in plain arithmetic, for hop counts of eight bits |
| `RoutingProtocolObject.RoutingProtocol.ProcessHello` | model/bsdvr.cc:855-910 | list, tables and UPDATEs sent are those of the specification, for new, known and repeated neighbours |
| `RoutingProtocolObject.RoutingProtocol.PurgeNeighbors` | model/bsdvr-neighbor.cc:89-113 | the link-failure callbacks run, in list order, while the closed neighbours are still listed; then they are erased |
| `RoutingProtocolObject.RoutingProtocol.SendUpdateOnLinkFailure` | model/bsdvr.cc:1118-1152 | only the neighbour's own entry is turned INACTIVE, and changes go to the others |
| `RoutingProtocolObject.RoutingProtocol.SendTriggeredUpdateToNeighbor` | model/bsdvr.cc:1188-1205 | sends the whole table, without the node's own, the neighbour's own and unset destinations |
| `RoutingProtocolObject.RoutingProtocol.SendTriggeredUpdateChangesToNeighbors` | model/bsdvr.cc:1206-1242 | sends each listed route to each neighbour but the excluded ones and the route's own destination |
| `RoutingProtocolObject.RoutingProtocol.SendUpdateOnPendingReplyEntryTimeout` | model/bsdvr.cc:1153-1187 | sends the route held back if it is still ACTIVE and does not go through the asking neighbour |
| `UpdateEffects.UpdateMovesExactly` | model/bsdvr.cc:1382-1552 | on a table just computed, an UPDATE moves no known route but the one it is about, and that one exactly under a guard on the tables before it: it is stored, and the route went through its sender and no rival restores the old value, or its current sender displaces the route |
| `UpdateEffects.UpdateIsListedExactly` | model/bsdvr.cc:1517-1551 | the change list of an UPDATE covers every change if and only if the guard of the list is the documented one or that guard on the tables fails |
| `UpdateEffects.UpdateKeepsCurrentExactly` | model/bsdvr.cc:1005-1007 | a neighbour that was current stays so through an UPDATE if and only if the list's guard is the documented one, the guard on the tables fails, or the route that moves is the one to that neighbour |
| `UpdateEffects.NeighborUpdateIsInert` | model/bsdvr.cc:1421-1425 | as written an UPDATE from a current neighbour with a row changes no route and lists nothing |
| `Unreported.UpdateGoesUnreported` | model/bsdvr.cc:1521-1529 | as written, any three nodes have a run after which a neighbour of one is current, and the next UPDATE changes a known route without listing it or telling that neighbour, which is due it |
| `Changes.ListCoversChangesExactly` | model/bsdvr.cc:1517-1551 | on any tables, the returned list contains every changed destination if and only if the guard is the documented one or the rows before the computation let every known route stand |
| `Changes.ListIsWellFormed` | model/bsdvr.cc:1517-1551 | it never names the node itself, names only routes in the table, and in the documented reading has no repeats |
| `Changes.AsWrittenListIsNewRoutes` | model/bsdvr.cc:1521-1548 | as written it contains exactly the new destinations |
| `Currency.UpdateKeepsNeighborCurrentExactly` | model/bsdvr.cc:1005-1007 | on any tables, if a neighbour's last-sent values were current before a route is absorbed, they are after the changes are sent, if and only if the guard is the documented one or the rows, with that route stored, let every known route due to the neighbour stand |
| `Currency.UpdatesKeepNeighborsCurrentExactly` | model/bsdvr.cc:1005-1007 | the same for all neighbours at once |
| `Currency.RecvUpdateKeepsNeighborsCurrent` | model/bsdvr.cc:1005-1013 | with the documented guard, RecvUpdate keeps the neighbours current, replies included |
| `Currency.AdvertiseSends` | model/bsdvr.cc:1206-1242 | the last thing a neighbour is sent about a destination is the table's route, exactly when both are due |
| `Greetings.FirstHelloInformsNewcomer` | model/bsdvr.cc:1188-1205 | a newcomer is last told the route the table then has, for exactly the destinations other than the node, itself, loopback and unset |
| `Greetings.FirstHelloKeepsOthersCurrentExactly` | model/bsdvr.cc:895-900 | on any tables, another neighbour that was current stays so through a first Hello if and only if the rows, with the newcomer's entry, offer it no unknown destination and let the known routes stand |
| `Greetings.FirstHelloToJustComputedExactly` | model/bsdvr.cc:895-900 | on tables just computed, if and only if every destination in the newcomer's row is known and the row does not change its route |
| `Greetings.NewcomerCell` | model/bsdvr.cc:884-896 | a first Hello does to each route of a table just computed what the newcomer's row alone would do |
| `Unreported.NewcomerGoesUnreported` | model/bsdvr.cc:895-900 | under every reading, a three-node run in which a current neighbour is no longer current after another node's first Hello |
| `Answers.AnsweredAtOnceExactly` | model/bsdvr.cc:1010-1013 | the same for RecvUpdate: which INACTIVE UPDATEs are answered at once, with which message, and which are held back |
| `Answers.UnansweredExactly` | model/bsdvr.cc:1010-1013 | which UPDATEs are neither answered nor held back |
| `Answers.HeldReplyIsDue` | model/bsdvr-rqueue.h:139-150 | a reply held back that was not pending is queued for a full timeout from now |
| `Answers.EveryQuestionIsTakenExactly` | model/bsdvr.cc:1010-1013 | an INACTIVE UPDATE gets an immediate or a pending answer if and only if it is not about its origin and the node has an ACTIVE route not through that neighbour |
| `Answers.PendingReplyWaitsExactly` | model/bsdvr-rqueue.cc:26-48 | over any run of the queue that does not discard it, a pending reply is answered if and only if another reply is held back after its deadline, because the queue is purged only then; otherwise it stays queued |
| `Answers.StaysQueuedExactly` | model/bsdvr-rqueue.cc:26-83 | one operation: a pending reply stays queued if and only if it is neither dequeued, dropped, evicted nor overtaken by a late Enqueue |
| `Answers.FiredByOp` | model/bsdvr-rqueue.cc:115-137 | the timeouts an operation adds to the history are those its purge reports |
| `Answers.ReportedIsSent` | model/bsdvr.cc:1153-1187 | a reported timeout sends the route that the node has by then, if it can still help |
| `Answers.FiredSendsExactly` | model/bsdvr.cc:1153-1187 | timed-out replies send exactly the routes that the node can still offer |
| `Answers.HeldReplyIsPending` | model/bsdvr-rqueue.cc:26-48 | after a reply is held back, one for the pair is pending, due within the timeout |
| `DataQueue.SendPacketFromQueue` | model/bsdvr.cc:1071-1094 | an ACTIVE route sends, in queue order, exactly the destination's packets that no ACTIVE route sent before and leaves them ACTIVE_FORWARDED; an INACTIVE one those never sent and leaves them INACTIVE_FORWARDED; up to the first of them held for another interface, which is marked but not sent; nothing else changes |
| `BufferRuns.DrainIsExact` | model/bsdvr.cc:1071-1094 | without a mismatch a drain forwards exactly the eligible packets, each once and in order, leaves none eligible and every other packet untouched |
| `BufferRuns.MismatchCutsToPrefix` | model/bsdvr.cc:1079-1085 | a mismatch cuts this to a proper prefix; the packet it stops at is marked but not forwarded, and those behind it are untouched |
| `DataQueue.FlushBuffer` | model/bsdvr.cc:1014-1028 | every route drains its destination in key order; with no packet held for another interface, each packet that the route to its destination releases is sent once and marked by the route's state, and no other packet changes |
| `BufferRuns.FlushLeavesNothingEligible` | model/bsdvr.cc:1014-1028 | afterwards, without mismatches, no packet is left that its ACTIVE or INACTIVE route would release, and none was lost or moved |
| `DataQueue.BsdvrQueue.Enqueue` | model/bsdvr-rqueue.cc:157-185 | refuses a packet already buffered, or one that finds no room; evicts one when full; otherwise appends |
| `DataQueue.BsdvrQueue.Dequeue` | model/bsdvr-rqueue.cc:186-222 | hands out the first eligible packet and raises its status, leaving it where it stands |
| `DataQueue.BsdvrQueue.DropPolicy` | model/bsdvr-rqueue.cc:260-299 | erases the victim and fails only on an empty buffer |
| `DataQueue.BsdvrQueue.FindOldest` | model/bsdvr-rqueue.cc:262-281 | one pass finds the oldest packet of each status |
| `DataQueue.BsdvrQueue.DropPacketWithDst` | model/bsdvr-rqueue.cc:223-238 | removes exactly the packets of one destination |
| `DataQueue.BsdvrQueue.Find` | model/bsdvr-rqueue.cc:239-252 | true if and only if a packet for the destination is buffered |
| `BufferRuns.VictimIsOldestOfMostForwarded` | model/bsdvr-rqueue.cc:260-299 | the victim is the oldest of the most forwarded packets |
| `BufferRuns.EnqueueIsExact` | model/bsdvr-rqueue.cc:157-185 | accepted exactly if the packet is not buffered and there is room or something to evict; then it goes to the back, and a full buffer gives up the oldest packet sent on an ACTIVE route, else on an INACTIVE one, else of all |
| `BufferRuns.EveryRunIsSane` | model/bsdvr-rqueue.cc:157-299 | over every run: packets are distinct, the buffer is a subsequence of those accepted, each accepted packet is buffered, evicted or dropped, and each was handed out never, once INACTIVE, once ACTIVE, or INACTIVE then ACTIVE |
| `BufferRuns.EnqueueOpEnqueues` | model/bsdvr-rqueue.cc:157-185 | what an Enqueue of such a run does to the buffer is what the method BsdvrQueue.Enqueue does to its field |
| `BufferRuns.StatusOnlyRises` | model/bsdvr-rqueue.cc:186-222 | no operation lowers the status of a packet that stays buffered |
| `BufferRuns.EveryRunKeepsItsLimitExactly` | model/bsdvr-rqueue.h:471-474 | a run stays within the limit throughout if and only if the limit is never set below the current size |
| `BufferRuns.OverfullBufferGrows` | model/bsdvr-rqueue.cc:171-183 | a buffer above its limit evicts nothing and keeps growing |
| `PendingReplies.PendingReplyQueue.Enqueue` | model/bsdvr-rqueue.cc:26-48 | purges, refuses a pair already pending, evicts the front when full, appends with a new deadline |
| `PendingReplies.PendingReplyQueue.Purge` | model/bsdvr-rqueue.cc:115-137 | exactly the expired entries are removed, each with one callback, in order |
| `PendingReplies.PendingReplyQueue.Dequeue` | model/bsdvr-rqueue.cc:67-83 | takes the oldest entry for a neighbour, if any |
| `PendingReplies.PendingReplyQueue.DropEntryWithNeighbor` | model/bsdvr-rqueue.cc:49-66 | removes exactly the entries for a neighbour |
| `PendingReplies.PendingReplyQueue.Find` | model/bsdvr-rqueue.cc:84-96 | true if and only if an entry for the neighbour is pending |
| `PendingReplies.EveryRunIsSane` | model/bsdvr-rqueue.cc:26-137 | over every run with a positive bound and constant timeout: pairs are distinct, sorted by deadline and within the bound, each accepted entry is queued or has exactly one fate, and callbacks come after the deadline |
| `PendingReplies.PurgeTakesAPrefix` | model/bsdvr-rqueue.cc:115-137 | in a queue sorted by deadline a purge removes a prefix |
| `PendingReplies.OverflowLosesEarliest` | model/bsdvr-rqueue.cc:40-44 | overflow evicts only from a full queue, and the earliest deadline |
| `PendingReplies.DuplicateKeepsDeadline` | model/bsdvr-rqueue.cc:31-38 | asking again for a pending reply neither adds an entry nor moves its deadline |
| `NeighborList.Neighbors.Purge` | model/bsdvr-neighbor.cc:89-113 | keeps exactly the open neighbours and reports exactly the others |
| `NeighborList.Neighbors.Update` | model/bsdvr-neighbor.cc:49-70 | renews a listed neighbour in place; appends a new one and purges |
| `NeighborList.Neighbors.IsNeighbor` | model/bsdvr-neighbor.cc:19-32 | purges, then true if and only if the address is still listed |
| `NeighborList.Neighbors.GetExpireTime` | model/bsdvr-neighbor.cc:34-47 | purges, then the time left to the neighbour, never negative, or zero |
| `NeighborList.Neighbors.ProcessTxError` | model/bsdvr-neighbor.cc:151-164 | closes the neighbours with the failing hardware address and purges |
| `NeighborList.PurgeIsExact` | model/bsdvr-neighbor.cc:97-110 | exactly the unexpired and unclosed remain; exactly the others are reported, once each; no survivor is |
| `NeighborList.RenewalIsExact` | model/bsdvr-neighbor.cc:49-64 | a Hello of a listed neighbour sets its expiry to the later of the old one and a full interval from now, its hardware address if it had none, and nothing else |
| `NeighborList.AdditionIsExact` | model/bsdvr-neighbor.cc:66-69 | a Hello of an unlisted neighbour lists it, open for a full interval from now, and purges |
| `NeighborList.TxErrorIsExact` | model/bsdvr-neighbor.cc:151-164 | a transmission error leaves exactly the open neighbours with another hardware address |
| `NeighborList.EveryRunIsAccounted` | model/bsdvr-neighbor.cc:49-113 | over every run: addresses are unique, and every neighbour ever added is listed or was reported failed once |
| `NeighborList.ExpiryNeverDecreases` | model/bsdvr-neighbor.cc:49-70 | while a neighbour stays listed its expiry does not decrease |

## Left out

- PendingReplies.EveryRunIsSane: it is for a positive bound, because the source takes the front of an empty
  vector when the bound is zero.
- Convergence: a first Hello does not pass its changes on (`model/bsdvr.cc:895-900`), so agreement is a hypothesis of
  `HopsAreShortestDistances`.
- No claim that ACTIVE routes through a failed neighbour disappear: only its own entry is marked
  (`model/bsdvr.cc:1144-1148`).
- In the network a pending reply may time out at any moment, for any neighbour and destination; the queue with its
  deadlines is modelled at the node only.
- Sockets, interfaces going up or down, ARP, wifi traces, timers and jitter: simulator plumbing.
- RouteInput, RouteOutput, LoopbackRoute and broadcast forwarding: one map lookup each, then callbacks.
- Loopback and broadcast records of the forwarding table, and more than one address for a node.
- The filters on the addresses 10.1.1.1 to 10.1.1.50 (`model/bsdvr.cc:1122`, `model/bsdvr.cc:1164`,
  `model/bsdvr.cc:1572`): addresses outside that range are modelled.
- Disabled Hellos: the neighbour list is always updated by a Hello.
- The encoding of headers, and the source address and TTL that SendPacketFromQueue rewrites.
- The `Ipv4Route` that copies of an entry share: entries are values, so their aliasing is not captured.
- The logging of dropped packets, printing, the helper, the example and the placeholder test.
