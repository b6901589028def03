# Verification of the Tenet master and applications

This project models the algorithmic core of the Tenet sensor-network stack and proves it
correct, in seven parts. `dafny verify dfyconfig.toml` checks everything.

- **Shortest paths** (`Planning`): the dense priority-first search of the pursuit
  application, in which one array is both the queue and the tree. Distances are exact, in
  disconnected graphs too, and the listed route is a shortest path exactly when the
  destination is closer than the flag value.
- **Routing forest** (`ParentMaps`, `PTree`): the pointer forest of the ping tree. Adding an
  edge refines an update of the parent map; closing a cycle detaches exactly one subtree.
- **Master router** (`RoutingTables`, `MasterRouter`, `RouterAgeing`, `RouterDelivery`,
  `MasterNetwork`): one router with its two ageing tables, and any number of them as a
  system. What is for a mote goes back the way it was last heard of, forwarding is bounded by
  the TTL whatever the tables do, and runs without new packets end.
- **Images** (`PackBits`, `Reassembly`, `ReassemblyRuns`, `Bmp`): the PackBits decoder (TIFF
  Revision 6.0, Section 9), reassembly of fragments over whole streams, and BMP files.
- **Packet transport** (`Seqno`, `LossEwma`, `LossAli`, `PacketTransport`, `TransportRuns`,
  `ConnectionRuns`, `ReceiverRuns`, `LossRuns`): sequence numbers, the two loss estimators
  against what has arrived, what is acknowledged and passed up, and all interleavings of
  sends, acknowledgements, data, polls, restarts and deletions over any number of
  connections.
- **Tasking** (`Tlv`, `Response`, `ResponseList`, `TaskBuffer`): reading a response into a
  linked list that is the stable sort of its packet, and building tasks that read back.
- **Evader vote** (`VotingQueue`): the overwriting ring buffer and the vote that drains it.

`Common` and `LittleEndian` hold what they share. Where the program changes state, a class
or a method over arrays does the same step by step and is proved against a function of the
old state; the theorems about whole runs are about those functions.

## Where the code falls short of what it seems to promise

- `getPath` lists a route to some other root when the destination is not near the source;
  `Planning.Planner.Plan` and `Planning.RouteEnds` give the exact condition. When the
  destination is itself a root the list has one entry, and the program reads the one before
  it as the next move; `Planning.ListedRoute` gives that condition.
- An edge from an unknown node to itself makes two nodes of one id
  (`PTree.PingForest.AddPtreeEdge`).
- Only AM_TENET_ROUTING packets carry a TTL. Every other packet can go round for ever
  between two masters, unless it is a broadcast, for any master, or sent by a mote to the
  serial port or to itself (`MasterNetwork.BoundedIffContained`).
- A repeated PackBits fragment is accepted and decoded twice
  (`ReassemblyRuns.RepeatIsUsedTwice`); what is decoded is what was sent exactly when there
  is no such repeat (`ReassemblyRuns.ImageIsAsSent`). A raw image is whole only while the
  bytes before its last fragment, repeats included, stay under BUF_SIZE
  (`ReassemblyRuns.WholeImage`, `ReassemblyRuns.RepeatsFillBuffer`).
- The master counts sequence numbers modulo 50000, but a mote's packet transport numbers its
  packets up to 65535 (mote/lib/transport/PacketTransportM.nc:208). The loss count is exact
  exactly for numbers in 1..50000 (`ConnectionRuns.CountsBalance`), and beyond them packets
  in perfect order are counted as losses (`Seqno.FalseLosses`), which the delivery rate does
  not see (`ConnectionRuns.RatesDisagree`).
- The delivery rate can come out above 1, or as a division by zero, when an epoch ends with
  more packets counted than steps, as after a number exactly 50000 below the last one
  (`LossEwma.RateAboveOne`, `LossEwma.ZeroSteps`, `ConnectionRuns.RateExceedsOne`).
  `LossEwma.EwmaStepKeepsRates` and `ConnectionRuns.RatesStayInBounds` give the exact
  condition for the rates, over all 16-bit numbers; `LossEwma.EwmaStepKeepsOk` and
  `ConnectionRuns.EwmaStaysOk` the one for the rates and the count of the epoch together,
  which for the rates alone is sufficient (`LossEwma.UnsoundYetFair`).
- The interval estimate of the loss rate never rises while packets come in order, except when
  the numbers have come all the way round to the last one lost
  (`LossRuns.InOrderNeverRaises`, `LossRuns.RisesAfterFullTurn`).
- A restart of the averages that comes before the first epoch opens is answered only by the
  end of that epoch, so the opening sample is then left out (`LossRuns.Pending`).
- A packet for a mote of another master whose route leads back to this one goes to a mote
  numbered by the low half of this master's address (`RouterDelivery.ThroughItself`).
- Giving up a send does not stop its timer, so the failure is reported again at every poll
  (`ConnectionRuns.NeverAcknowledged`); `ConnectionRuns.ReportsOfSend` counts the reports of
  any send in any history.
- The number of elements of a task is kept in one byte (`TaskBuffer.TaskReadsBack`).

## Model

| member | source | states |
|---|---|---|
| Planning.Planner.constructor | apps/PEG/planning.c:43-55 | the two arrays `val` and `dad` have room for positions 0 to V |
| Planning.Planner.RelaxFrom | apps/PEG/planning.c:65-78 | one pass of the inner loop from k is exactly one relaxation round, and returns the queued vertex of greatest `val` (0 if none is left) |
| Planning.Planner.FinishVertex | apps/PEG/planning.c:62-78 | finishing k keeps the whole search invariant and finishes exactly one more vertex |
| Planning.Planner.ShortestDistance | apps/PEG/planning.c:47-81 | terminates for every graph with non-negative weights and leaves the search forest whose lemmas follow |
| Planning.RoundKeepsInv | apps/PEG/planning.c:62-78 | every round keeps the invariant of the one array that is both queue and tree |
| Planning.EachVertexOnce | apps/PEG/planning.c:62-64 | the outer loop finishes every vertex exactly once, the source first, also in a disconnected graph |
| Planning.NothingShorter | apps/PEG/planning.c:65-72 | no walk from the root of a tree to a finished vertex is shorter than its `val` |
| Planning.TreePathIsPath | apps/PEG/planning.c:69 | following `dad` gives a real path whose weights add up to `val` |
| Planning.ShortestDistances | apps/PEG/planning.c:47-81 | a vertex is in the source's tree if and only if some path shorter than UNSEEN leads to it, and then `val` is its shortest distance |
| Planning.LaterTrees | apps/PEG/planning.c:62-64 | after a restart at cost 0, `val` is the shortest distance from that new root among paths that avoid the earlier trees |
| Planning.QueueBounds | apps/PEG/planning.c:15-59 | every queued value stays at or above -UNSEEN, so the flag in position 0 loses every comparison; no number met is out of bounds |
| Planning.TreePathIsChain | apps/PEG/planning.c:98-110 | the `dad` links from a vertex are the reversed tree path |
| Planning.TreePathShort | apps/PEG/planning.c:98-110 | a `dad` chain ends at a root and has at most V vertices, so it is acyclic and fits the vector |
| Planning.Planner.GetPath | apps/PEG/planning.c:98-111 | lists the `dad` chain from the destination to the root, each vertex less one |
| Planning.RouteEnds | apps/PEG/planning.c:98-110 | the route listed begins, at its far end, with the root of the destination's tree, which is the source if and only if the destination is near; it has two vertices or more if and only if the destination is no root |
| Planning.RouteTo | apps/PEG/planning.c:98-125 | after the search there is a `dad` chain of at most V vertices to every vertex, a shortest path from the source if and only if the vertex is near |
| Planning.ListedRoute | apps/PEG/pegApp.c:219 | a listing ends in the source, and is a shortest path, if and only if the destination is near, and has an entry `size - 2` if and only if the destination is no root (`dad` not 0) |
| Planning.RouteToNowhere | apps/PEG/planning.c:98-125 | with two vertices and no edge, the route listed for the second is that vertex alone |
| Planning.NextHop | apps/PEG/pegApp.c:219 | for a destination other than the source, the last but one entry is the next hop of a shortest path |
| Planning.RestIsShortest | apps/PEG/pegApp.c:219 | the rest of a shortest path is itself shortest, so going hop by hop stays optimal |
| Planning.Planner.Plan | apps/PEG/planning.c:122-125 | the listing is a shortest path if and only if the destination is closer than UNSEEN, and has two entries or more if and only if the destination is no root |
| ParentMaps.AddEdgeKeepsForest | apps/pingtree/ptree.c:138-177 | adding an edge between different ids keeps the parent map a forest, also when the edge closes a cycle |
| ParentMaps.AddEdgeMovesSubtree | apps/pingtree/ptree.c:138-177 | when p is not below c, exactly c's parent changes and nothing leaves the forest |
| ParentMaps.MovedAncestry | apps/pingtree/ptree.c:166-175 | c's descendants, and only they, gain p and p's ancestors |
| ParentMaps.AddEdgeDropsSubtree | apps/pingtree/ptree.c:166-175 | when p is below c, exactly c's subtree leaves and every other node keeps its parent |
| ParentMaps.StayedAncestry | apps/pingtree/ptree.c:166-175 | the nodes that stay keep all their ancestors |
| ParentMaps.EveryRunIsForest | apps/pingtree/ptree.c:138-177 | after any run of edges between different ids the reachable part is a forest |
| PTree.LinkEdge | apps/pingtree/ptree.c:191-210 | c goes into p's child list before the first child whose id is not smaller, the rest in order |
| PTree.UnlinkEdge | apps/pingtree/ptree.c:212-231 | c alone leaves p's child list; c ends without parent and sibling |
| PTree.PingForest.AddRootlist | apps/pingtree/ptree.c:100-108 | n becomes the first root and the rest of the forest is untouched |
| PTree.PingForest.RemoveRootlist | apps/pingtree/ptree.c:71-98 | exactly n leaves the root list; null and a node that is not on it change nothing |
| PTree.PingForest.FindTree | apps/pingtree/ptree.c:110-122 | terminates, and finds the node with the id if and only if it is in the tree |
| PTree.PingForest.FindForest | apps/pingtree/ptree.c:124-136 | terminates, and finds the one node with the id if and only if the forest has one |
| PTree.PingForest.NewRoot | apps/pingtree/ptree.c:179-189 | a new node becomes a root and nothing else changes |
| PTree.PingForest.TakeOut | apps/pingtree/ptree.c:158-174 | a node with a parent is unlinked, one without is taken off the root list; nothing else changes |
| PTree.PingForest.PutUnder | apps/pingtree/ptree.c:191-210 | linking under a node of the forest records the edge; linking under one's own descendant detaches the cycle |
| PTree.PingForest.MoveKnown | apps/pingtree/ptree.c:163-175 | two known nodes: the forest becomes AddEdge of what it was |
| PTree.PingForest.AddBoth | apps/pingtree/ptree.c:149-153 | two unknown ids: a root and its child, or, for one id given twice, two nodes of that id |
| PTree.PingForest.FirstChildDiffers | apps/pingtree/ptree.c:149-153 | no value of the ghost links makes a forest valid in which a root's first child has the root's id |
| PTree.PingForest.AddPtreeEdge | apps/pingtree/ptree.c:138-177 | ids stay unique, siblings strictly increasing, parents matching child lists and the structure finite if and only if the ids differ or p was already known; the parent map becomes AddEdge of the old one |
| PTree.ParentIs | apps/pingtree/ptree.c:164 | a child's parent pointer is p if and only if the parent map says so |
| PTree.KidsGoToo | apps/pingtree/ptree.c:166-175 | when p is below c, p and p's child list are among what leaves the forest with c |
| PTree.BelowSomeRoot | apps/pingtree/ptree.c:124-136 | every id of the forest is below some root, so the search cannot miss it |
| RoutingTables.DerivedAddress | master/router/MRT_Manager.cpp:199-204 | the address derived from a mote's id by masking and shifting is the dotted address that `Unicast` prints, and gives the id back |
| RoutingTables.IprtManager.LookUpNextHop | master/router/IPRT_Manager.cpp:63-76 | gives the next hop or 0, and marks the entry it consulted |
| RoutingTables.IprtManager.Update | master/router/IPRT_Manager.cpp:94-126 | the entry for the destination is new or overwritten, and marked |
| RoutingTables.IprtManager.Refresh | master/router/IPRT_Manager.cpp:142-324 | entries not marked since the last ageing are dropped, the others unmarked, then the kernel's routes entered |
| RoutingTables.MrtManager.MarkUsed | master/router/MRT_Manager.cpp:62-68 | a known mote's entry is marked; an unknown mote changes nothing |
| RoutingTables.MrtManager.LookUpNextHopMaster | master/router/MRT_Manager.cpp:70-85 | the next master, falling back to the mote's own master, with the consulted IP route marked |
| RoutingTables.MrtManager.LookUpNextHopMote | master/router/MRT_Manager.cpp:87-102 | the next mote for one's own motes, and the low 16 bits of an IP route otherwise |
| RoutingTables.MrtManager.Update | master/router/MRT_Manager.cpp:118-166 | inserts, overwrites or only marks; the router's own address is never inserted |
| RoutingTables.MrtManager.Refresh | master/router/MRT_Manager.cpp:182-219 | the loop over the map keeps exactly the marked entries, marked again only if their derived address has a route, and marks each route it asks for |
| RoutingTables.AskedGrows | master/router/MRT_Manager.cpp:191-211 | one more entry adds exactly its derived address to the addresses asked for |
| MasterRouter.TenetRouter.Unicast | master/router/TenetRouter.cpp:251-332 | what is sent, and to whom, is the specified output, which `RouterDelivery` spells out case by case; the tables change only by marks |
| MasterRouter.TenetRouter.DispatchPacket | master/router/TenetRouter.cpp:334-515 | outputs and new tables are the specified ones for every AM type, source and destination |
| MasterRouter.TenetRouter.OnReceive | master/router/TenetRouter.cpp:190-249 | a neighbour's packet first teaches both tables, then is dispatched |
| RouterAgeing.RunKeepsKeys | master/router/MRT_Manager.cpp:118-166 | along every run, each key equals its entry's mote id and the router's own address is never a key |
| RouterAgeing.StepMarks | master/router/MRT_Manager.cpp:62-68 | an event that uses or updates an entry leaves it marked, if it is there |
| RouterAgeing.RunMarks | master/router/MRT_Manager.cpp:62-68 | between refreshes an entry is marked if and only if it was, or some event touched it |
| RouterAgeing.SurvivesRefresh | master/router/MRT_Manager.cpp:182-219 | an entry used or updated since the last refresh survives the next, whatever happens between |
| RouterAgeing.TwoRefreshes | master/router/MRT_Manager.cpp:182-219 | an entry untouched between two refreshes is there after both if and only if it was used before the first and its derived address then had a route |
| RouterAgeing.IprtSurvives | master/router/IPRT_Manager.cpp:142-324 | an IP route is there after a refresh if and only if it was marked or the kernel lists it |
| RouterAgeing.SurvivalTestMarks | master/router/IPRT_Manager.cpp:63-76 | the survival test of a mote's entry marks the IP route it asks for, so that route survives its own next ageing |
| RouterDelivery.ToOwnMote | master/router/TenetRouter.cpp:259-276 | a unicast for a mote of this master: one packet to the motes, addressed to its next mote, from this master, otherwise unchanged but for the TTL of one from outside; nothing without motes |
| RouterDelivery.ToItself | master/router/TenetRouter.cpp:412-434 | what a mote sends to itself goes back to the hop it came from |
| RouterDelivery.ToOtherMaster | master/router/TenetRouter.cpp:277-283 | a unicast for a mote of another master: one packet to the next hop towards that master, or straight to it |
| RouterDelivery.ThroughItself | master/router/MRT_Manager.cpp:87-102 | a route to another master through this one ends at the mote numbered by the low 16 bits of its address |
| RouterDelivery.ToUnknown | master/router/TenetRouter.cpp:284-330 | a unicast for an unknown mote: one packet to the address derived from its id, nothing on a loopback address |
| RouterDelivery.ToTheTransport | master/router/TenetRouter.cpp:340-485 | the local transport is handed a packet if and only if it comes from outside and is a broadcast, for this master, for any master, from a mote for the serial port, or a TCMP packet out of TTL; once, and it goes nowhere else |
| RouterDelivery.Dropped | master/router/TenetRouter.cpp:340-375 | an own echo, and a routing packet that came back, are dropped |
| RouterDelivery.FromTheTransport | master/router/TenetRouter.cpp:453-512 | what the local transport sends to its own motes or to everybody |
| RouterDelivery.StepTeaches | master/router/TenetRouter.cpp:412-422 | an event changes the way to a mote if and only if it teaches it, and then to the hop and master taught |
| RouterDelivery.LastLesson | master/router/MRT_Manager.cpp:118-219 | after a lesson with no later one and at most one refresh since, the mote is in the table with the way taught |
| RouterDelivery.BackThroughLastHop | master/router/TenetRouter.cpp:251-276 | over whole runs: a mote whose unicast came in over some hop is sent to through that hop and no master, until another event teaches the way to it or two refreshes have passed |
| RouterDelivery.BackToItsMaster | master/router/TenetRouter.cpp:277-283 | the same for a mote last heard of through another master |
| RouterDelivery.ForwardingMarks | master/router/TenetRouter.cpp:251-283 | a dispatch marks exactly the route to the home of a unicast that travels |
| RouterDelivery.ForwardedRouteSurvives | master/router/IPRT_Manager.cpp:63-76 | the route a packet was forwarded by is there after the next ageing |
| RouterDelivery.RefreshedRoute | master/router/IPRT_Manager.cpp:142-324 | after a refresh the next hop is the last one the kernel lists, or else the one before if it was used |
| RouterDelivery.NeighborsAreDirect | master/router/TenetRouter.cpp:190-249 | other events leave every next hop alone, but a datagram from a master without one makes it its own |
| MasterNetwork.DispatchSendsOne | master/router/TenetRouter.cpp:334-515 | dispatching any packet sends at most one message to other masters |
| MasterNetwork.DoKeeps | master/router/TenetRouter.cpp:334-515 | every step of the system keeps: sends so far plus TTL in flight stay within the packet's budget, for every packet that has one |
| MasterNetwork.SendsWithinBudget | master/router/TenetRouter.cpp:334-515 | whatever the tables do, no routing packet, broadcast or packet for any master is sent between masters more often than its budget allows |
| MasterNetwork.EveryRunWithinBudget | master/router/TenetRouter.cpp:352-391 | from any start and any tables: at most TTL sends for a routing packet from a mote, TTL + 1 from the transport; at most one for a broadcast, none for a packet to any master |
| MasterNetwork.BroadcastsStop | master/router/TenetRouter.cpp:462-473 | a broadcast received from a neighbour is never sent on to a master |
| MasterNetwork.LoadDrops | master/router/TenetRouter.cpp:352-391 | delivering a packet makes the weighted sum of the packets in flight strictly smaller |
| MasterNetwork.FallsQuiet | master/router/TenetRouter.cpp:352-391 | a run without new packets has no more deliveries than that sum, so the system falls quiet |
| MasterNetwork.Bounce | master/router/TenetRouter.cpp:251-332 | two masters that take each other for the way to a packet's home pass it on, with another AM type, unchanged, whatever its source |
| MasterNetwork.StaysInAtOnce | master/router/TenetRouter.cpp:412-436 | what a mote sends to the serial port or, without a TTL, to itself is not sent on to any master |
| MasterNetwork.RunHolds | master/router/TenetRouter.cpp:334-515 | along every run such a packet is never in flight between masters |
| MasterNetwork.NoBoundWithoutTtl | master/router/TenetRouter.cpp:334-515 | for every other packet and every n, some run from fixed tables of three masters, with their own addresses and distinct local ids, sends that packet n + 1 times |
| MasterNetwork.BoundedIffContained | master/router/TenetRouter.cpp:334-515 | for a packet that enters from a mote, and for one from the local transport: over all tables and runs there is a bound on its sends between masters if and only if it is a routing packet, a broadcast, or for any master, or a mote sent it to the serial port or to itself |
| PackBits.UnpackPacket | apps/imaging/imaging.c:225-276 | one packet in front decodes to its expansion in front |
| PackBits.UnpackEncoded | apps/imaging/imaging.c:225-276 | any sequence of literal, run and no-op packets decodes to its expansions joined |
| PackBits.EncodingDecodes | apps/imaging/imaging.c:225-276 | the decoder accepts an encoding, with the right result, if and only if code and result fit the buffer |
| PackBits.AnyInput | apps/imaging/imaging.c:225-276 | every byte string is some packets and at most a cut-short tail, and decodes to their data |
| PackBits.DecodeRun | apps/imaging/imaging.c:225-276 | a run moves its bytes from the code still to decode to the output, stopping when the output is full |
| PackBits.DecodeLiteral | apps/imaging/imaging.c:225-276 | the same for a literal, which may be cut short by the end of the input |
| PackBits.DecodePacket | apps/imaging/imaging.c:225-276 | each round keeps output plus what is still to decode equal to the whole decoding |
| PackBits.DecodePackbits | apps/imaging/imaging.c:225-276 | terminates on every input, reads only inside it, and writes the decoding to the front of the output, which may be the input buffer; the error cases are exact |
| Reassembly.ResultItem.ProcessImage | apps/imaging/imaging.c:313-341 | one raw fragment changes buffer and counters as specified, including the output forced by a number below `lastpkt` |
| Reassembly.ResultItem.DecodeInPlace | apps/imaging/imaging.c:401 | what was received is decoded to the front of the same buffer |
| Reassembly.ResultItem.ProcessPackbits | apps/imaging/imaging.c:379-413 | one PackBits fragment changes the state as specified, or the program gives up |
| ReassemblyRuns.ImagesWritten | apps/imaging/imaging.c:313-341 | over any stream, images written = last fragments + drops below the running `lastpkt` |
| ReassemblyRuns.BodyRuns | apps/imaging/imaging.c:318-341 | fragments in non-decreasing order, repeats allowed, write no image and fill their places |
| ReassemblyRuns.WholeImage | apps/imaging/imaging.c:313-341 | an image whose fragments all arrive in non-decreasing order is output whole, with the state back at its start, if and only if the bytes before the last one, with what was there before, stay under BUF_SIZE |
| ReassemblyRuns.WholeAfterUnfinished | apps/imaging/imaging.c:313-341 | an image that follows an unfinished one with a lower number: the unfinished one is output with the buffer as it was, and the new one whole after it, if and only if its own bytes before the last stay under BUF_SIZE |
| ReassemblyRuns.RepeatsFillBuffer | apps/imaging/imaging.c:313-341 | an image of two fragments of 40 bytes whose first comes n times: the program gives up if and only if n is at least 1639 |
| ReassemblyRuns.PiecesPileUp | apps/imaging/imaging.c:383-413 | PackBits fragments pile up unless a number is neither the previous one nor the next |
| ReassemblyRuns.PackBitsImage | apps/imaging/imaging.c:383-413 | what is output is the decoding of the payloads in arrival order; exact condition for the program giving up |
| ReassemblyRuns.CollectsSent | apps/imaging/imaging.c:383-413 | when every fragment carries what was sent under its number, an accepted run collects exactly the sent bytes if and only if no non-empty fragment repeats the number before it, and strictly more otherwise |
| ReassemblyRuns.ImageIsAsSent | apps/imaging/imaging.c:383-413 | so a written image is decoded from what the mote sent if and only if nothing was repeated |
| ReassemblyRuns.RepeatIsUsedTwice | apps/imaging/imaging.c:394 | a run in which the first of two fragments comes twice is accepted and writes its byte twice |
| Bmp.SwapInPlace | apps/imaging/bmp.c:184-192 | the counting loop swaps the outer bytes of every full three and leaves the rest |
| Bmp.SwappedTwice | apps/imaging/bmp.c:184-192 | the swap undoes itself |
| Bmp.SwappedOneMore | apps/imaging/bmp.c:251-265 | swapping as bytes stream in equals swapping at the end |
| Bmp.HeaderFields | apps/imaging/bmp.c:5-24 | width, height and bits are read from where they were written, both headers packed |
| Bmp.HeaderLayout | apps/imaging/bmp.c:5-24 | every field of both headers is at its place with its value: letters, size, data offset, dimensions, planes, bits, colours, zeros |
| Bmp.GreyRamp | apps/imaging/bmp.c:26-112 | entry g of the colour table is g three times and 0 |
| Bmp.BlueFirst | apps/imaging/bmp.c:184-192 | each pixel has its outer colours exchanged in the file; bytes after the last full three stay |
| Bmp.FileLayout | apps/imaging/bmp.c:196-206 | header, then colour table and data of a grey image, or the swapped data of a colour image, and nothing else |
| Bmp.FormatsRead | apps/imaging/bmp.c:211-282 | pixels below 24 bits are read as grey, from 24 to 39 as colour, no others |
| Bmp.TrailingBytes | apps/imaging/bmp.c:249-282 | bytes behind the image are not read and give the length -1 |
| Bmp.ConvertDataToBmp | apps/imaging/bmp.c:124-209 | writes the specified file and leaves the caller's colour image swapped |
| Bmp.ReadBody | apps/imaging/bmp.c:249-268 | the streaming loop stores the first `len` bytes, swapped for colour, and counts them all |
| Bmp.ConvertBmpToDat | apps/imaging/bmp.c:211-282 | reads any file with both headers, with -1 for a length that does not match and an error for other formats |
| Bmp.RoundTrip | apps/imaging/bmp.c:124-282 | for both formats, reading what was written gives back format, width, height and every byte |
| Seqno.NewerInRange | mote/lib/transport/tr_seqno.c:86-113 | inside 1..50000, newer means up to 49800 ahead without the wrap or under 200 ahead across it |
| Seqno.DiffIsLeastWalk | mote/lib/transport/tr_seqno.c:44-59 | the difference is the least number of successor steps between two numbers |
| Seqno.DiffAdds | mote/lib/transport/tr_seqno.c:44-48 | differences add up as long as they stay short of a full turn |
| Seqno.Gap | master/transport/packettransport.c:99-123 | the gap-counting loop ends for every pair of 16-bit numbers |
| Seqno.MissingIsExact | master/transport/packettransport.c:99-123 | the count is exactly the numbers passed over if and only if the new number is in 1..50000 |
| Seqno.MissingIsDistance | master/transport/packettransport.c:99-123 | inside the range the count is one less than the difference |
| Seqno.FalseLosses | master/transport/packettransport.c:99-123 | above 50000, where motes go on numbering, packets in order are counted as k - 1 losses each |
| LossEwma.LossEwma.Update | master/transport/connectionlist.c:216-263 | the estimator's fields change as specified, which `LossRuns.AverageOfSamples` turns into a formula over runs |
| LossEwma.EpochGrows | master/transport/connectionlist.c:227-242 | for numbers in 1..50000 the distance from the start of the epoch grows by the step, and stays above the packets counted |
| LossEwma.EpochAdvances | master/transport/connectionlist.c:216-242 | for all 16-bit numbers a newer one lies further from the start of the epoch, unless it is exactly 50000 below the last |
| LossEwma.EwmaStepKeepsOk | master/transport/connectionlist.c:216-263 | for all 16-bit numbers, an update keeps 0 < Di <= 1, 0 < Davg <= 1, Lavg = 1 - Davg and the count within the distance if and only if the number is sound: an opening number is not 0, and a later one is not exactly 50000 below the last, or follows a loss in the epoch; the caller moves lastRecvSeqNo on afterwards |
| LossEwma.EwmaStepKeepsRates | master/transport/connectionlist.c:216-263 | for all 16-bit numbers and any state of the epoch, an update keeps 0 < Di <= 1, 0 < Davg <= 1 and Lavg = 1 - Davg if and only if the number is fair: an opening number is not 0, and one that ends an epoch ends it with no more packets than steps |
| LossEwma.RateAboveOne | master/transport/connectionlist.c:244 | three numbers after which Di is 2; the last is neither sound nor fair |
| LossEwma.UnsoundYetFair | master/transport/connectionlist.c:216-263 | four numbers one second apart, of which the third is not sound: Di and Davg do not move, and the count is right again after the fourth |
| LossEwma.ZeroSteps | master/transport/connectionlist.c:244 | two numbers after which the program divides by zero |
| LossAli.MeanBounds | master/transport/connectionlist.c:344-366 | a weighted mean lies between the least and the greatest interval |
| LossAli.RingPush | master/transport/connectionlist.c:336-339 | overwriting the slot after the head puts the interval first and drops the oldest of a full ring |
| LossAli.Interval | master/transport/connectionlist.c:301-333 | every interval stored is in [2,20] |
| LossAli.IntervalIsSpan | master/transport/connectionlist.c:301-333 | for numbers up to 50000, the first interval is the number of steps to the newest number, one on and at most 10; any other the steps from the last loss to it, one on, kept in [2,20] |
| LossAli.LossAli.Push | master/transport/connectionlist.c:336-339 | the ring array refines a list of the eight most recent intervals |
| LossAli.LossAli.Update | master/transport/connectionlist.c:281-378 | gap, means and estimate as specified, the means computed by loops over the ring; `LossRuns.EstimateOfIntervals` says what they are over runs |
| LossAli.AliStep | master/transport/connectionlist.c:281-378 | Savg >= 2, Lavg its reciprocal and 0 < Lavg <= 1/2 while the window is not empty |
| PacketTransport.Connection.DetectMissing | master/transport/packettransport.c:99-123 | the loop counts exactly Missing and adds it to the total lost |
| PacketTransport.UpdateConnectionLossrate | master/transport/connectionlist.c:380-383 | the two estimator objects together make the step that the receive path makes of their states |
| PacketTransport.Connection.ReceiveData | master/transport/packettransport.c:272-300 | counters and estimators are updated before lastRecvSeqNo; the packet is acknowledged if it asks, and passed up, old or not (`ReceiverRuns.AcknowledgedAndDelivered` over runs) |
| PacketTransport.Connection.TimerFired | master/transport/packettransport.c:334-355 | retransmit with the same number, or give up and leave the alarm as it is |
| PacketTransport.Transport.Send | master/transport/packettransport.c:155-190 | the list changes as specified, a new connection going to the front |
| PacketTransport.Transport.Receive | master/transport/packettransport.c:227-310 | the connection of the sender changes as specified for every flag |
| PacketTransport.Transport.Poll | master/transport/packettransport.c:357-369 | exactly the first connection whose alarm is due is served |
| PacketTransport.Transport.DeleteTid | master/transport/packettransport.c:426-442 | exactly the connections of the task leave the list, the others in order; the result says whether there was one |
| TransportRuns.StepProjects | master/transport/packettransport.c:155-442 | one event changes at most the connections it concerns, a deletion those of one task |
| TransportRuns.NewestServedFirst | master/transport/packettransport.c:357-369 | a connection just created is in front and is served before older ones that are due |
| TransportRuns.RunProjects | master/transport/packettransport.c:155-442 | in any interleaving each connection ends, and puts out, what its own history alone gives, deletions included |
| ConnectionRuns.SendLimit | master/transport/packettransport.c:155-211 | in every life of a connection, from its creation to its deletion, every send makes one to six transmissions, all of its message and all with the number one more than the last send's (16 bits) |
| ConnectionRuns.TransmissionsPerRun | master/transport/packettransport.c:155-442 | in any run of the transport, over all lives of a connection, it is sent at most six packets for each message |
| ConnectionRuns.NeverAcknowledged | master/transport/packettransport.c:334-355 | for any poll times: an unanswered send is transmitted at the first five polls that find its alarm due, each putting it off, then reported failed, and reported failed again at every later due poll |
| ConnectionRuns.EveryLaterPoll | master/transport/packettransport.c:334-369 | after giving up, every poll is a due one, however close together they come |
| ConnectionRuns.ReportsOfSend | master/transport/packettransport.c:213-355 | in every life of a connection the reports between the k-th send and the next are one success for each acknowledgement and one failure for each poll with nothing left to try, so there is exactly one if and only if these are one in all; only the first hands back the message |
| ReceiverRuns.EveryArrivalAnswered | master/transport/packettransport.c:272-300 | in every history, acknowledgements and payloads passed up are exactly those its arrivals call for, in order, the acknowledgement first |
| ReceiverRuns.AcknowledgedAndDelivered | master/transport/packettransport.c:272-300 | in any run of the transport, the numbers acknowledged on a connection are those of the packets that asked, and the payloads passed up those of all packets, in order, old ones and repetitions included |
| ReceiverRuns.AcknowledgedIsOver | master/transport/packettransport.c:257-270 | after an acknowledgement nothing is transmitted again and no poll does anything, until the next send |
| ReceiverRuns.UnansweredSend | master/transport/packettransport.c:155-190 | a message never acknowledged is transmitted again at the first five polls that find three seconds passed since the transmission before, then given up |
| ConnectionRuns.BalanceStep | master/transport/packettransport.c:284-292 | an accepted packet keeps the balance if and only if its number is in 1..50000 |
| ConnectionRuns.CountsBalance | master/transport/packettransport.c:272-292 | received + lost is the way from the first number to lastRecvSeqNo all along a run if and only if every accepted number is in 1..50000 |
| ConnectionRuns.EwmaStaysOk | master/transport/connectionlist.c:200-263 | the bounds on the rates together with the bound on the count of the epoch hold all along a run, restarts included, if and only if every accepted number is sound |
| ConnectionRuns.RatesStayInBounds | master/transport/connectionlist.c:200-263 | the bounds on the rates alone hold all along a run, restarts included, if and only if every accepted number is fair |
| ConnectionRuns.SoundIsFair | master/transport/connectionlist.c:200-263 | a run whose numbers are all sound has only fair ones |
| ConnectionRuns.InRangeIsSound | master/transport/connectionlist.c:200-263 | numbers in 1..50000 are always sound |
| ConnectionRuns.RateExceedsOne | master/transport/connectionlist.c:244 | four arrivals, from the one that creates the connection on, after which the delivery rate is 2 |
| ConnectionRuns.EpochReceives | master/transport/connectionlist.c:216-263 | in every run, whatever the numbers, the estimator's count is what the connection's has grown by in this epoch |
| ConnectionRuns.EpochsCount | master/transport/connectionlist.c:216-263 | for numbers in 1..50000, within an epoch the estimator's count and distance are what the connection's totals have grown by |
| ConnectionRuns.EpochRate | master/transport/connectionlist.c:244 | for numbers in 1..50000, each closing sample Di is received / (received + lost) of the epoch |
| ConnectionRuns.NoLossIffClean | master/transport/connectionlist.c:210-263 | for numbers in 1..50000, Lavg is 0 if and only if no epoch that counts towards it lost a packet |
| ConnectionRuns.EpochsMiscount | master/transport/connectionlist.c:216-263 | three arrivals in order from 50010 on, after which the two counts of the epoch differ |
| ConnectionRuns.RatesDisagree | master/transport/connectionlist.c:210-263 | a run above 50000 that loses nothing and ends with Di 1 and Lavg 0, while the loss count of the epoch is 11 |
| ConnectionRuns.RingHoldsRecent | master/transport/connectionlist.c:265-378 | over every run the ring holds exactly the most recent eight intervals since the last restart or deletion, lastLoss is the last number lost, both computed from the events alone, and Lavg is 0 if and only if there is no interval |
| ConnectionRuns.EstimateBounds | master/transport/connectionlist.c:340-373 | once a loss is seen the mean is in [2,20] and 0 < Lavg <= 1/2 |
| LossRuns.EpochBegan | master/transport/connectionlist.c:229-262 | an epoch begins at the number and time of the event that opened it or closed the one before |
| LossRuns.AverageOfSamples | master/transport/connectionlist.c:244-252 | over every run, from the samples d1..dk since the opening or restart, each received over distance: Davg is 0.9^(k-1) d1 plus the sum of 0.1 0.9^(k-i) di, Lavg is 1 - Davg and Di the last sample |
| LossRuns.EstimateOfIntervals | master/transport/connectionlist.c:344-373 | over every run with a loss, Savg is the larger of the mean of the recent intervals and, with two or more, the mean with the walk since the last loss in front and the oldest left out, with weights 1, 1, 1, 1, 0.8, 0.6, 0.4, 0.2; Lavg is its reciprocal |
| LossRuns.InOrderNeverRaises | master/transport/connectionlist.c:342-373 | for numbers in 1..50000, a packet in order does not raise Lavg if and only if its number is not the last one lost or there are fewer than two intervals |
| LossRuns.RisesAfterFullTurn | master/transport/connectionlist.c:342-373 | a run of packets in order whose 49999th raises Lavg |
| Tlv.ParseIsInverse | master/tasklib/tenetAPI.c:156-180 | walking a buffer gives some attributes if and only if the buffer is their encoding |
| Response.WordsAt | master/tasklib/tenetAPI.c:165-173 | each word is two bytes, low first; an odd last byte makes a word of its own |
| Response.WordsLoseNothing | master/tasklib/tenetAPI.c:165-173 | two values of one length with the same words are the same |
| Response.InsertGoesLast | master/tasklib/response.c:69-98 | an inserted attribute comes after those of the same type |
| Response.StableSort | master/tasklib/response.c:69-98 | inserting one by one is a stable sort by type |
| Response.SortIsUnique | master/tasklib/response.c:69-98 | that determines the list: there is only one stable sort |
| Response.InsertedRepresent | master/tasklib/tenetAPI.c:156-180 | inserting the attributes gives a list sorted by type whose j-th item of each type has that type and the words of the j-th attribute of it: (length + 1) / 2 of them, each value[2k] + 256 value[2k+1], or value[2k] at an odd end |
| Response.FoundIsFirst | master/tasklib/response.c:59-66 | what is found is the first of its type; without it the others of that type stay in order |
| Response.RemoveLeavesOthers | master/tasklib/response.c:100-121 | removing leaves all other types and the order alone |
| ResponseList.ResponseList.Find | master/tasklib/response.c:59-66 | the node found is the first of the type, or null |
| ResponseList.ResponseList.InsertAttr | master/tasklib/response.c:69-98 | the linked list becomes the insertion, length included |
| ResponseList.ResponseList.Remove | master/tasklib/response.c:100-121 | exactly the first node of the type is unlinked |
| ResponseList.ResponseList.Pop | master/tasklib/response.c:123-133 | the front node goes and its type is returned |
| ResponseList.ResponseList.Delete | master/tasklib/response.c:51-57 | terminates with the list empty |
| ResponseList.ReadWords | master/tasklib/tenetAPI.c:160-173 | the loop splits a value into exactly its words |
| ResponseList.ReadResponse | master/tasklib/tenetAPI.c:125-184 | no list for an error packet; otherwise terminates with a list that represents the packet's attributes: sorted by type, in order within a type, each with its words |
| ResponseList.ResponseIsSortedPacket | master/tasklib/tenetAPI.c:156-180 | for every packet the list represents its attributes, and finding a type gives an item with the type and words of its earliest attribute |
| TaskBuffer.ConstructInit | master/tasklib/element_construct.c:19-35 | only the type byte is written |
| TaskBuffer.ConstructFinalize | master/tasklib/element_construct.c:40-47 | only the element count is written, modulo 256 |
| TaskBuffer.ConstructIssue | master/tasklib/element_construct.c:71-92 | the element's header and parameters are written at len, except the padding byte |
| TaskBuffer.ConstructCount | master/tasklib/element_construct.c:94-115 | the element's bytes are written at len, negative counts in two's complement |
| TaskBuffer.ConstructGet | master/tasklib/element_construct.c:117-137 | the element's bytes are written at len |
| TaskBuffer.ConstructActuate | master/tasklib/element_construct.c:139-161 | the element's bytes are written at len |
| TaskBuffer.ConstructReboot | master/tasklib/element_construct.c:163-178 | a header without parameters is written at len |
| TaskBuffer.ConstructLogical | master/tasklib/element_construct.c:180-204 | the element's bytes are written at len |
| TaskBuffer.DecodeParams | mote/lib/tenet_task.h:332-413 | a mote reads every element back from its parameters, whatever the padding |
| TaskBuffer.WireFormat | mote/lib/element_map.h:17-30 | the exact bytes of every element: code, length and parameters |
| TaskBuffer.WrittenKeepsPrefix | master/tasklib/element_construct.c:71-204 | no constructor touches the bytes before it |
| TaskBuffer.TaskReadsBack | master/tasklib/task_construct.c:59-78 | walking a finished task recovers exactly the elements in order; the count is right if and only if there are fewer than 256; total length the sum; nothing behind it changes |
| VotingQueue.Queue.Enqueue | apps/MPEG/queue.c:69-80 | the ring's contents gain x at the end, a full ring losing its oldest |
| VotingQueue.Queue.Dequeue | apps/MPEG/queue.c:92-99 | the oldest item goes |
| VotingQueue.Queue.GetWindow | apps/MPEG/queue.c:82-90 | copies a prefix of the contents |
| VotingQueue.KeepsMostRecent | apps/MPEG/queue.c:69-80 | after any number of reports the queue holds exactly the most recent ones, in order |
| VotingQueue.CountVotes | apps/MPEG/localization.c:434-435 | one report adds its row's votes, slot by slot |
| VotingQueue.VotesAreConserved | apps/MPEG/localization.c:431-436 | every report casts exactly POSITIONS votes |
| VotingQueue.BestPosition | apps/MPEG/localization.c:454-463 | the lowest position with the most votes, slot 0 aside |
| VotingQueue.WinnerIsNamedMost | apps/MPEG/localization.c:431-463 | the winner is the lowest of the positions that the rows of the queued reports name most often |
| VotingQueue.Queue.ComputeEvaderPosition | apps/MPEG/localization.c:418-468 | drains the queue and returns the lowest of the positions named most often in the rows of what was in it |

## Left out

- Doubles are modelled as reals: rounding, infinities and NaN are not captured.
- Sockets, serial forwarders, files, logging, option parsing and printing; the clock, the
  kernel's routes and the network's choices are parameters.
- Planning.Planner.GetPath: needs the vertices to fit the fixed vector (V <= MAXVECTOR), as
  the program does; a larger graph would write past it.
- Planning.Planner.Plan: the same.
- PTree.PingForest.AddPtreeEdge: the counters num_data, num_all and num_roots, link quality,
  printing and delete_ptree are not modelled; detached nodes are not freed, as in the program.
- RoutingTables.MrtManager.Refresh: the map's iteration order is not fixed by the model; the
  result is proved the same for every order.
- MasterNetwork.SendsWithinBudget: the network may lose, delay and reorder but not duplicate
  packets.
- Reassembly.ResultItem.ProcessImage: needs the fragment to lie inside the buffer, which the
  program does not check; RLE images, other response types and the query front end are left
  out, and both fragment types are run separately.
- Reassembly.ResultItem.OutputResult: keeps a copy of the buffer as it is when an image is
  written; that writing a colour BMP swaps bytes of that same buffer is proved in `Bmp` but
  not fed back into the next image.
- Bmp.ConvertBmpToDat: needs the file to hold both headers; products of width and height are
  not cut to 32 bits.
- LossEwma.Ratio: a zero divisor gives 0 where the program gets infinity; 0 is outside the
  bounds, so every step that divides by zero counts as breaking them.
- LossEwma.EpochGrows: the exact distance is stated for numbers in 1..50000 only, since it
  fails above; for all numbers there is `LossEwma.EpochAdvances`.
- ConnectionRuns.EpochsCount: the half about the distance is for numbers in 1..50000 only,
  since `ConnectionRuns.EpochsMiscount` shows that it fails above; the half about the count
  is `ConnectionRuns.EpochReceives`.
- ConnectionRuns.EpochRate: for numbers in 1..50000 only, since it fails above
  (`ConnectionRuns.RatesDisagree`).
- ConnectionRuns.NoLossIffClean: the same.
- LossEwma.LossEwma.Update: with a clock that goes back the program reads an unset interval;
  the model takes it as 0 seconds, and no property depends on it.
- Reassembly.ResultItem.ProcessPackbits: needs the payload to end inside the buffer, which
  the program does not check either.
- PacketTransport.Connection: holds the states of the two estimators as values; that their
  fields and ring, updated in place, give those values is proved in `LossEwma` and `LossAli`,
  and for both together in `PacketTransport.UpdateConnectionLossrate`.
- PacketTransport.Transport.Send: payloads so long that header and payload exceed the 8-bit
  length, the packet rates and checksums are not modelled; the linked list is a sequence of
  connection objects.
- ResponseList.ReadResponse: needs the packet to be made of whole attributes, as the program
  does not check lengths; allocation failures and timeouts are left out.
- ResponseList.ResponseList.Pop: gives the type only, since the value it points to has been
  freed.
- TaskBuffer.ConstructCount: writes the three parameters in memory order; the program's order
  differs and the result is the same. The remaining constructors follow the same pattern, and
  the three that swap bytes (construct_rle, construct_packbits, construct_vector) do not fit
  this framing.
- VotingQueue.Queue.ComputeEvaderPosition: needs the queued ids to be rows of the table, as
  the program indexes it unchecked.
- VotingQueue.Queue.constructor: needs a capacity of at least 2, since the front starts at 1.
- TRD, RCRT, the task parser, robot control and client lists are not part of this model.
