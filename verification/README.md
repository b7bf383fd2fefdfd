# Link-state routing, network coding and MAC accounting of a mesh extension to ns-3

This project models three parts of the repository and proves what they are for.

**ETOX link-state routing** (`etox/model`). Every node floods timestamped hellos, keeps a database of
everyone's link metrics, reconciles the two directions of each link, and runs Dijkstra's algorithm over a
binary heap whose slots and graph nodes point at each other. The predecessors go into a next-hop table that
is never cleared, and `FindSendEntry` walks that table in an unguarded loop.

**MYNC network coding** (`mync/model`). The output queue is indexed by one virtual queue of pointers per
neighbour. An encoder looks for packets that several neighbours can decode at once, XORs them, and puts them
into a retransmission queue; a decoder undoes the XOR with the packets it has pooled.

**The lower MAC** (`wifi/model/mac-low.cc`, `TxRatio`). A reorder buffer for block acknowledgement (section
9.10.4 of IEEE 802.11) delivers fragments in order, and a counter per destination keeps sends and
acknowledgements.

## How the model is built

Each operation has a function on values, which says what it computes, and, since the source works by changing
things in place, a method on a class or array that is proved to compute it; the results are lemmas about the
functions, mostly over whole runs.

| file | contents |
|---|---|
| `Metrics`, `Addresses`, `Options`, `Octets` | 64-bit metrics, addresses, options, network byte order |
| `BHeap`, `ShortestPaths`, `RestoredPaths`, `StalePointers`, `Misled` | the heap, Dijkstra, the repaired variant, and what the stale back pointer costs |
| `LinkState`, `Routing`, `Wrapping` | database and adjacency list, the next-hop table, overflow |
| `HelloProtocol`, `HelloFlooding`, `HelloHeaders` | flooding among all nodes, how far it gets and what it tells, the hello on the wire |
| `XorCoding` | XOR, packet pool, decoding |
| `MyncQueues`, `MyncNeighbors`, `MyncProtocol` | queues, neighbours and all operations of one coding node, on values |
| `MyncIndex`, `MyncSending`, `MyncLearning`, `MyncRuns` | the virtual queues index the output queue, over every run |
| `MyncCoding`, `MyncFrames`, `MyncChannels`, `MyncCredits` | what Encode builds and DoSend sends, channels, bounded retransmission |
| `MyncConservation`, `MyncOrder` | no packet is lost, and packets for one address stay in line |
| `MyncPlans` | Encode among any number of neighbours, decided by channels |
| `MyncTrios`, `MyncWitnesses` | three neighbours: runs in which the code departs from its intent, and exactly when |
| `MyncPackets`, `MyncEntries`, `MyncNonstop` | packets up to their time to live, and when no run stops |
| `MyncNetwork`, `MyncAnswers`, `MyncRecords`, `MyncBystander` | all nodes together: what a frame changes, acknowledgements that return, when what is on record of others is true, and a run in which it is not |
| `MyncNeighborTable`, `MyncNode`, `MyncHeaders` | the coding node as objects, its headers on the wire |
| `Reorder` | the reorder buffer |
| `TxRatios`, `MacLow`, `SharedRatios` | counters, the transmission state machine, and the counter shared with the coding layer |

## Where the code departs from its intent

The model follows the code. The results say which version they are about.

- `etox/model/BHeap.cc:138` moves the last slot to the root without updating that node's back pointer, so a
  relaxation in between writes a slot that is no longer in use. The flag `restoring` selects the source (false)
  or the variant with that one assignment added (true). Order-independent results hold for both; shortest paths
  hold for the variant, and for the source on every graph whose least walks need at most two hops, but not on all
  that need three.
- `mync/model/mync-protocol.cc:860` XORs the original with the newest partner instead of accumulating. A frame
  is the XOR of its natives exactly if the natives between the first and the last cancel out. A receiver checks
  the id of what it decodes (608), which fails if the XOR at 945-948 has stripped zeros the packet ended in; a
  bystander does not (619), and puts what it got into its pool and on record.
- `mync/model/mync-protocol.cc:945-947` runs off the buffer when the XOR is all zero.
- `mync/model/mync-protocol.cc:831-850` goes on scanning channels after an empty intersection, which can end in
  the fatal error at `mync/model/mync-neighbor.cc:628`; and a candidate rejected at 853 has already narrowed the
  channels at 837. `MyncWitnesses` shows a run for each.
- The comment at `mync/model/mync-protocol.cc:668-670` promises 0 when every packet is there; the code returns
  -2, and 0 when 256 or more packets are listed and all are there.
- `etox/model/link-state-header.h:44-47` lists TTL and flag before the pairs; on the wire they come last.
- The length of a MyncHello is eight bits wide while all pairs are written.
- The counters of `TxRatio` are 32 bits wide and their assertion fails when the sends wrap. The coding layer
  counts a send under the address the native is listed for and an acknowledgement under the address the frame
  came from (`mync/model/mync-protocol.cc:385`, `545`), which can be another interface of the same node.

Fatal errors, failed assertions and reads of invalid memory are modelled as stopping with a reason.
`QosUtilsMapSeqControlToUniqueInteger` is not part of this repository; the sort key is the circular distance
from the number that follows the window end it is given, as its use and `wifi/model/mac-low.h:587-592` describe.

## Model

| member | source | states |
|---|---|---|
| `Metrics.PlusExactIffBounded` | etox/model/link-state-repo.h:49 | the 64-bit sum `distance + weight` is exact for every distance in use if and only if the weight is at most 2 * (INFINITE / 3) |
| `BHeap.BinaryHeap.Swap` | etox/model/BHeap.cc:113-121 | exchanges two slots and makes the back pointers of both nodes aim at their new slots |
| `BHeap.BinaryHeap.Heapify` | etox/model/BHeap.cc:65-82 | the in-place sift computes the heap of the specification, and terminates by growth of its index |
| `BHeap.BinaryHeap.HeapifyDown` | etox/model/BHeap.cc:85-99 | the loop shared by Build and Rebuild heapifies every inner slot, last first |
| `BHeap.BinaryHeap.Build` | etox/model/BHeap.cc:85-91 | the in-place loop over the inner slots is the bottom-up construction |
| `BHeap.BinaryHeap.Rebuild` | etox/model/BHeap.cc:94-99 | the same construction over the live prefix |
| `BHeap.BinaryHeap.ExtractMin` | etox/model/BHeap.cc:131-141 | returns the root node, moves the last slot to the root and shrinks the heap; the parameter tells whether the missing back pointer is restored |
| `BHeap.BinaryHeap.Decrease` | etox/model/BHeap.cc:151-164 | lowers a key and sifts it up; a raise is refused |
| `BHeap.BinaryHeap.constructor` | etox/model/BHeap.cc:33-53 | one slot per node, forward and back pointers mutually inverse, node numbers and distances copied |
| `BHeap.HeapifyOrders` | etox/model/BHeap.cc:65-82 | Heapify repairs a heap in which only its argument violates the order |
| `BHeap.RebuildMakesMinHeap` | etox/model/BHeap.cc:85-99 | any keys: Build and Rebuild turn the live prefix into a min-heap |
| `BHeap.RebuildRearranges` | etox/model/BHeap.cc:94-99 | Rebuild only permutes (node, key) pairs among live slots, and keeps labels and mutually inverse pointers where they were |
| `BHeap.BuildRearranges` | etox/model/BHeap.cc:85-91 | Build does the same with all slots live |
| `BHeap.SwapKeepsBackLinks` | etox/model/BHeap.cc:113-121 | Swap keeps forward and back pointers mutually inverse |
| `BHeap.RootIsMinimal` | etox/model/BHeap.cc:124-128 | slot 0 of a min-heap has the least key of all live slots |
| `BHeap.ExtractMinKeepsOrder` | etox/model/BHeap.cc:131-141 | the heap left by ExtractMin is in heap order, with and without the restored pointer |
| `BHeap.DecreaseKeepsOrder` | etox/model/BHeap.cc:151-164 | Decrease restores heap order by sifting up |
| `ShortestPaths.Dijkstra.constructor` | etox/model/Dijkstra.cc:30-34 | a run over a closed adjacency list starts with one node record and one predecessor slot per node |
| `ShortestPaths.Dijkstra.Initialize` | etox/model/Dijkstra.cc:42-56 | distances 0 and INFINITE / 3, no predecessors, and a built heap |
| `ShortestPaths.Dijkstra.Relax` | etox/model/Dijkstra.cc:59-74 | what one relaxation does to record, predecessor and the slot the back pointer aims at, dead or live |
| `ShortestPaths.Dijkstra.RelaxEdges` | etox/model/Dijkstra.cc:87-94 | the inner loop relaxes every edge of the extracted node and rebuilds the heap after each |
| `ShortestPaths.Dijkstra.ProcessMin` | etox/model/Dijkstra.cc:83-95 | the body of the outer loop is one turn of the specification |
| `ShortestPaths.Dijkstra.Calculate` | etox/model/Dijkstra.cc:77-98 | the nested loops over array and heap compute the run that all results below are about |
| `ShortestPaths.EveryNodeExtractedOnce` | etox/model/Dijkstra.cc:77-98 | source and variant, any weights: no handler is NULL, there are exactly n outer iterations and every node is extracted exactly once |
| `ShortestPaths.LoweredForest` | etox/model/Dijkstra.cc:59-74 | a successful relaxation never closes a cycle of predecessors, not even over zero weights |
| `ShortestPaths.TurnKeepsForest` | etox/model/Dijkstra.cc:77-98 | a turn keeps the partition into extracted and live nodes and the predecessor forest, whatever order the heap yields |
| `ShortestPaths.PrehopsFormForest` | etox/model/Dijkstra.cc:77-98 | source and variant, bounded weights: predecessors form a forest rooted at node 0, exactly the reached nodes have one, node 0 never does, and each predecessor path is a real walk no heavier than the stored distance |
| `ShortestPaths.ShortestIffNoEdgeRelaxes` | etox/model/Dijkstra.cc:77-98 | source and variant: the distances are the least walk weights if and only if no edge could be relaxed once more |
| `RestoredPaths.RelaxedFresh` | etox/model/Dijkstra.cc:59-74 | variant: Relax never succeeds on an extracted node, so it always writes a live slot |
| `RestoredPaths.RestoredCalculateIsShortest` | etox/model/Dijkstra.cc:77-98 | variant with the one back pointer restored: every distance is the least walk weight from node 0 capped at INFINITE / 3, and the predecessor path attains it |
| `StalePointers.TwoHopWalksBound` | etox/model/Dijkstra.cc:77-98 | source as written, every bounded graph and whatever order the heap yields: no stored distance exceeds the weight of any walk of at most two hops |
| `StalePointers.TwoHopGraphsAreRight` | etox/model/Dijkstra.cc:77-98 | source as written: shortest distances on every bounded graph, of any size, whose least walks need at most two hops |
| `StalePointers.SmallGraphsAreRight` | etox/model/Dijkstra.cc:77-98 | source as written: hence right for every bounded graph of at most three nodes |
| `StalePointers.MisleadingIsWrong` | etox/model/BHeap.cc:131-141 | source as written: on the graph 0-3 (1), 0-1 (10), 3-1 (1), 1-2 (1) and its extensions, whose least walks need at most three hops, it stores 11 for node 2, which a walk of weight 3 reaches |
| `Misled.DatabaseIsMisleading` | etox/model/link-state-routing-protocol.cc:838-872 | a database of four nodes from which GenerateAdjList builds that graph |
| `Misled.TableIsMisled` | etox/model/link-state-routing-protocol.cc:708-773 | after one CalculateTable on it the table gives node 3 the distance 11, although a walk of weight 3 leads there |
| `StalePointers.RightIffTwoHops` | etox/model/Dijkstra.cc:77-98 | source as written: right on every bounded graph whose least walks need at most h hops if and only if h is at most two |
| `StalePointers.RightIffTwoHopsOrThreeNodes` | etox/model/Dijkstra.cc:77-98 | the same for graphs of n nodes: if and only if h is at most two or n at most three |
| `LinkState.LinkStateNode.Update` | etox/model/link-state-node.cc:105-112 | a hello replaces pairs and time |
| `LinkState.LinkStateNode.GetMetric` | etox/model/link-state-node.cc:139-148 | the loop finds the first metric listed for an address, or 0 |
| `LinkState.LinkStateNode.AddMetric` | etox/model/link-state-node.cc:151-165 | the loop overwrites the first metric listed for an address, or appends one |
| `LinkState.LinkStateNetwork.AddNode` | etox/model/link-state-node.cc:218-226 | a known address is refused; addresses stay distinct |
| `LinkState.LinkStateNetwork.Update` | etox/model/link-state-node.cc:262-283 | adds an unknown sender, replaces a known one only by a newer hello, and returns its node |
| `LinkState.LinkStateNetwork.Search` | etox/model/link-state-node.cc:287-296 | the node with the address, or null if there is none |
| `LinkState.LinkStateNetwork.Index` | etox/model/link-state-node.cc:339-348 | the first position of the address, or the number of nodes |
| `LinkState.LinkStateNetwork.GenerateAdjList` | etox/model/link-state-routing-protocol.cc:838-872 | the loops build the adjacency list of the specification from the database |
| `LinkState.LinkStateNetwork.Reconcile` | etox/model/link-state-routing-protocol.cc:852-863 | the weight of one pair: the other end's metric if it is non-zero and newer |
| `LinkState.UpdatedIndex` | etox/model/link-state-node.cc:262-283 | an update moves no node, and afterwards the sender is known |
| `LinkState.MetricEntered` | etox/model/link-state-node.cc:151-165 | entering a metric changes what GetMetric finds for that address and for no other, and lists no address twice |
| `LinkState.AdjListIsClosed` | etox/model/link-state-routing-protocol.cc:838-872 | one row per node in network order, and every target index is in range |
| `LinkState.RowEdges` | etox/model/link-state-routing-protocol.cc:838-872 | a row holds exactly one edge for each listed address of a known node |
| `LinkState.LinkWeight` | etox/model/link-state-routing-protocol.cc:852-863 | the only weight a row holds for a mutually listed link |
| `LinkState.DirectionsAgreeIff` | etox/model/link-state-routing-protocol.cc:838-872 | the two directions of a mutually listed link get the same weight if and only if both ends gave the same metric or the fresher gave a non-zero one, which then is the weight of both |
| `Routing.LinkStateRouting.CalculateTable` | etox/model/link-state-routing-protocol.cc:708-773 | generates the list, runs Dijkstra as written and rewrites the table, on a network that may have changed in any way since the last call; every reached node then has an entry through interface 1 at the distance found |
| `Routing.LinkStateRouting.FillTable` | etox/model/link-state-routing-protocol.cc:737-762 | the loop erases and inserts one entry per reached node |
| `Routing.LinkStateRouting.LookupNFTable` | etox/model/link-state-routing-protocol.cc:458-466 | the entry of a destination, if there is one |
| `Routing.LinkStateRouting.FindSendEntry` | etox/model/link-state-routing-protocol.cc:469-483 | for every entry of the table in every state reachable with metrics of at most 2 * (INFINITE / 3) the unguarded loop terminates and returns true with destination equal to prehop |
| `Routing.TabulatedEntry` | etox/model/link-state-routing-protocol.cc:737-762 | a call rewrites exactly the entries of the reached nodes, with interface 1 and the distance found as metric; the prehop is the destination itself or another reached node's |
| `Routing.TabulatedDescends` | etox/model/link-state-routing-protocol.cc:737-762 | a call keeps the descent in (calls since, tree depth) that stale entries take part in |
| `Routing.WalkAlwaysEnds` | etox/model/link-state-routing-protocol.cc:469-483 | after any sequence of calls on changing, growing networks with such metrics, the walk from every entry ends at a next hop |
| `Routing.WalkFindsFirstHop` | etox/model/link-state-routing-protocol.cc:469-483 | right after a call, the walk from a reached destination ends at the first hop of the predecessor path |
| `Misled.TwoHopTablesAreRight` | etox/model/link-state-routing-protocol.cc:708-773 | right after a call on a network whose least walks need at most two hops, whatever was in the table before: exactly the nodes some walk below the limit leads to get an entry, its metric is the least walk weight, and looking it up ends at the entry of the first hop of such a walk |
| `Routing.TabulatedHasReached` | etox/model/link-state-routing-protocol.cc:737-762 | every reached node has an entry for its own address, through interface 1, at the distance found |
| `Wrapping.PredecessorsFormCycle` | etox/model/Dijkstra.cc:59-74 | beyond the weight bound the sum wraps, and two nodes become each other's predecessor |
| `Wrapping.DatabaseIsDetached` | etox/model/link-state-routing-protocol.cc:838-872 | a database of three nodes, with one metric just beyond the bound, from which GenerateAdjList builds that network |
| `Wrapping.WalkNeverEnds` | etox/model/link-state-routing-protocol.cc:469-483 | after one CalculateTable on that database the walk from an entry of the table never ends |
| `Wrapping.WalksEndIffBounded` | etox/model/link-state-routing-protocol.cc:469-483 | for every limit: every walk ends after every sequence of calls with metrics up to the limit if and only if the limit is at most 2 * (INFINITE / 3) |
| `HelloProtocol.HelloRouter.Receive` | etox/model/link-state-routing-protocol.cc:264-312 | own hellos are ignored; others update the database, mark the sender if original, and are passed on exactly if the TTL is positive, as the same report with one less and without the flag |
| `HelloProtocol.HelloRouter.LinkStateBroadcast` | etox/model/link-state-routing-protocol.cc:875-904 | the loop lists the metrics of the node's own entry in an original hello with the full TTL |
| `HelloProtocol.StepKeepsInv` | etox/model/link-state-routing-protocol.cc:264-334 | every step of the network keeps the invariant of databases and frames in flight |
| `HelloProtocol.DatabasesAreSafe` | etox/model/link-state-node.cc:262-283 | in every reachable state a remote entry is a hello its origin really sent and the latest received from it; equal times mean equal pairs; a node marked as neighbour was heard directly; every copy in flight has TTL = maximum - hops, and only hop-0 copies from the origin are original |
| `HelloProtocol.TimesNeverGoBack` | etox/model/link-state-node.cc:105-112 | no entry is ever lost and its time never decreases, over every run |
| `HelloProtocol.DeliverLowersPending` | etox/model/link-state-routing-protocol.cc:305-320 | every reception lowers the measure W(t) = 1 + D * W(t - 1) summed over the copies in flight |
| `HelloProtocol.FloodingEnds` | etox/model/link-state-routing-protocol.cc:305-334 | receptions and losses in a run are bounded by what was in flight and what was broadcast |
| `HelloFlooding.DeliveryPassesOn` | etox/model/link-state-routing-protocol.cc:287-311 | after a reception each listed receiver has a copy relayed once more on its way if the TTL was positive, and the report is taken in |
| `HelloFlooding.FloodReachesExactly` | etox/model/link-state-routing-protocol.cc:264-334 | over every run in which a report is broadcast and relayed to all who hear the sender and no copy of it is lost, whatever happens to others and in whatever order: once no copy is on its way, exactly the nodes within maxTTL + 1 hops of the origin have taken it in, and their entries are at least as late |
| `HelloFlooding.HelloTellsMetrics` | etox/model/link-state-routing-protocol.cc:896-902 | over every run: a hello lists exactly the neighbours its origin has entered a metric for, each once and with the metric entered last |
| `HelloFlooding.MarkedIffRecent` | etox/model/link-state-node.cc:73-88 | over every run: exactly those are marked as neighbours that were heard directly and whose timer has not expired since |
| `HelloHeaders.HelloHeader.Serialize` | etox/model/link-state-header.cc:84-98 | writes exactly the octets of the header, pairs in order |
| `HelloHeaders.HelloHeader.Deserialize` | etox/model/link-state-header.cc:113-135 | reads the header at a position and returns how many octets it took, or stops where the buffer ends |
| `HelloHeaders.HelloHeader.GetSerializedSize` | etox/model/link-state-header.cc:101-110 | the size announced is the number of octets written |
| `HelloHeaders.HelloHeader.AddPair` | etox/model/link-state-header.cc:186-193 | the 32-bit counter still matches the list if and only if the list has room |
| `HelloHeaders.RoundTrip` | etox/model/link-state-header.cc:84-135 | reading undoes writing for every header whose counter matches, anywhere in a buffer, and takes the size announced |
| `HelloHeaders.OnTheWire` | etox/model/link-state-header.cc:84-98 | which octets of a written header are which field: address, time, number of pairs, and at the end TTL and flag |
| `HelloHeaders.PairOnTheWire` | etox/model/link-state-header.cc:92-96 | likewise for each pair: its address and its metric |
| `XorCoding.XOR` | mync/model/mync-protocol.cc:914-954 | the buffer loops compute the XOR of unequal lengths, without trailing zeros |
| `XorCoding.XorGroup` | mync/model/mync-protocol.cc:914-954 | XOR is commutative, associative and self-inverse with the empty string neutral: a group of byte strings modulo trailing zeros |
| `XorCoding.XorDefinedIff` | mync/model/mync-protocol.cc:945-948 | the result has a non-zero last byte if and only if the inputs differ modulo trailing zeros; otherwise the search runs off the buffer |
| `XorCoding.SameIffStrippedEqual` | mync/model/mync-protocol.cc:945-948 | stripping picks one representative of each class |
| `XorCoding.MyncPacketPool.AddToPool` | mync/model/mync-packet-pool.cc:32-36 | a packet already pooled is not replaced |
| `XorCoding.MyncPacketPool.Find` | mync/model/mync-packet-pool.cc:49-62 | the pooled packet, if there is one |
| `XorCoding.DecodeFrame` | mync/model/mync-protocol.cc:672-713 | the loop with its two eight-bit counters computes the specified verdict and packet |
| `XorCoding.DecodeVerdict` | mync/model/mync-protocol.cc:681-712 | two or more missing natives give -1; none missing gives -2 if and only if at most 255 are listed |
| `XorCoding.DecodeInvertsCoding` | mync/model/mync-protocol.cc:672-713 | one missing native, any number listed: its id is returned, and the native itself (up to trailing zeros) if and only if the frame is the XOR of all listed natives |
| `XorCoding.DecodeRunsOffIff` | mync/model/mync-protocol.cc:693-700 | on such a frame decoding runs off the buffer if and only if what is left after some entry cancels out |
| `XorCoding.RunsOffIff` | mync/model/mync-protocol.cc:681-702 | any frame, pool and header: decoding runs off the buffer if and only if the frame equals the XOR of the pooled ones among its first natives, up to one that is taken out: pooled, with fewer than two missing before it, and not the last of at most 255 that are all there |
| `XorCoding.TwoMissingFirst` | mync/model/mync-protocol.cc:684-692 | a header that starts with two missing natives gives -1 and leaves the frame as it is |
| `XorCoding.DecodesExactly` | mync/model/mync-protocol.cc:672-713 | what is decoded never ends in a zero, so it is the native itself, octet by octet, if that does not either |
| `MyncQueues.MyncQueue.EnqueueBack` | mync/model/mync-queue.cc:57-71 | appends unless the queue is full or holds the id |
| `MyncQueues.MyncQueue.EnqueueFront` | mync/model/mync-queue.cc:74-88 | prepends unless the queue is full or holds the id |
| `MyncQueues.MyncQueue.Dequeue` | mync/model/mync-queue.cc:107-115 | removes and returns the first entry |
| `MyncQueues.MyncQueue.Erase` | mync/model/mync-queue.cc:127-141 | removes the first entry with the id and says whether there was one |
| `MyncQueues.ErasedGood` | mync/model/mync-queue.cc:127-141 | erasing by id removes exactly the cell with that id; ids stay unique |
| `MyncQueues.EnqueuedGood` | mync/model/mync-queue.cc:57-88 | entries are admitted exactly if there is room and the id is new; ids and pointers stay unique |
| `MyncNeighborTable.MyncNeighbor.GetMAC` | mync/model/mync-neighbor.cc:72-86 | the loop finds the least MAC address |
| `MyncNeighborTable.MyncNeighbor.GetChannels` | mync/model/mync-neighbor.cc:446-453 | the ordered set of channels |
| `MyncNeighborTable.MyncNeighbor.Index` | mync/model/mync-neighbor.cc:620-629 | the first MAC address on a channel, if there is one |
| `MyncNeighbors.MacOnIsFirst` | mync/model/mync-neighbor.cc:620-629 | it is the first address listed for the channel |
| `MyncProtocol.DeviceOnIsFirst` | mync/model/mync-protocol.cc:244-255 | no interface before the one found is on the channel |
| `MyncNeighborTable.MyncNeighbor.AddTrinity` | mync/model/mync-neighbor.cc:425-443 | the erasing loop drops every pair that shares an address or the channel, then appends the new one |
| `MyncNeighborTable.MyncNeighbor.AddVirtualQueueEntry` | mync/model/mync-neighbor.cc:147-174 | appends or prepends a pointer unless an entry with the same id is there |
| `MyncNeighborTable.MyncNeighbor.RemoveVirtualQueueEntry` | mync/model/mync-neighbor.cc:120-135 | removes the first pointer to an entry with the id |
| `MyncNeighborTable.MyncNeighbor.TakeOver` | mync/model/mync-neighbor.cc:591-592 | moves all pointers of another virtual queue over, in order |
| `MyncNeighborTable.NeighborTable.SearchNeighborByMAC` | mync/model/mync-neighbor.cc:557-574 | the first neighbour with the address, or the number of neighbours |
| `MyncNeighborTable.NeighborTable.SearchNeighborByIP` | mync/model/mync-neighbor.cc:545-554 | likewise for an IP address |
| `MyncNeighborTable.NeighborTable.SharesAddress` | mync/model/mync-neighbor.cc:475-494 | the loops decide whether two neighbours share an address, 0.0.0.0 aside |
| `MyncNeighborTable.NeighborTable.AddNeighbor` | mync/model/mync-neighbor.cc:497-511 | appends unless some neighbour shares an address |
| `MyncNeighborTable.NeighborTable.NeighborLearn` | mync/model/mync-neighbor.cc:577-611 | a hello absorbs every neighbour that has one of its addresses, with its virtual queue, into a new one |
| `MyncNeighborTable.NeighborTable.SMNeighbors` | mync/model/mync-neighbor.cc:632-686 | the neighbour a frame came from: found, extended, merged from two, or new |
| `MyncRuns.RecordedIff` | mync/model/mync-packet-info.cc:89-122 | after recording, an address holds a packet exactly if it did before or is the address recorded and the packet one of those recorded |
| `MyncNode.MyncNode.Enqueue` | mync/model/mync-protocol.cc:105-199 | queue and virtual queues after a packet from above or a hello, new receivers included |
| `MyncNode.MyncNode.DoSend` | mync/model/mync-protocol.cc:271-470 | the whole send: hello, broadcast, already held, coded, plain, or put back |
| `MyncNode.MyncNode.Encode` | mync/model/mync-protocol.cc:752-884 | the loop over neighbours with its updates of both queues and the virtual queues |
| `MyncNode.MyncNode.TryNeighbor` | mync/model/mync-protocol.cc:782-876 | one turn of that loop with all its tests in order |
| `MyncNode.MyncNode.Capable` | mync/model/mync-protocol.cc:801-824 | the two inner loops: all nexthops hold the new packet and the new neighbour holds all natives |
| `MyncNode.MyncNode.PickInterface` | mync/model/mync-protocol.cc:841-852 | the loop over channels: the last one with an active interface decides |
| `MyncNode.MyncNode.SendPlain` | mync/model/mync-protocol.cc:359-375 | sends uncoded, or puts the packet back in front of queue and virtual queue |
| `MyncNode.MyncNode.Retransmit` | mync/model/mync-protocol.cc:716-733 | moves the first waiting packet to the front of queue and virtual queue with one more retry |
| `MyncNode.MyncNode.HearHello` | mync/model/mync-protocol.cc:502-510 | learning from a hello |
| `MyncNode.MyncNode.HearFrame` | mync/model/mync-protocol.cc:531-571 | recognizes the sender, erases acknowledged packets and records what the sender holds |
| `MyncIndex.IndexedOnce` | mync/model/mync-neighbor.cc:137-174 | a pointer sits in one virtual queue only |
| `MyncIndex.EnqueuedDataKeeps` | mync/model/mync-protocol.cc:169-195 | enqueuing never stops and keeps the index |
| `MyncIndex.LinkedIndexed` | mync/model/mync-protocol.cc:188-192 | linking a new entry never meets a duplicate and completes the index |
| `MyncIndex.UnlinkedIndexed` | mync/model/mync-protocol.cc:341-354 | taking a packet out of queue and virtual queue leaves an index |
| `MyncSending.SentKeeps` | mync/model/mync-protocol.cc:271-470 | sending keeps the index; the assertions at 344-346 and 869-872 never fail |
| `MyncSending.RetransmittedKeeps` | mync/model/mync-protocol.cc:716-733 | retransmission never stops (the assertions at 725-727 hold) and keeps the index |
| `MyncSending.RetransmittedGoesFirst` | mync/model/mync-protocol.cc:716-729 | the packet that has waited longest leaves; with room and no equal id it is then first in the output queue, with one more retry, and first in the virtual queue of its receiver; otherwise queue and virtual queues stay as they were |
| `MyncSending.SentAloneOrCoded` | mync/model/mync-protocol.cc:287-375 | unless a coded frame goes out: a hello goes out or stays, a packet its receiver holds is dropped, any other goes out alone, and if its interface is not active it is again the first of the output queue and of the virtual queue of its receiver; nothing else changes in them |
| `MyncSending.UnlinkedMinus` | mync/model/mync-neighbor.cc:120-135 | exactly one pointer leaves a virtual queue and the others keep their order |
| `MyncLearning.LearnedKeeps` | mync/model/mync-neighbor.cc:577-611 | a complete hello never meets a duplicate entry, keeps the index however many neighbours it absorbs, and leaves one neighbour with exactly its pairs, in whose virtual queue all packets for the sender are |
| `MyncLearning.RecognizedKeeps` | mync/model/mync-neighbor.cc:632-686 | recognizing the sender of a frame never stops, extends or merges correctly, and keeps the index |
| `MyncLearning.MergeKeeps` | mync/model/mync-neighbor.cc:658-673 | merging two neighbours keeps every address and every pointer |
| `MyncRuns.FrameReceivedKeeps` | mync/model/mync-protocol.cc:531-571 | receiving never stops, keeps the index, takes exactly the acknowledged packets out of the retransmission queue, the others keeping their order, and adds to what is known exactly that one address the sender owns holds what the frame says |
| `MyncRuns.AcknowledgedDrops` | mync/model/mync-protocol.cc:536-542 | erasing the acknowledged ids one by one leaves exactly the packets with other ids, unchanged and in order |
| `MyncRuns.SenderIsKnown` | mync/model/mync-neighbor.cc:632-686 | afterwards the two addresses of the sender belong to one neighbour; no MAC address is forgotten and no other is made up |
| `MyncRuns.SteppedKeeps` | mync/model/mync-protocol.cc:104-884 | every step keeps the invariant (retry at most 3 in the output queue and 2 in the other); it can stop only in sending, at a missing channel or an XOR of equal packets |
| `MyncRuns.ReachableIndexed` | mync/model/mync-protocol.cc:104-884 | over every run from the start each queued unicast packet is in the virtual queue of the neighbour that owns its destination, there once and in no other, and no virtual queue pointer dangles |
| `MyncCredits.SteppedCredit` | mync/model/mync-protocol.cc:716-733 | the credit (4 - retry in the output queue, 3 - retry in the other) rises only for an accepted packet, by four, and falls by at least one per transmission |
| `MyncCredits.EncodedCredit` | mync/model/mync-protocol.cc:864-882 | a coded frame pays for every native it carries |
| `MyncCredits.RetransmittedCredit` | mync/model/mync-protocol.cc:716-733 | retransmission keeps the credit exactly, unless the packet is given up for want of room or because its id is queued |
| `MyncCredits.AtMostFourTransmissions` | mync/model/mync-queue.cc:402-413 | over every run a packet is transmitted at most four times for each time it was accepted |
| `MyncConservation.SteppedBalances` | mync/model/mync-protocol.cc:104-884 | a step adds a copy exactly for a packet accepted and takes one away exactly for one that goes out uncoded, goes out coded on its last try or with no room to wait, is held by its receiver, is acknowledged, or cannot go back to the output queue |
| `MyncConservation.NothingIsLost` | mync/model/mync-protocol.cc:104-884 | over every run from the start: copies still queued or waiting, and copies gone for one of these reasons, are together as many as packets accepted |
| `MyncConservation.CodedTakesNatives` | mync/model/mync-protocol.cc:864-882 | a coded frame takes exactly its natives out of the output queue, the others keep their order, and they join the end of the retransmission queue |
| `MyncOrder.EnqueuedGoesLast` | mync/model/mync-protocol.cc:169-195 | a packet accepted is last in the output queue and in the virtual queue of its receiver, which is made if unknown; one not accepted changes nothing |
| `MyncOrder.HelloGoesFirst` | mync/model/mync-protocol.cc:105-168 | a hello goes to the front of the output queue, if there is room, and into no virtual queue |
| `MyncOrder.SteppedInLine` | mync/model/mync-protocol.cc:104-884 | every step keeps the packets for each address in line |
| `MyncOrder.PacketsStayInLine` | mync/model/mync-neighbor.cc:112-174 | over every run from the start, through coding, retransmission and the merging of neighbours: the virtual queue of the neighbour with an address lists the packets for that address in exactly the order of the output queue |
| `MyncCoding.EncodedStepKeeps` | mync/model/mync-protocol.cc:782-876 | one neighbour: accepted or passed over, the frame so far stays decodable, and only a missing channel or an XOR of equal packets stops |
| `MyncCoding.NexthopIsNew` | mync/model/mync-protocol.cc:869-870 | a new partner is never addressed twice in one frame, so the fatal error at 870 cannot occur |
| `MyncCoding.EncodedKeeps` | mync/model/mync-protocol.cc:752-884 | a coded frame is pairwise decodable, lists exactly its natives, is the XOR of the original and the last partner, has surviving channels common to all receivers, and goes out on an active interface whose channel all receivers have |
| `MyncCoding.ChosenAreDistinct` | mync/model/mync-protocol.cc:801-824 | the natives of a frame are distinct |
| `MyncCoding.CodedPairDecodes` | mync/model/mync-protocol.cc:860 | Encode then Decode: a frame of two natives, as coded, gives each receiver its own native |
| `MyncFrames.CodedFrameIsSound` | mync/model/mync-protocol.cc:752-884 | a coded frame lists each native once under its destination, is decodable by what is on record for each receiver, is the XOR of the front packet and the last native, and its natives have left the output queue and wait for retransmission unless sent three times before or there is no room |
| `MyncFrames.SentFrameIsSound` | mync/model/mync-protocol.cc:356-468 | whatever DoSend hands to an interface goes out on an active one and is the front packet alone, unchanged, or a frame with the front packet first that is its XOR with the last native and meets all of that |
| `MyncFrames.SentPairDecodes` | mync/model/mync-protocol.cc:356-468 | DoSend then Decode: a frame of two natives, as sent, gives each receiver that holds the other one its own, in either header order |
| `MyncFrames.EncodedIsSumIff` | mync/model/mync-protocol.cc:860 | the frame Encode builds is the XOR of all natives it lists if and only if those between the first and the last cancel out; with two natives it always is |
| `MyncFrames.EncodedDecodesIff` | mync/model/mync-protocol.cc:860 | Encode then Decode for any number of natives in any order: a receiver that lacks one finds it missing, and recovers it under exactly that condition |
| `MyncChannels.HighestChannelDecides` | mync/model/mync-protocol.cc:841-852 | of several surviving channels with an active interface the highest decides interface and address |
| `MyncChannels.IntersectionAscends` | mync/model/mync-protocol.cc:828-838 | the surviving channels stay an ordered set |
| `MyncChannels.PassingCandidate` | mync/model/mync-protocol.cc:827-876 | a partner that joins leaves as channels those common to all, and the frame goes out on the highest of them with an active interface, to the address the partner has there |
| `MyncChannels.OnSurvivingChannelIff` | mync/model/mync-protocol.cc:828-856 | a coded frame goes out on a surviving channel if and only if no later candidate narrows the channels to some without an active interface, that is, if and only if an active interface is on one of those that survive; it is then the highest such channel |
| `MyncChannels.AllActiveSurvives` | mync/model/mync-protocol.cc:828-856 | with an active interface on every channel of a neighbour, every coded frame goes out on the highest surviving channel |
| `MyncChannels.StopsForChannelIff` | mync/model/mync-protocol.cc:831-850 | Encode stops at a neighbour for want of a channel if and only if it passes the tests on natives, shares no surviving channel, and one of those has an active interface |
| `MyncChannels.SharedEncodeNeverStops` | mync/model/mync-protocol.cc:752-884 | with one channel common to all neighbours Encode never stops for want of a channel |
| `MyncPlans.EncodedByPlan` | mync/model/mync-protocol.cc:752-884 | any number of neighbours that hold one another's packets: channels and active interfaces alone, folded over the neighbours in order, decide whether Encode stops, which natives it codes and which channels survive |
| `MyncPlans.OnSurvivorByPlan` | mync/model/mync-protocol.cc:828-856 | and the coded frame goes out on a surviving channel if and only if an active interface is on one the fold leaves |
| `MyncWitnesses.TrioEncoded` | mync/model/mync-protocol.cc:752-884 | for every three neighbours with packets that differ and each holding the packets of the other two: channels and active interfaces alone decide whether Encode stops, which natives it codes and which channels survive |
| `MyncWitnesses.RunStopsIff` | mync/model/mync-protocol.cc:831-850 | the run that starts with an empty node, hears the three, accepts a packet for each and sends the first stops for want of a channel exactly if channels and active interfaces say so |
| `MyncWitnesses.StopsIffNoneShared` | mync/model/mync-protocol.cc:831-850 | with an active interface on every channel of the first that means: exactly if the three have no channel in common |
| `MyncWitnesses.RunMissesIff` | mync/model/mync-protocol.cc:836-856 | its coded frame goes out on no surviving channel exactly if no active interface is on any channel left over |
| `MyncWitnesses.RunDecodesIff` | mync/model/mync-protocol.cc:860 | when both others join, a receiver that holds the other two, listed in any order, runs off the buffer or recovers its own exactly if the second packet is all zeros |
| `MyncWitnesses.ARunStops` | mync/model/mync-neighbor.cc:620-629 | such a run: one node on channel 6, another on channel 7 |
| `MyncWitnesses.ARunMissesItsChannel` | mync/model/mync-protocol.cc:836-856 | such a run: the frame leaves on channel 6 while only channel 7 survives |
| `MyncWitnesses.ARunNobodyDecodes` | mync/model/mync-protocol.cc:860 | such a run: a frame of three natives that none of its receivers can decode |
| `MyncWitnesses.OneReceiver` | mync/model/mync-protocol.cc:672-713 | what one of them gets: the octet 3 where 1 was sent |
| `MyncEntries.SentEvery` | mync/model/mync-protocol.cc:271-470 | what holds of every packet handed over, whatever its retry count, holds of every packet left after sending: none is made up |
| `MyncNonstop.EncodedNeverStops` | mync/model/mync-protocol.cc:752-884 | with a channel common to all neighbours and packets that differ in more than time to live and trailing zeros Encode never stops |
| `MyncNonstop.RecognizedListens` | mync/model/mync-neighbor.cc:632-686 | extending or merging the sender of a frame loses no shared channel |
| `MyncNonstop.SteppedStaysSmooth` | mync/model/mync-protocol.cc:104-884 | every step keeps that so, if new nodes are met on the shared channel |
| `MyncNonstop.NoRunStops` | mync/model/mync-protocol.cc:104-884 | over every run from the start, under those conditions, nothing ever stops |
| `MyncNonstop.SharedStepsMeet` | mync/model/mync-protocol.cc:104-884 | steps that name only nodes met on the shared channel, and packets of the catalogue, meet the conditions in any state |
| `MyncNetwork.FrameIsBacked` | mync/model/mync-protocol.cc:356-468 | over all nodes: a frame a node sends lists, reports and acknowledges only packets in its pool, and each receiver of a coded one has all natives but its own in its pool |
| `MyncNetwork.GainIsNative` | mync/model/mync-protocol.cc:605-655 | which is so for plain frames and for the receivers a coded one is meant for, because they check the id |
| `MyncAnswers.HeedsIff` | mync/model/mync-protocol.cc:495-524 | exactly own frames, and plain ones for the node that reach it on another interface, are dropped, and change nothing |
| `MyncAnswers.ReceptionTakesEffect` | mync/model/mync-protocol.cc:531-660 | all that any other frame changes: exactly the packets it acknowledges to the node stop waiting, exactly what it tells goes on record of its sender, and a packet gained goes into the pool, is to be reported, and, if it was coded and meant for the node, is to be acknowledged to the sender |
| `MyncAnswers.TransmissionTakesAlong` | mync/model/mync-protocol.cc:402-446 | the oldest reports and the newest acknowledgements go along, as many as there are neighbours, and the rest stays: none is lost or repeated |
| `MyncAnswers.RunAnswers` | mync/model/mync-protocol.cc:426-446 | an acknowledgement still to send is in every later state still to send or has been sent |
| `MyncAnswers.AcknowledgementsReturn` | mync/model/mync-protocol.cc:531-614 | over every run from fresh nodes, whether records are true or not: once a node has taken its packet out of a coded frame, the acknowledgement to the node it came from is pending or sent in every later state, and a frame that brings it there ends the retransmissions of that packet |
| `MyncRecords.DecodesCopyIff` | mync/model/mync-protocol.cc:672-713 | whoever holds all natives of a coded frame but one, with any time to live, decodes a copy of that one if and only if the natives between the first and the last cancel out up to the time to live |
| `MyncRecords.MoveKeeps` | mync/model/mync-protocol.cc:104-884 | with packets of one catalogue of ids, every move of the network keeps what is on record true, as long as the natives in between cancel out in every coded frame sent |
| `MyncRecords.RecordsAreTrue` | mync/model/mync-protocol.cc:549-660 | over every run of the network from fresh nodes, with loss, repetition and any order, whose coded frames are such, as all frames of two natives are: what is on record of an address is true of its owner, and of every coded frame sent each receiver holds all natives but its own |
| `MyncRecords.TwoNeighborsSuffice` | mync/model/mync-protocol.cc:549-660 | in particular over every run in which no node knows more than two neighbours |
| `MyncRecords.BystanderKeepsIff` | mync/model/mync-protocol.cc:617-623 | any coded frame: a bystander that lacks one native takes that native from it if and only if those in between cancel out, and its records stay true if and only if the sender holds the packet that the missing native and those in between XOR to |
| `MyncNetwork.ReceiverFindsItsOwn` | mync/model/mync-protocol.cc:672-713 | so a receiver that lacks its native finds exactly that one missing, however many there are |
| `MyncRecords.PairIsGained` | mync/model/mync-protocol.cc:586-623 | two natives, in either order, the other one in the pool as sent or with another time to live: the receiver takes its own without trailing zeros and with a renewed time to live if that still has the id, and stops at the assertion at 608 otherwise; a bystander takes it under the id it then has; a packet of zeros cannot be decoded |
| `MyncBystander.ABystanderErrs` | mync/model/mync-protocol.cc:617-623 | a run of five nodes from fresh ones (hellos, four plain frames overheard, three packets coded) after which a bystander has on record that the relay holds a packet nobody has |
| `MyncHeaders.MyncHeader.Serialize` | mync/model/mync-header.cc:90-117 | writes exactly the octets of the header, the map in key order |
| `MyncHeaders.MyncHeader.Deserialize` | mync/model/mync-header.cc:138-176 | reads the header at a position, and returns how many octets it took, stops where the buffer ends, or stops at the assertion on the size |
| `MyncHeaders.SizesAgreeIff` | mync/model/mync-header.cc:173-174 | that assertion holds exactly if the octets list no destination twice |
| `MyncHeaders.MyncHeader.GetSerializedSize` | mync/model/mync-header.cc:120-135 | the size announced is the number of octets written |
| `MyncHeaders.MyncHeader.AddIdNexthop` | mync/model/mync-header.cc:194-203 | inserts unless the destination is listed; the 16-bit counter still matches if and only if fewer than 65535 others are |
| `MyncHeaders.MyncHeader.AddRecpReport` | mync/model/mync-header.cc:353-362 | appends unless listed; the same condition on the counter |
| `MyncHeaders.MyncHeader.AddAckBlock` | mync/model/mync-header.cc:399-404 | appends; the same condition on the counter |
| `MyncHeaders.FromSorted` | mync/model/mync-header.cc:145-153 | inserting a sorted list into a map gives the same list |
| `MyncHeaders.RoundTrip` | mync/model/mync-header.cc:90-176 | reading undoes writing for every header whose counters match its containers, and takes the size announced |
| `MyncHeaders.OnTheWire` | mync/model/mync-header.cc:90-117 | which octets of a written header are which field: IP address, the two times, and the three counters in front of their lists |
| `MyncHeaders.NativeOnTheWire` | mync/model/mync-header.cc:97-102 | likewise for each native: its destination and its id |
| `MyncHeaders.ReportOnTheWire` | mync/model/mync-header.cc:104-109 | for each packet reported: its id |
| `MyncHeaders.AckOnTheWire` | mync/model/mync-header.cc:110-116 | for each acknowledgement: the address it is for and the id |
| `MyncHeaders.MyncHello.Serialize` | mync/model/mync-header.cc:570-580 | writes the eight-bit length and all pairs |
| `MyncHeaders.MyncHello.Deserialize` | mync/model/mync-header.cc:589-605 | reads as many pairs as the length says |
| `MyncHeaders.HelloRoundTripIff` | mync/model/mync-header.cc:570-605 | the hello read is the hello written, and takes the size announced, if and only if it has at most 255 pairs |
| `MyncHeaders.HelloOnTheWire` | mync/model/mync-header.cc:570-580 | which octets of a written hello are the length and which the IP address, MAC address and channel of each pair |
| `Octets.GetPut` | mync/model/mync-header.cc:93-95 | network byte order: reading a number undoes writing it |
| `Octets.PutDigits` | mync/model/mync-header.cc:93-95 | the most significant octet comes first: octet k of a number is its digit in base 256 |
| `Octets.GetAllPut` | mync/model/mync-header.cc:96-116 | likewise for a list of elements |
| `Reorder.ReorderBuffer.StoreMpdu` | wifi/model/mac-low.cc:1505-1533 | the loop finds the place of a fragment by its circular sort key and inserts it there |
| `Reorder.ReorderBuffer.RxCompleteUntilFirstLost` | wifi/model/mac-low.cc:1654-1683 | the scan with its sixteen-bit guard forwards, advances the window and erases as specified |
| `Reorder.ReorderBuffer.ForwardUp` | wifi/model/mac-low.cc:1668-1674 | the inner loop forwards the fragments of one MSDU in order |
| `Reorder.KeyIsDistance` | wifi/model/mac-low.h:587-592 | in the window the sort key is the distance from the window start, shifted by half the circle |
| `Reorder.StoredSorted` | wifi/model/mac-low.cc:1505-1533 | a new fragment in the window goes to its place: the buffer stays sorted around the circle |
| `Reorder.ScanEnds` | wifi/model/mac-low.cc:1659-1677 | the scan passes exactly the unbroken run of fragments from the window start on |
| `Reorder.ReleaseDeliversInOrder` | wifi/model/mac-low.cc:1654-1683 | a release forwards whole MSDUs in consecutive order, as many as are complete, advances the window start by their number modulo 4096, and keeps the rest in order |
| `Reorder.DeliveryIsInOrder` | wifi/model/mac-low.cc:1505-1683 | over every run: what was delivered is exactly the sender's stream up to the window start, each fragment once, and delivered plus buffered is what arrived |
| `TxRatios.TxRatio.AddSendTo` | TxRatio/model/txratio.cc:149-164 | the loop counts a send in the first tally of the destination, or a new one |
| `TxRatios.TxRatio.AddAckFrom` | TxRatio/model/txratio.cc:167-182 | likewise for an acknowledgement |
| `TxRatios.DestTxRatio.AddSend` | TxRatio/model/txratio.cc:47-53 | counts in 32 bits and reports whether the assertion holds |
| `TxRatios.DestTxRatio.AddAck` | TxRatio/model/txratio.cc:56-62 | likewise |
| `TxRatios.PlausibleIff` | TxRatio/model/txratio.cc:47-62 | exactly when the assertion sends >= acks survives a send and an acknowledgement |
| `MacLow.MacLowTransmitter.StartTransmission` | wifi/model/mac-low.cc:530-581 | cancels what is under way, counts a send unless the destination is a group, and starts RTS or data |
| `MacLow.MacLowTransmitter.CancelAllEvents` | wifi/model/mac-low.cc:341-405 | no event is running afterwards |
| `MacLow.MacLowTransmitter.StartDataTxTimers` | wifi/model/mac-low.cc:1269-1318 | which timer starts, and whether its assertion holds |
| `MacLow.MacLowTransmitter.ReceiveCts` | wifi/model/mac-low.cc:655-677 | an expected CTS schedules the data |
| `MacLow.MacLowTransmitter.ReceiveAck` | wifi/model/mac-low.cc:678-722 | an expected acknowledgement is counted for the current destination and stops the timer |
| `MacLow.MacLowTransmitter.SendDataAfterCts` | wifi/model/mac-low.cc:1418-1446 | sends the packet and starts the data timers |
| `MacLow.NextKeepsInv` | wifi/model/mac-low.cc:530-581 | every handler keeps: at most one event of the exchange runs, it has its packet, and an expected acknowledgement means a surplus of one send |
| `MacLow.AcksNeverExceedSends` | wifi/model/mac-low.cc:678-705 | over every run of fewer than 2^32 transmissions acks <= sends for every destination and no assertion on timers, packets or counters fails |
| `MacLow.AckEndsExchange` | wifi/model/mac-low.cc:678-722 | an expected acknowledgement is counted once, for the current destination; no timer runs afterwards, and the wait before the next packet runs exactly if there is one |
| `MacLow.ExchangeCompletes` | wifi/model/mac-low.cc:530-722 | from every state with the invariant, with RTS and CTS or without: a transmission to a node that is acknowledged counts one send and one acknowledgement for it and nothing else, its events all occur while they run, and the wait before the next packet then runs exactly if there is one |
| `MacLow.MessageCompletes` | wifi/model/mac-low.cc:1269-1318 | likewise for a transmission nobody acknowledges, which counts one send unless it goes to a group |
| `MacLow.LateAckIsIgnored` | wifi/model/mac-low.cc:1148-1173 | after a timeout or a change of channel no acknowledgement is expected, nothing more was counted, and a late one changes nothing |
| `MacLow.GroupsMustNotAcknowledge` | wifi/model/dca-txop.cc:429-442 | from every reachable state, with RTS and CTS or without: a transmission that is acknowledged passes the assertions if and only if the destination is no group or has a surplus of sends |
| `MacLow.GroupsHaveNoSurplus` | wifi/model/mac-low.cc:530-581 | which no group ever gets, over every run |
| `SharedRatios.HandlerCounts` | wifi/model/mac-low.cc:530-581 | what a handler of one MAC counts pays for the acknowledgement it comes to expect, and it stops only at the counter |
| `SharedRatios.SharedAcksNeverExceedSends` | mync/model/mync-protocol.cc:1182-1191 | one counter shared by the MACs of all interfaces and the coding layer: over every run acks <= sends and no assertion fails, as long as the coding layer has no more packets acknowledged from an address than it sent there |
| `SharedRatios.AnswerFromElsewhere` | mync/model/mync-protocol.cc:543-546 | which fails at once when the acknowledgement of a coded packet comes in a frame from another interface of its receiver |

## Left out

- ns-3 plumbing: type ids, sockets, callbacks, logging, tracing, helpers, examples. Timers, losses and arrivals are steps that can happen in any order.
- XorCoding.XOR: requires inputs that differ modulo trailing zeros, because the source runs off its buffer otherwise; XorDefinedIff says exactly when.
- XorCoding.DecodeFrame: requires that no intermediate XOR runs off; RunsOffIff says exactly when one does.
- Routing.LinkStateRouting.FindSendEntry: requires that all calls so far had metrics of at most 2 * (INFINITE / 3); Wrapping.WalksEndIffBounded shows that this bound is the right one.
- MyncRuns.ReachableIndexed: for a fixed assignment of addresses with one MAC address per channel and node, complete hellos of at most 255 interfaces, and senders that tell their addresses truly.
- MyncCoding.CodedPairDecodes: two natives, since that is what the frame as built supports; MyncFrames.EncodedDecodesIff covers more.
- MyncNode.MyncNode.Enqueue: the queues and the neighbour table; the packet pool is in MyncNetwork, the original times are left out, and the TrySend that follows is a step of its own.
- MyncNode.MyncNode.DoSend: what goes into the frame; acknowledgements and reports are in MyncNetwork, time stamps, the count of sends and the address `realSendAddr` are left out.
- MyncRecords.RecordsAreTrue: packets that reach beyond the time to live (octet 8 of an IPv4 packet) and do not end in a zero, with ids that ignore it, as the hash of the source does; PairIsGained has the packets that end in zeros. Repetitions among the reports of a header, which AddRecpReport drops, and their order are not kept.
- MyncRecords.BystanderKeepsIff: for a hash that tells packets of the catalogue from all others.
- MyncRecords.PairIsGained: if the copy in the pool has another time to live, for a packet with an octet other than zero beyond it, as every IPv4 packet has; the header checksum, which ns-3 leaves zero, is not modelled.
- MyncNode.MyncNode.HearFrame: Recv up to decoding; what a node then takes out of a frame and puts into its pool is in MyncNetwork, on values.
- MyncPlans.EncodedByPlan: neighbours that hold one another's packets; otherwise StopsForChannelIff decides each turn and SharedEncodeNeverStops gives a condition that suffices.
- MyncNonstop.NoRunStops: sufficient conditions; a run can also go well without a shared channel.
- MacLow.AcksNeverExceedSends: fewer than 2^32 transmissions, normal acknowledgements, the counter installed from the start; SharedRatios has the counter shared with other MACs and the coding layer.
- SharedRatios.SharedAcksNeverExceedSends: what the coding layer counts is a sequence of sends and acknowledgements of its own, not tied to the runs of MyncNetwork.
- HelloProtocol.DatabasesAreSafe: hello times of one origin strictly increase; two hellos within one millisecond would share a time.
- HelloProtocol.HelloRouter.Receive: the database and the frame passed on; the table calculation in between is Routing.LinkStateRouting.CalculateTable.
- HelloFlooding.FloodReachesExactly: who hears whom does not change while the report is under way; what a run that loses copies still reaches depends on which.
- MyncAnswers.AcknowledgementsReturn: whether and when the frame with the acknowledgement reaches the sender is left open, as the source does not repeat acknowledgements.
- MyncConservation.NothingIsLost: the packets of one node; what became of a packet that was sent is in MyncNetwork.
- Reorder.DeliveryIsInOrder: arrivals in the window, without repetition, at most 16 fragments per MSDU, and one agreement at a time; the window is moved by complete MSDUs only.
- `RxCompleteBufferedPacketsWithSmallerSequence`: it passes sequence numbers to a mapping of sequence controls and dereferences the start of a list that can be empty, so its order does not follow from the code shown.
- MacLow.MacLowTransmitter.StartTransmission: normal acknowledgements, without the listener that is told of a cancelled transmission.
- MacLow.MacLowTransmitter.CancelAllEvents: the four events of this exchange; those of fast, super-fast and block acknowledgements, the NAV and the acknowledgements sent are left out, and so is the listener.
- MacLow.MacLowTransmitter.StartDataTxTimers: the normal acknowledgement timer and the wait before the next packet; not the other timers and the event at `wifi/model/mac-low.cc:1316` that nothing cancels.
- MacLow.MacLowTransmitter.ReceiveAck: normal acknowledgements, without the listener.
- MacLow: durations, rates and the NAV.
- The smoothing of metrics in `UpdateCodeNum` and the code number statistics; metrics are arbitrary inputs.
- The timer of a neighbour is a step of HelloProtocol that can happen at any time.
- `RouteOutput` and `RouteInput` beyond their call of `FindSendEntry`.
- `BinaryHeap::Insert` and the destructor, `MyncNeighbors::RemoveNeighbor(ip)` and the overloads of `AddAckBlock` that are not used.
- Packet ids are given, not hashed; in the queues they are unique because the queues refuse repetitions. MyncNetwork takes the hash as a parameter.
- Pointers into the output queue are numbers that are never used twice, so a dangling pointer is always noticed.
- The 32-bit width of heap indices, and of buffer sizes, is not modelled; both are taken to be large enough.
