/** The virtual queues index the output queue: every unicast packet in it sits exactly once in the
    virtual queue of the one neighbour that owns its destination, and no pointer dangles. */
module MyncIndex {
  import opened Addresses
  import opened Options
  import opened XorCoding
  import opened MyncQueues
  import opened MyncNeighbors
  import opened MyncProtocol

  // ---------- The invariant ----------

  /** The true assignment of addresses: which node owns an address, and the channel of a MAC address. */
  datatype World = World(owner: Mac48Address -> nat, ipOwner: Ipv4Address -> nat, channel: Mac48Address -> nat)

  /** A node has one MAC address per channel. */
  ghost predicate GoodWorld(w: World) {
    forall m, m' :: w.owner(m) == w.owner(m') && w.channel(m) == w.channel(m') ==> m == m'
  }

  /** The pair is true of the given node; its IP address may be unknown. */
  ghost predicate TruePair(w: World, node: nat, p: AddressPair) {
    && w.owner(p.mac) == node && w.channel(p.mac) == p.channel
    && (p.ip != ANY ==> w.ipOwner(p.ip) == node)
  }

  /** All pairs of a neighbour are true of one node. */
  ghost predicate TrueNeighbor(w: World, n: Neighbor) {
    n.pairs != [] && forall p | p in n.pairs :: TruePair(w, w.owner(n.pairs[0].mac), p)
  }

  /** No two neighbours share an address. */
  ghost predicate Disjoint(ns: seq<Neighbor>) {
    && (forall i, j, mac | 0 <= i < |ns| && 0 <= j < |ns| && HasMac(ns[i], mac) && HasMac(ns[j], mac) :: i == j)
    && (forall i, j, ip | 0 <= i < |ns| && 0 <= j < |ns| && ip != ANY && HasIp(ns[i], ip) && HasIp(ns[j], ip) :: i == j)
  }

  ghost predicate GoodTable(w: World, ns: seq<Neighbor>) {
    Disjoint(ns) && forall i | 0 <= i < |ns| :: TrueNeighbor(w, ns[i])
  }

  /** The virtual queue of n points, once each, at live unicast packets for n. */
  ghost predicate GoodVirtualQueue(cells: map<nat, Entry>, n: Neighbor) {
    && NoDuplicates(n.virtualQueue)
    && forall p | p in n.virtualQueue :: p in cells && cells[p].Unicast() && HasMac(n, cells[p].dest)
  }

  /** Some neighbour owns the destination, and its virtual queue has the pointer. */
  ghost predicate IndexedAt(ns: seq<Neighbor>, p: nat, dest: Mac48Address) {
    var i := SearchMac(ns, dest);
    i < |ns| && p in ns[i].virtualQueue
  }

  ghost predicate Indexed(cells: map<nat, Entry>, ns: seq<Neighbor>) {
    && (forall i | 0 <= i < |ns| :: GoodVirtualQueue(cells, ns[i]))
    && (forall p | p in cells && cells[p].Unicast() :: IndexedAt(ns, p, cells[p].dest))
  }

  /** Packets waiting for retransmission are unicast, have been sent again at most twice, and go to
      known neighbours. */
  ghost predicate GoodWaiting(q: Queue, ns: seq<Neighbor>) {
    && Good(q)
    && forall p | p in q.cells :: q.cells[p].Unicast() && q.cells[p].retry <= 2 && SearchMac(ns, q.cells[p].dest) < |ns|
  }

  ghost predicate GoodOutput(q: Queue) {
    Good(q) && forall p | p in q.cells :: q.cells[p].retry <= 3
  }

  ghost predicate Inv(w: World, st: Protocol) {
    && GoodWorld(w)
    && GoodOutput(st.queue)
    && GoodWaiting(st.rtqueue, st.neighbors)
    && GoodTable(w, st.neighbors)
    && Indexed(st.queue.cells, st.neighbors)
  }

  // ---------- Addresses and owners ----------

  lemma SearchMacIs(ns: seq<Neighbor>, i: nat, mac: Mac48Address)
    requires Disjoint(ns) && i < |ns| && HasMac(ns[i], mac)
    ensures SearchMac(ns, mac) == i
  {
  }

  /** A pointer sits in one virtual queue only. */
  lemma IndexedOnce(cells: map<nat, Entry>, ns: seq<Neighbor>, i: nat, j: nat, p: nat)
    requires Disjoint(ns) && Indexed(cells, ns) && i < |ns| && j < |ns|
    requires p in ns[i].virtualQueue && p in ns[j].virtualQueue
    ensures i == j
  {
    assert GoodVirtualQueue(cells, ns[i]) && GoodVirtualQueue(cells, ns[j]);
  }

  /** Changing a virtual queue changes no address. */
  lemma WithQueueSearch(ns: seq<Neighbor>, i: nat, vq: seq<nat>, mac: Mac48Address)
    requires i < |ns|
    ensures SearchMac(WithQueue(ns, i, vq), mac) == SearchMac(ns, mac)
  {
    var ns' := WithQueue(ns, i, vq);
    assert forall j | 0 <= j < |ns| :: HasMac(ns'[j], mac) == HasMac(ns[j], mac);
  }

  lemma WithQueueTable(w: World, ns: seq<Neighbor>, i: nat, vq: seq<nat>)
    requires i < |ns| && GoodTable(w, ns)
    ensures GoodTable(w, WithQueue(ns, i, vq))
  {
    var ns' := WithQueue(ns, i, vq);
    assert forall j | 0 <= j < |ns| :: ns'[j].pairs == ns[j].pairs;
    assert forall j, mac | 0 <= j < |ns| :: HasMac(ns'[j], mac) == HasMac(ns[j], mac);
    assert forall j, ip | 0 <= j < |ns| :: HasIp(ns'[j], ip) == HasIp(ns[j], ip);
    forall j | 0 <= j < |ns|
      ensures TrueNeighbor(w, ns'[j])
    {
      assert TrueNeighbor(w, ns[j]);
    }
  }

  lemma WithQueueWaiting(q: Queue, ns: seq<Neighbor>, i: nat, vq: seq<nat>)
    requires i < |ns| && GoodWaiting(q, ns)
    ensures GoodWaiting(q, WithQueue(ns, i, vq))
  {
    forall p | p in q.cells
      ensures SearchMac(WithQueue(ns, i, vq), q.cells[p].dest) < |WithQueue(ns, i, vq)|
    {
      WithQueueSearch(ns, i, vq, q.cells[p].dest);
    }
  }

  // ---------- Linking and unlinking one packet ----------

  lemma PushedGood(cells: map<nat, Entry>, n: Neighbor, ptr: nat, front: bool)
    requires GoodVirtualQueue(cells, n) && ptr in cells && cells[ptr].Unicast() && HasMac(n, cells[ptr].dest)
    requires ptr !in n.virtualQueue
    requires forall p, p' | p in cells && p' in cells && cells[p].pid == cells[p'].pid :: p == p'
    ensures Pushed(cells, n.virtualQueue, ptr, front).Done?
    ensures GoodVirtualQueue(cells, n.(virtualQueue := Pushed(cells, n.virtualQueue, ptr, front).value))
    ensures forall p :: p in Pushed(cells, n.virtualQueue, ptr, front).value <==> p == ptr || p in n.virtualQueue
  {
  }

  /** A new cell leaves the virtual queues good, and is in none of them yet. */
  lemma NewCellGood(cells: map<nat, Entry>, ns: seq<Neighbor>, ptr: nat, e: Entry)
    requires Indexed(cells, ns) && ptr !in cells
    ensures forall j | 0 <= j < |ns| :: GoodVirtualQueue(cells[ptr := e], ns[j]) && ptr !in ns[j].virtualQueue
  {
    forall j | 0 <= j < |ns|
      ensures GoodVirtualQueue(cells[ptr := e], ns[j]) && ptr !in ns[j].virtualQueue
    {
      assert GoodVirtualQueue(cells, ns[j]);
    }
  }

  lemma IndexedAtWith(ns: seq<Neighbor>, i: nat, vq: seq<nat>, p: nat, dest: Mac48Address)
    requires i < |ns| && IndexedAt(ns, p, dest) && forall q | q in ns[i].virtualQueue :: q in vq
    ensures IndexedAt(WithQueue(ns, i, vq), p, dest)
  {
    WithQueueSearch(ns, i, vq, dest);
  }

  /** Linking a new cell of the output queue succeeds and completes the index. */
  lemma LinkedIndexed(w: World, cells: map<nat, Entry>, ns: seq<Neighbor>, ptr: nat, e: Entry, front: bool)
    requires GoodTable(w, ns) && Indexed(cells, ns) && ptr !in cells
    requires e.Unicast() && SearchMac(ns, e.dest) < |ns|
    requires var c := cells[ptr := e]; forall p, p' | p in c && p' in c && c[p].pid == c[p'].pid :: p == p'
    ensures Linked(cells[ptr := e], ns, ptr, e.dest, front).Done?
    ensures var ns' := Linked(cells[ptr := e], ns, ptr, e.dest, front).value;
            && Indexed(cells[ptr := e], ns')
            && exists vq :: ns' == WithQueue(ns, SearchMac(ns, e.dest), vq)
  {
    hide IndexedAt, GoodVirtualQueue, Pushed, GoodTable;
    var i := SearchMac(ns, e.dest);
    var cells' := cells[ptr := e];
    NewCellGood(cells, ns, ptr, e);
    PushedGood(cells', ns[i], ptr, front);
    var vq := Pushed(cells', ns[i].virtualQueue, ptr, front).value;
    var ns' := WithQueue(ns, i, vq);
    forall p | p in cells' && cells'[p].Unicast()
      ensures IndexedAt(ns', p, cells'[p].dest)
    {
      if p != ptr {
        IndexedAtWith(ns, i, vq, p, cells[p].dest);
      } else {
        IndexedHere(ns, i, vq, ptr, e.dest);
      }
    }
  }

  lemma IndexedHere(ns: seq<Neighbor>, i: nat, vq: seq<nat>, p: nat, dest: Mac48Address)
    requires i < |ns| && i == SearchMac(ns, dest) && p in vq
    ensures IndexedAt(WithQueue(ns, i, vq), p, dest)
  {
    WithQueueSearch(ns, i, vq, dest);
  }

  lemma {:induction false} UnlinkedAt(cells: map<nat, Entry>, vq: seq<nat>, ptr: nat)
    requires NoDuplicates(vq) && ptr in vq && forall p | p in vq :: p in cells
    requires forall p, p' | p in cells && p' in cells && cells[p].pid == cells[p'].pid :: p == p'
    ensures Unlinked(cells, vq, cells[ptr].pid).Done?
    ensures var r := Unlinked(cells, vq, cells[ptr].pid).value;
            NoDuplicates(r) && forall p :: p in r <==> p in vq && p != ptr
  {
    assert vq[0] !in vq[1..] && forall p | p in vq :: p == vq[0] || p in vq[1..];
    if vq[0] != ptr {
      UnlinkedAt(cells, vq[1..], ptr);
      var rest := Unlinked(cells, vq[1..], cells[ptr].pid).value;
      assert NoDuplicates([vq[0]] + rest);
    }
  }

  /** Taking one unicast packet out of the output queue and out of its virtual queue leaves an index. */
  lemma UnlinkedIndexed(w: World, cells: map<nat, Entry>, ns: seq<Neighbor>, ptr: nat, i: nat, vq: seq<nat>)
    requires GoodTable(w, ns) && Indexed(cells, ns) && ptr in cells && cells[ptr].Unicast()
    requires i == SearchMac(ns, cells[ptr].dest) < |ns|
    requires NoDuplicates(vq) && forall p :: p in vq <==> p in ns[i].virtualQueue && p != ptr
    ensures Indexed(cells - {ptr}, WithQueue(ns, i, vq))
  {
    var ns' := WithQueue(ns, i, vq);
    var cells' := cells - {ptr};
    forall j | 0 <= j < |ns|
      ensures GoodVirtualQueue(cells', ns'[j])
    {
      assert GoodVirtualQueue(cells, ns[j]);
      if ptr in ns[j].virtualQueue {
        SearchMacIs(ns, j, cells[ptr].dest);
      }
    }
    forall p | p in cells' && cells'[p].Unicast()
      ensures IndexedAt(ns', p, cells'[p].dest)
    {
      assert IndexedAt(ns, p, cells[p].dest);
      WithQueueSearch(ns, i, vq, cells[p].dest);
    }
  }

  // ---------- Enqueue ----------

  lemma EnqueuedBackCells(q: Queue, e: Entry)
    requires Good(q) && Admits(q, e.pid)
    ensures q.next !in q.cells
    ensures var c := q.cells[q.next := e]; forall p, p' | p in c && p' in c && c[p].pid == c[p'].pid :: p == p'
  {
    EnqueuedGood(q, e);
  }

  /** A hello or a broadcast packet is in no virtual queue. */
  lemma NotUnicastIndexed(cells: map<nat, Entry>, ns: seq<Neighbor>, ptr: nat, e: Entry)
    requires Indexed(cells, ns) && ptr !in cells && !e.Unicast()
    ensures Indexed(cells[ptr := e], ns)
  {
    forall j | 0 <= j < |ns|
      ensures GoodVirtualQueue(cells[ptr := e], ns[j])
    {
      assert GoodVirtualQueue(cells, ns[j]);
    }
    assert forall p | p in cells && cells[p].Unicast() :: IndexedAt(ns, p, cells[p].dest);
  }

  /** A neighbour made for an unknown destination fits into the table. */
  lemma NewNeighborFits(w: World, ns: seq<Neighbor>, n: Neighbor)
    requires GoodTable(w, ns) && TrueNeighbor(w, n)
    requires forall j, p | 0 <= j < |ns| && p in n.pairs ::
               !HasMac(ns[j], p.mac) && (p.ip != ANY ==> !HasIp(ns[j], p.ip))
    ensures Added(ns, n) == ns + [n] && GoodTable(w, ns + [n])
    ensures forall other | other in ns :: !ShareAddress(n, other)
  {
    forall other | other in ns
      ensures !ShareAddress(n, other)
    {
      var j :| 0 <= j < |ns| && ns[j] == other;
    }
    var r := ns + [n];
    forall i, j, mac | 0 <= i < |r| && 0 <= j < |r| && HasMac(r[i], mac) && HasMac(r[j], mac)
      ensures i == j
    {
    }
    forall i, j, ip | 0 <= i < |r| && 0 <= j < |r| && ip != ANY && HasIp(r[i], ip) && HasIp(r[j], ip)
      ensures i == j
    {
    }
  }

  lemma {:induction false} SearchMacAppended(ns: seq<Neighbor>, n: Neighbor, mac: Mac48Address)
    ensures SearchMac(ns + [n], mac) == if SearchMac(ns, mac) < |ns| then SearchMac(ns, mac)
              else if HasMac(n, mac) then |ns| else |ns| + 1
  {
    if ns == [] {
    } else {
      assert (ns + [n])[1..] == ns[1..] + [n];
      SearchMacAppended(ns[1..], n, mac);
    }
  }

  lemma AppendedAt(ns: seq<Neighbor>, n: Neighbor, p: nat, dest: Mac48Address)
    requires IndexedAt(ns, p, dest) || (SearchMac(ns, dest) == |ns| && HasMac(n, dest) && p in n.virtualQueue)
    ensures IndexedAt(ns + [n], p, dest)
  {
    SearchMacAppended(ns, n, dest);
  }

  lemma AppendedIndexed(cells: map<nat, Entry>, ns: seq<Neighbor>, n: Neighbor, ptr: nat, e: Entry)
    requires Indexed(cells, ns) && ptr !in cells && e.Unicast() && HasMac(n, e.dest) && n.virtualQueue == [ptr]
    requires SearchMac(ns, e.dest) == |ns|
    ensures Indexed(cells[ptr := e], ns + [n])
  {
    hide IndexedAt;
    var cells' := cells[ptr := e];
    forall j | 0 <= j < |ns|
      ensures GoodVirtualQueue(cells', ns[j])
    {
      assert GoodVirtualQueue(cells, ns[j]);
    }
    assert GoodVirtualQueue(cells', n);
    forall p | p in cells' && cells'[p].Unicast()
      ensures IndexedAt(ns + [n], p, cells'[p].dest)
    {
      AppendedAt(ns, n, p, cells'[p].dest);
    }
  }

  lemma AppendedWaiting(q: Queue, ns: seq<Neighbor>, n: Neighbor)
    requires GoodWaiting(q, ns)
    ensures GoodWaiting(q, ns + [n])
  {
    forall p | p in q.cells
      ensures SearchMac(ns + [n], q.cells[p].dest) < |ns + [n]|
    {
      SearchMacAppended(ns, n, q.cells[p].dest);
    }
  }

  /** Enqueuing never stops, and keeps the index. */
  lemma EnqueuedDataKeeps(w: World, st: Protocol, e: Entry)
    requires Inv(w, st) && !e.hello && e.retry == 0 && e.iface < |st.devices|
    requires e.dest != BROADCAST ==> w.channel(e.dest) == st.devices[e.iface]
    ensures EnqueuedData(st, e).Done? && Inv(w, EnqueuedData(st, e).value)
  {
    hide GoodTable, GoodWorld, Indexed, GoodWaiting, Good, Linked, Pushed;
    assert Good(st.queue);
    EnqueuedGood(st.queue, e);
    if Admits(st.queue, e.pid) {
      EnqueuedBackCells(st.queue, e);
      if e.dest == BROADCAST {
        NotUnicastIndexed(st.queue.cells, st.neighbors, st.queue.next, e);
      } else if SearchMac(st.neighbors, e.dest) == |st.neighbors| {
        var n := Neighbor([AddressPair(ANY, e.dest, st.devices[e.iface])], [st.queue.next]);
        assert HasMac(n, e.dest);
        NewNeighborFits(w, st.neighbors, n);
        AppendedIndexed(st.queue.cells, st.neighbors, n, st.queue.next, e);
        AppendedWaiting(st.rtqueue, st.neighbors, n);
      } else {
        LinkedIndexed(w, st.queue.cells, st.neighbors, st.queue.next, e, false);
        var ns' := Linked(st.queue.cells[st.queue.next := e], st.neighbors, st.queue.next, e.dest, false).value;
        var vq :| ns' == WithQueue(st.neighbors, SearchMac(st.neighbors, e.dest), vq);
        WithQueueTable(w, st.neighbors, SearchMac(st.neighbors, e.dest), vq);
        WithQueueWaiting(st.rtqueue, st.neighbors, SearchMac(st.neighbors, e.dest), vq);
      }
    }
  }
}
