/** Learning addresses from hellos and frames keeps the index: neighbours are extended, merged and
    replaced, and their virtual queues move with them. */
module MyncLearning {
  import opened Addresses
  import opened Options
  import opened XorCoding
  import opened MyncQueues
  import opened MyncNeighbors
  import opened MyncProtocol
  import opened MyncIndex

  // ---------- The index, without searching ----------

  /** Some neighbour has both the address and the pointer. */
  ghost predicate HeldBy(ns: seq<Neighbor>, p: nat, dest: Mac48Address) {
    exists k :: 0 <= k < |ns| && HasMac(ns[k], dest) && p in ns[k].virtualQueue
  }

  ghost predicate Known(ns: seq<Neighbor>, mac: Mac48Address) {
    exists k :: 0 <= k < |ns| && HasMac(ns[k], mac)
  }

  lemma IndexedFromHeld(cells: map<nat, Entry>, ns: seq<Neighbor>)
    requires Disjoint(ns) && forall k | 0 <= k < |ns| :: GoodVirtualQueue(cells, ns[k])
    requires forall p | p in cells && cells[p].Unicast() :: HeldBy(ns, p, cells[p].dest)
    ensures Indexed(cells, ns)
  {
    forall p | p in cells && cells[p].Unicast()
      ensures IndexedAt(ns, p, cells[p].dest)
    {
      var k :| 0 <= k < |ns| && HasMac(ns[k], cells[p].dest) && p in ns[k].virtualQueue;
      SearchMacIs(ns, k, cells[p].dest);
    }
  }

  lemma IndexedIsHeld(cells: map<nat, Entry>, ns: seq<Neighbor>, p: nat)
    requires Indexed(cells, ns) && p in cells && cells[p].Unicast()
    ensures HeldBy(ns, p, cells[p].dest)
  {
    assert IndexedAt(ns, p, cells[p].dest);
  }

  lemma KnownIff(ns: seq<Neighbor>, mac: Mac48Address)
    ensures Known(ns, mac) <==> SearchMac(ns, mac) < |ns|
  {
  }

  lemma WaitingFromKnown(q: Queue, ns: seq<Neighbor>, ns': seq<Neighbor>)
    requires GoodWaiting(q, ns) && forall m | Known(ns, m) :: Known(ns', m)
    ensures GoodWaiting(q, ns')
  {
    forall p | p in q.cells
      ensures SearchMac(ns', q.cells[p].dest) < |ns'|
    {
      KnownIff(ns, q.cells[p].dest);
      KnownIff(ns', q.cells[p].dest);
    }
  }

  // ---------- Moving virtual queues ----------

  ghost predicate UniquePids(cells: map<nat, Entry>) {
    forall p, p' | p in cells && p' in cells && cells[p].pid == cells[p'].pid :: p == p'
  }

  lemma NoDuplicatesAppended(s: seq<nat>, x: nat)
    requires NoDuplicates(s) && x !in s
    ensures NoDuplicates(s + [x])
  {
    assert forall k | 0 <= k < |s| :: s[k] in s;
  }

  /** Moving a virtual queue over never stops: pointers are live and ids differ. */
  lemma {:induction false} MovedOverAll(cells: map<nat, Entry>, from: seq<nat>, to: seq<nat>)
    requires UniquePids(cells) && NoDuplicates(from) && NoDuplicates(to)
    requires forall p | p in from :: p in cells && p !in to
    requires forall p | p in to :: p in cells
    ensures MovedOver(cells, from, to) == Done(to + from) && NoDuplicates(to + from)
  {
    if from != [] {
      assert from[0] in from && from[0] !in from[1..] && NoDuplicates(from[1..]);
      hide NoDuplicates;
      NoDuplicatesAppended(to, from[0]);
      MovedOverAll(cells, from[1..], to + [from[0]]);
      assert to + [from[0]] + from[1..] == to + from;
    } else {
      assert to + from == to;
    }
  }

  // ---------- Extending a neighbour ----------

  /** The new table differs in the addresses of neighbours only, and each keeps its MAC addresses. */
  lemma ExtendedKeeps(w: World, st: Protocol, ns: seq<Neighbor>)
    requires Inv(w, st) && GoodTable(w, ns) && |ns| == |st.neighbors|
    requires forall k | 0 <= k < |ns| :: ns[k].virtualQueue == st.neighbors[k].virtualQueue
    requires forall k, m | 0 <= k < |ns| && HasMac(st.neighbors[k], m) :: HasMac(ns[k], m)
    ensures Inv(w, st.(neighbors := ns))
  {
    forall k | 0 <= k < |ns|
      ensures GoodVirtualQueue(st.queue.cells, ns[k])
    {
      assert GoodVirtualQueue(st.queue.cells, st.neighbors[k]);
    }
    forall p | p in st.queue.cells && st.queue.cells[p].Unicast()
      ensures HeldBy(ns, p, st.queue.cells[p].dest)
    {
      IndexedIsHeld(st.queue.cells, st.neighbors, p);
      var k :| 0 <= k < |ns| && HasMac(st.neighbors[k], st.queue.cells[p].dest) && p in st.neighbors[k].virtualQueue;
      assert HasMac(ns[k], st.queue.cells[p].dest);
    }
    IndexedFromHeld(st.queue.cells, ns);
    forall m | Known(st.neighbors, m)
      ensures Known(ns, m)
    {
      var k :| 0 <= k < |ns| && HasMac(st.neighbors[k], m);
      assert HasMac(ns[k], m);
    }
    WaitingFromKnown(st.rtqueue, st.neighbors, ns);
  }

  /** A pair that is true of some node, with its IP address known. */
  ghost predicate Sender(w: World, t: AddressPair) {
    TruePair(w, w.owner(t.mac), t) && t.ip != ANY
  }

  /** Replacing stale pairs by a true one loses no MAC address, unless the IP address was listed. */
  lemma TrinityKeepsMacs(w: World, n: Neighbor, t: AddressPair)
    requires GoodWorld(w) && TrueNeighbor(w, n) && Sender(w, t) && !HasIp(n, t.ip) && HasMac(n, t.mac)
    ensures TrueNeighbor(w, WithTrinity(n, t))
    ensures forall m :: HasMac(WithTrinity(n, t), m) <==> HasMac(n, m)
    ensures forall ip :: HasIp(WithTrinity(n, t), ip) ==> ip == t.ip || HasIp(n, ip)
    ensures w.owner(n.pairs[0].mac) == w.owner(t.mac)
  {
    var r := WithTrinity(n, t);
    assert r.pairs[|r.pairs| - 1] == t;
    forall m | HasMac(n, m)
      ensures HasMac(r, m)
    {
      var p :| p in n.pairs && p.mac == m;
      if p.mac == t.mac {
        assert t in r.pairs;
      } else {
        assert p in r.pairs;
      }
    }
    assert TruePair(w, w.owner(t.mac), r.pairs[0]);
  }

  lemma SoftTrinityKeeps(w: World, n: Neighbor, t: AddressPair)
    requires TrueNeighbor(w, n) && Sender(w, t) && HasIp(n, t.ip)
    ensures TrueNeighbor(w, n.(pairs := n.pairs + [t]))
    ensures w.owner(n.pairs[0].mac) == w.owner(t.mac)
    ensures forall m :: HasMac(n.(pairs := n.pairs + [t]), m) <==> HasMac(n, m) || m == t.mac
    ensures forall ip :: HasIp(n.(pairs := n.pairs + [t]), ip) <==> HasIp(n, ip)
  {
    var r := n.(pairs := n.pairs + [t]);
    assert r.pairs[|n.pairs|] == t;
    forall m | HasMac(n, m)
      ensures HasMac(r, m)
    {
      var p :| p in n.pairs && p.mac == m;
      assert p in r.pairs;
    }
    forall ip | HasIp(n, ip)
      ensures HasIp(r, ip)
    {
      var p :| p in n.pairs && p.ip == ip;
      assert p in r.pairs;
    }
  }

  /** Changing the addresses of one neighbour: nothing new may collide with another neighbour. */
  lemma ReplacedTable(w: World, ns: seq<Neighbor>, i: nat, n: Neighbor)
    requires GoodTable(w, ns) && i < |ns| && TrueNeighbor(w, n)
    requires forall k, m | 0 <= k < |ns| && k != i && HasMac(n, m) :: !HasMac(ns[k], m)
    requires forall k, ip | 0 <= k < |ns| && k != i && ip != ANY && HasIp(n, ip) :: !HasIp(ns[k], ip)
    ensures GoodTable(w, ns[i := n])
  {
    var r := ns[i := n];
    forall a, b, mac | 0 <= a < |r| && 0 <= b < |r| && HasMac(r[a], mac) && HasMac(r[b], mac)
      ensures a == b
    {
    }
    forall a, b, ip | 0 <= a < |r| && 0 <= b < |r| && ip != ANY && HasIp(r[a], ip) && HasIp(r[b], ip)
      ensures a == b
    {
    }
  }

  lemma SoftAdded(w: World, st: Protocol, i: nat, t: AddressPair)
    requires Inv(w, st) && Sender(w, t) && i < |st.neighbors| && HasIp(st.neighbors[i], t.ip)
    requires !Known(st.neighbors, t.mac)
    ensures Inv(w, st.(neighbors := st.neighbors[i := st.neighbors[i].(pairs := st.neighbors[i].pairs + [t])]))
  {
    var ns := st.neighbors;
    SoftTrinityKeeps(w, ns[i], t);
    ReplacedTable(w, ns, i, ns[i].(pairs := ns[i].pairs + [t]));
    ExtendedKeeps(w, st, ns[i := ns[i].(pairs := ns[i].pairs + [t])]);
  }

  lemma TrinityAdded(w: World, st: Protocol, j: nat, t: AddressPair)
    requires Inv(w, st) && Sender(w, t) && j < |st.neighbors| && HasMac(st.neighbors[j], t.mac)
    requires forall k | 0 <= k < |st.neighbors| :: !HasIp(st.neighbors[k], t.ip)
    ensures Inv(w, st.(neighbors := st.neighbors[j := WithTrinity(st.neighbors[j], t)]))
  {
    var ns := st.neighbors;
    TrinityKeepsMacs(w, ns[j], t);
    ReplacedTable(w, ns, j, WithTrinity(ns[j], t));
    ExtendedKeeps(w, st, ns[j := WithTrinity(ns[j], t)]);
  }

  // ---------- Merging two neighbours ----------

  /** The neighbour that results from merging `other` into n. */
  ghost function Merged(n: Neighbor, other: Neighbor): Neighbor {
    Neighbor(n.pairs + other.pairs, n.virtualQueue + other.virtualQueue)
  }

  lemma MergedAddresses(n: Neighbor, other: Neighbor)
    ensures forall m :: HasMac(Merged(n, other), m) <==> HasMac(n, m) || HasMac(other, m)
    ensures forall ip :: HasIp(Merged(n, other), ip) <==> HasIp(n, ip) || HasIp(other, ip)
  {
    assert forall p :: p in n.pairs + other.pairs <==> p in n.pairs || p in other.pairs;
  }

  lemma MergedTrue(w: World, n: Neighbor, other: Neighbor)
    requires TrueNeighbor(w, n) && TrueNeighbor(w, other)
    requires w.owner(n.pairs[0].mac) == w.owner(other.pairs[0].mac)
    ensures TrueNeighbor(w, Merged(n, other))
  {
  }

  lemma MergedQueue(cells: map<nat, Entry>, n: Neighbor, other: Neighbor)
    requires GoodVirtualQueue(cells, n) && GoodVirtualQueue(cells, other) && UniquePids(cells)
    requires forall p | p in n.virtualQueue :: p !in other.virtualQueue
    ensures MovedOver(cells, other.virtualQueue, n.virtualQueue) == Done(n.virtualQueue + other.virtualQueue)
    ensures GoodVirtualQueue(cells, Merged(n, other))
  {
    MovedOverAll(cells, other.virtualQueue, n.virtualQueue);
    MergedAddresses(n, other);
  }

  /** Where neighbour k of a table is once number j is gone. */
  ghost function Shifted(k: nat, j: nat): nat
    requires k != j
  {
    if k < j then k else k - 1
  }

  lemma WithoutAt(ns: seq<Neighbor>, j: nat, k: nat)
    requires j < |ns| && k < |ns| && k != j
    ensures Shifted(k, j) < |Without(ns, j)| && Without(ns, j)[Shifted(k, j)] == ns[k]
  {
  }

  lemma WithoutTable(w: World, ns: seq<Neighbor>, j: nat)
    requires j < |ns| && GoodTable(w, ns)
    ensures GoodTable(w, Without(ns, j))
  {
    var r := Without(ns, j);
    assert forall k | 0 <= k < |r| :: r[k] == ns[if k < j then k else k + 1];
    forall a, b, mac | 0 <= a < |r| && 0 <= b < |r| && HasMac(r[a], mac) && HasMac(r[b], mac)
      ensures a == b
    {
    }
    forall a, b, ip | 0 <= a < |r| && 0 <= b < |r| && ip != ANY && HasIp(r[a], ip) && HasIp(r[b], ip)
      ensures a == b
    {
    }
  }

  /** The table after merging neighbour j, brought up to date, into neighbour i. */
  ghost function MergedTable(ns: seq<Neighbor>, i: nat, j: nat, other: Neighbor): seq<Neighbor>
    requires i < |ns| && j < |ns| && i != j
  {
    Without(ns[i := Merged(ns[i], other)], j)
  }

  lemma MergedTableGood(w: World, ns: seq<Neighbor>, i: nat, j: nat, other: Neighbor, t: AddressPair)
    requires GoodTable(w, ns) && i < |ns| && j < |ns| && i != j && TrueNeighbor(w, other) && Sender(w, t)
    requires HasIp(ns[i], t.ip) && w.owner(other.pairs[0].mac) == w.owner(t.mac)
    requires forall m :: HasMac(other, m) <==> HasMac(ns[j], m)
    requires forall ip :: HasIp(other, ip) ==> ip == t.ip || HasIp(ns[j], ip)
    ensures GoodTable(w, MergedTable(ns, i, j, other))
  {
    var merged := Merged(ns[i], other);
    SoftTrinityKeeps(w, ns[i], t);
    MergedTrue(w, ns[i], other);
    MergedAddresses(ns[i], other);
    WithoutTable(w, ns, j);
    var ns' := MergedTable(ns, i, j, other);
    assert ns' == Without(ns, j)[Shifted(i, j) := merged];
    forall k, m | 0 <= k < |ns'| && k != Shifted(i, j) && HasMac(merged, m)
      ensures !HasMac(Without(ns, j)[k], m)
    {
      assert Without(ns, j)[k] == ns[if k < j then k else k + 1];
    }
    forall k, ip | 0 <= k < |ns'| && k != Shifted(i, j) && ip != ANY && HasIp(merged, ip)
      ensures !HasIp(Without(ns, j)[k], ip)
    {
      assert Without(ns, j)[k] == ns[if k < j then k else k + 1];
    }
    ReplacedTable(w, Without(ns, j), Shifted(i, j), merged);
  }

  /** The two virtual queues are disjoint, so moving one over succeeds. */
  lemma MergedQueues(w: World, st: Protocol, i: nat, j: nat, other: Neighbor)
    requires Inv(w, st) && i < |st.neighbors| && j < |st.neighbors| && i != j
    requires other.virtualQueue == st.neighbors[j].virtualQueue
    requires forall m :: HasMac(other, m) <==> HasMac(st.neighbors[j], m)
    ensures MovedOver(st.queue.cells, other.virtualQueue, st.neighbors[i].virtualQueue)
         == Done(Merged(st.neighbors[i], other).virtualQueue)
    ensures GoodVirtualQueue(st.queue.cells, Merged(st.neighbors[i], other))
  {
    var ns, cells := st.neighbors, st.queue.cells;
    assert GoodVirtualQueue(cells, ns[i]) && GoodVirtualQueue(cells, ns[j]);
    assert GoodVirtualQueue(cells, other);
    forall p | p in ns[i].virtualQueue
      ensures p !in other.virtualQueue
    {
      if p in other.virtualQueue {
        IndexedOnce(cells, ns, i, j, p);
      }
    }
    MergedQueue(cells, ns[i], other);
  }

  /** Where an address, and a pointer, of the old table is found in the merged one. */
  lemma MergedHolds(ns: seq<Neighbor>, i: nat, j: nat, other: Neighbor, k: nat, m: Mac48Address)
    requires i < |ns| && j < |ns| && i != j && k < |ns| && HasMac(ns[k], m)
    requires other.virtualQueue == ns[j].virtualQueue && forall m :: HasMac(other, m) <==> HasMac(ns[j], m)
    ensures Known(MergedTable(ns, i, j, other), m)
    ensures forall p | p in ns[k].virtualQueue :: HeldBy(MergedTable(ns, i, j, other), p, m)
  {
    var ns1 := ns[i := Merged(ns[i], other)];
    var ns' := MergedTable(ns, i, j, other);
    var k' := if k == j then i else k;
    MergedAddresses(ns[i], other);
    WithoutAt(ns1, j, k');
    assert HasMac(ns'[Shifted(k', j)], m);
    assert forall p | p in ns[k].virtualQueue :: p in ns'[Shifted(k', j)].virtualQueue;
  }

  lemma MergedIndex(w: World, st: Protocol, i: nat, j: nat, other: Neighbor)
    requires Inv(w, st) && i < |st.neighbors| && j < |st.neighbors| && i != j
    requires other.virtualQueue == st.neighbors[j].virtualQueue
    requires forall m :: HasMac(other, m) <==> HasMac(st.neighbors[j], m)
    requires GoodTable(w, MergedTable(st.neighbors, i, j, other))
    ensures Inv(w, st.(neighbors := MergedTable(st.neighbors, i, j, other)))
  {
    hide GoodVirtualQueue, Merged, GoodWorld, GoodWaiting, TrueNeighbor;
    var ns, cells := st.neighbors, st.queue.cells;
    var ns' := MergedTable(ns, i, j, other);
    MergedQueues(w, st, i, j, other);
    forall k | 0 <= k < |ns'|
      ensures GoodVirtualQueue(cells, ns'[k])
    {
      assert ns'[k] == ns[i := Merged(ns[i], other)][if k < j then k else k + 1];
    }
    forall p | p in cells && cells[p].Unicast()
      ensures HeldBy(ns', p, cells[p].dest)
    {
      IndexedIsHeld(cells, ns, p);
      var k :| 0 <= k < |ns| && HasMac(ns[k], cells[p].dest) && p in ns[k].virtualQueue;
      MergedHolds(ns, i, j, other, k, cells[p].dest);
    }
    IndexedFromHeld(cells, ns');
    forall m | Known(ns, m)
      ensures Known(ns', m)
    {
      var k :| 0 <= k < |ns| && HasMac(ns[k], m);
      MergedHolds(ns, i, j, other, k, m);
    }
    WaitingFromKnown(st.rtqueue, ns, ns');
  }

  lemma MergeKeeps(w: World, st: Protocol, i: nat, j: nat, t: AddressPair)
    requires Inv(w, st) && Sender(w, t) && i < |st.neighbors| && j < |st.neighbors| && i != j
    requires HasIp(st.neighbors[i], t.ip) && HasMac(st.neighbors[j], t.mac)
    ensures var other := WithTrinity(st.neighbors[j], t);
            && MovedOver(st.queue.cells, other.virtualQueue, st.neighbors[i].virtualQueue)
                == Done(Merged(st.neighbors[i], other).virtualQueue)
            && Inv(w, st.(neighbors := MergedTable(st.neighbors, i, j, other)))
  {
    var other := WithTrinity(st.neighbors[j], t);
    assert !HasIp(st.neighbors[j], t.ip);
    TrinityKeepsMacs(w, st.neighbors[j], t);
    assert HasMac(other, t.mac);
    OwnerOfMember(w, other, t.mac);
    MergedTableGood(w, st.neighbors, i, j, other, t);
    MergedQueues(w, st, i, j, other);
    MergedIndex(w, st, i, j, other);
  }

  lemma OwnerOfMember(w: World, n: Neighbor, mac: Mac48Address)
    requires TrueNeighbor(w, n) && HasMac(n, mac)
    ensures w.owner(n.pairs[0].mac) == w.owner(mac)
  {
  }

  // ---------- A new neighbour ----------

  lemma AppendKeeps(w: World, st: Protocol, t: AddressPair)
    requires Inv(w, st) && Sender(w, t) && !Known(st.neighbors, t.mac)
    requires forall k | 0 <= k < |st.neighbors| :: !HasIp(st.neighbors[k], t.ip)
    ensures Inv(w, st.(neighbors := st.neighbors + [Neighbor([t], [])]))
    ensures forall other | other in st.neighbors :: !ShareAddress(Neighbor([t], []), other)
  {
    var ns, n := st.neighbors, Neighbor([t], []);
    NewNeighborFits(w, ns, n);
    var ns' := ns + [n];
    forall k | 0 <= k < |ns'|
      ensures GoodVirtualQueue(st.queue.cells, ns'[k])
    {
      if k < |ns| {
        assert GoodVirtualQueue(st.queue.cells, ns[k]);
      }
    }
    forall p | p in st.queue.cells && st.queue.cells[p].Unicast()
      ensures HeldBy(ns', p, st.queue.cells[p].dest)
    {
      IndexedIsHeld(st.queue.cells, ns, p);
      var k :| 0 <= k < |ns| && HasMac(ns[k], st.queue.cells[p].dest) && p in ns[k].virtualQueue;
      assert HasMac(ns'[k], st.queue.cells[p].dest) && p in ns'[k].virtualQueue;
    }
    IndexedFromHeld(st.queue.cells, ns');
    AppendedWaiting(st.rtqueue, ns, n);
  }

  // ---------- A frame is heard ----------

  /** Recognizing the sender of a frame never stops, and keeps the index. */
  lemma RecognizedKeeps(w: World, st: Protocol, t: AddressPair)
    requires Inv(w, st) && Sender(w, t)
    ensures Recognized(st.queue.cells, st.neighbors, t).Done?
    ensures Inv(w, st.(neighbors := Recognized(st.queue.cells, st.neighbors, t).value))
  {
    hide Inv, WithTrinity, GoodTable;
    var ns := st.neighbors;
    var i, j := SearchIp(ns, t.ip), SearchMac(ns, t.mac);
    KnownIff(ns, t.mac);
    if i < |ns| && j == |ns| {
      SoftAdded(w, st, i, t);
    } else if i == |ns| && j < |ns| {
      TrinityAdded(w, st, j, t);
    } else if i < |ns| && i != j {
      MergeKeeps(w, st, i, j, t);
    } else if i == |ns| {
      AppendKeeps(w, st, t);
    }
  }

  // ---------- A hello is heard ----------

  /** The hello lists all interfaces of one node, each with an IP address of its own. */
  ghost predicate Complete(w: World, node: nat, pairs: seq<AddressPair>) {
    && 0 < |pairs| <= 255
    && (forall p | p in pairs :: TruePair(w, node, p) && p.ip != ANY)
    && (forall i, j | 0 <= i < j < |pairs| :: pairs[i].ip != pairs[j].ip && pairs[i].mac != pairs[j].mac)
    && (forall m: Mac48Address | w.owner(m) == node :: exists p | p in pairs :: p.mac == m)
  }

  /** The table and the neighbour being assembled share the index between them; no neighbour left in
      the table has an address listed so far. */
  ghost predicate LearnInv(w: World, node: nat, before: seq<Neighbor>, cells: map<nat, Entry>, a: Assembly,
                           listed: seq<AddressPair>) {
    && GoodTable(w, a.neighbors) && a.assembled.pairs == listed
    && (forall k | 0 <= k < |a.neighbors| :: GoodVirtualQueue(cells, a.neighbors[k]))
    && NoDuplicates(a.assembled.virtualQueue)
    && (forall p | p in a.assembled.virtualQueue :: p in cells && cells[p].Unicast() && w.owner(cells[p].dest) == node)
    && (forall k, p | 0 <= k < |a.neighbors| && p in a.neighbors[k].virtualQueue :: p !in a.assembled.virtualQueue)
    && (forall p | p in cells && cells[p].Unicast() ::
          p in a.assembled.virtualQueue || HeldBy(a.neighbors, p, cells[p].dest))
    && (forall m | Known(before, m) :: Known(a.neighbors, m) || w.owner(m) == node)
  }

  /** No neighbour left in the table has an address of the given pairs. */
  ghost predicate Gone(ns: seq<Neighbor>, listed: seq<AddressPair>) {
    forall k, p | 0 <= k < |ns| && p in listed :: !HasMac(ns[k], p.mac) && !HasIp(ns[k], p.ip)
  }

  lemma AbsorbedTable(w: World, node: nat, before: seq<Neighbor>, cells: map<nat, Entry>, a: Assembly,
                      listed: seq<AddressPair>, i: nat)
    requires LearnInv(w, node, before, cells, a, listed) && UniquePids(cells) && i < |a.neighbors|
    requires w.owner(a.neighbors[i].pairs[0].mac) == node
    ensures Absorbed(cells, a, i) ==
            Done(Assembly(Without(a.neighbors, i),
              a.assembled.(virtualQueue := a.assembled.virtualQueue + a.neighbors[i].virtualQueue)))
    ensures GoodTable(w, Without(a.neighbors, i))
    ensures forall p | p in a.neighbors[i].virtualQueue ::
              p in cells && cells[p].Unicast() && w.owner(cells[p].dest) == node
    ensures NoDuplicates(a.assembled.virtualQueue + a.neighbors[i].virtualQueue)
  {
    var n := a.neighbors[i];
    assert TrueNeighbor(w, n) && GoodVirtualQueue(cells, n);
    MovedOverAll(cells, n.virtualQueue, a.assembled.virtualQueue);
    WithoutTable(w, a.neighbors, i);
    forall p | p in n.virtualQueue
      ensures w.owner(cells[p].dest) == node
    {
      OwnerOfMember(w, n, cells[p].dest);
    }
  }

  /** Taking a neighbour of the sender out of the table keeps the shared index. */
  lemma AbsorbedKeeps(w: World, node: nat, before: seq<Neighbor>, cells: map<nat, Entry>, a: Assembly,
                      listed: seq<AddressPair>, i: nat)
    requires LearnInv(w, node, before, cells, a, listed) && UniquePids(cells) && i < |a.neighbors|
    requires w.owner(a.neighbors[i].pairs[0].mac) == node
    ensures Absorbed(cells, a, i).Done?
    ensures Absorbed(cells, a, i).value.neighbors == Without(a.neighbors, i)
    ensures LearnInv(w, node, before, cells, Absorbed(cells, a, i).value, listed)
  {
    AbsorbedTable(w, node, before, cells, a, listed, i);
    var ns, r := a.neighbors, Absorbed(cells, a, i).value;
    assert forall k | 0 <= k < |r.neighbors| :: r.neighbors[k] == ns[if k < i then k else k + 1];
    forall k, p | 0 <= k < |r.neighbors| && p in r.neighbors[k].virtualQueue
      ensures p !in r.assembled.virtualQueue
    {
      var k' := if k < i then k else k + 1;
      HeldOnce(cells, ns, i, k', p);
    }
    forall p | p in cells && cells[p].Unicast() && p !in r.assembled.virtualQueue
      ensures HeldBy(r.neighbors, p, cells[p].dest)
    {
      var k :| 0 <= k < |ns| && HasMac(ns[k], cells[p].dest) && p in ns[k].virtualQueue;
      WithoutAt(ns, i, k);
    }
    forall m | Known(before, m)
      ensures Known(r.neighbors, m) || w.owner(m) == node
    {
      if Known(ns, m) {
        var k :| 0 <= k < |ns| && HasMac(ns[k], m);
        if k == i {
          OwnerOfMember(w, ns[i], m);
        } else {
          WithoutAt(ns, i, k);
        }
      }
    }
  }

  lemma HeldOnce(cells: map<nat, Entry>, ns: seq<Neighbor>, i: nat, j: nat, p: nat)
    requires Disjoint(ns) && i < |ns| && j < |ns| && GoodVirtualQueue(cells, ns[i]) && GoodVirtualQueue(cells, ns[j])
    requires i != j && p in ns[j].virtualQueue
    ensures p !in ns[i].virtualQueue
  {
  }

  lemma GoneStays(ns: seq<Neighbor>, i: nat, listed: seq<AddressPair>)
    requires i < |ns| && Gone(ns, listed)
    ensures Gone(Without(ns, i), listed)
  {
    assert forall k | 0 <= k < |Without(ns, i)| :: Without(ns, i)[k] == ns[if k < i then k else k + 1];
  }

  lemma OwnerByIp(w: World, n: Neighbor, node: nat, t: AddressPair)
    requires TrueNeighbor(w, n) && TruePair(w, node, t) && t.ip != ANY && (HasIp(n, t.ip) || HasMac(n, t.mac))
    ensures w.owner(n.pairs[0].mac) == node
  {
  }

  /** Nobody has the MAC address any more once its one owner has been taken out. */
  lemma MacGone(ns: seq<Neighbor>, i: nat, mac: Mac48Address)
    requires Disjoint(ns) && i < |ns| && HasMac(ns[i], mac)
    ensures forall k | 0 <= k < |Without(ns, i)| :: !HasMac(Without(ns, i)[k], mac)
  {
    assert forall k | 0 <= k < |Without(ns, i)| :: Without(ns, i)[k] == ns[if k < i then k else k + 1];
  }

  lemma IpGone(ns: seq<Neighbor>, i: nat, ip: Ipv4Address)
    requires Disjoint(ns) && i < |ns| && HasIp(ns[i], ip) && ip != ANY
    ensures forall k | 0 <= k < |Without(ns, i)| :: !HasIp(Without(ns, i)[k], ip)
  {
    assert forall k | 0 <= k < |Without(ns, i)| :: Without(ns, i)[k] == ns[if k < i then k else k + 1];
  }

  lemma AbsorbedByMac(w: World, node: nat, before: seq<Neighbor>, cells: map<nat, Entry>, a: Assembly,
                      listed: seq<AddressPair>, t: AddressPair)
    requires LearnInv(w, node, before, cells, a, listed) && UniquePids(cells) && Gone(a.neighbors, listed)
    requires TruePair(w, node, t) && t.ip != ANY
    ensures Absorbed(cells, a, SearchMac(a.neighbors, t.mac)).Done?
    ensures var b := Absorbed(cells, a, SearchMac(a.neighbors, t.mac)).value;
            && LearnInv(w, node, before, cells, b, listed) && Gone(b.neighbors, listed)
            && forall k | 0 <= k < |b.neighbors| :: !HasMac(b.neighbors[k], t.mac)
  {
    hide LearnInv, GoodTable, Absorbed, Gone;
    var i := SearchMac(a.neighbors, t.mac);
    if i < |a.neighbors| {
      LearnTable(w, node, before, cells, a, listed);
      OwnerByIp(w, a.neighbors[i], node, t);
      AbsorbedKeeps(w, node, before, cells, a, listed, i);
      GoneStays(a.neighbors, i, listed);
      MacGone(a.neighbors, i, t.mac);
    } else {
      NothingAbsorbed(cells, a);
    }
  }

  lemma AbsorbedByIp(w: World, node: nat, before: seq<Neighbor>, cells: map<nat, Entry>, a: Assembly,
                     listed: seq<AddressPair>, t: AddressPair)
    requires LearnInv(w, node, before, cells, a, listed) && UniquePids(cells) && Gone(a.neighbors, listed)
    requires TruePair(w, node, t) && t.ip != ANY && forall k | 0 <= k < |a.neighbors| :: !HasMac(a.neighbors[k], t.mac)
    ensures Absorbed(cells, a, SearchIp(a.neighbors, t.ip)).Done?
    ensures var b := Absorbed(cells, a, SearchIp(a.neighbors, t.ip)).value;
            LearnInv(w, node, before, cells, b, listed) && Gone(b.neighbors, listed + [t])
  {
    hide LearnInv, GoodTable, Absorbed;
    var i := SearchIp(a.neighbors, t.ip);
    if i < |a.neighbors| {
      LearnTable(w, node, before, cells, a, listed);
      OwnerByIp(w, a.neighbors[i], node, t);
      AbsorbedKeeps(w, node, before, cells, a, listed, i);
      GoneStays(a.neighbors, i, listed);
      IpGone(a.neighbors, i, t.ip);
      assert forall k | 0 <= k < |Without(a.neighbors, i)| ::
          Without(a.neighbors, i)[k] == a.neighbors[if k < i then k else k + 1];
    } else {
      NothingAbsorbed(cells, a);
    }
  }

  lemma NothingAbsorbed(cells: map<nat, Entry>, a: Assembly)
    ensures Absorbed(cells, a, |a.neighbors|) == Done(a)
  {
  }

  lemma LearnTable(w: World, node: nat, before: seq<Neighbor>, cells: map<nat, Entry>, a: Assembly,
                   listed: seq<AddressPair>)
    requires LearnInv(w, node, before, cells, a, listed)
    ensures Disjoint(a.neighbors) && forall i | 0 <= i < |a.neighbors| :: TrueNeighbor(w, a.neighbors[i])
  {
  }

  lemma {:induction false} NothingCleared(w: World, node: nat, listed: seq<AddressPair>, t: AddressPair)
    requires GoodWorld(w) && TruePair(w, node, t)
    requires forall p | p in listed :: TruePair(w, node, p) && p.ip != t.ip && p.mac != t.mac
    ensures Cleared(listed, t) == listed
  {
    if listed == [] {
    } else {
      NothingCleared(w, node, listed[1..], t);
    }
  }

  lemma LearnedPairKeeps(w: World, node: nat, before: seq<Neighbor>, cells: map<nat, Entry>, a: Assembly,
                         all: seq<AddressPair>, k: nat)
    requires GoodWorld(w) && Complete(w, node, all) && k < |all| && UniquePids(cells)
    requires LearnInv(w, node, before, cells, a, all[..k]) && Gone(a.neighbors, all[..k])
    ensures LearnedPair(cells, a, all[k]).Done?
    ensures var b := LearnedPair(cells, a, all[k]).value;
            LearnInv(w, node, before, cells, b, all[..k + 1]) && Gone(b.neighbors, all[..k + 1])
  {
    hide LearnInv, Gone, Absorbed;
    var t := all[k];
    AbsorbedByMac(w, node, before, cells, a, all[..k], t);
    var b := Absorbed(cells, a, SearchMac(a.neighbors, t.mac)).value;
    AbsorbedByIp(w, node, before, cells, b, all[..k], t);
    var c := Absorbed(cells, b, SearchIp(b.neighbors, t.ip)).value;
    assert all[..k + 1] == all[..k] + [t];
    PairAppended(w, node, before, cells, c, all[..k], t);
  }

  lemma PairAppended(w: World, node: nat, before: seq<Neighbor>, cells: map<nat, Entry>, c: Assembly,
                     listed: seq<AddressPair>, t: AddressPair)
    requires GoodWorld(w) && TruePair(w, node, t) && LearnInv(w, node, before, cells, c, listed)
    requires forall p | p in listed :: TruePair(w, node, p) && p.ip != t.ip && p.mac != t.mac
    ensures LearnInv(w, node, before, cells, c.(assembled := WithTrinity(c.assembled, t)), listed + [t])
  {
    NothingCleared(w, node, listed, t);
  }

  lemma {:induction false} LearnedPairsKeep(w: World, node: nat, before: seq<Neighbor>, cells: map<nat, Entry>,
                                            a: Assembly, all: seq<AddressPair>, k: nat)
    requires GoodWorld(w) && Complete(w, node, all) && k <= |all| && UniquePids(cells)
    requires LearnInv(w, node, before, cells, a, all[..k]) && Gone(a.neighbors, all[..k])
    ensures LearnedPairs(cells, a, all[k..]).Done?
    ensures var b := LearnedPairs(cells, a, all[k..]).value;
            LearnInv(w, node, before, cells, b, all) && Gone(b.neighbors, all)
    decreases |all| - k
  {
    hide LearnInv, Gone, LearnedPair, Complete;
    if k < |all| {
      LearnedPairKeeps(w, node, before, cells, a, all, k);
      assert all[k..][1..] == all[k + 1..];
      LearnedPairsKeep(w, node, before, cells, LearnedPair(cells, a, all[k]).value, all, k + 1);
    } else {
      assert all[..k] == all;
    }
  }

  lemma LearningStarts(w: World, node: nat, st: Protocol)
    requires Inv(w, st)
    ensures LearnInv(w, node, st.neighbors, st.queue.cells, Assembly(st.neighbors, Neighbor([], [])), [])
    ensures Gone(st.neighbors, [])
  {
    forall p | p in st.queue.cells && st.queue.cells[p].Unicast()
      ensures HeldBy(st.neighbors, p, st.queue.cells[p].dest)
    {
      IndexedIsHeld(st.queue.cells, st.neighbors, p);
    }
  }

  lemma AppendedHolds(ns: seq<Neighbor>, n: Neighbor, m: Mac48Address)
    ensures Known(ns, m) || HasMac(n, m) ==> Known(ns + [n], m)
    ensures forall p | HeldBy(ns, p, m) || (HasMac(n, m) && p in n.virtualQueue) :: HeldBy(ns + [n], p, m)
  {
    assert (ns + [n])[|ns|] == n;
    assert forall k | 0 <= k < |ns| :: (ns + [n])[k] == ns[k];
  }

  lemma AssembledQueue(w: World, node: nat, before: seq<Neighbor>, cells: map<nat, Entry>, a: Assembly,
                       all: seq<AddressPair>)
    requires Complete(w, node, all) && LearnInv(w, node, before, cells, a, all) && Gone(a.neighbors, all)
    ensures TrueNeighbor(w, a.assembled) && GoodVirtualQueue(cells, a.assembled)
    ensures Added(a.neighbors, a.assembled) == a.neighbors + [a.assembled] && GoodTable(w, a.neighbors + [a.assembled])
    ensures forall m: Mac48Address | w.owner(m) == node :: HasMac(a.assembled, m)
  {
    assert TruePair(w, node, all[0]) && TrueNeighbor(w, a.assembled);
    NewNeighborFits(w, a.neighbors, a.assembled);
  }

  /** Once all pairs are listed the assembled neighbour takes its place in the table. */
  lemma AssembledFits(w: World, node: nat, st: Protocol, a: Assembly, all: seq<AddressPair>)
    requires Inv(w, st) && Complete(w, node, all)
    requires LearnInv(w, node, st.neighbors, st.queue.cells, a, all) && Gone(a.neighbors, all)
    ensures Inv(w, st.(neighbors := Added(a.neighbors, a.assembled)))
  {
    AssembledQueue(w, node, st.neighbors, st.queue.cells, a, all);
    hide GoodVirtualQueue, TrueNeighbor, Complete, Gone, Added, HeldBy, Known, GoodWorld, GoodWaiting;
    var cells, n := st.queue.cells, a.assembled;
    var ns := a.neighbors + [n];
    forall p | p in cells && cells[p].Unicast()
      ensures HeldBy(ns, p, cells[p].dest)
    {
      AppendedHolds(a.neighbors, n, cells[p].dest);
    }
    IndexedFromHeld(cells, ns);
    forall m | Known(st.neighbors, m)
      ensures Known(ns, m)
    {
      AppendedHolds(a.neighbors, n, m);
    }
    WaitingFromKnown(st.rtqueue, st.neighbors, ns);
  }

  /** All packets for a node are in the virtual queue of the given neighbour. */
  ghost predicate Collects(w: World, node: nat, cells: map<nat, Entry>, n: Neighbor) {
    forall p | p in cells && cells[p].Unicast() && w.owner(cells[p].dest) == node :: p in n.virtualQueue
  }

  lemma IndexCollects(w: World, node: nat, cells: map<nat, Entry>, ns: seq<Neighbor>, i: nat, pairs: seq<AddressPair>)
    requires Disjoint(ns) && Indexed(cells, ns) && i < |ns| && ns[i].pairs == pairs && Complete(w, node, pairs)
    ensures Collects(w, node, cells, ns[i])
  {
    forall p | p in cells && cells[p].Unicast() && w.owner(cells[p].dest) == node
      ensures p in ns[i].virtualQueue
    {
      assert IndexedAt(ns, p, cells[p].dest);
      SearchMacIs(ns, i, cells[p].dest);
    }
  }

  /** The sender after its hello: the neighbour that was assembled from it. */
  lemma AssembledCollects(w: World, node: nat, st: Protocol, a: Assembly, all: seq<AddressPair>)
    requires Inv(w, st.(neighbors := Added(a.neighbors, a.assembled))) && Complete(w, node, all)
    requires LearnInv(w, node, st.neighbors, st.queue.cells, a, all) && Gone(a.neighbors, all)
    ensures a.assembled in Added(a.neighbors, a.assembled) && a.assembled.pairs == all
    ensures Collects(w, node, st.queue.cells, a.assembled)
  {
    AssembledQueue(w, node, st.neighbors, st.queue.cells, a, all);
    var ns := a.neighbors + [a.assembled];
    hide LearnInv, Gone, GoodVirtualQueue, IndexedAt, GoodWaiting, Complete, Added;
    assert ns[|a.neighbors|] == a.assembled;
    IndexCollects(w, node, st.queue.cells, ns, |a.neighbors|, all);
  }

  /** Learning a complete hello never stops, keeps the index, and replaces whatever was known of the
      sender: it is one neighbour with exactly the pairs of the hello, in whose virtual queue all
      packets for its addresses are. */
  lemma LearnedKeeps(w: World, node: nat, st: Protocol, pairs: seq<AddressPair>)
    requires Inv(w, st) && Complete(w, node, pairs)
    ensures Learned(st, pairs).Done? && Inv(w, Learned(st, pairs).value)
    ensures exists n :: n in Learned(st, pairs).value.neighbors && n.pairs == pairs
              && Collects(w, node, st.queue.cells, n)
  {
    hide LearnInv, Gone, LearnedPairs, Collects;
    assert pairs[..|pairs| % 256] == pairs && pairs[0..] == pairs && pairs[..0] == [];
    LearningStarts(w, node, st);
    var start := Assembly(st.neighbors, Neighbor([], []));
    LearnedPairsKeep(w, node, st.neighbors, st.queue.cells, start, pairs, 0);
    var a := LearnedPairs(st.queue.cells, start, pairs).value;
    AssembledFits(w, node, st, a, pairs);
    AssembledCollects(w, node, st, a, pairs);
  }
}
