/** Whole runs of one node: the index agrees with the output queue in every reachable state, none of
    the assertions about it can fail, and what is heard is recorded of the node it was heard from. */
module MyncRuns {
  import opened Addresses
  import opened Options
  import opened XorCoding
  import opened MyncQueues
  import opened MyncNeighbors
  import opened MyncProtocol
  import opened MyncIndex
  import opened MyncSending
  import opened MyncLearning

  // ---------- A frame is received ----------

  /** The pointers to packets whose ids are not listed, in order. */
  ghost function Unlisted(order: seq<nat>, cells: map<nat, Entry>, pids: seq<PacketId>): seq<nat> {
    if order == [] then []
    else
      (if order[0] in cells && cells[order[0]].pid in pids then [] else [order[0]])
        + Unlisted(order[1..], cells, pids)
  }

  /** Exactly the packets with the listed ids have left; the others are as they were, in the same order. */
  ghost predicate Drops(before: Queue, after: Queue, pids: seq<PacketId>) {
    && (forall p :: p in after.cells <==> p in before.cells && before.cells[p].pid !in pids)
    && (forall p | p in after.cells :: after.cells[p] == before.cells[p])
    && after.order == Unlisted(before.order, before.cells, pids) && after.next == before.next
  }

  lemma {:induction false} UnlistedSplits(a: seq<nat>, b: seq<nat>, cells: map<nat, Entry>, pids: seq<PacketId>)
    ensures Unlisted(a + b, cells, pids) == Unlisted(a, cells, pids) + Unlisted(b, cells, pids)
  {
    if a == [] {
      assert a + b == b;
    } else {
      assert (a + b)[1..] == a[1..] + b;
      UnlistedSplits(a[1..], b, cells, pids);
    }
  }

  /** Where no packet has the first id, it makes no difference. */
  lemma {:induction false} UnlistedRest(order: seq<nat>, cells: map<nat, Entry>, after: map<nat, Entry>,
                                        pids: seq<PacketId>)
    requires pids != []
    requires forall p | p in order :: p in cells && p in after && after[p] == cells[p] && cells[p].pid != pids[0]
    ensures Unlisted(order, cells, pids) == Unlisted(order, after, pids[1..])
  {
    if order != [] {
      assert order[0] in order && forall pid :: pid in pids <==> pid == pids[0] || pid in pids[1..];
      UnlistedRest(order[1..], cells, after, pids);
    }
  }

  lemma UnlistedFirst(cells: map<nat, Entry>, p: nat, pids: seq<PacketId>)
    requires p in cells && cells[p].pid in pids
    ensures Unlisted([p], cells, pids) == []
  {
    assert [p][1..] == [];
  }

  lemma ErasedOrder(q: Queue, pids: seq<PacketId>)
    requires Good(q) && pids != []
    ensures var r := Erased(q, pids[0]); Unlisted(r.order, r.cells, pids[1..]) == Unlisted(q.order, q.cells, pids)
  {
    hide Unlisted, PositionOf, Good;
    OrderIsCells(q);
    var r, k := Erased(q, pids[0]), PositionOf(q.order, q.cells, pids[0]);
    ErasedGood(q, pids[0]);
    OrderIsCells(r);
    if k < |q.order| {
      var a, p, b := q.order[..k], q.order[k], q.order[k + 1..];
      assert r.order == a + b && q.order == a + ([p] + b);
      UnlistedSplits(a, [p] + b, q.cells, pids);
      UnlistedSplits([p], b, q.cells, pids);
      UnlistedFirst(q.cells, p, pids);
      UnlistedSplits(a, b, q.cells, pids);
    }
    UnlistedRest(r.order, q.cells, r.cells, pids);
  }

  lemma OrderIsCells(q: Queue)
    requires Good(q)
    ensures forall p :: p in q.order <==> p in q.cells
  {
  }

  /** Acknowledged packets leave the retransmission queue, and no others do. */
  lemma {:induction false} AcknowledgedDrops(q: Queue, acks: seq<PacketId>)
    requires Good(q)
    ensures Good(Acknowledged(q, acks)) && Drops(q, Acknowledged(q, acks), acks)
    decreases |acks|
  {
    hide Erased, Good;
    if acks == [] {
      NothingUnlisted(q.order, q.cells);
      assert forall p :: p in q.cells <==> p in q.cells && q.cells[p].pid !in acks;
    } else {
      var r := Erased(q, acks[0]);
      ErasedGood(q, acks[0]);
      ErasedNext(q, acks[0]);
      ErasedOrder(q, acks);
      AcknowledgedDrops(r, acks[1..]);
    }
  }

  lemma ErasedNext(q: Queue, pid: PacketId)
    ensures Erased(q, pid).next == q.next
  {
  }

  lemma {:induction false} NothingUnlisted(order: seq<nat>, cells: map<nat, Entry>)
    ensures Unlisted(order, cells, []) == order
  {
    if order != [] {
      NothingUnlisted(order[1..], cells);
    }
  }

  lemma AcknowledgedWaits(q: Queue, ns: seq<Neighbor>, acks: seq<PacketId>)
    requires GoodWaiting(q, ns)
    ensures GoodWaiting(Acknowledged(q, acks), ns)
  {
    AcknowledgedDrops(q, acks);
  }

  /** After recognizing the sender, a neighbour with the sender's IP address is in the table. */
  lemma SenderIsListed(cells: map<nat, Entry>, ns: seq<Neighbor>, t: AddressPair)
    requires Recognized(cells, ns, t).Done?
    ensures var ns' := Recognized(cells, ns, t).value; exists k :: 0 <= k < |ns'| && HasIp(ns'[k], t.ip)
  {
    var ns' := Recognized(cells, ns, t).value;
    var i, j := SearchIp(ns, t.ip), SearchMac(ns, t.mac);
    if i == |ns| {
      var k := if j < |ns| then j else |ns|;
      assert t in ns'[k].pairs;
    } else if j == |ns| {
      assert forall p | p in ns[i].pairs :: p in ns'[i].pairs;
    } else if i != j {
      WithoutAt(ns[i := Neighbor(ns[i].pairs + WithTrinity(ns[j], t).pairs, ns'[Shifted(i, j)].virtualQueue)], j, i);
      assert forall p | p in ns[i].pairs :: p in ns'[Shifted(i, j)].pairs;
    }
  }

  /** The sender of a frame is one neighbour of the new table, by both its addresses, and otherwise the same
      MAC addresses are known as before. */
  ghost predicate Introduces(ns: seq<Neighbor>, ns': seq<Neighbor>, t: AddressPair) {
    && (exists k :: 0 <= k < |ns'| && HasIp(ns'[k], t.ip) && HasMac(ns'[k], t.mac))
    && (forall m :: Known(ns', m) <==> Known(ns, m) || m == t.mac)
  }

  lemma ReplacedIntroduces(ns: seq<Neighbor>, i: nat, n: Neighbor, t: AddressPair)
    requires i < |ns| && HasIp(n, t.ip) && forall m :: HasMac(n, m) <==> HasMac(ns[i], m) || m == t.mac
    ensures Introduces(ns, ns[i := n], t)
  {
    var ns' := ns[i := n];
    assert HasIp(ns'[i], t.ip) && HasMac(ns'[i], t.mac);
    forall m
      ensures Known(ns', m) <==> Known(ns, m) || m == t.mac
    {
      if k :| 0 <= k < |ns| && HasMac(ns[k], m) {
        assert HasMac(ns'[k], m);
      }
      if k :| 0 <= k < |ns'| && HasMac(ns'[k], m) {
        assert k == i || HasMac(ns[k], m);
      }
    }
  }

  lemma AppendedIntroduces(ns: seq<Neighbor>, t: AddressPair)
    ensures Introduces(ns, ns + [Neighbor([t], [])], t)
  {
    var n := Neighbor([t], []);
    var ns' := ns + [n];
    assert t in n.pairs && ns'[|ns|] == n && HasIp(ns'[|ns|], t.ip) && HasMac(ns'[|ns|], t.mac);
    forall m
      ensures Known(ns', m) <==> Known(ns, m) || m == t.mac
    {
      if k :| 0 <= k < |ns| && HasMac(ns[k], m) {
        assert HasMac(ns'[k], m);
      }
      if k :| 0 <= k < |ns'| && HasMac(ns'[k], m) {
        assert k == |ns| || HasMac(ns[k], m);
      }
    }
  }

  lemma MergedIntroduces(ns: seq<Neighbor>, i: nat, j: nat, other: Neighbor, t: AddressPair)
    requires i < |ns| && j < |ns| && i != j && HasIp(ns[i], t.ip) && HasMac(ns[j], t.mac)
    requires other.virtualQueue == ns[j].virtualQueue && forall m :: HasMac(other, m) <==> HasMac(ns[j], m)
    ensures Introduces(ns, MergedTable(ns, i, j, other), t)
  {
    hide HasMac, HasIp, Merged;
    var merged := ns[i := Merged(ns[i], other)];
    var ns' := MergedTable(ns, i, j, other);
    MergedAddresses(ns[i], other);
    WithoutAt(merged, j, i);
    assert HasIp(ns'[Shifted(i, j)], t.ip) && HasMac(ns'[Shifted(i, j)], t.mac);
    forall m
      ensures Known(ns', m) <==> Known(ns, m)
    {
      if k :| 0 <= k < |ns| && HasMac(ns[k], m) {
        MergedHolds(ns, i, j, other, k, m);
      }
      if k :| 0 <= k < |ns'| && HasMac(ns'[k], m) {
        var k' := if k < j then k else k + 1;
        assert ns'[k] == merged[k'];
        assert HasMac(ns[k'], m) || HasMac(ns[j], m);
      }
    }
    assert Known(ns, t.mac);
  }

  /** Recognizing a sender makes its two addresses those of one neighbour; no address is forgotten, and no other
      is made up. */
  lemma SenderIsKnown(w: World, st: Protocol, t: AddressPair)
    requires Inv(w, st) && Sender(w, t)
    ensures Recognized(st.queue.cells, st.neighbors, t).Done?
    ensures Introduces(st.neighbors, Recognized(st.queue.cells, st.neighbors, t).value, t)
  {
    hide Inv, WithTrinity, Introduces, MovedOver, HasMac, HasIp, ShareAddress, Sender, Known;
    RecognizedKeeps(w, st, t);
    TableOf(w, st);
    var ns := st.neighbors;
    var i, j := SearchIp(ns, t.ip), SearchMac(ns, t.mac);
    if i < |ns| {
      InTable(w, ns, i);
    }
    if j < |ns| {
      InTable(w, ns, j);
    }
    if i < |ns| && j == |ns| {
      SoftTrinityKeeps(w, ns[i], t);
      ReplacedIntroduces(ns, i, ns[i].(pairs := ns[i].pairs + [t]), t);
    } else if i == |ns| && j < |ns| {
      TrinityKeepsMacs(w, ns[j], t);
      TrinityIsListed(ns[j], t);
      ReplacedIntroduces(ns, j, WithTrinity(ns[j], t), t);
    } else if i < |ns| && i == j {
      ReplacedIntroduces(ns, i, ns[i], t);
      assert ns[i := ns[i]] == ns;
    } else if i < |ns| {
      DifferentIps(w, ns, i, j, t);
      TrinityKeepsMacs(w, ns[j], t);
      MergeKeeps(w, st, i, j, t);
      MergedIntroduces(ns, i, j, WithTrinity(ns[j], t), t);
    } else {
      AppendedIntroduces(ns, t);
    }
  }

  lemma TrinityIsListed(n: Neighbor, t: AddressPair)
    ensures HasIp(WithTrinity(n, t), t.ip)
  {
    var r := WithTrinity(n, t);
    assert r.pairs[|r.pairs| - 1] == t && t in r.pairs;
  }

  lemma DifferentIps(w: World, ns: seq<Neighbor>, i: nat, j: nat, t: AddressPair)
    requires GoodTable(w, ns) && i < |ns| && j < |ns| && i != j && HasIp(ns[i], t.ip) && Sender(w, t)
    ensures !HasIp(ns[j], t.ip)
  {
  }

  lemma TableOf(w: World, st: Protocol)
    requires Inv(w, st)
    ensures GoodWorld(w) && GoodTable(w, st.neighbors)
  {
  }

  lemma SearchIpFinds(ns: seq<Neighbor>, ip: Ipv4Address)
    requires exists k :: 0 <= k < |ns| && HasIp(ns[k], ip)
    ensures SearchIp(ns, ip) < |ns|
  {
  }

  lemma OwnerOfSender(w: World, n: Neighbor, t: AddressPair)
    requires TrueNeighbor(w, n) && Sender(w, t) && HasIp(n, t.ip)
    ensures w.owner(GetMac(n)) == w.owner(t.mac)
  {
  }

  /** Recording adds to what is known exactly that the given address holds the given packets. */
  lemma {:induction false} RecordedIff(known: PacketInfo, pids: seq<PacketId>, mac: Mac48Address, pid: PacketId,
                                       m: Mac48Address)
    ensures GetItem(Recorded(known, pids, mac), pid, m) <==> GetItem(known, pid, m) || (pid in pids && m == mac)
    decreases |pids|
  {
    if pids == [] {
      assert Recorded(known, pids, mac) == known;
    } else {
      var first := SetItem(known, pids[0], mac);
      assert GetItem(first, pid, m) <==> GetItem(known, pid, m) || (pid == pids[0] && m == mac);
      RecordedIff(first, pids[1..], mac, pid, m);
    }
  }

  /** What is known afterwards: what was known before, and that mac holds the given packets. */
  ghost predicate Learns(before: PacketInfo, after: PacketInfo, held: seq<PacketId>, mac: Mac48Address) {
    forall pid, m :: GetItem(after, pid, m) <==> GetItem(before, pid, m) || (pid in held && m == mac)
  }

  /** Receiving a frame never stops, keeps the index, takes exactly the acknowledged packets out of the
      retransmission queue, and adds to what is known exactly that the sender, under an address it owns,
      holds what the frame says. */
  lemma FrameReceivedKeeps(w: World, st: Protocol, t: AddressPair, acks: seq<PacketId>, held: seq<PacketId>)
    requires Inv(w, st) && Sender(w, t)
    ensures FrameReceived(st, t, acks, held).Done?
    ensures var st' := FrameReceived(st, t, acks, held).value;
            && Inv(w, st') && st'.queue == st.queue && Drops(st.rtqueue, st'.rtqueue, acks)
            && exists mac :: w.owner(mac) == w.owner(t.mac) && Learns(st.known, st'.known, held, mac)
  {
    hide GoodTable, Indexed, GoodWaiting, Recognized, GetItem, Recorded;
    RecognizedKeeps(w, st, t);
    var ns := Recognized(st.queue.cells, st.neighbors, t).value;
    SenderIsListed(st.queue.cells, st.neighbors, t);
    SearchIpFinds(ns, t.ip);
    AcknowledgedWaits(st.rtqueue, ns, acks);
    WaitingDrops(st.rtqueue, st.neighbors, acks);
    InTable(w, ns, SearchIp(ns, t.ip));
    var n := ns[SearchIp(ns, t.ip)];
    OwnerOfSender(w, n, t);
    forall pid, m
      ensures GetItem(Recorded(st.known, held, GetMac(n)), pid, m) <==>
                GetItem(st.known, pid, m) || (pid in held && m == GetMac(n))
    {
      RecordedIff(st.known, held, GetMac(n), pid, m);
    }
  }

  lemma WaitingDrops(q: Queue, ns: seq<Neighbor>, acks: seq<PacketId>)
    requires GoodWaiting(q, ns)
    ensures Drops(q, Acknowledged(q, acks), acks)
  {
    AcknowledgedDrops(q, acks);
  }

  lemma InTable(w: World, ns: seq<Neighbor>, i: nat)
    requires GoodTable(w, ns) && i < |ns|
    ensures TrueNeighbor(w, ns[i])
  {
  }

  // ---------- Steps and runs ----------

  /** What the rest of the system keeps to under an assignment of addresses: new packets have not been
      sent before, unicast ones leave through an interface on their receiver's channel, hellos list
      all interfaces of one node, and frames come from where they say. */
  ghost predicate ValidStep(w: World, devices: seq<nat>, step: Step) {
    match step
    case Enqueue(e) =>
      && e.retry == 0
      && OwnInterface(devices, step)
      && (!e.hello && e.dest != BROADCAST ==> w.channel(e.dest) == devices[e.iface])
    case HearHello(pairs) => exists node :: Complete(w, node, pairs)
    case HearFrame(sender, _, _) => Sender(w, sender)
    case _ => true
  }

  /** Every step keeps the invariant or stops, and it stops only at a channel a coding candidate lacks
      or at an XOR of equal packets: no other assertion of the protocol can fail. */
  lemma SteppedKeeps(w: World, st: Protocol, step: Step)
    requires Inv(w, st) && ValidStep(w, st.devices, step)
    ensures match Stepped(st, step)
            case Fatal(r) => step.Send? && (r == NoSuchChannel || r == XorRunsOff)
            case Done(s) => Inv(w, s.st)
  {
    hide Inv, EnqueuedData, Retransmitted, Learned, FrameReceived, Complete, Sender;
    match step {
      case Enqueue(e) =>
        if e.hello {
          EnqueuedHelloKeeps(w, st, e);
        } else {
          EnqueuedDataKeeps(w, st, e);
        }
      case Send(active) =>
        if active != [] && st.queue.order != [] {
          SentKeeps(w, st, active);
        }
      case Retransmit =>
        RetransmittedKeeps(w, st);
      case HearHello(pairs) =>
        var node :| Complete(w, node, pairs);
        LearnedKeeps(w, node, st, pairs);
      case HearFrame(sender, acks, held) =>
        FrameReceivedKeeps(w, st, sender, acks, held);
    }
  }

  function Start(devices: seq<nat>): Protocol {
    Protocol(EMPTY, EMPTY, [], map[], devices)
  }

  lemma StartsIndexed(w: World, devices: seq<nat>)
    requires GoodWorld(w)
    ensures Inv(w, Start(devices))
  {
  }

  lemma {:induction false} PlayedKeeps(w: World, st: Protocol, steps: seq<Step>)
    requires Inv(w, st) && forall step | step in steps :: ValidStep(w, st.devices, step)
    ensures forall step | step in steps :: OwnInterface(st.devices, step)
    ensures match Played(st, steps)
            case Fatal(r) => r == NoSuchChannel || r == XorRunsOff
            case Done(h) => Inv(w, h.st)
    decreases |steps|
  {
    hide Inv, Stepped;
    if steps == [] {
    } else {
      SteppedKeeps(w, st, steps[0]);
      if Stepped(st, steps[0]).Done? {
        PlayedKeeps(w, Stepped(st, steps[0]).value.st, steps[1..]);
      }
    }
  }

  /** From an empty protocol, every run whatsoever reaches only states in which each unicast packet of
      the output queue sits in the virtual queue of the neighbour that owns its destination, in no
      other and there once, and all pointers of virtual queues are live; or it stops, and then at a
      channel a coding candidate lacks or at an XOR of equal packets. */
  lemma ReachableIndexed(w: World, devices: seq<nat>, steps: seq<Step>)
    requires GoodWorld(w) && forall step | step in steps :: ValidStep(w, devices, step)
    ensures forall step | step in steps :: OwnInterface(devices, step)
    ensures match Played(Start(devices), steps)
            case Fatal(r) => r == NoSuchChannel || r == XorRunsOff
            case Done(h) =>
              forall p | p in h.st.queue.cells && h.st.queue.cells[p].Unicast() ::
                var i := SearchMac(h.st.neighbors, h.st.queue.cells[p].dest);
                && i < |h.st.neighbors|
                && (forall j | 0 <= j < |h.st.neighbors| :: p in h.st.neighbors[j].virtualQueue <==> j == i)
                && (forall j, k | 0 <= j < k < |h.st.neighbors[i].virtualQueue| ::
                     h.st.neighbors[i].virtualQueue[j] != h.st.neighbors[i].virtualQueue[k])
    ensures match Played(Start(devices), steps)
            case Fatal(_) => true
            case Done(h) => forall i, p | 0 <= i < |h.st.neighbors| && p in h.st.neighbors[i].virtualQueue ::
              p in h.st.queue.cells
  {
    hide Played, Stepped;
    StartsIndexed(w, devices);
    PlayedKeeps(w, Start(devices), steps);
    var r := Played(Start(devices), steps);
    if r.Done? {
      var cells, ns := r.value.st.queue.cells, r.value.st.neighbors;
      forall p | p in cells && cells[p].Unicast()
        ensures var i := SearchMac(ns, cells[p].dest);
                && i < |ns| && (forall j | 0 <= j < |ns| :: p in ns[j].virtualQueue <==> j == i)
                && NoDuplicates(ns[i].virtualQueue)
      {
        var i := SearchMac(ns, cells[p].dest);
        assert IndexedAt(ns, p, cells[p].dest) && GoodVirtualQueue(cells, ns[i]);
        forall j | 0 <= j < |ns| && p in ns[j].virtualQueue
          ensures j == i
        {
          IndexedOnce(cells, ns, i, j, p);
        }
      }
      forall i, p | 0 <= i < |ns| && p in ns[i].virtualQueue
        ensures p in cells
      {
        assert GoodVirtualQueue(cells, ns[i]);
      }
    }
  }
}
