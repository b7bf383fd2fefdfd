/** When the protocol of one node never stops: its neighbours are met on a channel they all share, and
    packets with different ids differ. */
module MyncNonstop {
  import opened Addresses
  import opened Options
  import opened XorCoding
  import opened MyncQueues
  import opened MyncNeighbors
  import opened MyncProtocol
  import opened MyncIndex
  import opened MyncCoding
  import opened MyncSending
  import opened MyncLearning
  import opened MyncRuns
  import opened MyncChannels
  import opened MyncEntries
  import opened MyncPackets

  // ---------- Packets that differ ----------

  /** Two packets of the catalogue differ in more than time to live and trailing zeros. */
  ghost predicate AllDiffer(cat: Catalogue) {
    forall p, p' | p in cat && p' in cat && p != p' :: !Alike(cat[p], cat[p'])
  }

  /** The packet is that of the catalogue, with any time to live. */
  ghost predicate Listed(cat: Catalogue, e: Entry) {
    e.Unicast() ==> e.pid in cat && Alike(e.packet, cat[e.pid])
  }

  ghost function Listing(cat: Catalogue): Property {
    (e: Entry) => Listed(cat, e)
  }

  // ---------- Encode ----------

  /** The packet being coded is not in the queue any more. */
  ghost predicate Apart(cat: Catalogue, original: Entry, c: Coding) {
    && Every(Listing(cat), c.queue) && Every(Listing(cat), c.rtqueue)
    && forall p | p in c.queue.cells :: c.queue.cells[p].pid != original.pid
  }

  lemma StepListed(w: World, cat: Catalogue, known: PacketInfo, devices: seq<nat>, active: seq<nat>, original: Entry,
                   c: Coding, i: nat)
    requires CodingInv(w, known, devices, active, original, c) && i < |c.neighbors| && Apart(cat, original, c)
    requires EncodedStep(known, devices, active, original, c, i).Done?
    ensures Apart(cat, original, EncodedStep(known, devices, active, original, c, i).value)
  {
    hide CodingInv, Every, EncodedStep;
    CellsStay(known, devices, active, original, c, i);
    StepEvery(Listing(cat), known, devices, active, original, c, i);
  }

  lemma StepNeverRunsOff(w: World, cat: Catalogue, known: PacketInfo, devices: seq<nat>, active: seq<nat>,
                         original: Entry, c: Coding, i: nat)
    requires CodingInv(w, known, devices, active, original, c) && i < |c.neighbors|
    requires AllDiffer(cat) && original.Unicast() && Listed(cat, original) && Apart(cat, original, c)
    ensures EncodedStep(known, devices, active, original, c, i) != Fatal(XorRunsOff)
  {
    hide CodingInv, EncodedStep, Same, Xor;
    if EncodedStep(known, devices, active, original, c, i) == Fatal(XorRunsOff) {
      RunsOffAtEqual(known, devices, active, original, c, i);
      NexthopIsNew(w, known, devices, active, original, c, i);
      XorDefinedIff(original.packet, c.queue.cells[c.neighbors[i].virtualQueue[0]].packet);
      DifferentIds(cat, original, c.queue.cells[c.neighbors[i].virtualQueue[0]]);
    }
  }

  lemma DifferentIds(cat: Catalogue, e: Entry, e': Entry)
    requires AllDiffer(cat) && Listed(cat, e) && Listed(cat, e') && e.Unicast() && e'.Unicast() && e.pid != e'.pid
    ensures !Same(e.packet, e'.packet)
  {
    var i: nat :| i != TTL && ByteAt(cat[e.pid], i) != ByteAt(cat[e'.pid], i);
    assert ByteAt(e.packet, i) != ByteAt(e'.packet, i);
  }

  lemma {:induction false} EncodedFromRuns(w: World, cat: Catalogue, known: PacketInfo, devices: seq<nat>,
                                           active: seq<nat>, original: Entry, c: Coding, i: nat)
    requires CodingInv(w, known, devices, active, original, c) && i <= |c.neighbors|
    requires AllDiffer(cat) && original.Unicast() && Listed(cat, original) && Apart(cat, original, c)
    ensures var r := EncodedFrom(known, devices, active, original, c, i);
            r != Fatal(XorRunsOff) && (r.Done?
              ==> Apart(cat, original, r.value) && SamePairs(c.neighbors, r.value.neighbors))
    decreases |c.neighbors| - i
  {
    hide CodingInv, EncodedStep, Apart, AllDiffer, Listed;
    if i == |c.neighbors| {
    } else {
      StepNeverRunsOff(w, cat, known, devices, active, original, c, i);
      EncodedStepKeeps(w, known, devices, active, original, c, i);
      var r := EncodedStep(known, devices, active, original, c, i);
      if r.Done? {
        PairsStay(known, devices, active, original, c, i);
        StepListed(w, cat, known, devices, active, original, c, i);
        EncodedFromRuns(w, cat, known, devices, active, original, r.value, i + 1);
      }
    }
  }

  // ---------- A shared channel ----------

  /** Virtual queues may differ, pairs do not. */
  ghost predicate SamePairs(ns: seq<Neighbor>, ns': seq<Neighbor>) {
    |ns'| == |ns| && forall k | 0 <= k < |ns| :: ns'[k].pairs == ns[k].pairs
  }

  lemma SamePairsListen(ns: seq<Neighbor>, ns': seq<Neighbor>, shared: nat)
    requires AllListenOn(ns, shared) && SamePairs(ns, ns')
    ensures AllListenOn(ns', shared)
  {
    forall k | 0 <= k < |ns'|
      ensures ListensOn(ns'[k], shared)
    {
      assert ListensOn(ns[k], shared);
    }
  }

  /** The neighbour a frame came from still listens on the channel. */
  lemma TrinityListens(w: World, n: Neighbor, t: AddressPair, shared: nat)
    requires TrueNeighbor(w, n) && Sender(w, t) && !HasIp(n, t.ip) && ListensOn(n, shared)
    ensures ListensOn(WithTrinity(n, t), shared)
  {
    var p :| p in n.pairs && p.channel == shared;
    var r := WithTrinity(n, t);
    assert r.pairs[|r.pairs| - 1] == t && t in r.pairs;
    if p.channel != t.channel {
      assert p.ip != t.ip && p.mac != t.mac;
      assert p in r.pairs;
    }
  }

  lemma RecognizedListens(w: World, st: Protocol, t: AddressPair, shared: nat)
    requires Inv(w, st) && Sender(w, t) && AllListenOn(st.neighbors, shared)
    requires Recognized(st.queue.cells, st.neighbors, t).Done?
    requires t.channel == shared || SearchIp(st.neighbors, t.ip) < |st.neighbors|
               || SearchMac(st.neighbors, t.mac) < |st.neighbors|
    ensures AllListenOn(Recognized(st.queue.cells, st.neighbors, t).value, shared)
  {
    hide GoodTable, Indexed, GoodWaiting, GoodOutput, GoodWorld, WithTrinity, MovedOver, HasMac, HasIp, ShareAddress;
    var ns, ns' := st.neighbors, Recognized(st.queue.cells, st.neighbors, t).value;
    var i, j := SearchIp(ns, t.ip), SearchMac(ns, t.mac);
    forall k | 0 <= k < |ns'|
      ensures ListensOn(ns'[k], shared)
    {
      if i < |ns| && j < |ns| && i != j {
        var k' := if k < j then k else k + 1;
        assert ListensOn(ns[k'], shared);
        if k' == i {
          assert forall p | p in ns[i].pairs :: p in ns'[k].pairs;
        }
      } else if k < |ns| {
        assert ListensOn(ns[k], shared);
        if i == |ns| && j < |ns| && k == j {
          InTable(w, ns, j);
          TrinityListens(w, ns[j], t, shared);
        } else {
          assert forall p | p in ns[k].pairs :: p in ns'[k].pairs;
        }
      } else {
        assert t in ns'[k].pairs;
      }
    }
  }

  lemma AbsorbedLoses(cells: map<nat, Entry>, a: Assembly, i: nat)
    requires i <= |a.neighbors| && Absorbed(cells, a, i).Done?
    ensures forall n | n in Absorbed(cells, a, i).value.neighbors :: n in a.neighbors
  {
  }

  /** While a hello is read neighbours only leave the table. */
  lemma {:induction false} LearningLoses(cells: map<nat, Entry>, a: Assembly, pairs: seq<AddressPair>)
    requires LearnedPairs(cells, a, pairs).Done?
    ensures forall n | n in LearnedPairs(cells, a, pairs).value.neighbors :: n in a.neighbors
    decreases |pairs|
  {
    hide Absorbed;
    if pairs == [] {
    } else {
      var t := pairs[0];
      AbsorbedLoses(cells, a, SearchMac(a.neighbors, t.mac));
      var b := Absorbed(cells, a, SearchMac(a.neighbors, t.mac)).value;
      AbsorbedLoses(cells, b, SearchIp(b.neighbors, t.ip));
      LearningLoses(cells, LearnedPair(cells, a, t).value, pairs[1..]);
    }
  }

  lemma LearnedListens(w: World, node: nat, st: Protocol, pairs: seq<AddressPair>, shared: nat)
    requires Inv(w, st) && Complete(w, node, pairs) && AllListenOn(st.neighbors, shared)
    requires ListensOn(Neighbor(pairs, []), shared)
    requires Learned(st, pairs).Done?
    ensures AllListenOn(Learned(st, pairs).value.neighbors, shared)
  {
    hide LearnInv, Gone, LearnedPairs;
    assert pairs[..|pairs| % 256] == pairs && pairs[0..] == pairs && pairs[..0] == [];
    LearningStarts(w, node, st);
    var start := Assembly(st.neighbors, Neighbor([], []));
    LearnedPairsKeep(w, node, st.neighbors, st.queue.cells, start, pairs, 0);
    var a := LearnedPairs(st.queue.cells, start, pairs).value;
    AssembledIs(w, node, st.neighbors, st.queue.cells, a, pairs);
    LearningLoses(st.queue.cells, start, pairs);
    var ns := Learned(st, pairs).value.neighbors;
    forall k | 0 <= k < |ns|
      ensures ListensOn(ns[k], shared)
    {
      if k < |a.neighbors| {
        assert ns[k] in a.neighbors;
      }
    }
  }

  lemma AssembledIs(w: World, node: nat, before: seq<Neighbor>, cells: map<nat, Entry>, a: Assembly,
                    all: seq<AddressPair>)
    requires Complete(w, node, all) && LearnInv(w, node, before, cells, a, all) && Gone(a.neighbors, all)
    ensures Added(a.neighbors, a.assembled) == a.neighbors + [a.assembled] && a.assembled.pairs == all
  {
    AssembledQueue(w, node, before, cells, a, all);
  }

  // ---------- States that cannot stop ----------

  /** Every neighbour listens on the channel, and the packets queued are those of the catalogue. */
  ghost predicate Smooth(w: World, cat: Catalogue, shared: nat, st: Protocol) {
    && Inv(w, st) && AllDiffer(cat) && AllListenOn(st.neighbors, shared)
    && Every(Listing(cat), st.queue) && Every(Listing(cat), st.rtqueue)
  }

  lemma ListensAt(ns: seq<Neighbor>, i: nat, shared: nat, n: Neighbor)
    requires AllListenOn(ns, shared) && i < |ns| && n.pairs == ns[i].pairs
    ensures ListensOn(n, shared)
  {
    assert ListensOn(ns[i], shared);
  }

  /** With a shared channel and packets that differ Encode never stops. */
  lemma EncodedNeverStops(w: World, cat: Catalogue, shared: nat, st: Protocol, active: seq<nat>, e: Entry, n: Neighbor)
    requires ReadyToSend(w, st, e) && e.dest != BROADCAST && !GetItem(st.known, e.pid, GetMac(n))
    requires n.pairs == st.neighbors[SearchMac(st.neighbors, e.dest)].pairs
    requires Smooth(w, cat, shared, st) && Listed(cat, e)
    ensures Encoded(st, active, e, n).Done?
    ensures var c := Encoded(st, active, e, n).value;
            Every(Listing(cat), c.queue) && Every(Listing(cat), c.rtqueue) && SamePairs(st.neighbors, c.neighbors)
  {
    hide CodingInv, Inv, Every, AllDiffer, Listed, AllListenOn, ListensOn, EncodedFrom, Good, GetItem, MinMac;
    var c := CodingStart(st, e, n);
    CodingStarts(w, st, active, e, n);
    StartsApart(w, cat, st, e, n);
    EncodedFromRuns(w, cat, st.known, st.devices, active, e, c, 0);
    EncodedFromKeeps(w, st.known, st.devices, active, e, c, 0);
    ListensAt(st.neighbors, SearchMac(st.neighbors, e.dest), shared, n);
    SharedEncodeNeverStops(st, active, e, n, shared);
    var r := EncodedFrom(st.known, st.devices, active, e, c, 0);
    EnqueuedEvery(Listing(cat), r.value.rtqueue, e);
  }

  lemma StartsApart(w: World, cat: Catalogue, st: Protocol, e: Entry, n: Neighbor)
    requires ReadyToSend(w, st, e) && Every(Listing(cat), st.queue) && Every(Listing(cat), st.rtqueue)
    ensures Apart(cat, e, CodingStart(st, e, n))
  {
    AdmitsIff(st.queue, e.pid);
  }

  lemma LinkedPairs(cells: map<nat, Entry>, ns: seq<Neighbor>, ptr: nat, dest: Mac48Address, front: bool)
    requires Linked(cells, ns, ptr, dest, front).Done?
    ensures SamePairs(ns, Linked(cells, ns, ptr, dest, front).value)
  {
  }

  lemma PlainStaysSmooth(w: World, cat: Catalogue, shared: nat, st: Protocol, active: seq<nat>, e: Entry)
    requires ReadyToSend(w, st, e) && Smooth(w, cat, shared, st) && Listed(cat, e)
    ensures SentPlain(st, active, e).Done? && Smooth(w, cat, shared, SentPlain(st, active, e).value.st)
  {
    hide Inv, Every, AllDiffer, Listed, AllListenOn, Linked, EnqueuedFront, Good, ReadyToSend;
    SentPlainKeeps(w, st, active, e);
    EnqueuedEvery(Listing(cat), st.queue, e);
    var q := EnqueuedFront(st.queue, e);
    if q.order != [] && Linked(q.cells, st.neighbors, q.order[0], e.dest, true).Done? {
      LinkedPairs(q.cells, st.neighbors, q.order[0], e.dest, true);
      SamePairsListen(st.neighbors, Linked(q.cells, st.neighbors, q.order[0], e.dest, true).value, shared);
    }
  }

  lemma UnicastStaysSmooth(w: World, cat: Catalogue, shared: nat, st: Protocol, active: seq<nat>, e: Entry, n: Neighbor)
    requires ReadyToSend(w, st, e) && e.dest != BROADCAST && !GetItem(st.known, e.pid, GetMac(n))
    requires n.pairs == st.neighbors[SearchMac(st.neighbors, e.dest)].pairs
    requires Smooth(w, cat, shared, st) && Listed(cat, e)
    ensures SentUnicast(st, active, e, n).Done? && Smooth(w, cat, shared, SentUnicast(st, active, e, n).value.st)
  {
    hide Inv, Every, AllDiffer, Listed, AllListenOn, SentPlain, Encoded, Good, ReadyToSend, GetItem, MinMac, SamePairs;
    PlainStaysSmooth(w, cat, shared, st, active, e);
    EncodedNeverStops(w, cat, shared, st, active, e, n);
    SentUnicastKeeps(w, st, active, e, n);
    SamePairsListen(st.neighbors, Encoded(st, active, e, n).value.neighbors, shared);
  }

  lemma SentStaysSmooth(w: World, cat: Catalogue, shared: nat, st: Protocol, active: seq<nat>)
    requires Smooth(w, cat, shared, st) && st.queue.order != []
    ensures Sent(st, active).Done? && Smooth(w, cat, shared, Sent(st, active).value.st)
  {
    hide GoodTable, GoodWorld, GoodWaiting, Indexed, SentUnicast, SentPlain, GetItem, MinMac, Every, AllDiffer;
    hide Listed, AllListenOn, ReadyToSend, Unlinked;
    var ptr := st.queue.order[0];
    assert ptr in st.queue.cells;
    var e := st.queue.cells[ptr];
    DequeuedEvery(Listing(cat), st.queue);
    if e.Unicast() {
      FrontTaken(w, st);
      var i := SearchMac(st.neighbors, e.dest);
      var vq := Unlinked(st.queue.cells, st.neighbors[i].virtualQueue, e.pid).value;
      TakenStaysSmooth(w, cat, shared, st, e, i, vq);
      var st1 := st.(queue := Dequeued(st.queue), neighbors := WithQueue(st.neighbors, i, vq));
      if !GetItem(st.known, e.pid, GetMac(st.neighbors[i])) {
        WithQueueSearch(st.neighbors, i, vq, e.dest);
        UnicastStaysSmooth(w, cat, shared, st1, active, e, st1.neighbors[i]);
      }
    } else {
      FrontDropped(w, st);
      DroppedReady(w, st, e);
      if !e.hello {
        PlainStaysSmooth(w, cat, shared, st.(queue := Dequeued(st.queue)), active, e);
      }
    }
  }

  lemma DroppedReady(w: World, st: Protocol, e: Entry)
    requires st.queue.order != [] && Inv(w, st.(queue := Dequeued(st.queue))) && Admits(Dequeued(st.queue), e.pid)
    requires e.retry <= 3 && !e.Unicast()
    ensures !e.hello ==> ReadyToSend(w, st.(queue := Dequeued(st.queue)), e)
  {
  }

  lemma TakenStaysSmooth(w: World, cat: Catalogue, shared: nat, st: Protocol, e: Entry, i: nat, vq: seq<nat>)
    requires Smooth(w, cat, shared, st) && st.queue.order != [] && i < |st.neighbors|
    requires ReadyToSend(w, st.(queue := Dequeued(st.queue), neighbors := WithQueue(st.neighbors, i, vq)), e)
    ensures Smooth(w, cat, shared, st.(queue := Dequeued(st.queue), neighbors := WithQueue(st.neighbors, i, vq)))
  {
    hide Inv, Every, AllDiffer, AllListenOn;
    DequeuedEvery(Listing(cat), st.queue);
    SamePairsListen(st.neighbors, WithQueue(st.neighbors, i, vq), shared);
  }

  lemma RetransmittedStaysSmooth(w: World, cat: Catalogue, shared: nat, st: Protocol)
    requires Smooth(w, cat, shared, st)
    ensures Retransmitted(st).Done? && Smooth(w, cat, shared, Retransmitted(st).value)
  {
    hide Inv, Every, AllDiffer, AllListenOn, Linked, EnqueuedFront, Admits, Dequeued;
    RetransmittedKeeps(w, st);
    if st.rtqueue.order != [] {
      var e := st.rtqueue.cells[st.rtqueue.order[0]];
      var e' := e.(retry := (e.retry + 1) % 256);
      DequeuedEvery(Listing(cat), st.rtqueue);
      EnqueuedEvery(Listing(cat), st.queue, e');
      if Admits(st.queue, e.pid) {
        LinkedPairs(EnqueuedFront(st.queue, e').cells, st.neighbors, st.queue.next, e.dest, true);
        SamePairsListen(st.neighbors, Retransmitted(st).value.neighbors, shared);
      }
    }
  }

  lemma EnqueuedStaysSmooth(w: World, cat: Catalogue, shared: nat, st: Protocol, e: Entry)
    requires Smooth(w, cat, shared, st) && !e.hello && e.retry == 0 && e.iface < |st.devices| && Listed(cat, e)
    requires e.dest != BROADCAST ==> w.channel(e.dest) == st.devices[e.iface]
    requires e.dest == BROADCAST || SearchMac(st.neighbors, e.dest) < |st.neighbors| || st.devices[e.iface] == shared
    ensures EnqueuedData(st, e).Done? && Smooth(w, cat, shared, EnqueuedData(st, e).value)
  {
    hide Inv, Every, AllDiffer, Linked, EnqueuedBack, Admits, Listed;
    EnqueuedDataKeeps(w, st, e);
    EnqueuedEvery(Listing(cat), st.queue, e);
    var q := EnqueuedBack(st.queue, e);
    if Admits(st.queue, e.pid) && e.dest != BROADCAST {
      if SearchMac(st.neighbors, e.dest) < |st.neighbors| {
        LinkedPairs(q.cells, st.neighbors, st.queue.next, e.dest, false);
        SamePairsListen(st.neighbors, EnqueuedData(st, e).value.neighbors, shared);
      } else {
        var t := AddressPair(ANY, e.dest, st.devices[e.iface]);
        assert t in Neighbor([t], [st.queue.next]).pairs;
      }
    }
  }

  // ---------- Runs that cannot stop ----------

  /** What is asked of a step in the state it is taken in: new packets are those of the catalogue, and a
      node not known yet is met on the shared channel. */
  ghost predicate Meets(cat: Catalogue, shared: nat, st: Protocol, step: Step) {
    match step
    case Enqueue(e) =>
      && Listed(cat, e)
      && (e.Unicast() ==>
            || SearchMac(st.neighbors, e.dest) < |st.neighbors|
            || (e.iface < |st.devices| && st.devices[e.iface] == shared))
    case HearHello(pairs) => ListensOn(Neighbor(pairs, []), shared)
    case HearFrame(t, _, _) =>
      t.channel == shared || SearchIp(st.neighbors, t.ip) < |st.neighbors|
        || SearchMac(st.neighbors, t.mac) < |st.neighbors|
    case _ => true
  }

  ghost predicate AllMeet(cat: Catalogue, shared: nat, st: Protocol, steps: seq<Step>)
    requires forall step | step in steps :: OwnInterface(st.devices, step)
    decreases |steps|
  {
    steps != [] ==>
      && Meets(cat, shared, st, steps[0])
      && var r := Stepped(st, steps[0]);
      r.Done? ==> AllMeet(cat, shared, r.value.st, steps[1..])
  }

  lemma HelloStaysSmooth(w: World, cat: Catalogue, shared: nat, st: Protocol, e: Entry)
    requires Smooth(w, cat, shared, st) && e.hello && e.retry == 0
    ensures Smooth(w, cat, shared, EnqueuedHello(st, e))
  {
    hide Inv, Every, AllDiffer, AllListenOn;
    EnqueuedHelloKeeps(w, st, e);
    EnqueuedEvery(Listing(cat), st.queue, e);
  }

  lemma LearnedStaysSmooth(w: World, cat: Catalogue, shared: nat, st: Protocol, node: nat, pairs: seq<AddressPair>)
    requires Smooth(w, cat, shared, st) && Complete(w, node, pairs) && ListensOn(Neighbor(pairs, []), shared)
    ensures Learned(st, pairs).Done? && Smooth(w, cat, shared, Learned(st, pairs).value)
  {
    hide Inv, Every, AllDiffer, AllListenOn, LearnedTable, Complete;
    LearnedKeeps(w, node, st, pairs);
    LearnedListens(w, node, st, pairs, shared);
  }

  lemma FrameStaysSmooth(w: World, cat: Catalogue, shared: nat, st: Protocol, t: AddressPair, acks: seq<PacketId>,
                         held: seq<PacketId>)
    requires Smooth(w, cat, shared, st) && Sender(w, t) && Meets(cat, shared, st, HearFrame(t, acks, held))
    ensures FrameReceived(st, t, acks, held).Done? && Smooth(w, cat, shared, FrameReceived(st, t, acks, held).value)
  {
    hide Inv, Every, AllDiffer, AllListenOn, Recognized, Recorded, Acknowledged, Sender;
    FrameReceivedKeeps(w, st, t, acks, held);
    RecognizedListens(w, st, t, shared);
    AcknowledgedEvery(Listing(cat), st.rtqueue, acks);
  }

  /** Such a step never stops and leaves such a state. */
  lemma SteppedStaysSmooth(w: World, cat: Catalogue, shared: nat, st: Protocol, step: Step)
    requires Smooth(w, cat, shared, st) && ValidStep(w, st.devices, step) && Meets(cat, shared, st, step)
    ensures Stepped(st, step).Done? && Smooth(w, cat, shared, Stepped(st, step).value.st)
  {
    hide Smooth, EnqueuedData, EnqueuedHello, Retransmitted, Learned, FrameReceived, Sent, Complete, Sender, Listed;
    match step {
      case Enqueue(e) =>
        if e.hello {
          HelloStaysSmooth(w, cat, shared, st, e);
        } else {
          EnqueuedStaysSmooth(w, cat, shared, st, e);
        }
      case Send(active) =>
        if active != [] && st.queue.order != [] {
          SentStaysSmooth(w, cat, shared, st, active);
        }
      case Retransmit =>
        RetransmittedStaysSmooth(w, cat, shared, st);
      case HearHello(pairs) =>
        var node :| Complete(w, node, pairs);
        LearnedStaysSmooth(w, cat, shared, st, node, pairs);
      case HearFrame(sender, acks, held) =>
        FrameStaysSmooth(w, cat, shared, st, sender, acks, held);
    }
  }

  lemma {:induction false} PlayedStaysSmooth(w: World, cat: Catalogue, shared: nat, st: Protocol, steps: seq<Step>)
    requires Smooth(w, cat, shared, st) && forall step | step in steps :: ValidStep(w, st.devices, step)
    ensures forall step | step in steps :: OwnInterface(st.devices, step)
    ensures AllMeet(cat, shared, st, steps) ==>
              Played(st, steps).Done? && Smooth(w, cat, shared, Played(st, steps).value.st)
    decreases |steps|
  {
    hide Smooth, Stepped, Meets;
    if steps != [] && Meets(cat, shared, st, steps[0]) {
      SteppedStaysSmooth(w, cat, shared, st, steps[0]);
      PlayedStaysSmooth(w, cat, shared, Stepped(st, steps[0]).value.st, steps[1..]);
    }
  }

  /** A step on its own: new packets are those of the catalogue, and it names only nodes met on the shared
      channel. */
  ghost predicate OnShared(cat: Catalogue, shared: nat, devices: seq<nat>, step: Step) {
    match step
    case Enqueue(e) => Listed(cat, e) && (e.Unicast() ==> e.iface < |devices| && devices[e.iface] == shared)
    case HearHello(pairs) => ListensOn(Neighbor(pairs, []), shared)
    case HearFrame(t, _, _) => t.channel == shared
    case _ => true
  }

  /** Steps of that kind meet the conditions in whatever states they are taken. */
  lemma {:induction false} SharedStepsMeet(cat: Catalogue, shared: nat, st: Protocol, steps: seq<Step>)
    requires forall step | step in steps :: OwnInterface(st.devices, step) && OnShared(cat, shared, st.devices, step)
    ensures AllMeet(cat, shared, st, steps)
    decreases |steps|
  {
    hide Stepped, Listed, ListensOn;
    if steps == [] {
    } else {
      assert OnShared(cat, shared, st.devices, steps[0]);
      if Stepped(st, steps[0]).Done? {
        SharedStepsMeet(cat, shared, Stepped(st, steps[0]).value.st, steps[1..]);
      }
    }
  }

  /** From an empty protocol, no run ever stops if new nodes are met on one shared channel and packets
      with different ids differ in more than trailing zeros. */
  lemma NoRunStops(w: World, cat: Catalogue, shared: nat, devices: seq<nat>, steps: seq<Step>)
    requires GoodWorld(w) && AllDiffer(cat) && forall step | step in steps :: ValidStep(w, devices, step)
    ensures forall step | step in steps :: OwnInterface(devices, step)
    ensures AllMeet(cat, shared, Start(devices), steps) ==> Played(Start(devices), steps).Done?
  {
    hide AllMeet, Played, AllDiffer, Stepped;
    StartsIndexed(w, devices);
    PlayedStaysSmooth(w, cat, shared, Start(devices), steps);
  }
}
