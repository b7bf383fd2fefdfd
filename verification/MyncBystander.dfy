/** A run of five nodes, from the start, at the end of which a record is false: a bystander decodes a coded
    frame of three natives to a packet nobody sent, and records that the relay holds it. */
module MyncBystander {
  import opened Addresses
  import opened Options
  import opened XorCoding
  import opened MyncQueues
  import opened MyncNeighbors
  import opened MyncProtocol
  import opened MyncIndex
  import opened MyncCoding
  import opened MyncSending
  import opened MyncLearning
  import opened MyncRuns
  import opened MyncFrames
  import opened MyncEntries
  import opened MyncPackets
  import opened MyncNetwork
  import opened MyncTrios
  import opened MyncWitnesses

  // ---------- The village ----------

  /** Node 0 is a relay, nodes 1, 2 and 3 send packets over it to one another, and node 4 stands by.  Each
      has one interface, on channel 6; the tens of an address tell its node. */
  const VILLAGE := Layout(
    World((m: Mac48Address) => if m == 6 || m == 16 || m == 26 || m == 36 || m == 46 then m / 10 else 100 + m,
          (ip: Ipv4Address) => ip / 10,
          (m: Mac48Address) => m % 10),
    (j: nat) => if j < 10 then 10 * j + 1 else 0)

  const TOWN: World := VILLAGE.world

  /** Packets 1, 2, 3 and 4 are single octets. */
  const HASHED: Hash := (b: Bytes) => if b == [1] then 1 else if b == [2] then 2 else if b == [4] then 3
    else if b == [8] then 4 else 7

  lemma VillageIsProper()
    ensures GoodLayout(VILLAGE, 5) && Proper(TOWN, TOGETHER)
    ensures Complete(TOWN, 1, TOGETHER.a) && Complete(TOWN, 2, TOGETHER.b) && Complete(TOWN, 3, TOGETHER.c)
  {
    hide Complete, GoodWorld;
    WorldIsGood();
    var t := TOGETHER;
    OneAddress(1, t.a[0]);
    OneAddress(2, t.b[0]);
    OneAddress(3, t.c[0]);
    assert t.a[0] in t.a && t.b[0] in t.b && t.c[0] in t.c;
  }

  lemma WorldIsGood()
    ensures GoodWorld(TOWN)
  {
  }

  lemma OneAddress(node: nat, p: AddressPair)
    requires 1 <= node <= 3 && p == AddressPair(10 * node + 1, 10 * node + 6, 6)
    ensures Complete(TOWN, node, [p])
  {
    assert p in [p];
  }

  // ---------- Moves one after another ----------

  ghost predicate Leads(net: Net, moves: seq<Move>, net': Net) {
    ValidMoves(VILLAGE, HASHED, net, moves) && Ran(VILLAGE, HASHED, net, moves) == Some(net')
  }

  lemma LeadsOne(net: Net, move: Move, net': Net)
    requires ValidMove(VILLAGE, HASHED, net, move) && After(VILLAGE, HASHED, net, move) == Some(net')
    ensures Leads(net, [move], net')
  {
    hide ValidMove, After;
    assert [move][1..] == [];
    assert ValidMoves(VILLAGE, HASHED, net', []) && Ran(VILLAGE, HASHED, net', []) == Some(net');
  }

  lemma {:induction false} LeadsOn(net: Net, moves: seq<Move>, net': Net, more: seq<Move>, net'': Net)
    requires Leads(net, moves, net') && Leads(net', more, net'')
    ensures Leads(net, moves + more, net'')
    decreases |moves|
  {
    hide ValidMove, After;
    if moves == [] {
      assert moves + more == more;
    } else {
      assert (moves + more)[1..] == moves[1..] + more;
      LeadsOn(After(VILLAGE, HASHED, net, moves[0]).value, moves[1..], net', more, net'');
    }
  }

  // ---------- A node speaks ----------

  /** A packet for the relay. */
  function Plain(pid: PacketId, packet: Bytes): Entry {
    Entry(false, pid, 6, 0, 0, packet)
  }

  /** A node with an empty queue sends a packet it is given at once, uncoded. */
  lemma PlainSent(w: World, st: Protocol, e: Entry)
    requires Inv(w, st) && st.queue.order == [] && ValidStep(w, st.devices, Enqueue(e)) && e.Unicast()
    requires forall m :: !GetItem(st.known, e.pid, m)
    ensures Admits(st.queue, e.pid) && Stepped(st, Enqueue(e)).Done?
    ensures var st1 := Stepped(st, Enqueue(e)).value.st;
            var r := TrySent(st1, [e.iface]);
            && Inv(w, st1) && st1.devices == st.devices && r.Done?
            && r.value.frame == Some(Frame(e.iface, map[e.dest := e.pid], [e.pid], e.packet))
            && Inv(w, r.value.st) && r.value.st.queue.order == [] && r.value.st.known == st.known
            && r.value.st.devices == st.devices && |r.value.st.neighbors| > 0
  {
    hide Inv, Stepped, GetItem, Sent;
    SteppedKeeps(w, st, Enqueue(e));
    PlainQueued(st, e);
    var st1 := Stepped(st, Enqueue(e)).value.st;
    FrontSent(w, st1, e);
  }

  lemma PlainQueued(st: Protocol, e: Entry)
    requires st.queue.order == [] && OwnInterface(st.devices, Enqueue(e)) && e.Unicast()
    requires Stepped(st, Enqueue(e)).Done?
    ensures var st1 := Stepped(st, Enqueue(e)).value.st;
            && st1.queue.order == [st.queue.next] && st.queue.next in st1.queue.cells
                 && st1.queue.cells[st.queue.next] == e
            && st1.known == st.known && st1.devices == st.devices
  {
    hide Linked, Added, SearchMac;
  }

  /** The only packet of a queue is sent as it is. */
  lemma FrontSent(w: World, st: Protocol, e: Entry)
    requires Inv(w, st) && |st.queue.order| == 1 && st.queue.order[0] in st.queue.cells
    requires st.queue.cells[st.queue.order[0]] == e
    requires e.Unicast() && forall m :: !GetItem(st.known, e.pid, m)
    ensures var r := TrySent(st, [e.iface]);
            && r.Done? && r.value.frame == Some(Frame(e.iface, map[e.dest := e.pid], [e.pid], e.packet))
            && Inv(w, r.value.st) && r.value.st.queue.order == [] && r.value.st.known == st.known
            && r.value.st.devices == st.devices && |r.value.st.neighbors| > 0
  {
    hide Inv, ReadyToSend, GetItem, Unlinked, MinMac, Encoded;
    FrontTaken(w, st);
    SentKeeps(w, st, [e.iface]);
  }

  /** What a node of the village is like between two frames of its own: nothing queued, one packet at most
      to report, and records of given packets only. */
  ghost predicate Source(node: Node, reports: seq<PacketId>, known: set<PacketId>) {
    && GoodNode(TOWN, HASHED, node) && node.st.queue.order == [] && node.st.devices == [6]
    && node.reports == reports && |reports| <= 1 && node.acks == []
    && forall pid, m | GetItem(node.st.known, pid, m) :: pid in known
  }

  /** What it sends. */
  function Said(j: nat, mac: Mac48Address, pid: PacketId, packet: Bytes, reports: seq<PacketId>): Transmission
    requires j < 5
  {
    Transmission(AddressPair(10 * j + 1, mac, mac % 10), map[6 := pid], [pid], packet, reports, [])
  }

  lemma SourceSends(j: nat, node: Node, mac: Mac48Address, pid: PacketId, packet: Bytes, reports: seq<PacketId>,
                    known: set<PacketId>)
    requires j < 5 && Source(node, reports, known) && pid !in known && HASHED(packet) == pid
    ensures Accepted(node, Plain(pid, packet)).Some?
    ensures var r := Transmitted(VILLAGE, j, Accepted(node, Plain(pid, packet)).value, [0], mac);
            && r.Some? && r.value.1 == Some(Said(j, mac, pid, packet, reports)) && Source(r.value.0, [], known)
            && r.value.0.pool == Pooled(node.pool, pid, packet)
  {
    hide Inv, Stepped, TrySent, Every, GetItem;
    var e := Plain(pid, packet);
    PlainSent(TOWN, node.st, e);
    AcceptedEvery(HASHED, node, e);
    var node1 := Accepted(node, e).value;
    SendEvery(Pooling(HASHED, node1.pool.Keys), node1.st, [0]);
  }

  lemma SendEvery(P: Property, st: Protocol, active: seq<nat>)
    requires EveryQueued(P, st) && TrySent(st, active).Done?
    ensures EveryQueued(P, TrySent(st, active).value.st)
  {
    hide Sent, Every;
    if active != [] && st.queue.order != [] {
      SentEvery(P, st, active);
    }
  }

  /** A bystander or a source hears a plain packet that is not meant for it. */
  lemma PlainHeard(j: nat, node: Node, t: Transmission, mac: Mac48Address)
    requires GoodNode(TOWN, HASHED, node) && Sender(TOWN, t.sender) && TOWN.owner(t.sender.mac) != j
    requires |t.natives| == 1 && HASHED(t.packet) == t.natives[0] && t.header == map[6 := t.natives[0]] && j != 0
    ensures var o := Received(VILLAGE, HASHED, j, node, t, mac, t.natives);
            && o.Some? && GoodNode(TOWN, HASHED, o.value) && o.value.st.queue == node.st.queue
            && o.value.st.devices == node.st.devices && o.value.pool == Pooled(node.pool, t.natives[0], t.packet)
            && o.value.reports == node.reports + [t.natives[0]] && o.value.acks == node.acks
            && forall pid, m | GetItem(o.value.st.known, pid, m) ::
                 GetItem(node.st.known, pid, m) || pid in Told(t, Got(t.natives[0], t.packet, false))
  {
    hide GoodNode, Sender, GetItem, FrameReceived, Decode, Told, Addressed, Learns;
    assert TOWN.owner(6) == 0;
    ReceivedNode(VILLAGE, HASHED, j, node, t, mac, t.natives);
    var node' := Received(VILLAGE, HASHED, j, node, t, mac, t.natives).value;
    var m :| Learns(node.st.known, node'.st.known, Told(t, Got(t.natives[0], t.packet, false)), m);
    LearnsOnly(node.st.known, node'.st.known, Told(t, Got(t.natives[0], t.packet, false)), m);
  }

  lemma LearnsOnly(before: PacketInfo, after: PacketInfo, held: seq<PacketId>, mac: Mac48Address)
    requires Learns(before, after, held, mac)
    ensures forall pid, m | GetItem(after, pid, m) :: GetItem(before, pid, m) || pid in held
  {
    hide GetItem;
  }

  // ---------- The relay hears ----------

  /** The relay after k frames: in the state it has in the runs of three neighbours, with the packets it
      heard in its pool. */
  ghost predicate Relay(node: Node, k: nat, held: set<PacketId>) {
    k <= 4 && node.st == Met(TOGETHER, k) && node.pool.Keys == held && node.acks == []
  }

  lemma RelayHears(node: Node, k: nat, held: set<PacketId>, j: nat, mac: Mac48Address, pid: PacketId, packet: Bytes,
                   reports: seq<PacketId>)
    requires Relay(node, k, held) && k < 4 && 0 < j < 4 && TOWN.owner(mac) == j && HASHED(packet) == pid
    requires Stepped(Met(TOGETHER, k), HearFrame(Said(j, mac, pid, packet, reports).sender, [], reports + [pid]))
          == Done(Sending(Met(TOGETHER, k + 1), None))
    ensures var o := Received(VILLAGE, HASHED, 0, node, Said(j, mac, pid, packet, reports), 6, [pid]);
            o.Some? && Relay(o.value, k + 1, held + {pid})
  {
    hide FrameReceived, Met, Decode;
    var t := Said(j, mac, pid, packet, reports);
    assert 6 in t.header && TOWN.owner(6) == 0;
    assert BlockPids([]) + reports + [pid] == reports + [pid];
  }

  // ---------- Stages of the run ----------

  ghost predicate Bystander(node: Node, pool: map<PacketId, Bytes>) {
    GoodNode(TOWN, HASHED, node) && node.pool == pool
  }

  /** What each of the three is to report and has records of. */
  datatype Notes = Notes(reports: seq<PacketId>, known: set<PacketId>)

  function Ids(k: nat): set<PacketId>
    requires k <= 4
  {
    if k == 0 then {} else if k == 1 then {1} else if k == 2 then {1, 2} else if k == 3 then {1, 2, 3} else {1, 2, 3, 4}
  }

  ghost predicate At(net: Net, k: nat, a: Notes, b: Notes, c: Notes, pool: map<PacketId, Bytes>,
                     said: seq<Transmission>) {
    && |net.nodes| == 5 && net.air == said && k <= 4
    && Relay(net.nodes[0], k, Ids(k))
    && Source(net.nodes[1], a.reports, a.known) && Source(net.nodes[2], b.reports, b.known)
    && Source(net.nodes[3], c.reports, c.known) && Bystander(net.nodes[4], pool)
  }

  /** A source is given a packet and sends it. */
  lemma Speaks(net: Net, j: nat, mac: Mac48Address, pid: PacketId, packet: Bytes, reports: seq<PacketId>,
               known: set<PacketId>)
    returns (net': Net)
    requires |net.nodes| == 5 && 0 < j < 4 && Source(net.nodes[j], reports, known) && pid !in known
    requires HASHED(packet) == pid && TOWN.owner(mac) == j
    ensures |net'.nodes| == 5 && net'.nodes == net.nodes[j := net'.nodes[j]] && Source(net'.nodes[j], [], known)
    ensures net'.air == net.air + [Said(j, mac, pid, packet, reports)]
    ensures Leads(net, [Accept(j, Plain(pid, packet)), Transmit(j, [0], mac)], net')
  {
    hide Transmitted, Accepted, GoodNode, Leads;
    SourceSends(j, net.nodes[j], mac, pid, packet, reports, known);
    var e := Plain(pid, packet);
    var node1 := Accepted(net.nodes[j], e).value;
    var net1 := net.(nodes := net.nodes[j := node1]);
    LeadsOne(net, Accept(j, e), net1);
    var node2 := Transmitted(VILLAGE, j, node1, [0], mac).value.0;
    net' := Net(net.nodes[j := node2], net.air + [Said(j, mac, pid, packet, reports)]);
    assert net1.nodes[j := node2] == net'.nodes;
    LeadsOne(net1, Transmit(j, [0], mac), net');
    LeadsOn(net, [Accept(j, e)], net1, [Transmit(j, [0], mac)], net');
    assert [Accept(j, e)] + [Transmit(j, [0], mac)] == [Accept(j, e), Transmit(j, [0], mac)];
  }

  /** A node hears the frame sent last. */
  lemma Hears(net: Net, j: nat, mac: Mac48Address, node': Node) returns (net': Net)
    requires j < |net.nodes| && net.air != []
    requires var t := net.air[|net.air| - 1];
             |t.natives| == 1 && Received(VILLAGE, HASHED, j, net.nodes[j], t, mac, t.natives) == Some(node')
    ensures net' == net.(nodes := net.nodes[j := node'])
    ensures Leads(net, [Deliver(j, |net.air| - 1, mac, net.air[|net.air| - 1].natives)], net')
  {
    hide Received, Leads;
    net' := net.(nodes := net.nodes[j := node']);
    LeadsOne(net, Deliver(j, |net.air| - 1, mac, net.air[|net.air| - 1].natives), net');
  }

  lemma RelayHearsLast(net: Net, k: nat, held: set<PacketId>, j: nat, mac: Mac48Address, pid: PacketId, packet: Bytes,
                       reports: seq<PacketId>)
    returns (net': Net)
    requires |net.nodes| == 5 && Relay(net.nodes[0], k, held) && k < 4 && 0 < j < 4 && TOWN.owner(mac) == j
    requires HASHED(packet) == pid
    requires net.air != [] && net.air[|net.air| - 1] == Said(j, mac, pid, packet, reports)
    requires Stepped(Met(TOGETHER, k), HearFrame(Said(j, mac, pid, packet, reports).sender, [], reports + [pid]))
          == Done(Sending(Met(TOGETHER, k + 1), None))
    ensures |net'.nodes| == 5 && net'.air == net.air && net'.nodes == net.nodes[0 := net'.nodes[0]]
    ensures Relay(net'.nodes[0], k + 1, held + {pid})
    ensures Leads(net, [Deliver(0, |net.air| - 1, 6, [pid])], net')
  {
    hide Received, Leads, Relay, Met, Stepped;
    RelayHears(net.nodes[0], k, held, j, mac, pid, packet, reports);
    var node' := Received(VILLAGE, HASHED, 0, net.nodes[0], Said(j, mac, pid, packet, reports), 6, [pid]).value;
    net' := Hears(net, 0, 6, node');
  }

  /** Another source overhears what was said last. */
  lemma SourceHearsLast(net: Net, i: nat, known: set<PacketId>, known': set<PacketId>, mac': Mac48Address,
                        j: nat, mac: Mac48Address, pid: PacketId, packet: Bytes, reports: seq<PacketId>)
    returns (net': Net)
    requires |net.nodes| == 5 && 0 < i < 4 && Source(net.nodes[i], [], known) && 0 < j < 4 && j != i
    requires TOWN.owner(mac) == j
    requires HASHED(packet) == pid && Sender(TOWN, Said(j, mac, pid, packet, reports).sender)
    requires net.air != [] && net.air[|net.air| - 1] == Said(j, mac, pid, packet, reports)
    requires known <= known' && pid in known' && forall p | p in reports :: p in known'
    ensures |net'.nodes| == 5 && net'.air == net.air && net'.nodes == net.nodes[i := net'.nodes[i]]
    ensures Source(net'.nodes[i], [pid], known')
    ensures Leads(net, [Deliver(i, |net.air| - 1, mac', [pid])], net')
  {
    hide Received, Leads, GoodNode, GetItem, Sender;
    var t := Said(j, mac, pid, packet, reports);
    PlainHeard(i, net.nodes[i], t, mac');
    var node' := Received(VILLAGE, HASHED, i, net.nodes[i], t, mac', [pid]).value;
    assert [] + [pid] == [pid];
    assert Told(t, Got(pid, packet, false)) == reports + [pid] by {
      assert BlockPids([]) == [];
    }
    net' := Hears(net, i, mac', node');
  }

  lemma BystanderHearsLast(net: Net, pool: map<PacketId, Bytes>, j: nat, mac: Mac48Address, pid: PacketId,
                           packet: Bytes, reports: seq<PacketId>)
    returns (net': Net)
    requires |net.nodes| == 5 && Bystander(net.nodes[4], pool) && 0 < j < 4 && TOWN.owner(mac) == j
    requires HASHED(packet) == pid && Sender(TOWN, Said(j, mac, pid, packet, reports).sender)
    requires net.air != [] && net.air[|net.air| - 1] == Said(j, mac, pid, packet, reports)
    ensures |net'.nodes| == 5 && net'.air == net.air && net'.nodes == net.nodes[4 := net'.nodes[4]]
    ensures Bystander(net'.nodes[4], Pooled(pool, pid, packet))
    ensures Leads(net, [Deliver(4, |net.air| - 1, 46, [pid])], net')
  {
    hide Received, Leads, GoodNode, GetItem, Sender;
    var t := Said(j, mac, pid, packet, reports);
    PlainHeard(4, net.nodes[4], t, 46);
    net' := Hears(net, 4, 46, Received(VILLAGE, HASHED, 4, net.nodes[4], t, 46, [pid]).value);
  }

  // ---------- The run ----------

  const FIVE: seq<seq<nat>> := [[6], [6], [6], [6], [6]]

  const GREETINGS := [Greet(0, TOGETHER.a), Greet(0, TOGETHER.b), Greet(0, TOGETHER.c)]

  /** Node 2 sends packet 1, and node 3 overhears it. */
  const FIRST_FRAME := [Accept(2, Plain(1, [1])), Transmit(2, [0], 26), Deliver(0, 0, 6, [1]), Deliver(3, 0, 36, [1])]

  /** Node 3 sends packet 2 and reports packet 1; node 1 and the bystander overhear it. */
  const SECOND_FRAME := [Accept(3, Plain(2, [2])), Transmit(3, [0], 36), Deliver(0, 1, 6, [2]), Deliver(1, 1, 16, [2]),
    Deliver(4, 1, 46, [2])]

  /** Node 1 sends packet 3 and reports packet 2; node 2 and the bystander overhear it. */
  const THIRD_FRAME := [Accept(1, Plain(3, [4])), Transmit(1, [0], 16), Deliver(0, 2, 6, [3]), Deliver(2, 2, 26, [3]),
    Deliver(4, 2, 46, [3])]

  /** Node 2 sends packet 4 and reports packet 3. */
  const FOURTH_FRAME := [Accept(2, Plain(4, [8])), Transmit(2, [0], 26), Deliver(0, 3, 6, [4])]

  /** The relay is to pass on packets 1, 2 and 3, and codes them. */
  const CODED_FRAME := [Accept(0, TOGETHER.first), Accept(0, TOGETHER.second), Accept(0, TOGETHER.third),
    Transmit(0, [0], 6)]

  /** The bystander overhears that too. */
  const OVERHEARD := [Deliver(4, 4, 46, [1, 2, 3])]

  lemma SpeakerIsTrue(j: nat, mac: Mac48Address, pid: PacketId, packet: Bytes, reports: seq<PacketId>)
    requires 0 < j < 4 && mac == 10 * j + 6
    ensures TOWN.owner(mac) == j && Sender(TOWN, Said(j, mac, pid, packet, reports).sender)
  {
  }

  lemma Begin() returns (net: Net)
    ensures At(net, 0, Notes([], {}), Notes([], {}), Notes([], {}), map[], [])
    ensures Leads(Fresh(FIVE), GREETINGS, net)
  {
    hide Leads, Learned, Stepped, Complete, Proper;
    VillageIsProper();
    HellosHeard(TOWN, TOGETHER);
    var t, start := TOGETHER, Fresh(FIVE);
    var net1 := Greeted(start, t.a, 1, Start([6]).(neighbors := [Neighbor(t.a, [])]));
    var net2 := Greeted(net1, t.b, 2, Start([6]).(neighbors := [Neighbor(t.a, []), Neighbor(t.b, [])]));
    net := Greeted(net2, t.c, 3, Met(t, 0));
    LeadsOn(start, [Greet(0, t.a)], net1, [Greet(0, t.b)], net2);
    LeadsOn(start, [Greet(0, t.a)] + [Greet(0, t.b)], net2, [Greet(0, t.c)], net);
    assert [Greet(0, t.a)] + [Greet(0, t.b)] + [Greet(0, t.c)] == GREETINGS;
    FreshSources();
  }

  lemma Greeted(net: Net, pairs: seq<AddressPair>, node: nat, st: Protocol) returns (net': Net)
    requires |net.nodes| == 5 && Complete(TOWN, node, pairs)
    requires Stepped(net.nodes[0].st, HearHello(pairs)) == Done(Sending(st, None))
    ensures net' == net.(nodes := net.nodes[0 := net.nodes[0].(st := st)])
    ensures Leads(net, [Greet(0, pairs)], net')
  {
    hide Leads, Learned, Complete;
    net' := net.(nodes := net.nodes[0 := net.nodes[0].(st := st)]);
    LeadsOne(net, Greet(0, pairs), net');
  }

  lemma FreshSources()
    ensures Source(Node(Start([6]), map[], [], []), [], {}) && Bystander(Node(Start([6]), map[], [], []), map[])
  {
    VillageIsProper();
    StartsIndexed(TOWN, [6]);
  }

  /** What the frames of the three do to the relay. */
  lemma RelaySteps()
    ensures Stepped(Met(TOGETHER, 0), HearFrame(Said(2, 26, 1, [1], []).sender, [], [] + [1]))
              == Done(Sending(Met(TOGETHER, 1), None))
    ensures Stepped(Met(TOGETHER, 1), HearFrame(Said(3, 36, 2, [2], [1]).sender, [], [1] + [2]))
              == Done(Sending(Met(TOGETHER, 2), None))
    ensures Stepped(Met(TOGETHER, 2), HearFrame(Said(1, 16, 3, [4], [2]).sender, [], [2] + [3]))
              == Done(Sending(Met(TOGETHER, 3), None))
    ensures Stepped(Met(TOGETHER, 3), HearFrame(Said(2, 26, 4, [8], [3]).sender, [], [3] + [4]))
              == Done(Sending(Met(TOGETHER, 4), None))
  {
    hide Stepped, Met, Proper;
    VillageIsProper();
    FramesHeard(TOWN, TOGETHER);
    assert Said(1, 16, 3, [4], [2]).sender == TOGETHER.a[0];
    assert Said(2, 26, 1, [1], []).sender == Said(2, 26, 4, [8], [3]).sender == TOGETHER.b[0];
    assert Said(3, 36, 2, [2], [1]).sender == TOGETHER.c[0];
    assert [] + [1] == [1] && [1] + [2] == [1, 2] && [2] + [3] == [2, 3] && [3] + [4] == [3, 4];
  }

  lemma SecondSpeaks(net: Net) returns (net': Net)
    requires At(net, 0, Notes([], {}), Notes([], {}), Notes([], {}), map[], [])
    ensures At(net', 1, Notes([], {}), Notes([], {}), Notes([1], {1}), map[], [Said(2, 26, 1, [1], [])])
    ensures Leads(net, FIRST_FRAME, net')
  {
    hide Leads, Relay, Source, Bystander, Stepped, Sender, Met, Said;
    RelaySteps();
    SpeakerIsTrue(2, 26, 1, [1], []);
    var net1 := Speaks(net, 2, 26, 1, [1], [], {});
    var net2 := RelayHearsLast(net1, 0, {}, 2, 26, 1, [1], []);
    net' := SourceHearsLast(net2, 3, {}, {1}, 36, 2, 26, 1, [1], []);
    assert FIRST_FRAME[..2] == [Accept(2, Plain(1, [1])), Transmit(2, [0], 26)];
    LeadsOn(net, FIRST_FRAME[..2], net1, [FIRST_FRAME[2]], net2);
    LeadsOn(net, FIRST_FRAME[..2] + [FIRST_FRAME[2]], net2, [FIRST_FRAME[3]], net');
    assert FIRST_FRAME == FIRST_FRAME[..2] + [FIRST_FRAME[2]] + [FIRST_FRAME[3]];
    assert {} + {1} == Ids(1);
  }

  lemma ThirdSpeaks(net: Net) returns (net': Net)
    requires At(net, 1, Notes([], {}), Notes([], {}), Notes([1], {1}), map[], [Said(2, 26, 1, [1], [])])
    ensures At(net', 2, Notes([2], {1, 2}), Notes([], {}), Notes([], {1}), map[2 := [2]],
               [Said(2, 26, 1, [1], []), Said(3, 36, 2, [2], [1])])
    ensures Leads(net, SECOND_FRAME, net')
  {
    hide Leads, Relay, Source, Bystander, Stepped, Sender, Met, Said;
    RelaySteps();
    SpeakerIsTrue(3, 36, 2, [2], [1]);
    var net1 := Speaks(net, 3, 36, 2, [2], [1], {1});
    var net2 := RelayHearsLast(net1, 1, {1}, 3, 36, 2, [2], [1]);
    var net3 := SourceHearsLast(net2, 1, {}, {1, 2}, 16, 3, 36, 2, [2], [1]);
    net' := BystanderHearsLast(net3, map[], 3, 36, 2, [2], [1]);
    assert SECOND_FRAME[..2] == [Accept(3, Plain(2, [2])), Transmit(3, [0], 36)];
    LeadsOn(net, SECOND_FRAME[..2], net1, [SECOND_FRAME[2]], net2);
    LeadsOn(net, SECOND_FRAME[..2] + [SECOND_FRAME[2]], net2, [SECOND_FRAME[3]], net3);
    LeadsOn(net, SECOND_FRAME[..2] + [SECOND_FRAME[2]] + [SECOND_FRAME[3]], net3, [SECOND_FRAME[4]], net');
    assert SECOND_FRAME == SECOND_FRAME[..2] + [SECOND_FRAME[2]] + [SECOND_FRAME[3]] + [SECOND_FRAME[4]];
    assert {1} + {2} == Ids(2);
  }

  lemma FirstSpeaks(net: Net) returns (net': Net)
    requires At(net, 2, Notes([2], {1, 2}), Notes([], {}), Notes([], {1}), map[2 := [2]],
                [Said(2, 26, 1, [1], []), Said(3, 36, 2, [2], [1])])
    ensures At(net', 3, Notes([], {1, 2}), Notes([3], {2, 3}), Notes([], {1}), map[2 := [2], 3 := [4]],
               [Said(2, 26, 1, [1], []), Said(3, 36, 2, [2], [1]), Said(1, 16, 3, [4], [2])])
    ensures Leads(net, THIRD_FRAME, net')
  {
    hide Leads, Relay, Source, Bystander, Stepped, Sender, Met, Said;
    RelaySteps();
    SpeakerIsTrue(1, 16, 3, [4], [2]);
    var net1 := Speaks(net, 1, 16, 3, [4], [2], {1, 2});
    var net2 := RelayHearsLast(net1, 2, {1, 2}, 1, 16, 3, [4], [2]);
    var net3 := SourceHearsLast(net2, 2, {}, {2, 3}, 26, 1, 16, 3, [4], [2]);
    net' := BystanderHearsLast(net3, map[2 := [2]], 1, 16, 3, [4], [2]);
    assert THIRD_FRAME[..2] == [Accept(1, Plain(3, [4])), Transmit(1, [0], 16)];
    LeadsOn(net, THIRD_FRAME[..2], net1, [THIRD_FRAME[2]], net2);
    LeadsOn(net, THIRD_FRAME[..2] + [THIRD_FRAME[2]], net2, [THIRD_FRAME[3]], net3);
    LeadsOn(net, THIRD_FRAME[..2] + [THIRD_FRAME[2]] + [THIRD_FRAME[3]], net3, [THIRD_FRAME[4]], net');
    assert THIRD_FRAME == THIRD_FRAME[..2] + [THIRD_FRAME[2]] + [THIRD_FRAME[3]] + [THIRD_FRAME[4]];
    assert {1, 2} + {3} == Ids(3);
  }

  lemma SecondSpeaksAgain(net: Net) returns (net': Net)
    requires At(net, 3, Notes([], {1, 2}), Notes([3], {2, 3}), Notes([], {1}), map[2 := [2], 3 := [4]],
                [Said(2, 26, 1, [1], []), Said(3, 36, 2, [2], [1]), Said(1, 16, 3, [4], [2])])
    ensures At(net', 4, Notes([], {1, 2}), Notes([], {2, 3}), Notes([], {1}), map[2 := [2], 3 := [4]],
               [Said(2, 26, 1, [1], []), Said(3, 36, 2, [2], [1]), Said(1, 16, 3, [4], [2]), Said(2, 26, 4, [8], [3])])
    ensures Leads(net, FOURTH_FRAME, net')
  {
    hide Leads, Relay, Source, Bystander, Stepped, Sender, Met, Said;
    RelaySteps();
    SpeakerIsTrue(2, 26, 4, [8], [3]);
    var net1 := Speaks(net, 2, 26, 4, [8], [3], {2, 3});
    net' := RelayHearsLast(net1, 3, {1, 2, 3}, 2, 26, 4, [8], [3]);
    assert FOURTH_FRAME[..2] == [Accept(2, Plain(4, [8])), Transmit(2, [0], 26)];
    LeadsOn(net, FOURTH_FRAME[..2], net1, [FOURTH_FRAME[2]], net');
    assert FOURTH_FRAME == FOURTH_FRAME[..2] + [FOURTH_FRAME[2]];
    assert {1, 2, 3} + {4} == Ids(4);
  }

  // ---------- The relay codes ----------

  /** The relay in some state, with the four packets in its pool. */
  ghost predicate RelayIn(node: Node, st: Protocol) {
    node.st == st && node.pool.Keys == {1, 2, 3, 4} && node.acks == []
  }

  lemma RelayAccepts(net: Net, e: Entry, st: Protocol) returns (net': Net)
    requires |net.nodes| == 5 && e.pid in {1, 2, 3, 4} && HASHED(e.packet) == e.pid
    requires ValidStep(TOWN, net.nodes[0].st.devices, Enqueue(e))
    requires RelayIn(net.nodes[0], net.nodes[0].st) && Stepped(net.nodes[0].st, Enqueue(e)) == Done(Sending(st, None))
    ensures |net'.nodes| == 5 && net'.air == net.air && net'.nodes == net.nodes[0 := net'.nodes[0]]
    ensures RelayIn(net'.nodes[0], st)
    ensures Leads(net, [Accept(0, e)], net')
  {
    hide Leads, Stepped;
    net' := net.(nodes := net.nodes[0 := Accepted(net.nodes[0], e).value]);
    LeadsOne(net, Accept(0, e), net');
  }

  /** The coded frame lists packets 1, 2 and 3 for nodes 1, 2 and 3, and carries an octet 5. */
  ghost predicate CodesThree(t: Transmission) {
    && t.sender == AddressPair(1, 6, 6) && t.natives == [1, 2, 3] && t.packet == [5]
    && forall m | m in t.header :: m == 16 || m == 26 || m == 36
  }

  lemma HeaderOfThree()
    requires FirstEncoded(TOGETHER, [0]).Done?
    requires FirstEncoded(TOGETHER, [0]).value.chosen == [FirstChoice(TOGETHER)]
               + [SecondChoice(TOGETHER), ThirdChoice(TOGETHER)]
    ensures forall m | m in FirstEncoded(TOGETHER, [0]).value.header :: m == 16 || m == 26 || m == 36
  {
    hide Encoded, ReadyToSend, Proper, GetItem, MinMac, ChannelsOf, PairwiseDecodable, Located, CommonChannels;
    hide FrameSoFar;
    hide GoodOutput, GoodWaiting, GoodTable, Indexed, Inv, KnownToAll, HeaderLists;
    hide FirstChoice, SecondChoice, ThirdChoice;
    VillageIsProper();
    TakenReady(TOWN, TOGETHER);
    EncodedKeeps(TOWN, Taken(TOGETHER), [0], TOGETHER.first, First(TOGETHER));
    var c := FirstEncoded(TOGETHER, [0]).value;
    ThreeDestinations();
    ListedDestinations(c.header, c.chosen);
  }

  lemma ThreeDestinations()
    ensures FirstChoice(TOGETHER).dest == 16 && SecondChoice(TOGETHER).dest == 26 && ThirdChoice(TOGETHER).dest == 36
  {
    hide MinMac, ChannelsOf;
  }

  lemma ListedDestinations(header: map<Mac48Address, PacketId>, chosen: seq<Choice>)
    requires HeaderLists(header, chosen)
    ensures forall m | m in header :: exists x :: x in chosen && x.dest == m
  {
    forall m | m in header
      ensures exists x :: x in chosen && x.dest == m
    {
      var k :| 0 <= k < |chosen| && chosen[k].dest == m;
      assert chosen[k] in chosen;
    }
  }

  /** The relay sends the coded frame. */
  lemma RelaySends()
    ensures var r := TrySent(Ready(TOGETHER), [0]);
            && r.Done? && r.value.frame.Some?
            && var f := r.value.frame.value;
            && f.pids == [1, 2, 3] && f.packet == [5] && forall m | m in f.header :: m == 16 || m == 26 || m == 36
  {
    hide Encoded, Proper, Different, Stops, Joining, LeftOver, FirstChoice, SecondChoice, ThirdChoice, KnownToAll;
    hide MinMac, Sent, Pids;
    VillageIsProper();
    TogetherIsProper();
    TogetherJoin();
    SendEncodes(TOWN, TOGETHER, [0]);
    TrioEncoded(TOWN, TOGETHER, [0]);
    TogetherPacket();
    HeaderOfThree();
    TogetherPids();
    assert TrySent(Ready(TOGETHER), [0]) == Sent(Ready(TOGETHER), [0]);
  }

  lemma RelayTransmits(net: Net) returns (net': Net)
    requires |net.nodes| == 5 && RelayIn(net.nodes[0], Ready(TOGETHER))
    ensures |net'.nodes| == 5 && net'.nodes == net.nodes[0 := net'.nodes[0]] && net'.nodes[0].pool.Keys == {1, 2, 3, 4}
    ensures |net'.air| == |net.air| + 1 && net.air == net'.air[..|net.air|] && CodesThree(net'.air[|net.air|])
    ensures net'.air[|net.air|].acks == []
    ensures Leads(net, [Transmit(0, [0], 6)], net')
  {
    hide Leads, TrySent, Ready;
    RelaySends();
    var (node, t) := Transmitted(VILLAGE, 0, net.nodes[0], [0], 6).value;
    net' := Net(net.nodes[0 := node], net.air + [t.value]);
    assert TOWN.owner(6) == 0 && TOWN.channel(6) == 6;
    LeadsOne(net, Transmit(0, [0], 6), net');
  }

  lemma EntriesAreValid()
    ensures forall e | e in [TOGETHER.first, TOGETHER.second, TOGETHER.third] :: ValidStep(TOWN, [6], Enqueue(e))
  {
  }

  lemma SameDevices()
    ensures Met(TOGETHER, 4).devices == Queued1(TOGETHER).devices == Queued2(TOGETHER).devices == [6]
  {
    hide KnownAfter;
  }

  lemma RelayCodes(net: Net) returns (net': Net)
    requires |net.nodes| == 5 && |net.air| == 4 && RelayIn(net.nodes[0], Met(TOGETHER, 4))
    ensures |net'.nodes| == 5 && net'.nodes == net.nodes[0 := net'.nodes[0]] && net'.nodes[0].pool.Keys == {1, 2, 3, 4}
    ensures |net'.air| == 5 && CodesThree(net'.air[4]) && net'.air[4].acks == []
    ensures Leads(net, CODED_FRAME, net')
  {
    hide Leads, Stepped, Met, Queued1, Queued2, Ready, ValidStep, Proper, CodesThree;
    VillageIsProper();
    EntriesAreValid();
    SameDevices();
    FirstQueued(TOWN, TOGETHER);
    SecondQueued(TOWN, TOGETHER);
    ThirdQueued(TOWN, TOGETHER);
    var net1 := RelayAccepts(net, TOGETHER.first, Queued1(TOGETHER));
    var net2 := RelayAccepts(net1, TOGETHER.second, Queued2(TOGETHER));
    var net3 := RelayAccepts(net2, TOGETHER.third, Ready(TOGETHER));
    net' := RelayTransmits(net3);
    LeadsOn(net, [CODED_FRAME[0]], net1, [CODED_FRAME[1]], net2);
    LeadsOn(net, [CODED_FRAME[0]] + [CODED_FRAME[1]], net2, [CODED_FRAME[2]], net3);
    LeadsOn(net, [CODED_FRAME[0]] + [CODED_FRAME[1]] + [CODED_FRAME[2]], net3, [CODED_FRAME[3]], net');
    assert CODED_FRAME == [CODED_FRAME[0]] + [CODED_FRAME[1]] + [CODED_FRAME[2]] + [CODED_FRAME[3]];
  }

  // ---------- The bystander errs ----------

  lemma BystanderGains(pool: map<PacketId, Bytes>, t: Transmission)
    requires pool == map[2 := [2], 3 := [4]] && CodesThree(t)
    ensures Gained(TOWN, HASHED, 4, pool, t, [1, 2, 3]) == Got(7, [3], false)
    ensures !Dropped(TOWN, 4, t, 46) && Sender(TOWN, t.sender)
  {
    hide Decode;
    DecodesToThree();
  }

  /** What the bystander hears last is no packet of anybody, and it has on record that the relay holds it. */
  lemma BystanderRecords(net: Net) returns (net': Net, m: Mac48Address)
    requires |net.nodes| == 5 && |net.air| == 5 && CodesThree(net.air[4])
    requires Bystander(net.nodes[4], map[2 := [2], 3 := [4]])
    ensures |net'.nodes| == 5 && net'.nodes == net.nodes[4 := net'.nodes[4]]
    ensures TOWN.owner(m) == 0 && GetItem(net'.nodes[4].st.known, 7, m)
    ensures Leads(net, OVERHEARD, net')
  {
    hide Leads, Received, GoodNode, GetItem, Gained, Dropped, Sender, Learns;
    var t := net.air[4];
    BystanderGains(net.nodes[4].pool, t);
    ReceivedNode(VILLAGE, HASHED, 4, net.nodes[4], t, 46, [1, 2, 3]);
    var node := Received(VILLAGE, HASHED, 4, net.nodes[4], t, 46, [1, 2, 3]).value;
    net' := net.(nodes := net.nodes[4 := node]);
    m :| TOWN.owner(m) == TOWN.owner(t.sender.mac)
      && Learns(net.nodes[4].st.known, node.st.known, Told(t, Got(7, [3], false)), m);
    LearnsAll(net.nodes[4].st.known, node.st.known, Told(t, Got(7, [3], false)), m, 7);
    LeadsOne(net, OVERHEARD[0], net');
  }

  lemma LearnsAll(before: PacketInfo, after: PacketInfo, held: seq<PacketId>, mac: Mac48Address, pid: PacketId)
    requires Learns(before, after, held, mac) && pid in held
    ensures GetItem(after, pid, mac)
  {
  }

  /** The whole run. */
  const RUN := GREETINGS + FIRST_FRAME + SECOND_FRAME + THIRD_FRAME + FOURTH_FRAME + CODED_FRAME + OVERHEARD

  /** From fresh nodes that run leads, without stopping any, to a state in which node 4 has on record that an
      address of the relay holds packet 7, which the relay does not. */
  lemma ABystanderErrs() returns (net: Net, m: Mac48Address)
    ensures GoodLayout(VILLAGE, 5) && ValidMoves(VILLAGE, HASHED, Fresh(FIVE), RUN)
    ensures Ran(VILLAGE, HASHED, Fresh(FIVE), RUN) == Some(net) && |net.nodes| == 5
    ensures TOWN.owner(m) == 0 && GetItem(net.nodes[4].st.known, 7, m) && 7 !in net.nodes[0].pool
  {
    hide ValidMoves, Ran, Relay, Source, Bystander, RelayIn, CodesThree, GoodLayout, Proper, GetItem, Said, Fresh;
    VillageIsProper();
    var start := Fresh(FIVE);
    var net0 := Begin();
    var net1 := SecondSpeaks(net0);
    var net2 := ThirdSpeaks(net1);
    var net3 := FirstSpeaks(net2);
    var net4 := SecondSpeaksAgain(net3);
    RelayInformed(net4.nodes[0]);
    var net5 := RelayCodes(net4);
    net, m := BystanderRecords(net5);
    var r1, r2 := GREETINGS + FIRST_FRAME, GREETINGS + FIRST_FRAME + SECOND_FRAME;
    LeadsOn(start, GREETINGS, net0, FIRST_FRAME, net1);
    LeadsOn(start, r1, net1, SECOND_FRAME, net2);
    LeadsOn(start, r2, net2, THIRD_FRAME, net3);
    LeadsOn(start, r2 + THIRD_FRAME, net3, FOURTH_FRAME, net4);
    LeadsOn(start, r2 + THIRD_FRAME + FOURTH_FRAME, net4, CODED_FRAME, net5);
    LeadsOn(start, r2 + THIRD_FRAME + FOURTH_FRAME + CODED_FRAME, net5, OVERHEARD, net);
    assert net.nodes[0].pool.Keys == {1, 2, 3, 4};
  }

  lemma RelayInformed(node: Node)
    requires Relay(node, 4, Ids(4))
    ensures RelayIn(node, Met(TOGETHER, 4))
  {
  }
}
