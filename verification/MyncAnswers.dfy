/** What a node owes the others: every coded packet it takes out of a frame is acknowledged in a later frame,
    and the acknowledgement ends the retransmissions.  No condition on bystanders is needed. */
module MyncAnswers {
  import opened Addresses
  import opened Options
  import opened XorCoding
  import opened MyncQueues
  import opened MyncNeighbors
  import opened MyncProtocol
  import opened MyncIndex
  import opened MyncSending
  import opened MyncLearning
  import opened MyncRuns
  import opened MyncFrames
  import opened MyncEntries
  import opened MyncPackets
  import opened MyncNetwork
  import MyncHeaders

  // ---------- What a reception does ----------

  lemma {:induction false} AddressedIff(acks: seq<AckBlock>, ip: Ipv4Address, pid: PacketId)
    ensures pid in Addressed(acks, ip) <==> MyncHeaders.AckBlock(ip, pid) in acks
  {
    if acks != [] {
      AddressedIff(acks[1..], ip, pid);
    }
  }

  lemma ToldIff(t: Transmission, g: Gain, pid: PacketId)
    ensures pid in Told(t, g) <==>
      (exists a :: a in t.acks && a.pid == pid) || pid in t.reports || (g.Got? && g.pid == pid)
  {
    var blocks := BlockPids(t.acks);
    if a :| a in t.acks && a.pid == pid {
      var i :| 0 <= i < |t.acks| && t.acks[i] == a;
      assert blocks[i] == pid;
    }
    if pid in blocks {
      var i :| 0 <= i < |blocks| && blocks[i] == pid;
      assert t.acks[i] in t.acks;
    }
  }

  /** The packets a frame acknowledges to the node stop waiting, and no others do. */
  ghost predicate Frees(y: Layout, j: nat, before: Queue, after: Queue, t: Transmission) {
    && (forall p :: p in after.cells <==>
          p in before.cells && MyncHeaders.AckBlock(y.home(j), before.cells[p].pid) !in t.acks)
    && (forall p | p in after.cells :: after.cells[p] == before.cells[p])
  }

  /** The node has on record, under an address of the sender, exactly what it had and what the frame tells. */
  ghost predicate Records(y: Layout, before: PacketInfo, after: PacketInfo, t: Transmission, g: Gain) {
    exists m :: y.world.owner(m) == y.world.owner(t.sender.mac) && forall pid, n :: GetItem(after, pid, n) <==>
      || GetItem(before, pid, n)
      || (n == m && ((exists a :: a in t.acks && a.pid == pid) || pid in t.reports || (g.Got? && g.pid == pid)))
  }

  /** A packet gained goes into the pool and is to be reported; if it was coded and meant for the node it is
      also to be acknowledged, to the node the frame came from. */
  ghost predicate TakesIn(w: World, j: nat, before: Node, after: Node, t: Transmission, g: Gain) {
    && (forall p | p in before.pool :: p in after.pool && after.pool[p] == before.pool[p])
    && (forall p | p in after.pool :: p in before.pool || (g.Got? && p == g.pid))
    && (g.Got? ==> g.pid in after.pool && (g.pid !in before.pool ==> after.pool[g.pid] == g.packet))
    && after.reports == before.reports + (if g.Got? then [g.pid] else [])
    && after.acks == before.acks + if g.Got? && |t.natives| > 1 && NextHere(w, j, t.header)
         then [MyncHeaders.AckBlock(t.sender.ip, g.pid)] else []
  }

  lemma AckedIff(w: World, hash: Hash, j: nat, pool: map<PacketId, Bytes>, t: Transmission, listed: seq<PacketId>)
    ensures var g := Gained(w, hash, j, pool, t, listed);
            g.Got? ==> (g.acked <==> |t.natives| > 1 && NextHere(w, j, t.header))
  {
    hide Decode, NextHere, OwnPid;
  }

  /** A frame of another node that the node heeds: a coded one, one overheard, or a plain one that is meant for
      it and reaches it on the interface it is meant for. */
  ghost predicate Heeds(w: World, j: nat, t: Transmission, mac: Mac48Address) {
    w.owner(t.sender.mac) != j && (|t.natives| > 1 || mac in t.header || !NextHere(w, j, t.header))
  }

  /** Any other frame changes nothing. */
  lemma HeedsIff(y: Layout, hash: Hash, j: nat, node: Node, t: Transmission, mac: Mac48Address, listed: seq<PacketId>)
    ensures Dropped(y.world, j, t, mac) <==> !Heeds(y.world, j, t, mac)
    ensures !Heeds(y.world, j, t, mac) ==> Received(y, hash, j, node, t, mac, listed) == Some(node)
  {
    hide NextHere, Gained, FrameReceived;
  }

  /** All that a reception changes at a node. */
  lemma ReceptionTakesEffect(y: Layout, hash: Hash, j: nat, node: Node, t: Transmission, mac: Mac48Address,
                             listed: seq<PacketId>)
    requires GoodNode(y.world, hash, node) && Sender(y.world, t.sender)
    requires Heeds(y.world, j, t, mac) && Received(y, hash, j, node, t, mac, listed).Some?
    ensures var node' := Received(y, hash, j, node, t, mac, listed).value;
            var g := Gained(y.world, hash, j, node.pool, t, listed);
            && GoodNode(y.world, hash, node') && node'.st.queue == node.st.queue
            && Frees(y, j, node.st.rtqueue, node'.st.rtqueue, t)
            && Records(y, node.st.known, node'.st.known, t, g)
            && TakesIn(y.world, j, node, node', t, g)
  {
    hide Inv, Every, Gained, Dropped, FrameReceived, Learns, Sender, Pooling, Told, Addressed, NextHere, Records;
    hide GetItem, Heeds;
    HeedsIff(y, hash, j, node, t, mac, listed);
    var g := Gained(y.world, hash, j, node.pool, t, listed);
    var acks := Addressed(t.acks, y.home(j));
    ReceivedNode(y, hash, j, node, t, mac, listed);
    AckedIff(y.world, hash, j, node.pool, t, listed);
    FrameReceivedKeeps(y.world, node.st, t.sender, acks, Told(t, g));
    var st := FrameReceived(node.st, t.sender, acks, Told(t, g)).value;
    DropsFree(y, j, node.st.rtqueue, st.rtqueue, t);
    LearnsRecords(y, node.st.known, st.known, t, g);
  }

  lemma DropsFree(y: Layout, j: nat, before: Queue, after: Queue, t: Transmission)
    requires Drops(before, after, Addressed(t.acks, y.home(j)))
    ensures Frees(y, j, before, after, t)
  {
    hide Addressed, Unlisted;
    forall pid: PacketId
      ensures pid in Addressed(t.acks, y.home(j)) <==> MyncHeaders.AckBlock(y.home(j), pid) in t.acks
    {
      AddressedIff(t.acks, y.home(j), pid);
    }
  }

  lemma LearnsRecords(y: Layout, before: PacketInfo, after: PacketInfo, t: Transmission, g: Gain)
    requires exists m :: y.world.owner(m) == y.world.owner(t.sender.mac) && Learns(before, after, Told(t, g), m)
    ensures Records(y, before, after, t, g)
  {
    hide Told, GetItem;
    var m :| y.world.owner(m) == y.world.owner(t.sender.mac) && Learns(before, after, Told(t, g), m);
    forall pid
      ensures pid in Told(t, g) <==>
        (exists a :: a in t.acks && a.pid == pid) || pid in t.reports || (g.Got? && g.pid == pid)
    {
      ToldIff(t, g, pid);
    }
  }

  // ---------- What a transmission takes along ----------

  /** Reports and acknowledgements go out with the frame or stay: the oldest reports and the newest
      acknowledgements go along, as many as the node has neighbours. */
  ghost predicate TakesAlong(y: Layout, j: nat, before: Node, after: Node, mac: Mac48Address, t: Transmission) {
    var n := |after.st.neighbors|;
    && t.reports + after.reports == before.reports && after.acks + t.acks == before.acks
    && |t.reports| == (if |before.reports| <= n then |before.reports| else n)
    && |t.acks| == (if |before.acks| <= n then |before.acks| else n)
    && t.sender == AddressPair(y.home(j), mac, y.world.channel(mac))
  }

  lemma TransmissionTakesAlong(y: Layout, j: nat, node: Node, active: seq<nat>, mac: Mac48Address)
    requires Transmitted(y, j, node, active, mac).Some?
    ensures var (node', o) := Transmitted(y, j, node, active, mac).value;
            && node'.pool == node.pool
            && if o.None? then node'.reports == node.reports && node'.acks == node.acks
               else TakesAlong(y, j, node, node', mac, o.value)
  {
    hide TrySent;
  }

  // ---------- States that runs can reach ----------

  /** A frame on the air was sent by one of the nodes, which speaks of itself by its own address. */
  ghost predicate Signed(y: Layout, n: nat, t: Transmission) {
    Sender(y.world, t.sender) && y.world.owner(t.sender.mac) < n && t.sender.ip == y.home(y.world.owner(t.sender.mac))
  }

  /** What holds in every run, whether what is on record is true or not. */
  ghost predicate Sane(y: Layout, hash: Hash, net: Net) {
    && GoodLayout(y, |net.nodes|)
    && (forall j | 0 <= j < |net.nodes| :: GoodNode(y.world, hash, net.nodes[j]))
    && (forall t | t in net.air :: Signed(y, |net.nodes|, t))
  }

  lemma FreshIsSane(y: Layout, hash: Hash, devices: seq<seq<nat>>)
    requires GoodLayout(y, |devices|)
    ensures Sane(y, hash, Fresh(devices))
  {
    FreshIsGood(y, hash, devices);
  }

  lemma NodeStaysSane(y: Layout, hash: Hash, net: Net, j: nat, node: Node)
    requires Sane(y, hash, net) && j < |net.nodes| && GoodNode(y.world, hash, node)
    ensures Sane(y, hash, net.(nodes := net.nodes[j := node]))
  {
    hide GoodNode, GoodLayout, Signed;
  }

  lemma OwnStepStaysSane(y: Layout, hash: Hash, net: Net, move: Move)
    requires Sane(y, hash, net) && ValidMove(y, hash, net, move) && After(y, hash, net, move).Some?
    requires move.Accept? || move.Retry? || move.Greet?
    ensures Sane(y, hash, After(y, hash, net, move).value)
  {
    hide GoodLayout, Inv, Every, Stepped, Retransmitted, Learned, Complete, Signed, Pooling;
    var node := net.nodes[move.j];
    match move {
      case Accept(j, e) =>
        SteppedKeeps(y.world, node.st, Enqueue(e));
        AcceptedEvery(hash, node, e);
        NodeStaysSane(y, hash, net, j, Accepted(node, e).value);
      case Retry(j) =>
        RetransmittedKeeps(y.world, node.st);
        RetransmittedPools(hash, node);
        NodeStaysSane(y, hash, net, j, node.(st := Retransmitted(node.st).value));
      case Greet(j, pairs) =>
        var n :| Complete(y.world, n, pairs);
        LearnedKeeps(y.world, n, node.st, pairs);
        LearnedPools(hash, node, pairs);
        NodeStaysSane(y, hash, net, j, node.(st := Learned(node.st, pairs).value));
    }
  }

  lemma RetransmittedPools(hash: Hash, node: Node)
    requires EveryQueued(Pooling(hash, node.pool.Keys), node.st) && Retransmitted(node.st).Done?
    ensures EveryQueued(Pooling(hash, node.pool.Keys), Retransmitted(node.st).value)
  {
    hide Retransmitted;
    RetransmittedEvery(Pooling(hash, node.pool.Keys), node.st);
  }

  lemma LearnedPools(hash: Hash, node: Node, pairs: seq<AddressPair>)
    requires EveryQueued(Pooling(hash, node.pool.Keys), node.st) && Learned(node.st, pairs).Done?
    ensures EveryQueued(Pooling(hash, node.pool.Keys), Learned(node.st, pairs).value)
  {
    hide LearnedTable;
  }

  lemma TransmitStaysSane(y: Layout, hash: Hash, net: Net, j: nat, active: seq<nat>, mac: Mac48Address)
    requires Sane(y, hash, net) && ValidMove(y, hash, net, Transmit(j, active, mac))
    requires After(y, hash, net, Transmit(j, active, mac)).Some?
    ensures Sane(y, hash, After(y, hash, net, Transmit(j, active, mac)).value)
  {
    hide Inv, Every, Sent, Along, Behind, AcksAlong, AcksBehind, Pooling;
    var node := net.nodes[j];
    var (node', t) := Transmitted(y, j, node, active, mac).value;
    if active != [] && node.st.queue.order != [] {
      SentKeeps(y.world, node.st, active);
      SentEvery(Pooling(hash, node.pool.Keys), node.st, active);
      SubListsHeld(node.pool.Keys, |Sent(node.st, active).value.st.neighbors|, node.reports, node.acks);
    }
    NodeStaysSane(y, hash, net, j, node');
  }

  lemma DeliverStaysSane(y: Layout, hash: Hash, net: Net, j: nat, k: nat, mac: Mac48Address, listed: seq<PacketId>)
    requires Sane(y, hash, net) && ValidMove(y, hash, net, Deliver(j, k, mac, listed))
    requires After(y, hash, net, Deliver(j, k, mac, listed)).Some?
    ensures Sane(y, hash, After(y, hash, net, Deliver(j, k, mac, listed)).value)
  {
    hide GoodNode, GoodLayout, Gained, FrameReceived, Dropped, WithGain, Sender, TakesIn, Frees, Records;
    var t, node := net.air[k], net.nodes[j];
    assert Signed(y, |net.nodes|, t);
    HeedsIff(y, hash, j, node, t, mac, listed);
    if Heeds(y.world, j, t, mac) {
      ReceptionTakesEffect(y, hash, j, node, t, mac, listed);
    }
    NodeStaysSane(y, hash, net, j, Received(y, hash, j, node, t, mac, listed).value);
  }

  lemma MoveStaysSane(y: Layout, hash: Hash, net: Net, move: Move)
    requires Sane(y, hash, net) && ValidMove(y, hash, net, move) && After(y, hash, net, move).Some?
    ensures Sane(y, hash, After(y, hash, net, move).value)
  {
    hide Sane, ValidMove, After;
    match move {
      case Transmit(j, active, mac) => TransmitStaysSane(y, hash, net, j, active, mac);
      case Deliver(j, k, mac, listed) => DeliverStaysSane(y, hash, net, j, k, mac, listed);
      case _ => OwnStepStaysSane(y, hash, net, move);
    }
  }

  lemma {:induction false} RunStaysSane(y: Layout, hash: Hash, net: Net, moves: seq<Move>)
    requires Sane(y, hash, net) && ValidMoves(y, hash, net, moves) && Ran(y, hash, net, moves).Some?
    ensures Sane(y, hash, Ran(y, hash, net, moves).value)
    decreases |moves|
  {
    hide Sane, ValidMove, After;
    if moves == [] {
    } else {
      MoveStaysSane(y, hash, net, moves[0]);
      RunStaysSane(y, hash, After(y, hash, net, moves[0]).value, moves[1..]);
    }
  }

  // ---------- No acknowledgement is lost ----------

  /** Node j has the acknowledgement still to send, or has sent it. */
  ghost predicate Answered(w: World, net: Net, j: nat, a: AckBlock) {
    && j < |net.nodes|
    && (a in net.nodes[j].acks || exists t :: t in net.air && w.owner(t.sender.mac) == j && a in t.acks)
  }

  lemma OtherNodeMoves(w: World, net: Net, net': Net, j: nat, a: AckBlock)
    requires Answered(w, net, j, a) && |net'.nodes| == |net.nodes| && net.air <= net'.air
    requires a in net.nodes[j].acks ==> a in net'.nodes[j].acks
    ensures Answered(w, net', j, a)
  {
    assert forall t | t in net.air :: t in net'.air;
  }

  lemma AcceptedOwes(node: Node, e: Entry)
    requires OwnInterface(node.st.devices, Enqueue(e)) && Accepted(node, e).Some?
    ensures Accepted(node, e).value.acks == node.acks
  {
    hide Stepped;
  }

  lemma TransmitAnswers(y: Layout, hash: Hash, net: Net, move: Move, j: nat, a: AckBlock)
    requires Answered(y.world, net, j, a) && ValidMove(y, hash, net, move) && After(y, hash, net, move).Some?
    requires move.Transmit?
    ensures Answered(y.world, After(y, hash, net, move).value, j, a)
  {
    hide Transmitted;
    var net' := After(y, hash, net, move).value;
    TransmissionTakesAlong(y, move.j, net.nodes[move.j], move.active, move.mac);
    var (node', o) := Transmitted(y, move.j, net.nodes[move.j], move.active, move.mac).value;
    AirStays(y, hash, net, move);
    if o.Some? && j == move.j && a in net.nodes[j].acks && a !in node'.acks {
      assert a in o.value.acks && net'.air[|net.air|] == o.value;
      assert o.value in net'.air && y.world.owner(o.value.sender.mac) == j;
    } else {
      OtherNodeMoves(y.world, net, net', j, a);
    }
  }

  /** Once answered always answered, whatever happens. */
  lemma MoveAnswers(y: Layout, hash: Hash, net: Net, move: Move, j: nat, a: AckBlock)
    requires Answered(y.world, net, j, a) && ValidMove(y, hash, net, move) && After(y, hash, net, move).Some?
    ensures Answered(y.world, After(y, hash, net, move).value, j, a)
  {
    hide Accepted, Transmitted, Retransmitted, Learned, Gained, FrameReceived, Dropped, Answered;
    if move.Transmit? {
      TransmitAnswers(y, hash, net, move, j, a);
    } else {
      if move.Accept? {
        AcceptedOwes(net.nodes[move.j], move.entry);
      }
      AirStays(y, hash, net, move);
      AnsweredHere(y.world, net, j, a);
      OtherNodeMoves(y.world, net, After(y, hash, net, move).value, j, a);
    }
  }

  lemma AnsweredHere(w: World, net: Net, j: nat, a: AckBlock)
    requires Answered(w, net, j, a)
    ensures j < |net.nodes|
  {
  }

  lemma {:induction false} RunAnswers(y: Layout, hash: Hash, net: Net, moves: seq<Move>, j: nat, a: AckBlock)
    requires Answered(y.world, net, j, a) && ValidMoves(y, hash, net, moves) && Ran(y, hash, net, moves).Some?
    ensures Answered(y.world, Ran(y, hash, net, moves).value, j, a)
    decreases |moves|
  {
    hide Answered, ValidMove, After;
    if moves == [] {
    } else {
      MoveAnswers(y, hash, net, moves[0], j, a);
      RunAnswers(y, hash, After(y, hash, net, moves[0]).value, moves[1..], j, a);
    }
  }

  // ---------- The whole loop ----------

  /** Node j takes its own packet out of a coded frame of node i. */
  ghost predicate Decodes(y: Layout, hash: Hash, net: Net, move: Move, i: nat, pid: PacketId)
    requires ValidMove(y, hash, net, move)
  {
    && move.Deliver?
    && var t := net.air[move.k];
    && y.world.owner(t.sender.mac) == i != move.j
    && |t.natives| > 1 && NextHere(y.world, move.j, t.header)
    && var g := Gained(y.world, hash, move.j, net.nodes[move.j].pool, t, move.listed);
    g.Got? && g.pid == pid
  }

  /** A frame that acknowledges the packet to node i reaches it. */
  ghost predicate Acknowledges(y: Layout, hash: Hash, net: Net, move: Move, i: nat, pid: PacketId)
    requires ValidMove(y, hash, net, move)
  {
    && move.Deliver? && move.j == i && MyncHeaders.AckBlock(y.home(i), pid) in net.air[move.k].acks
    && Heeds(y.world, i, net.air[move.k], move.mac)
  }

  /** The packet does not wait at node i to be sent again. */
  ghost predicate Free(net: Net, i: nat, pid: PacketId) {
    i < |net.nodes| && forall p | p in net.nodes[i].st.rtqueue.cells :: net.nodes[i].st.rtqueue.cells[p].pid != pid
  }

  /** In every run, true records or not: when node j has taken its packet out of a coded frame of node i, it
      has the acknowledgement to send or has sent it from then on; and when a frame that carries it reaches
      node i, the packet no longer waits there to be sent again. */
  lemma AcknowledgementsReturn(y: Layout, hash: Hash, devices: seq<seq<nat>>, before: seq<Move>, decoding: Move,
                               between: seq<Move>, i: nat, pid: PacketId)
    requires GoodLayout(y, |devices|) && ValidMoves(y, hash, Fresh(devices), before)
    requires Ran(y, hash, Fresh(devices), before).Some?
    requires var net := Ran(y, hash, Fresh(devices), before).value;
             && ValidMove(y, hash, net, decoding) && Decodes(y, hash, net, decoding, i, pid)
             && After(y, hash, net, decoding).Some?
             && ValidMoves(y, hash, After(y, hash, net, decoding).value, between)
             && Ran(y, hash, After(y, hash, net, decoding).value, between).Some?
    ensures var net := Ran(y, hash, Fresh(devices), before).value;
            var end := Ran(y, hash, After(y, hash, net, decoding).value, between).value;
            && Answered(y.world, end, decoding.j, MyncHeaders.AckBlock(y.home(i), pid))
            && forall move | ValidMove(y, hash, end, move) && Acknowledges(y, hash, end, move, i, pid) ::
                 After(y, hash, end, move).Some? ==> Free(After(y, hash, end, move).value, i, pid)
  {
    hide ValidMove, After, Sane, Answered, Decodes, Acknowledges, Free, GoodLayout;
    FreshIsSane(y, hash, devices);
    RunStaysSane(y, hash, Fresh(devices), before);
    var net := Ran(y, hash, Fresh(devices), before).value;
    var net' := After(y, hash, net, decoding).value;
    DecodedIsAnswered(y, hash, net, decoding, i, pid);
    MoveStaysSane(y, hash, net, decoding);
    RunAnswers(y, hash, net', between, decoding.j, MyncHeaders.AckBlock(y.home(i), pid));
    RunStaysSane(y, hash, net', between);
    var end := Ran(y, hash, net', between).value;
    forall move | ValidMove(y, hash, end, move) && Acknowledges(y, hash, end, move, i, pid)
      ensures After(y, hash, end, move).Some? ==> Free(After(y, hash, end, move).value, i, pid)
    {
      if After(y, hash, end, move).Some? {
        AcknowledgedIsFree(y, hash, end, move, i, pid);
      }
    }
  }

  lemma DecodedIsAnswered(y: Layout, hash: Hash, net: Net, move: Move, i: nat, pid: PacketId)
    requires Sane(y, hash, net) && ValidMove(y, hash, net, move) && Decodes(y, hash, net, move, i, pid)
    requires After(y, hash, net, move).Some?
    ensures Answered(y.world, After(y, hash, net, move).value, move.j, MyncHeaders.AckBlock(y.home(i), pid))
  {
    hide GoodNode, GoodLayout, Gained, Dropped, Received, Sender, NextHere, Frees, Records;
    var t, node := net.air[move.k], net.nodes[move.j];
    assert Signed(y, |net.nodes|, t);
    ReceptionTakesEffect(y, hash, move.j, node, t, move.mac, move.listed);
  }

  lemma AcknowledgedIsFree(y: Layout, hash: Hash, net: Net, move: Move, i: nat, pid: PacketId)
    requires Sane(y, hash, net) && ValidMove(y, hash, net, move) && Acknowledges(y, hash, net, move, i, pid)
    requires After(y, hash, net, move).Some?
    ensures Free(After(y, hash, net, move).value, i, pid)
  {
    hide GoodNode, GoodLayout, Gained, Dropped, Received, Sender, NextHere, TakesIn, Records;
    var t, node := net.air[move.k], net.nodes[i];
    assert Signed(y, |net.nodes|, t);
    ReceptionTakesEffect(y, hash, i, node, t, move.mac, move.listed);
  }
}
