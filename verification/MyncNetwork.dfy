/** A network of coding nodes.  What a node has on record of another is true of that node's packet pool,
    so every receiver of a coded frame holds all natives but its own. */
module MyncNetwork {
  import opened Addresses
  import opened Options
  import opened XorCoding
  import opened MyncQueues
  import opened MyncNeighbors
  import opened MyncProtocol
  import opened MyncIndex
  import opened MyncCoding
  import opened MyncSending
  import opened MyncLearning
  import opened MyncRuns
  import opened MyncFrames
  import opened MyncEntries
  import opened MyncPackets
  import MyncHeaders

  // ---------- Nodes and what is on the air ----------

  type AckBlock = MyncHeaders.AckBlock

  /** Whose addresses are whose, and the IP address by which node j speaks of itself. */
  datatype Layout = Layout(world: World, home: nat -> Ipv4Address)

  /** The protocol, the packet pool, and the packets and acknowledgements still to be reported. */
  datatype Node = Node(st: Protocol, pool: map<PacketId, Bytes>, reports: seq<PacketId>, acks: seq<AckBlock>)

  /** A frame with its header. */
  datatype Transmission = Transmission(
    sender: AddressPair,
    header: map<Mac48Address, PacketId>,
    natives: seq<PacketId>,
    packet: Bytes,
    reports: seq<PacketId>,
    acks: seq<AckBlock>)

  /** A transmission stays on the air: any node may receive it, at any time, any number of times, or
      never. */
  datatype Net = Net(nodes: seq<Node>, air: seq<Transmission>)

  // ---------- Receiving ----------

  ghost predicate NextHere(w: World, j: nat, header: map<Mac48Address, PacketId>) {
    exists m :: m in header && w.owner(m) == j
  }

  /** The packet a header has for node j. */
  ghost function OwnPid(w: World, j: nat, header: map<Mac48Address, PacketId>): PacketId
    requires NextHere(w, j, header)
  {
    var m :| m in header && w.owner(m) == j;
    header[m]
  }

  /** What a node gets out of a frame: nothing, a failed assertion, or a packet, which is acknowledged if
      it was coded and meant for the node. */
  datatype Gain = Nothing | Wrong | Got(pid: PacketId, packet: Bytes, acked: bool)

  /** A node checks the id of a packet that is meant for it.  A bystander takes whatever id the packet
      hashes to. */
  ghost function Gained(w: World, hash: Hash, j: nat, pool: map<PacketId, Bytes>, t: Transmission,
                        listed: seq<PacketId>): Gain {
    if BROADCAST in t.header then Nothing
    else if |t.natives| <= 1 then
      if !NextHere(w, j, t.header) then Got(hash(t.packet), t.packet, false)
      else if hash(t.packet) == OwnPid(w, j, t.header) then Got(OwnPid(w, j, t.header), t.packet, false)
      else Wrong
    else
      var r := Decode(listed, pool, t.packet);
      if r.RunsOff? then Wrong
      else if r.code < 0 then Nothing
      else
        var packet := Renewed(r.packet);
        if !NextHere(w, j, t.header) then Got(hash(packet), packet, false)
        else if r.code == OwnPid(w, j, t.header) == hash(packet) then Got(OwnPid(w, j, t.header), packet, true)
        else Wrong
  }

  function BlockPids(acks: seq<AckBlock>): seq<PacketId> {
    seq(|acks|, i requires 0 <= i < |acks| => acks[i].pid)
  }

  /** The acknowledgements addressed to an IP address. */
  function Addressed(acks: seq<AckBlock>, ip: Ipv4Address): seq<PacketId> {
    if acks == [] then [] else (if acks[0].address == ip then [acks[0].pid] else []) + Addressed(acks[1..], ip)
  }

  /** What a frame says its sender holds. */
  ghost function Told(t: Transmission, g: Gain): seq<PacketId> {
    BlockPids(t.acks) + t.reports + if g.Got? then [g.pid] else []
  }

  /** The pool keeps the packet it has. */
  function Pooled(pool: map<PacketId, Bytes>, pid: PacketId, packet: Bytes): map<PacketId, Bytes> {
    if pid in pool then pool else pool[pid := packet]
  }

  /** Own frames are dropped, and so are plain ones that reach the node on another interface than the one
      they are meant for. */
  ghost predicate Dropped(w: World, j: nat, t: Transmission, mac: Mac48Address) {
    w.owner(t.sender.mac) == j || (|t.natives| <= 1 && NextHere(w, j, t.header) && mac !in t.header)
  }

  ghost function WithGain(node: Node, st: Protocol, t: Transmission, g: Gain): Node {
    if !g.Got? then node.(st := st)
    else
      Node(st, Pooled(node.pool, g.pid, g.packet), node.reports + [g.pid],
           if g.acked then node.acks + [MyncHeaders.AckBlock(t.sender.ip, g.pid)] else node.acks)
  }

  /** A frame reaches node j on the interface with the given address; the header lists the natives in
      some order. */
  ghost function Received(y: Layout, hash: Hash, j: nat, node: Node, t: Transmission, mac: Mac48Address,
                          listed: seq<PacketId>): Option<Node> {
    if Dropped(y.world, j, t, mac) then Some(node)
    else
      var g := Gained(y.world, hash, j, node.pool, t, listed);
      if g.Wrong? then None
      else
        match FrameReceived(node.st, t.sender, Addressed(t.acks, y.home(j)), Told(t, g))
        case Fatal(_) => None
        case Done(st) => Some(WithGain(node, st, t, g))
  }

  // ---------- Accepting and sending ----------

  ghost function Accepted(node: Node, e: Entry): Option<Node>
    requires OwnInterface(node.st.devices, Enqueue(e))
  {
    match Stepped(node.st, Enqueue(e))
    case Fatal(_) => None
    case Done(s) =>
      Some(node.(st := s.st, pool := if !e.hello && Admits(node.st.queue, e.pid) then Pooled(node.pool, e.pid, e.packet)
        else node.pool))
  }

  /** Of the reports the oldest go along, of the acknowledgements the newest: as many as there are
      neighbours. */
  function Along(limit: nat, s: seq<PacketId>): seq<PacketId> {
    if |s| > limit then s[..limit] else s
  }

  function Behind(limit: nat, s: seq<PacketId>): seq<PacketId> {
    if |s| > limit then s[limit..] else []
  }

  function AcksAlong(limit: nat, s: seq<AckBlock>): seq<AckBlock> {
    if |s| > limit then s[|s| - limit..] else s
  }

  function AcksBehind(limit: nat, s: seq<AckBlock>): seq<AckBlock> {
    if |s| > limit then s[..|s| - limit] else []
  }

  /** A node tries to send; the frame leaves through the interface with the given address. */
  ghost function Transmitted(y: Layout, j: nat, node: Node, active: seq<nat>,
                             mac: Mac48Address): Option<(Node, Option<Transmission>)> {
    match TrySent(node.st, active)
    case Fatal(_) => None
    case Done(s) =>
      if s.frame.None? then Some((node.(st := s.st), None))
      else
        var f, n := s.frame.value, |s.st.neighbors|;
        Some((node.(st := s.st, reports := Behind(n, node.reports), acks := AcksBehind(n, node.acks)),
              Some(Transmission(AddressPair(y.home(j), mac, y.world.channel(mac)), f.header, f.pids, f.packet,
                                Along(n, node.reports), AcksAlong(n, node.acks)))))
  }

  datatype Move =
    | Accept(j: nat, entry: Entry)
    | Transmit(j: nat, active: seq<nat>, mac: Mac48Address)
    | Retry(j: nat)
    | Greet(j: nat, pairs: seq<AddressPair>)
    | Deliver(j: nat, k: nat, mac: Mac48Address, listed: seq<PacketId>)

  /** What the rest of the system keeps to: ids are hashes, frames leave through own interfaces, hellos
      are complete, and headers list each native once. */
  ghost predicate ValidMove(y: Layout, hash: Hash, net: Net, move: Move) {
    && move.j < |net.nodes|
    && match move
       case Accept(j, e) =>
         ValidStep(y.world, net.nodes[j].st.devices, Enqueue(e)) && (!e.hello ==> hash(e.packet) == e.pid)
       case Transmit(j, active, mac) => y.world.owner(mac) == j
       case Retry(j) => true
       case Greet(j, pairs) => ValidStep(y.world, net.nodes[j].st.devices, HearHello(pairs))
       case Deliver(j, k, mac, listed) => k < |net.air| && multiset(listed) == multiset(net.air[k].natives)
  }

  ghost function WithNode(net: Net, j: nat, o: Option<Node>): Option<Net>
    requires j < |net.nodes|
  {
    if o.None? then None else Some(net.(nodes := net.nodes[j := o.value]))
  }

  ghost function WithState(net: Net, j: nat, o: Outcome<Protocol>): Option<Net>
    requires j < |net.nodes|
  {
    match o
    case Fatal(_) => None
    case Done(st) => WithNode(net, j, Some(net.nodes[j].(st := st)))
  }

  /** None if the node stops. */
  ghost function After(y: Layout, hash: Hash, net: Net, move: Move): Option<Net>
    requires ValidMove(y, hash, net, move)
  {
    var node := net.nodes[move.j];
    match move
    case Accept(j, e) => WithNode(net, j, Accepted(node, e))
    case Transmit(j, active, mac) =>
      (match Transmitted(y, j, node, active, mac)
       case None => None
       case Some((node', t)) => Some(Net(net.nodes[j := node'], net.air + if t.None? then [] else [t.value])))
    case Retry(j) => WithState(net, j, Retransmitted(node.st))
    case Greet(j, pairs) => WithState(net, j, Learned(node.st, pairs))
    case Deliver(j, k, mac, listed) => WithNode(net, j, Received(y, hash, j, node, net.air[k], mac, listed))
  }

  // ---------- What is true of the network ----------

  /** The ids each node holds packets for. */
  type Pools = seq<set<PacketId>>

  ghost function PoolsOf(net: Net): (p: Pools)
    ensures |p| == |net.nodes|
  {
    seq(|net.nodes|, j requires 0 <= j < |net.nodes| => net.nodes[j].pool.Keys)
  }

  ghost predicate Grow(p: Pools, p': Pools) {
    |p| == |p'| && forall j | 0 <= j < |p| :: p[j] <= p'[j]
  }

  ghost predicate GoodLayout(y: Layout, n: nat) {
    GoodWorld(y.world) && forall j | 0 <= j < n :: y.world.ipOwner(y.home(j)) == j && y.home(j) != ANY
  }

  /** A queued packet is in the pool, under its hash. */
  ghost function Pooling(hash: Hash, held: set<PacketId>): Property {
    (e: Entry) => !e.hello ==> e.pid in held && hash(e.packet) == e.pid
  }

  ghost predicate GoodNode(w: World, hash: Hash, node: Node) {
    && Inv(w, node.st) && EveryQueued(Pooling(hash, node.pool.Keys), node.st)
    && (forall pid | pid in node.reports :: pid in node.pool)
    && (forall a | a in node.acks :: a.pid in node.pool)
  }

  /** The sender of a frame holds all it lists, reports and acknowledges, and every receiver holds all
      natives but its own. */
  ghost predicate Backed(w: World, hash: Hash, p: Pools, t: Transmission) {
    && Sender(w, t.sender) && w.owner(t.sender.mac) < |p| && t.natives != []
    && var held := p[w.owner(t.sender.mac)];
    && (forall pid | pid in t.natives || pid in t.reports :: pid in held)
    && (forall a | a in t.acks :: a.pid in held)
    && (forall m | m in t.header :: t.header[m] in t.natives)
    && (forall a, b | 0 <= a < b < |t.natives| :: t.natives[a] != t.natives[b])
    && (|t.natives| == 1 ==> hash(t.packet) == t.natives[0])
    && (|t.natives| > 1 ==> BROADCAST !in t.header && ReceiversHoldOthers(w, p, t))
  }

  ghost predicate ReceiversHoldOthers(w: World, p: Pools, t: Transmission) {
    forall m, pid | m in t.header && pid in t.natives && pid != t.header[m] :: HoldsAt(w, p, m, pid)
  }

  /** The node with the address has the packet in its pool. */
  ghost predicate HoldsAt(w: World, p: Pools, m: Mac48Address, pid: PacketId) {
    w.owner(m) < |p| && pid in p[w.owner(m)]
  }

  /** What is on record is so. */
  ghost predicate Truthful(w: World, p: Pools, known: PacketInfo) {
    forall pid, m | GetItem(known, pid, m) :: HoldsAt(w, p, m, pid)
  }

  ghost predicate NetInv(y: Layout, hash: Hash, net: Net) {
    && GoodLayout(y, |net.nodes|)
    && (forall j | 0 <= j < |net.nodes| :: GoodNode(y.world, hash, net.nodes[j]))
    && (forall j | 0 <= j < |net.nodes| :: Truthful(y.world, PoolsOf(net), net.nodes[j].st.known))
    && (forall t | t in net.air :: Backed(y.world, hash, PoolsOf(net), t))
  }

  // ---------- Pools only grow ----------

  lemma TruthfulGrows(w: World, p: Pools, p': Pools, known: PacketInfo)
    requires Grow(p, p') && Truthful(w, p, known)
    ensures Truthful(w, p', known)
  {
    hide GetItem;
    forall pid, m | GetItem(known, pid, m)
      ensures HoldsAt(w, p', m, pid)
    {
      assert HoldsAt(w, p, m, pid);
    }
  }

  lemma BackedGrows(w: World, hash: Hash, p: Pools, p': Pools, t: Transmission)
    requires Grow(p, p') && Backed(w, hash, p, t)
    ensures Backed(w, hash, p', t)
  {
    if |t.natives| > 1 {
      forall m, pid | m in t.header && pid in t.natives && pid != t.header[m]
        ensures HoldsAt(w, p', m, pid)
      {
        assert HoldsAt(w, p, m, pid);
      }
    }
  }

  lemma PoolingGrows(hash: Hash, held: set<PacketId>, held': set<PacketId>, st: Protocol)
    requires held <= held' && EveryQueued(Pooling(hash, held), st)
    ensures EveryQueued(Pooling(hash, held'), st)
  {
    forall p | p in st.queue.cells
      ensures Pooling(hash, held')(st.queue.cells[p])
    {
      assert Pooling(hash, held)(st.queue.cells[p]);
    }
    forall p | p in st.rtqueue.cells
      ensures Pooling(hash, held')(st.rtqueue.cells[p])
    {
      assert Pooling(hash, held)(st.rtqueue.cells[p]);
    }
  }

  lemma PoolsAt(net: Net, j: nat, node: Node)
    requires j < |net.nodes| && net.nodes[j].pool.Keys <= node.pool.Keys
    ensures var net' := net.(nodes := net.nodes[j := node]);
            PoolsOf(net') == PoolsOf(net)[j := node.pool.Keys] && Grow(PoolsOf(net), PoolsOf(net'))
  {
  }

  /** One node changes, and its pool does not shrink. */
  lemma NodeChanges(y: Layout, hash: Hash, net: Net, j: nat, node: Node)
    requires NetInv(y, hash, net) && j < |net.nodes| && net.nodes[j].pool.Keys <= node.pool.Keys
    requires GoodNode(y.world, hash, node)
    requires Truthful(y.world, PoolsOf(net.(nodes := net.nodes[j := node])), node.st.known)
    ensures NetInv(y, hash, net.(nodes := net.nodes[j := node]))
  {
    hide GoodNode, Truthful, Backed, GoodLayout, Grow, PoolsOf;
    var net' := net.(nodes := net.nodes[j := node]);
    PoolsAt(net, j, node);
    forall k | 0 <= k < |net'.nodes|
      ensures Truthful(y.world, PoolsOf(net'), net'.nodes[k].st.known)
    {
      if k != j {
        TruthfulGrows(y.world, PoolsOf(net), PoolsOf(net'), net.nodes[k].st.known);
      }
    }
    forall t | t in net'.air
      ensures Backed(y.world, hash, PoolsOf(net'), t)
    {
      BackedGrows(y.world, hash, PoolsOf(net), PoolsOf(net'), t);
    }
  }

  /** Only the state of one node changes, and nothing new goes on record. */
  lemma StateChanges(y: Layout, hash: Hash, net: Net, j: nat, st: Protocol)
    requires NetInv(y, hash, net) && j < |net.nodes| && Inv(y.world, st) && st.known == net.nodes[j].st.known
    requires EveryQueued(Pooling(hash, net.nodes[j].pool.Keys), st)
    ensures NetInv(y, hash, net.(nodes := net.nodes[j := net.nodes[j].(st := st)]))
  {
    hide Truthful, Backed, GoodLayout, Inv, EveryQueued, Grow, PoolsOf;
    var node := net.nodes[j].(st := st);
    PoolsAt(net, j, node);
    TruthfulGrows(y.world, PoolsOf(net), PoolsOf(net.(nodes := net.nodes[j := node])), st.known);
    NodeChanges(y, hash, net, j, node);
  }

  // ---------- Accepting, retrying, greeting ----------

  lemma AcceptedEvery(hash: Hash, node: Node, e: Entry)
    requires OwnInterface(node.st.devices, Enqueue(e)) && Accepted(node, e).Some?
    requires EveryQueued(Pooling(hash, node.pool.Keys), node.st) && (!e.hello ==> hash(e.packet) == e.pid)
    ensures var node' := Accepted(node, e).value;
            && EveryQueued(Pooling(hash, node'.pool.Keys), node'.st) && node.pool.Keys <= node'.pool.Keys
            && node'.st.known == node.st.known && node'.reports == node.reports && node'.acks == node.acks
  {
    hide Every, Linked, Added, SearchMac;
    var node' := Accepted(node, e).value;
    PoolingGrows(hash, node.pool.Keys, node'.pool.Keys, node.st);
    if Admits(node.st.queue, e.pid) {
      EnqueuedEvery(Pooling(hash, node'.pool.Keys), node.st.queue, e);
    }
  }

  lemma AcceptKeeps(y: Layout, hash: Hash, net: Net, j: nat, e: Entry)
    requires NetInv(y, hash, net) && ValidMove(y, hash, net, Accept(j, e))
    ensures After(y, hash, net, Accept(j, e)).Some? && NetInv(y, hash, After(y, hash, net, Accept(j, e)).value)
  {
    hide Truthful, Backed, GoodLayout, Inv, EveryQueued, Grow, PoolsOf, Stepped;
    var node := net.nodes[j];
    SteppedKeeps(y.world, node.st, Enqueue(e));
    AcceptedEvery(hash, node, e);
    var node' := Accepted(node, e).value;
    PoolsAt(net, j, node');
    TruthfulGrows(y.world, PoolsOf(net), PoolsOf(net.(nodes := net.nodes[j := node'])), node.st.known);
    NodeChanges(y, hash, net, j, node');
  }

  lemma RetryKeeps(y: Layout, hash: Hash, net: Net, j: nat)
    requires NetInv(y, hash, net) && ValidMove(y, hash, net, Retry(j))
    ensures After(y, hash, net, Retry(j)).Some? && NetInv(y, hash, After(y, hash, net, Retry(j)).value)
  {
    hide Truthful, Backed, GoodLayout, Inv, Grow, PoolsOf, Every;
    var node := net.nodes[j];
    RetransmittedKeeps(y.world, node.st);
    RetransmittedEvery(Pooling(hash, node.pool.Keys), node.st);
    StateChanges(y, hash, net, j, Retransmitted(node.st).value);
  }

  lemma GreetKeeps(y: Layout, hash: Hash, net: Net, j: nat, pairs: seq<AddressPair>)
    requires NetInv(y, hash, net) && ValidMove(y, hash, net, Greet(j, pairs))
    ensures After(y, hash, net, Greet(j, pairs)).Some? && NetInv(y, hash, After(y, hash, net, Greet(j, pairs)).value)
  {
    hide Truthful, Backed, GoodLayout, Inv, Grow, PoolsOf, Every, LearnedTable, Complete;
    var node := net.nodes[j];
    var n :| Complete(y.world, n, pairs);
    LearnedKeeps(y.world, n, node.st, pairs);
    StateChanges(y, hash, net, j, Learned(node.st, pairs).value);
  }

  // ---------- Sending ----------

  /** Sending records nothing of others. */
  lemma SentKnown(st: Protocol, active: seq<nat>)
    requires Sent(st, active).Done?
    ensures Sent(st, active).value.st.known == st.known
    ensures Sent(st, active).value.frame.Some? ==>
              && st.queue.order != [] && st.queue.order[0] in st.queue.cells
              && !st.queue.cells[st.queue.order[0]].hello
  {
    hide Encoded, EnqueuedFront, Linked, Unlinked, GetItem, MinMac, Dequeued;
  }

  /** A receiver is recorded under an address it owns. */
  lemma RecordedOwner(w: World, ns: seq<Neighbor>, m: Mac48Address)
    requires GoodTable(w, ns)
    ensures w.owner(ReceiverMac(ns, m)) == w.owner(m)
  {
    var i := SearchMac(ns, m);
    if i < |ns| {
      assert TrueNeighbor(w, ns[i]);
    }
  }

  /** What the node that sends has on record holds of the receivers of its frame. */
  lemma ReceiversHold(w: World, p: Pools, known: PacketInfo, ns: seq<Neighbor>, front: Entry, f: Frame, t: Transmission)
    requires GoodTable(w, ns) && Truthful(w, p, known) && ListsNatives(front, f) && Decodable(known, ns, f)
    requires t.header == f.header && t.natives == f.pids
    ensures ReceiversHoldOthers(w, p, t)
  {
    hide GetItem, ReceiverMac, GoodTable, HoldsAt;
    forall m, pid | m in t.header && pid in t.natives && pid != t.header[m]
      ensures HoldsAt(w, p, m, pid)
    {
      var m' :| m' in f.header && f.header[m'] == pid;
      assert GetItem(known, pid, ReceiverMac(ns, m));
      RecordedOwner(w, ns, m);
      SameOwner(w, p, ReceiverMac(ns, m), m, pid);
    }
  }

  lemma SameOwner(w: World, p: Pools, m: Mac48Address, m': Mac48Address, pid: PacketId)
    requires HoldsAt(w, p, m, pid) && w.owner(m) == w.owner(m')
    ensures HoldsAt(w, p, m', pid)
  {
  }

  /** The natives of a sound frame are in the sender's pool. */
  lemma NativesHeld(hash: Hash, held: set<PacketId>, st: Protocol, active: seq<nat>, front: Entry, s: Sending)
    requires s.frame.Some? && SoundFrame(st, active, front, s) && EveryQueued(Pooling(hash, held), st)
    requires exists p :: p in st.queue.cells && st.queue.cells[p] == front && !front.hello
    ensures var f := s.frame.value;
            (forall pid | pid in f.pids :: pid in held) && (|f.pids| == 1 ==> hash(f.packet) == f.pids[0])
  {
    hide Decodable, Kept, IsCoded;
    var f := s.frame.value;
    var ptr :| ptr in st.queue.cells && st.queue.cells[ptr] == front;
    assert Pooling(hash, held)(front);
    forall pid | pid in f.pids
      ensures pid in held
    {
      if |f.pids| == 1 {
        assert pid == f.pids[0];
      } else {
        var p :| p in st.queue.cells && st.queue.cells[p].Unicast() && st.queue.cells[p].pid == pid;
        assert Pooling(hash, held)(st.queue.cells[p]);
      }
    }
  }

  lemma SubListsHeld(held: set<PacketId>, n: nat, reports: seq<PacketId>, acks: seq<AckBlock>)
    requires (forall pid | pid in reports :: pid in held) && (forall a | a in acks :: a.pid in held)
    ensures forall pid | pid in Along(n, reports) || pid in Behind(n, reports) :: pid in held
    ensures forall a | a in AcksAlong(n, acks) || a in AcksBehind(n, acks) :: a.pid in held
  {
  }

  /** The frame a node sends is backed by its pool and by the pools of its receivers. */
  lemma FrameIsBacked(y: Layout, hash: Hash, net: Net, j: nat, active: seq<nat>, mac: Mac48Address)
    requires NetInv(y, hash, net) && j < |net.nodes| && y.world.owner(mac) == j
    requires Transmitted(y, j, net.nodes[j], active, mac).Some?
    requires Transmitted(y, j, net.nodes[j], active, mac).value.1.Some?
    ensures Backed(y.world, hash, PoolsOf(net), Transmitted(y, j, net.nodes[j], active, mac).value.1.value)
  {
    hide Inv, Every, EveryQueued, Sent, Decodable, KeepsNatives, IsCoded, Truthful, Pooling, Along, Behind, AcksAlong;
    hide AcksBehind, ReceiversHoldOthers;
    var node := net.nodes[j];
    var s := Sent(node.st, active).value;
    var t := Transmitted(y, j, node, active, mac).value.1.value;
    SentKnown(node.st, active);
    SentFrameIsSound(y.world, node.st, active);
    SentKeeps(y.world, node.st, active);
    SubListsHeld(node.pool.Keys, |s.st.neighbors|, node.reports, node.acks);
    var front := node.st.queue.cells[node.st.queue.order[0]];
    NativesHeld(hash, node.pool.Keys, node.st, active, front, s);
    TableIsGood(y.world, s.st);
    if |t.natives| > 1 {
      ReceiversHold(y.world, PoolsOf(net), node.st.known, s.st.neighbors, front, s.frame.value, t);
    }
  }

  lemma TableIsGood(w: World, st: Protocol)
    requires Inv(w, st)
    ensures GoodTable(w, st.neighbors)
  {
  }

  lemma TransmitKeeps(y: Layout, hash: Hash, net: Net, j: nat, active: seq<nat>, mac: Mac48Address)
    requires NetInv(y, hash, net) && ValidMove(y, hash, net, Transmit(j, active, mac))
    requires After(y, hash, net, Transmit(j, active, mac)).Some?
    ensures NetInv(y, hash, After(y, hash, net, Transmit(j, active, mac)).value)
  {
    hide Inv, Every, Sent, Truthful, Backed, GoodLayout, Grow, PoolsOf, Along, Behind, AcksAlong, AcksBehind;
    var node := net.nodes[j];
    var (node', t) := Transmitted(y, j, node, active, mac).value;
    if active != [] && node.st.queue.order != [] {
      SentKnown(node.st, active);
      SentKeeps(y.world, node.st, active);
      SentEvery(Pooling(hash, node.pool.Keys), node.st, active);
      SubListsHeld(node.pool.Keys, |Sent(node.st, active).value.st.neighbors|, node.reports, node.acks);
    }
    PoolsAt(net, j, node');
    TruthfulGrows(y.world, PoolsOf(net), PoolsOf(net.(nodes := net.nodes[j := node'])), node.st.known);
    NodeChanges(y, hash, net, j, node');
    if t.Some? {
      FrameIsBacked(y, hash, net, j, active, mac);
      BackedGrows(y.world, hash, PoolsOf(net), PoolsOf(net.(nodes := net.nodes[j := node'])), t.value);
      AirGrows(y, hash, net.(nodes := net.nodes[j := node']), t.value);
    } else {
      assert net.air + [] == net.air;
    }
  }

  lemma AirGrows(y: Layout, hash: Hash, net: Net, t: Transmission)
    requires NetInv(y, hash, net) && Backed(y.world, hash, PoolsOf(net), t)
    ensures NetInv(y, hash, net.(air := net.air + [t]))
  {
    hide Backed, Truthful, GoodNode, GoodLayout;
    assert PoolsOf(net.(air := net.air + [t])) == PoolsOf(net);
  }

  // ---------- Receiving ----------

  lemma OwnPidListed(w: World, j: nat, header: map<Mac48Address, PacketId>)
    requires NextHere(w, j, header)
    ensures exists m :: m in header && header[m] == OwnPid(w, j, header)
  {
  }

  /** Only what a bystander decodes need not be a native: whoever a packet is meant for checks its id,
      and a plain packet has the id in the header. */
  lemma GainIsNative(w: World, hash: Hash, p: Pools, j: nat, pool: map<PacketId, Bytes>, t: Transmission,
                     listed: seq<PacketId>)
    requires Backed(w, hash, p, t) && Gained(w, hash, j, pool, t, listed).Got?
    requires |t.natives| == 1 || NextHere(w, j, t.header)
    ensures Gained(w, hash, j, pool, t, listed).pid in t.natives
  {
    hide Decode, ReceiversHoldOthers;
    if NextHere(w, j, t.header) {
      OwnPidListed(w, j, t.header);
    }
  }

  lemma ToldIsHeld(w: World, hash: Hash, p: Pools, t: Transmission, g: Gain)
    requires Backed(w, hash, p, t)
    ensures forall pid | pid in Told(t, g) :: pid in p[w.owner(t.sender.mac)] || (g.Got? && pid == g.pid)
    ensures g.Got? ==> g.pid in Told(t, g)
  {
    hide ReceiversHoldOthers;
    var blocks := BlockPids(t.acks);
    forall pid | pid in blocks
      ensures pid in p[w.owner(t.sender.mac)]
    {
      var i :| 0 <= i < |blocks| && blocks[i] == pid;
      assert t.acks[i] in t.acks;
    }
  }

  /** What goes on record is true if and only if the sender holds all of it. */
  lemma LearnsTruth(w: World, p: Pools, known: PacketInfo, known': PacketInfo, told: seq<PacketId>, mac: Mac48Address)
    requires Truthful(w, p, known) && Learns(known, known', told, mac)
    ensures Truthful(w, p, known') <==> forall pid | pid in told :: HoldsAt(w, p, mac, pid)
  {
    hide GetItem, HoldsAt;
    if Truthful(w, p, known') {
      forall pid | pid in told
        ensures HoldsAt(w, p, mac, pid)
      {
        assert GetItem(known', pid, mac);
      }
    }
  }

  /** The node after a frame: its state keeps its invariant, its pool has the packet gained, and it has
      on record that the sender holds what it was told. */
  lemma ReceivedNode(y: Layout, hash: Hash, j: nat, node: Node, t: Transmission, mac: Mac48Address,
                     listed: seq<PacketId>)
    requires GoodNode(y.world, hash, node) && Sender(y.world, t.sender)
    requires !Dropped(y.world, j, t, mac) && !Gained(y.world, hash, j, node.pool, t, listed).Wrong?
    ensures var g := Gained(y.world, hash, j, node.pool, t, listed);
            var o := Received(y, hash, j, node, t, mac, listed);
            && o.Some? && GoodNode(y.world, hash, o.value) && o.value == WithGain(node, o.value.st, t, g)
            && o.value.st.queue == node.st.queue && o.value.st.devices == node.st.devices
            && o.value.pool.Keys == node.pool.Keys + (if g.Got? then {g.pid} else {})
            && exists m :: y.world.owner(m) == y.world.owner(t.sender.mac)
                 && Learns(node.st.known, o.value.st.known, Told(t, g), m)
  {
    hide Inv, Every, Told, Addressed, Gained, Dropped, Recognized, Acknowledged, Recorded, Learns, Sender, Pooling;
    var g := Gained(y.world, hash, j, node.pool, t, listed);
    var acks := Addressed(t.acks, y.home(j));
    FrameReceivedKeeps(y.world, node.st, t.sender, acks, Told(t, g));
    var st := FrameReceived(node.st, t.sender, acks, Told(t, g)).value;
    AcknowledgedEvery(Pooling(hash, node.pool.Keys), node.st.rtqueue, acks);
    PoolingGrows(hash, node.pool.Keys, WithGain(node, st, t, g).pool.Keys, st);
  }

  /** The condition under which a reception leaves what is on record true. */
  ghost predicate HeldBySender(y: Layout, hash: Hash, net: Net, j: nat, t: Transmission, mac: Mac48Address,
                               listed: seq<PacketId>)
    requires j < |net.nodes|
  {
    var g := Gained(y.world, hash, j, net.nodes[j].pool, t, listed);
    !Dropped(y.world, j, t, mac) && g.Got? ==> HoldsAt(y.world, PoolsOf(net), t.sender.mac, g.pid)
  }

  lemma SenderPoolStays(net: Net, j: nat, node: Node, i: nat)
    requires j < |net.nodes| && i < |net.nodes| && i != j
    ensures PoolsOf(net.(nodes := net.nodes[j := node]))[i] == PoolsOf(net)[i]
  {
  }

  lemma ToldIff(w: World, hash: Hash, p: Pools, p': Pools, t: Transmission, g: Gain, m: Mac48Address)
    requires Backed(w, hash, p, t) && w.owner(m) == w.owner(t.sender.mac) && |p'| == |p|
    requires p'[w.owner(t.sender.mac)] == p[w.owner(t.sender.mac)]
    ensures (forall pid | pid in Told(t, g) :: HoldsAt(w, p', m, pid))
              <==> (g.Got? ==> HoldsAt(w, p, t.sender.mac, g.pid))
  {
    hide Told, ReceiversHoldOthers;
    ToldIsHeld(w, hash, p, t, g);
  }

  /** A reception leaves what is on record true if and only if the packet the node gets, if any, is one
      its sender holds. */
  lemma DeliverKeepsIff(y: Layout, hash: Hash, net: Net, j: nat, k: nat, mac: Mac48Address, listed: seq<PacketId>)
    requires NetInv(y, hash, net) && ValidMove(y, hash, net, Deliver(j, k, mac, listed))
    requires After(y, hash, net, Deliver(j, k, mac, listed)).Some?
    ensures NetInv(y, hash, After(y, hash, net, Deliver(j, k, mac, listed)).value) <==>
            HeldBySender(y, hash, net, j, net.air[k], mac, listed)
  {
    hide GoodNode, GoodLayout, Truthful, Grow, PoolsOf, Gained, Backed, FrameReceived, Told, Learns, HoldsAt, WithGain;
    var t, node := net.air[k], net.nodes[j];
    var node' := Received(y, hash, j, node, t, mac, listed).value;
    var net' := net.(nodes := net.nodes[j := node']);
    if Dropped(y.world, j, t, mac) {
      assert net.nodes[j := node] == net.nodes;
    } else {
      var g := Gained(y.world, hash, j, node.pool, t, listed);
      SenderIsTrue(y.world, hash, PoolsOf(net), t);
      ReceivedNode(y, hash, j, node, t, mac, listed);
      var m :| y.world.owner(m) == y.world.owner(t.sender.mac) && Learns(node.st.known, node'.st.known, Told(t, g), m);
      PoolsAt(net, j, node');
      BackedSender(y.world, hash, PoolsOf(net), t);
      SenderPoolStays(net, j, node', y.world.owner(t.sender.mac));
      TruthfulGrows(y.world, PoolsOf(net), PoolsOf(net'), node.st.known);
      LearnsTruth(y.world, PoolsOf(net'), node.st.known, node'.st.known, Told(t, g), m);
      ToldIff(y.world, hash, PoolsOf(net), PoolsOf(net'), t, g, m);
      if Truthful(y.world, PoolsOf(net'), node'.st.known) {
        NodeChanges(y, hash, net, j, node');
      } else {
        assert net'.nodes[j] == node';
      }
    }
  }

  lemma SenderIsTrue(w: World, hash: Hash, p: Pools, t: Transmission)
    requires Backed(w, hash, p, t)
    ensures Sender(w, t.sender)
  {
    hide ReceiversHoldOthers;
  }

  lemma BackedSender(w: World, hash: Hash, p: Pools, t: Transmission)
    requires Backed(w, hash, p, t)
    ensures w.owner(t.sender.mac) < |p|
  {
  }

  lemma NativeIsHeld(w: World, hash: Hash, p: Pools, t: Transmission, pid: PacketId)
    requires Backed(w, hash, p, t) && pid in t.natives
    ensures HoldsAt(w, p, t.sender.mac, pid)
  {
    hide ReceiversHoldOthers;
  }

  lemma SomeNative(w: World, hash: Hash, p: Pools, t: Transmission)
    requires Backed(w, hash, p, t)
    ensures |t.natives| >= 1
  {
    hide ReceiversHoldOthers;
  }

  /** Every move but a reception leaves everything on record true, unless it stops its node. */
  lemma OwnMoveKeeps(y: Layout, hash: Hash, net: Net, move: Move)
    requires NetInv(y, hash, net) && ValidMove(y, hash, net, move) && After(y, hash, net, move).Some? && !move.Deliver?
    ensures NetInv(y, hash, After(y, hash, net, move).value)
  {
    hide NetInv, ValidMove, After;
    match move {
      case Accept(j, e) => AcceptKeeps(y, hash, net, j, e);
      case Transmit(j, active, mac) => TransmitKeeps(y, hash, net, j, active, mac);
      case Retry(j) => RetryKeeps(y, hash, net, j);
      case Greet(j, pairs) => GreetKeeps(y, hash, net, j, pairs);
    }
  }

  lemma OnAir(y: Layout, hash: Hash, net: Net, move: Move)
    requires NetInv(y, hash, net) && ValidMove(y, hash, net, move) && move.Deliver?
    ensures move.j < |net.nodes| && move.k < |net.air| && Backed(y.world, hash, PoolsOf(net), net.air[move.k])
  {
    hide Backed, GoodNode, Truthful;
    assert net.air[move.k] in net.air;
  }

  // ---------- Whole runs of the network ----------

  ghost predicate ValidMoves(y: Layout, hash: Hash, net: Net, moves: seq<Move>)
    decreases |moves|
  {
    moves != [] ==>
      && ValidMove(y, hash, net, moves[0])
      && var o := After(y, hash, net, moves[0]);
      o.Some? ==> ValidMoves(y, hash, o.value, moves[1..])
  }

  /** None if some node stopped. */
  ghost function Ran(y: Layout, hash: Hash, net: Net, moves: seq<Move>): Option<Net>
    requires ValidMoves(y, hash, net, moves)
    decreases |moves|
  {
    if moves == [] then Some(net)
    else
      var o := After(y, hash, net, moves[0]);
      if o.None? then None else Ran(y, hash, o.value, moves[1..])
  }

  function Fresh(devices: seq<seq<nat>>): Net {
    Net(seq(|devices|, j requires 0 <= j < |devices| => Node(Start(devices[j]), map[], [], [])), [])
  }

  lemma FreshIsGood(y: Layout, hash: Hash, devices: seq<seq<nat>>)
    requires GoodLayout(y, |devices|)
    ensures NetInv(y, hash, Fresh(devices))
  {
    var net := Fresh(devices);
    forall j | 0 <= j < |net.nodes|
      ensures GoodNode(y.world, hash, net.nodes[j])
    {
      StartsIndexed(y.world, devices[j]);
    }
  }

  /** Nothing that was sent is ever taken off the air. */
  lemma AirStays(y: Layout, hash: Hash, net: Net, move: Move)
    requires ValidMove(y, hash, net, move) && After(y, hash, net, move).Some?
    ensures net.air <= After(y, hash, net, move).value.air
    ensures |After(y, hash, net, move).value.nodes| == |net.nodes|
  {
    hide Accepted, Transmitted, Received, Retransmitted, Learned, ValidStep;
  }

  lemma {:induction false} AirGrowsInRuns(y: Layout, hash: Hash, net: Net, moves: seq<Move>)
    requires ValidMoves(y, hash, net, moves) && Ran(y, hash, net, moves).Some?
    ensures net.air <= Ran(y, hash, net, moves).value.air
    decreases |moves|
  {
    hide ValidMove, After;
    if moves == [] {
    } else {
      AirStays(y, hash, net, moves[0]);
      AirGrowsInRuns(y, hash, After(y, hash, net, moves[0]).value, moves[1..]);
    }
  }

  // ---------- What a receiver finds ----------

  /** A receiver that lacks its own native finds exactly that one missing, however many natives the frame
      has and however the header lists them, unless an XOR runs off the buffer. */
  lemma ReceiverFindsItsOwn(y: Layout, hash: Hash, net: Net, t: Transmission, m: Mac48Address, listed: seq<PacketId>)
    requires NetInv(y, hash, net) && t in net.air && |t.natives| > 1 && m in t.header
    requires multiset(listed) == multiset(t.natives)
    requires y.world.owner(m) < |net.nodes| && t.header[m] !in net.nodes[y.world.owner(m)].pool
    ensures var r := Decode(listed, net.nodes[y.world.owner(m)].pool, t.packet);
            r.RunsOff? || r.code == t.header[m]
  {
    hide GoodNode, Truthful, GoodLayout, Decode;
    var pool, own := net.nodes[y.world.owner(m)].pool, t.header[m];
    assert Backed(y.world, hash, PoolsOf(net), t);
    assert own in multiset(t.natives);
    var k :| 0 <= k < |listed| && listed[k] == own;
    forall i | 0 <= i < |listed| && i != k
      ensures listed[i] in pool
    {
      ListedApart(listed, t.natives, i, k);
      assert listed[i] in multiset(listed);
      assert HoldsAt(y.world, PoolsOf(net), m, listed[i]);
    }
    if !Decode(listed, pool, t.packet).RunsOff? {
      OneMissingAll(listed, pool, k, t.packet);
    }
  }

  lemma CountOnce(s: seq<PacketId>, x: PacketId)
    requires forall a, b | 0 <= a < b < |s| :: s[a] != s[b]
    ensures multiset(s)[x] <= 1
  {
    if k :| 0 <= k < |s| && s[k] == x {
      assert s == s[..k] + [x] + s[k + 1..];
      assert x !in s[..k] && x !in s[k + 1..];
    }
  }

  lemma ListedApart(listed: seq<PacketId>, natives: seq<PacketId>, i: nat, k: nat)
    requires multiset(listed) == multiset(natives) && forall a, b | 0 <= a < b < |natives| :: natives[a] != natives[b]
    requires i < |listed| && k < |listed| && i != k
    ensures listed[i] != listed[k]
  {
    CountOnce(natives, listed[k]);
    var lo, hi := if i < k then i else k, if i < k then k else i;
    assert listed == listed[..lo] + [listed[lo]] + listed[lo + 1..hi] + [listed[hi]] + listed[hi + 1..];
  }
}
