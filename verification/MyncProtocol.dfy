/** The coding protocol of one node: its output and retransmission queues, its neighbours with their
    virtual queues, what each neighbour is known to hold, and the operations on them. */
module MyncProtocol {
  import opened Addresses
  import opened Options
  import opened XorCoding
  import opened MyncQueues
  import opened MyncNeighbors

  /** Where the source stops with a fatal error or a failed assertion, or reads invalid memory. */
  datatype Reason =
    | EmptyQueue
    | Dangling
    | DuplicateInVirtualQueue
    | NotInVirtualQueue
    | BroadcastInVirtualQueue
    | NoNeighbor
    | NexthopTaken
    | NotInQueue
    | CannotAddNeighbor
    | NoSuchChannel
    | XorRunsOff

  datatype Outcome<+T> = Fatal(reason: Reason) | Done(value: T)

  /** What is known of who holds which packet. */
  type PacketInfo = map<PacketId, seq<Mac48Address>>

  /** `devices` lists the channels of the node's own interfaces. */
  datatype Protocol = Protocol(queue: Queue, rtqueue: Queue, neighbors: seq<Neighbor>, known: PacketInfo,
    devices: seq<nat>)

  predicate GetItem(known: PacketInfo, pid: PacketId, mac: Mac48Address) {
    pid in known && mac in known[pid]
  }

  function SetItem(known: PacketInfo, pid: PacketId, mac: Mac48Address): PacketInfo {
    if pid !in known then known[pid := [mac]]
    else if mac !in known[pid] then known[pid := known[pid] + [mac]]
    else known
  }

  // ---------- Virtual queues ----------

  /** Every pointer of a virtual queue is followed to look for the id of the new entry. */
  function Pushed(cells: map<nat, Entry>, vq: seq<nat>, ptr: nat, front: bool): Outcome<seq<nat>> {
    if ptr !in cells || exists p | p in vq :: p !in cells then Fatal(Dangling)
    else if exists p | p in vq :: cells[p].pid == cells[ptr].pid then Fatal(DuplicateInVirtualQueue)
    else Done(if front then [ptr] + vq else vq + [ptr])
  }

  /** Removes the first pointer to an entry with the given id. */
  function Unlinked(cells: map<nat, Entry>, vq: seq<nat>, pid: PacketId): Outcome<seq<nat>> {
    if vq == [] then Fatal(NotInVirtualQueue)
    else if vq[0] !in cells then Fatal(Dangling)
    else if cells[vq[0]].pid == pid then Done(vq[1..])
    else
      match Unlinked(cells, vq[1..], pid)
      case Fatal(r) => Fatal(r)
      case Done(rest) => Done([vq[0]] + rest)
  }

  function WithQueue(ns: seq<Neighbor>, i: nat, vq: seq<nat>): seq<Neighbor>
    requires i < |ns|
  {
    ns[i := ns[i].(virtualQueue := vq)]
  }

  /** Puts a pointer to the queue's entry `ptr` into the virtual queue of the neighbour it is for. */
  function Linked(cells: map<nat, Entry>, ns: seq<Neighbor>, ptr: nat, dest: Mac48Address,
                  front: bool): Outcome<seq<Neighbor>> {
    var i := SearchMac(ns, dest);
    if i == |ns| then Fatal(NoNeighbor)
    else
      match Pushed(cells, ns[i].virtualQueue, ptr, front)
      case Fatal(r) => Fatal(r)
      case Done(vq) => Done(WithQueue(ns, i, vq))
  }

  // ---------- Enqueue ----------

  /** A packet from above.  An unknown destination becomes a neighbour of its own. */
  function EnqueuedData(st: Protocol, e: Entry): Outcome<Protocol>
    requires e.iface < |st.devices|
  {
    var q := EnqueuedBack(st.queue, e);
    if !Admits(st.queue, e.pid) then Done(st)
    else if e.dest == BROADCAST then Done(st.(queue := q))
    else if SearchMac(st.neighbors, e.dest) == |st.neighbors| then
      var n := Neighbor([AddressPair(ANY, e.dest, st.devices[e.iface])], [st.queue.next]);
      Done(st.(queue := q, neighbors := Added(st.neighbors, n)))
    else
      match Linked(q.cells, st.neighbors, st.queue.next, e.dest, false)
      case Fatal(r) => Fatal(r)
      case Done(ns) => Done(st.(queue := q, neighbors := ns))
  }

  function EnqueuedHello(st: Protocol, e: Entry): Protocol {
    st.(queue := EnqueuedFront(st.queue, e))
  }

  // ---------- Encode ----------

  /** A native chosen for a frame: its id and destination, the address its neighbour is recorded
      under, that neighbour's channels, and the packet itself. */
  datatype Choice = Choice(pid: PacketId, dest: Mac48Address, mac: Mac48Address, channels: seq<nat>, packet: Bytes)

  /** Encode at work: the structures it changes, the natives chosen so far, the channels that
      survive, and the frame (an entry whose packet is the coded one). */
  datatype Coding = Coding(
    queue: Queue,
    rtqueue: Queue,
    neighbors: seq<Neighbor>,
    header: map<Mac48Address, PacketId>,
    chosen: seq<Choice>,
    channels: seq<nat>,
    frame: Entry)

  /** The first own interface on a channel, or the number of interfaces. */
  function DeviceOn(devices: seq<nat>, channel: nat): (i: nat)
    ensures i <= |devices| && (i < |devices| ==> devices[i] == channel)
  {
    if devices == [] || devices[0] == channel then 0 else 1 + DeviceOn(devices[1..], channel)
  }

  lemma {:induction false} DeviceOnIsFirst(devices: seq<nat>, channel: nat)
    ensures forall j | 0 <= j < DeviceOn(devices, channel) :: devices[j] != channel
  {
    if devices != [] && devices[0] != channel {
      DeviceOnIsFirst(devices[1..], channel);
    }
  }

  /** The interface and address the frame goes out with: those of the last channel that has an active
      interface.  Each such channel must be one of the neighbour's. */
  function Interface(devices: seq<nat>, active: seq<nat>, channels: seq<nat>,
                     pairs: seq<AddressPair>): Outcome<Option<(nat, Mac48Address)>>
  {
    if channels == [] then Done(None)
    else
      match Interface(devices, active, channels[..|channels| - 1], pairs)
      case Fatal(r) => Fatal(r)
      case Done(before) =>
        var c := channels[|channels| - 1];
        if DeviceOn(devices, c) !in active then Done(before)
        else
          match MacOn(pairs, c)
          case None => Fatal(NoSuchChannel)
          case Some(mac) => Done(Some((DeviceOn(devices, c), mac)))
  }

  /** The neighbour lacks the packet at the head of its virtual queue, all neighbours chosen so far
      hold that packet, and it holds all natives chosen so far. */
  predicate Compatible(known: PacketInfo, chosen: seq<Choice>, pid: PacketId, mac: Mac48Address) {
    && !GetItem(known, pid, mac)
    && (forall c | c in chosen :: GetItem(known, pid, c.mac))
    && (forall c | c in chosen :: GetItem(known, c.pid, mac))
  }

  /** The packet at the head of neighbour i's virtual queue joins the frame, which goes out as given. */
  function Joined(original: Entry, c: Coding, i: nat, out: (nat, Mac48Address)): (r: Outcome<Coding>)
    requires i < |c.neighbors| && c.neighbors[i].virtualQueue != [] && c.neighbors[i].virtualQueue[0] in c.queue.cells
    ensures r.Done? ==> |r.value.neighbors| == |c.neighbors|
  {
    var n := c.neighbors[i];
    var v := c.queue.cells[n.virtualQueue[0]];
    if Xor(original.packet, v.packet) == [] then Fatal(XorRunsOff)
    else if v.dest in c.header then Fatal(NexthopTaken)
    else if PositionOf(c.queue.order, c.queue.cells, v.pid) == |c.queue.order| then Fatal(NotInQueue)
    else
      Done(Coding(
        Erased(c.queue, v.pid),
        if v.HitMax() then c.rtqueue else EnqueuedBack(c.rtqueue, v),
        WithQueue(c.neighbors, i, n.virtualQueue[1..]),
        c.header[v.dest := v.pid],
        c.chosen + [Choice(v.pid, v.dest, GetMac(n), ChannelsOf(n.pairs), v.packet)],
        c.channels,
        c.frame.(packet := Xor(original.packet, v.packet), iface := out.0, dest := out.1)))
  }

  /** The body of the loop over neighbours. */
  function EncodedStep(known: PacketInfo, devices: seq<nat>, active: seq<nat>, original: Entry, c: Coding,
                       i: nat): (r: Outcome<Coding>)
    requires i < |c.neighbors|
    ensures r.Done? ==> |r.value.neighbors| == |c.neighbors|
  {
    var n := c.neighbors[i];
    var mac := GetMac(n);
    if (exists x | x in c.chosen :: x.mac == mac) || n.virtualQueue == [] then Done(c)
    else if n.virtualQueue[0] !in c.queue.cells then Fatal(Dangling)
    else
      var v := c.queue.cells[n.virtualQueue[0]];
      if GetItem(known, v.pid, mac) then Done(c)
      else if v.dest == BROADCAST then Fatal(BroadcastInVirtualQueue)
      else if !Compatible(known, c.chosen, v.pid, mac) then Done(c)
      else
        var common := Intersection(c.channels, ChannelsOf(n.pairs));
        var channels := if common == [] then c.channels else common;
        match Interface(devices, active, channels, n.pairs)
        case Fatal(r) => Fatal(r)
        case Done(None) => Done(c.(channels := channels))
        case Done(Some(out)) => if common == [] then Done(c) else Joined(original, c.(channels := channels), i, out)
  }

  /** The loop over neighbours from number i on. */
  function EncodedFrom(known: PacketInfo, devices: seq<nat>, active: seq<nat>, original: Entry, c: Coding,
                       i: nat): Outcome<Coding>
    requires i <= |c.neighbors|
    decreases |c.neighbors| - i
  {
    if i == |c.neighbors| then Done(c)
    else
      match EncodedStep(known, devices, active, original, c, i)
      case Fatal(r) => Fatal(r)
      case Done(c') => EncodedFrom(known, devices, active, original, c', i + 1)
  }

  /** Where Encode starts, for a packet to neighbour n that has already left the queue. */
  function CodingStart(st: Protocol, e: Entry, n: Neighbor): Coding {
    Coding(st.queue, st.rtqueue, st.neighbors, map[e.dest := e.pid],
           [Choice(e.pid, e.dest, GetMac(n), ChannelsOf(n.pairs), e.packet)], ChannelsOf(n.pairs), e)
  }

  /** All of Encode: the loop, and the original's place in the retransmission queue if it was coded. */
  function Encoded(st: Protocol, active: seq<nat>, e: Entry, n: Neighbor): Outcome<Coding> {
    match EncodedFrom(st.known, st.devices, active, e, CodingStart(st, e, n), 0)
    case Fatal(r) => Fatal(r)
    case Done(c) =>
      if |c.chosen| > 1 && !e.HitMax() then Done(c.(rtqueue := EnqueuedBack(c.rtqueue, e))) else Done(c)
  }

  // ---------- Sending ----------

  /** A frame handed to an interface: its natives by destination, and the (coded) packet. */
  datatype Frame = Frame(iface: nat, header: map<Mac48Address, PacketId>, pids: seq<PacketId>, packet: Bytes)

  datatype Sending = Sending(st: Protocol, frame: Option<Frame>)

  /** Sends a packet uncoded, or puts it back in front if its interface is not active. */
  function SentPlain(st: Protocol, active: seq<nat>, e: Entry): (r: Outcome<Sending>)
    ensures r.Done? ==> r.value.st.devices == st.devices
  {
    if e.iface in active then Done(Sending(st, Some(Frame(e.iface, map[e.dest := e.pid], [e.pid], e.packet))))
    else
      var q := EnqueuedFront(st.queue, e);
      if e.dest == BROADCAST then Done(Sending(st.(queue := q), None))
      else if q.order == [] then Fatal(EmptyQueue)
      else
        match Linked(q.cells, st.neighbors, q.order[0], e.dest, true)
        case Fatal(r) => Fatal(r)
        case Done(ns) => Done(Sending(st.(queue := q, neighbors := ns), None))
  }

  function Pids(chosen: seq<Choice>): seq<PacketId> {
    seq(|chosen|, i requires 0 <= i < |chosen| => chosen[i].pid)
  }

  /** Sends a unicast packet that has left the queue and its virtual queue, coded if possible. */
  function SentUnicast(st: Protocol, active: seq<nat>, e: Entry, n: Neighbor): (r: Outcome<Sending>)
    ensures r.Done? ==> r.value.st.devices == st.devices
  {
    if st.queue.order == [] then SentPlain(st, active, e)
    else
      match Encoded(st, active, e, n)
      case Fatal(r) => Fatal(r)
      case Done(c) =>
        if |c.chosen| == 1 then SentPlain(st, active, e)
        else
          Done(Sending(st.(queue := c.queue, rtqueue := c.rtqueue, neighbors := c.neighbors),
                       Some(Frame(c.frame.iface, c.header, Pids(c.chosen), c.frame.packet))))
  }

  function Sent(st: Protocol, active: seq<nat>): (r: Outcome<Sending>)
    ensures r.Done? ==> r.value.st.devices == st.devices
  {
    if st.queue.order == [] then Fatal(EmptyQueue)
    else if st.queue.order[0] !in st.queue.cells then Fatal(Dangling)
    else
      var e := st.queue.cells[st.queue.order[0]];
      var q := Dequeued(st.queue);
      if e.hello then Done(Sending(if e.iface in active then st.(queue := q) else st, None))
      else if e.dest == BROADCAST then SentPlain(st.(queue := q), active, e)
      else
        var i := SearchMac(st.neighbors, e.dest);
        if i == |st.neighbors| then Fatal(NoNeighbor)
        else
          match Unlinked(st.queue.cells, st.neighbors[i].virtualQueue, e.pid)
          case Fatal(r) => Fatal(r)
          case Done(vq) =>
            var st1 := st.(queue := q, neighbors := WithQueue(st.neighbors, i, vq));
            if GetItem(st.known, e.pid, GetMac(st.neighbors[i])) then Done(Sending(st1, None))
            else SentUnicast(st1, active, e, st1.neighbors[i])
  }

  // ---------- Retransmission ----------

  /** Puts a packet in front of the output queue and, if there was room, of its virtual queue. */
  function Requeued(st: Protocol, e: Entry): Outcome<Protocol> {
    var st1 := st.(queue := EnqueuedFront(st.queue, e));
    if !Admits(st.queue, e.pid) then Done(st1)
    else
      match Linked(st1.queue.cells, st.neighbors, st.queue.next, e.dest, true)
      case Fatal(r) => Fatal(r)
      case Done(ns) => Done(st1.(neighbors := ns))
  }

  function Retransmitted(st: Protocol): Outcome<Protocol> {
    if st.rtqueue.order == [] then Done(st)
    else if st.rtqueue.order[0] !in st.rtqueue.cells then Fatal(Dangling)
    else
      var e := st.rtqueue.cells[st.rtqueue.order[0]];
      Requeued(st.(rtqueue := Dequeued(st.rtqueue)), e.(retry := (e.retry + 1) % 256))
  }

  // ---------- Learning addresses ----------

  /** Moves all pointers of one virtual queue to the end of another. */
  function MovedOver(cells: map<nat, Entry>, from: seq<nat>, to: seq<nat>): Outcome<seq<nat>> {
    if from == [] then Done(to)
    else
      match Pushed(cells, to, from[0], false)
      case Fatal(r) => Fatal(r)
      case Done(to') => MovedOver(cells, from[1..], to')
  }

  /** A table, and the neighbour being assembled from a hello. */
  datatype Assembly = Assembly(neighbors: seq<Neighbor>, assembled: Neighbor)

  /** Takes neighbour i, if there is one, out of the table and its virtual queue into the new one. */
  function Absorbed(cells: map<nat, Entry>, a: Assembly, i: nat): Outcome<Assembly>
    requires i <= |a.neighbors|
  {
    if i == |a.neighbors| then Done(a)
    else
      match MovedOver(cells, a.neighbors[i].virtualQueue, a.assembled.virtualQueue)
      case Fatal(r) => Fatal(r)
      case Done(vq) => Done(Assembly(Without(a.neighbors, i), a.assembled.(virtualQueue := vq)))
  }

  function LearnedPair(cells: map<nat, Entry>, a: Assembly, t: AddressPair): Outcome<Assembly> {
    match Absorbed(cells, a, SearchMac(a.neighbors, t.mac))
    case Fatal(r) => Fatal(r)
    case Done(b) =>
      match Absorbed(cells, b, SearchIp(b.neighbors, t.ip))
      case Fatal(r) => Fatal(r)
      case Done(c) => Done(c.(assembled := WithTrinity(c.assembled, t)))
  }

  function LearnedPairs(cells: map<nat, Entry>, a: Assembly, pairs: seq<AddressPair>): Outcome<Assembly>
    decreases |pairs|
  {
    if pairs == [] then Done(a)
    else
      match LearnedPair(cells, a, pairs[0])
      case Fatal(r) => Fatal(r)
      case Done(b) => LearnedPairs(cells, b, pairs[1..])
  }

  /** A hello replaces whatever was known of its sender.  Its length is an eight-bit number. */
  function LearnedTable(cells: map<nat, Entry>, ns: seq<Neighbor>, pairs: seq<AddressPair>): Outcome<seq<Neighbor>> {
    var listed := pairs[..|pairs| % 256];
    if listed == [] then Done(ns)
    else
      match LearnedPairs(cells, Assembly(ns, Neighbor([], [])), listed)
      case Fatal(r) => Fatal(r)
      case Done(a) => Done(Added(a.neighbors, a.assembled))
  }

  function Learned(st: Protocol, pairs: seq<AddressPair>): Outcome<Protocol> {
    match LearnedTable(st.queue.cells, st.neighbors, pairs)
    case Fatal(r) => Fatal(r)
    case Done(ns) => Done(st.(neighbors := ns))
  }

  /** The neighbour a frame came from, by the sender's least IP address and the MAC address and
      channel of the interface used: found, extended, merged from two, or new. */
  function Recognized(cells: map<nat, Entry>, ns: seq<Neighbor>, t: AddressPair): Outcome<seq<Neighbor>> {
    var i, j := SearchIp(ns, t.ip), SearchMac(ns, t.mac);
    if i < |ns| && j == |ns| then Done(ns[i := ns[i].(pairs := ns[i].pairs + [t])])
    else if i == |ns| && j < |ns| then Done(ns[j := WithTrinity(ns[j], t)])
    else if i < |ns| && i == j then Done(ns)
    else if i < |ns| then
      var other := WithTrinity(ns[j], t);
      match MovedOver(cells, other.virtualQueue, ns[i].virtualQueue)
      case Fatal(r) => Fatal(r)
      case Done(vq) => Done(Without(ns[i := Neighbor(ns[i].pairs + other.pairs, vq)], j))
    else
      var n := Neighbor([t], []);
      if exists other | other in ns :: ShareAddress(n, other) then Fatal(CannotAddNeighbor) else Done(ns + [n])
  }

  /** The parts of Recv that change this state for a frame with data: acknowledged packets leave the
      retransmission queue, and what the sender holds is recorded under its least MAC address. */
  function Acknowledged(q: Queue, acks: seq<PacketId>): Queue
    decreases |acks|
  {
    if acks == [] then q else Acknowledged(Erased(q, acks[0]), acks[1..])
  }

  function Recorded(known: PacketInfo, pids: seq<PacketId>, mac: Mac48Address): PacketInfo
    decreases |pids|
  {
    if pids == [] then known else Recorded(SetItem(known, pids[0], mac), pids[1..], mac)
  }

  function FrameReceived(st: Protocol, t: AddressPair, acks: seq<PacketId>, held: seq<PacketId>): Outcome<Protocol> {
    match Recognized(st.queue.cells, st.neighbors, t)
    case Fatal(r) => Fatal(r)
    case Done(ns) =>
      var i := SearchIp(ns, t.ip);
      if i == |ns| then Fatal(NoNeighbor)
      else
        Done(st.(neighbors := ns, rtqueue := Acknowledged(st.rtqueue, acks),
          known := Recorded(st.known, held, GetMac(ns[i]))))
  }

  // ---------- Steps ----------

  datatype Step =
    | Enqueue(entry: Entry)
    | Send(active: seq<nat>)
    | Retransmit
    | HearHello(pairs: seq<AddressPair>)
    | HearFrame(sender: AddressPair, acks: seq<PacketId>, held: seq<PacketId>)

  /** Sends only if some interface is active and a packet is queued. */
  function TrySent(st: Protocol, active: seq<nat>): (r: Outcome<Sending>)
    ensures r.Done? ==> r.value.st.devices == st.devices
  {
    if active == [] || st.queue.order == [] then Done(Sending(st, None)) else Sent(st, active)
  }

  predicate OwnInterface(devices: seq<nat>, step: Step) {
    step.Enqueue? && !step.entry.hello ==> step.entry.iface < |devices|
  }

  /** A step from outside; only Send can put a frame on an interface. */
  function Stepped(st: Protocol, step: Step): (r: Outcome<Sending>)
    requires OwnInterface(st.devices, step)
    ensures r.Done? ==> r.value.st.devices == st.devices
  {
    match step
    case Send(active) => TrySent(st, active)
    case Enqueue(e) => if e.hello then Done(Sending(EnqueuedHello(st, e), None)) else Unsent(EnqueuedData(st, e))
    case Retransmit => Unsent(Retransmitted(st))
    case HearHello(pairs) => Unsent(Learned(st, pairs))
    case HearFrame(sender, acks, held) => Unsent(FrameReceived(st, sender, acks, held))
  }

  function Unsent(o: Outcome<Protocol>): Outcome<Sending> {
    match o
    case Fatal(r) => Fatal(r)
    case Done(st) => Done(Sending(st, None))
  }

  // ---------- Runs ----------

  /** The state after a run, and the frames sent during it. */
  datatype History = History(st: Protocol, frames: seq<Frame>)

  function Sends(o: Option<Frame>): seq<Frame> {
    if o.None? then [] else [o.value]
  }

  function Played(st: Protocol, steps: seq<Step>): (r: Outcome<History>)
    requires forall step | step in steps :: OwnInterface(st.devices, step)
    decreases |steps|
  {
    if steps == [] then Done(History(st, []))
    else
      match Stepped(st, steps[0])
      case Fatal(r) => Fatal(r)
      case Done(s) =>
        match Played(s.st, steps[1..])
        case Fatal(r) => Fatal(r)
        case Done(h) => Done(History(h.st, Sends(s.frame) + h.frames))
  }
}
