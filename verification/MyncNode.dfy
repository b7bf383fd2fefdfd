/** The coding layer of a node as objects that are updated in place.  Each method does what the
    function of the same step says, so what holds of the functions holds of the objects. */
module MyncNode {
  import opened Addresses
  import opened Options
  import opened XorCoding
  import opened MyncQueues
  import opened MyncNeighbors
  import opened MyncProtocol
  import opened MyncNeighborTable

  // ---------- Who holds which packet ----------

  class MyncPacketInfo {
    var packetInfo: PacketInfo

    constructor ()
      ensures packetInfo == map[]
    {
      packetInfo := map[];
    }

    method Holds(pid: PacketId, mac: Mac48Address) returns (holds: bool)
      ensures holds == GetItem(packetInfo, pid, mac)
    {
      holds := pid in packetInfo && mac in packetInfo[pid];
    }

    method Record(pid: PacketId, mac: Mac48Address)
      modifies this
      ensures packetInfo == SetItem(old(packetInfo), pid, mac)
    {
      if pid !in packetInfo {
        packetInfo := packetInfo[pid := [mac]];
      } else if mac !in packetInfo[pid] {
        packetInfo := packetInfo[pid := packetInfo[pid] + [mac]];
      }
    }
  }

  // ---------- The loops of Encode ----------

  lemma {:induction false} InterfaceStops(devices: seq<nat>, active: seq<nat>, channels: seq<nat>,
                                          pairs: seq<AddressPair>, k: nat)
    requires k <= |channels| && Interface(devices, active, channels[..k], pairs).Fatal?
    ensures Interface(devices, active, channels, pairs) == Interface(devices, active, channels[..k], pairs)
    decreases |channels|
  {
    if k < |channels| {
      var front := channels[..|channels| - 1];
      assert front[..k] == channels[..k];
      InterfaceStops(devices, active, front, pairs, k);
    } else {
      assert channels[..k] == channels;
    }
  }

  /** As long as only the original is chosen, Encode changes no structure. */
  lemma {:induction false} NothingChosen(known: PacketInfo, devices: seq<nat>, active: seq<nat>, original: Entry,
                                         c: Coding, i: nat)
    requires i <= |c.neighbors| && EncodedFrom(known, devices, active, original, c, i).Done?
    ensures var c' := EncodedFrom(known, devices, active, original, c, i).value;
            && |c.chosen| <= |c'.chosen|
            && (|c.chosen| == |c'.chosen| ==>
                  c'.queue == c.queue && c'.rtqueue == c.rtqueue && c'.neighbors == c.neighbors)
    decreases |c.neighbors| - i
  {
    hide Interface, Compatible;
    if i == |c.neighbors| {
    } else {
      NothingChosen(known, devices, active, original, EncodedStep(known, devices, active, original, c, i).value, i + 1);
    }
  }

  /** What the tests on channels make of a candidate that passes those on natives. */
  ghost function Placed(devices: seq<nat>, active: seq<nat>, original: Entry, c: Coding, i: nat): Outcome<Coding>
    requires i < |c.neighbors| && c.neighbors[i].virtualQueue != [] && c.neighbors[i].virtualQueue[0] in c.queue.cells
  {
    var n := c.neighbors[i];
    var common := Intersection(c.channels, ChannelsOf(n.pairs));
    var channels := if common == [] then c.channels else common;
    match Interface(devices, active, channels, n.pairs)
    case Fatal(r) => Fatal(r)
    case Done(None) => Done(c.(channels := channels))
    case Done(Some(out)) => if common == [] then Done(c) else Joined(original, c.(channels := channels), i, out)
  }

  lemma StepPlaces(known: PacketInfo, devices: seq<nat>, active: seq<nat>, original: Entry, c: Coding, i: nat)
    requires i < |c.neighbors| && c.neighbors[i].virtualQueue != [] && c.neighbors[i].virtualQueue[0] in c.queue.cells
    requires !exists x :: x in c.chosen && x.mac == GetMac(c.neighbors[i])
    requires var v := c.queue.cells[c.neighbors[i].virtualQueue[0]];
             v.dest != BROADCAST && Compatible(known, c.chosen, v.pid, GetMac(c.neighbors[i]))
    ensures EncodedStep(known, devices, active, original, c, i) == Placed(devices, active, original, c, i)
  {
    hide Interface, Intersection, ChannelsOf, MinMac, Joined;
  }

  lemma NothingCoded(st: Protocol, active: seq<nat>, e: Entry, n: Neighbor)
    requires Encoded(st, active, e, n).Done? && |Encoded(st, active, e, n).value.chosen| == 1
    ensures var c := Encoded(st, active, e, n).value;
            c.queue == st.queue && c.rtqueue == st.rtqueue && c.neighbors == st.neighbors
  {
    hide EncodedFrom;
    NothingChosen(st.known, st.devices, active, e, CodingStart(st, e, n), 0);
  }

  lemma FrontIsLive(q: Queue)
    requires Good(q) && q.order != []
    ensures q.order[0] in q.cells
  {
  }

  /** What Encode keeps in local variables. */
  datatype Draft = Draft(header: map<Mac48Address, PacketId>, chosen: seq<Choice>, channels: seq<nat>, frame: Entry)

  class MyncNode {
    const devices: seq<nat>
    const queue: MyncQueue
    const rtqueue: MyncQueue
    const table: NeighborTable
    const info: MyncPacketInfo

    ghost predicate Valid()
      reads this, queue, rtqueue, info, table, table.neighbors
    {
      queue != rtqueue && queue.Valid() && rtqueue.Valid() && table.Valid()
    }

    ghost function View(): Protocol
      reads this, queue, rtqueue, info, table, table.neighbors
    {
      Protocol(queue.View(), rtqueue.View(), table.View(), info.packetInfo, devices)
    }

    constructor (devices: seq<nat>)
      ensures Valid() && fresh(queue) && fresh(rtqueue) && fresh(info) && fresh(table)
      ensures View() == Protocol(EMPTY, EMPTY, [], map[], devices)
    {
      this.devices := devices;
      queue := new MyncQueue();
      rtqueue := new MyncQueue();
      table := new NeighborTable();
      info := new MyncPacketInfo();
    }

    method IndexOfChannel(channel: nat) returns (index: nat)
      ensures index == DeviceOn(devices, channel)
    {
      index := 0;
      while index < |devices|
        invariant index <= |devices| && DeviceOn(devices, channel) == index + DeviceOn(devices[index..], channel)
      {
        if devices[index] == channel {
          return;
        }
        index := index + 1;
      }
    }

    /** A packet from above, or a hello of the node's own. */
    method Enqueue(e: Entry) returns (r: Outcome<()>)
      requires Valid() && (!e.hello ==> e.iface < |devices|)
      modifies queue, table, table.Members()
      ensures fresh(table.Members() - old(table.Members()))
      ensures e.hello ==> r == Done(()) && Valid() && View() == EnqueuedHello(old(View()), e)
      ensures !e.hello ==>
                match EnqueuedData(old(View()), e)
                case Fatal(reason) => r == Fatal(reason)
                case Done(st) => r == Done(()) && Valid() && View() == st
    {
      hide Admits, Linked, Good;
      if e.hello {
        var added := queue.EnqueueFront(e);
        return Done(());
      }
      var last := queue.next;
      var added := queue.EnqueueBack(e);
      if !added || e.dest == BROADCAST {
        return Done(());
      }
      r := Introduce(e, last);
    }

    /** Puts the packet just queued into the virtual queue of its receiver, which may be new. */
    method Introduce(e: Entry, last: nat) returns (r: Outcome<()>)
      requires Valid() && e.iface < |devices| && last in queue.cells
      modifies table, table.Members()
      ensures fresh(table.Members() - old(table.Members()))
      ensures var n := Neighbor([AddressPair(ANY, e.dest, devices[e.iface])], [last]);
              match if SearchMac(old(table.View()), e.dest)
                == |old(table.View())| then Done(Added(old(table.View()), n))
                    else Linked(queue.cells, old(table.View()), last, e.dest, false)
              case Fatal(reason) => r == Fatal(reason)
              case Done(ns) => r == Done(()) && table.Valid() && table.View() == ns
    {
      hide Linked, Added;
      var pos := table.SearchNeighborByMAC(e.dest);
      if pos == |table.neighbors| {
        table.AddReceiver(queue.cells, AddressPair(ANY, e.dest, devices[e.iface]), last);
        return Done(());
      } else {
        r := table.LinkEntry(queue.cells, last, e.dest, false);
      }
    }

    method Retransmit() returns (r: Outcome<()>)
      requires Valid()
      modifies queue, rtqueue, table.Members()
      ensures table.neighbors == old(table.neighbors)
      ensures match Retransmitted(old(View()))
              case Fatal(reason) => r == Fatal(reason)
              case Done(st) => r == Done(()) && Valid() && View() == st
    {
      hide Dequeued, Requeued, Good;
      if rtqueue.order == [] {
        return Done(());
      }
      FrontIsLive(rtqueue.View());
      r := RetransmitFront();
    }

    method RetransmitFront() returns (r: Outcome<()>)
      requires Valid() && rtqueue.order != [] && rtqueue.order[0] in rtqueue.cells
      modifies queue, rtqueue, table.Members()
      ensures table.neighbors == old(table.neighbors)
      ensures var e := old(rtqueue.cells[rtqueue.order[0]]);
              match Requeued(old(View().(rtqueue := Dequeued(rtqueue.View()))), e.(retry := (e.retry + 1) % 256))
              case Fatal(reason) => r == Fatal(reason)
              case Done(st) => r == Done(()) && Valid() && View() == st
    {
      hide Dequeued, Requeued, Good;
      ghost var queued, ns := queue.View(), table.View();
      var e := rtqueue.Dequeue();
      assert queue.View() == queued && table.View() == ns;
      r := Requeue(e.(retry := (e.retry + 1) % 256));
    }

    method Requeue(e: Entry) returns (r: Outcome<()>)
      requires Valid()
      modifies queue, table.Members()
      ensures table.neighbors == old(table.neighbors)
      ensures match Requeued(old(View()), e)
              case Fatal(reason) => r == Fatal(reason)
              case Done(st) => r == Done(()) && Valid() && View() == st
    {
      hide Admits, Linked, Good;
      var last := queue.next;
      var added := queue.EnqueueFront(e);
      if !added {
        return Done(());
      }
      r := table.LinkEntry(queue.cells, last, e.dest, true);
    }

    method HearHello(pairs: seq<AddressPair>) returns (r: Outcome<()>)
      requires Valid()
      modifies table, table.Members()
      ensures fresh(table.Members() - old(table.Members()))
      ensures match Learned(old(View()), pairs)
              case Fatal(reason) => r == Fatal(reason)
              case Done(st) => r == Done(()) && Valid() && View() == st
    {
      hide LearnedTable;
      r := table.NeighborLearn(queue.cells, pairs);
    }

    /** A frame with data: who sent it, the packets it acknowledges, and those its sender holds. */
    method HearFrame(sender: AddressPair, acks: seq<PacketId>, held: seq<PacketId>) returns (r: Outcome<()>)
      requires Valid()
      modifies rtqueue, info, table, table.Members()
      ensures fresh(table.Members() - old(table.Members()))
      ensures match FrameReceived(old(View()), sender, acks, held)
              case Fatal(reason) => r == Fatal(reason)
              case Done(st) => r == Done(()) && Valid() && View() == st
    {
      hide Recognized, Good, MinMac, Acknowledged, Recorded;
      var found := table.SMNeighbors(queue.cells, sender);
      if found.Fatal? {
        return Fatal(found.reason);
      }
      Acknowledge(acks);
      var mac := table.neighbors[found.value].GetMAC();
      RecordAll(held, mac);
      return Done(());
    }

    method Acknowledge(acks: seq<PacketId>)
      requires Valid()
      modifies rtqueue
      ensures Valid() && rtqueue.View() == Acknowledged(old(rtqueue.View()), acks)
    {
      for i := 0 to |acks|
        invariant Valid()
        invariant Acknowledged(rtqueue.View(), acks[i..]) == Acknowledged(old(rtqueue.View()), acks)
      {
        hide Erased;
        assert acks[i..][1..] == acks[i + 1..];
        var erased := rtqueue.Erase(acks[i]);
      }
    }

    method RecordAll(held: seq<PacketId>, mac: Mac48Address)
      modifies info
      ensures info.packetInfo == Recorded(old(info.packetInfo), held, mac)
    {
      for i := 0 to |held|
        invariant Recorded(info.packetInfo, held[i..], mac) == Recorded(old(info.packetInfo), held, mac)
      {
        hide SetItem;
        assert held[i..][1..] == held[i + 1..];
        info.Record(held[i], mac);
      }
    }

    // ---------- Encode ----------

    ghost function Coded(d: Draft): Coding
      reads this, queue, rtqueue, info, table, table.neighbors
    {
      Coding(queue.View(), rtqueue.View(), table.View(), d.header, d.chosen, d.channels, d.frame)
    }

    method PickInterface(active: seq<nat>, channels: seq<nat>,
                         n: MyncNeighbor) returns (r: Outcome<Option<(nat, Mac48Address)>>)
      ensures r == Interface(devices, active, channels, n.pairs)
    {
      r := Done(None);
      for k := 0 to |channels|
        invariant r.Done? && r == Interface(devices, active, channels[..k], n.pairs)
      {
        assert channels[..k + 1][..k] == channels[..k];
        var index := IndexOfChannel(channels[k]);
        if index in active {
          var mac := n.Index(channels[k]);
          if mac == None {
            InterfaceStops(devices, active, channels, n.pairs, k + 1);
            return Fatal(NoSuchChannel);
          }
          r := Done(Some((index, mac.value)));
        }
      }
      assert channels[..|channels|] == channels;
    }

    /** The two inner loops: all chosen neighbours hold the new packet, and the new neighbour holds all
        chosen natives. */
    method Capable(chosen: seq<Choice>, pid: PacketId, mac: Mac48Address) returns (capable: bool)
      requires !GetItem(info.packetInfo, pid, mac)
      ensures capable == Compatible(info.packetInfo, chosen, pid, mac)
    {
      for k := 0 to |chosen|
        invariant forall c | c in chosen[..k] :: GetItem(info.packetInfo, pid, c.mac)
      {
        var holds := info.Holds(pid, chosen[k].mac);
        if !holds {
          return false;
        }
      }
      for k := 0 to |chosen|
        invariant forall c | c in chosen[..k] :: GetItem(info.packetInfo, c.pid, mac)
      {
        var holds := info.Holds(chosen[k].pid, mac);
        if !holds {
          return false;
        }
      }
      assert chosen[..|chosen|] == chosen;
      return true;
    }

    /** The body of the loop over neighbours. */
    method TryNeighbor(active: seq<nat>, original: Entry, d: Draft, i: nat) returns (r: Outcome<Draft>)
      requires Valid() && i < |table.neighbors|
      modifies queue, rtqueue, table.Members()
      ensures table.neighbors == old(table.neighbors)
      ensures match EncodedStep(info.packetInfo, devices, active, original, old(Coded(d)), i)
              case Fatal(reason) => r == Fatal(reason)
              case Done(c) => r.Done? && Valid() && Coded(r.value) == c
    {
      hide Compatible, Placed, MinMac, Good, GetItem, Interface, Intersection, Joined, ChannelsOf;
      var n := table.neighbors[i];
      var mac := n.GetMAC();
      if (exists c | c in d.chosen :: c.mac == mac) || n.virtualQueue == [] {
        return Done(d);
      }
      if n.virtualQueue[0] !in queue.cells {
        return Fatal(Dangling);
      }
      var v := queue.cells[n.virtualQueue[0]];
      var holds := info.Holds(v.pid, mac);
      if holds {
        return Done(d);
      }
      if v.dest == BROADCAST {
        return Fatal(BroadcastInVirtualQueue);
      }
      var capable := Capable(d.chosen, v.pid, mac);
      if !capable {
        return Done(d);
      }
      StepPlaces(info.packetInfo, devices, active, original, Coded(d), i);
      r := Place(active, original, d, i);
    }

    /** The tests on channels. */
    method Place(active: seq<nat>, original: Entry, d: Draft, i: nat) returns (r: Outcome<Draft>)
      requires Valid() && i < |table.neighbors|
      requires table.neighbors[i].virtualQueue != [] && table.neighbors[i].virtualQueue[0] in queue.cells
      modifies queue, rtqueue, table.Members()
      ensures table.neighbors == old(table.neighbors)
      ensures match Placed(devices, active, original, old(Coded(d)), i)
              case Fatal(reason) => r == Fatal(reason)
              case Done(c) => r.Done? && Valid() && Coded(r.value) == c
    {
      hide Interface, Intersection, ChannelsOf, MinMac, Good, Joined;
      var n := table.neighbors[i];
      var tempChannel := n.GetChannels();
      var intersection := Intersection(d.channels, tempChannel);
      var channels := if intersection == [] then d.channels else intersection;
      var found := PickInterface(active, channels, n);
      if found.Fatal? {
        return Fatal(found.reason);
      }
      if intersection == [] || found.value == None {
        return Done(d.(channels := channels));
      }
      r := Join(original, d.(channels := channels), i, found.value.value);
    }

    /** The packet at the head of neighbour i's virtual queue joins the frame. */
    method Join(original: Entry, d: Draft, i: nat, out: (nat, Mac48Address)) returns (r: Outcome<Draft>)
      requires Valid() && i < |table.neighbors|
      requires table.neighbors[i].virtualQueue != [] && table.neighbors[i].virtualQueue[0] in queue.cells
      modifies queue, rtqueue, table.Members()
      ensures table.neighbors == old(table.neighbors)
      ensures match Joined(original, old(Coded(d)), i, out)
              case Fatal(reason) => r == Fatal(reason)
              case Done(c) => r.Done? && Valid() && Coded(r.value) == c
    {
      hide Good, Erased, EnqueuedBack, MinMac, ChannelsOf, Xor, PositionOf;
      var n := table.neighbors[i];
      var v := queue.cells[n.virtualQueue[0]];
      var mac := n.GetMAC();
      var channels := n.GetChannels();
      if Xor(original.packet, v.packet) == [] {
        return Fatal(XorRunsOff);
      }
      XorDefinedIff(original.packet, v.packet);
      var packet := XOR(original.packet, v.packet);
      if v.dest in d.header {
        return Fatal(NexthopTaken);
      }
      var erased := Transfer(i);
      if !erased {
        return Fatal(NotInQueue);
      }
      return Done(Draft(d.header[v.dest := v.pid], d.chosen + [Choice(v.pid, v.dest, mac, channels, v.packet)],
          d.channels,
                        d.frame.(packet := packet, iface := out.0, dest := out.1)));
    }

    /** Moves the packet at the head of neighbour i's virtual queue from the output queue to the
        retransmission queue, unless it has been sent often enough. */
    method Transfer(i: nat) returns (erased: bool)
      requires Valid() && i < |table.neighbors|
      requires table.neighbors[i].virtualQueue != [] && table.neighbors[i].virtualQueue[0] in queue.cells
      modifies queue, rtqueue, table.neighbors[i]
      ensures Valid() && table.neighbors == old(table.neighbors)
      ensures var v := old(queue.cells[table.neighbors[i].virtualQueue[0]]);
              && erased == (PositionOf(old(queue.order), old(queue.cells), v.pid) < |old(queue.order)|)
              && queue.View() == Erased(old(queue.View()), v.pid)
              && rtqueue.View() == (if v.HitMax() then old(rtqueue.View()) else EnqueuedBack(old(rtqueue.View()), v))
              && table.View() == WithQueue(old(table.View()), i, old(table.neighbors[i].virtualQueue)[1..])
    {
      hide Good, Erased, EnqueuedBack, PositionOf;
      var v := queue.cells[table.neighbors[i].virtualQueue[0]];
      if !v.HitMax() {
        var waiting := rtqueue.EnqueueBack(v);
      }
      erased := queue.Erase(v.pid);
      var ptr := table.neighbors[i].RemoveFront();
    }

    /** For a packet to neighbour n that has left the queue: draws up a frame with what can be coded. */
    method Encode(active: seq<nat>, e: Entry, n: MyncNeighbor) returns (r: Outcome<Draft>)
      requires Valid()
      modifies queue, rtqueue, table.Members()
      ensures table.neighbors == old(table.neighbors)
      ensures match Encoded(old(View()), active, e, old(n.View()))
              case Fatal(reason) => r == Fatal(reason)
              case Done(c) => r.Done? && Valid() && Coded(r.value) == c
    {
      hide EncodedFrom, EnqueuedBack, Good, MinMac, ChannelsOf;
      r := EncodeAll(active, e, n);
      if r.Done? && |r.value.chosen| > 1 && !e.HitMax() {
        var waiting := rtqueue.EnqueueBack(e);
      }
    }

    method EncodeAll(active: seq<nat>, e: Entry, n: MyncNeighbor) returns (r: Outcome<Draft>)
      requires Valid()
      modifies queue, rtqueue, table.Members()
      ensures table.neighbors == old(table.neighbors)
      ensures match EncodedFrom(info.packetInfo, devices, active, e, CodingStart(old(View()), e, old(n.View())), 0)
              case Fatal(reason) => r == Fatal(reason)
              case Done(c) => r.Done? && Valid() && Coded(r.value) == c
    {
      hide EncodedStep, Good, MinMac, ChannelsOf;
      var mac := n.GetMAC();
      var channels := n.GetChannels();
      var d := Draft(map[e.dest := e.pid], [Choice(e.pid, e.dest, mac, channels, e.packet)], channels, e);
      ghost var start := Coded(d);
      var i := 0;
      while i < |table.neighbors|
        invariant i <= |table.neighbors| && table.neighbors == old(table.neighbors) && Valid()
        invariant EncodedFrom(info.packetInfo, devices, active, e, Coded(d), i)
                    == EncodedFrom(info.packetInfo, devices, active, e, start, 0)
      {
        var tried := TryNeighbor(active, e, d, i);
        if tried.Fatal? {
          return Fatal(tried.reason);
        }
        d := tried.value;
        i := i + 1;
      }
      return Done(d);
    }

    /** Sends a packet uncoded, or puts it back in front if its interface is not active. */
    method SendPlain(active: seq<nat>, e: Entry) returns (r: Outcome<Option<Frame>>)
      requires Valid()
      modifies queue, table.Members()
      ensures table.neighbors == old(table.neighbors)
      ensures match SentPlain(old(View()), active, e)
              case Fatal(reason) => r == Fatal(reason)
              case Done(s) => r == Done(s.frame) && Valid() && View() == s.st
    {
      hide EnqueuedFront, Linked, Good;
      if e.iface in active {
        return Done(Some(Frame(e.iface, map[e.dest := e.pid], [e.pid], e.packet)));
      }
      var added := queue.EnqueueFront(e);
      if e.dest == BROADCAST {
        return Done(None);
      }
      if queue.order == [] {
        return Fatal(EmptyQueue);
      }
      var linked := table.LinkEntry(queue.cells, queue.order[0], e.dest, true);
      r := if linked.Done? then Done(None) else Fatal(linked.reason);
    }

    method SendUnicast(active: seq<nat>, e: Entry, n: MyncNeighbor) returns (r: Outcome<Option<Frame>>)
      requires Valid()
      modifies queue, rtqueue, table.Members()
      ensures table.neighbors == old(table.neighbors)
      ensures match SentUnicast(old(View()), active, e, old(n.View()))
              case Fatal(reason) => r == Fatal(reason)
              case Done(s) => r == Done(s.frame) && Valid() && View() == s.st
    {
      hide Encoded, SentPlain, Good;
      if queue.order == [] {
        r := SendPlain(active, e);
        return;
      }
      ghost var st, before := View(), n.View();
      var coded := Encode(active, e, n);
      if coded.Fatal? {
        return Fatal(coded.reason);
      }
      var d := coded.value;
      if |d.chosen| == 1 {
        NothingCoded(st, active, e, before);
        r := SendPlain(active, e);
      } else {
        return Done(Some(Frame(d.frame.iface, d.header, Pids(d.chosen), d.frame.packet)));
      }
    }

    /** Takes the packet at the front of the output queue and sends it, if its interface is active. */
    method DoSend(active: seq<nat>) returns (r: Outcome<Option<Frame>>)
      requires Valid()
      modifies queue, rtqueue, table.Members()
      ensures table.neighbors == old(table.neighbors)
      ensures match Sent(old(View()), active)
              case Fatal(reason) => r == Fatal(reason)
              case Done(s) => r == Done(s.frame) && Valid() && View() == s.st
    {
      hide SentUnicast, SentPlain, Dequeued, Good, Unlinked, GetItem, MinMac;
      if queue.order == [] {
        return Fatal(EmptyQueue);
      }
      FrontIsLive(queue.View());
      var e := queue.cells[queue.order[0]];
      if e.hello {
        if e.iface in active {
          var sent := queue.Dequeue();
        }
        return Done(None);
      }
      if e.dest == BROADCAST {
        var front := queue.Dequeue();
        r := SendPlain(active, e);
      } else {
        r := SendToNeighbor(active, e);
      }
    }

    method SendToNeighbor(active: seq<nat>, e: Entry) returns (r: Outcome<Option<Frame>>)
      requires Valid() && queue.order != [] && queue.order[0] in queue.cells && e == queue.cells[queue.order[0]]
      requires e.Unicast()
      modifies queue, rtqueue, table.Members()
      ensures table.neighbors == old(table.neighbors)
      ensures match Sent(old(View()), active)
              case Fatal(reason) => r == Fatal(reason)
              case Done(s) => r == Done(s.frame) && Valid() && View() == s.st
    {
      hide SentUnicast, SentPlain, Dequeued, Good, Unlinked, GetItem, MinMac;
      var pos := table.SearchNeighborByMAC(e.dest);
      if pos == |table.neighbors| {
        return Fatal(NoNeighbor);
      }
      var taken := TakeFront(pos, e);
      if taken.Fatal? {
        return Fatal(taken.reason);
      }
      if taken.value {
        return Done(None);
      }
      r := SendUnicast(active, e, table.neighbors[pos]);
    }

    /** Takes the front packet out of its virtual queue and of the output queue, and tells whether its
        receiver holds it already. */
    method TakeFront(pos: nat, e: Entry) returns (r: Outcome<bool>)
      requires Valid() && pos < |table.neighbors|
      requires queue.order != [] && queue.order[0] in queue.cells && e == queue.cells[queue.order[0]]
      modifies queue, table.neighbors[pos]
      ensures table.neighbors == old(table.neighbors)
      ensures match Unlinked(old(queue.cells), old(table.neighbors[pos].virtualQueue), e.pid)
              case Fatal(reason) => r == Fatal(reason)
              case Done(vq) =>
                && r == Done(GetItem(info.packetInfo, e.pid, GetMac(old(View()).neighbors[pos])))
                && Valid()
                && View() == old(View()).(queue := Dequeued(old(View()).queue),
                     neighbors := WithQueue(old(View()).neighbors, pos, vq))
    {
      hide Dequeued, Good, Unlinked, GetItem, MinMac;
      ghost var st := View();
      var n := table.neighbors[pos];
      var removed := n.RemoveVirtualQueueEntry(queue.cells, e.pid);
      if removed.Fatal? {
        return Fatal(removed.reason);
      }
      var mac := n.GetMAC();
      var holds := info.Holds(e.pid, mac);
      var front := queue.Dequeue();
      assert table.View() == WithQueue(st.neighbors, pos, n.virtualQueue);
      return Done(holds);
    }
  }
}
