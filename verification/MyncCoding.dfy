/** What Encode builds: pairwise decodable frames, on a channel all receivers listen to. */
module MyncCoding {
  import opened Addresses
  import opened Options
  import opened XorCoding
  import opened MyncQueues
  import opened MyncNeighbors
  import opened MyncProtocol
  import opened MyncIndex

  // ---------- The invariant of the loop over neighbours ----------

  /** Each chosen neighbour is recorded as holding every other chosen native and not its own. */
  ghost predicate PairwiseDecodable(known: PacketInfo, chosen: seq<Choice>) {
    forall a, b | 0 <= a < |chosen| && 0 <= b < |chosen| ::
      if a == b then !GetItem(known, chosen[a].pid, chosen[a].mac) else GetItem(known, chosen[a].pid, chosen[b].mac)
  }

  /** The surviving channels are some, and all chosen neighbours listen on each of them. */
  ghost predicate CommonChannels(chosen: seq<Choice>, channels: seq<nat>) {
    channels != [] && forall k, c | 0 <= k < |chosen| && c in channels :: c in chosen[k].channels
  }

  /** The interface is active, on a channel all chosen neighbours listen on. */
  ghost predicate Reaches(devices: seq<nat>, active: seq<nat>, chosen: seq<Choice>, iface: nat) {
    && iface in active
    && exists c :: DeviceOn(devices, c) == iface && forall k | 0 <= k < |chosen| :: c in chosen[k].channels
  }

  /** The header lists exactly the chosen natives under their destinations. */
  ghost predicate HeaderLists(header: map<Mac48Address, PacketId>, chosen: seq<Choice>) {
    && (forall k | 0 <= k < |chosen| :: chosen[k].dest in header && header[chosen[k].dest] == chosen[k].pid)
    && (forall m | m in header :: exists k :: 0 <= k < |chosen| && chosen[k].dest == m)
  }

  /** Each choice is recorded under the least address of the neighbour that owns its destination. */
  ghost predicate Located(ns: seq<Neighbor>, chosen: seq<Choice>) {
    forall k | 0 <= k < |chosen| ::
      var i := SearchMac(ns, chosen[k].dest);
      i < |ns| && GetMac(ns[i]) == chosen[k].mac && ChannelsOf(ns[i].pairs) == chosen[k].channels
  }

  /** The frame so far: the original, or the XOR of the original and the native chosen last. */
  ghost predicate FrameSoFar(devices: seq<nat>, active: seq<nat>, original: Entry, c: Coding) {
    && c.chosen != [] && c.chosen[0].pid == original.pid && c.chosen[0].packet == original.packet
    && (if |c.chosen| == 1 then c.frame == original
        else c.frame.packet == Xor(original.packet, c.chosen[|c.chosen| - 1].packet)
             && Reaches(devices, active, c.chosen, c.frame.iface))
  }

  ghost predicate CodingInv(w: World, known: PacketInfo, devices: seq<nat>, active: seq<nat>, original: Entry,
                            c: Coding) {
    && GoodOutput(c.queue) && GoodWaiting(c.rtqueue, c.neighbors)
    && GoodTable(w, c.neighbors) && Indexed(c.queue.cells, c.neighbors)
    && FrameSoFar(devices, active, original, c)
    && HeaderLists(c.header, c.chosen) && Located(c.neighbors, c.chosen)
    && PairwiseDecodable(known, c.chosen) && CommonChannels(c.chosen, c.channels)
  }

  lemma ErasedCells(q: Queue, ptr: nat)
    requires Good(q) && ptr in q.cells
    ensures Erased(q, q.cells[ptr].pid).cells == q.cells - {ptr}
    ensures PositionOf(q.order, q.cells, q.cells[ptr].pid) < |q.order|
    ensures Good(Erased(q, q.cells[ptr].pid))
  {
    ErasedGood(q, q.cells[ptr].pid);
    PositionFound(q, q.cells[ptr].pid);
  }

  lemma HeadUnlinked(cells: map<nat, Entry>, n: Neighbor)
    requires GoodVirtualQueue(cells, n) && n.virtualQueue != []
    ensures NoDuplicates(n.virtualQueue[1..])
    ensures forall p :: p in n.virtualQueue[1..] <==> p in n.virtualQueue && p != n.virtualQueue[0]
  {
  }

  lemma WaitingAppended(q: Queue, ns: seq<Neighbor>, e: Entry)
    requires GoodWaiting(q, ns) && e.Unicast() && e.retry <= 2 && SearchMac(ns, e.dest) < |ns|
    ensures GoodWaiting(EnqueuedBack(q, e), ns)
  {
    EnqueuedGood(q, e);
  }

  lemma {:induction false} InterfaceOn(devices: seq<nat>, active: seq<nat>, channels: seq<nat>, pairs: seq<AddressPair>)
    ensures var r := Interface(devices, active, channels, pairs);
            match r
            case Fatal(reason) => reason == NoSuchChannel
            case Done(None) => forall c | c in channels :: DeviceOn(devices, c) !in active
            case Done(Some((iface, dest))) =>
              && iface in active
              && exists c :: c in channels && c in ChannelsOf(pairs) && DeviceOn(devices, c) == iface
  {
    if channels == [] {
    } else {
      var front, last := channels[..|channels| - 1], channels[|channels| - 1];
      InterfaceOn(devices, active, front, pairs);
      assert forall c :: c in channels <==> c in front || c == last;
    }
  }

  /** The candidate with the packet at the head of its virtual queue. */
  ghost predicate Candidate(c: Coding, i: nat) {
    && i < |c.neighbors| && c.neighbors[i].virtualQueue != [] && c.neighbors[i].virtualQueue[0] in c.queue.cells
    && forall k | 0 <= k < |c.chosen| :: c.chosen[k].mac != GetMac(c.neighbors[i])
  }

  /** A new candidate is never addressed twice in one frame. */
  lemma NexthopIsNew(w: World, known: PacketInfo, devices: seq<nat>, active: seq<nat>, original: Entry, c: Coding,
                     i: nat)
    requires CodingInv(w, known, devices, active, original, c) && Candidate(c, i)
    ensures var v := c.queue.cells[c.neighbors[i].virtualQueue[0]];
            v.Unicast() && HasMac(c.neighbors[i], v.dest) && SearchMac(c.neighbors, v.dest) == i && v.dest !in c.header
  {
    assert GoodVirtualQueue(c.queue.cells, c.neighbors[i]);
    var v := c.queue.cells[c.neighbors[i].virtualQueue[0]];
    SearchMacIs(c.neighbors, i, v.dest);
  }

  /** The structures after a candidate has been accepted. */
  lemma AcceptedKeepsIndex(w: World, c: Coding, i: nat)
    requires GoodOutput(c.queue) && GoodWaiting(c.rtqueue, c.neighbors)
    requires GoodTable(w, c.neighbors) && Indexed(c.queue.cells, c.neighbors) && Candidate(c, i)
    ensures var ptr := c.neighbors[i].virtualQueue[0];
            var v := c.queue.cells[ptr];
            var q := Erased(c.queue, v.pid);
            var ns := WithQueue(c.neighbors, i, c.neighbors[i].virtualQueue[1..]);
            && GoodOutput(q) && q.cells == c.queue.cells - {ptr}
                 && PositionOf(c.queue.order, c.queue.cells, v.pid) < |c.queue.order|
            && GoodTable(w, ns) && Indexed(q.cells, ns)
            && GoodWaiting(if v.HitMax() then c.rtqueue else EnqueuedBack(c.rtqueue, v), ns)
  {
    hide TrueNeighbor, Disjoint;
    var n := c.neighbors[i];
    var ptr := n.virtualQueue[0];
    var v := c.queue.cells[ptr];
    assert GoodVirtualQueue(c.queue.cells, n);
    SearchMacInTable(w, c.neighbors, i, v.dest);
    ErasedCells(c.queue, ptr);
    HeadUnlinked(c.queue.cells, n);
    UnlinkedIndexed(w, c.queue.cells, c.neighbors, ptr, i, n.virtualQueue[1..]);
    WithQueueTable(w, c.neighbors, i, n.virtualQueue[1..]);
    if !v.HitMax() {
      WaitingAppended(c.rtqueue, c.neighbors, v);
      WithQueueWaiting(EnqueuedBack(c.rtqueue, v), c.neighbors, i, n.virtualQueue[1..]);
    } else {
      WithQueueWaiting(c.rtqueue, c.neighbors, i, n.virtualQueue[1..]);
    }
  }

  lemma SearchMacInTable(w: World, ns: seq<Neighbor>, i: nat, mac: Mac48Address)
    requires GoodTable(w, ns) && i < |ns| && HasMac(ns[i], mac)
    ensures SearchMac(ns, mac) == i
  {
    SearchMacIs(ns, i, mac);
  }

  lemma HeaderListsOneMore(header: map<Mac48Address, PacketId>, chosen: seq<Choice>, choice: Choice)
    requires HeaderLists(header, chosen) && choice.dest !in header
    ensures HeaderLists(header[choice.dest := choice.pid], chosen + [choice])
  {
    var header', all := header[choice.dest := choice.pid], chosen + [choice];
    forall m | m in header'
      ensures exists k :: 0 <= k < |all| && all[k].dest == m
    {
      if m == choice.dest {
        assert all[|chosen|].dest == m;
      } else {
        var k :| 0 <= k < |chosen| && chosen[k].dest == m;
        assert all[k].dest == m;
      }
    }
  }

  lemma DecodableOneMore(known: PacketInfo, chosen: seq<Choice>, choice: Choice)
    requires PairwiseDecodable(known, chosen) && Compatible(known, chosen, choice.pid, choice.mac)
    ensures PairwiseDecodable(known, chosen + [choice])
  {
  }

  /** The candidate passes every test: it becomes part of the frame. */
  ghost function ChoiceOf(n: Neighbor, v: Entry): Choice {
    Choice(v.pid, v.dest, GetMac(n), ChannelsOf(n.pairs), v.packet)
  }

  lemma LocatedElsewhere(ns: seq<Neighbor>, i: nat, vq: seq<nat>, chosen: seq<Choice>)
    requires i < |ns| && Located(ns, chosen)
    ensures Located(WithQueue(ns, i, vq), chosen)
  {
    forall k | 0 <= k < |chosen|
      ensures var j := SearchMac(WithQueue(ns, i, vq), chosen[k].dest);
              j < |ns| && GetMac(WithQueue(ns, i, vq)[j]) == chosen[k].mac
                && ChannelsOf(WithQueue(ns, i, vq)[j].pairs) == chosen[k].channels
    {
      WithQueueSearch(ns, i, vq, chosen[k].dest);
    }
  }

  /** The frame and the channels after a candidate has been accepted. */
  lemma AcceptedFrame(devices: seq<nat>, active: seq<nat>, original: Entry, c: Coding, i: nat, v: Entry)
    requires i < |c.neighbors| && FrameSoFar(devices, active, original, c) && CommonChannels(c.chosen, c.channels)
    requires var common := Intersection(c.channels, ChannelsOf(c.neighbors[i].pairs));
             var r := Interface(devices, active, common, c.neighbors[i].pairs);
             common != [] && r.Done? && r.value.Some?
    ensures var common := Intersection(c.channels, ChannelsOf(c.neighbors[i].pairs));
            var (iface, dest) := Interface(devices, active, common, c.neighbors[i].pairs).value.value;
            var all := c.chosen + [ChoiceOf(c.neighbors[i], v)];
            CommonChannels(all, common) && Reaches(devices, active, all, iface)
  {
    hide Interface, DeviceOn;
    var n := c.neighbors[i];
    var common := Intersection(c.channels, ChannelsOf(n.pairs));
    InterfaceOn(devices, active, common, n.pairs);
    var (iface, dest) := Interface(devices, active, common, n.pairs).value.value;
    var ch :| ch in common && DeviceOn(devices, ch) == iface;
    hide Intersection, ChannelsOf;
    OneMoreListens(c.chosen, c.channels, ChoiceOf(n, v), common, ch);
  }

  /** What all choices so far and one more listen on. */
  lemma OneMoreListens(chosen: seq<Choice>, channels: seq<nat>, choice: Choice, common: seq<nat>, ch: nat)
    requires CommonChannels(chosen, channels) && common != [] && ch in common
    requires forall c | c in common :: c in channels && c in choice.channels
    ensures CommonChannels(chosen + [choice], common)
    ensures forall k | 0 <= k < |chosen + [choice]| :: ch in (chosen + [choice])[k].channels
  {
  }

  lemma SmallerChannels(chosen: seq<Choice>, channels: seq<nat>, common: seq<nat>)
    requires CommonChannels(chosen, channels) && common != [] && forall c | c in common :: c in channels
    ensures CommonChannels(chosen, common)
  {
  }

  lemma AcceptedKeeps(w: World, known: PacketInfo, devices: seq<nat>, active: seq<nat>, original: Entry, c: Coding,
                      i: nat)
    requires CodingInv(w, known, devices, active, original, c) && Candidate(c, i)
    requires var v := c.queue.cells[c.neighbors[i].virtualQueue[0]];
             var common := Intersection(c.channels, ChannelsOf(c.neighbors[i].pairs));
             var r := Interface(devices, active, common, c.neighbors[i].pairs);
             && Compatible(known, c.chosen, v.pid, GetMac(c.neighbors[i])) && v.dest != BROADCAST
             && common != [] && r.Done? && r.value.Some? && Xor(original.packet, v.packet) != []
    ensures EncodedStep(known, devices, active, original, c, i).Done?
    ensures var c' := EncodedStep(known, devices, active, original, c, i).value;
            CodingInv(w, known, devices, active, original, c') && c.chosen <= c'.chosen
  {
    hide GoodTable, Indexed, GoodWaiting, HeaderLists, Located, PairwiseDecodable, GoodOutput, CommonChannels;
    hide Reaches, Interface, Compatible, Erased, EnqueuedBack, PositionOf, MinMac, Xor;
    var n := c.neighbors[i];
    var v := c.queue.cells[n.virtualQueue[0]];
    var choice := ChoiceOf(n, v);
    NexthopIsNew(w, known, devices, active, original, c, i);
    AcceptedKeepsIndex(w, c, i);
    HeaderListsOneMore(c.header, c.chosen, choice);
    DecodableOneMore(known, c.chosen, choice);
    AcceptedFrame(devices, active, original, c, i, v);
    LocatedOneMore(c.neighbors, c.chosen, i, v);
    LocatedElsewhere(c.neighbors, i, n.virtualQueue[1..], c.chosen + [choice]);
    CompatibleLacks(known, c.chosen, v.pid, GetMac(n));
  }

  lemma CompatibleLacks(known: PacketInfo, chosen: seq<Choice>, pid: PacketId, mac: Mac48Address)
    requires Compatible(known, chosen, pid, mac)
    ensures !GetItem(known, pid, mac)
  {
  }

  lemma LocatedOneMore(ns: seq<Neighbor>, chosen: seq<Choice>, i: nat, v: Entry)
    requires i < |ns| && Located(ns, chosen) && SearchMac(ns, v.dest) == i
    ensures Located(ns, chosen + [ChoiceOf(ns[i], v)])
  {
  }

  /** Passing over or accepting a neighbour keeps the invariant, and the only ways to stop are a
      channel the candidate does not have and an XOR of equal packets. */
  lemma EncodedStepKeeps(w: World, known: PacketInfo, devices: seq<nat>, active: seq<nat>, original: Entry, c: Coding,
                         i: nat)
    requires CodingInv(w, known, devices, active, original, c) && i < |c.neighbors|
    ensures match EncodedStep(known, devices, active, original, c, i)
            case Fatal(r) => r == NoSuchChannel || r == XorRunsOff
            case Done(c') => CodingInv(w, known, devices, active, original, c') && c.chosen <= c'.chosen
  {
    hide GoodTable, Indexed, GoodWaiting, HeaderLists, Located, PairwiseDecodable, GoodOutput, CommonChannels;
    hide Reaches, Interface, Joined, Compatible;
    var n := c.neighbors[i];
    if n.virtualQueue != [] && forall k | 0 <= k < |c.chosen| :: c.chosen[k].mac != GetMac(n) {
      HeadIsLive(c, i);
      NexthopIsNew(w, known, devices, active, original, c, i);
      AcceptedKeepsIndex(w, c, i);
      var v := c.queue.cells[n.virtualQueue[0]];
      var common := Intersection(c.channels, ChannelsOf(n.pairs));
      var channels := if common == [] then c.channels else common;
      InterfaceOn(devices, active, channels, n.pairs);
      SmallerChannels(c.chosen, c.channels, channels) by {
        CommonChannelsExist(c.chosen, c.channels);
      }
      var r := Interface(devices, active, common, n.pairs);
      if Compatible(known, c.chosen, v.pid, GetMac(n)) && common != [] && r.Done? && r.value.Some? {
        if Xor(original.packet, v.packet) != [] {
          AcceptedKeeps(w, known, devices, active, original, c, i);
        } else {
          EqualRunsOff(original, c.(channels := common), i, r.value.value);
        }
      }
    }
  }

  lemma EqualRunsOff(original: Entry, c: Coding, i: nat, out: (nat, Mac48Address))
    requires i < |c.neighbors| && c.neighbors[i].virtualQueue != [] && c.neighbors[i].virtualQueue[0] in c.queue.cells
    requires Xor(original.packet, c.queue.cells[c.neighbors[i].virtualQueue[0]].packet) == []
    ensures Joined(original, c, i, out) == Fatal(XorRunsOff)
  {
  }

  lemma CommonChannelsExist(chosen: seq<Choice>, channels: seq<nat>)
    requires CommonChannels(chosen, channels)
    ensures channels != []
  {
  }

  lemma HeadIsLive(c: Coding, i: nat)
    requires Indexed(c.queue.cells, c.neighbors) && i < |c.neighbors| && c.neighbors[i].virtualQueue != []
    ensures c.neighbors[i].virtualQueue[0] in c.queue.cells
  {
    assert GoodVirtualQueue(c.queue.cells, c.neighbors[i]);
  }

  // ---------- All of Encode ----------

  lemma {:induction false} EncodedFromKeeps(w: World, known: PacketInfo, devices: seq<nat>, active: seq<nat>,
                                            original: Entry, c: Coding, i: nat)
    requires CodingInv(w, known, devices, active, original, c) && i <= |c.neighbors|
    ensures match EncodedFrom(known, devices, active, original, c, i)
            case Fatal(r) => r == NoSuchChannel || r == XorRunsOff
            case Done(c') => CodingInv(w, known, devices, active, original, c') && c.chosen <= c'.chosen
    decreases |c.neighbors| - i
  {
    hide CodingInv, EncodedStep;
    if i == |c.neighbors| {
    } else {
      EncodedStepKeeps(w, known, devices, active, original, c, i);
      var r := EncodedStep(known, devices, active, original, c, i);
      if r.Done? {
        EncodedFromKeeps(w, known, devices, active, original, r.value, i + 1);
      }
    }
  }

  /** The state a unicast packet is coded in: it has left the queue and its virtual queue. */
  ghost predicate ReadyToSend(w: World, st: Protocol, e: Entry) {
    && Inv(w, st) && !e.hello && e.retry <= 3 && Admits(st.queue, e.pid)
    && (e.dest != BROADCAST ==> SearchMac(st.neighbors, e.dest) < |st.neighbors|)
  }

  lemma CodingStarts(w: World, st: Protocol, active: seq<nat>, e: Entry, n: Neighbor)
    requires ReadyToSend(w, st, e) && e.dest != BROADCAST && !GetItem(st.known, e.pid, GetMac(n))
    requires n.pairs == st.neighbors[SearchMac(st.neighbors, e.dest)].pairs
    ensures CodingInv(w, st.known, st.devices, active, e, CodingStart(st, e, n))
  {
    hide GoodOutput, GoodWaiting, Indexed, Disjoint, GetItem, MinMac;
    var c := CodingStart(st, e, n);
    assert TrueNeighbor(w, st.neighbors[SearchMac(st.neighbors, e.dest)]);
    assert n.pairs[0].channel in ChannelsOf(n.pairs);
    assert c.chosen[0].dest == e.dest;
  }

  /** Encode stops only at a channel the candidate lacks or an XOR of equal packets.  Otherwise its
      result keeps the index, and every frame it has coded is pairwise decodable, lists exactly its
      natives, is the XOR of the original and the last partner, and goes out on an active interface
      whose channel all receivers listen on. */
  lemma EncodedKeeps(w: World, st: Protocol, active: seq<nat>, e: Entry, n: Neighbor)
    requires ReadyToSend(w, st, e) && e.dest != BROADCAST && !GetItem(st.known, e.pid, GetMac(n))
    requires n.pairs == st.neighbors[SearchMac(st.neighbors, e.dest)].pairs
    ensures match Encoded(st, active, e, n)
            case Fatal(r) => r == NoSuchChannel || r == XorRunsOff
            case Done(c) =>
              && CodingInv(w, st.known, st.devices, active, e, c)
              && (|c.chosen| > 1 ==> Inv(w, st.(queue := c.queue, rtqueue := c.rtqueue, neighbors := c.neighbors)))
  {
    hide GoodTable, Indexed, HeaderLists, PairwiseDecodable, GoodOutput, CommonChannels, Reaches, EncodedFrom;
    CodingStarts(w, st, active, e, n);
    EncodedFromKeeps(w, st.known, st.devices, active, e, CodingStart(st, e, n), 0);
    var r := EncodedFrom(st.known, st.devices, active, e, CodingStart(st, e, n), 0);
    if r.Done? && |r.value.chosen| > 1 && !e.HitMax() {
      assert r.value.chosen[0] == CodingStart(st, e, n).chosen[0];
      WaitingAppended(r.value.rtqueue, r.value.neighbors, e);
    }
  }

  /** Distinct natives: no chosen native is listed twice. */
  lemma ChosenAreDistinct(known: PacketInfo, chosen: seq<Choice>, a: nat, b: nat)
    requires PairwiseDecodable(known, chosen) && a < |chosen| && b < |chosen| && a != b
    ensures chosen[a].pid != chosen[b].pid
  {
    assert GetItem(known, chosen[a].pid, chosen[b].mac);
  }

  /** A coded frame of two natives, received by a node whose pool holds one of them and not the other,
      decodes to the other one, whatever order the header lists them in. */
  lemma CodedPairDecodes(w: World, known: PacketInfo, devices: seq<nat>, active: seq<nat>, original: Entry, c: Coding,
                         pool: map<PacketId, Bytes>, own: nat, first: nat)
    requires CodingInv(w, known, devices, active, original, c) && |c.chosen| == 2 && own < 2 && first < 2
    requires c.chosen[own].pid !in pool && c.chosen[1 - own].pid in pool
    requires pool[c.chosen[1 - own].pid] == c.chosen[1 - own].packet
    requires exists i: nat :: ByteAt(c.chosen[own].packet, i) != 0
    ensures var r := Decode([c.chosen[first].pid, c.chosen[1 - first].pid], pool, c.frame.packet);
            !r.RunsOff? && r.code == c.chosen[own].pid && Same(r.packet, c.chosen[own].packet)
  {
    hide GoodTable, Indexed, HeaderLists, PairwiseDecodable, GoodOutput, GoodWaiting, CommonChannels, Reaches;
    hide Located, Decode;
    var i: nat :| ByteAt(c.chosen[own].packet, i) != 0;
    var natives := [c.chosen[first].packet, c.chosen[1 - first].packet];
    assert ByteAt(natives[if own == first then 0 else 1], i) != 0;
    PairDecodes(original.packet, c.chosen[1].packet, [c.chosen[first].pid, c.chosen[1 - first].pid], pool,
                natives, if own == first then 0 else 1);
  }

  lemma PairDecodes(a: Bytes, b: Bytes, pids: seq<PacketId>, pool: map<PacketId, Bytes>, natives: seq<Bytes>, m: nat)
    requires |pids| == |natives| == 2 && AllButOne(pids, pool, natives, m)
    requires natives == [a, b] || natives == [b, a]
    requires exists i: nat :: ByteAt(natives[m], i) != 0
    ensures var r := Decode(pids, pool, Xor(a, b)); !r.RunsOff? && r.code == pids[m] && Same(r.packet, natives[m])
  {
    assert [a] + [b] == [a, b] && multiset([a, b]) == multiset([b, a]);
    SourceFrameIsSumIff(a, [b], natives);
    assert SourceFrame(a, [b]) == Xor(a, b);
    PairDoesNotRunOff(natives, m);
    DecodeRunsOffIff(pids, pool, natives, m, Xor(a, b));
    DecodeInvertsCoding(pids, pool, natives, m, Xor(a, b));
  }

  lemma PairDoesNotRunOff(natives: seq<Bytes>, m: nat)
    requires |natives| == 2 && m < 2 && exists i: nat :: ByteAt(natives[m], i) != 0
    ensures forall j | 0 <= j < 2 && j != m :: !CancelsAfter(natives, m, j)
  {
    var i: nat :| ByteAt(natives[m], i) != 0;
    var j := 1 - m;
    AddGroup(ByteAt(natives[m], i), 0, 0);
    assert natives[2..] == [] && natives[1..] == [natives[1]] && [natives[1]][1..] == [];
    assert SumAt([], i) == 0;
    if m == 0 {
      assert Remaining(natives, m, j + 1, i) == Add(SumAt(natives[2..], i), ByteAt(natives[m], i));
    } else {
      assert SumAt([natives[1]], i) == Add(ByteAt(natives[1], i), SumAt([natives[1]][1..], i));
      assert Remaining(natives, m, j + 1, i) == Add(SumAt(natives[1..], i), 0);
    }
    assert ByteAt([], i) != Remaining(natives, m, j + 1, i);
  }
}
