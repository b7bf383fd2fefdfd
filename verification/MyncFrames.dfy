/** What goes out in a frame: its natives, who can decode them, where they are kept for retransmission,
    and the interface. */
module MyncFrames {
  import opened Addresses
  import opened Options
  import opened XorCoding
  import opened MyncQueues
  import opened MyncNeighbors
  import opened MyncProtocol
  import opened MyncIndex
  import opened MyncCoding
  import opened MyncSending

  // ---------- Where the natives of a frame are ----------

  ghost predicate Queued(q: Queue, pid: PacketId) {
    exists p :: p in q.cells && q.cells[p].pid == pid
  }

  /** The packet waits for retransmission, if there is room for it. */
  ghost predicate Kept(q: Queue, pid: PacketId) {
    Queued(q, pid) || |q.order| == MAX_SIZE
  }

  /** Every native chosen from the queue so far has left it, and is kept unless it was sent three times
      already; `from` is the queue the loop started with. */
  ghost predicate Moved(from: Queue, c: Coding) {
    && (forall p | p in c.queue.cells :: p in from.cells && c.queue.cells[p] == from.cells[p])
    && (forall k | 0 <= k < |c.chosen| :: !Queued(c.queue, c.chosen[k].pid))
    && (forall k | 1 <= k < |c.chosen| :: MovedFrom(from, c.rtqueue, c.chosen[k]))
  }

  ghost predicate MovedFrom(from: Queue, rtqueue: Queue, choice: Choice) {
    exists p :: p in from.cells && from.cells[p].Unicast() && from.cells[p].pid == choice.pid
      && from.cells[p].dest == choice.dest
             && from.cells[p].packet == choice.packet && (from.cells[p].HitMax() || Kept(rtqueue, choice.pid))
  }

  lemma EnqueuedKept(q: Queue, e: Entry)
    requires Good(q)
    ensures Kept(EnqueuedBack(q, e), e.pid)
    ensures forall pid | Kept(q, pid) :: Kept(EnqueuedBack(q, e), pid)
  {
    AdmitsIff(q, e.pid);
    var r := EnqueuedBack(q, e);
    if Admits(q, e.pid) {
      assert r.cells[q.next].pid == e.pid && q.next !in q.cells;
      forall pid | Queued(q, pid)
        ensures Queued(r, pid)
      {
        var p :| p in q.cells && q.cells[p].pid == pid;
        assert r.cells[p].pid == pid;
      }
    }
  }

  lemma JoinedMoves(from: Queue, original: Entry, c: Coding, i: nat, out: (nat, Mac48Address))
    requires Good(c.queue) && Good(c.rtqueue) && Moved(from, c)
    requires i < |c.neighbors| && c.neighbors[i].virtualQueue != [] && c.neighbors[i].virtualQueue[0] in c.queue.cells
    requires c.queue.cells[c.neighbors[i].virtualQueue[0]].Unicast()
    requires c.chosen != [] && Joined(original, c, i, out).Done?
    ensures Moved(from, Joined(original, c, i, out).value)
  {
    hide Erased, EnqueuedBack, Good, MinMac, ChannelsOf, Xor;
    var ptr := c.neighbors[i].virtualQueue[0];
    var v := c.queue.cells[ptr];
    var c' := Joined(original, c, i, out).value;
    ErasedCells(c.queue, ptr);
    EnqueuedKept(c.rtqueue, v);
    assert !Queued(c'.queue, v.pid) by {
      ErasedGood(c.queue, v.pid);
    }
    forall k | 1 <= k < |c'.chosen|
      ensures MovedFrom(from, c'.rtqueue, c'.chosen[k])
    {
      if k < |c.chosen| {
        assert MovedFrom(from, c.rtqueue, c.chosen[k]);
      } else {
        assert from.cells[ptr] == v;
      }
    }
  }

  lemma {:induction false} EncodedFromMoves(w: World, from: Queue, known: PacketInfo, devices: seq<nat>,
                                            active: seq<nat>, original: Entry, c: Coding, i: nat)
    requires CodingInv(w, known, devices, active, original, c) && Moved(from, c) && i <= |c.neighbors|
    requires EncodedFrom(known, devices, active, original, c, i).Done?
    ensures Moved(from, EncodedFrom(known, devices, active, original, c, i).value)
    decreases |c.neighbors| - i
  {
    hide Moved, Joined, Interface, Compatible, MinMac, Indexed, GoodTable, Located, PairwiseDecodable, HeaderLists;
    hide CommonChannels, Reaches;
    if i == |c.neighbors| {
    } else {
      EncodedStepKeeps(w, known, devices, active, original, c, i);
      HeadsAreUnicast(c);
      StepMoves(from, known, devices, active, original, c, i);
      EncodedFromMoves(w, from, known, devices, active, original,
        EncodedStep(known, devices, active, original, c, i).value, i + 1);
    }
  }

  lemma HeadsAreUnicast(c: Coding)
    requires Indexed(c.queue.cells, c.neighbors)
    ensures forall k, p | 0 <= k < |c.neighbors| && p in c.neighbors[k].virtualQueue ::
              p in c.queue.cells && c.queue.cells[p].Unicast()
  {
    forall k, p | 0 <= k < |c.neighbors| && p in c.neighbors[k].virtualQueue
      ensures p in c.queue.cells && c.queue.cells[p].Unicast()
    {
      assert GoodVirtualQueue(c.queue.cells, c.neighbors[k]);
    }
  }

  lemma StepMoves(from: Queue, known: PacketInfo, devices: seq<nat>, active: seq<nat>, original: Entry, c: Coding,
                  i: nat)
    requires Good(c.queue) && Good(c.rtqueue) && Moved(from, c) && i < |c.neighbors| && c.chosen != []
    requires forall p | p in c.neighbors[i].virtualQueue :: p in c.queue.cells && c.queue.cells[p].Unicast()
    requires EncodedStep(known, devices, active, original, c, i).Done?
    ensures Moved(from, EncodedStep(known, devices, active, original, c, i).value)
  {
    hide MovedFrom, Joined, Interface, Compatible, MinMac, Good;
    var n := c.neighbors[i];
    if n.virtualQueue != [] && n.virtualQueue[0] in c.queue.cells {
      var common := Intersection(c.channels, ChannelsOf(n.pairs));
      var r := Interface(devices, active, common, n.pairs);
      var c1 := c.(channels := common);
      if r.Done? && r.value.Some? && Joined(original, c1, i, r.value.value).Done? {
        JoinedMoves(from, original, c1, i, r.value.value);
      }
    }
  }

  // ---------- What a frame is ----------

  /** The address under which it is recorded what the receiver with destination m holds. */
  ghost function ReceiverMac(ns: seq<Neighbor>, m: Mac48Address): Mac48Address {
    var i := SearchMac(ns, m);
    if i < |ns| then GetMac(ns[i]) else m
  }

  /** The frame lists each of its natives under its destination, the front packet first. */
  ghost predicate ListsNatives(front: Entry, f: Frame) {
    && f.pids != [] && f.pids[0] == front.pid
    && (forall a, b | 0 <= a < b < |f.pids| :: f.pids[a] != f.pids[b])
    && (forall m | m in f.header :: f.header[m] in f.pids)
    && (forall pid | pid in f.pids :: exists m :: m in f.header && f.header[m] == pid)
  }

  /** Every receiver is recorded as holding the natives of all others, and not its own. */
  ghost predicate Decodable(known: PacketInfo, ns: seq<Neighbor>, f: Frame) {
    forall m, m' | m in f.header && m' in f.header ::
      if m == m' then !GetItem(known, f.header[m], ReceiverMac(ns, m))
        else GetItem(known, f.header[m'], ReceiverMac(ns, m))
  }

  /** A frame of one native is the front packet itself, through its own interface. */
  ghost predicate IsFront(front: Entry, f: Frame) {
    f.packet == front.packet && f.header == map[front.dest := front.pid] && f.iface == front.iface
  }

  /** A coded frame is the XOR of the front packet and the last native. */
  ghost predicate IsCoded(before: Queue, front: Entry, f: Frame)
    requires f.pids != []
  {
    exists p :: p in before.cells && before.cells[p].Unicast() && before.cells[p].pid == f.pids[|f.pids| - 1]
                && f.packet == Xor(front.packet, before.cells[p].packet)
  }

  /** The natives of a coded frame have left the output queue and are kept, unless already sent three
      times before. */
  ghost predicate KeepsNatives(before: Queue, after: Protocol, f: Frame) {
    forall pid | pid in f.pids ::
      !Queued(after.queue, pid) && KeptFrom(before, after.rtqueue, pid)
  }

  ghost predicate KeptFrom(before: Queue, rtqueue: Queue, pid: PacketId) {
    exists p :: p in before.cells && before.cells[p].Unicast() && before.cells[p].pid == pid
                && (before.cells[p].HitMax() || Kept(rtqueue, pid))
  }

  /** The choice that stands for a destination in the header. */
  lemma ChoiceFor(known: PacketInfo, ns: seq<Neighbor>, header: map<Mac48Address, PacketId>, chosen: seq<Choice>,
                  m: Mac48Address) returns (k: nat)
    requires HeaderLists(header, chosen) && Located(ns, chosen) && m in header
    ensures k < |chosen| && chosen[k].dest == m && header[m] == chosen[k].pid && ReceiverMac(ns, m) == chosen[k].mac
  {
    k :| 0 <= k < |chosen| && chosen[k].dest == m;
  }

  lemma ChosenLists(front: Entry, known: PacketInfo, ns: seq<Neighbor>, c: Coding, f: Frame)
    requires HeaderLists(c.header, c.chosen) && PairwiseDecodable(known, c.chosen) && Located(ns, c.chosen)
    requires c.chosen != [] && c.chosen[0].pid == front.pid && f.header == c.header && f.pids == Pids(c.chosen)
    ensures ListsNatives(front, f) && Decodable(known, ns, f)
  {
    hide PairwiseDecodable, Located, Decodable, HeaderLists, Pids;
    ChosenDecode(known, ns, c, f);
    PidsDistinct(known, c.chosen);
    PidsListed(c.header, c.chosen);
    FirstPid(c.chosen);
  }

  lemma FirstPid(chosen: seq<Choice>)
    requires chosen != []
    ensures Pids(chosen) != [] && Pids(chosen)[0] == chosen[0].pid
  {
  }

  lemma PidsDistinct(known: PacketInfo, chosen: seq<Choice>)
    requires PairwiseDecodable(known, chosen)
    ensures forall a, b | 0 <= a < b < |Pids(chosen)| :: Pids(chosen)[a] != Pids(chosen)[b]
  {
    hide PairwiseDecodable;
    forall a, b | 0 <= a < b < |Pids(chosen)|
      ensures Pids(chosen)[a] != Pids(chosen)[b]
    {
      ChosenAreDistinct(known, chosen, a, b);
    }
  }

  lemma PidsListed(header: map<Mac48Address, PacketId>, chosen: seq<Choice>)
    requires HeaderLists(header, chosen)
    ensures forall m | m in header :: header[m] in Pids(chosen)
    ensures forall pid | pid in Pids(chosen) :: exists m :: m in header && header[m] == pid
  {
    var pids := Pids(chosen);
    forall m | m in header
      ensures header[m] in pids
    {
      var k :| 0 <= k < |chosen| && chosen[k].dest == m;
      assert pids[k] == chosen[k].pid;
    }
    forall pid | pid in pids
      ensures exists m :: m in header && header[m] == pid
    {
      var k :| 0 <= k < |pids| && pids[k] == pid;
      assert header[chosen[k].dest] == pid;
    }
  }

  lemma ChosenDecode(known: PacketInfo, ns: seq<Neighbor>, c: Coding, f: Frame)
    requires HeaderLists(c.header, c.chosen) && PairwiseDecodable(known, c.chosen) && Located(ns, c.chosen)
    requires f.header == c.header
    ensures Decodable(known, ns, f)
  {
    hide GetItem, ReceiverMac, HeaderLists, Located;
    forall m, m' | m in f.header && m' in f.header
      ensures if m == m' then !GetItem(known, f.header[m], ReceiverMac(ns, m))
                else GetItem(known, f.header[m'], ReceiverMac(ns, m))
    {
      var k := ChoiceFor(known, ns, c.header, c.chosen, m);
      var k' := ChoiceFor(known, ns, c.header, c.chosen, m');
    }
  }

  /** A coded frame: natives, receivers, packets and interface. */
  lemma CodedFrameIsSound(w: World, st: Protocol, active: seq<nat>, e: Entry, n: Neighbor)
    requires ReadyToSend(w, st, e) && e.dest != BROADCAST && !GetItem(st.known, e.pid, GetMac(n))
    requires n.pairs == st.neighbors[SearchMac(st.neighbors, e.dest)].pairs
    requires Encoded(st, active, e, n).Done? && |Encoded(st, active, e, n).value.chosen| > 1
    ensures var c := Encoded(st, active, e, n).value;
            var f := Frame(c.frame.iface, c.header, Pids(c.chosen), c.frame.packet);
            && ListsNatives(e, f) && Decodable(st.known, c.neighbors, f) && f.iface in active
            && (forall k | 0 <= k < |c.chosen| :: !Queued(c.queue, c.chosen[k].pid))
            && (forall k | 1 <= k < |c.chosen| :: MovedFrom(st.queue, c.rtqueue, c.chosen[k]))
            && (e.HitMax() || Kept(c.rtqueue, e.pid))
            && c.frame.packet == Xor(e.packet, c.chosen[|c.chosen| - 1].packet)
            && BROADCAST !in c.header && |c.chosen| <= |c.neighbors|
  {
    hide GoodTable, Indexed, GoodWaiting, HeaderLists, PairwiseDecodable, Located, CommonChannels, EncodedFrom;
    hide ListsNatives, Decodable, EnqueuedBack, MovedFrom, GetItem, MinMac, ChannelsOf;
    EncodedKeeps(w, st, active, e, n);
    var start := CodingStart(st, e, n);
    CodingStarts(w, st, active, e, n);
    NotQueuedBefore(st.queue, e.pid);
    EncodedFromMoves(w, st.queue, st.known, st.devices, active, e, start, 0);
    var c0 := EncodedFrom(st.known, st.devices, active, e, start, 0).value;
    var c := Encoded(st, active, e, n).value;
    ChosenLists(e, st.known, c.neighbors, c, Frame(c.frame.iface, c.header, Pids(c.chosen), c.frame.packet));
    EncodedFromKeeps(w, st.known, st.devices, active, e, start, 0);
    WaitingIsGood(c0.rtqueue, c0.neighbors);
    EnqueuedKept(c0.rtqueue, e);
    forall k | 1 <= k < |c.chosen|
      ensures MovedFrom(st.queue, c.rtqueue, c.chosen[k])
    {
      StaysMoved(st.queue, c0.rtqueue, c.rtqueue, c.chosen[k]);
    }
    NoBroadcast(st.queue, c.rtqueue, c.header, c.chosen);
    FitsTable(st.known, c.neighbors, c.chosen);
  }

  lemma NoBroadcast(from: Queue, rtqueue: Queue, header: map<Mac48Address, PacketId>, chosen: seq<Choice>)
    requires HeaderLists(header, chosen) && chosen != [] && chosen[0].dest != BROADCAST
    requires forall k | 1 <= k < |chosen| :: MovedFrom(from, rtqueue, chosen[k])
    ensures BROADCAST !in header
  {
    forall m | m in header
      ensures m != BROADCAST
    {
      var k :| 0 <= k < |chosen| && chosen[k].dest == m;
      assert k > 0 ==> MovedFrom(from, rtqueue, chosen[k]);
    }
  }

  /** Different numbers below n are at most n many. */
  lemma {:induction false} DistinctBelow(s: seq<nat>, n: nat)
    requires NoDuplicates(s) && forall x | x in s :: x < n
    ensures |s| <= n
  {
    if s == [] {
    } else if n - 1 in s {
      var k :| 0 <= k < |s| && s[k] == n - 1;
      var rest := s[..k] + s[k + 1..];
      RemovedAt(s, k);
      assert forall x | x in rest :: x in s && x != s[k];
      DistinctBelow(rest, n - 1);
    } else {
      assert s[0] in s;
      DistinctBelow(s, n - 1);
    }
  }

  /** Every native is for a neighbour of its own. */
  lemma FitsTable(known: PacketInfo, ns: seq<Neighbor>, chosen: seq<Choice>)
    requires Located(ns, chosen) && PairwiseDecodable(known, chosen)
    ensures |chosen| <= |ns|
  {
    hide GetItem, MinMac, ChannelsOf, HasMac;
    var owners := seq(|chosen|, k requires 0 <= k < |chosen| => SearchMac(ns, chosen[k].dest));
    forall a, b | 0 <= a < b < |owners|
      ensures owners[a] != owners[b]
    {
      assert GetItem(known, chosen[a].pid, chosen[b].mac) && !GetItem(known, chosen[a].pid, chosen[a].mac);
    }
    DistinctBelow(owners, |ns|);
  }

  lemma StaysMoved(from: Queue, before: Queue, after: Queue, choice: Choice)
    requires MovedFrom(from, before, choice) && forall pid | Kept(before, pid) :: Kept(after, pid)
    ensures MovedFrom(from, after, choice)
  {
  }

  lemma WaitingIsGood(q: Queue, ns: seq<Neighbor>)
    requires GoodWaiting(q, ns)
    ensures Good(q)
  {
  }

  lemma NotQueuedBefore(q: Queue, pid: PacketId)
    requires Good(q) && Admits(q, pid)
    ensures !Queued(q, pid)
  {
    AdmitsIff(q, pid);
  }

  /** What DoSend hands to an interface: an active interface; the front packet alone, or a frame that
      lists the front packet first, that is its XOR with the last native, that all its receivers can
      decode by what is on record, and whose natives are kept for retransmission. */
  ghost predicate SoundFrame(st: Protocol, active: seq<nat>, front: Entry, s: Sending)
    requires s.frame.Some?
  {
    var f := s.frame.value;
    && f.iface in active && ListsNatives(front, f)
    && if |f.pids| == 1 then IsFront(front, f)
       else
         && Decodable(st.known, s.st.neighbors, f) && KeepsNatives(st.queue, s.st, f) && IsCoded(st.queue, front, f)
         && BROADCAST !in f.header && |f.pids| <= |s.st.neighbors|
  }

  lemma PlainIsSound(st: Protocol, active: seq<nat>, e: Entry, before: Protocol)
    requires SentPlain(st, active, e).Done? && SentPlain(st, active, e).value.frame.Some?
    ensures SoundFrame(before, active, e, SentPlain(st, active, e).value)
  {
    var f := SentPlain(st, active, e).value.frame.value;
    assert f.header[e.dest] == e.pid;
  }

  lemma LastIsCoded(before: Queue, from: Queue, rtqueue: Queue, front: Entry, chosen: seq<Choice>, f: Frame)
    requires forall p | p in from.cells :: p in before.cells && from.cells[p] == before.cells[p]
    requires |chosen| > 1 && f.pids == Pids(chosen) && MovedFrom(from, rtqueue, chosen[|chosen| - 1])
    requires f.packet == Xor(front.packet, chosen[|chosen| - 1].packet)
    ensures IsCoded(before, front, f)
  {
    hide Kept, Xor;
  }

  lemma NativesKept(before: Queue, from: Queue, after: Protocol, ptr: nat, chosen: seq<Choice>, f: Frame)
    requires forall p | p in from.cells :: p in before.cells && from.cells[p] == before.cells[p]
    requires f.pids == Pids(chosen) && chosen != []
    requires forall k | 0 <= k < |chosen| :: !Queued(after.queue, chosen[k].pid)
    requires ptr in before.cells && before.cells[ptr].Unicast() && before.cells[ptr].pid == chosen[0].pid
    requires before.cells[ptr].HitMax() || Kept(after.rtqueue, chosen[0].pid)
    requires forall k | 1 <= k < |chosen| :: MovedFrom(from, after.rtqueue, chosen[k])
    ensures KeepsNatives(before, after, f)
  {
    hide Kept, Queued, MovedFrom;
    forall pid | pid in f.pids
      ensures !Queued(after.queue, pid) && KeptFrom(before, after.rtqueue, pid)
    {
      var k :| 0 <= k < |chosen| && chosen[k].pid == pid;
      if k > 0 {
        MovedIsKept(before, from, after.rtqueue, chosen[k]);
      }
    }
  }

  lemma MovedIsKept(before: Queue, from: Queue, rtqueue: Queue, choice: Choice)
    requires forall p | p in from.cells :: p in before.cells && from.cells[p] == before.cells[p]
    requires MovedFrom(from, rtqueue, choice)
    ensures KeptFrom(before, rtqueue, choice.pid)
  {
    hide Kept;
  }

  lemma FirstIsOriginal(w: World, st: Protocol, active: seq<nat>, e: Entry, n: Neighbor)
    requires ReadyToSend(w, st, e) && e.dest != BROADCAST && !GetItem(st.known, e.pid, GetMac(n))
    requires n.pairs == st.neighbors[SearchMac(st.neighbors, e.dest)].pairs
    requires Encoded(st, active, e, n).Done?
    ensures var c := Encoded(st, active, e, n).value; c.chosen != [] && c.chosen[0].pid == e.pid
  {
    hide Encoded, GoodTable, Indexed, GoodWaiting, HeaderLists, PairwiseDecodable, Located, CommonChannels, Reaches;
    EncodedKeeps(w, st, active, e, n);
  }

  lemma EntryIsUnicast(w: World, st: Protocol, e: Entry)
    requires ReadyToSend(w, st, e) && e.dest != BROADCAST
    ensures e.Unicast()
  {
  }

  lemma UnicastIsSound(w: World, st: Protocol, ptr: nat, active: seq<nat>, n: Neighbor, st1: Protocol)
    requires ptr in st.queue.cells
    requires forall p | p in st1.queue.cells :: p in st.queue.cells && st1.queue.cells[p] == st.queue.cells[p]
    requires var e := st.queue.cells[ptr];
             && ReadyToSend(w, st1, e) && e.dest != BROADCAST && !GetItem(st1.known, e.pid, GetMac(n))
                  && st1.known == st.known
             && n.pairs == st1.neighbors[SearchMac(st1.neighbors, e.dest)].pairs
             && SentUnicast(st1, active, e, n).Done? && SentUnicast(st1, active, e, n).value.frame.Some?
    ensures SoundFrame(st, active, st.queue.cells[ptr], SentUnicast(st1, active, st.queue.cells[ptr], n).value)
  {
    hide Encoded, SentPlain, ReadyToSend, ListsNatives, Decodable, GetItem, MinMac, IsFront, KeepsNatives, IsCoded;
    hide MovedFrom, Queued, Kept, Xor;
    var e := st.queue.cells[ptr];
    if SentPlain(st1, active, e).Done? && SentPlain(st1, active, e).value.frame.Some? {
      PlainIsSound(st1, active, e, st);
    }
    if st1.queue.order != [] && Encoded(st1, active, e, n).Done? {
      FirstIsOriginal(w, st1, active, e, n);
      if |Encoded(st1, active, e, n).value.chosen| > 1 {
        CodedFrameIsSound(w, st1, active, e, n);
        var c := Encoded(st1, active, e, n).value;
        var f := Frame(c.frame.iface, c.header, Pids(c.chosen), c.frame.packet);
        var after := st1.(queue := c.queue, rtqueue := c.rtqueue, neighbors := c.neighbors);
        EntryIsUnicast(w, st1, e);
        NativesKept(st.queue, st1.queue, after, ptr, c.chosen, f);
        LastIsCoded(st.queue, st1.queue, c.rtqueue, e, c.chosen, f);
      }
    }
  }

  /** Whatever DoSend hands to an interface is sound. */
  lemma SentFrameIsSound(w: World, st: Protocol, active: seq<nat>)
    requires Inv(w, st) && st.queue.order != [] && Sent(st, active).Done? && Sent(st, active).value.frame.Some?
    ensures st.queue.order[0] in st.queue.cells
    ensures SoundFrame(st, active, st.queue.cells[st.queue.order[0]], Sent(st, active).value)
  {
    hide GoodTable, GoodWorld, GoodWaiting, Indexed, SentUnicast, SentPlain, SoundFrame, ReadyToSend, GetItem, MinMac;
    var ptr := st.queue.order[0];
    var e := st.queue.cells[ptr];
    if e.Unicast() {
      FrontTaken(w, st);
      var i := SearchMac(st.neighbors, e.dest);
      var vq := Unlinked(st.queue.cells, st.neighbors[i].virtualQueue, e.pid).value;
      var st1 := st.(queue := Dequeued(st.queue), neighbors := WithQueue(st.neighbors, i, vq));
      if !GetItem(st.known, e.pid, GetMac(st.neighbors[i])) {
        WithQueueSearch(st.neighbors, i, vq, e.dest);
        UnicastIsSound(w, st, ptr, active, st1.neighbors[i], st1);
      }
    } else if !e.hello {
      PlainIsSound(st.(queue := Dequeued(st.queue)), active, e, st);
    }
  }

  // ---------- Sending and decoding ----------

  /** The packet the frame lists at position k, as it was queued. */
  ghost predicate NativeOf(before: Queue, f: Frame, k: nat, packet: Bytes)
    requires k < |f.pids|
  {
    exists p :: p in before.cells && before.cells[p].pid == f.pids[k] && before.cells[p].packet == packet
  }

  lemma NativeIsUnique(before: Queue, f: Frame, k: nat, a: Bytes, b: Bytes)
    requires Good(before) && k < |f.pids| && NativeOf(before, f, k, a) && NativeOf(before, f, k, b)
    ensures a == b
  {
  }

  /** End to end, from the frame DoSend hands to an interface: a receiver of a frame of two natives whose
      pool holds the other one and not its own decodes its own, whatever order the header lists the two
      in. */
  lemma SentPairDecodes(w: World, st: Protocol, active: seq<nat>, pool: map<PacketId, Bytes>, natives: seq<Bytes>,
                        own: nat, first: nat)
    requires Inv(w, st) && st.queue.order != [] && Sent(st, active).Done? && Sent(st, active).value.frame.Some?
    requires var f := Sent(st, active).value.frame.value;
             && |f.pids| == |natives| == 2 && own < 2 && first < 2
             && NativeOf(st.queue, f, 0, natives[0]) && NativeOf(st.queue, f, 1, natives[1])
             && f.pids[own] !in pool && f.pids[1 - own] in pool && pool[f.pids[1 - own]] == natives[1 - own]
    requires exists i: nat :: ByteAt(natives[own], i) != 0
    ensures var f := Sent(st, active).value.frame.value;
            var r := Decode([f.pids[first], f.pids[1 - first]], pool, f.packet);
            !r.RunsOff? && r.code == f.pids[own] && Same(r.packet, natives[own])
  {
    hide Inv, Sent, Decode, Decodable, KeepsNatives, NativeOf, IsFront, Same, Xor;
    SentFrameIsSound(w, st, active);
    var f := Sent(st, active).value.frame.value;
    SentIsXor(w, st, active, natives);
    var listed := [natives[first], natives[1 - first]];
    var i: nat :| ByteAt(natives[own], i) != 0;
    assert ByteAt(listed[if own == first then 0 else 1], i) != 0;
    assert listed == if first == 0 then [natives[0], natives[1]] else [natives[1], natives[0]];
    PairDecodes(natives[0], natives[1], [f.pids[first], f.pids[1 - first]], pool, listed, if own == first then 0
      else 1);
  }

  lemma SentIsXor(w: World, st: Protocol, active: seq<nat>, natives: seq<Bytes>)
    requires Inv(w, st) && st.queue.order != [] && Sent(st, active).Done? && Sent(st, active).value.frame.Some?
    requires var f := Sent(st, active).value.frame.value;
             |f.pids| == |natives| == 2 && NativeOf(st.queue, f, 0, natives[0]) && NativeOf(st.queue, f, 1, natives[1])
    ensures Sent(st, active).value.frame.value.packet == Xor(natives[0], natives[1])
  {
    hide Sent, Decodable, KeepsNatives, IsFront, Xor, GoodTable, Indexed, GoodWaiting, GoodWorld;
    SentFrameIsSound(w, st, active);
    var f := Sent(st, active).value.frame.value;
    var ptr := st.queue.order[0];
    var front := st.queue.cells[ptr];
    assert NativeOf(st.queue, f, 0, front.packet);
    NativeIsUnique(st.queue, f, 0, natives[0], front.packet);
    var p :| p in st.queue.cells && st.queue.cells[p].pid == f.pids[1]
        && f.packet == Xor(front.packet, st.queue.cells[p].packet);
    assert NativeOf(st.queue, f, 1, st.queue.cells[p].packet);
    NativeIsUnique(st.queue, f, 1, natives[1], st.queue.cells[p].packet);
  }

  // ---------- Frames of more than two natives ----------

  ghost function Packets(chosen: seq<Choice>): seq<Bytes> {
    seq(|chosen|, i requires 0 <= i < |chosen| => chosen[i].packet)
  }

  lemma PacketsWithout(s: seq<Choice>, k: nat)
    requires k < |s|
    ensures var rest := s[..k] + s[k + 1..];
            && multiset(rest) == multiset(s) - multiset{s[k]}
            && multiset(Packets(s)) == multiset(Packets(rest)) + multiset{s[k].packet}
  {
    MultisetWithout(s, k);
    MultisetWithout(Packets(s), k);
    assert Packets(s[..k] + s[k + 1..]) == Packets(s)[..k] + Packets(s)[k + 1..];
  }

  lemma {:induction false} PacketsPermute(a: seq<Choice>, b: seq<Choice>)
    requires multiset(a) == multiset(b)
    ensures multiset(Packets(a)) == multiset(Packets(b))
    decreases |a|
  {
    hide Packets;
    assert |multiset(a)| == |multiset(b)|;
    if a == [] {
    } else {
      var k := PositionIn(b, a[0]) by {
        assert a[0] in multiset(a);
      }
      var a', b' := a[..0] + a[1..], b[..k] + b[k + 1..];
      PacketsWithout(a, 0);
      PacketsWithout(b, k);
      PacketsPermute(a', b');
    }
  }

  lemma PositionIn(s: seq<Choice>, x: Choice) returns (k: nat)
    requires x in multiset(s)
    ensures k < |s| && s[k] == x
  {
    k :| 0 <= k < |s| && s[k] == x;
  }

  /** What the invariant of the loop says of the frame, whatever order its natives are listed in. */
  lemma CodingIsSumIff(devices: seq<nat>, active: seq<nat>, original: Entry, c: Coding, listed: seq<Choice>)
    requires FrameSoFar(devices, active, original, c) && |c.chosen| > 1 && multiset(listed) == multiset(c.chosen)
    ensures IsSumOf(c.frame.packet, Packets(listed)) <==> Cancels(Packets(c.chosen)[1..|c.chosen| - 1])
  {
    hide Reaches;
    var packets := Packets(c.chosen);
    PacketsPermute(listed, c.chosen);
    assert packets == [original.packet] + packets[1..];
    assert packets[1..][..|packets| - 2] == packets[1..|packets| - 1];
    SourceFrameIsSumIff(original.packet, packets[1..], Packets(listed));
  }

  /** The frame Encode builds is the XOR of the natives it lists if and only if those between the first
      and the last cancel out: always with two natives. */
  lemma EncodedIsSumIff(w: World, st: Protocol, active: seq<nat>, e: Entry, n: Neighbor, listed: seq<Choice>)
    requires ReadyToSend(w, st, e) && e.dest != BROADCAST && !GetItem(st.known, e.pid, GetMac(n))
    requires n.pairs == st.neighbors[SearchMac(st.neighbors, e.dest)].pairs
    requires Encoded(st, active, e, n).Done? && |Encoded(st, active, e, n).value.chosen| > 1
    requires multiset(listed) == multiset(Encoded(st, active, e, n).value.chosen)
    ensures var c := Encoded(st, active, e, n).value;
            IsSumOf(c.frame.packet, Packets(listed)) <==> Cancels(Packets(c.chosen)[1..|c.chosen| - 1])
  {
    hide Encoded, ReadyToSend, GetItem, MinMac, IsSumOf, Cancels, FrameSoFar, Packets;
    EncodedKeeps(w, st, active, e, n);
    CodingIsSumIff(st.devices, active, e, Encoded(st, active, e, n).value, listed);
  }

  /** End to end for any number of natives, listed in any order: a receiver that holds all of them but
      number m finds that one missing, and recovers it if and only if the natives between the first
      chosen and the last chosen cancel out. */
  lemma EncodedDecodesIff(w: World, st: Protocol, active: seq<nat>, e: Entry, n: Neighbor,
                          listed: seq<Choice>, pool: map<PacketId, Bytes>, m: nat)
    requires ReadyToSend(w, st, e) && e.dest != BROADCAST && !GetItem(st.known, e.pid, GetMac(n))
    requires n.pairs == st.neighbors[SearchMac(st.neighbors, e.dest)].pairs
    requires Encoded(st, active, e, n).Done? && |Encoded(st, active, e, n).value.chosen| > 1
    requires multiset(listed) == multiset(Encoded(st, active, e, n).value.chosen)
    requires AllButOne(Pids(listed), pool, Packets(listed), m)
    requires !Decode(Pids(listed), pool, Encoded(st, active, e, n).value.frame.packet).RunsOff?
    ensures var c := Encoded(st, active, e, n).value;
            var r := Decode(Pids(listed), pool, c.frame.packet);
            && r.code == listed[m].pid
            && (Same(r.packet, listed[m].packet) <==> Cancels(Packets(c.chosen)[1..|c.chosen| - 1]))
  {
    EncodedIsSumIff(w, st, active, e, n, listed);
    hide Encoded, ReadyToSend, GetItem, MinMac, IsSumOf, Cancels, Decode, Same;
    DecodeInvertsCoding(Pids(listed), pool, Packets(listed), m, Encoded(st, active, e, n).value.frame.packet);
  }
}
