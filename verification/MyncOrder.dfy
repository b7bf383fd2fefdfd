/** Packets for one address stay in line: the virtual queues, whatever is put in front, coded, sent again or
    moved from one neighbour to another, list them in the order of the output queue. */
module MyncOrder {
  import opened Addresses
  import opened Options
  import opened XorCoding
  import opened MyncQueues
  import opened MyncNeighbors
  import opened MyncProtocol
  import opened MyncIndex
  import opened MyncCoding
  import opened MyncSending
  import opened MyncLearning
  import opened MyncFrames
  import opened MyncRuns
  import opened MyncNonstop

  // ---------- The packets for one address ----------

  ghost predicate IsFor(cells: map<nat, Entry>, p: nat, m: Mac48Address) {
    p in cells && cells[p].Unicast() && cells[p].dest == m
  }

  /** The pointers to packets for the address, in order. */
  ghost function For(s: seq<nat>, cells: map<nat, Entry>, m: Mac48Address): seq<nat> {
    if s == [] then [] else (if IsFor(cells, s[0], m) then [s[0]] else []) + For(s[1..], cells, m)
  }

  lemma {:induction false} ForSplits(a: seq<nat>, b: seq<nat>, cells: map<nat, Entry>, m: Mac48Address)
    ensures For(a + b, cells, m) == For(a, cells, m) + For(b, cells, m)
  {
    if a == [] {
      assert a + b == b;
    } else {
      assert (a + b)[1..] == a[1..] + b;
      ForSplits(a[1..], b, cells, m);
    }
  }

  lemma {:induction false} ForHas(s: seq<nat>, cells: map<nat, Entry>, m: Mac48Address)
    ensures forall p :: p in For(s, cells, m) <==> p in s && IsFor(cells, p, m)
  {
    if s != [] {
      ForHas(s[1..], cells, m);
      assert forall p :: p in s <==> p == s[0] || p in s[1..];
    }
  }

  lemma {:induction false} ForAlike(s: seq<nat>, cells: map<nat, Entry>, cells': map<nat, Entry>, m: Mac48Address)
    requires forall p | p in s :: IsFor(cells, p, m) <==> IsFor(cells', p, m)
    ensures For(s, cells, m) == For(s, cells', m)
  {
    if s != [] {
      assert s[0] in s;
      ForAlike(s[1..], cells, cells', m);
    }
  }

  /** Once a cell is gone it does not matter whether it is still listed. */
  lemma {:induction false} ForAgain(s: seq<nat>, cells: map<nat, Entry>, ptr: nat, m: Mac48Address)
    ensures For(s, cells - {ptr}, m) == For(For(s, cells, m), cells - {ptr}, m)
  {
    if s != [] {
      ForAgain(s[1..], cells, ptr, m);
      ForSplits(if IsFor(cells, s[0], m) then [s[0]] else [], For(s[1..], cells, m), cells - {ptr}, m);
      assert [s[0]][1..] == [];
    }
  }

  lemma ForOne(p: nat, cells: map<nat, Entry>, m: Mac48Address)
    ensures For([p], cells, m) == if IsFor(cells, p, m) then [p] else []
  {
    assert [p][1..] == [];
  }

  lemma ForMinus(s: seq<nat>, s': seq<nat>, cells: map<nat, Entry>, ptr: nat, m: Mac48Address)
    requires Minus(s, s', ptr)
    ensures For(s', cells - {ptr}, m) == For(s, cells - {ptr}, m)
  {
    hide For;
    var k :| 0 <= k < |s| && s[k] == ptr && s' == s[..k] + s[k + 1..];
    assert s == s[..k] + ([ptr] + s[k + 1..]);
    ForSplits(s[..k], s[k + 1..], cells - {ptr}, m);
    ForSplits(s[..k], [ptr] + s[k + 1..], cells - {ptr}, m);
    ForSplits([ptr], s[k + 1..], cells - {ptr}, m);
    ForOne(ptr, cells - {ptr}, m);
  }

  // ---------- In line ----------

  ghost predicate LinedFor(q: Queue, ns: seq<Neighbor>, m: Mac48Address) {
    || For(q.order, q.cells, m) == []
    || exists k :: 0 <= k < |ns| && For(ns[k].virtualQueue, q.cells, m) == For(q.order, q.cells, m)
  }

  /** For each address some virtual queue has its packets, in the order of the output queue. */
  ghost predicate Lined(q: Queue, ns: seq<Neighbor>) {
    forall m :: LinedFor(q, ns, m)
  }

  // ---------- One packet less ----------

  lemma EqualAgain(a: seq<nat>, b: seq<nat>, cells: map<nat, Entry>, ptr: nat, m: Mac48Address)
    requires For(a, cells, m) == For(b, cells, m)
    ensures For(a, cells - {ptr}, m) == For(b, cells - {ptr}, m)
  {
    ForAgain(a, cells, ptr, m);
    ForAgain(b, cells, ptr, m);
  }

  /** A packet has left the output queue and, if unicast, the virtual queue of one neighbour. */
  lemma GoneLined(q: Queue, q': Queue, ns: seq<Neighbor>, ns': seq<Neighbor>, ptr: nat)
    requires Lined(q, ns) && Minus(q.order, q'.order, ptr) && q'.cells == q.cells - {ptr} && |ns'| == |ns|
    requires forall k | 0 <= k < |ns| ::
               ns'[k].virtualQueue == ns[k].virtualQueue || Minus(ns[k].virtualQueue, ns'[k].virtualQueue, ptr)
    ensures Lined(q', ns')
  {
    hide For, Minus, IsFor;
    forall m
      ensures LinedFor(q', ns', m)
    {
      assert LinedFor(q, ns, m);
      ForMinus(q.order, q'.order, q.cells, ptr, m);
      if For(q.order, q.cells, m) == [] {
        EqualAgain(q.order, [], q.cells, ptr, m) by {
          ForNothing(q.cells, m);
        }
        ForNothing(q.cells - {ptr}, m);
      } else {
        var k :| 0 <= k < |ns| && For(ns[k].virtualQueue, q.cells, m) == For(q.order, q.cells, m);
        EqualAgain(ns[k].virtualQueue, q.order, q.cells, ptr, m);
        if Minus(ns[k].virtualQueue, ns'[k].virtualQueue, ptr) {
          ForMinus(ns[k].virtualQueue, ns'[k].virtualQueue, q.cells, ptr, m);
        }
        assert For(ns'[k].virtualQueue, q'.cells, m) == For(q'.order, q'.cells, m);
      }
    }
  }

  lemma ForNothing(cells: map<nat, Entry>, m: Mac48Address)
    ensures For([], cells, m) == []
  {
  }

  // ---------- One packet more ----------

  function AtEnd(s: seq<nat>, ptr: nat, front: bool): seq<nat> {
    if front then [ptr] + s else s + [ptr]
  }

  lemma ForAtEnd(s: seq<nat>, cells: map<nat, Entry>, ptr: nat, e: Entry, front: bool, m: Mac48Address)
    requires ptr !in s
    ensures var others, own := For(s, cells, m), if e.Unicast() && e.dest == m then [ptr] else [];
            For(AtEnd(s, ptr, front), cells[ptr := e], m) == if front then own + others else others + own
    ensures For(s, cells[ptr := e], m) == For(s, cells, m)
  {
    ForAlike(s, cells, cells[ptr := e], m);
    ForSplits([ptr], s, cells[ptr := e], m);
    ForSplits(s, [ptr], cells[ptr := e], m);
    assert [ptr][1..] == [];
  }

  /** A packet has come to one end of the output queue and, if unicast, to the same end of the virtual queue
      of its receiver. */
  ghost predicate ComesIn(q: Queue, q': Queue, ns: seq<Neighbor>, ns': seq<Neighbor>, e: Entry, front: bool) {
    && q'.order == AtEnd(q.order, q.next, front) && q'.cells == q.cells[q.next := e]
    && if !e.Unicast() then ns' == ns
       else
         var i := SearchMac(ns, e.dest);
         i < |ns| && ns' == WithQueue(ns, i, AtEnd(ns[i].virtualQueue, q.next, front))
  }

  lemma EmptyOrNot(s: seq<nat>)
    ensures s == [] || exists p :: p in s
  {
    if s != [] {
      assert s[0] in s;
    }
  }

  lemma LinedAt(q: Queue, ns: seq<Neighbor>, m: Mac48Address, i: nat)
    requires Good(q) && LinedFor(q, ns, m) && Disjoint(ns) && i < |ns| && HasMac(ns[i], m)
    requires forall k | 0 <= k < |ns| :: GoodVirtualQueue(q.cells, ns[k])
    ensures For(ns[i].virtualQueue, q.cells, m) == For(q.order, q.cells, m)
  {
    ForHas(ns[i].virtualQueue, q.cells, m);
    ForHas(q.order, q.cells, m);
    if For(q.order, q.cells, m) == [] {
      assert GoodVirtualQueue(q.cells, ns[i]);
      EmptyOrNot(For(ns[i].virtualQueue, q.cells, m));
    } else {
      var k :| 0 <= k < |ns| && For(ns[k].virtualQueue, q.cells, m) == For(q.order, q.cells, m);
      ForHas(ns[k].virtualQueue, q.cells, m);
      var p := For(q.order, q.cells, m)[0];
      assert p in For(ns[k].virtualQueue, q.cells, m) && GoodVirtualQueue(q.cells, ns[k]);
    }
  }

  lemma NewPointer(q: Queue, ns: seq<Neighbor>)
    requires Good(q) && forall k | 0 <= k < |ns| :: GoodVirtualQueue(q.cells, ns[k])
    ensures q.next !in q.order && forall k | 0 <= k < |ns| :: q.next !in ns[k].virtualQueue
  {
    forall k | 0 <= k < |ns|
      ensures q.next !in ns[k].virtualQueue
    {
      assert GoodVirtualQueue(q.cells, ns[k]);
    }
  }

  lemma ComesInLined(q: Queue, q': Queue, ns: seq<Neighbor>, ns': seq<Neighbor>, e: Entry, front: bool)
    requires Good(q) && Lined(q, ns) && Disjoint(ns) && forall k | 0 <= k < |ns| :: GoodVirtualQueue(q.cells, ns[k])
    requires ComesIn(q, q', ns, ns', e, front)
    ensures Lined(q', ns')
  {
    hide For, Good, GoodVirtualQueue, Disjoint, IsFor;
    NewPointer(q, ns);
    forall m
      ensures LinedFor(q', ns', m)
    {
      assert LinedFor(q, ns, m);
      ForAtEnd(q.order, q.cells, q.next, e, front, m);
      if e.Unicast() && e.dest == m {
        var i := SearchMac(ns, m);
        LinedAt(q, ns, m, i);
        ForAtEnd(ns[i].virtualQueue, q.cells, q.next, e, front, m);
        assert For(ns'[i].virtualQueue, q'.cells, m) == For(q'.order, q'.cells, m);
      } else if For(q'.order, q'.cells, m) != [] {
        var k :| 0 <= k < |ns| && For(ns[k].virtualQueue, q.cells, m) == For(q.order, q.cells, m);
        ForAtEnd(ns[k].virtualQueue, q.cells, q.next, e, front, m);
        assert For(ns'[k].virtualQueue, q'.cells, m) == For(q'.order, q'.cells, m);
      }
    }
  }

  // ---------- Enqueue, Send, Retransmit ----------

  ghost predicate InLine(st: Protocol) {
    Lined(st.queue, st.neighbors)
  }

  lemma TableFacts(w: World, st: Protocol)
    requires Inv(w, st)
    ensures Good(st.queue) && Disjoint(st.neighbors)
    ensures forall k | 0 <= k < |st.neighbors| :: GoodVirtualQueue(st.queue.cells, st.neighbors[k])
  {
  }

  lemma FrontGoneLined(w: World, st: Protocol, gone: Protocol)
    requires Inv(w, st) && InLine(st) && FrontGone(st, gone)
    ensures InLine(gone)
  {
    hide Inv, Lined, Minus;
    var order := st.queue.order;
    MinusFirst(order);
    GoneLined(st.queue, gone.queue, st.neighbors, gone.neighbors, order[0]);
  }

  lemma GoneFacts(w: World, st: Protocol, gone: Protocol)
    requires Inv(w, st) && FrontGone(st, gone)
    ensures Good(gone.queue) && Disjoint(gone.neighbors)
    ensures forall k | 0 <= k < |gone.neighbors| :: GoodVirtualQueue(gone.queue.cells, gone.neighbors[k])
  {
    hide TrueNeighbor, Disjoint, IndexedAt, GoodWaiting, GoodWorld, GoodVirtualQueue;
    var ptr := st.queue.order[0];
    var e := st.queue.cells[ptr];
    DequeuedGood(st.queue);
    if e.Unicast() {
      var i := SearchMac(st.neighbors, e.dest);
      var vq :| Minus(st.neighbors[i].virtualQueue, vq, ptr) && gone.neighbors == WithQueue(st.neighbors, i, vq);
      MinusQueue(st.queue.cells, st.neighbors[i], vq, ptr);
      UnlinkedIndexed(w, st.queue.cells, st.neighbors, ptr, i, vq);
      WithQueueTable(w, st.neighbors, i, vq);
    } else {
      FrontDropped(w, st);
    }
  }

  lemma MinusQueue(cells: map<nat, Entry>, n: Neighbor, vq: seq<nat>, ptr: nat)
    requires GoodVirtualQueue(cells, n) && Minus(n.virtualQueue, vq, ptr)
    ensures NoDuplicates(vq) && forall p :: p in vq <==> p in n.virtualQueue && p != ptr
  {
    var k :| 0 <= k < |n.virtualQueue| && n.virtualQueue[k] == ptr
             && vq == n.virtualQueue[..k] + n.virtualQueue[k + 1..];
    RemovedAt(n.virtualQueue, k);
  }

  lemma GoesFirstLined(st: Protocol, after: Protocol, e: Entry)
    requires Good(st.queue) && Disjoint(st.neighbors)
    requires forall k | 0 <= k < |st.neighbors| :: GoodVirtualQueue(st.queue.cells, st.neighbors[k])
    requires InLine(st) && GoesFirst(st, after, e) && !e.hello
    ensures InLine(after)
  {
    hide Lined, Good, Disjoint, GoodVirtualQueue;
    ComesInLined(st.queue, after.queue, st.neighbors, after.neighbors, e, true);
  }

  /** A packet from above goes to the end of the output queue, if there is room for it, and to the end of the
      virtual queue of its receiver, which may be new. */
  lemma EnqueuedGoesLast(w: World, st: Protocol, e: Entry)
    requires Inv(w, st) && !e.hello && e.retry == 0 && e.iface < |st.devices|
    requires e.dest != BROADCAST ==> w.channel(e.dest) == st.devices[e.iface]
    ensures EnqueuedData(st, e).Done?
    ensures var st', ptr := EnqueuedData(st, e).value, st.queue.next;
            && st'.rtqueue == st.rtqueue && st'.known == st.known
            && if |st.queue.order| < MAX_SIZE && (forall p | p in st.queue.cells :: st.queue.cells[p].pid != e.pid) then
                 && st'.queue.order == st.queue.order + [ptr] && st'.queue.cells == st.queue.cells[ptr := e]
                 && if e.Unicast() && (forall k | 0 <= k < |st.neighbors| :: !HasMac(st.neighbors[k], e.dest)) then
                      st'.neighbors ==
                        st.neighbors + [Neighbor([AddressPair(ANY, e.dest, st.devices[e.iface])], [ptr])]
                    else ComesIn(st.queue, st'.queue, st.neighbors, st'.neighbors, e, false)
               else st' == st
  {
    hide GoodTable, GoodWorld, Indexed, GoodWaiting, Good, Linked, Admits, HasMac;
    EnqueuedDataKeeps(w, st, e);
    AdmitsIff(st.queue, e.pid);
    var i := SearchMac(st.neighbors, e.dest);
    if Admits(st.queue, e.pid) && e.dest != BROADCAST {
      if i < |st.neighbors| {
        LinkedLast(st, e);
      } else {
        NewIsAppended(w, st, e);
      }
    }
  }

  lemma NewIsAppended(w: World, st: Protocol, e: Entry)
    requires Inv(w, st) && !e.hello && e.iface < |st.devices| && w.channel(e.dest) == st.devices[e.iface]
    requires SearchMac(st.neighbors, e.dest) == |st.neighbors|
    ensures var n := Neighbor([AddressPair(ANY, e.dest, st.devices[e.iface])], [st.queue.next]);
            Added(st.neighbors, n) == st.neighbors + [n]
  {
    hide Indexed, GoodWaiting, GoodOutput;
    NewNeighborFits(w, st.neighbors, Neighbor([AddressPair(ANY, e.dest, st.devices[e.iface])], [st.queue.next]));
  }

  lemma LinkedLast(st: Protocol, e: Entry)
    requires Admits(st.queue, e.pid) && e.Unicast() && SearchMac(st.neighbors, e.dest) < |st.neighbors|
    requires Linked(EnqueuedBack(st.queue, e).cells, st.neighbors, st.queue.next, e.dest, false).Done?
    ensures var q := EnqueuedBack(st.queue, e);
            ComesIn(st.queue, q, st.neighbors, Linked(q.cells, st.neighbors, st.queue.next, e.dest, false).value, e,
              false)
  {
    hide Admits, WithQueue;
  }

  /** A neighbour made for a packet has it alone in its virtual queue, and no packet for it was queued. */
  lemma NewNeighborLined(q: Queue, q': Queue, ns: seq<Neighbor>, n: Neighbor, e: Entry)
    requires Good(q) && Lined(q, ns) && Indexed(q.cells, ns) && e.Unicast()
    requires forall k | 0 <= k < |ns| :: !HasMac(ns[k], e.dest)
    requires q'.order == q.order + [q.next] && q'.cells == q.cells[q.next := e] && n.virtualQueue == [q.next]
    ensures Lined(q', ns + [n])
  {
    hide For, IsFor, Good, GoodVirtualQueue, HasMac;
    NewPointer(q, ns);
    assert AtEnd([], q.next, false) == [q.next];
    var ns' := ns + [n];
    assert ns'[|ns|] == n && forall k | 0 <= k < |ns| :: ns'[k] == ns[k];
    forall m
      ensures LinedFor(q', ns', m)
    {
      assert LinedFor(q, ns, m);
      ForAtEnd(q.order, q.cells, q.next, e, false, m);
      ForAtEnd([], q.cells, q.next, e, false, m);
      ForNothing(q.cells, m);
      if m == e.dest {
        NoneQueued(q, ns, m);
        assert For(ns'[|ns|].virtualQueue, q'.cells, m) == For(q'.order, q'.cells, m);
      } else if For(q.order, q.cells, m) != [] {
        var k :| 0 <= k < |ns| && For(ns[k].virtualQueue, q.cells, m) == For(q.order, q.cells, m);
        ForAtEnd(ns[k].virtualQueue, q.cells, q.next, e, false, m);
        assert For(ns'[k].virtualQueue, q'.cells, m) == For(q'.order, q'.cells, m);
      }
    }
  }

  lemma NoneQueued(q: Queue, ns: seq<Neighbor>, m: Mac48Address)
    requires Indexed(q.cells, ns) && forall k | 0 <= k < |ns| :: !HasMac(ns[k], m)
    ensures For(q.order, q.cells, m) == []
  {
    hide GoodVirtualQueue, For;
    ForHas(q.order, q.cells, m);
    EmptyOrNot(For(q.order, q.cells, m));
    forall p
      ensures !IsFor(q.cells, p, m)
    {
      if p in q.cells && q.cells[p].Unicast() {
        assert IndexedAt(ns, p, q.cells[p].dest);
      }
    }
  }

  lemma EnqueuedInLine(w: World, st: Protocol, e: Entry)
    requires Inv(w, st) && InLine(st) && !e.hello && e.retry == 0 && e.iface < |st.devices|
    requires e.dest != BROADCAST ==> w.channel(e.dest) == st.devices[e.iface]
    ensures EnqueuedData(st, e).Done? && InLine(EnqueuedData(st, e).value)
  {
    hide GoodTable, GoodWorld, GoodWaiting, Lined, EnqueuedData, ComesIn, HasMac;
    EnqueuedGoesLast(w, st, e);
    TableFacts(w, st);
    var st' := EnqueuedData(st, e).value;
    if ComesIn(st.queue, st'.queue, st.neighbors, st'.neighbors, e, false) {
      ComesInLined(st.queue, st'.queue, st.neighbors, st'.neighbors, e, false);
    } else if st' != st {
      NewNeighborLined(st.queue, st'.queue, st.neighbors,
        Neighbor([AddressPair(ANY, e.dest, st.devices[e.iface])], [st.queue.next]), e);
    }
  }

  /** A hello goes to the front of the output queue, if there is room, and into no virtual queue. */
  lemma HelloGoesFirst(w: World, st: Protocol, e: Entry)
    requires Inv(w, st) && e.hello
    ensures var st', ptr := EnqueuedHello(st, e), st.queue.next;
            && st' == st.(queue := st'.queue)
            && if |st.queue.order| < MAX_SIZE && (forall p | p in st.queue.cells :: st.queue.cells[p].pid != e.pid) then
                 st'.queue.order == [ptr] + st.queue.order && st'.queue.cells == st.queue.cells[ptr := e]
               else st' == st
  {
    hide Admits, GoodTable, Indexed;
    AdmitsIff(st.queue, e.pid);
  }

  lemma HelloInLine(w: World, st: Protocol, e: Entry)
    requires Inv(w, st) && InLine(st) && e.hello
    ensures InLine(EnqueuedHello(st, e))
  {
    hide Inv, Lined, EnqueuedHello;
    HelloGoesFirst(w, st, e);
    TableFacts(w, st);
    var st' := EnqueuedHello(st, e);
    if st' != st {
      ComesInLined(st.queue, st'.queue, st.neighbors, st'.neighbors, e, true);
    }
  }

  lemma RetransmittedInLine(w: World, st: Protocol)
    requires Inv(w, st) && InLine(st)
    ensures Retransmitted(st).Done? && InLine(Retransmitted(st).value)
  {
    hide Inv, Lined, GoesFirst;
    if st.rtqueue.order != [] {
      RetransmittedGoesFirst(w, st);
      TableFacts(w, st);
      var e := st.rtqueue.cells[st.rtqueue.order[0]];
      QueueHasNoHellos(w, st);
      if GoesFirst(st, Retransmitted(st).value, e.(retry := e.retry + 1)) {
        GoesFirstLined(st, Retransmitted(st).value, e.(retry := e.retry + 1));
      }
    }
  }

  lemma QueueHasNoHellos(w: World, st: Protocol)
    requires Inv(w, st)
    ensures forall p | p in st.rtqueue.cells :: !st.rtqueue.cells[p].hello
  {
  }

  lemma AloneInLine(w: World, st: Protocol, active: seq<nat>, s: Sending)
    requires Inv(w, st) && InLine(st) && SentAlone(st, active, s)
    ensures InLine(s.st)
  {
    hide Inv, InLine, FrontGone, GoesFirst, FrontIsHeld, Disjoint, Good, GoodVirtualQueue;
    var e := st.queue.cells[st.queue.order[0]];
    if FrontGone(st, s.st) {
      FrontGoneLined(w, st, s.st);
    } else if s.st != st {
      var gone :| FrontGone(st, gone) && GoesFirst(gone, s.st, e);
      FrontGoneLined(w, st, gone);
      GoneFacts(w, st, gone);
      GoesFirstLined(gone, s.st, e);
    }
  }

  // ---------- Encode ----------

  lemma ErasedMinus(q: Queue, ptr: nat)
    requires Good(q) && ptr in q.cells
    ensures Minus(q.order, Erased(q, q.cells[ptr].pid).order, ptr)
    ensures Erased(q, q.cells[ptr].pid).cells == q.cells - {ptr}
  {
    ErasedCells(q, ptr);
    var k := PositionOf(q.order, q.cells, q.cells[ptr].pid);
    assert q.order[k] in q.cells && q.order[k] == ptr;
  }

  lemma JoinedLined(original: Entry, c: Coding, i: nat, out: (nat, Mac48Address))
    requires Good(c.queue) && Lined(c.queue, c.neighbors)
    requires i < |c.neighbors| && c.neighbors[i].virtualQueue != [] && c.neighbors[i].virtualQueue[0] in c.queue.cells
    requires Joined(original, c, i, out).Done?
    ensures var c' := Joined(original, c, i, out).value; Lined(c'.queue, c'.neighbors)
  {
    hide Erased, EnqueuedBack, Good, MinMac, ChannelsOf, Xor, Lined, Minus;
    var ptr := c.neighbors[i].virtualQueue[0];
    var c' := Joined(original, c, i, out).value;
    ErasedMinus(c.queue, ptr);
    MinusFirst(c.neighbors[i].virtualQueue);
    GoneLined(c.queue, c'.queue, c.neighbors, c'.neighbors, ptr);
  }

  lemma StepLined(known: PacketInfo, devices: seq<nat>, active: seq<nat>, original: Entry, c: Coding, i: nat)
    requires Good(c.queue) && Lined(c.queue, c.neighbors) && i < |c.neighbors|
    requires EncodedStep(known, devices, active, original, c, i).Done?
    ensures var c' := EncodedStep(known, devices, active, original, c, i).value; Lined(c'.queue, c'.neighbors)
  {
    hide Joined, Interface, Compatible, MinMac, Good, Lined;
    var n := c.neighbors[i];
    if n.virtualQueue != [] && n.virtualQueue[0] in c.queue.cells {
      var common := Intersection(c.channels, ChannelsOf(n.pairs));
      var r := Interface(devices, active, common, n.pairs);
      var c1 := c.(channels := common);
      if r.Done? && r.value.Some? && Joined(original, c1, i, r.value.value).Done? {
        JoinedLined(original, c1, i, r.value.value);
      }
    }
  }

  lemma {:induction false} EncodedFromLined(w: World, known: PacketInfo, devices: seq<nat>, active: seq<nat>,
                                            original: Entry, c: Coding, i: nat)
    requires CodingInv(w, known, devices, active, original, c) && Lined(c.queue, c.neighbors) && i <= |c.neighbors|
    requires EncodedFrom(known, devices, active, original, c, i).Done?
    ensures var c' := EncodedFrom(known, devices, active, original, c, i).value; Lined(c'.queue, c'.neighbors)
    decreases |c.neighbors| - i
  {
    hide Lined, CodingInv, EncodedStep;
    if i == |c.neighbors| {
    } else {
      EncodedStepKeeps(w, known, devices, active, original, c, i);
      CodingQueueGood(w, known, devices, active, original, c);
      StepLined(known, devices, active, original, c, i);
      EncodedFromLined(w, known, devices, active, original,
        EncodedStep(known, devices, active, original, c, i).value, i + 1);
    }
  }

  lemma CodingQueueGood(w: World, known: PacketInfo, devices: seq<nat>, active: seq<nat>, original: Entry, c: Coding)
    requires CodingInv(w, known, devices, active, original, c)
    ensures Good(c.queue)
  {
    hide GoodTable, HeaderLists, Located, PairwiseDecodable, CommonChannels, GoodWaiting, Indexed;
  }

  lemma UnicastInLine(w: World, st: Protocol, active: seq<nat>, e: Entry, n: Neighbor)
    requires ReadyToSend(w, st, e) && e.dest != BROADCAST && !GetItem(st.known, e.pid, GetMac(n)) && InLine(st)
    requires n.pairs == st.neighbors[SearchMac(st.neighbors, e.dest)].pairs
    requires SentUnicast(st, active, e, n).Done? && SentUnicast(st, active, e, n).value.frame.Some?
    requires |SentUnicast(st, active, e, n).value.frame.value.pids| > 1
    ensures InLine(SentUnicast(st, active, e, n).value.st)
  {
    hide CodingInv, EncodedFrom, Lined, GetItem, MinMac, Inv, Good, SentPlain, Pids;
    PlainIsShort(st, active, e);
    CodingStarts(w, st, active, e, n);
    EncodedFromLined(w, st.known, st.devices, active, e, CodingStart(st, e, n), 0);
  }

  lemma PlainIsShort(st: Protocol, active: seq<nat>, e: Entry)
    ensures SentPlain(st, active, e).Done? && SentPlain(st, active, e).value.frame.Some? ==>
              |SentPlain(st, active, e).value.frame.value.pids| == 1
  {
    hide Linked, EnqueuedFront;
  }

  lemma SentInLine(w: World, st: Protocol, active: seq<nat>)
    requires Inv(w, st) && InLine(st) && st.queue.order != [] && Sent(st, active).Done?
    ensures InLine(Sent(st, active).value.st)
  {
    hide GoodTable, GoodWorld, GoodWaiting, Indexed, SentUnicast, SentPlain, InLine, GetItem, MinMac, FrontGone;
    hide ReadyToSend, Unlinked, SentAlone;
    SentAloneOrCoded(w, st, active);
    var s := Sent(st, active).value;
    if SentAlone(st, active, s) {
      AloneInLine(w, st, active, s);
    } else {
      LongFrameInLine(w, st, active);
    }
  }

  lemma LongFrameInLine(w: World, st: Protocol, active: seq<nat>)
    requires Inv(w, st) && InLine(st) && st.queue.order != [] && Sent(st, active).Done?
    requires Sent(st, active).value.frame.Some? && |Sent(st, active).value.frame.value.pids| > 1
    ensures InLine(Sent(st, active).value.st)
  {
    hide GoodTable, GoodWorld, GoodWaiting, Indexed, SentUnicast, InLine, GetItem, MinMac, FrontGone;
    hide ReadyToSend, Unlinked, EnqueuedFront, Linked;
    var e := st.queue.cells[st.queue.order[0]];
    assert e.Unicast();
    FrontTaken(w, st);
    TakenIsGone(w, st);
    var i := SearchMac(st.neighbors, e.dest);
    var vq := Unlinked(st.queue.cells, st.neighbors[i].virtualQueue, e.pid).value;
    var gone := st.(queue := Dequeued(st.queue), neighbors := WithQueue(st.neighbors, i, vq));
    FrontGoneLined(w, st, gone);
    WithQueueSearch(st.neighbors, i, vq, e.dest);
    UnicastInLine(w, gone, active, e, gone.neighbors[i]);
  }

  // ---------- Neighbours found to be one ----------

  /** Queues have no pointer in common, and all are to packets of the output queue. */
  ghost predicate Apart(q: Queue, ns: seq<Neighbor>) {
    && (forall k, p | 0 <= k < |ns| && p in ns[k].virtualQueue :: p in q.order)
    && (forall i, j, p | 0 <= i < |ns| && 0 <= j < |ns| && p in ns[i].virtualQueue && p in ns[j].virtualQueue :: i == j)
  }

  /** Of two queues one has all packets for the address in order; then so do both together. */
  lemma BothInLine(q: Queue, a: seq<nat>, b: seq<nat>, m: Mac48Address)
    requires For(a, q.cells, m) == For(q.order, q.cells, m) || For(b, q.cells, m) == For(q.order, q.cells, m)
    requires forall p | p in a || p in b :: p in q.order
    requires forall p | p in a :: p !in b
    ensures For(a + b, q.cells, m) == For(q.order, q.cells, m)
  {
    hide IsFor, For;
    ForSplits(a, b, q.cells, m);
    ForHas(a, q.cells, m);
    ForHas(b, q.cells, m);
    ForHas(q.order, q.cells, m);
    EmptyOrNot(For(if For(a, q.cells, m) == For(q.order, q.cells, m) then b else a, q.cells, m));
  }

  /** Two queues become one, and the others stay. */
  lemma JoinedQueues(q: Queue, ns: seq<Neighbor>, ns': seq<Neighbor>, i: nat, j: nat)
    requires Lined(q, ns) && Apart(q, ns) && i < |ns| && j < |ns| && i != j
    requires forall k | 0 <= k < |ns| && k != i && k != j ::
               exists n :: n in ns' && n.virtualQueue == ns[k].virtualQueue
    requires exists n :: n in ns' && n.virtualQueue == ns[i].virtualQueue + ns[j].virtualQueue
    ensures Lined(q, ns')
  {
    hide IsFor, For;
    forall m
      ensures LinedFor(q, ns', m)
    {
      assert LinedFor(q, ns, m);
      if For(q.order, q.cells, m) != [] {
        var k :| 0 <= k < |ns| && For(ns[k].virtualQueue, q.cells, m) == For(q.order, q.cells, m);
        if k == i || k == j {
          BothInLine(q, ns[i].virtualQueue, ns[j].virtualQueue, m);
        }
        var n :| n in ns' && For(n.virtualQueue, q.cells, m) == For(q.order, q.cells, m);
        var k' :| 0 <= k' < |ns'| && ns'[k'] == n;
        assert For(ns'[k'].virtualQueue, q.cells, m) == For(q.order, q.cells, m);
      }
    }
  }

  lemma SameQueuesLined(q: Queue, ns: seq<Neighbor>, ns': seq<Neighbor>)
    requires Lined(q, ns) && |ns| <= |ns'|
    requires forall k | 0 <= k < |ns| :: ns'[k].virtualQueue == ns[k].virtualQueue
    ensures Lined(q, ns')
  {
    hide IsFor, For;
    forall m
      ensures LinedFor(q, ns', m)
    {
      assert LinedFor(q, ns, m);
      if For(q.order, q.cells, m) != [] {
        var k :| 0 <= k < |ns| && For(ns[k].virtualQueue, q.cells, m) == For(q.order, q.cells, m);
        assert For(ns'[k].virtualQueue, q.cells, m) == For(q.order, q.cells, m);
      }
    }
  }

  /** Moving a queue over either stops or appends it. */
  lemma {:induction false} MovedOverAppends(cells: map<nat, Entry>, from: seq<nat>, to: seq<nat>)
    ensures MovedOver(cells, from, to).Done? ==> MovedOver(cells, from, to).value == to + from
    decreases |from|
  {
    if from == [] {
      assert to + from == to;
    } else {
      MovedOverAppends(cells, from[1..], to + [from[0]]);
      assert to + [from[0]] + from[1..] == to + from;
    }
  }

  lemma IndexIsApart(w: World, st: Protocol)
    requires Inv(w, st)
    ensures Apart(st.queue, st.neighbors)
  {
    hide GoodWaiting, IndexedAt, GoodVirtualQueue;
    forall i, j, p | 0 <= i < |st.neighbors| && 0 <= j < |st.neighbors|
        && p in st.neighbors[i].virtualQueue && p in st.neighbors[j].virtualQueue
      ensures i == j
    {
      IndexedOnce(st.queue.cells, st.neighbors, i, j, p);
    }
    forall k, p | 0 <= k < |st.neighbors| && p in st.neighbors[k].virtualQueue
      ensures p in st.queue.order
    {
      LivePointer(st.queue.cells, st.neighbors[k], p);
    }
  }

  lemma LivePointer(cells: map<nat, Entry>, n: Neighbor, p: nat)
    requires GoodVirtualQueue(cells, n) && p in n.virtualQueue
    ensures p in cells
  {
  }

  /** The sender of a frame is recognized. */
  lemma RecognizedLined(w: World, st: Protocol, t: AddressPair)
    requires Inv(w, st) && InLine(st) && Recognized(st.queue.cells, st.neighbors, t).Done?
    ensures Lined(st.queue, Recognized(st.queue.cells, st.neighbors, t).value)
  {
    hide Inv, Lined, MovedOver, HasMac, HasIp, ShareAddress, Apart;
    var ns, ns' := st.neighbors, Recognized(st.queue.cells, st.neighbors, t).value;
    var i, j := SearchIp(ns, t.ip), SearchMac(ns, t.mac);
    if i < |ns| && j < |ns| && i != j {
      IndexIsApart(w, st);
      MovedOverAppends(st.queue.cells, ns[j].virtualQueue, ns[i].virtualQueue);
      MergedAway(ns, ns', i, j);
      JoinedQueues(st.queue, ns, ns', i, j);
    } else {
      SameQueuesLined(st.queue, ns, ns');
    }
  }

  lemma MergedAway(ns: seq<Neighbor>, ns': seq<Neighbor>, i: nat, j: nat)
    requires i < |ns| && j < |ns| && i != j
    requires exists pairs :: ns' == Without(ns[i := Neighbor(pairs, ns[i].virtualQueue + ns[j].virtualQueue)], j)
    ensures forall k | 0 <= k < |ns| && k != i && k != j :: ns[k] in ns'
    ensures exists n :: n in ns' && n.virtualQueue == ns[i].virtualQueue + ns[j].virtualQueue
  {
    var pairs :| ns' == Without(ns[i := Neighbor(pairs, ns[i].virtualQueue + ns[j].virtualQueue)], j);
    var merged := ns[i := Neighbor(pairs, ns[i].virtualQueue + ns[j].virtualQueue)];
    forall k | 0 <= k < |ns| && k != j
      ensures merged[k] in ns' && (k != i ==> ns[k] in ns')
    {
      WithoutAt(merged, j, k);
    }
    assert merged[i] in ns';
  }

  /** The table and the neighbour being assembled. */
  ghost function AllOf(a: Assembly): seq<Neighbor> {
    a.neighbors + [a.assembled]
  }

  lemma AbsorbedLined(q: Queue, cells: map<nat, Entry>, a: Assembly, i: nat)
    requires Lined(q, AllOf(a)) && Apart(q, AllOf(a)) && i <= |a.neighbors| && Absorbed(cells, a, i).Done?
    ensures Lined(q, AllOf(Absorbed(cells, a, i).value)) && Apart(q, AllOf(Absorbed(cells, a, i).value))
  {
    hide Lined, MovedOver;
    if i < |a.neighbors| {
      var b := Absorbed(cells, a, i).value;
      var n := |a.neighbors|;
      var all, all' := AllOf(a), AllOf(b);
      MovedOverAppends(cells, a.neighbors[i].virtualQueue, a.assembled.virtualQueue);
      assert all[n] == a.assembled && all[i] == a.neighbors[i] && all'[n - 1] == b.assembled;
      forall k | 0 <= k < n && k != i
        ensures all[k] in all'
      {
        WithoutAt(a.neighbors, i, k);
        assert all'[Shifted(k, i)] == all[k];
      }
      assert all'[n - 1] in all' && all'[n - 1].virtualQueue == all[n].virtualQueue + all[i].virtualQueue;
      AbsorbedApart(q, all, all', i);
      hide Apart;
      JoinedQueues(q, all, all', n, i);
    }
  }

  lemma AbsorbedApart(q: Queue, all: seq<Neighbor>, all': seq<Neighbor>, i: nat)
    requires Apart(q, all) && i + 1 < |all| == |all'| + 1
    requires forall k | 0 <= k < |all'| - 1 :: all'[k] == all[if k < i then k else k + 1]
    requires all'[|all'| - 1].virtualQueue == all[|all| - 1].virtualQueue + all[i].virtualQueue
    ensures Apart(q, all')
  {
  }

  lemma {:induction false} LearnedPairsLined(q: Queue, cells: map<nat, Entry>, a: Assembly, pairs: seq<AddressPair>)
    requires Lined(q, AllOf(a)) && Apart(q, AllOf(a)) && LearnedPairs(cells, a, pairs).Done?
    ensures Lined(q, AllOf(LearnedPairs(cells, a, pairs).value))
    decreases |pairs|
  {
    hide Lined, Absorbed, Apart;
    if pairs == [] {
    } else {
      var t := pairs[0];
      AbsorbedLined(q, cells, a, SearchMac(a.neighbors, t.mac));
      var b := Absorbed(cells, a, SearchMac(a.neighbors, t.mac)).value;
      AbsorbedLined(q, cells, b, SearchIp(b.neighbors, t.ip));
      var c := Absorbed(cells, b, SearchIp(b.neighbors, t.ip)).value;
      TrinityLined(q, c, t);
      LearnedPairsLined(q, cells, LearnedPair(cells, a, t).value, pairs[1..]);
    }
  }

  lemma TrinityLined(q: Queue, c: Assembly, t: AddressPair)
    requires Lined(q, AllOf(c)) && Apart(q, AllOf(c))
    ensures var c' := c.(assembled := WithTrinity(c.assembled, t)); Lined(q, AllOf(c')) && Apart(q, AllOf(c'))
  {
    hide Lined;
    var c' := c.(assembled := WithTrinity(c.assembled, t));
    assert forall k | 0 <= k < |AllOf(c)| :: AllOf(c')[k].virtualQueue == AllOf(c)[k].virtualQueue;
    SameQueuesLined(q, AllOf(c), AllOf(c'));
  }

  lemma LearnedInLine(w: World, node: nat, st: Protocol, pairs: seq<AddressPair>)
    requires Inv(w, st) && InLine(st) && Complete(w, node, pairs)
    ensures Learned(st, pairs).Done? && InLine(Learned(st, pairs).value)
  {
    hide LearnInv, Gone, LearnedPairs, Lined, Apart, Complete, Inv;
    LearnedKeeps(w, node, st, pairs);
    ListedIsAll(w, node, pairs);
    LearningStarts(w, node, st);
    var start := Assembly(st.neighbors, Neighbor([], []));
    InvFacts(w, st);
    LearnedPairsKeep(w, node, st.neighbors, st.queue.cells, start, pairs, 0);
    var a := LearnedPairs(st.queue.cells, start, pairs).value;
    AssembledIs(w, node, st.neighbors, st.queue.cells, a, pairs);
    SameQueuesLined(st.queue, st.neighbors, AllOf(start));
    StartIsApart(w, st);
    LearnedPairsLined(st.queue, st.queue.cells, start, pairs);
  }

  lemma ListedIsAll(w: World, node: nat, pairs: seq<AddressPair>)
    requires Complete(w, node, pairs)
    ensures pairs[..|pairs| % 256] == pairs && pairs[0..] == pairs && pairs[..0] == [] && pairs != []
  {
  }

  lemma InvFacts(w: World, st: Protocol)
    requires Inv(w, st)
    ensures GoodWorld(w) && UniquePids(st.queue.cells)
  {
  }

  lemma StartIsApart(w: World, st: Protocol)
    requires Inv(w, st)
    ensures Apart(st.queue, AllOf(Assembly(st.neighbors, Neighbor([], []))))
  {
    hide Inv;
    IndexIsApart(w, st);
  }

  // ---------- Whole runs ----------

  lemma SteppedInLine(w: World, st: Protocol, step: Step)
    requires Inv(w, st) && InLine(st) && ValidStep(w, st.devices, step) && Stepped(st, step).Done?
    ensures InLine(Stepped(st, step).value.st)
  {
    hide Inv, InLine, Sent, Retransmitted, Learned, Recognized, Recorded, Acknowledged, EnqueuedData, EnqueuedHello;
    hide Sender, Complete;
    match step {
      case Enqueue(e) =>
        if e.hello {
          HelloInLine(w, st, e);
        } else {
          EnqueuedInLine(w, st, e);
        }
      case Send(active) =>
        if active != [] && st.queue.order != [] {
          SentInLine(w, st, active);
        }
      case Retransmit =>
        RetransmittedInLine(w, st);
      case HearHello(pairs) =>
        var node :| Complete(w, node, pairs);
        LearnedInLine(w, node, st, pairs);
      case HearFrame(sender, acks, held) =>
        RecognizedLined(w, st, sender);
        LinedIsInLine(st, Stepped(st, step).value.st);
    }
  }

  lemma LinedIsInLine(st: Protocol, st': Protocol)
    requires st'.queue == st.queue && Lined(st.queue, st'.neighbors)
    ensures InLine(st')
  {
  }

  lemma {:induction false} PlayedInLine(w: World, st: Protocol, steps: seq<Step>)
    requires Inv(w, st) && InLine(st) && forall step | step in steps :: ValidStep(w, st.devices, step)
    ensures forall step | step in steps :: OwnInterface(st.devices, step)
    ensures Played(st, steps).Done? ==> Inv(w, Played(st, steps).value.st) && InLine(Played(st, steps).value.st)
    decreases |steps|
  {
    hide Inv, Stepped, InLine;
    if steps == [] {
    } else {
      SteppedKeeps(w, st, steps[0]);
      if Stepped(st, steps[0]).Done? {
        SteppedInLine(w, st, steps[0]);
        PlayedInLine(w, Stepped(st, steps[0]).value.st, steps[1..]);
      }
    }
  }

  /** From an empty protocol, over every run, through coding, retransmission and the merging of neighbours: the
      virtual queue of the neighbour with an address lists the packets for that address in exactly the order of
      the output queue. */
  lemma PacketsStayInLine(w: World, devices: seq<nat>, steps: seq<Step>, i: nat, m: Mac48Address)
    requires GoodWorld(w) && forall step | step in steps :: ValidStep(w, devices, step)
    ensures forall step | step in steps :: OwnInterface(devices, step)
    ensures Played(Start(devices), steps).Done? ==>
              var st := Played(Start(devices), steps).value.st;
              i < |st.neighbors| && HasMac(st.neighbors[i], m) ==>
                For(st.neighbors[i].virtualQueue, st.queue.cells, m) == For(st.queue.order, st.queue.cells, m)
  {
    StartsIndexed(w, devices);
    PlayedInLine(w, Start(devices), steps);
    hide Played, Inv, Lined, For, HasMac;
    if Played(Start(devices), steps).Done? {
      var st := Played(Start(devices), steps).value.st;
      if i < |st.neighbors| && HasMac(st.neighbors[i], m) {
        TableFacts(w, st);
        LinedHere(st, m);
        LinedAt(st.queue, st.neighbors, m, i);
      }
    }
  }

  lemma LinedHere(st: Protocol, m: Mac48Address)
    requires InLine(st)
    ensures LinedFor(st.queue, st.neighbors, m)
  {
  }
}
