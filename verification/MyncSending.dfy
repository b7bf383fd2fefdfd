/** Sending and retransmitting keep the index. */
module MyncSending {
  import opened Addresses
  import opened Options
  import opened XorCoding
  import opened MyncQueues
  import opened MyncNeighbors
  import opened MyncProtocol
  import opened MyncIndex
  import opened MyncCoding

  // ---------- The index ----------

  /** Putting a packet at the front of the output queue and of its virtual queue keeps the index. */
  lemma FrontLinkedKeeps(w: World, st: Protocol, e: Entry)
    requires ReadyToSend(w, st, e) && e.dest != BROADCAST
    ensures var q := EnqueuedFront(st.queue, e);
            var r := Linked(q.cells, st.neighbors, st.queue.next, e.dest, true);
            && q.order != [] && q.order[0] == st.queue.next
            && r.Done? && Inv(w, st.(queue := q, neighbors := r.value))
  {
    hide GoodTable, Indexed, GoodWaiting, Linked, Pushed, GoodWorld;
    EnqueuedGood(st.queue, e);
    EnqueuedBackCells(st.queue, e);
    LinkedIndexed(w, st.queue.cells, st.neighbors, st.queue.next, e, true);
    var ns := Linked(st.queue.cells[st.queue.next := e], st.neighbors, st.queue.next, e.dest, true).value;
    var vq :| ns == WithQueue(st.neighbors, SearchMac(st.neighbors, e.dest), vq);
    WithQueueTable(w, st.neighbors, SearchMac(st.neighbors, e.dest), vq);
    WithQueueWaiting(st.rtqueue, st.neighbors, SearchMac(st.neighbors, e.dest), vq);
  }

  lemma FrontBroadcastKeeps(w: World, st: Protocol, e: Entry)
    requires Inv(w, st) && !e.Unicast() && e.retry <= 3
    ensures Inv(w, st.(queue := EnqueuedFront(st.queue, e)))
  {
    hide GoodTable, Indexed, GoodWaiting, GoodWorld;
    EnqueuedGood(st.queue, e);
    if Admits(st.queue, e.pid) {
      EnqueuedBackCells(st.queue, e);
      NotUnicastIndexed(st.queue.cells, st.neighbors, st.queue.next, e);
    }
  }

  lemma SentPlainKeeps(w: World, st: Protocol, active: seq<nat>, e: Entry)
    requires ReadyToSend(w, st, e)
    ensures SentPlain(st, active, e).Done? && Inv(w, SentPlain(st, active, e).value.st)
  {
    hide Inv, Linked;
    if e.dest == BROADCAST {
      FrontBroadcastKeeps(w, st, e);
    } else {
      FrontLinkedKeeps(w, st, e);
    }
  }

  lemma SentUnicastKeeps(w: World, st: Protocol, active: seq<nat>, e: Entry, n: Neighbor)
    requires ReadyToSend(w, st, e) && e.dest != BROADCAST && !GetItem(st.known, e.pid, GetMac(n))
    requires n.pairs == st.neighbors[SearchMac(st.neighbors, e.dest)].pairs
    ensures match SentUnicast(st, active, e, n)
            case Fatal(r) => r == NoSuchChannel || r == XorRunsOff
            case Done(s) => Inv(w, s.st)
  {
    hide Inv, Encoded, SentPlain, GoodTable, Indexed, GoodWaiting;
    SentPlainKeeps(w, st, active, e);
    EncodedKeeps(w, st, active, e, n);
  }

  /** What is left once the packet at the front has gone out of the queue and of its virtual queue. */
  lemma FrontTaken(w: World, st: Protocol)
    requires Inv(w, st) && st.queue.order != []
    requires st.queue.order[0] in st.queue.cells && st.queue.cells[st.queue.order[0]].Unicast()
    ensures var e := st.queue.cells[st.queue.order[0]];
            var i := SearchMac(st.neighbors, e.dest);
            && i < |st.neighbors|
            && var r := Unlinked(st.queue.cells, st.neighbors[i].virtualQueue, e.pid);
            && r.Done? && ReadyToSend(w,
                 st.(queue := Dequeued(st.queue), neighbors := WithQueue(st.neighbors, i, r.value)), e)
  {
    hide GoodTable, GoodWorld;
    var ptr := st.queue.order[0];
    var e := st.queue.cells[ptr];
    assert IndexedAt(st.neighbors, ptr, e.dest);
    var i := SearchMac(st.neighbors, e.dest);
    assert GoodVirtualQueue(st.queue.cells, st.neighbors[i]);
    UnlinkedAt(st.queue.cells, st.neighbors[i].virtualQueue, ptr);
    var vq := Unlinked(st.queue.cells, st.neighbors[i].virtualQueue, e.pid).value;
    UnlinkedIndexed(w, st.queue.cells, st.neighbors, ptr, i, vq);
    WithQueueTable(w, st.neighbors, i, vq);
    WithQueueWaiting(st.rtqueue, st.neighbors, i, vq);
    WithQueueSearch(st.neighbors, i, vq, e.dest);
    DequeuedGood(st.queue);
    AdmitsIff(Dequeued(st.queue), e.pid);
  }

  /** A hello or broadcast packet leaves the queue. */
  lemma FrontDropped(w: World, st: Protocol)
    requires Inv(w, st) && st.queue.order != []
    requires st.queue.order[0] in st.queue.cells && !st.queue.cells[st.queue.order[0]].Unicast()
    ensures var e := st.queue.cells[st.queue.order[0]];
            Inv(w, st.(queue := Dequeued(st.queue))) && Admits(Dequeued(st.queue), e.pid) && e.retry <= 3
  {
    hide GoodTable, GoodWorld, GoodWaiting;
    var ptr := st.queue.order[0];
    DequeuedGood(st.queue);
    AdmitsIff(Dequeued(st.queue), st.queue.cells[ptr].pid);
    forall j | 0 <= j < |st.neighbors|
      ensures GoodVirtualQueue(st.queue.cells - {ptr}, st.neighbors[j])
    {
      assert GoodVirtualQueue(st.queue.cells, st.neighbors[j]);
    }
    assert forall p | p in st.queue.cells && st.queue.cells[p].Unicast() ::
        IndexedAt(st.neighbors, p, st.queue.cells[p].dest);
  }

  /** Sending keeps the invariant, and the assertions on the way never fail: it stops, if at all, at a
      channel a coding candidate lacks or at an XOR of equal packets. */
  lemma SentKeeps(w: World, st: Protocol, active: seq<nat>)
    requires Inv(w, st) && st.queue.order != []
    ensures match Sent(st, active)
            case Fatal(r) => r == NoSuchChannel || r == XorRunsOff
            case Done(s) => Inv(w, s.st)
  {
    hide GoodTable, GoodWorld, GoodWaiting, Indexed, SentUnicast, SentPlain;
    var ptr := st.queue.order[0];
    assert ptr in st.queue.cells;
    var e := st.queue.cells[ptr];
    if e.Unicast() {
      FrontTaken(w, st);
      var i := SearchMac(st.neighbors, e.dest);
      var vq := Unlinked(st.queue.cells, st.neighbors[i].virtualQueue, e.pid).value;
      var st1 := st.(queue := Dequeued(st.queue), neighbors := WithQueue(st.neighbors, i, vq));
      if !GetItem(st.known, e.pid, GetMac(st.neighbors[i])) {
        WithQueueSearch(st.neighbors, i, vq, e.dest);
        SentUnicastKeeps(w, st1, active, e, st1.neighbors[i]);
      }
    } else {
      FrontDropped(w, st);
      if !e.hello {
        SentPlainKeeps(w, st.(queue := Dequeued(st.queue)), active, e);
      }
    }
  }

  lemma WaitingDequeued(q: Queue, ns: seq<Neighbor>)
    requires GoodWaiting(q, ns) && q.order != []
    ensures GoodWaiting(Dequeued(q), ns) && q.order[0] in q.cells
  {
    DequeuedGood(q);
  }

  /** Retransmission never stops, and keeps the invariant. */
  lemma RetransmittedKeeps(w: World, st: Protocol)
    requires Inv(w, st)
    ensures Retransmitted(st).Done? && Inv(w, Retransmitted(st).value)
  {
    hide GoodTable, GoodWorld, Indexed, Linked, Good;
    if st.rtqueue.order != [] {
      WaitingDequeued(st.rtqueue, st.neighbors);
      var e := st.rtqueue.cells[st.rtqueue.order[0]];
      var e' := e.(retry := (e.retry + 1) % 256);
      var st1 := st.(rtqueue := Dequeued(st.rtqueue));
      if Admits(st.queue, e.pid) {
        FrontLinkedKeeps(w, st1, e');
      }
    }
  }

  // ---------- What goes to the front ----------

  /** The packet has been put in front of the output queue and, if unicast, of its receiver's virtual queue;
      nothing else has changed in them. */
  ghost predicate GoesFirst(before: Protocol, after: Protocol, e: Entry) {
    var ptr := before.queue.next;
    && after.queue.order == [ptr] + before.queue.order && after.queue.cells == before.queue.cells[ptr := e]
    && if e.dest == BROADCAST then after.neighbors == before.neighbors
       else
         var i := SearchMac(before.neighbors, e.dest);
         i < |before.neighbors|
           && after.neighbors == WithQueue(before.neighbors, i, [ptr] + before.neighbors[i].virtualQueue)
  }

  lemma LinkedInFront(st: Protocol, e: Entry)
    requires Admits(st.queue, e.pid) && e.dest != BROADCAST
    requires Linked(EnqueuedFront(st.queue, e).cells, st.neighbors, st.queue.next, e.dest, true).Done?
    ensures var q := EnqueuedFront(st.queue, e);
            var ns := Linked(q.cells, st.neighbors, st.queue.next, e.dest, true).value;
            GoesFirst(st, st.(queue := q, neighbors := ns), e)
  {
    hide Admits, WithQueue;
  }

  /** A retransmission takes the packet that waited longest.  It goes to the front with one more retry, unless
      the output queue is full or has a packet with its id; then it is dropped and nothing else changes. */
  lemma RetransmittedGoesFirst(w: World, st: Protocol)
    requires Inv(w, st) && st.rtqueue.order != []
    ensures Retransmitted(st).Done? && st.rtqueue.order[0] in st.rtqueue.cells
    ensures var front := st.rtqueue.order[0];
            var e, st' := st.rtqueue.cells[front], Retransmitted(st).value;
            && st'.rtqueue.order == st.rtqueue.order[1..] && st'.rtqueue.cells == st.rtqueue.cells - {front}
            && st'.known == st.known
            && if |st.queue.order| < MAX_SIZE && (forall p | p in st.queue.cells :: st.queue.cells[p].pid != e.pid) then
                 GoesFirst(st, st', e.(retry := e.retry + 1))
               else st'.queue == st.queue && st'.neighbors == st.neighbors
  {
    hide GoodTable, GoodWorld, Indexed, Linked, Good, GoesFirst, Admits;
    WaitingDequeued(st.rtqueue, st.neighbors);
    var e := st.rtqueue.cells[st.rtqueue.order[0]];
    var e' := e.(retry := e.retry + 1);
    var st1 := st.(rtqueue := Dequeued(st.rtqueue));
    AdmitsIff(st.queue, e.pid);
    if Admits(st.queue, e.pid) {
      FrontLinkedKeeps(w, st1, e');
      LinkedInFront(st1, e');
      GoesFirstAlike(st1, st, Retransmitted(st).value, e');
    }
  }

  lemma GoesFirstAlike(a: Protocol, b: Protocol, after: Protocol, e: Entry)
    requires GoesFirst(a, after, e) && a.queue == b.queue && a.neighbors == b.neighbors
    ensures GoesFirst(b, after, e)
  {
  }

  /** One pointer leaves a virtual queue, and the others keep their order. */
  ghost predicate Minus(before: seq<nat>, after: seq<nat>, ptr: nat) {
    exists k :: 0 <= k < |before| && before[k] == ptr && after == before[..k] + before[k + 1..]
  }

  lemma {:induction false} UnlinkedMinus(cells: map<nat, Entry>, vq: seq<nat>, ptr: nat)
    requires ptr in vq && forall p | p in vq :: p in cells
    requires forall p | p in vq && cells[p].pid == cells[ptr].pid :: p == ptr
    ensures Unlinked(cells, vq, cells[ptr].pid).Done?
    ensures Minus(vq, Unlinked(cells, vq, cells[ptr].pid).value, ptr)
  {
    hide Minus;
    assert vq[0] in vq && forall p | p in vq[1..] :: p in vq;
    if vq[0] == ptr {
      MinusFirst(vq);
    } else {
      UnlinkedMinus(cells, vq[1..], ptr);
      MinusLater(vq, Unlinked(cells, vq[1..], cells[ptr].pid).value, ptr);
    }
  }

  lemma MinusFirst(vq: seq<nat>)
    requires vq != []
    ensures Minus(vq, vq[1..], vq[0])
  {
    assert vq[1..] == vq[..0] + vq[0 + 1..];
  }

  lemma MinusLater(vq: seq<nat>, rest: seq<nat>, ptr: nat)
    requires vq != [] && Minus(vq[1..], rest, ptr)
    ensures Minus(vq, [vq[0]] + rest, ptr)
  {
    var k :| 0 <= k < |vq[1..]| && vq[1..][k] == ptr && rest == vq[1..][..k] + vq[1..][k + 1..];
    assert vq[k + 1] == ptr && [vq[0]] + rest == vq[..k + 1] + vq[k + 1 + 1..];
  }

  /** What taking the front packet out leaves: the queue without it, and its virtual queue without it. */
  ghost predicate FrontGone(before: Protocol, after: Protocol) {
    && before.queue.order != [] && before.queue.order[0] in before.queue.cells
    && var ptr := before.queue.order[0];
    var e := before.queue.cells[ptr];
    && after.queue == Queue(before.queue.order[1..], before.queue.cells - {ptr}, before.queue.next)
    && if !e.Unicast() then after.neighbors == before.neighbors
       else
         var i := SearchMac(before.neighbors, e.dest);
         i < |before.neighbors|
           && exists vq :: Minus(before.neighbors[i].virtualQueue, vq, ptr)
                && after.neighbors == WithQueue(before.neighbors, i, vq)
  }

  lemma TakenIsGone(w: World, st: Protocol)
    requires Inv(w, st) && st.queue.order != []
    requires st.queue.order[0] in st.queue.cells && st.queue.cells[st.queue.order[0]].Unicast()
    ensures var e := st.queue.cells[st.queue.order[0]];
            var i := SearchMac(st.neighbors, e.dest);
            && i < |st.neighbors|
            && var r := Unlinked(st.queue.cells, st.neighbors[i].virtualQueue, e.pid);
            && r.Done?
            && FrontGone(st, st.(queue := Dequeued(st.queue), neighbors := WithQueue(st.neighbors, i, r.value)))
  {
    hide GoodTable, GoodWorld, GoodWaiting;
    var ptr := st.queue.order[0];
    var e := st.queue.cells[ptr];
    assert IndexedAt(st.neighbors, ptr, e.dest);
    var i := SearchMac(st.neighbors, e.dest);
    assert GoodVirtualQueue(st.queue.cells, st.neighbors[i]);
    UnlinkedMinus(st.queue.cells, st.neighbors[i].virtualQueue, ptr);
  }

  /** The receiver of the packet at the front is recorded as holding it. */
  ghost predicate FrontIsHeld(st: Protocol, e: Entry) {
    var i := SearchMac(st.neighbors, e.dest);
    e.dest != BROADCAST && i < |st.neighbors| && GetItem(st.known, e.pid, GetMac(st.neighbors[i]))
  }

  /** What sending does without handing out a coded frame: a hello goes out or stays where it is; a packet its
      receiver holds is dropped; any other goes out alone, or is first again if its interface is not active. */
  ghost predicate SentAlone(st: Protocol, active: seq<nat>, s: Sending) {
    && st.queue.order != [] && st.queue.order[0] in st.queue.cells
    && var e := st.queue.cells[st.queue.order[0]];
    && s.st.rtqueue == st.rtqueue && s.st.known == st.known
    && if e.hello then s.frame.None? && if e.iface in active then FrontGone(st, s.st) else s.st == st
       else if FrontIsHeld(st, e) then s.frame.None? && FrontGone(st, s.st)
       else if e.iface in active then s.frame.Some? && FrontGone(st, s.st)
       else s.frame.None? && exists gone :: FrontGone(st, gone) && GoesFirst(gone, s.st, e)
  }

  lemma PlainAlone(w: World, st: Protocol, gone: Protocol, active: seq<nat>, e: Entry)
    requires FrontGone(st, gone) && e == st.queue.cells[st.queue.order[0]] && !e.hello && !FrontIsHeld(st, e)
    requires ReadyToSend(w, gone, e) && gone.rtqueue == st.rtqueue && gone.known == st.known
    ensures SentPlain(gone, active, e).Done? && SentAlone(st, active, SentPlain(gone, active, e).value)
  {
    hide Inv, Linked, FrontGone, FrontIsHeld, GetItem, MinMac, GoesFirst;
    FrontLive(st, gone);
    SentPlainKeeps(w, gone, active, e);
    var s := SentPlain(gone, active, e).value;
    if e.iface in active {
    } else {
      PlainGoesFirst(w, gone, active, e);
    }
  }

  lemma FrontLive(st: Protocol, gone: Protocol)
    requires FrontGone(st, gone)
    ensures st.queue.order != [] && st.queue.order[0] in st.queue.cells
  {
  }

  lemma PlainGoesFirst(w: World, gone: Protocol, active: seq<nat>, e: Entry)
    requires ReadyToSend(w, gone, e) && e.iface !in active && SentPlain(gone, active, e).Done?
    ensures GoesFirst(gone, SentPlain(gone, active, e).value.st, e)
  {
    hide Inv, Linked, Admits;
    if e.dest != BROADCAST {
      FrontLinkedKeeps(w, gone, e);
      LinkedInFront(gone, e);
    }
  }

  /** Whenever DoSend does not hand out a coded frame it does one of these, so it loses no packet. */
  lemma SentAloneOrCoded(w: World, st: Protocol, active: seq<nat>)
    requires Inv(w, st) && st.queue.order != [] && Sent(st, active).Done?
    ensures var s := Sent(st, active).value; SentAlone(st, active, s) || (s.frame.Some? && |s.frame.value.pids| > 1)
  {
    hide GoodTable, GoodWorld, GoodWaiting, Indexed, SentPlain, SentAlone, GetItem, MinMac, FrontGone, Encoded;
    hide ReadyToSend, Unlinked;
    var ptr := st.queue.order[0];
    assert ptr in st.queue.cells;
    var e := st.queue.cells[ptr];
    if e.Unicast() {
      FrontTaken(w, st);
      TakenIsGone(w, st);
      var i := SearchMac(st.neighbors, e.dest);
      var vq := Unlinked(st.queue.cells, st.neighbors[i].virtualQueue, e.pid).value;
      var gone := st.(queue := Dequeued(st.queue), neighbors := WithQueue(st.neighbors, i, vq));
      if GetItem(st.known, e.pid, GetMac(st.neighbors[i])) {
        HeldAlone(st, gone, active);
      } else {
        WithQueueSearch(st.neighbors, i, vq, e.dest);
        PlainAlone(w, st, gone, active, e);
        PlainOrCoded(w, gone, active, e, gone.neighbors[i]);
      }
    } else {
      OthersAlone(w, st, active);
    }
  }

  lemma PlainOrCoded(w: World, st: Protocol, active: seq<nat>, e: Entry, n: Neighbor)
    requires ReadyToSend(w, st, e) && e.dest != BROADCAST && !GetItem(st.known, e.pid, GetMac(n))
    requires n.pairs == st.neighbors[SearchMac(st.neighbors, e.dest)].pairs
    requires SentUnicast(st, active, e, n).Done?
    ensures var s := SentUnicast(st, active, e, n).value;
            SentPlain(st, active, e) == Done(s) || (s.frame.Some? && |s.frame.value.pids| > 1)
  {
    hide Encoded, SentPlain, Inv, HeaderLists, PairwiseDecodable, Located, CommonChannels, Reaches, GetItem, MinMac;
    hide GoodTable, Indexed, GoodWaiting;
    EncodedKeeps(w, st, active, e, n);
  }

  lemma HeldAlone(st: Protocol, gone: Protocol, active: seq<nat>)
    requires FrontGone(st, gone) && gone.rtqueue == st.rtqueue && gone.known == st.known
    requires var e := st.queue.cells[st.queue.order[0]]; !e.hello && FrontIsHeld(st, e)
    ensures SentAlone(st, active, Sending(gone, None))
  {
    hide FrontIsHeld;
  }

  lemma OthersAlone(w: World, st: Protocol, active: seq<nat>)
    requires Inv(w, st) && st.queue.order != [] && Sent(st, active).Done?
    requires st.queue.order[0] in st.queue.cells && !st.queue.cells[st.queue.order[0]].Unicast()
    ensures SentAlone(st, active, Sent(st, active).value)
  {
    hide Inv, SentPlain, GoesFirst, Unlinked, GetItem, MinMac;
    var e := st.queue.cells[st.queue.order[0]];
    FrontDropped(w, st);
    var gone := st.(queue := Dequeued(st.queue));
    if !e.hello {
      PlainAlone(w, st, gone, active, e);
    }
  }

  lemma EnqueuedHelloKeeps(w: World, st: Protocol, e: Entry)
    requires Inv(w, st) && e.hello && e.retry == 0
    ensures Inv(w, EnqueuedHello(st, e))
  {
    FrontBroadcastKeeps(w, st, e);
  }
}
