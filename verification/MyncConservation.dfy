/** No packet is lost: whatever a node has accepted it still keeps, or has sent on, seen acknowledged, or
    dropped for one of the reasons there are. */
module MyncConservation {
  import opened Addresses
  import opened Options
  import opened XorCoding
  import opened MyncQueues
  import opened MyncNeighbors
  import opened MyncProtocol
  import opened MyncIndex
  import opened MyncCoding
  import opened MyncSending
  import opened MyncLearning
  import opened MyncRuns
  import opened MyncFrames
  import opened MyncCredits

  // ---------- Copies ----------

  ghost predicate Stores(q: Queue, pid: PacketId) {
    exists p :: p in q.cells && !q.cells[p].hello && q.cells[p].pid == pid
  }

  ghost function Stored(q: Queue, pid: PacketId): nat {
    if Stores(q, pid) then 1 else 0
  }

  /** How many copies of a packet a node keeps: one to be sent, and one that waits to be sent again. */
  ghost function Copies(st: Protocol, pid: PacketId): nat {
    Stored(st.queue, pid) + Stored(st.rtqueue, pid)
  }

  ghost function Counts(e: Entry, pid: PacketId): nat {
    if !e.hello && e.pid == pid then 1 else 0
  }

  lemma StoredWithout(q: Queue, after: Queue, ptr: nat, pid: PacketId)
    requires Good(q) && ptr in q.cells && after.cells == q.cells - {ptr}
    ensures Stored(q, pid) == Stored(after, pid) + Counts(q.cells[ptr], pid)
  {
    if Stores(after, pid) {
      var p :| p in after.cells && !after.cells[p].hello && after.cells[p].pid == pid;
      assert q.cells[p].pid == pid && p != ptr;
    } else if Stores(q, pid) {
      var p :| p in q.cells && !q.cells[p].hello && q.cells[p].pid == pid;
      assert p == ptr || p in after.cells;
    }
  }

  lemma StoredEnqueued(q: Queue, e: Entry, pid: PacketId)
    requires Good(q)
    ensures EnqueuedBack(q, e).cells == EnqueuedFront(q, e).cells
    ensures Stored(EnqueuedBack(q, e), pid) == Stored(q, pid) + if Admits(q, e.pid) then Counts(e, pid) else 0
    ensures Stored(EnqueuedFront(q, e), pid) == Stored(EnqueuedBack(q, e), pid)
  {
    hide Admits;
    AdmitsIff(q, e.pid);
    EnqueuedGood(q, e);
    var r := EnqueuedBack(q, e);
    if Admits(q, e.pid) {
      assert r.cells - {q.next} == q.cells;
      StoredWithout(r, q, q.next, pid);
    }
    SameCells(r, EnqueuedFront(q, e), pid);
  }

  lemma SameCells(q: Queue, r: Queue, pid: PacketId)
    requires q.cells == r.cells
    ensures Stored(q, pid) == Stored(r, pid)
  {
  }

  lemma StoredErased(q: Queue, ptr: nat, pid: PacketId)
    requires Good(q) && ptr in q.cells
    ensures Stored(q, pid) == Stored(Erased(q, q.cells[ptr].pid), pid) + Counts(q.cells[ptr], pid)
  {
    ErasedCells(q, ptr);
    StoredWithout(q, Erased(q, q.cells[ptr].pid), ptr, pid);
  }

  lemma StoredDropped(q: Queue, after: Queue, pids: seq<PacketId>, pid: PacketId)
    requires Drops(q, after, pids)
    ensures Stores(after, pid) <==> Stores(q, pid) && pid !in pids
  {
    if Stores(q, pid) && pid !in pids {
      var p :| p in q.cells && !q.cells[p].hello && q.cells[p].pid == pid;
      assert p in after.cells;
    }
  }

  // ---------- How a copy goes away ----------

  ghost predicate FrontIs(q: Queue, pid: PacketId) {
    q.order != [] && q.order[0] in q.cells && !q.cells[q.order[0]].hello && q.cells[q.order[0]].pid == pid
  }

  ghost predicate LastTry(q: Queue, pid: PacketId) {
    exists p :: p in q.cells && q.cells[p].pid == pid && q.cells[p].HitMax()
  }

  /** A native of a coded frame is not kept: it had been sent three times before, or a copy waits already, or
      there is no room among the waiting packets. */
  ghost predicate NotKept(before: Protocol, after: Protocol, pid: PacketId) {
    || LastTry(before.queue, pid)
    || Stores(before.rtqueue, pid)
    || (|after.rtqueue.order| == MAX_SIZE && !Stores(after.rtqueue, pid))
  }

  /** A step takes a copy away: it goes out uncoded, or in a coded frame without being kept; its receiver is
      recorded as holding it; it is acknowledged; or it cannot go back to the output queue, which is full or
      has the same id already. */
  ghost predicate Leaves(st: Protocol, step: Step, s: Sending, pid: PacketId) {
    match step
    case Send(_) =>
      if s.frame.None? then
        TriesToSend(st, step) && FrontIs(st.queue, pid) && FrontIsHeld(st, st.queue.cells[st.queue.order[0]])
      else pid in s.frame.value.pids && (|s.frame.value.pids| == 1 || NotKept(st, s.st, pid))
    case HearFrame(_, acks, _) => pid in acks && Stores(st.rtqueue, pid)
    case Retransmit => FrontIs(st.rtqueue, pid) && !Admits(st.queue, pid)
    case _ => false
  }

  ghost predicate TriesToSend(st: Protocol, step: Step) {
    step.Send? && step.active != [] && st.queue.order != []
  }

  // ---------- Encode ----------

  ghost predicate Partner(chosen: seq<Choice>, pid: PacketId) {
    exists k :: 1 <= k < |chosen| && chosen[k].pid == pid
  }

  /** What has become of a packet since the loop over neighbours began: nothing, unless it was chosen, and
      then it has left the output queue and waits, if it can. */
  ghost predicate Accounted(from: Coding, c: Coding, pid: PacketId) {
    && |from.rtqueue.order| <= |c.rtqueue.order|
    && if !Partner(c.chosen, pid) then
         Stored(c.queue, pid) == Stored(from.queue, pid) && Stored(c.rtqueue, pid) == Stored(from.rtqueue, pid)
           && (LastTry(c.queue, pid) <==> LastTry(from.queue, pid))
       else
         && Stored(from.queue, pid) == 1 && Stored(c.queue, pid) == 0
         && if LastTry(from.queue, pid) || Stores(from.rtqueue, pid) then
              Stored(c.rtqueue, pid) == Stored(from.rtqueue, pid)
            else Stores(c.rtqueue, pid) || |c.rtqueue.order| == MAX_SIZE
  }

  lemma PartnersOneMore(chosen: seq<Choice>, choice: Choice, pid: PacketId)
    requires chosen != []
    ensures Partner(chosen + [choice], pid) <==> Partner(chosen, pid) || choice.pid == pid
  {
    var all := chosen + [choice];
    if Partner(chosen, pid) {
      var k :| 1 <= k < |chosen| && chosen[k].pid == pid;
      assert all[k].pid == pid;
    }
    assert all[|chosen|] == choice;
  }

  lemma LastTryWithout(q: Queue, after: Queue, ptr: nat, pid: PacketId)
    requires Good(q) && ptr in q.cells && after.cells == q.cells - {ptr}
    ensures pid != q.cells[ptr].pid ==> (LastTry(after, pid) <==> LastTry(q, pid))
    ensures pid == q.cells[ptr].pid ==> (LastTry(q, pid) <==> q.cells[ptr].HitMax())
  {
    if pid != q.cells[ptr].pid && LastTry(q, pid) {
      var p :| p in q.cells && q.cells[p].pid == pid && q.cells[p].HitMax();
      assert p in after.cells;
    }
  }

  lemma Waits(q: Queue, e: Entry, pid: PacketId)
    requires Good(q) && e.Unicast() && forall p | p in q.cells :: !q.cells[p].hello
    ensures var r := EnqueuedBack(q, e);
            && |q.order| <= |r.order| && (|q.order| == MAX_SIZE ==> r == q)
            && (pid != e.pid || Stores(q, pid) ==> Stored(r, pid) == Stored(q, pid))
            && (pid == e.pid ==> Stores(r, pid) || |r.order| == MAX_SIZE)
  {
    StoredEnqueued(q, e, pid);
    AdmitsIff(q, e.pid);
    if pid == e.pid && !Admits(q, pid) && |q.order| < MAX_SIZE {
      var p :| p in q.cells && q.cells[p].pid == pid;
      assert Stores(q, pid);
    }
  }

  lemma JoinedAccounts(from: Coding, original: Entry, c: Coding, i: nat, out: (nat, Mac48Address), pid: PacketId)
    requires Good(c.queue) && Good(c.rtqueue) && Accounted(from, c, pid) && c.chosen != []
    requires forall p | p in c.rtqueue.cells :: !c.rtqueue.cells[p].hello
    requires i < |c.neighbors| && c.neighbors[i].virtualQueue != [] && c.neighbors[i].virtualQueue[0] in c.queue.cells
    requires c.queue.cells[c.neighbors[i].virtualQueue[0]].Unicast() && Joined(original, c, i, out).Done?
    ensures Accounted(from, Joined(original, c, i, out).value, pid)
  {
    hide Erased, EnqueuedBack, Good, MinMac, ChannelsOf, Xor, Partner;
    var ptr := c.neighbors[i].virtualQueue[0];
    var v := c.queue.cells[ptr];
    PartnersOneMore(c.chosen, ChoiceOf(c.neighbors[i], v), pid);
    ErasedCells(c.queue, ptr);
    StoredErased(c.queue, ptr, pid);
    LastTryWithout(c.queue, Erased(c.queue, v.pid), ptr, pid);
    Waits(c.rtqueue, v, pid);
  }

  lemma StepAccounts(from: Coding, known: PacketInfo, devices: seq<nat>, active: seq<nat>, original: Entry, c: Coding,
                     i: nat, pid: PacketId)
    requires Good(c.queue) && Good(c.rtqueue) && Accounted(from, c, pid) && i < |c.neighbors| && c.chosen != []
    requires forall p | p in c.rtqueue.cells :: !c.rtqueue.cells[p].hello
    requires forall p | p in c.neighbors[i].virtualQueue :: p in c.queue.cells && c.queue.cells[p].Unicast()
    requires EncodedStep(known, devices, active, original, c, i).Done?
    ensures Accounted(from, EncodedStep(known, devices, active, original, c, i).value, pid)
  {
    hide Joined, Interface, Compatible, MinMac, Good, Partner, Stored, LastTry, Stores;
    var n := c.neighbors[i];
    if n.virtualQueue != [] {
      var common := Intersection(c.channels, ChannelsOf(n.pairs));
      var r := Interface(devices, active, common, n.pairs);
      var c1 := c.(channels := common);
      if r.Done? && r.value.Some? && Joined(original, c1, i, r.value.value).Done? {
        JoinedAccounts(from, original, c1, i, r.value.value, pid);
      }
    }
  }

  lemma {:induction false} EncodedFromAccounts(w: World, from: Coding, known: PacketInfo, devices: seq<nat>,
                                               active: seq<nat>, original: Entry, c: Coding, i: nat, pid: PacketId)
    requires CodingInv(w, known, devices, active, original, c) && Accounted(from, c, pid) && i <= |c.neighbors|
    requires EncodedFrom(known, devices, active, original, c, i).Done?
    ensures Accounted(from, EncodedFrom(known, devices, active, original, c, i).value, pid)
    decreases |c.neighbors| - i
  {
    hide Accounted, CodingInv, EncodedStep;
    if i == |c.neighbors| {
    } else {
      EncodedStepKeeps(w, known, devices, active, original, c, i);
      CodingFacts(w, known, devices, active, original, c);
      StepAccounts(from, known, devices, active, original, c, i, pid);
      EncodedFromAccounts(w, from, known, devices, active, original,
        EncodedStep(known, devices, active, original, c, i).value, i + 1, pid);
    }
  }

  lemma CodingFacts(w: World, known: PacketInfo, devices: seq<nat>, active: seq<nat>, original: Entry, c: Coding)
    requires CodingInv(w, known, devices, active, original, c)
    ensures Good(c.queue) && Good(c.rtqueue) && c.chosen != []
    ensures forall p | p in c.rtqueue.cells :: !c.rtqueue.cells[p].hello
    ensures forall k, p | 0 <= k < |c.neighbors| && p in c.neighbors[k].virtualQueue ::
              p in c.queue.cells && c.queue.cells[p].Unicast()
  {
    hide GoodTable, HeaderLists, Located, PairwiseDecodable, CommonChannels;
    forall k, p | 0 <= k < |c.neighbors| && p in c.neighbors[k].virtualQueue
      ensures p in c.queue.cells && c.queue.cells[p].Unicast()
    {
      assert GoodVirtualQueue(c.queue.cells, c.neighbors[k]);
    }
  }

  lemma PidsAre(chosen: seq<Choice>, pid: PacketId)
    requires chosen != []
    ensures pid in Pids(chosen) <==> pid == chosen[0].pid || Partner(chosen, pid)
  {
    var pids := Pids(chosen);
    assert pids[0] == chosen[0].pid;
    if Partner(chosen, pid) {
      var k :| 1 <= k < |chosen| && chosen[k].pid == pid;
      assert pids[k] == pid;
    }
    if pid in pids && pid != chosen[0].pid {
      var k :| 0 <= k < |pids| && pids[k] == pid;
      assert 1 <= k && chosen[k].pid == pid;
    }
  }

  lemma NotYetKept(q: Queue, pid: PacketId)
    requires Good(q) && Admits(q, pid)
    ensures Stored(q, pid) == 0
  {
    AdmitsIff(q, pid);
  }

  /** What Encode leaves of a packet, when `last` tells whether a native among those chosen was on its last try. */
  ghost predicate CodedAccount(st: Protocol, c: Coding, pids: seq<PacketId>, pid: PacketId, last: bool, mine: nat) {
    Stored(c.queue, pid) + Stored(c.rtqueue, pid)
      + (if pid in pids && (last || Stores(st.rtqueue, pid)
           || (|c.rtqueue.order| == MAX_SIZE && !Stores(c.rtqueue, pid))) then 1 else 0)
    == Stored(st.queue, pid) + Stored(st.rtqueue, pid) + mine
  }

  lemma EncodedAccounts(w: World, st: Protocol, active: seq<nat>, e: Entry, n: Neighbor, pid: PacketId)
    requires ReadyToSend(w, st, e) && e.dest != BROADCAST && !GetItem(st.known, e.pid, GetMac(n))
    requires n.pairs == st.neighbors[SearchMac(st.neighbors, e.dest)].pairs
    requires Encoded(st, active, e, n).Done? && |Encoded(st, active, e, n).value.chosen| > 1
    ensures var c := Encoded(st, active, e, n).value;
            CodedAccount(st, c, Pids(c.chosen), pid, if pid == e.pid then e.HitMax() else LastTry(st.queue, pid),
              if pid == e.pid then 1 else 0)
  {
    hide CodingInv, EncodedFrom, EnqueuedBack, Pids, Partner, LastTry, Stores, Good, Admits, GetItem, MinMac, Inv;
    var start := CodingStart(st, e, n);
    CodingStarts(w, st, active, e, n);
    EncodedFromKeeps(w, st.known, st.devices, active, e, start, 0);
    NoPartnerYet(start.chosen, pid);
    EncodedFromAccounts(w, start, st.known, st.devices, active, e, start, 0, pid);
    var c0 := EncodedFrom(st.known, st.devices, active, e, start, 0).value;
    CodingFacts(w, st.known, st.devices, active, e, c0);
    FirstChosen(w, st.known, st.devices, active, e, c0);
    PidsAre(c0.chosen, pid);
    QueuesGood(w, st);
    NotYetKept(st.queue, e.pid);
    Waits(c0.rtqueue, e, pid);
  }

  lemma NoPartnerYet(chosen: seq<Choice>, pid: PacketId)
    requires |chosen| == 1
    ensures !Partner(chosen, pid)
  {
  }

  lemma FirstChosen(w: World, known: PacketInfo, devices: seq<nat>, active: seq<nat>, original: Entry, c: Coding)
    requires CodingInv(w, known, devices, active, original, c)
    ensures c.chosen != [] && c.chosen[0].pid == original.pid
  {
    hide GoodTable, HeaderLists, Located, PairwiseDecodable, CommonChannels, GoodWaiting, GoodOutput, Indexed;
  }

  // ---------- Sending ----------

  ghost function Left(st: Protocol, step: Step, s: Sending, pid: PacketId): nat {
    if Leaves(st, step, s, pid) then 1 else 0
  }

  /** The copies after a step make up, with the copy that goes away in it, for those there were. */
  ghost predicate Balanced(st: Protocol, step: Step, s: Sending, pid: PacketId) {
    Copies(s.st, pid) + Left(st, step, s, pid) == Copies(st, pid) + Accepted(st, step, pid)
  }

  lemma FrontGoneStored(st: Protocol, gone: Protocol, pid: PacketId)
    requires FrontGone(st, gone) && Good(st.queue)
    ensures Stored(st.queue, pid) == Stored(gone.queue, pid) + if FrontIs(st.queue, pid) then 1 else 0
  {
    StoredWithout(st.queue, gone.queue, st.queue.order[0], pid);
  }

  lemma GoesFirstStored(before: Protocol, after: Protocol, e: Entry, pid: PacketId)
    requires GoesFirst(before, after, e) && Good(before.queue)
    ensures Good(after.queue) ==> Stored(after.queue, pid) == Stored(before.queue, pid) + Counts(e, pid)
  {
    if Good(after.queue) {
      assert after.queue.cells - {before.queue.next} == before.queue.cells;
      StoredWithout(after.queue, before.queue, before.queue.next, pid);
    }
  }

  lemma AloneBalanced(w: World, st: Protocol, active: seq<nat>, s: Sending, pid: PacketId)
    requires Inv(w, st) && active != [] && st.queue.order != [] && SentAlone(st, active, s) && Inv(w, s.st)
    requires s.frame.Some? ==> s.frame.value.pids == [st.queue.cells[st.queue.order[0]].pid]
    ensures Balanced(st, Send(active), s, pid)
  {
    hide Inv, Stored, FrontGone, GoesFirst, Good, FrontIsHeld;
    QueuesGood(w, st);
    QueuesGood(w, s.st);
    var e := st.queue.cells[st.queue.order[0]];
    if FrontGone(st, s.st) {
      FrontGoneStored(st, s.st, pid);
    }
    if !e.hello && !FrontIsHeld(st, e) && e.iface !in active {
      var gone :| FrontGone(st, gone) && GoesFirst(gone, s.st, e);
      FrontGoneStored(st, gone, pid);
      GoneIsGood(st, gone);
      GoesFirstStored(gone, s.st, e, pid);
    }
  }

  lemma GoneIsGood(st: Protocol, gone: Protocol)
    requires FrontGone(st, gone) && Good(st.queue)
    ensures Good(gone.queue)
  {
    DequeuedGood(st.queue);
  }

  /** Taking the front packet out and coding it. */
  lemma CodedBalanced(w: World, st: Protocol, gone: Protocol, active: seq<nat>, e: Entry, n: Neighbor, pid: PacketId)
    requires Good(st.queue) && FrontGone(st, gone) && gone.rtqueue == st.rtqueue && gone.known == st.known
    requires active != [] && e == st.queue.cells[st.queue.order[0]]
    requires ReadyToSend(w, gone, e) && e.dest != BROADCAST && !GetItem(gone.known, e.pid, GetMac(n))
    requires n.pairs == gone.neighbors[SearchMac(gone.neighbors, e.dest)].pairs
    requires SentUnicast(gone, active, e, n).Done? && SentUnicast(gone, active, e, n).value.frame.Some?
    requires |SentUnicast(gone, active, e, n).value.frame.value.pids| > 1
    ensures Balanced(st, Send(active), SentUnicast(gone, active, e, n).value, pid)
  {
    hide Stored, FrontGone, Good, GetItem, MinMac, LastTry, ReadyToSend, Encoded, Pids, Stores;
    FrontGoneStored(st, gone, pid);
    FrontTry(st, gone, pid);
    LongFrameIsCoded(gone, active, e, n);
    EntryIsUnicast(w, gone, e);
    EncodedAccounts(w, gone, active, e, n, pid);
  }

  lemma FrontTry(st: Protocol, gone: Protocol, pid: PacketId)
    requires Good(st.queue) && FrontGone(st, gone)
    ensures st.queue.order != [] && st.queue.order[0] in st.queue.cells
    ensures var e := st.queue.cells[st.queue.order[0]];
            && (pid != e.pid ==> (LastTry(gone.queue, pid) <==> LastTry(st.queue, pid)))
            && (pid == e.pid ==> (LastTry(st.queue, pid) <==> e.HitMax()))
            && (FrontIs(st.queue, pid) <==> !e.hello && pid == e.pid)
  {
    LastTryWithout(st.queue, gone.queue, st.queue.order[0], pid);
  }

  lemma LongFrameIsCoded(st: Protocol, active: seq<nat>, e: Entry, n: Neighbor)
    requires SentUnicast(st, active, e, n).Done? && SentUnicast(st, active, e, n).value.frame.Some?
    requires |SentUnicast(st, active, e, n).value.frame.value.pids| > 1
    ensures Encoded(st, active, e, n).Done?
    ensures var c, s := Encoded(st, active, e, n).value, SentUnicast(st, active, e, n).value;
            && |c.chosen| > 1 && s.frame.value.pids == Pids(c.chosen)
            && s.st.queue == c.queue && s.st.rtqueue == c.rtqueue
  {
    hide Encoded, Linked, EnqueuedFront;
  }

  lemma SentBalanced(w: World, st: Protocol, active: seq<nat>, pid: PacketId)
    requires Inv(w, st) && active != [] && st.queue.order != [] && Sent(st, active).Done?
    ensures Balanced(st, Send(active), Sent(st, active).value, pid)
  {
    hide GoodTable, GoodWorld, GoodWaiting, Indexed, SentUnicast, SentPlain, Balanced, GetItem, MinMac, FrontGone;
    hide ReadyToSend, Unlinked, SentAlone, Decodable, KeepsNatives, IsCoded, IsFront;
    var s := Sent(st, active).value;
    SentKeeps(w, st, active);
    SentAloneOrCoded(w, st, active);
    if s.frame.Some? {
      SentFrameIsSound(w, st, active);
    }
    if s.frame.Some? && |s.frame.value.pids| > 1 {
      LongFrameBalanced(w, st, active, pid);
    } else {
      AloneBalanced(w, st, active, s, pid);
    }
  }

  lemma LongFrameBalanced(w: World, st: Protocol, active: seq<nat>, pid: PacketId)
    requires Inv(w, st) && active != [] && st.queue.order != [] && Sent(st, active).Done?
    requires Sent(st, active).value.frame.Some? && |Sent(st, active).value.frame.value.pids| > 1
    ensures Balanced(st, Send(active), Sent(st, active).value, pid)
  {
    hide GoodTable, GoodWorld, GoodWaiting, Indexed, SentUnicast, Balanced, GetItem, MinMac, FrontGone;
    hide ReadyToSend, Unlinked, EnqueuedFront, Linked;
    var e := st.queue.cells[st.queue.order[0]];
    assert e.Unicast();
    FrontTaken(w, st);
    TakenIsGone(w, st);
    var i := SearchMac(st.neighbors, e.dest);
    var vq := Unlinked(st.queue.cells, st.neighbors[i].virtualQueue, e.pid).value;
    var gone := st.(queue := Dequeued(st.queue), neighbors := WithQueue(st.neighbors, i, vq));
    WithQueueSearch(st.neighbors, i, vq, e.dest);
    CodedBalanced(w, st, gone, active, e, gone.neighbors[i], pid);
  }

  // ---------- What a coded frame takes out of the queue, in order ----------

  /** New packets only join the end of the queue. */
  ghost predicate Extends(q: Queue, q': Queue) {
    q.order <= q'.order && forall p | p in q.cells :: p in q'.cells && q'.cells[p] == q.cells[p]
  }

  lemma EnqueuedExtends(q: Queue, e: Entry)
    requires Good(q)
    ensures Extends(q, EnqueuedBack(q, e))
  {
    hide Admits;
  }

  lemma ExtendsFurther(a: Queue, b: Queue, c: Queue)
    requires Extends(a, b) && Extends(b, c)
    ensures Extends(a, c)
  {
  }

  lemma {:induction false} UnlistedTwice(order: seq<nat>, cells: map<nat, Entry>, cells': map<nat, Entry>,
                                         a: seq<PacketId>, b: seq<PacketId>)
    requires forall p | p in order :: p in cells
    requires forall p | p in order && cells[p].pid !in a :: p in cells' && cells'[p] == cells[p]
    ensures Unlisted(Unlisted(order, cells, a), cells', b) == Unlisted(order, cells, a + b)
  {
    if order != [] {
      var p := order[0];
      assert p in order && forall pid :: pid in a + b <==> pid in a || pid in b;
      UnlistedTwice(order[1..], cells, cells', a, b);
      var rest := Unlisted(order[1..], cells, a);
      if cells[p].pid in a {
        assert Unlisted(order, cells, a) == rest;
      } else {
        UnlistedSplits([p], rest, cells', b);
        assert [p][1..] == [] && Unlisted([p], cells', b) == if cells[p].pid in b then [] else [p];
      }
    }
  }

  lemma DropsTwice(q: Queue, q': Queue, q'': Queue, a: seq<PacketId>, b: seq<PacketId>)
    requires (forall p | p in q.order :: p in q.cells) && Drops(q, q', a) && Drops(q', q'', b)
    ensures Drops(q, q'', a + b)
  {
    UnlistedTwice(q.order, q.cells, q'.cells, a, b);
  }

  lemma ErasedDrops(q: Queue, pid: PacketId)
    requires Good(q)
    ensures Drops(q, Erased(q, pid), [pid])
  {
    AcknowledgedDrops(q, [pid]);
    assert [pid][1..] == [];
    assert Acknowledged(Erased(q, pid), []) == Erased(q, pid);
    assert Acknowledged(q, [pid]) == Acknowledged(Erased(q, pid), [pid][1..]);
  }

  /** The partners chosen so far have left the output queue, and the waiting packets only got more. */
  ghost predicate Shifts(from: Coding, c: Coding) {
    c.chosen != [] && Drops(from.queue, c.queue, Pids(c.chosen)[1..]) && Extends(from.rtqueue, c.rtqueue)
  }

  lemma PidsOneMore(chosen: seq<Choice>, choice: Choice)
    requires chosen != []
    ensures Pids(chosen + [choice])[1..] == Pids(chosen)[1..] + [choice.pid]
  {
  }

  lemma JoinedShifts(from: Coding, original: Entry, c: Coding, i: nat, out: (nat, Mac48Address))
    requires Good(from.queue) && Good(c.queue) && Good(c.rtqueue) && Shifts(from, c)
    requires i < |c.neighbors| && c.neighbors[i].virtualQueue != [] && c.neighbors[i].virtualQueue[0] in c.queue.cells
    requires Joined(original, c, i, out).Done?
    ensures Shifts(from, Joined(original, c, i, out).value)
  {
    hide Erased, EnqueuedBack, Good, MinMac, ChannelsOf, Xor, Drops, Pids, Extends;
    var v := c.queue.cells[c.neighbors[i].virtualQueue[0]];
    PidsOneMore(c.chosen, ChoiceOf(c.neighbors[i], v));
    ErasedDrops(c.queue, v.pid);
    FirstPid(c.chosen);
    OrderIsCells(from.queue);
    DropsTwice(from.queue, c.queue, Erased(c.queue, v.pid), Pids(c.chosen)[1..], [v.pid]);
    EnqueuedExtends(c.rtqueue, v);
    ExtendsFurther(from.rtqueue, c.rtqueue, EnqueuedBack(c.rtqueue, v));
  }

  lemma StepShifts(from: Coding, known: PacketInfo, devices: seq<nat>, active: seq<nat>, original: Entry, c: Coding,
                   i: nat)
    requires Good(from.queue) && Good(c.queue) && Good(c.rtqueue) && Shifts(from, c) && i < |c.neighbors|
    requires EncodedStep(known, devices, active, original, c, i).Done?
    ensures Shifts(from, EncodedStep(known, devices, active, original, c, i).value)
  {
    hide Joined, Interface, Compatible, MinMac, Good, Drops, Extends, Pids;
    var n := c.neighbors[i];
    if n.virtualQueue != [] && n.virtualQueue[0] in c.queue.cells {
      var common := Intersection(c.channels, ChannelsOf(n.pairs));
      var r := Interface(devices, active, common, n.pairs);
      var c1 := c.(channels := common);
      if r.Done? && r.value.Some? && Joined(original, c1, i, r.value.value).Done? {
        JoinedShifts(from, original, c1, i, r.value.value);
      }
    }
  }

  lemma {:induction false} EncodedFromShifts(w: World, from: Coding, known: PacketInfo, devices: seq<nat>,
                                             active: seq<nat>, original: Entry, c: Coding, i: nat)
    requires Good(from.queue) && Shifts(from, c) && i <= |c.neighbors|
    requires CodingInv(w, known, devices, active, original, c)
    requires EncodedFrom(known, devices, active, original, c, i).Done?
    ensures Shifts(from, EncodedFrom(known, devices, active, original, c, i).value)
    decreases |c.neighbors| - i
  {
    hide Shifts, CodingInv, EncodedStep, Good;
    if i == |c.neighbors| {
    } else {
      EncodedStepKeeps(w, known, devices, active, original, c, i);
      CodingFacts(w, known, devices, active, original, c);
      StepShifts(from, known, devices, active, original, c, i);
      EncodedFromShifts(w, from, known, devices, active, original,
        EncodedStep(known, devices, active, original, c, i).value, i + 1);
    }
  }

  lemma EncodedShifts(w: World, st: Protocol, active: seq<nat>, e: Entry, n: Neighbor)
    requires ReadyToSend(w, st, e) && e.dest != BROADCAST && !GetItem(st.known, e.pid, GetMac(n))
    requires n.pairs == st.neighbors[SearchMac(st.neighbors, e.dest)].pairs
    requires Encoded(st, active, e, n).Done? && |Encoded(st, active, e, n).value.chosen| > 1
    ensures var c := Encoded(st, active, e, n).value;
            && Drops(st.queue, c.queue, Pids(c.chosen)[1..]) && Extends(st.rtqueue, c.rtqueue)
            && c.chosen[0].pid == e.pid
  {
    hide CodingInv, EncodedFrom, EnqueuedBack, Pids, Good, Admits, GetItem, MinMac, Inv, Drops, Extends;
    var start := CodingStart(st, e, n);
    CodingStarts(w, st, active, e, n);
    QueuesGood(w, st);
    NothingShifted(st.queue, st.rtqueue, start.chosen);
    EncodedFromShifts(w, start, st.known, st.devices, active, e, start, 0);
    EncodedFromKeeps(w, st.known, st.devices, active, e, start, 0);
    var c0 := EncodedFrom(st.known, st.devices, active, e, start, 0).value;
    CodingFacts(w, st.known, st.devices, active, e, c0);
    FirstChosen(w, st.known, st.devices, active, e, c0);
    EnqueuedExtends(c0.rtqueue, e);
    ExtendsFurther(st.rtqueue, c0.rtqueue, EnqueuedBack(c0.rtqueue, e));
  }

  lemma NothingShifted(q: Queue, rtqueue: Queue, chosen: seq<Choice>)
    requires |chosen| == 1
    ensures Drops(q, q, Pids(chosen)[1..]) && Extends(rtqueue, rtqueue)
  {
    assert Pids(chosen)[1..] == [];
    NothingUnlisted(q.order, q.cells);
  }

  lemma FrontGoneDrops(st: Protocol, gone: Protocol)
    requires Good(st.queue) && FrontGone(st, gone)
    ensures Drops(st.queue, gone.queue, [st.queue.cells[st.queue.order[0]].pid])
  {
    hide Good, Unlisted;
    var order, ptr := st.queue.order, st.queue.order[0];
    var pid := st.queue.cells[ptr].pid;
    assert order == [ptr] + order[1..] && [pid][1..] == [];
    RestIsOther(st.queue);
    UnlistedSplits([ptr], order[1..], st.queue.cells, [pid]);
    UnlistedFirst(st.queue.cells, ptr, [pid]);
    UnlistedRest(order[1..], st.queue.cells, gone.queue.cells, [pid]);
    NothingUnlisted(order[1..], gone.queue.cells);
  }

  lemma RestIsOther(q: Queue)
    requires Good(q) && q.order != []
    ensures q.order[0] in q.cells
    ensures forall p | p in q.order[1..] ::
              p in q.cells && p != q.order[0] && q.cells[p].pid != q.cells[q.order[0]].pid
    ensures forall p | p in q.cells && q.cells[p].pid == q.cells[q.order[0]].pid :: p == q.order[0]
  {
    assert forall p | p in q.order[1..] :: p in q.order;
  }

  /** A coded frame takes exactly its natives out of the output queue and leaves the others in their order; what
      waits to be sent again stays where it is, and natives join the end. */
  lemma CodedTakesNatives(w: World, st: Protocol, active: seq<nat>)
    requires Inv(w, st) && st.queue.order != [] && Sent(st, active).Done?
    requires Sent(st, active).value.frame.Some? && |Sent(st, active).value.frame.value.pids| > 1
    ensures var s := Sent(st, active).value;
            Drops(st.queue, s.st.queue, s.frame.value.pids) && Extends(st.rtqueue, s.st.rtqueue)
  {
    hide GoodTable, GoodWorld, GoodWaiting, Indexed, SentUnicast, GetItem, MinMac, FrontGone, Drops, Extends, Pids;
    hide ReadyToSend, Unlinked, EnqueuedFront, Linked, Encoded;
    var e := st.queue.cells[st.queue.order[0]];
    assert e.Unicast();
    FrontTaken(w, st);
    TakenIsGone(w, st);
    var i := SearchMac(st.neighbors, e.dest);
    var vq := Unlinked(st.queue.cells, st.neighbors[i].virtualQueue, e.pid).value;
    var gone := st.(queue := Dequeued(st.queue), neighbors := WithQueue(st.neighbors, i, vq));
    WithQueueSearch(st.neighbors, i, vq, e.dest);
    LongFrameIsCoded(gone, active, e, gone.neighbors[i]);
    EncodedShifts(w, gone, active, e, gone.neighbors[i]);
    var c := Encoded(gone, active, e, gone.neighbors[i]).value;
    FrontGoneDrops(st, gone);
    DropsTwice(st.queue, gone.queue, c.queue, [e.pid], Pids(c.chosen)[1..]);
    FirstAndRest(c.chosen);
  }

  lemma FirstAndRest(chosen: seq<Choice>)
    requires chosen != []
    ensures Pids(chosen) == [chosen[0].pid] + Pids(chosen)[1..]
  {
  }

  // ---------- Every step ----------

  lemma RetransmittedBalanced(w: World, st: Protocol, pid: PacketId)
    requires Inv(w, st) && Retransmitted(st).Done?
    ensures Balanced(st, Retransmit, Sending(Retransmitted(st).value, None), pid)
  {
    hide Inv, Stored, GoesFirst, Good, Admits;
    QueuesGood(w, st);
    if st.rtqueue.order != [] {
      RetransmittedGoesFirst(w, st);
      RetransmittedKeeps(w, st);
      var front, st' := st.rtqueue.order[0], Retransmitted(st).value;
      var e := st.rtqueue.cells[front];
      QueuesGood(w, st');
      AdmitsIff(st.queue, e.pid);
      StoredWithout(st.rtqueue, st'.rtqueue, front, pid);
      if Admits(st.queue, e.pid) {
        GoesFirstStored(st, st', e.(retry := e.retry + 1), pid);
      }
    }
  }

  lemma EnqueuedBalanced(w: World, st: Protocol, e: Entry, pid: PacketId)
    requires Inv(w, st) && OwnInterface(st.devices, Enqueue(e)) && Stepped(st, Enqueue(e)).Done?
    ensures Balanced(st, Enqueue(e), Stepped(st, Enqueue(e)).value, pid)
  {
    hide Inv, Stored, Good, Admits, Linked, Added;
    QueuesGood(w, st);
    StoredEnqueued(st.queue, e, pid);
  }

  lemma FrameBalanced(w: World, st: Protocol, t: AddressPair, acks: seq<PacketId>, held: seq<PacketId>, pid: PacketId)
    requires Inv(w, st) && Sender(w, t) && FrameReceived(st, t, acks, held).Done?
    ensures Balanced(st, HearFrame(t, acks, held), Sending(FrameReceived(st, t, acks, held).value, None), pid)
  {
    hide Inv, Stores, Good, FrameReceived, Drops;
    FrameReceivedKeeps(w, st, t, acks, held);
    StoredDropped(st.rtqueue, FrameReceived(st, t, acks, held).value.rtqueue, acks, pid);
  }

  /** Conservation, step by step: a copy comes in when a packet is accepted, and goes away for a stated reason. */
  lemma SteppedBalances(w: World, st: Protocol, step: Step, pid: PacketId)
    requires Inv(w, st) && ValidStep(w, st.devices, step) && Stepped(st, step).Done?
    ensures Balanced(st, step, Stepped(st, step).value, pid)
  {
    hide Inv, Sent, Retransmitted, Learned, FrameReceived, Stored, EnqueuedData, Sender, Complete;
    match step {
      case Enqueue(e) =>
        EnqueuedBalanced(w, st, e, pid);
      case Send(active) =>
        if active != [] && st.queue.order != [] {
          SentBalanced(w, st, active, pid);
        }
      case Retransmit =>
        RetransmittedBalanced(w, st, pid);
      case HearHello(pairs) =>
        LearningSendsNothing(st, pairs);
      case HearFrame(sender, acks, held) =>
        FrameBalanced(w, st, sender, acks, held, pid);
    }
  }

  // ---------- Whole runs ----------

  /** How many copies of a packet went away during a run. */
  ghost function LeftDuring(st: Protocol, steps: seq<Step>, pid: PacketId): nat
    requires forall step | step in steps :: OwnInterface(st.devices, step)
    decreases |steps|
  {
    if steps == [] then 0
    else
      match Stepped(st, steps[0])
      case Fatal(_) => 0
      case Done(s) => Left(st, steps[0], s, pid) + LeftDuring(s.st, steps[1..], pid)
  }

  lemma {:induction false} PlayedBalances(w: World, st: Protocol, steps: seq<Step>, pid: PacketId)
    requires Inv(w, st) && forall step | step in steps :: ValidStep(w, st.devices, step)
    ensures forall step | step in steps :: OwnInterface(st.devices, step)
    ensures var r := Played(st, steps);
            r.Done? ==>
              Copies(r.value.st, pid) + LeftDuring(st, steps, pid) == Copies(st, pid) + AcceptedDuring(st, steps, pid)
    decreases |steps|
  {
    hide Inv, Stepped, Copies, Left, Accepted;
    if steps == [] {
    } else {
      SteppedKeeps(w, st, steps[0]);
      var r := Stepped(st, steps[0]);
      if r.Done? {
        SteppedBalances(w, st, steps[0], pid);
        PlayedBalances(w, r.value.st, steps[1..], pid);
      }
    }
  }

  /** From an empty protocol, over every run: as often as a packet was accepted, so many copies of it are still
      queued or waiting, or have left for one of the reasons of Leaves, one for each. */
  lemma NothingIsLost(w: World, devices: seq<nat>, steps: seq<Step>, pid: PacketId)
    requires GoodWorld(w) && forall step | step in steps :: ValidStep(w, devices, step)
    ensures forall step | step in steps :: OwnInterface(devices, step)
    ensures var r := Played(Start(devices), steps);
            r.Done? ==>
              Copies(r.value.st, pid) + LeftDuring(Start(devices), steps, pid)
                == AcceptedDuring(Start(devices), steps, pid)
  {
    StartsIndexed(w, devices);
    PlayedBalances(w, Start(devices), steps, pid);
  }
}
