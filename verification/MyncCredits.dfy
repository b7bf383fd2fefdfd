/** Retransmission is bounded: an accepted packet is sent at most four times. */
module MyncCredits {
  import opened Addresses
  import opened Options
  import opened XorCoding
  import opened MyncQueues
  import opened MyncNeighbors
  import opened MyncProtocol
  import opened MyncIndex
  import opened MyncCoding
  import opened MyncSending
  import opened MyncLearning
  import opened MyncRuns

  // ---------- How often a packet can still be sent ----------

  const FROM_OUTPUT := 4

  const FROM_WAITING := 3

  /** A packet sent again r times so far can go out 4 - r times from the output queue, and 3 - r times
      once it waits for retransmission.  Hellos are not counted. */
  function Allowance(e: Entry, limit: nat): nat {
    if e.hello || e.retry > limit then 0 else limit - e.retry
  }

  ghost function QueueCredit(cells: map<nat, Entry>, limit: nat, pid: PacketId): nat {
    if p :| p in cells && cells[p].pid == pid then Allowance(cells[p], limit) else 0
  }

  ghost function Credit(st: Protocol, pid: PacketId): nat {
    QueueCredit(st.queue.cells, FROM_OUTPUT, pid) + QueueCredit(st.rtqueue.cells, FROM_WAITING, pid)
  }

  lemma CreditOf(cells: map<nat, Entry>, limit: nat, p: nat)
    requires UniquePids(cells) && p in cells
    ensures QueueCredit(cells, limit, cells[p].pid) == Allowance(cells[p], limit)
  {
  }

  lemma CreditWithout(cells: map<nat, Entry>, limit: nat, p: nat, pid: PacketId)
    requires UniquePids(cells) && p in cells
    ensures QueueCredit(cells, limit, pid)
         == QueueCredit(cells - {p}, limit, pid) + if pid == cells[p].pid then Allowance(cells[p], limit) else 0
  {
    if pid == cells[p].pid {
      CreditOf(cells, limit, p);
    } else if q :| q in cells && cells[q].pid == pid {
      CreditOf(cells, limit, q);
      CreditOf(cells - {p}, limit, q);
    }
  }

  lemma CreditWith(cells: map<nat, Entry>, limit: nat, p: nat, e: Entry, pid: PacketId)
    requires UniquePids(cells) && p !in cells && forall q | q in cells :: cells[q].pid != e.pid
    ensures QueueCredit(cells[p := e], limit, pid)
         == QueueCredit(cells, limit, pid) + if pid == e.pid then Allowance(e, limit) else 0
  {
    CreditWithout(cells[p := e], limit, p, pid);
    assert cells[p := e] - {p} == cells;
  }

  // ---------- Credits of the queue operations ----------

  lemma EnqueuedCredit(q: Queue, e: Entry, limit: nat, pid: PacketId)
    requires Good(q)
    ensures EnqueuedBack(q, e).cells == EnqueuedFront(q, e).cells
    ensures QueueCredit(EnqueuedBack(q, e).cells, limit, pid)
         == QueueCredit(q.cells, limit, pid) + if pid == e.pid && Admits(q, pid) then Allowance(e, limit) else 0
  {
    hide QueueCredit, Allowance;
    AdmitsIff(q, e.pid);
    if Admits(q, e.pid) {
      CreditWith(q.cells, limit, q.next, e, pid);
    }
  }

  lemma DequeuedCredit(q: Queue, limit: nat, pid: PacketId)
    requires Good(q) && q.order != []
    ensures q.order[0] in q.cells
    ensures QueueCredit(q.cells, limit, pid) == QueueCredit(Dequeued(q).cells, limit, pid) +
            if pid == q.cells[q.order[0]].pid then Allowance(q.cells[q.order[0]], limit) else 0
  {
    DequeuedGood(q);
    CreditWithout(q.cells, limit, q.order[0], pid);
  }

  lemma ErasedCredit(q: Queue, limit: nat, p: nat, pid: PacketId)
    requires Good(q) && p in q.cells
    ensures QueueCredit(q.cells, limit, pid) == QueueCredit(Erased(q, q.cells[p].pid).cells, limit, pid) +
            if pid == q.cells[p].pid then Allowance(q.cells[p], limit) else 0
  {
    ErasedCells(q, p);
    CreditWithout(q.cells, limit, p, pid);
  }

  lemma ErasedCreditFalls(q: Queue, limit: nat, erased: PacketId, pid: PacketId)
    requires Good(q)
    ensures QueueCredit(Erased(q, erased).cells, limit, pid) <= QueueCredit(q.cells, limit, pid)
  {
    if p :| p in q.cells && q.cells[p].pid == erased {
      ErasedCredit(q, limit, p, pid);
    } else {
      PositionFound(q, erased);
    }
  }

  lemma {:induction false} AcknowledgedCredit(q: Queue, limit: nat, acks: seq<PacketId>, pid: PacketId)
    requires Good(q)
    ensures QueueCredit(Acknowledged(q, acks).cells, limit, pid) <= QueueCredit(q.cells, limit, pid)
    decreases |acks|
  {
    if acks == [] {
    } else {
      ErasedGood(q, acks[0]);
      ErasedCreditFalls(q, limit, acks[0], pid);
      AcknowledgedCredit(Erased(q, acks[0]), limit, acks[1..], pid);
    }
  }

  // ---------- Encode ----------

  /** How often a frame carries a packet. */
  ghost function Carried(pids: seq<PacketId>, pid: PacketId): nat {
    multiset(pids)[pid]
  }

  ghost function CodingCredit(c: Coding, pid: PacketId): nat {
    QueueCredit(c.queue.cells, FROM_OUTPUT, pid) + QueueCredit(c.rtqueue.cells, FROM_WAITING, pid)
      + Carried(Pids(c.chosen), pid)
  }

  lemma PidsAppended(chosen: seq<Choice>, choice: Choice, pid: PacketId)
    ensures Carried(Pids(chosen + [choice]), pid) == Carried(Pids(chosen), pid) + if pid == choice.pid then 1 else 0
  {
    assert Pids(chosen + [choice]) == Pids(chosen) + [choice.pid];
  }

  /** A native that joins the frame pays for it: in the retransmission queue it can go out once less. */
  lemma AcceptedCredit(q: Queue, rtqueue: Queue, p: nat, pid: PacketId)
    requires Good(q) && Good(rtqueue) && p in q.cells && q.cells[p].Unicast() && q.cells[p].retry <= 3
    ensures var v := q.cells[p];
            var rt := if v.HitMax() then rtqueue else EnqueuedBack(rtqueue, v);
            QueueCredit(Erased(q, v.pid).cells, FROM_OUTPUT, pid) + QueueCredit(rt.cells, FROM_WAITING, pid)
              + (if pid == v.pid then 1 else 0)
            <= QueueCredit(q.cells, FROM_OUTPUT, pid) + QueueCredit(rtqueue.cells, FROM_WAITING, pid)
  {
    hide QueueCredit;
    ErasedCredit(q, FROM_OUTPUT, p, pid);
    EnqueuedCredit(rtqueue, q.cells[p], FROM_WAITING, pid);
  }

  lemma EncodedStepCredit(w: World, known: PacketInfo, devices: seq<nat>, active: seq<nat>, original: Entry, c: Coding,
                          i: nat, pid: PacketId)
    requires CodingInv(w, known, devices, active, original, c) && i < |c.neighbors|
    requires EncodedStep(known, devices, active, original, c, i).Done?
    ensures CodingCredit(EncodedStep(known, devices, active, original, c, i).value, pid) <= CodingCredit(c, pid)
  {
    hide GoodTable, HeaderLists, Located, PairwiseDecodable, CommonChannels, Reaches, Interface, Compatible;
    hide QueueCredit, Pids, Carried;
    var n := c.neighbors[i];
    if n.virtualQueue != [] && n.virtualQueue[0] in c.queue.cells {
      assert GoodVirtualQueue(c.queue.cells, n);
      var v := c.queue.cells[n.virtualQueue[0]];
      AcceptedCredit(c.queue, c.rtqueue, n.virtualQueue[0], pid);
      PidsAppended(c.chosen, Choice(v.pid, v.dest, GetMac(n), ChannelsOf(n.pairs), v.packet), pid);
    }
  }

  lemma {:induction false} EncodedFromCredit(w: World, known: PacketInfo, devices: seq<nat>, active: seq<nat>,
                                             original: Entry, c: Coding, i: nat, pid: PacketId)
    requires CodingInv(w, known, devices, active, original, c) && i <= |c.neighbors|
    requires EncodedFrom(known, devices, active, original, c, i).Done?
    ensures CodingCredit(EncodedFrom(known, devices, active, original, c, i).value, pid) <= CodingCredit(c, pid)
    decreases |c.neighbors| - i
  {
    hide CodingInv, EncodedStep, CodingCredit;
    if i == |c.neighbors| {
    } else {
      EncodedStepKeeps(w, known, devices, active, original, c, i);
      EncodedStepCredit(w, known, devices, active, original, c, i, pid);
      EncodedFromCredit(w, known, devices, active, original, EncodedStep(known, devices, active, original, c, i).value,
        i + 1, pid);
    }
  }

  /** The frame and what is left of the credits together stay within what there was, the original's
      allowance included. */
  lemma EncodedCredit(w: World, st: Protocol, active: seq<nat>, e: Entry, n: Neighbor, pid: PacketId)
    requires ReadyToSend(w, st, e) && e.dest != BROADCAST && !GetItem(st.known, e.pid, GetMac(n))
    requires n.pairs == st.neighbors[SearchMac(st.neighbors, e.dest)].pairs
    requires Encoded(st, active, e, n).Done? && |Encoded(st, active, e, n).value.chosen| > 1
    ensures CodingCredit(Encoded(st, active, e, n).value, pid)
         <= Credit(st, pid) + if pid == e.pid then Allowance(e, FROM_OUTPUT) else 0
  {
    hide CodingInv, EncodedFrom, QueueCredit, Carried;
    var start := CodingStart(st, e, n);
    CodingStarts(w, st, active, e, n);
    EncodedFromKeeps(w, st.known, st.devices, active, e, start, 0);
    EncodedFromCredit(w, st.known, st.devices, active, e, start, 0, pid);
    var c := EncodedFrom(st.known, st.devices, active, e, start, 0).value;
    PidsAppended([], start.chosen[0], pid);
    NothingCarried(pid);
    assert [] + [start.chosen[0]] == start.chosen;
    RtqueueGood(w, st.known, st.devices, active, e, c);
    EnqueuedCredit(c.rtqueue, e, FROM_WAITING, pid);
  }

  lemma NothingCarried(pid: PacketId)
    ensures Carried(Pids([]), pid) == 0
  {
  }

  lemma RtqueueGood(w: World, known: PacketInfo, devices: seq<nat>, active: seq<nat>, original: Entry, c: Coding)
    requires CodingInv(w, known, devices, active, original, c)
    ensures Good(c.rtqueue)
  {
  }

  // ---------- Steps ----------

  ghost function FrameCarries(o: Option<Frame>, pid: PacketId): nat {
    if o.None? then 0 else Carried(o.value.pids, pid)
  }

  /** Sending a packet uncoded, or putting it back. */
  lemma SentPlainCredit(w: World, st: Protocol, active: seq<nat>, e: Entry, pid: PacketId)
    requires ReadyToSend(w, st, e) && SentPlain(st, active, e).Done?
    ensures var s := SentPlain(st, active, e).value;
            Credit(s.st, pid) + FrameCarries(s.frame, pid) <= Credit(st, pid) + if pid
              == e.pid then Allowance(e, FROM_OUTPUT) else 0
  {
    hide QueueCredit, Linked, Inv;
    QueuesGood(w, st);
    EnqueuedCredit(st.queue, e, FROM_OUTPUT, pid);
  }

  lemma QueuesGood(w: World, st: Protocol)
    requires Inv(w, st)
    ensures Good(st.queue) && Good(st.rtqueue)
    ensures forall p | p in st.queue.cells :: st.queue.cells[p].retry <= 3
    ensures forall p | p in st.rtqueue.cells :: st.rtqueue.cells[p].retry <= 2 && !st.rtqueue.cells[p].hello
  {
  }

  lemma SentUnicastCredit(w: World, st: Protocol, active: seq<nat>, e: Entry, n: Neighbor, pid: PacketId)
    requires ReadyToSend(w, st, e) && e.dest != BROADCAST && !GetItem(st.known, e.pid, GetMac(n))
    requires n.pairs == st.neighbors[SearchMac(st.neighbors, e.dest)].pairs
    requires SentUnicast(st, active, e, n).Done?
    ensures var s := SentUnicast(st, active, e, n).value;
            Credit(s.st, pid) + FrameCarries(s.frame, pid) <= Credit(st, pid) + if pid
              == e.pid then Allowance(e, FROM_OUTPUT) else 0
  {
    hide QueueCredit, Encoded, SentPlain, Inv, Carried, Allowance;
    if SentPlain(st, active, e).Done? {
      SentPlainCredit(w, st, active, e, pid);
    }
    if Encoded(st, active, e, n).Done? {
      EncodedKeeps(w, st, active, e, n);
      if |Encoded(st, active, e, n).value.chosen| > 1 {
        EncodedCredit(w, st, active, e, n, pid);
      }
    }
  }

  lemma SentCredit(w: World, st: Protocol, active: seq<nat>, pid: PacketId)
    requires Inv(w, st) && st.queue.order != [] && Sent(st, active).Done?
    ensures var s := Sent(st, active).value; Credit(s.st, pid) + FrameCarries(s.frame, pid) <= Credit(st, pid)
  {
    hide QueueCredit, SentUnicast, SentPlain, Inv, Carried, Allowance, GetItem;
    QueuesGood(w, st);
    DequeuedCredit(st.queue, FROM_OUTPUT, pid);
    var e := st.queue.cells[st.queue.order[0]];
    if e.Unicast() {
      FrontTaken(w, st);
      var i := SearchMac(st.neighbors, e.dest);
      var vq := Unlinked(st.queue.cells, st.neighbors[i].virtualQueue, e.pid).value;
      var st1 := st.(queue := Dequeued(st.queue), neighbors := WithQueue(st.neighbors, i, vq));
      if !GetItem(st.known, e.pid, GetMac(st.neighbors[i])) {
        WithQueueSearch(st.neighbors, i, vq, e.dest);
        SentUnicastCredit(w, st1, active, e, st1.neighbors[i], pid);
      }
    } else if !e.hello {
      FrontDropped(w, st);
      SentPlainCredit(w, st.(queue := Dequeued(st.queue)), active, e, pid);
    }
  }

  /** A retransmitted packet comes back to the output queue with exactly what it had left, or is dropped if
      the queue is full or has its id. */
  lemma RetransmittedCredit(w: World, st: Protocol, pid: PacketId)
    requires Inv(w, st) && Retransmitted(st).Done?
    ensures Credit(st, pid) == Credit(Retransmitted(st).value, pid) + GivenUp(st, pid)
  {
    hide QueueCredit, Inv, Linked, Admits;
    QueuesGood(w, st);
    if st.rtqueue.order != [] {
      DequeuedCredit(st.rtqueue, FROM_WAITING, pid);
      var e := st.rtqueue.cells[st.rtqueue.order[0]];
      EnqueuedCredit(st.queue, e.(retry := e.retry + 1), FROM_OUTPUT, pid);
    }
  }

  /** What a packet had left that is dropped instead of being sent again. */
  ghost function GivenUp(st: Protocol, pid: PacketId): nat {
    if st.rtqueue.order == [] || st.rtqueue.order[0] !in st.rtqueue.cells then 0
    else
      var e := st.rtqueue.cells[st.rtqueue.order[0]];
      if pid == e.pid && !Admits(st.queue, pid) then Allowance(e, FROM_WAITING) else 0
  }

  /** Whether the step puts a new packet with the given id into the output queue. */
  function Accepted(st: Protocol, step: Step, pid: PacketId): nat {
    if step.Enqueue? && !step.entry.hello && step.entry.pid == pid && Admits(st.queue, pid) then 1 else 0
  }

  /** Only an accepted packet raises the credit, by four; every transmission lowers it by at least one. */
  lemma SteppedCredit(w: World, st: Protocol, step: Step, pid: PacketId)
    requires Inv(w, st) && ValidStep(w, st.devices, step) && Stepped(st, step).Done?
    ensures var s := Stepped(st, step).value;
            Credit(s.st, pid) + FrameCarries(s.frame, pid) <= Credit(st, pid) + FROM_OUTPUT * Accepted(st, step, pid)
  {
    hide Inv, Sent, Retransmitted, Learned, Linked, QueueCredit, Admits, Recognized;
    QueuesGood(w, st);
    match step {
      case Enqueue(e) =>
        EnqueuedCredit(st.queue, e, FROM_OUTPUT, pid);
      case Send(active) =>
        if active != [] && st.queue.order != [] {
          SentCredit(w, st, active, pid);
        }
      case Retransmit =>
        RetransmittedCredit(w, st, pid);
      case HearHello(pairs) =>
        LearningSendsNothing(st, pairs);
      case HearFrame(_, acks, _) =>
        AcknowledgedCredit(st.rtqueue, FROM_WAITING, acks, pid);
    }
  }

  lemma LearningSendsNothing(st: Protocol, pairs: seq<AddressPair>)
    requires Learned(st, pairs).Done?
    ensures Learned(st, pairs).value.queue == st.queue && Learned(st, pairs).value.rtqueue == st.rtqueue
  {
  }

  // ---------- Runs ----------

  /** How often a packet was accepted during a run, and how often it was transmitted. */
  function AcceptedDuring(st: Protocol, steps: seq<Step>, pid: PacketId): nat
    requires forall step | step in steps :: OwnInterface(st.devices, step)
    decreases |steps|
  {
    if steps == [] then 0
    else
      Accepted(st, steps[0], pid) +
      match Stepped(st, steps[0])
      case Fatal(_) => 0
      case Done(s) => AcceptedDuring(s.st, steps[1..], pid)
  }

  ghost function Transmissions(frames: seq<Frame>, pid: PacketId): nat {
    if frames == [] then 0 else Carried(frames[0].pids, pid) + Transmissions(frames[1..], pid)
  }

  lemma {:induction false} PlayedCredit(w: World, st: Protocol, steps: seq<Step>, pid: PacketId)
    requires Inv(w, st) && forall step | step in steps :: ValidStep(w, st.devices, step)
    ensures forall step | step in steps :: OwnInterface(st.devices, step)
    ensures var r := Played(st, steps);
            r.Done? ==>
              Credit(r.value.st, pid) + Transmissions(r.value.frames, pid) <= Credit(st, pid)
                + FROM_OUTPUT * AcceptedDuring(st, steps, pid)
    decreases |steps|
  {
    hide Inv, Stepped, Credit, Carried, Accepted;
    if steps == [] {
    } else {
      SteppedKeeps(w, st, steps[0]);
      var r := Stepped(st, steps[0]);
      if r.Done? {
        SteppedCredit(w, st, steps[0], pid);
        PlayedCredit(w, r.value.st, steps[1..], pid);
        if Played(r.value.st, steps[1..]).Done? {
          var frames := Played(r.value.st, steps[1..]).value.frames;
          assert r.value.frame.Some? ==> ([r.value.frame.value] + frames)[1..] == frames;
          assert r.value.frame.None? ==> [] + frames == frames;
        }
      }
    }
  }

  /** From an empty protocol, whatever happens, a packet is transmitted at most four times for each
      time it was accepted. */
  lemma AtMostFourTransmissions(w: World, devices: seq<nat>, steps: seq<Step>, pid: PacketId)
    requires GoodWorld(w) && forall step | step in steps :: ValidStep(w, devices, step)
    ensures forall step | step in steps :: OwnInterface(devices, step)
    ensures var r := Played(Start(devices), steps);
            r.Done? ==> Transmissions(r.value.frames, pid) <= 4 * AcceptedDuring(Start(devices), steps, pid)
  {
    StartsIndexed(w, devices);
    PlayedCredit(w, Start(devices), steps, pid);
  }
}
