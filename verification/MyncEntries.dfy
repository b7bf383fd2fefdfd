/** What holds of every packet handed to the protocol holds of every packet it ever keeps: the operations
    move entries between the queues and count retries, and make up none. */
module MyncEntries {
  import opened Addresses
  import opened Options
  import opened XorCoding
  import opened MyncQueues
  import opened MyncNeighbors
  import opened MyncProtocol

  /** A property of packets, whatever their retry count. */
  type Property = Entry -> bool

  ghost predicate IgnoresRetry(P: Property) {
    forall e: Entry, retry: nat | P(e) :: P(e.(retry := retry))
  }

  ghost predicate Every(P: Property, q: Queue) {
    forall p | p in q.cells :: P(q.cells[p])
  }

  ghost predicate EveryQueued(P: Property, st: Protocol) {
    Every(P, st.queue) && Every(P, st.rtqueue)
  }

  // ---------- The queues ----------

  lemma EnqueuedEvery(P: Property, q: Queue, e: Entry)
    requires Every(P, q) && P(e)
    ensures Every(P, EnqueuedBack(q, e)) && Every(P, EnqueuedFront(q, e))
  {
  }

  lemma ErasedEvery(P: Property, q: Queue, pid: PacketId)
    requires Every(P, q)
    ensures Every(P, Erased(q, pid))
  {
  }

  lemma DequeuedEvery(P: Property, q: Queue)
    requires Every(P, q) && q.order != []
    ensures Every(P, Dequeued(q)) && (q.order[0] in q.cells ==> P(q.cells[q.order[0]]))
  {
  }

  lemma EveryCell(P: Property, q: Queue, ptr: nat)
    requires Every(P, q) && ptr in q.cells
    ensures P(q.cells[ptr])
  {
  }

  lemma {:induction false} AcknowledgedEvery(P: Property, q: Queue, acks: seq<PacketId>)
    requires Every(P, q)
    ensures Every(P, Acknowledged(q, acks))
    decreases |acks|
  {
    hide Every, Erased;
    if acks == [] {
    } else {
      ErasedEvery(P, q, acks[0]);
      AcknowledgedEvery(P, Erased(q, acks[0]), acks[1..]);
    }
  }

  // ---------- Coding and sending ----------

  lemma StepEvery(P: Property, known: PacketInfo, devices: seq<nat>, active: seq<nat>, original: Entry, c: Coding,
                  i: nat)
    requires i < |c.neighbors| && Every(P, c.queue) && Every(P, c.rtqueue)
    requires EncodedStep(known, devices, active, original, c, i).Done?
    ensures var c' := EncodedStep(known, devices, active, original, c, i).value;
            Every(P, c'.queue) && Every(P, c'.rtqueue)
  {
    hide Every, Compatible, Interface, Erased, EnqueuedBack, MinMac, ChannelsOf, Intersection, Xor;
    if c.neighbors[i].virtualQueue != [] && c.neighbors[i].virtualQueue[0] in c.queue.cells {
      var v := c.queue.cells[c.neighbors[i].virtualQueue[0]];
      EveryCell(P, c.queue, c.neighbors[i].virtualQueue[0]);
      EnqueuedEvery(P, c.rtqueue, v);
      ErasedEvery(P, c.queue, v.pid);
    }
  }

  lemma {:induction false} EncodedFromEvery(P: Property, known: PacketInfo, devices: seq<nat>, active: seq<nat>,
                                            original: Entry, c: Coding, i: nat)
    requires i <= |c.neighbors| && Every(P, c.queue) && Every(P, c.rtqueue)
    requires EncodedFrom(known, devices, active, original, c, i).Done?
    ensures var c' := EncodedFrom(known, devices, active, original, c, i).value;
            Every(P, c'.queue) && Every(P, c'.rtqueue)
    decreases |c.neighbors| - i
  {
    hide Every, EncodedStep;
    if i == |c.neighbors| {
    } else {
      StepEvery(P, known, devices, active, original, c, i);
      EncodedFromEvery(P, known, devices, active, original, EncodedStep(known, devices, active, original, c, i).value, i
        + 1);
    }
  }

  lemma EncodedEvery(P: Property, st: Protocol, active: seq<nat>, e: Entry, n: Neighbor)
    requires EveryQueued(P, st) && P(e) && Encoded(st, active, e, n).Done?
    ensures var c := Encoded(st, active, e, n).value; Every(P, c.queue) && Every(P, c.rtqueue)
  {
    hide Every, EncodedFrom, EnqueuedBack, MinMac, ChannelsOf;
    EncodedFromEvery(P, st.known, st.devices, active, e, CodingStart(st, e, n), 0);
    EnqueuedEvery(P, EncodedFrom(st.known, st.devices, active, e, CodingStart(st, e, n), 0).value.rtqueue, e);
  }

  lemma SentPlainEvery(P: Property, st: Protocol, active: seq<nat>, e: Entry)
    requires EveryQueued(P, st) && P(e) && SentPlain(st, active, e).Done?
    ensures EveryQueued(P, SentPlain(st, active, e).value.st)
  {
    hide Every, EnqueuedFront, Linked;
    EnqueuedEvery(P, st.queue, e);
  }

  lemma SentUnicastEvery(P: Property, st: Protocol, active: seq<nat>, e: Entry, n: Neighbor)
    requires EveryQueued(P, st) && P(e) && SentUnicast(st, active, e, n).Done?
    ensures EveryQueued(P, SentUnicast(st, active, e, n).value.st)
  {
    hide Every, Encoded, SentPlain;
    if SentPlain(st, active, e).Done? {
      SentPlainEvery(P, st, active, e);
    }
    if Encoded(st, active, e, n).Done? {
      EncodedEvery(P, st, active, e, n);
    }
  }

  lemma SentEvery(P: Property, st: Protocol, active: seq<nat>)
    requires EveryQueued(P, st) && Sent(st, active).Done?
    ensures EveryQueued(P, Sent(st, active).value.st)
  {
    hide Every, SentUnicast, SentPlain, Unlinked, GetItem, MinMac, Dequeued;
    DequeuedEvery(P, st.queue);
    var e := st.queue.cells[st.queue.order[0]];
    var st1 := st.(queue := Dequeued(st.queue));
    if SentPlain(st1, active, e).Done? {
      SentPlainEvery(P, st1, active, e);
    }
    var i := SearchMac(st.neighbors, e.dest);
    if i < |st.neighbors| && Unlinked(st.queue.cells, st.neighbors[i].virtualQueue, e.pid).Done? {
      var vq := Unlinked(st.queue.cells, st.neighbors[i].virtualQueue, e.pid).value;
      var ns := WithQueue(st.neighbors, i, vq);
      if SentUnicast(st1.(neighbors := ns), active, e, ns[i]).Done? {
        SentUnicastEvery(P, st1.(neighbors := ns), active, e, ns[i]);
      }
    }
  }

  lemma RetransmittedEvery(P: Property, st: Protocol)
    requires EveryQueued(P, st) && IgnoresRetry(P) && Retransmitted(st).Done?
    ensures EveryQueued(P, Retransmitted(st).value)
  {
    hide Every, EnqueuedFront, Linked, Dequeued, Admits;
    if st.rtqueue.order != [] {
      DequeuedEvery(P, st.rtqueue);
      var e := st.rtqueue.cells[st.rtqueue.order[0]];
      EnqueuedEvery(P, st.queue, e.(retry := (e.retry + 1) % 256));
    }
  }
}
