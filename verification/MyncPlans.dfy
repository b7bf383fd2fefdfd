/** What Encode does among any number of neighbours that hold one another's packets: channels and active
    interfaces alone decide. */
module MyncPlans {
  import opened Addresses
  import opened Options
  import opened XorCoding
  import opened MyncQueues
  import opened MyncNeighbors
  import opened MyncProtocol
  import opened MyncIndex
  import opened MyncCoding
  import opened MyncChannels

  // ---------- Who offers a packet ----------

  /** The packet the neighbour is to receive next, if it is not the receiver of the original. */
  ghost predicate Offers(cells: map<nat, Entry>, n: Neighbor, mac: Mac48Address) {
    n.virtualQueue != [] && n.virtualQueue[0] in cells && GetMac(n) != mac
  }

  ghost function Offered(cells: map<nat, Entry>, n: Neighbor): Entry
    requires n.virtualQueue != [] && n.virtualQueue[0] in cells
  {
    cells[n.virtualQueue[0]]
  }

  /** Everybody concerned lacks its own packet and is on record as holding those of all others, and the
      packets offered differ from the original. */
  ghost predicate AllHold(known: PacketInfo, cells: map<nat, Entry>, ns: seq<Neighbor>, e: Entry, mac: Mac48Address) {
    && (forall i | 0 <= i < |ns| && Offers(cells, ns[i], mac) ::
          var v := Offered(cells, ns[i]);
          && !GetItem(known, v.pid, GetMac(ns[i])) && GetItem(known, v.pid, mac) && GetItem(known, e.pid, GetMac(ns[i]))
          && Xor(e.packet, v.packet) != [])
    && (forall i, k | 0 <= i < |ns| && 0 <= k < |ns| && i != k && Offers(cells, ns[i], mac)
         && Offers(cells, ns[k], mac) ::
          GetItem(known, Offered(cells, ns[i]).pid, GetMac(ns[k])))
  }

  // ---------- The plan ----------

  /** The channels left before the turn of neighbour i. */
  ghost function LeftBefore(cells: map<nat, Entry>, ns: seq<Neighbor>, mac: Mac48Address, channels: seq<nat>,
                            i: nat): seq<nat>
    requires i <= |ns|
  {
    if i == 0 then channels
    else
      var left := LeftBefore(cells, ns, mac, channels, i - 1);
      if Offers(cells, ns[i - 1], mac) then Narrowed(left, ns[i - 1].pairs) else left
  }

  /** Those that join before the turn of neighbour i: an active interface is on what they share of the
      channels left. */
  ghost function JoinedBefore(cells: map<nat, Entry>, ns: seq<Neighbor>, mac: Mac48Address, channels: seq<nat>,
                              devices: seq<nat>, active: seq<nat>, i: nat): seq<Choice>
    requires i <= |ns|
  {
    if i == 0 then []
    else
      var joined := JoinedBefore(cells, ns, mac, channels, devices, active, i - 1);
      var left := LeftBefore(cells, ns, mac, channels, i - 1);
      if Offers(cells, ns[i - 1], mac) && Joins(devices, active, left, ns[i - 1].pairs)
      then joined + [ChoiceOf(ns[i - 1], Offered(cells, ns[i - 1]))] else joined
  }

  /** At neighbour i Encode stops: it has none of the channels left, and an active interface is on one. */
  ghost predicate StopsAt(cells: map<nat, Entry>, ns: seq<Neighbor>, mac: Mac48Address, channels: seq<nat>,
                          devices: seq<nat>, active: seq<nat>, i: nat)
    requires i < |ns|
  {
    Offers(cells, ns[i], mac) && Foreign(devices, active, LeftBefore(cells, ns, mac, channels, i), ns[i].pairs)
  }

  ghost predicate StopsFrom(cells: map<nat, Entry>, ns: seq<Neighbor>, mac: Mac48Address, channels: seq<nat>,
                            devices: seq<nat>, active: seq<nat>, i: nat)
  {
    exists k :: i <= k < |ns| && StopsAt(cells, ns, mac, channels, devices, active, k)
  }

  lemma {:induction false} JoinedAre(cells: map<nat, Entry>, ns: seq<Neighbor>, mac: Mac48Address, channels: seq<nat>,
                                     devices: seq<nat>, active: seq<nat>, i: nat)
    requires i <= |ns|
    ensures forall x | x in JoinedBefore(cells, ns, mac, channels, devices, active, i) ::
              exists k :: 0 <= k < i && Offers(cells, ns[k], mac) && x == ChoiceOf(ns[k], Offered(cells, ns[k]))
  {
    hide Joins, Narrowed, ChoiceOf, LeftBefore;
    if i == 0 {
    } else {
      JoinedAre(cells, ns, mac, channels, devices, active, i - 1);
    }
  }

  lemma DifferentMacs(w: World, ns: seq<Neighbor>, i: nat, k: nat)
    requires GoodTable(w, ns) && i < |ns| && k < |ns| && i != k
    ensures GetMac(ns[i]) != GetMac(ns[k])
  {
    assert TrueNeighbor(w, ns[i]) && TrueNeighbor(w, ns[k]);
    assert HasMac(ns[i], GetMac(ns[i])) && HasMac(ns[k], GetMac(ns[k]));
  }

  // ---------- Encode follows the plan ----------

  /** Encode before the turn of neighbour i. */
  ghost predicate OnPlan(w: World, st: Protocol, active: seq<nat>, e: Entry, n: Neighbor, c: Coding, i: nat) {
    && CodingInv(w, st.known, st.devices, active, e, c) && Ascending(c.channels)
    && i <= |c.neighbors| == |st.neighbors|
    && (forall k | i <= k < |st.neighbors| :: c.neighbors[k] == st.neighbors[k])
    && (forall p | p in c.queue.cells :: p in st.queue.cells && c.queue.cells[p] == st.queue.cells[p])
    && c.channels == LeftBefore(st.queue.cells, st.neighbors, GetMac(n), ChannelsOf(n.pairs), i)
    && c.chosen == [ChoiceOf(n, e)]
         + JoinedBefore(st.queue.cells, st.neighbors, GetMac(n), ChannelsOf(n.pairs), st.devices, active, i)
  }

  lemma PlannedPasses(w: World, st: Protocol, active: seq<nat>, e: Entry, n: Neighbor, c: Coding, i: nat)
    requires OnPlan(w, st, active, e, n, c, i) && i < |st.neighbors| && GoodTable(w, st.neighbors)
    requires AllHold(st.known, st.queue.cells, st.neighbors, e, GetMac(n))
    requires Offers(st.queue.cells, st.neighbors[i], GetMac(n))
    ensures Passes(st.known, c, i)
    ensures c.queue.cells[c.neighbors[i].virtualQueue[0]] == Offered(st.queue.cells, st.neighbors[i])
  {
    hide GetItem, MinMac, ChannelsOf, LeftBefore, JoinedBefore, GoodTable, Ascending, FrameSoFar, Joins, Xor;
    hide GoodOutput, GoodWaiting, HeaderLists, Located, PairwiseDecodable, CommonChannels, Indexed;
    var cells, ns, mac := st.queue.cells, st.neighbors, GetMac(n);
    HeadIsLive(c, i);
    var v := Offered(cells, ns[i]);
    JoinedAre(cells, ns, mac, ChannelsOf(n.pairs), st.devices, active, i);
    forall x | x in c.chosen
      ensures x.mac != GetMac(ns[i]) && GetItem(st.known, v.pid, x.mac) && GetItem(st.known, x.pid, GetMac(ns[i]))
    {
      if x != ChoiceOf(n, e) {
        var k :| 0 <= k < i && Offers(cells, ns[k], mac) && x == ChoiceOf(ns[k], Offered(cells, ns[k]));
        DifferentMacs(w, ns, i, k);
      }
    }
    assert forall k | 0 <= k < |c.chosen| :: c.chosen[k] in c.chosen;
  }

  /** A neighbour without a packet, or the receiver of the original, is passed over. */
  lemma PassedOver(known: PacketInfo, devices: seq<nat>, active: seq<nat>, e: Entry, c: Coding, i: nat)
    requires i < |c.neighbors|
    requires (c.neighbors[i].virtualQueue == [] || exists x :: x in c.chosen && x.mac == GetMac(c.neighbors[i]))
    ensures EncodedStep(known, devices, active, e, c, i) == Done(c)
  {
  }

  lemma PlanTurn(w: World, st: Protocol, active: seq<nat>, e: Entry, n: Neighbor, c: Coding, i: nat)
    requires OnPlan(w, st, active, e, n, c, i) && i < |st.neighbors| && GoodTable(w, st.neighbors)
    requires Indexed(st.queue.cells, st.neighbors)
    requires AllHold(st.known, st.queue.cells, st.neighbors, e, GetMac(n))
    ensures var r := EncodedStep(st.known, st.devices, active, e, c, i);
            if StopsAt(st.queue.cells, st.neighbors, GetMac(n), ChannelsOf(n.pairs), st.devices, active, i)
            then r == Fatal(NoSuchChannel)
            else r.Done? && OnPlan(w, st, active, e, n, r.value, i + 1)
  {
    hide EncodedStep, CodingInv, GetItem, MinMac, ChannelsOf, GoodTable, Ascending, Joins, Foreign, Narrowed, Passes;
    hide Xor, Indexed, AllHold;
    var cells, ns, mac := st.queue.cells, st.neighbors, GetMac(n);
    if Offers(cells, ns[i], mac) {
      PlannedPasses(w, st, active, e, n, c, i);
      OfferDiffers(st.known, cells, ns, e, mac, i);
      PassingTurn(w, st.known, st.devices, active, e, c, i);
      var r := EncodedStep(st.known, st.devices, active, e, c, i);
      if r.Done? {
        PairsStay(st.known, st.devices, active, e, c, i);
        CellsStay(st.known, st.devices, active, e, c, i);
        assert [ChoiceOf(n, e)] + (c.chosen[1..] + [ChoiceOf(ns[i], Offered(cells, ns[i]))]) == c.chosen
            + [ChoiceOf(ns[i], Offered(cells, ns[i]))];
      }
    } else {
      HeadsLive(cells, ns, i);
      assert c.chosen[0] in c.chosen;
      PassedOver(st.known, st.devices, active, e, c, i);
    }
  }

  lemma HeadsLive(cells: map<nat, Entry>, ns: seq<Neighbor>, i: nat)
    requires Indexed(cells, ns) && i < |ns|
    ensures ns[i].virtualQueue != [] ==> ns[i].virtualQueue[0] in cells
  {
    assert GoodVirtualQueue(cells, ns[i]);
  }

  lemma OfferDiffers(known: PacketInfo, cells: map<nat, Entry>, ns: seq<Neighbor>, e: Entry, mac: Mac48Address, i: nat)
    requires AllHold(known, cells, ns, e, mac) && i < |ns| && Offers(cells, ns[i], mac)
    ensures Xor(e.packet, Offered(cells, ns[i]).packet) != []
  {
  }

  lemma {:induction false} PlanFollowed(w: World, st: Protocol, active: seq<nat>, e: Entry, n: Neighbor, c: Coding,
                                        i: nat)
    requires OnPlan(w, st, active, e, n, c, i) && GoodTable(w, st.neighbors) && Indexed(st.queue.cells, st.neighbors)
    requires AllHold(st.known, st.queue.cells, st.neighbors, e, GetMac(n))
    ensures var r := EncodedFrom(st.known, st.devices, active, e, c, i);
            if StopsFrom(st.queue.cells, st.neighbors, GetMac(n), ChannelsOf(n.pairs), st.devices, active, i)
            then r == Fatal(NoSuchChannel)
            else r.Done? && OnPlan(w, st, active, e, n, r.value, |st.neighbors|)
    decreases |st.neighbors| - i
  {
    hide EncodedStep, CodingInv, MinMac, ChannelsOf, GoodTable, Ascending, StopsAt, LeftBefore, JoinedBefore, AllHold;
    hide Indexed;
    if i == |st.neighbors| {
    } else {
      PlanTurn(w, st, active, e, n, c, i);
      var r := EncodedStep(st.known, st.devices, active, e, c, i);
      if r.Done? {
        PlanFollowed(w, st, active, e, n, r.value, i + 1);
      }
    }
  }

  lemma PlanStarts(w: World, st: Protocol, active: seq<nat>, e: Entry, n: Neighbor)
    requires ReadyToSend(w, st, e) && e.dest != BROADCAST && !GetItem(st.known, e.pid, GetMac(n))
    requires n.pairs == st.neighbors[SearchMac(st.neighbors, e.dest)].pairs
    ensures OnPlan(w, st, active, e, n, CodingStart(st, e, n), 0)
  {
    hide CodingInv, ReadyToSend, MinMac, ChannelsOf, Ascending;
    CodingStarts(w, st, active, e, n);
    ChannelsAscend(n.pairs);
  }

  /** Any number of neighbours that hold one another's packets: whether Encode stops, which channels
      survive and which packets are coded is what the plan says. */
  lemma EncodedByPlan(w: World, st: Protocol, active: seq<nat>, e: Entry, n: Neighbor)
    requires ReadyToSend(w, st, e) && e.dest != BROADCAST && !GetItem(st.known, e.pid, GetMac(n))
    requires n.pairs == st.neighbors[SearchMac(st.neighbors, e.dest)].pairs
    requires AllHold(st.known, st.queue.cells, st.neighbors, e, GetMac(n))
    ensures var cells, ns, mac, channels := st.queue.cells, st.neighbors, GetMac(n), ChannelsOf(n.pairs);
            var r := Encoded(st, active, e, n);
            if StopsFrom(cells, ns, mac, channels, st.devices, active, 0) then r == Fatal(NoSuchChannel)
            else
              && r.Done? && r.value.channels == LeftBefore(cells, ns, mac, channels, |ns|)
              && r.value.chosen == [ChoiceOf(n, e)] + JoinedBefore(cells, ns, mac, channels, st.devices, active, |ns|)
  {
    hide CodingInv, MinMac, ChannelsOf, GoodTable, Ascending, StopsAt, LeftBefore, JoinedBefore, AllHold, Indexed;
    hide EncodedFrom, GetItem;
    hide GoodWaiting, GoodOutput, StopsFrom, GoodWorld;
    PlanStarts(w, st, active, e, n);
    PlanFollowed(w, st, active, e, n, CodingStart(st, e, n), 0);
  }

  /** So the coded frame goes out on a surviving channel if and only if an active interface is on one of
      those the plan leaves. */
  lemma OnSurvivorByPlan(w: World, st: Protocol, active: seq<nat>, e: Entry, n: Neighbor)
    requires ReadyToSend(w, st, e) && e.dest != BROADCAST && !GetItem(st.known, e.pid, GetMac(n))
    requires n.pairs == st.neighbors[SearchMac(st.neighbors, e.dest)].pairs
    requires AllHold(st.known, st.queue.cells, st.neighbors, e, GetMac(n))
    requires Encoded(st, active, e, n).Done? && |Encoded(st, active, e, n).value.chosen| > 1
    ensures OnSurvivor(st.devices, Encoded(st, active, e, n).value) <==>
            SomeActive(st.devices, active,
              LeftBefore(st.queue.cells, st.neighbors, GetMac(n), ChannelsOf(n.pairs), |st.neighbors|))
  {
    hide Encoded, ReadyToSend, GetItem, MinMac, ChannelsOf, StopsAt, LeftBefore, JoinedBefore, AllHold, NeverInVain;
    hide OnSurvivor, OnHighest, SomeActive, Ascending;
    EncodedByPlan(w, st, active, e, n);
    OnSurvivingChannelIff(w, st, active, e, n);
  }
}
