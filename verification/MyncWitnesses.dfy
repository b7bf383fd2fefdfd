/** Where Encode departs from its intent, decided for every three neighbours by their channels and the
    active interfaces alone, and shown on runs from the start. */
module MyncWitnesses {
  import opened Addresses
  import opened Options
  import opened XorCoding
  import opened MyncQueues
  import opened MyncNeighbors
  import opened MyncProtocol
  import opened MyncIndex
  import opened MyncCoding
  import opened MyncSending
  import opened MyncLearning
  import opened MyncRuns
  import opened MyncChannels
  import opened MyncFrames
  import opened MyncTrios

  // ---------- The first packet is sent ----------

  /** What is left once the first packet has left the queue and its virtual queue. */
  function Taken(t: Trio): Protocol {
    Ready(t).(queue := Dequeued(Output(t)), neighbors := Neighbors(t, [], [1], [2]))
  }

  function First(t: Trio): Neighbor {
    Neighbor(t.a, [])
  }

  function FirstEncoded(t: Trio, active: seq<nat>): Outcome<Coding> {
    Encoded(Taken(t), active, t.first, First(t))
  }

  /** The three packets differ. */
  ghost predicate Different(t: Trio) {
    !Same(t.first.packet, t.second.packet) && !Same(t.first.packet, t.third.packet)
  }

  lemma MacsDiffer(w: World, t: Trio)
    requires Proper(w, t)
    ensures MinMac(t.a) != MinMac(t.b) && MinMac(t.a) != MinMac(t.c) && MinMac(t.b) != MinMac(t.c)
  {
    OwnedMac(w, 1, t.a);
    OwnedMac(w, 2, t.b);
    OwnedMac(w, 3, t.c);
  }

  lemma OwnedMac(w: World, node: nat, pairs: seq<AddressPair>)
    requires Complete(w, node, pairs)
    ensures w.owner(MinMac(pairs)) == node
  {
  }

  /** What is known of the three: each holds the packets of the other two, and the second one more. */
  lemma KnownIff(t: Trio, pid: PacketId, m: Mac48Address)
    ensures GetItem(KnownToAll(t), pid, m) <==>
            || (pid in [2, 3] && m == MinMac(t.a)) || (pid in [1, 3, 4] && m == MinMac(t.b))
                 || (pid in [1, 2] && m == MinMac(t.c))
  {
    hide GetItem, MinMac, Recorded;
    RecordedIff(KnownAfter(t, 0), [1], MinMac(t.b), pid, m);
    RecordedIff(KnownAfter(t, 1), [1, 2], MinMac(t.c), pid, m);
    RecordedIff(KnownAfter(t, 2), [2, 3], MinMac(t.a), pid, m);
    RecordedIff(KnownAfter(t, 3), [3, 4], MinMac(t.b), pid, m);
    NothingKnown(pid, m);
  }

  lemma NothingKnown(pid: PacketId, m: Mac48Address)
    ensures !GetItem(map[], pid, m)
  {
  }

  /** Ready with its first packet taken out. */
  lemma FirstTaken(w: World, t: Trio)
    requires Proper(w, t)
    ensures var i := SearchMac(Ready(t).neighbors, t.first.dest);
            && i == 0 && Unlinked(Output(t).cells, [0], t.first.pid) == Done([])
            && Taken(t) == Ready(t).(queue := Dequeued(Output(t)), neighbors := WithQueue(Ready(t).neighbors, 0, []))
    ensures SearchMac(Taken(t).neighbors, t.first.dest) == 0
  {
    hide Complete, GoodWorld, KnownToAll, SearchMac, HasMac, Unlinked, WithQueue, Dequeued;
    OwnerFound(w, t, [0], [1], [2], t.first.dest);
    OwnerFound(w, t, [], [1], [2], t.first.dest);
    FirstUnlinked(t);
  }

  lemma FirstUnlinked(t: Trio)
    ensures Unlinked(Output(t).cells, [0], t.first.pid) == Done([])
    ensures WithQueue(Ready(t).neighbors, 0, []) == Taken(t).neighbors
  {
    hide KnownToAll, Dequeued;
    assert [0][1..] == [];
  }

  lemma FirstLacks(w: World, t: Trio)
    requires Proper(w, t)
    ensures !GetItem(KnownToAll(t), t.first.pid, MinMac(t.a))
  {
    KnownIff(t, t.first.pid, MinMac(t.a));
    MacsDiffer(w, t);
  }

  lemma TakenReady(w: World, t: Trio)
    requires Proper(w, t)
    ensures ReadyToSend(w, Taken(t), t.first) && !GetItem(Taken(t).known, t.first.pid, GetMac(First(t)))
    ensures t.first.dest != BROADCAST
    ensures First(t).pairs == Taken(t).neighbors[SearchMac(Taken(t).neighbors, t.first.dest)].pairs
  {
    hide Inv, ReadyToSend, Complete, GoodWorld, GetItem, KnownToAll, MinMac, SearchMac, Unlinked, WithQueue, Dequeued;
    ReadyKeepsInv(w, t);
    FirstTaken(w, t);
    FirstLacks(w, t);
    FrontTaken(w, Ready(t));
  }

  /** Sending from Ready means coding the first packet. */
  lemma SendEncodes(w: World, t: Trio, active: seq<nat>)
    requires Proper(w, t)
    ensures Sent(Ready(t), active) == SentUnicast(Taken(t), active, t.first, First(t))
  {
    hide Complete, GoodWorld, GetItem, KnownToAll, MinMac, SentUnicast, SearchMac, Unlinked, WithQueue, Dequeued;
    FirstTaken(w, t);
    FirstLacks(w, t);
  }

  // ---------- The turns of the loop ----------

  function FirstChoice(t: Trio): Choice {
    Choice(t.first.pid, t.first.dest, MinMac(t.a), ChannelsOf(t.a), t.first.packet)
  }

  ghost function SecondChoice(t: Trio): Choice {
    ChoiceOf(Neighbor(t.b, [1]), t.second)
  }

  ghost function ThirdChoice(t: Trio): Choice {
    ChoiceOf(Neighbor(t.c, [2]), t.third)
  }

  /** Where the loop is before neighbour i, with the packet e for it untouched. */
  ghost predicate Before(w: World, t: Trio, active: seq<nat>, c: Coding, i: nat, n: Neighbor, e: Entry) {
    && CodingInv(w, KnownToAll(t), t.devices, active, t.first, c) && Ascending(c.channels)
    && |c.neighbors| == 3 && 0 < i < 3 && c.neighbors[i] == n && n.virtualQueue == [i]
    && i in c.queue.cells && c.queue.cells[i] == e
  }

  lemma StartsBefore(w: World, t: Trio, active: seq<nat>)
    requires Proper(w, t)
    ensures Before(w, t, active, CodingStart(Taken(t), t.first, First(t)), 1, Neighbor(t.b, [1]), t.second)
    ensures Before(w, t, active, CodingStart(Taken(t), t.first, First(t)), 2, Neighbor(t.c, [2]), t.third)
  {
    hide ReadyToSend, Proper, GetItem, KnownToAll, MinMac, SearchMac, CodingInv, Inv, Ascending, ChannelsOf;
    TakenReady(w, t);
    CodingStarts(w, Taken(t), active, t.first, First(t));
    ChannelsAscend(t.a);
  }

  /** The receiver of the first packet itself is passed over. */
  lemma FirstTurn(t: Trio, active: seq<nat>)
    ensures var c := CodingStart(Taken(t), t.first, First(t));
            EncodedStep(KnownToAll(t), t.devices, active, t.first, c, 0) == Done(c)
  {
    var c := CodingStart(Taken(t), t.first, First(t));
    assert c.chosen[0].mac == GetMac(c.neighbors[0]);
  }

  lemma PacketIds(w: World, t: Trio)
    requires Proper(w, t)
    ensures t.first.pid == 1 && t.second.pid == 2 && t.third.pid == 3
  {
    hide Complete, GoodWorld, HasMac;
  }

  lemma SecondPasses(w: World, t: Trio, active: seq<nat>, c: Coding)
    requires Proper(w, t) && Before(w, t, active, c, 1, Neighbor(t.b, [1]), t.second) && c.chosen == [FirstChoice(t)]
    ensures Passes(KnownToAll(t), c, 1)
  {
    hide GetItem, KnownToAll, MinMac, ChannelsOf, CodingInv, Proper, Ascending;
    MacsDiffer(w, t);
    PacketIds(w, t);
    KnownIff(t, 2, MinMac(t.b));
    KnownIff(t, 2, MinMac(t.a));
    KnownIff(t, 1, MinMac(t.b));
  }

  lemma ThirdPasses(w: World, t: Trio, active: seq<nat>, c: Coding)
    requires Proper(w, t) && Before(w, t, active, c, 2, Neighbor(t.c, [2]), t.third)
    requires c.chosen == [FirstChoice(t)] || c.chosen == [FirstChoice(t), SecondChoice(t)]
    ensures Passes(KnownToAll(t), c, 2)
  {
    hide GetItem, KnownToAll, MinMac, ChannelsOf, CodingInv, Proper, Ascending;
    MacsDiffer(w, t);
    PacketIds(w, t);
    KnownIff(t, 3, MinMac(t.c));
    KnownIff(t, 3, MinMac(t.a));
    KnownIff(t, 3, MinMac(t.b));
    KnownIff(t, 1, MinMac(t.c));
    KnownIff(t, 2, MinMac(t.c));
  }

  /** The second turn leaves the third neighbour as it was. */
  lemma ThirdStays(w: World, t: Trio, active: seq<nat>, c: Coding)
    requires Before(w, t, active, c, 1, Neighbor(t.b, [1]), t.second)
    requires Before(w, t, active, c, 2, Neighbor(t.c, [2]), t.third) && c.chosen != []
    requires EncodedStep(KnownToAll(t), t.devices, active, t.first, c, 1).Done?
    requires var c' := EncodedStep(KnownToAll(t), t.devices, active, t.first, c, 1).value;
             CodingInv(w, KnownToAll(t), t.devices, active, t.first, c') && Ascending(c'.channels)
    ensures Before(w, t, active, EncodedStep(KnownToAll(t), t.devices, active, t.first, c, 1).value, 2,
              Neighbor(t.c, [2]), t.third)
  {
    hide EncodedStep, KnownToAll, Ascending, GoodTable, HeaderLists, Located, PairwiseDecodable, CommonChannels;
    hide Reaches, FrameSoFar;
    PairsStay(KnownToAll(t), t.devices, active, t.first, c, 1);
    var c' := EncodedStep(KnownToAll(t), t.devices, active, t.first, c, 1).value;
    HeadIsLive(c', 2);
    CellsStay(KnownToAll(t), t.devices, active, t.first, c, 1);
  }

  // ---------- What Encode does to three neighbours ----------

  /** The channels left after the second neighbour, and after the third. */
  function Left(t: Trio): seq<nat> {
    Narrowed(ChannelsOf(t.a), t.b)
  }

  function LeftOver(t: Trio): seq<nat> {
    Narrowed(Left(t), t.c)
  }

  /** Decided by channels and active interfaces: Encode stops at the second or at the third neighbour. */
  ghost predicate Stops(t: Trio, active: seq<nat>) {
    Foreign(t.devices, active, ChannelsOf(t.a), t.b) || Foreign(t.devices, active, Left(t), t.c)
  }

  ghost function Joining(t: Trio, active: seq<nat>): seq<Choice> {
    (if Joins(t.devices, active, ChannelsOf(t.a), t.b) then [SecondChoice(t)] else []) +
    (if Joins(t.devices, active, Left(t), t.c) then [ThirdChoice(t)] else [])
  }

  /** With three packets that differ, channels and active interfaces decide all: whether Encode stops,
      which natives it codes, and which channels survive. */
  lemma TrioEncoded(w: World, t: Trio, active: seq<nat>)
    requires Proper(w, t) && Different(t)
    ensures if Stops(t, active) then FirstEncoded(t, active) == Fatal(NoSuchChannel)
            else
              && FirstEncoded(t, active).Done?
              && var c := FirstEncoded(t, active).value;
              c.channels == LeftOver(t) && c.chosen == [FirstChoice(t)] + Joining(t, active)
  {
    hide Proper, EncodedStep, CodingInv, Foreign, Joins, Narrowed, Xor, Same, Ascending, KnownToAll, MinMac;
    hide ChannelsOf, Passes;
    var c := CodingStart(Taken(t), t.first, First(t));
    StartsBefore(w, t, active);
    FirstTurn(t, active);
    SecondPasses(w, t, active, c);
    XorDefinedIff(t.first.packet, t.second.packet);
    PassingTurn(w, KnownToAll(t), t.devices, active, t.first, c, 1);
    var r := EncodedStep(KnownToAll(t), t.devices, active, t.first, c, 1);
    assert EncodedFrom(KnownToAll(t), t.devices, active, t.first, c, 0)
        == EncodedFrom(KnownToAll(t), t.devices, active, t.first, c, 1);
    if r.Done? {
      ThirdStays(w, t, active, c);
      LastTurn(w, t, active, r.value);
      assert [FirstChoice(t)] + ([SecondChoice(t)] + [ThirdChoice(t)]) == [FirstChoice(t), SecondChoice(t)]
          + [ThirdChoice(t)];
    }
  }

  lemma LastTurn(w: World, t: Trio, active: seq<nat>, c: Coding)
    requires Proper(w, t) && Different(t) && Before(w, t, active, c, 2, Neighbor(t.c, [2]), t.third)
    requires c.chosen == [FirstChoice(t)] || c.chosen == [FirstChoice(t), SecondChoice(t)]
    ensures var r := EncodedFrom(KnownToAll(t), t.devices, active, t.first, c, 2);
            if Foreign(t.devices, active, c.channels, t.c) then r == Fatal(NoSuchChannel)
            else
              && r.Done? && r.value.channels == Narrowed(c.channels, t.c)
              && r.value.chosen == c.chosen + if Joins(t.devices, active, c.channels, t.c) then [ThirdChoice(t)] else []
  {
    hide Proper, EncodedStep, CodingInv, Foreign, Joins, Narrowed, Xor, Same, Ascending, KnownToAll, MinMac;
    hide ChannelsOf, Passes;
    ThirdPasses(w, t, active, c);
    XorDefinedIff(t.first.packet, t.third.packet);
    PassingTurn(w, KnownToAll(t), t.devices, active, t.first, c, 2);
  }

  // ---------- The run that sends the first packet ----------

  function Run(t: Trio, active: seq<nat>): seq<Step>
    requires t.a != [] && t.b != [] && t.c != []
  {
    Setup(t) + [Send(active)]
  }

  function RunOf(t: Trio, active: seq<nat>): Outcome<History>
    requires t.a != [] && t.b != [] && t.c != []
    requires forall step | step in Run(t, active) :: OwnInterface(t.devices, step)
  {
    Played(Start(t.devices), Run(t, active))
  }

  lemma RunIsValid(w: World, t: Trio, active: seq<nat>)
    requires Proper(w, t)
    ensures t.a != [] && t.b != [] && t.c != []
    ensures forall step | step in Run(t, active) :: ValidStep(w, t.devices, step) && OwnInterface(t.devices, step)
  {
    hide Proper, Setup, ValidStep;
    SomeListed(w, t);
    SetupIsValid(w, t);
    SetupLeadsToReady(w, t, []);
    SendIsValid(w, t.devices, active);
    assert Setup(t) + [] == Setup(t);
  }

  lemma PlayedOnce(st: Protocol, active: seq<nat>)
    requires active != [] && st.queue.order != []
    ensures match Sent(st, active)
            case Fatal(r) => Played(st, [Send(active)]) == Fatal(r)
            case Done(s) => Played(st, [Send(active)]) == Done(History(s.st, Sends(s.frame)))
  {
    hide Sent;
    assert [Send(active)][1..] == [];
    assert Stepped(st, Send(active)) == Sent(st, active);
    if Sent(st, active).Done? {
      var s := Sent(st, active).value;
      assert Sends(s.frame) + [] == Sends(s.frame);
      assert Played(s.st, []) == Done(History(s.st, []));
    }
  }

  /** What becomes of the run is what becomes of sending the first packet. */
  lemma RunIs(w: World, t: Trio, active: seq<nat>)
    requires Proper(w, t) && active != []
    ensures t.a != [] && t.b != [] && t.c != [] && forall step | step in Run(t, active) :: OwnInterface(t.devices, step)
    ensures match SentUnicast(Taken(t), active, t.first, First(t))
            case Fatal(r) => RunOf(t, active) == Fatal(r)
            case Done(s) => RunOf(t, active) == Done(History(s.st, Sends(s.frame)))
  {
    hide Proper, Setup, SentUnicast, Taken, First, Sent, ValidStep, Played, Stepped, KnownToAll, Neighbors;
    RunIsValid(w, t, active);
    SetupLeadsToReady(w, t, [Send(active)]);
    SendEncodes(w, t, active);
    PlayedOnce(Ready(t), active);
  }

  lemma SendIsValid(w: World, devices: seq<nat>, active: seq<nat>)
    ensures ValidStep(w, devices, Send(active))
  {
  }

  // ---------- Stopping for want of a channel ----------

  /** The run stops for want of a channel exactly if channels and active interfaces say so. */
  lemma RunStopsIff(w: World, t: Trio, active: seq<nat>)
    requires Proper(w, t) && Different(t) && active != []
    ensures t.a != [] && t.b != [] && t.c != [] && forall step | step in Run(t, active) :: OwnInterface(t.devices, step)
    ensures RunOf(t, active) == Fatal(NoSuchChannel) <==> Stops(t, active)
  {
    hide Proper, Different, Encoded, SentPlain, ReadyToSend, Stops, RunOf, Run, FirstChoice, Joining, GetItem;
    hide KnownToAll, MinMac, Neighbors;
    RunIs(w, t, active);
    TrioEncoded(w, t, active);
    TakenReady(w, t);
    SentPlainKeeps(w, Taken(t), active, t.first);
  }

  /** A channel all three listen on. */
  ghost predicate Shared(t: Trio, channel: nat) {
    channel in ChannelsOf(t.a) && channel in ChannelsOf(t.b) && channel in ChannelsOf(t.c)
  }

  /** With an active interface on every channel of the three, that means that no channel is common to
      them. */
  lemma StopsIffNoneShared(t: Trio, active: seq<nat>)
    requires t.a != [] && forall p | p in t.a :: DeviceOn(t.devices, p.channel) in active
    ensures Stops(t, active) <==> forall channel | channel in ChannelsOf(t.a) :: !Shared(t, channel)
  {
    hide DeviceOn, ChannelsOf, Intersection;
    assert t.a[0].channel in ChannelsOf(t.a);
    var common := Intersection(Left(t), ChannelsOf(t.c));
    assert forall ch | ch in Left(t) :: ch in ChannelsOf(t.a);
    assert Left(t)[0] in Left(t);
    if common != [] {
      assert common[0] in common;
    }
  }

  // ---------- An interface on no surviving channel ----------

  lemma RunCodes(w: World, t: Trio, active: seq<nat>)
    requires Proper(w, t) && Different(t) && active != [] && !Stops(t, active) && Joining(t, active) != []
    ensures t.a != [] && t.b != [] && t.c != [] && forall step | step in Run(t, active) :: OwnInterface(t.devices, step)
    ensures FirstEncoded(t, active).Done? && RunOf(t, active).Done?
    ensures var c := FirstEncoded(t, active).value;
            && RunOf(t, active).value.frames == [Frame(c.frame.iface, c.header, Pids(c.chosen), c.frame.packet)]
            && c.channels == LeftOver(t) && c.chosen == [FirstChoice(t)] + Joining(t, active)
  {
    hide Proper, Different, Encoded, SentPlain, ReadyToSend, Stops, RunOf, Run, FirstChoice, Joining, GetItem;
    hide KnownToAll, MinMac, Neighbors, Pids;
    RunIs(w, t, active);
    TrioEncoded(w, t, active);
  }

  /** The run sends one frame, of the given natives, and the given channels survive. */
  ghost predicate CodesInto(t: Trio, active: seq<nat>, channels: seq<nat>, pids: seq<PacketId>) {
    && t.a != [] && t.b != [] && t.c != [] && (forall step | step in Run(t, active) :: OwnInterface(t.devices, step))
    && FirstEncoded(t, active).Done?
    && var c := FirstEncoded(t, active).value;
    && c.channels == channels && Pids(c.chosen) == pids
    && RunOf(t, active).Done? && RunOf(t, active).value.frames == [Frame(c.frame.iface, c.header, pids, c.frame.packet)]
  }

  /** No channel that survives is the one of the interface the frame goes out on. */
  ghost predicate MissesSurvivors(t: Trio, active: seq<nat>) {
    && FirstEncoded(t, active).Done? && |FirstEncoded(t, active).value.chosen| > 1
    && !OnSurvivor(t.devices, FirstEncoded(t, active).value)
  }

  /** The frame goes out on no surviving channel exactly if no active interface is on any channel left
      over: again channels and active interfaces decide. */
  lemma RunMissesIff(w: World, t: Trio, active: seq<nat>)
    requires Proper(w, t) && Different(t) && active != [] && !Stops(t, active) && Joining(t, active) != []
    ensures CodesInto(t, active, LeftOver(t), Pids([FirstChoice(t)] + Joining(t, active)))
    ensures MissesSurvivors(t, active) <==> !SomeActive(t.devices, active, LeftOver(t))
  {
    hide Proper, Different, Encoded, ReadyToSend, Stops, RunOf, Run, FirstChoice, Joining, GetItem, KnownToAll;
    hide MinMac, Neighbors, NeverInVain, Ascending, OnHighest, SomeActive, OnSurvivor, Pids;
    RunCodes(w, t, active);
    TakenReady(w, t);
    OnSurvivingChannelIff(w, Taken(t), active, t.first, First(t));
  }

  // ---------- A frame that no receiver can decode ----------

  /** Both join: a receiver that holds all natives but its own, listed in any order, either runs off
      the buffer or recovers its own exactly if the second packet is all zeros. */
  lemma RunDecodesIff(w: World, t: Trio, active: seq<nat>, listed: seq<Choice>, pool: map<PacketId, Bytes>, m: nat)
    requires Proper(w, t) && Different(t) && active != [] && !Stops(t, active)
    requires Joining(t, active) == [SecondChoice(t), ThirdChoice(t)]
    requires multiset(listed) == multiset([FirstChoice(t), SecondChoice(t), ThirdChoice(t)])
    requires AllButOne(Pids(listed), pool, Packets(listed), m)
    ensures t.a != [] && t.b != [] && t.c != [] && forall step | step in Run(t, active) :: OwnInterface(t.devices, step)
    ensures RunOf(t, active).Done? && |RunOf(t, active).value.frames| == 1
    ensures var r := Decode(Pids(listed), pool, RunOf(t, active).value.frames[0].packet);
            r.RunsOff? || (Same(r.packet, listed[m].packet) <==> Same(t.second.packet, []))
  {
    hide Proper, Different, Encoded, Stops, RunOf, Run, Joining, Decode, Same, Pids, Packets, Taken, FirstChoice;
    hide SecondChoice, ThirdChoice, AllButOne;
    RunCodes(w, t, active);
    TrioDecodesIff(w, t, active, listed, pool, m);
  }

  lemma TrioDecodesIff(w: World, t: Trio, active: seq<nat>, listed: seq<Choice>, pool: map<PacketId, Bytes>, m: nat)
    requires Proper(w, t) && FirstEncoded(t, active).Done?
    requires FirstEncoded(t, active).value.chosen == [FirstChoice(t)] + [SecondChoice(t), ThirdChoice(t)]
    requires multiset(listed) == multiset([FirstChoice(t), SecondChoice(t), ThirdChoice(t)])
    requires AllButOne(Pids(listed), pool, Packets(listed), m)
    ensures var r := Decode(Pids(listed), pool, FirstEncoded(t, active).value.frame.packet);
            r.RunsOff? || (Same(r.packet, listed[m].packet) <==> Same(t.second.packet, []))
  {
    hide Proper, Encoded, ReadyToSend, GetItem, KnownToAll, MinMac, Neighbors, Decode, Same, Pids, Packets, First;
    hide Taken, FirstChoice, SecondChoice, ThirdChoice, AllButOne;
    TakenReady(w, t);
    assert [FirstChoice(t)] + [SecondChoice(t), ThirdChoice(t)] == [FirstChoice(t), SecondChoice(t), ThirdChoice(t)];
    if !Decode(Pids(listed), pool, FirstEncoded(t, active).value.frame.packet).RunsOff? {
      EncodedDecodesIff(w, Taken(t), active, t.first, First(t), listed, pool, m);
      MiddlePacket(t);
      OneCancelsIff(t.second.packet);
    }
  }

  lemma MiddlePacket(t: Trio)
    ensures Packets([FirstChoice(t), SecondChoice(t), ThirdChoice(t)])[1..2] == [t.second.packet]
  {
  }

  lemma OneCancelsIff(packet: Bytes)
    ensures Cancels([packet]) <==> Same(packet, [])
  {
    forall i: nat
      ensures SumAt([packet], i) == ByteAt(packet, i)
    {
      assert [packet][1..] == [];
      AddGroup(ByteAt(packet, i), 0, 0);
    }
  }

  // ---------- Three runs ----------

  /** Addresses that tell their owner by the tens and the channel by the last digit. */
  ghost predicate Numbered(node: nat, pairs: seq<AddressPair>) {
    && 0 < |pairs| <= 255
    && (forall p | p in pairs :: p.mac / 10 == p.ip / 10 == node && p.channel == p.mac % 10 && p.ip != ANY)
    && (forall i, j | 0 <= i < j < |pairs| :: pairs[i].ip != pairs[j].ip && pairs[i].mac != pairs[j].mac)
  }

  /** The world in which the three nodes have the listed addresses, and every other address a node of its
      own. */
  function Town(t: Trio): World {
    World((m: Mac48Address) =>
            if HasMac(Neighbor(t.a, []), m) then 1 else if HasMac(Neighbor(t.b, []), m) then 2
            else if HasMac(Neighbor(t.c, []), m) then 3 else 100 + m,
          (ip: Ipv4Address) => ip / 10,
          (m: Mac48Address) => m % 10)
  }

  lemma TownIsGood(t: Trio)
    requires Numbered(1, t.a) && Numbered(2, t.b) && Numbered(3, t.c)
    ensures GoodWorld(Town(t))
  {
    var w := Town(t);
    forall m: Mac48Address, m': Mac48Address | w.owner(m) == w.owner(m') && w.channel(m) == w.channel(m')
      ensures m == m'
    {
      assert w.owner(m) < 4 ==> m / 10 == w.owner(m);
      assert w.owner(m') < 4 ==> m' / 10 == w.owner(m');
    }
  }

  lemma CompleteIf(w: World, node: nat, pairs: seq<AddressPair>)
    requires Numbered(node, pairs) && forall m: Mac48Address :: w.owner(m) == node <==> HasMac(Neighbor(pairs, []), m)
    requires forall p | p in pairs :: w.channel(p.mac) == p.channel && w.ipOwner(p.ip) == node
    ensures Complete(w, node, pairs)
  {
    assert forall p | p in pairs :: HasMac(Neighbor(pairs, []), p.mac);
  }

  lemma TownIsComplete(t: Trio)
    requires Numbered(1, t.a) && Numbered(2, t.b) && Numbered(3, t.c)
    ensures Complete(Town(t), 1, t.a) && Complete(Town(t), 2, t.b) && Complete(Town(t), 3, t.c)
  {
    hide Complete;
    assert forall m :: HasMac(Neighbor(t.a, []), m) ==> m / 10 == 1;
    assert forall m :: HasMac(Neighbor(t.b, []), m) ==> m / 10 == 2;
    assert forall m :: HasMac(Neighbor(t.c, []), m) ==> m / 10 == 3;
    CompleteIf(Town(t), 1, t.a);
    CompleteIf(Town(t), 2, t.b);
    CompleteIf(Town(t), 3, t.c);
  }

  lemma OneChannel(p: AddressPair)
    ensures ChannelsOf([p]) == [p.channel]
  {
    assert [p][..0] == [] && Inserted([], p.channel) == [p.channel];
  }

  lemma TwoChannels(p: AddressPair, q: AddressPair)
    requires p.channel < q.channel
    ensures ChannelsOf([p, q]) == [p.channel, q.channel]
  {
    OneChannel(p);
    assert [p, q][..1] == [p] && [p.channel][1..] == [];
    assert Inserted([], q.channel) == [q.channel] && Inserted([p.channel], q.channel) == [p.channel] + [q.channel];
  }

  /** Nodes 1 and 2 on channels 6 and 7, node 3 on channel 7. */
  const PARTLY := Trio([6, 7],
    [AddressPair(11, 16, 6), AddressPair(12, 17, 7)], [AddressPair(21, 26, 6), AddressPair(22, 27, 7)],
      [AddressPair(31, 37, 7)],
    Entry(false, 1, 16, 0, 0, [1]), Entry(false, 2, 26, 0, 0, [2]), Entry(false, 3, 37, 1, 0, [4]))

  /** All on channel 6. */
  const TOGETHER := Trio([6],
    [AddressPair(11, 16, 6)], [AddressPair(21, 26, 6)], [AddressPair(31, 36, 6)],
    Entry(false, 1, 16, 0, 0, [1]), Entry(false, 2, 26, 0, 0, [2]), Entry(false, 3, 36, 0, 0, [4]))

  /** Node 1 on channel 6, nodes 2 and 3 on channel 7. */
  const APART := Trio([6, 7],
    [AddressPair(11, 16, 6)], [AddressPair(21, 27, 7)], [AddressPair(31, 37, 7)],
    Entry(false, 1, 16, 0, 0, [1]), Entry(false, 2, 27, 1, 0, [2]), Entry(false, 3, 37, 1, 0, [4]))

  lemma TownIsProper(t: Trio)
    requires Numbered(1, t.a) && Numbered(2, t.b) && Numbered(3, t.c)
    requires ProperEntry(Town(t), t.devices, t.first, 1, t.a)
    requires ProperEntry(Town(t), t.devices, t.second, 2, t.b) && ProperEntry(Town(t), t.devices, t.third, 3, t.c)
    ensures Proper(Town(t), t)
  {
    hide GoodWorld, Complete;
    TownIsGood(t);
    TownIsComplete(t);
  }

  lemma OneTwoFourDiffer()
    ensures !Same([1], [2]) && !Same([1], [4]) && !Same([2], [])
  {
    assert ByteAt([1], 0) == 1 && ByteAt([2], 0) == 2 && ByteAt([4], 0) == 4 && ByteAt([], 0) == 0;
  }

  lemma ApartIsProper()
    ensures Proper(Town(APART), APART) && Different(APART)
  {
    OneTwoFourDiffer();
    var t := APART;
    assert t.a[0] in t.a && t.b[0] in t.b && t.c[0] in t.c;
    TownIsProper(t);
  }

  lemma TogetherIsProper()
    ensures Proper(Town(TOGETHER), TOGETHER) && Different(TOGETHER)
  {
    OneTwoFourDiffer();
    var t := TOGETHER;
    assert t.a[0] in t.a && t.b[0] in t.b && t.c[0] in t.c;
    TownIsProper(t);
  }

  lemma PartlyIsProper()
    ensures Proper(Town(PARTLY), PARTLY) && Different(PARTLY)
  {
    OneTwoFourDiffer();
    var t := PARTLY;
    assert t.a[0] in t.a && t.b[0] in t.b && t.c[0] in t.c;
    TownIsProper(t);
  }

  /** A run that stops: the packet for node 1 can only be coded on channel 6, and node 2, whose packet
      it could be coded with, is not on it. */
  lemma ARunStops()
    ensures Proper(Town(APART), APART)
    ensures forall step | step in Run(APART, [0, 1]) ::
              ValidStep(Town(APART), APART.devices, step) && OwnInterface(APART.devices, step)
    ensures RunOf(APART, [0, 1]) == Fatal(NoSuchChannel)
  {
    hide ChannelsOf, Run, RunOf, Proper, Different, ValidStep, Town;
    ApartIsProper();
    RunIsValid(Town(APART), APART, [0, 1]);
    RunStopsIff(Town(APART), APART, [0, 1]);
    OneChannel(APART.a[0]);
    OneChannel(APART.b[0]);
    assert Intersection([6], [7]) == [] && 6 in [6] && DeviceOn([6, 7], 6) == 0;
  }

  lemma PartlyNarrows()
    ensures Left(PARTLY) == [6, 7] && LeftOver(PARTLY) == [7] && !SomeActive([6, 7], [0], [7])
    ensures !Stops(PARTLY, [0]) && Joining(PARTLY, [0]) == [SecondChoice(PARTLY)]
  {
    hide ChannelsOf, ChoiceOf;
    TwoChannels(PARTLY.a[0], PARTLY.a[1]);
    TwoChannels(PARTLY.b[0], PARTLY.b[1]);
    OneChannel(PARTLY.c[0]);
    var both := [6, 7];
    assert both[1..] == [7] && [7][1..] == [];
    assert Intersection([6, 7], [6, 7]) == [6, 7] && Intersection([6, 7], [7]) == [7];
    assert 6 in both && DeviceOn(both, 6) == 0 && DeviceOn(both, 7) == 1;
  }

  /** A run whose frame goes out on channel 6, although only channel 7 survives: node 3 is on channel 7
      alone, and is turned down after the channels have been narrowed because interface 1 is not active. */
  lemma ARunMissesItsChannel()
    ensures Proper(Town(PARTLY), PARTLY)
    ensures forall step | step in Run(PARTLY, [0]) :: ValidStep(Town(PARTLY), PARTLY.devices, step)
    ensures CodesInto(PARTLY, [0], [7], [1, 2]) && MissesSurvivors(PARTLY, [0])
  {
    hide ChannelsOf, Run, RunOf, Proper, Different, ValidStep, Town, Encoded, Intersection, MinMac, CodesInto;
    hide MissesSurvivors, Joining, Left, LeftOver, Stops;
    PartlyIsProper();
    RunIsValid(Town(PARTLY), PARTLY, [0]);
    PartlyNarrows();
    RunMissesIff(Town(PARTLY), PARTLY, [0]);
    assert Pids([FirstChoice(PARTLY)] + [SecondChoice(PARTLY)]) == [1, 2];
  }

  lemma TogetherJoin()
    ensures LeftOver(TOGETHER) == [6] && !Stops(TOGETHER, [0])
    ensures Joining(TOGETHER, [0]) == [SecondChoice(TOGETHER), ThirdChoice(TOGETHER)]
  {
    hide ChannelsOf, ChoiceOf;
    OneChannel(TOGETHER.a[0]);
    OneChannel(TOGETHER.b[0]);
    OneChannel(TOGETHER.c[0]);
    assert [6][1..] == [] && Intersection([6], [6]) == [6];
    assert 6 in [6] && DeviceOn([6], 6) == 0;
  }

  /** A run whose frame codes three packets, and no receiver of it can recover its own: whatever order
      the natives are listed in and whatever pool holds the other two, decoding runs off the buffer or
      yields another packet. */
  lemma ARunNobodyDecodes(listed: seq<Choice>, pool: map<PacketId, Bytes>, m: nat)
    requires multiset(listed) == multiset([FirstChoice(TOGETHER), SecondChoice(TOGETHER), ThirdChoice(TOGETHER)])
    requires AllButOne(Pids(listed), pool, Packets(listed), m)
    ensures Proper(Town(TOGETHER), TOGETHER)
    ensures forall step | step in Run(TOGETHER, [0]) :: ValidStep(Town(TOGETHER), TOGETHER.devices, step)
    ensures CodesInto(TOGETHER, [0], [6], [1, 2, 3])
    ensures var r := Decode(Pids(listed), pool, RunOf(TOGETHER, [0]).value.frames[0].packet);
            r.RunsOff? || !Same(r.packet, listed[m].packet)
  {
    hide ChannelsOf, Run, RunOf, Proper, Different, ValidStep, Town, Encoded, MinMac, CodesInto, Joining, LeftOver;
    hide Stops, Decode, Same, Pids, Packets, ChoiceOf;
    TogetherIsProper();
    RunIsValid(Town(TOGETHER), TOGETHER, [0]);
    TogetherJoin();
    RunMissesIff(Town(TOGETHER), TOGETHER, [0]);
    RunDecodesIff(Town(TOGETHER), TOGETHER, [0], listed, pool, m);
    OneTwoFourDiffer();
    TogetherPids();
  }

  lemma TogetherPids()
    ensures Pids([FirstChoice(TOGETHER)] + [SecondChoice(TOGETHER), ThirdChoice(TOGETHER)]) == [1, 2, 3]
  {
  }

  lemma XorOfOctets(x: bv8, y: bv8)
    requires x != y
    ensures Xor([x], [y]) == [Add(x, y)] && !Same([x], [y])
  {
    assert Padded([x], [y]) == [Add(x, y)];
    AddGroup(x, y, 0);
    assert ByteAt([x], 0) == x && ByteAt([y], 0) == y;
  }

  /** The receiver of packet 1, which holds packets 2 and 3, gets an octet 3 where an octet 1 was sent. */
  lemma OneReceiver()
    ensures CodesInto(TOGETHER, [0], [6], [1, 2, 3])
    ensures Decode([1, 2, 3], map[2 := [2], 3 := [4]], RunOf(TOGETHER, [0]).value.frames[0].packet) == Decoded(1, [3])
  {
    hide ChannelsOf, Run, RunOf, Proper, Different, ValidStep, Town, Encoded, MinMac, Joining, LeftOver, Stops;
    hide Decode, Same, Pids, FirstChoice, SecondChoice, ThirdChoice;
    TogetherIsProper();
    TogetherJoin();
    TogetherPids();
    RunCodes(Town(TOGETHER), TOGETHER, [0]);
    TogetherPacket();
    DecodesToThree();
  }

  lemma DecodesToThree()
    ensures Decode([1, 2, 3], map[2 := [2], 3 := [4]], [5]) == Decoded(1, [3])
  {
    var pids: seq<PacketId>, pool: map<PacketId, Bytes> := [1, 2, 3], map[2 := [2], 3 := [4]];
    hide Xor, Same;
    XorOfOctets(2, 5);
    XorOfOctets(4, 7);
    assert Add(2, 5) == 7 && Add(4, 7) == 3;
    assert DecodedFrom(pids, pool, [3], 3, 1, 2, 1) == Decoded(1, [3]);
    assert DecodedFrom(pids, pool, [7], 2, 1, 1, 1) == Decoded(1, [3]);
    assert DecodedFrom(pids, pool, [5], 1, 1, 0, 1) == Decoded(1, [3]);
  }

  lemma TogetherPacket()
    requires FirstEncoded(TOGETHER, [0]).Done?
    requires FirstEncoded(TOGETHER, [0]).value.chosen == [FirstChoice(TOGETHER)]
               + [SecondChoice(TOGETHER), ThirdChoice(TOGETHER)]
    ensures FirstEncoded(TOGETHER, [0]).value.frame.packet == [5]
  {
    hide Encoded, MinMac, ChannelsOf, Proper, Different, ListsNatives, Decodable, ReadyToSend, GetItem, KnownToAll;
    hide Neighbors, Xor, MovedFrom, Queued, Kept;
    TogetherIsProper();
    TakenReady(Town(TOGETHER), TOGETHER);
    CodedFrameIsSound(Town(TOGETHER), Taken(TOGETHER), [0], TOGETHER.first, First(TOGETHER));
    XorOfOctets(1, 4);
    assert Add(1, 4) == 5;
  }
}
