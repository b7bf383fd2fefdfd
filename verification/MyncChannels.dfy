/** Which channels survive in Encode, and when it stops for want of one. */
module MyncChannels {
  import opened Addresses
  import opened Options
  import opened XorCoding
  import opened MyncQueues
  import opened MyncNeighbors
  import opened MyncProtocol
  import opened MyncIndex
  import opened MyncCoding

  // ---------- Channels are ordered ----------

  ghost predicate Ascending(s: seq<nat>) {
    forall i, j | 0 <= i < j < |s| :: s[i] < s[j]
  }

  lemma PrependedAscends(x: nat, s: seq<nat>)
    requires Ascending(s) && forall y | y in s :: x < y
    ensures Ascending([x] + s)
  {
    assert forall j | 0 <= j < |s| :: s[j] in s;
  }

  lemma TailAscends(s: seq<nat>)
    requires Ascending(s) && s != []
    ensures Ascending(s[1..]) && forall y | y in s[1..] :: s[0] < y
  {
  }

  lemma {:induction false} InsertedAscends(s: seq<nat>, x: nat)
    requires Ascending(s)
    ensures Ascending(Inserted(s, x))
  {
    if s == [] {
    } else {
      TailAscends(s);
      InsertedAscends(s[1..], x);
      hide Ascending;
      if x < s[0] {
        assert forall y | y in s :: y == s[0] || y in s[1..];
        PrependedAscends(x, s);
      } else if x > s[0] {
        PrependedAscends(s[0], Inserted(s[1..], x));
      }
    }
  }

  lemma {:induction false} ChannelsAscend(pairs: seq<AddressPair>)
    ensures Ascending(ChannelsOf(pairs))
  {
    if pairs == [] {
    } else {
      ChannelsAscend(pairs[..|pairs| - 1]);
      InsertedAscends(ChannelsOf(pairs[..|pairs| - 1]), pairs[|pairs| - 1].channel);
    }
  }

  /** Surviving channels are an ordered set, however often they are narrowed. */
  lemma {:induction false} IntersectionAscends(a: seq<nat>, b: seq<nat>)
    requires Ascending(a)
    ensures Ascending(Intersection(a, b))
  {
    if a == [] {
    } else {
      TailAscends(a);
      IntersectionAscends(a[1..], b);
      if a[0] in b {
        PrependedAscends(a[0], Intersection(a[1..], b));
      }
    }
  }

  // ---------- Which channel decides ----------

  /** Of several channels with an active interface the highest decides: the frame goes through its
      interface, to the address the new partner has on it. */
  lemma {:induction false} HighestChannelDecides(devices: seq<nat>, active: seq<nat>, channels: seq<nat>,
                                                 pairs: seq<AddressPair>) returns (highest: nat)
    requires Ascending(channels) && Interface(devices, active, channels, pairs).Done?
    requires Interface(devices, active, channels, pairs).value.Some?
    ensures var (iface, dest) := Interface(devices, active, channels, pairs).value.value;
            && highest in channels && iface == DeviceOn(devices, highest) && iface in active
                 && MacOn(pairs, highest) == Some(dest)
            && forall c | c in channels && DeviceOn(devices, c) in active :: c <= highest
  {
    var front, last := channels[..|channels| - 1], channels[|channels| - 1];
    assert forall c :: c in channels <==> c in front || c == last;
    if DeviceOn(devices, last) in active {
      highest := last;
    } else {
      highest := HighestChannelDecides(devices, active, front, pairs);
    }
  }

  // ---------- Surviving channels ----------

  /** The interface of the frame is on a surviving channel. */
  ghost predicate OnSurvivor(devices: seq<nat>, c: Coding) {
    exists ch :: ch in c.channels && DeviceOn(devices, ch) == c.frame.iface
  }

  /** The interface of the frame is the one of the highest surviving channel with an active interface. */
  ghost predicate OnHighest(devices: seq<nat>, active: seq<nat>, c: Coding) {
    exists ch :: ch in c.channels && DeviceOn(devices, ch) == c.frame.iface
                 && forall x | x in c.channels && DeviceOn(devices, x) in active :: x <= ch
  }

  /** The frame is addressed to what the newest partner has on that channel. */
  ghost predicate ReachedOnHighest(devices: seq<nat>, active: seq<nat>, c: Coding, pairs: seq<AddressPair>) {
    exists ch :: ch in c.channels && MacOn(pairs, ch) == Some(c.frame.dest)
                 && forall x | x in c.channels && DeviceOn(devices, x) in active :: x <= ch
  }

  ghost predicate SomeActive(devices: seq<nat>, active: seq<nat>, channels: seq<nat>) {
    exists ch :: ch in channels && DeviceOn(devices, ch) in active
  }

  /** Neighbour i passes all tests on natives. */
  ghost predicate Passes(known: PacketInfo, c: Coding, i: nat) {
    && Candidate(c, i)
    && Compatible(known, c.chosen, c.queue.cells[c.neighbors[i].virtualQueue[0]].pid, GetMac(c.neighbors[i]))
  }

  ghost function Common(c: Coding, i: nat): seq<nat>
    requires i < |c.neighbors|
  {
    Intersection(c.channels, ChannelsOf(c.neighbors[i].pairs))
  }

  /** The channels are narrowed to some that no active interface is on. */
  ghost predicate NarrowsInVain(known: PacketInfo, devices: seq<nat>, active: seq<nat>, c: Coding, i: nat)
    requires i < |c.neighbors|
  {
    Passes(known, c, i) && Common(c, i) != [] && !SomeActive(devices, active, Common(c, i))
  }

  /** What the source gets right: the surviving channels are in order, and once a frame is coded, its
      interface is that of the highest one with an active interface, or there is none such. */
  ghost predicate Settled(devices: seq<nat>, active: seq<nat>, c: Coding) {
    && Ascending(c.channels)
    && (|c.chosen| > 1 ==>
          && c.frame.iface in active
          && (OnHighest(devices, active, c) || !SomeActive(devices, active, c.channels)))
  }

  /** So being on any surviving channel means being on the highest that can be used. */
  lemma SurvivorIsHighest(devices: seq<nat>, active: seq<nat>, c: Coding)
    requires Settled(devices, active, c) && |c.chosen| > 1
    ensures OnSurvivor(devices, c) <==> OnHighest(devices, active, c)
    ensures OnSurvivor(devices, c) <==> SomeActive(devices, active, c.channels)
  {
  }

  /** What Interface finds on channels that a candidate has. */
  lemma InterfaceIff(devices: seq<nat>, active: seq<nat>, channels: seq<nat>, pairs: seq<AddressPair>)
    requires forall ch | ch in channels :: ch in ChannelsOf(pairs)
    ensures var r := Interface(devices, active, channels, pairs);
            && r.Done? && (r.value.Some? <==> SomeActive(devices, active, channels))
            && (r.value.Some? ==> r.value.value.0 in active && exists ch ::
                 ch in channels && DeviceOn(devices, ch) == r.value.value.0)
  {
    OwnChannelsSuffice(devices, active, channels, pairs);
    InterfaceOn(devices, active, channels, pairs);
  }

  /** What happens to a candidate that passes all tests on natives.  If it joins, the frame goes out on
      the highest surviving channel that can be used, to the address the candidate has there. */
  lemma PassingCandidate(w: World, known: PacketInfo, devices: seq<nat>, active: seq<nat>, original: Entry, c: Coding,
                         i: nat)
    requires CodingInv(w, known, devices, active, original, c) && i < |c.neighbors| && Passes(known, c, i)
    requires Ascending(c.channels)
    requires EncodedStep(known, devices, active, original, c, i).Done?
    ensures var c' := EncodedStep(known, devices, active, original, c, i).value;
            if Common(c, i) == [] then c' == c
            else if !SomeActive(devices, active, Common(c, i)) then c' == c.(channels := Common(c, i))
            else
              && c'.chosen == c.chosen + [ChoiceOf(c.neighbors[i], c.queue.cells[c.neighbors[i].virtualQueue[0]])]
              && c'.frame.iface in active && c'.channels == Common(c, i) && OnHighest(devices, active, c')
              && ReachedOnHighest(devices, active, c', c.neighbors[i].pairs)
    ensures Ascending(EncodedStep(known, devices, active, original, c, i).value.channels)
  {
    hide GoodTable, Indexed, GoodWaiting, HeaderLists, Located, PairwiseDecodable, GoodOutput, CommonChannels;
    hide Reaches, Interface, SomeActive, Ascending;
    hide Compatible, OnHighest, ReachedOnHighest;
    NexthopIsNew(w, known, devices, active, original, c, i);
    IntersectionAscends(c.channels, ChannelsOf(c.neighbors[i].pairs));
    HighestFound(devices, active, Common(c, i), c.neighbors[i].pairs);
    CompatibleLacks(known, c.chosen, c.queue.cells[c.neighbors[i].virtualQueue[0]].pid, GetMac(c.neighbors[i]));
  }

  /** What Interface finds on ascending channels that a candidate has. */
  lemma HighestFound(devices: seq<nat>, active: seq<nat>, channels: seq<nat>, pairs: seq<AddressPair>)
    requires Ascending(channels) && forall ch | ch in channels :: ch in ChannelsOf(pairs)
    ensures var r := Interface(devices, active, channels, pairs);
            && r.Done? && (r.value.Some? <==> SomeActive(devices, active, channels))
            && (r.value.Some? ==> r.value.value.0 in active)
            && forall c: Coding | r.value.Some? && c.channels == channels
                 && (c.frame.iface, c.frame.dest) == r.value.value ::
                 OnHighest(devices, active, c) && ReachedOnHighest(devices, active, c, pairs)
  {
    hide Interface, SomeActive, Ascending, DeviceOn, MacOn;
    InterfaceIff(devices, active, channels, pairs);
    if SomeActive(devices, active, channels) {
      var highest := HighestChannelDecides(devices, active, channels, pairs);
    }
  }

  lemma OtherCandidate(known: PacketInfo, devices: seq<nat>, active: seq<nat>, original: Entry, c: Coding, i: nat)
    requires i < |c.neighbors| && !Passes(known, c, i)
    requires EncodedStep(known, devices, active, original, c, i).Done?
    ensures EncodedStep(known, devices, active, original, c, i).value == c
  {
    hide Interface;
    assert (exists x | x in c.chosen :: x.mac == GetMac(c.neighbors[i])) <==>
           exists k :: 0 <= k < |c.chosen| && c.chosen[k].mac == GetMac(c.neighbors[i]);
  }

  /** One neighbour: the interface stays on a surviving channel if and only if the neighbour does not
      narrow the channels in vain. */
  lemma InVainIff(w: World, known: PacketInfo, devices: seq<nat>, active: seq<nat>, original: Entry, c: Coding, i: nat)
    requires CodingInv(w, known, devices, active, original, c) && i < |c.neighbors| && Settled(devices, active, c)
    requires EncodedStep(known, devices, active, original, c, i).Done?
    ensures var c' := EncodedStep(known, devices, active, original, c, i).value;
            && Settled(devices, active, c')
            && (|c.chosen| > 1 ==>
                  (OnSurvivor(devices, c') <==> OnSurvivor(devices, c) && !NarrowsInVain(known, devices, active, c, i)))
            && (|c.chosen| == 1 && |c'.chosen| > 1 ==> OnSurvivor(devices, c'))
  {
    hide CodingInv, EncodedStep, Candidate, Compatible, Ascending, ReachedOnHighest;
    if |c.chosen| > 1 {
      SurvivorIsHighest(devices, active, c);
    }
    if Passes(known, c, i) {
      PassingCandidate(w, known, devices, active, original, c, i);
    } else {
      OtherCandidate(known, devices, active, original, c, i);
    }
  }

  /** No neighbour from number i on narrows the channels in vain once the frame is coded. */
  ghost predicate NeverInVain(known: PacketInfo, devices: seq<nat>, active: seq<nat>, original: Entry, c: Coding,
                              i: nat)
    requires i <= |c.neighbors|
    decreases |c.neighbors| - i
  {
    i < |c.neighbors| ==>
      && !(|c.chosen| > 1 && NarrowsInVain(known, devices, active, c, i))
      && var r := EncodedStep(known, devices, active, original, c, i);
      r.Done? ==> NeverInVain(known, devices, active, original, r.value, i + 1)
  }

  lemma {:induction false} SurvivesIff(w: World, known: PacketInfo, devices: seq<nat>, active: seq<nat>,
                                       original: Entry, c: Coding, i: nat)
    requires CodingInv(w, known, devices, active, original, c) && i <= |c.neighbors| && Settled(devices, active, c)
    requires EncodedFrom(known, devices, active, original, c, i).Done?
    ensures var c' := EncodedFrom(known, devices, active, original, c, i).value;
            && Settled(devices, active, c')
            && (|c'.chosen| > 1 ==>
              (OnSurvivor(devices, c') <==>
                && (|c.chosen| > 1 ==> OnSurvivor(devices, c))
                && NeverInVain(known, devices, active, original, c, i)))
    decreases |c.neighbors| - i
  {
    hide EncodedStep, OnSurvivor, NarrowsInVain, Settled, GoodTable, Indexed, GoodWaiting, HeaderLists, Located;
    hide PairwiseDecodable, GoodOutput, CommonChannels, Reaches;
    if i == |c.neighbors| {
    } else {
      EncodedStepKeeps(w, known, devices, active, original, c, i);
      InVainIff(w, known, devices, active, original, c, i);
      SurvivesIff(w, known, devices, active, original, EncodedStep(known, devices, active, original, c, i).value, i
        + 1);
    }
  }

  lemma StartIsSettled(st: Protocol, active: seq<nat>, e: Entry, n: Neighbor)
    ensures Settled(st.devices, active, CodingStart(st, e, n))
  {
    ChannelsAscend(n.pairs);
  }

  /** A coded frame goes out on a surviving channel if and only if, after its first partner, no
      neighbour that passes the tests on natives narrows the channels to some without an active
      interface.  It then goes out on the highest surviving channel that can be used. */
  lemma OnSurvivingChannelIff(w: World, st: Protocol, active: seq<nat>, e: Entry, n: Neighbor)
    requires ReadyToSend(w, st, e) && e.dest != BROADCAST && !GetItem(st.known, e.pid, GetMac(n))
    requires n.pairs == st.neighbors[SearchMac(st.neighbors, e.dest)].pairs
    requires Encoded(st, active, e, n).Done? && |Encoded(st, active, e, n).value.chosen| > 1
    ensures var c := Encoded(st, active, e, n).value;
            && Ascending(c.channels)
            && (OnSurvivor(st.devices, c) <==> NeverInVain(st.known, st.devices, active, e, CodingStart(st, e, n), 0))
            && (OnSurvivor(st.devices, c) <==> OnHighest(st.devices, active, c))
            && (OnSurvivor(st.devices, c) <==> SomeActive(st.devices, active, c.channels))
  {
    hide EncodedFrom, NeverInVain, Ascending;
    CodingStarts(w, st, active, e, n);
    StartIsSettled(st, active, e, n);
    SurvivesIff(w, st.known, st.devices, active, e, CodingStart(st, e, n), 0);
    SurvivorIsHighest(st.devices, active, Encoded(st, active, e, n).value);
  }

  /** With an active interface on every channel any neighbour has, nothing is narrowed in vain. */
  lemma {:induction false} AllActiveNeverInVain(known: PacketInfo, devices: seq<nat>, active: seq<nat>, original: Entry,
                                                c: Coding, i: nat)
    requires i <= |c.neighbors|
    requires forall k, p | 0 <= k < |c.neighbors| && p in c.neighbors[k].pairs :: DeviceOn(devices, p.channel) in active
    ensures NeverInVain(known, devices, active, original, c, i)
    decreases |c.neighbors| - i
  {
    hide EncodedStep, Compatible, Candidate;
    if i == |c.neighbors| {
    } else {
      if Common(c, i) != [] {
        var ch := Common(c, i)[0];
        assert ch in Common(c, i) && ch in ChannelsOf(c.neighbors[i].pairs);
        assert DeviceOn(devices, ch) in active;
      }
      var r := EncodedStep(known, devices, active, original, c, i);
      if r.Done? {
        PairsStay(known, devices, active, original, c, i);
        AllActiveNeverInVain(known, devices, active, original, r.value, i + 1);
      }
    }
  }

  /** So a coded frame then always goes out on a surviving channel, the highest one. */
  lemma AllActiveSurvives(w: World, st: Protocol, active: seq<nat>, e: Entry, n: Neighbor)
    requires ReadyToSend(w, st, e) && e.dest != BROADCAST && !GetItem(st.known, e.pid, GetMac(n))
    requires n.pairs == st.neighbors[SearchMac(st.neighbors, e.dest)].pairs
    requires forall k, p | 0 <= k < |st.neighbors| && p in st.neighbors[k].pairs ::
               DeviceOn(st.devices, p.channel) in active
    requires Encoded(st, active, e, n).Done? && |Encoded(st, active, e, n).value.chosen| > 1
    ensures OnSurvivor(st.devices, Encoded(st, active, e, n).value)
    ensures OnHighest(st.devices, active, Encoded(st, active, e, n).value)
  {
    hide Encoded, ReadyToSend, GetItem;
    AllActiveNeverInVain(st.known, st.devices, active, e, CodingStart(st, e, n), 0);
    OnSurvivingChannelIff(w, st, active, e, n);
  }

  lemma PairsStay(known: PacketInfo, devices: seq<nat>, active: seq<nat>, original: Entry, c: Coding, i: nat)
    requires i < |c.neighbors| && EncodedStep(known, devices, active, original, c, i).Done?
    ensures var ns := EncodedStep(known, devices, active, original, c, i).value.neighbors;
            |ns| == |c.neighbors| && forall k | 0 <= k < |ns| ::
              ns[k].pairs == c.neighbors[k].pairs && (k != i ==> ns[k] == c.neighbors[k])
  {
    hide Interface, Compatible;
  }

  /** The queue only loses entries. */
  lemma CellsStay(known: PacketInfo, devices: seq<nat>, active: seq<nat>, original: Entry, c: Coding, i: nat)
    requires i < |c.neighbors| && EncodedStep(known, devices, active, original, c, i).Done?
    ensures var cells := EncodedStep(known, devices, active, original, c, i).value.queue.cells;
            forall p | p in cells :: p in c.queue.cells && cells[p] == c.queue.cells[p]
  {
    hide Interface, Compatible;
  }

  // ---------- Stopping for want of a channel ----------

  lemma {:induction false} ForeignChannels(devices: seq<nat>, active: seq<nat>, channels: seq<nat>,
                                           pairs: seq<AddressPair>)
    requires forall ch | ch in channels :: ch !in ChannelsOf(pairs)
    ensures Interface(devices, active, channels, pairs)
              == if SomeActive(devices, active, channels) then Fatal(NoSuchChannel) else Done(None)
  {
    if channels == [] {
    } else {
      var front, last := channels[..|channels| - 1], channels[|channels| - 1];
      ForeignChannels(devices, active, front, pairs);
      assert forall ch :: ch in channels <==> ch in front || ch == last;
      assert last !in ChannelsOf(pairs);
    }
  }

  /** Encode stops at a neighbour for want of a channel if and only if the neighbour passes all tests
      on natives and has none of the surviving channels, although an active interface is on one. */
  lemma StopsForChannelIff(w: World, known: PacketInfo, devices: seq<nat>, active: seq<nat>, original: Entry, c: Coding,
                           i: nat)
    requires CodingInv(w, known, devices, active, original, c) && i < |c.neighbors|
    ensures EncodedStep(known, devices, active, original, c, i) == Fatal(NoSuchChannel) <==>
            Passes(known, c, i) && Common(c, i) == [] && SomeActive(devices, active, c.channels)
  {
    hide GoodTable, Indexed, GoodWaiting, HeaderLists, Located, PairwiseDecodable, GoodOutput, CommonChannels;
    hide Reaches, Interface, SomeActive;
    if Passes(known, c, i) {
      NexthopIsNew(w, known, devices, active, original, c, i);
      if Common(c, i) == [] {
        ForeignChannels(devices, active, c.channels, c.neighbors[i].pairs);
      } else {
        InterfaceIff(devices, active, Common(c, i), c.neighbors[i].pairs);
      }
    } else {
      StopsOtherwise(known, devices, active, original, c, i);
    }
  }

  lemma StopsOtherwise(known: PacketInfo, devices: seq<nat>, active: seq<nat>, original: Entry, c: Coding, i: nat)
    requires i < |c.neighbors| && !Passes(known, c, i)
    ensures EncodedStep(known, devices, active, original, c, i) != Fatal(NoSuchChannel)
  {
    hide Interface;
    assert (exists x | x in c.chosen :: x.mac == GetMac(c.neighbors[i])) <==>
           exists k :: 0 <= k < |c.chosen| && c.chosen[k].mac == GetMac(c.neighbors[i]);
  }

  /** If one channel is common to all neighbours, Encode never stops for want of a channel. */
  lemma SharedChannelNeverStops(known: PacketInfo, devices: seq<nat>, active: seq<nat>, original: Entry, c: Coding,
                                i: nat, shared: nat)
    requires i < |c.neighbors| && shared in c.channels
    requires ListensOn(c.neighbors[i], shared)
    ensures match EncodedStep(known, devices, active, original, c, i)
            case Fatal(r) => r != NoSuchChannel
            case Done(c') => shared in c'.channels
  {
    hide Interface, Compatible, Joined, MinMac;
    var n := c.neighbors[i];
    var common := Intersection(c.channels, ChannelsOf(n.pairs));
    assert shared in common;
    OwnChannelsSuffice(devices, active, common, n.pairs);
    var out := Interface(devices, active, common, n.pairs).value;
    if out.Some? && n.virtualQueue != [] && n.virtualQueue[0] in c.queue.cells {
      JoinedChannels(original, c.(channels := common), i, out.value);
    }
  }

  /** A candidate that joins changes no channel and no address. */
  lemma JoinedChannels(original: Entry, c: Coding, i: nat, out: (nat, Mac48Address))
    requires i < |c.neighbors| && c.neighbors[i].virtualQueue != [] && c.neighbors[i].virtualQueue[0] in c.queue.cells
    ensures match Joined(original, c, i, out)
            case Fatal(r) => r != NoSuchChannel
            case Done(c') => c'.channels == c.channels && forall k | 0 <= k < |c.neighbors| ::
              c'.neighbors[k].pairs == c.neighbors[k].pairs
  {
  }

  lemma {:induction false} OwnChannelsSuffice(devices: seq<nat>, active: seq<nat>, channels: seq<nat>,
                                              pairs: seq<AddressPair>)
    requires forall c | c in channels :: c in ChannelsOf(pairs)
    ensures Interface(devices, active, channels, pairs).Done?
  {
    if channels == [] {
    } else {
      OwnChannelsSuffice(devices, active, channels[..|channels| - 1], pairs);
      assert channels[|channels| - 1] in ChannelsOf(pairs);
    }
  }

  lemma {:induction false} SharedFromNeverStops(known: PacketInfo, devices: seq<nat>, active: seq<nat>, original: Entry,
                                                c: Coding, i: nat, shared: nat)
    requires i <= |c.neighbors| && shared in c.channels && AllListenOn(c.neighbors, shared)
    ensures EncodedFrom(known, devices, active, original, c, i) != Fatal(NoSuchChannel)
    decreases |c.neighbors| - i
  {
    hide EncodedStep;
    if i == |c.neighbors| {
    } else {
      SharedChannelNeverStops(known, devices, active, original, c, i, shared);
      var r := EncodedStep(known, devices, active, original, c, i);
      if r.Done? {
        PairsStay(known, devices, active, original, c, i);
        SharedFromNeverStops(known, devices, active, original, r.value, i + 1, shared);
      }
    }
  }

  ghost predicate ListensOn(n: Neighbor, channel: nat) {
    exists p | p in n.pairs :: p.channel == channel
  }

  ghost predicate AllListenOn(ns: seq<Neighbor>, channel: nat) {
    forall k | 0 <= k < |ns| :: ListensOn(ns[k], channel)
  }

  /** The whole of Encode: with one channel common to all neighbours it never stops for want of one. */
  lemma SharedEncodeNeverStops(st: Protocol, active: seq<nat>, e: Entry, n: Neighbor, shared: nat)
    requires AllListenOn(st.neighbors, shared) && ListensOn(n, shared)
    ensures Encoded(st, active, e, n) != Fatal(NoSuchChannel)
  {
    hide EncodedFrom;
    SharedFromNeverStops(st.known, st.devices, active, e, CodingStart(st, e, n), 0, shared);
  }

  // ---------- One turn in full ----------

  /** The XOR runs off the buffer only at a candidate whose packet equals the original. */
  lemma RunsOffAtEqual(known: PacketInfo, devices: seq<nat>, active: seq<nat>, original: Entry, c: Coding, i: nat)
    requires i < |c.neighbors| && EncodedStep(known, devices, active, original, c, i) == Fatal(XorRunsOff)
    ensures Candidate(c, i) && Xor(original.packet, c.queue.cells[c.neighbors[i].virtualQueue[0]].packet) == []
  {
    hide Interface, Compatible;
    InterfaceOn(devices, active, c.channels, c.neighbors[i].pairs);
    InterfaceOn(devices, active, Common(c, i), c.neighbors[i].pairs);
    assert (exists x | x in c.chosen :: x.mac == GetMac(c.neighbors[i])) <==>
           exists k :: 0 <= k < |c.chosen| && c.chosen[k].mac == GetMac(c.neighbors[i]);
  }

  /** The candidate has none of the channels, although an active interface is on one. */
  ghost predicate Foreign(devices: seq<nat>, active: seq<nat>, channels: seq<nat>, pairs: seq<AddressPair>) {
    Intersection(channels, ChannelsOf(pairs)) == [] && SomeActive(devices, active, channels)
  }

  ghost predicate Joins(devices: seq<nat>, active: seq<nat>, channels: seq<nat>, pairs: seq<AddressPair>) {
    SomeActive(devices, active, Intersection(channels, ChannelsOf(pairs)))
  }

  /** Channels in common are all that is left, if there are any. */
  function Narrowed(channels: seq<nat>, pairs: seq<AddressPair>): (r: seq<nat>)
    ensures r != [] <==> channels != []
  {
    var common := Intersection(channels, ChannelsOf(pairs));
    if common == [] then channels else common
  }

  /** What becomes of a candidate that passes the tests on natives and whose packet differs from the
      original is decided by channels and active interfaces. */
  lemma PassingTurn(w: World, known: PacketInfo, devices: seq<nat>, active: seq<nat>, original: Entry, c: Coding,
                    i: nat)
    requires CodingInv(w, known, devices, active, original, c) && i < |c.neighbors| && Passes(known, c, i)
    requires Ascending(c.channels)
    requires Xor(original.packet, c.queue.cells[c.neighbors[i].virtualQueue[0]].packet) != []
    ensures var r := EncodedStep(known, devices, active, original, c, i);
            var n := c.neighbors[i];
            if Foreign(devices, active, c.channels, n.pairs) then r == Fatal(NoSuchChannel)
            else
              && r.Done? && CodingInv(w, known, devices, active, original, r.value) && Ascending(r.value.channels)
              && r.value.channels == Narrowed(c.channels, n.pairs)
              && r.value.chosen == c.chosen
                   + if Joins(devices, active, c.channels, n.pairs) then [ChoiceOf(n, c.queue.cells[n.virtualQueue[0]])]
                   else []
  {
    hide CodingInv, EncodedStep, Compatible, Candidate, Ascending, Xor, OnHighest, ReachedOnHighest, ChannelsOf;
    StopsForChannelIff(w, known, devices, active, original, c, i);
    EncodedStepKeeps(w, known, devices, active, original, c, i);
    var r := EncodedStep(known, devices, active, original, c, i);
    if r.Done? {
      PassingCandidate(w, known, devices, active, original, c, i);
    } else if r == Fatal(XorRunsOff) {
      RunsOffAtEqual(known, devices, active, original, c, i);
    }
  }
}
