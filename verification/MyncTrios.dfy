/** A family of runs: three neighbours say hello, their frames tell what they hold, and a packet is queued
    for each that the other two hold. */
module MyncTrios {
  import opened Addresses
  import opened Options
  import opened XorCoding
  import opened MyncQueues
  import opened MyncNeighbors
  import opened MyncProtocol
  import opened MyncIndex
  import opened MyncCoding
  import opened MyncSending
  import opened MyncLearning
  import opened MyncRuns

  // ---------- Three neighbours ----------

  /** The own interfaces, the hellos of the neighbours, and a packet for each. */
  datatype Trio = Trio(devices: seq<nat>, a: seq<AddressPair>, b: seq<AddressPair>, c: seq<AddressPair>,
                       first: Entry, second: Entry, third: Entry)

  ghost predicate ProperEntry(w: World, devices: seq<nat>, e: Entry, pid: PacketId, pairs: seq<AddressPair>) {
    && !e.hello && e.retry == 0 && e.pid == pid && e.iface < |devices| && e.dest != BROADCAST
    && w.channel(e.dest) == devices[e.iface] && HasMac(Neighbor(pairs, []), e.dest)
  }

  ghost predicate Proper(w: World, t: Trio) {
    && GoodWorld(w) && Complete(w, 1, t.a) && Complete(w, 2, t.b) && Complete(w, 3, t.c)
    && ProperEntry(w, t.devices, t.first, 1, t.a) && ProperEntry(w, t.devices, t.second, 2, t.b)
    && ProperEntry(w, t.devices, t.third, 3, t.c)
  }

  function Hellos(t: Trio): seq<Step> {
    [HearHello(t.a), HearHello(t.b), HearHello(t.c)]
  }

  function Enqueues(t: Trio): seq<Step> {
    [Enqueue(t.first), Enqueue(t.second), Enqueue(t.third)]
  }

  /** The packets the three hold, as a relay learns it: the second neighbour sends packet 1, the third
      packet 2, having overheard packet 1, the first packet 3, having overheard packet 2, and the second
      one more packet, having overheard packet 3. */
  function Frames(t: Trio): seq<Step>
    requires t.a != [] && t.b != [] && t.c != []
  {
    [HearFrame(t.b[0], [], [1]), HearFrame(t.c[0], [], [1, 2]), HearFrame(t.a[0], [], [2, 3])]
      + [HearFrame(t.b[0], [], [3, 4])]
  }

  function Setup(t: Trio): seq<Step>
    requires t.a != [] && t.b != [] && t.c != []
  {
    Hellos(t) + (Frames(t) + Enqueues(t))
  }

  function Neighbors(t: Trio, x: seq<nat>, y: seq<nat>, z: seq<nat>): seq<Neighbor> {
    [Neighbor(t.a, x), Neighbor(t.b, y), Neighbor(t.c, z)]
  }

  function Output(t: Trio): Queue {
    Queue([0, 1, 2], map[0 := t.first, 1 := t.second, 2 := t.third], 3)
  }

  /** What is known after the first k frames. */
  function KnownAfter(t: Trio, k: nat): PacketInfo
    requires k <= 4
  {
    if k == 0 then map[]
    else if k == 1 then Recorded(KnownAfter(t, 0), [1], MinMac(t.b))
    else if k == 2 then Recorded(KnownAfter(t, 1), [1, 2], MinMac(t.c))
    else if k == 3 then Recorded(KnownAfter(t, 2), [2, 3], MinMac(t.a))
    else Recorded(KnownAfter(t, 3), [3, 4], MinMac(t.b))
  }

  function KnownToAll(t: Trio): PacketInfo {
    KnownAfter(t, 4)
  }

  /** The state those steps lead to. */
  function Ready(t: Trio): Protocol {
    Protocol(Output(t), EMPTY, Neighbors(t, [0], [1], [2]), KnownToAll(t), t.devices)
  }

  // ---------- The hellos ----------

  /** No neighbour has an address of the hello. */
  ghost predicate Unheard(ns: seq<Neighbor>, pairs: seq<AddressPair>) {
    forall k, p | 0 <= k < |ns| && p in pairs :: !HasMac(ns[k], p.mac) && !HasIp(ns[k], p.ip)
  }

  lemma {:induction false} UnheardPairs(w: World, node: nat, cells: map<nat, Entry>, ns: seq<Neighbor>,
                                        all: seq<AddressPair>, k: nat)
    requires GoodWorld(w) && Complete(w, node, all) && Unheard(ns, all) && k <= |all|
    ensures LearnedPairs(cells, Assembly(ns, Neighbor(all[..k], [])), all[k..]) == Done(Assembly(ns, Neighbor(all, [])))
    decreases |all| - k
  {
    hide Complete, GoodWorld, Cleared, HasMac, HasIp;
    if k == |all| {
      assert all[..k] == all;
    } else {
      var t := all[k];
      NotFound(ns, all, t);
      ListedApart(w, node, all, k);
      assert all[..k] + [t] == all[..k + 1] && all[k..][1..] == all[k + 1..];
      UnheardPairs(w, node, cells, ns, all, k + 1);
    }
  }

  lemma ListedApart(w: World, node: nat, all: seq<AddressPair>, k: nat)
    requires GoodWorld(w) && Complete(w, node, all) && k < |all|
    ensures WithTrinity(Neighbor(all[..k], []), all[k]).pairs == all[..k] + [all[k]]
  {
    NothingCleared(w, node, all[..k], all[k]);
  }

  lemma NotFound(ns: seq<Neighbor>, all: seq<AddressPair>, t: AddressPair)
    requires Unheard(ns, all) && t in all
    ensures SearchMac(ns, t.mac) == |ns| && SearchIp(ns, t.ip) == |ns|
  {
  }

  /** The hello of a node not heard before becomes a neighbour of its own. */
  lemma UnheardHello(w: World, node: nat, st: Protocol, pairs: seq<AddressPair>)
    requires GoodWorld(w) && Complete(w, node, pairs) && Unheard(st.neighbors, pairs)
    ensures Learned(st, pairs) == Done(st.(neighbors := st.neighbors + [Neighbor(pairs, [])]))
  {
    hide LearnedPairs, Complete, GoodWorld, ShareAddress;
    NotEmpty(w, node, pairs);
    assert pairs[..|pairs| % 256] == pairs && pairs[0..] == pairs && pairs[..0] == [];
    UnheardPairs(w, node, st.queue.cells, st.neighbors, pairs, 0);
    NothingShared(st.neighbors, pairs);
  }

  lemma NotEmpty(w: World, node: nat, pairs: seq<AddressPair>)
    requires Complete(w, node, pairs)
    ensures 0 < |pairs| <= 255
  {
  }

  lemma NothingShared(ns: seq<Neighbor>, pairs: seq<AddressPair>)
    requires Unheard(ns, pairs)
    ensures forall other | other in ns :: !ShareAddress(Neighbor(pairs, []), other)
  {
    forall other | other in ns
      ensures !ShareAddress(Neighbor(pairs, []), other)
    {
      var k :| 0 <= k < |ns| && ns[k] == other;
    }
  }

  /** Complete hellos of different nodes have no address in common. */
  lemma NodesAreApart(w: World, x: nat, y: nat, a: seq<AddressPair>, b: seq<AddressPair>, vq: seq<nat>)
    requires Complete(w, x, a) && Complete(w, y, b) && x != y
    ensures Unheard([Neighbor(a, vq)], b)
  {
  }

  // ---------- The whole setup ----------

  lemma PlayedThree(s0: Protocol, s1: Protocol, s2: Protocol, s3: Protocol, x: Step, y: Step, z: Step, rest: seq<Step>)
    requires OwnInterface(s0.devices, x) && OwnInterface(s0.devices, y) && OwnInterface(s0.devices, z)
    requires forall step | step in rest :: OwnInterface(s0.devices, step)
    requires Stepped(s0, x) == Done(Sending(s1, None))
    requires OwnInterface(s1.devices, y) && Stepped(s1, y) == Done(Sending(s2, None))
    requires OwnInterface(s2.devices, z) && Stepped(s2, z) == Done(Sending(s3, None))
    ensures s3.devices == s0.devices
    ensures forall step | step in [x, y, z] + rest :: OwnInterface(s0.devices, step)
    ensures Played(s0, [x, y, z] + rest) == Played(s3, rest)
  {
    hide Stepped, Played;
    PlayedOne(s2, z, rest, s3);
    assert [z] + rest == [z] + rest;
    PlayedOne(s1, y, [z] + rest, s2);
    assert [y] + ([z] + rest) == [y, z] + rest;
    PlayedOne(s0, x, [y, z] + rest, s1);
    assert [x] + ([y, z] + rest) == [x, y, z] + rest;
  }

  lemma PlayedOne(st: Protocol, step: Step, rest: seq<Step>, st': Protocol)
    requires OwnInterface(st.devices, step) && forall s | s in rest :: OwnInterface(st.devices, s)
    requires Stepped(st, step) == Done(Sending(st', None))
    ensures st'.devices == st.devices && forall s | s in [step] + rest :: OwnInterface(st.devices, s)
    ensures Played(st, [step] + rest) == Played(st', rest)
  {
    assert ([step] + rest)[1..] == rest;
    if Played(st', rest).Done? {
      var h := Played(st', rest).value;
      assert [] + h.frames == h.frames;
    }
  }

  /** Which neighbour owns a destination. */
  lemma OwnerFound(w: World, t: Trio, x: seq<nat>, y: seq<nat>, z: seq<nat>, dest: Mac48Address)
    requires Proper(w, t)
    ensures HasMac(Neighbor(t.a, []), dest) ==> SearchMac(Neighbors(t, x, y, z), dest) == 0
    ensures HasMac(Neighbor(t.b, []), dest) ==> SearchMac(Neighbors(t, x, y, z), dest) == 1
    ensures HasMac(Neighbor(t.c, []), dest) ==> SearchMac(Neighbors(t, x, y, z), dest) == 2
  {
    var ns := Neighbors(t, x, y, z);
    assert HasMac(ns[0], dest) <==> HasMac(Neighbor(t.a, []), dest);
    assert HasMac(ns[1], dest) <==> HasMac(Neighbor(t.b, []), dest);
    assert HasMac(ns[2], dest) <==> HasMac(Neighbor(t.c, []), dest);
  }

  lemma SenderFound(w: World, t: Trio, x: seq<nat>, y: seq<nat>, z: seq<nat>)
    requires Proper(w, t)
    ensures SearchIp(Neighbors(t, x, y, z), t.a[0].ip) == SearchMac(Neighbors(t, x, y, z), t.a[0].mac) == 0
    ensures SearchIp(Neighbors(t, x, y, z), t.b[0].ip) == SearchMac(Neighbors(t, x, y, z), t.b[0].mac) == 1
    ensures SearchIp(Neighbors(t, x, y, z), t.c[0].ip) == SearchMac(Neighbors(t, x, y, z), t.c[0].mac) == 2
  {
    var ns := Neighbors(t, x, y, z);
    assert t.a[0] in ns[0].pairs && t.b[0] in ns[1].pairs && t.c[0] in ns[2].pairs;
    assert HasMac(ns[0], t.a[0].mac) && HasMac(ns[1], t.b[0].mac) && HasMac(ns[2], t.c[0].mac);
    assert HasIp(ns[0], t.a[0].ip) && HasIp(ns[1], t.b[0].ip) && HasIp(ns[2], t.c[0].ip);
  }

  /** A packet for a neighbour without packets. */
  lemma EnqueuedFirst(st: Protocol, e: Entry, k: nat)
    requires e.iface < |st.devices| && !e.hello && e.dest != BROADCAST && Admits(st.queue, e.pid)
    requires SearchMac(st.neighbors, e.dest) == k < |st.neighbors| && st.neighbors[k].virtualQueue == []
    ensures Stepped(st, Enqueue(e))
         == Done(Sending(st.(queue := EnqueuedBack(st.queue, e),
              neighbors := WithQueue(st.neighbors, k, [st.queue.next])), None))
  {
    hide Admits;
    assert [] + [st.queue.next] == [st.queue.next];
    assert Pushed(EnqueuedBack(st.queue, e).cells, [], st.queue.next, false) == Done([st.queue.next]);
  }

  /** The states between the hellos, the frames and the packets. */
  function Met(t: Trio, k: nat): Protocol
    requires k <= 4
  {
    Start(t.devices).(neighbors := Neighbors(t, [], [], []), known := KnownAfter(t, k))
  }

  function Queued1(t: Trio): Protocol {
    Met(t, 4).(queue := Queue([0], map[0 := t.first], 1), neighbors := Neighbors(t, [0], [], []))
  }

  function Queued2(t: Trio): Protocol {
    Met(t, 4).(queue := Queue([0, 1], map[0 := t.first, 1 := t.second], 2), neighbors := Neighbors(t, [0], [1], []))
  }

  lemma HellosHeard(w: World, t: Trio)
    requires Proper(w, t)
    ensures var s0 := Start(t.devices);
            var s1 := s0.(neighbors := [Neighbor(t.a, [])]);
            var s2 := s0.(neighbors := [Neighbor(t.a, []), Neighbor(t.b, [])]);
            && Stepped(s0, HearHello(t.a)) == Done(Sending(s1, None))
            && Stepped(s1, HearHello(t.b)) == Done(Sending(s2, None))
            && Stepped(s2, HearHello(t.c)) == Done(Sending(Met(t, 0), None))
  {
    hide Learned, Complete, GoodWorld, ProperEntry, Unheard;
    var s0 := Start(t.devices);
    var s1 := s0.(neighbors := [Neighbor(t.a, [])]);
    var s2 := s0.(neighbors := [Neighbor(t.a, []), Neighbor(t.b, [])]);
    TwoApart(w, t);
    assert [] + [Neighbor(t.a, [])] == s1.neighbors;
    assert s1.neighbors + [Neighbor(t.b, [])] == s2.neighbors;
    assert s2.neighbors + [Neighbor(t.c, [])] == Met(t, 0).neighbors;
    UnheardHello(w, 1, s0, t.a);
    UnheardHello(w, 2, s1, t.b);
    UnheardHello(w, 3, s2, t.c);
  }

  lemma TwoApart(w: World, t: Trio)
    requires Proper(w, t)
    ensures Unheard([], t.a) && Unheard([Neighbor(t.a, [])], t.b)
    ensures Unheard([Neighbor(t.a, []), Neighbor(t.b, [])], t.c)
  {
    hide Complete, GoodWorld, ProperEntry, HasMac, HasIp;
    NodesAreApart(w, 1, 2, t.a, t.b, []);
    NodesAreApart(w, 1, 3, t.a, t.c, []);
    NodesAreApart(w, 2, 3, t.b, t.c, []);
    var ns := [Neighbor(t.a, []), Neighbor(t.b, [])];
    assert ns[0] == [Neighbor(t.a, [])][0] && ns[1] == [Neighbor(t.b, [])][0];
  }

  lemma FirstQueued(w: World, t: Trio)
    requires Proper(w, t)
    ensures Stepped(Met(t, 4), Enqueue(t.first)) == Done(Sending(Queued1(t), None))
  {
    hide SearchMac, Stepped, Complete, GoodWorld, KnownAfter;
    OwnerFound(w, t, [], [], [], t.first.dest);
    EnqueuedFirst(Met(t, 4), t.first, 0);
    assert [] + [0] == [0];
    assert WithQueue(Met(t, 4).neighbors, 0, [0]) == Queued1(t).neighbors;
  }

  lemma SecondQueued(w: World, t: Trio)
    requires Proper(w, t)
    ensures Stepped(Queued1(t), Enqueue(t.second)) == Done(Sending(Queued2(t), None))
  {
    hide SearchMac, Stepped, Complete, GoodWorld, KnownAfter;
    OwnerFound(w, t, [0], [], [], t.second.dest);
    EnqueuedFirst(Queued1(t), t.second, 1);
    assert [0] + [1] == [0, 1];
    assert WithQueue(Queued1(t).neighbors, 1, [1]) == Queued2(t).neighbors;
  }

  lemma ThirdQueued(w: World, t: Trio)
    requires Proper(w, t)
    ensures Stepped(Queued2(t), Enqueue(t.third)) == Done(Sending(Ready(t), None))
  {
    hide SearchMac, Stepped, Complete, GoodWorld, KnownAfter;
    OwnerFound(w, t, [0], [1], [], t.third.dest);
    EnqueuedFirst(Queued2(t), t.third, 2);
    assert [0, 1] + [2] == [0, 1, 2];
    assert WithQueue(Queued2(t).neighbors, 2, [2]) == Ready(t).neighbors;
  }

  /** A frame from a neighbour whose addresses are known. */
  lemma FrameHeard(st: Protocol, k: nat, sender: AddressPair, held: seq<PacketId>)
    requires SearchIp(st.neighbors, sender.ip) == SearchMac(st.neighbors, sender.mac) == k < |st.neighbors|
    ensures Stepped(st, HearFrame(sender, [], held))
         == Done(Sending(st.(known := Recorded(st.known, held, GetMac(st.neighbors[k]))), None))
  {
    hide Recorded;
  }

  lemma FramesHeard(w: World, t: Trio)
    requires Proper(w, t)
    ensures t.a != [] && t.b != [] && t.c != []
    ensures Stepped(Met(t, 0), HearFrame(t.b[0], [], [1])) == Done(Sending(Met(t, 1), None))
    ensures Stepped(Met(t, 1), HearFrame(t.c[0], [], [1, 2])) == Done(Sending(Met(t, 2), None))
    ensures Stepped(Met(t, 2), HearFrame(t.a[0], [], [2, 3])) == Done(Sending(Met(t, 3), None))
    ensures Stepped(Met(t, 3), HearFrame(t.b[0], [], [3, 4])) == Done(Sending(Met(t, 4), None))
  {
    hide SearchMac, SearchIp, Recorded, MinMac, Stepped, Complete, GoodWorld, ProperEntry;
    SenderFound(w, t, [], [], []);
    FrameHeard(Met(t, 0), 1, t.b[0], [1]);
    FrameHeard(Met(t, 1), 2, t.c[0], [1, 2]);
    FrameHeard(Met(t, 2), 0, t.a[0], [2, 3]);
    FrameHeard(Met(t, 3), 1, t.b[0], [3, 4]);
  }

  lemma HellosPlayed(w: World, t: Trio, rest: seq<Step>)
    requires Proper(w, t) && forall step | step in rest :: OwnInterface(t.devices, step)
    ensures forall step | step in Hellos(t) + rest :: OwnInterface(t.devices, step)
    ensures Played(Start(t.devices), Hellos(t) + rest) == Played(Met(t, 0), rest)
  {
    hide Stepped, Played, Complete, GoodWorld, ProperEntry;
    HellosHeard(w, t);
    var s0 := Start(t.devices);
    PlayedThree(s0, s0.(neighbors := [Neighbor(t.a, [])]), s0.(neighbors := [Neighbor(t.a, []), Neighbor(t.b, [])]),
      Met(t, 0),
                HearHello(t.a), HearHello(t.b), HearHello(t.c), rest);
  }

  lemma PacketsPlayed(w: World, t: Trio, rest: seq<Step>)
    requires Proper(w, t) && forall step | step in rest :: OwnInterface(t.devices, step)
    ensures forall step | step in Enqueues(t) + rest :: OwnInterface(t.devices, step)
    ensures Played(Met(t, 4), Enqueues(t) + rest) == Played(Ready(t), rest)
  {
    hide Stepped, Played, Complete, GoodWorld;
    FirstQueued(w, t);
    SecondQueued(w, t);
    ThirdQueued(w, t);
    PlayedThree(Met(t, 4), Queued1(t), Queued2(t), Ready(t), Enqueue(t.first), Enqueue(t.second), Enqueue(t.third),
      rest);
  }

  lemma SomeListed(w: World, t: Trio)
    requires Proper(w, t)
    ensures GoodWorld(w) && t.a != [] && t.b != [] && t.c != []
  {
    hide GoodWorld, HasMac;
  }

  lemma FramesPlayed(w: World, t: Trio, rest: seq<Step>)
    requires Proper(w, t) && forall step | step in rest :: OwnInterface(t.devices, step)
    ensures forall step | step in Frames(t) + rest :: OwnInterface(t.devices, step)
    ensures Played(Met(t, 0), Frames(t) + rest) == Played(Met(t, 4), rest)
  {
    hide Stepped, Played, Complete, GoodWorld, ProperEntry, KnownAfter, MinMac;
    FramesHeard(w, t);
    var last := [HearFrame(t.b[0], [], [3, 4])];
    PlayedOne(Met(t, 3), last[0], rest, Met(t, 4));
    PlayedThree(Met(t, 0), Met(t, 1), Met(t, 2), Met(t, 3),
                HearFrame(t.b[0], [], [1]), HearFrame(t.c[0], [], [1, 2]), HearFrame(t.a[0], [], [2, 3]), last + rest);
    assert Frames(t) + rest == Frames(t)[..3] + (last + rest);
  }

  /** Every step of the setup is one the system keeps to. */
  lemma SetupIsValid(w: World, t: Trio)
    requires Proper(w, t)
    ensures forall step | step in Setup(t) :: ValidStep(w, t.devices, step)
  {
    hide GoodWorld, HasMac;
    assert Complete(w, 1, t.a) && Complete(w, 2, t.b) && Complete(w, 3, t.c);
    assert t.a[0] in t.a && t.b[0] in t.b && t.c[0] in t.c;
    assert forall step | step in Hellos(t) :: ValidStep(w, t.devices, step);
    assert forall step | step in Enqueues(t) :: ValidStep(w, t.devices, step);
    assert forall step | step in Frames(t) :: ValidStep(w, t.devices, step);
  }

  /** No step of the setup stops, and they lead to Ready. */
  lemma SetupLeadsToReady(w: World, t: Trio, rest: seq<Step>)
    requires Proper(w, t) && forall step | step in rest :: OwnInterface(t.devices, step)
    ensures forall step | step in Setup(t) + rest :: OwnInterface(t.devices, step)
    ensures Played(Start(t.devices), Setup(t) + rest) == Played(Ready(t), rest)
  {
    hide Played, Complete, GoodWorld, ProperEntry, Ready, Start, Met, OwnInterface, Hellos, Enqueues, Frames;
    SomeListed(w, t);
    PacketsPlayed(w, t, rest);
    FramesPlayed(w, t, Enqueues(t) + rest);
    HellosPlayed(w, t, Frames(t) + (Enqueues(t) + rest));
    assert Setup(t) + rest == Hellos(t) + (Frames(t) + (Enqueues(t) + rest));
  }

  /** So Ready is a reachable state. */
  lemma ReadyKeepsInv(w: World, t: Trio)
    requires Proper(w, t)
    ensures Inv(w, Ready(t))
  {
    hide ValidStep, Inv, Ready, Setup, Proper, GoodWorld;
    SomeListed(w, t);
    SetupIsValid(w, t);
    SetupLeadsToReady(w, t, []);
    assert Setup(t) + [] == Setup(t);
    StartsIndexed(w, t.devices);
    PlayedKeeps(w, Start(t.devices), Setup(t));
  }
}
