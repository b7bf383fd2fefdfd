/** What comes of the records when every packet comes from one catalogue of ids, with any time to live:
    what a node has on record of others stays true as long as coded frames decode, and when they do is
    decided by the packets coded. */
module MyncRecords {
  import opened Addresses
  import opened Options
  import opened XorCoding
  import opened MyncQueues
  import opened MyncNeighbors
  import opened MyncProtocol
  import opened MyncIndex
  import opened MyncCoding
  import opened MyncSending
  import opened MyncLearning
  import opened MyncRuns
  import opened MyncFrames
  import opened MyncEntries
  import opened MyncPackets
  import opened MyncNetwork

  // ---------- Sums of packets of the catalogue ----------

  ghost function Originals(cat: Catalogue, pids: seq<PacketId>): seq<Bytes> {
    seq(|pids|, i requires 0 <= i < |pids| => if pids[i] in cat then cat[pids[i]] else [])
  }

  lemma OriginalsSplit(cat: Catalogue, a: seq<PacketId>, b: seq<PacketId>)
    ensures Originals(cat, a + b) == Originals(cat, a) + Originals(cat, b)
  {
  }

  lemma {:induction false} SumOfSame(a: seq<Bytes>, b: seq<Bytes>, i: nat)
    requires |a| == |b| && forall k | 0 <= k < |a| :: ByteAt(a[k], i) == ByteAt(b[k], i)
    ensures SumAt(a, i) == SumAt(b, i)
  {
    if a == [] {
    } else {
      SumOfSame(a[1..], b[1..], i);
    }
  }

  lemma {:induction false} SumOfListed(cat: Catalogue, a: seq<PacketId>, b: seq<PacketId>, i: nat)
    requires multiset(a) == multiset(b)
    ensures SumAt(Originals(cat, a), i) == SumAt(Originals(cat, b), i)
    decreases |a|
  {
    hide SumAt, Originals;
    assert |multiset(a)| == |multiset(b)|;
    if a == [] {
    } else {
      assert a[0] in multiset(a);
      var k :| 0 <= k < |b| && b[k] == a[0];
      MultisetWithout(a, 0);
      MultisetWithout(b, k);
      SumOfListed(cat, a[..0] + a[1..], b[..k] + b[k + 1..], i);
      SumWithoutOne(cat, a, 0, i);
      SumWithoutOne(cat, b, k, i);
    }
  }

  lemma SumWithoutOne(cat: Catalogue, s: seq<PacketId>, k: nat, i: nat)
    requires k < |s|
    ensures SumAt(Originals(cat, s), i)
         == Add(ByteAt(if s[k] in cat then cat[s[k]] else [], i), SumAt(Originals(cat, s[..k] + s[k + 1..]), i))
  {
    SumWithout(Originals(cat, s), k, i);
    assert Originals(cat, s)[..k] + Originals(cat, s)[k + 1..] == Originals(cat, s[..k] + s[k + 1..]);
  }

  /** The natives between the first and the last. */
  function Between(natives: seq<PacketId>): seq<PacketId> {
    if |natives| < 2 then [] else natives[1..|natives| - 1]
  }

  lemma SumOfNatives(cat: Catalogue, natives: seq<PacketId>, i: nat)
    requires |natives| >= 2 && forall pid | pid in natives :: pid in cat
    ensures SumAt(Originals(cat, natives), i)
         == Add(ByteAt(cat[natives[0]], i),
              Add(SumAt(Originals(cat, Between(natives)), i), ByteAt(cat[natives[|natives| - 1]], i)))
  {
    var first, last := natives[0], natives[|natives| - 1];
    assert first in natives && last in natives;
    assert natives == [first] + (Between(natives) + [last]);
    OriginalsSplit(cat, [first], Between(natives) + [last]);
    OriginalsSplit(cat, Between(natives), [last]);
    SumSplits(Originals(cat, [first]), Originals(cat, Between(natives) + [last]), i);
    SumSplits(Originals(cat, Between(natives)), Originals(cat, [last]), i);
    OneOriginal(cat, first, i);
    OneOriginal(cat, last, i);
  }

  lemma OneOriginal(cat: Catalogue, pid: PacketId, i: nat)
    requires pid in cat
    ensures SumAt(Originals(cat, [pid]), i) == ByteAt(cat[pid], i)
  {
    var s := Originals(cat, [pid]);
    assert s[1..] == [];
    AddGroup(ByteAt(cat[pid], i), 0, 0);
  }

  // ---------- What a receiver of one missing native decodes ----------

  /** A pool that holds copies of all listed natives but number m. */
  ghost predicate Lacks(cat: Catalogue, pool: map<PacketId, Bytes>, listed: seq<PacketId>, m: nat) {
    && m < |listed| && listed[m] in cat && listed[m] !in pool
    && forall k | 0 <= k < |listed| && k != m :: listed[k] in pool && Entered(cat, listed[k], pool[listed[k]])
  }

  /** The frame is the XOR of copies of its first and last native. */
  ghost predicate CodesEnds(cat: Catalogue, natives: seq<PacketId>, frame: Bytes) {
    && |natives| >= 2 && (forall pid | pid in natives :: pid in cat)
    && exists a, b :: Copy(a, cat[natives[0]]) && Copy(b, cat[natives[|natives| - 1]]) && frame == Xor(a, b)
  }

  lemma EndsOctet(cat: Catalogue, natives: seq<PacketId>, frame: Bytes, i: nat)
    requires CodesEnds(cat, natives, frame) && i != TTL
    ensures ByteAt(frame, i) == Add(ByteAt(cat[natives[0]], i), ByteAt(cat[natives[|natives| - 1]], i))
  {
    var a, b :| Copy(a, cat[natives[0]]) && Copy(b, cat[natives[|natives| - 1]]) && frame == Xor(a, b);
    XorBytes(a, b, i);
  }

  lemma OthersOctet(cat: Catalogue, pool: map<PacketId, Bytes>, listed: seq<PacketId>, m: nat, i: nat)
    requires Lacks(cat, pool, listed, m) && i != TTL
    ensures SumAt(Originals(cat, listed), i) == Add(SumAt(Others(listed, pool, 0), i), ByteAt(cat[listed[m]], i))
  {
    hide Others, SumAt;
    var exact := seq(|listed|, k requires 0 <= k < |listed| => if listed[k] in pool then pool[listed[k]]
        else cat[listed[m]]);
    assert AllButOne(listed, pool, exact, m);
    PooledSum(listed, pool, exact, m, 0, i);
    assert exact[0..] == exact;
    SumOfSame(Originals(cat, listed), exact, i);
  }

  lemma FourOctets(first: bv8, between: bv8, last: bv8, missing: bv8)
    ensures Add(Add(first, last), Add(Add(first, Add(between, last)), missing)) == Add(between, missing)
  {
  }

  lemma SwapTerms(x: bv8, y: bv8, z: bv8)
    requires x == Add(y, z)
    ensures y == Add(x, z)
  {
    AddGroup(x, y, z);
    AddGroup(y, z, x);
    AddAssociates(y, z, z);
  }

  /** Octet by octet, up to the time to live, decoding yields the missing native XOR the natives between
      the first and the last. */
  lemma DecodedOctet(cat: Catalogue, pool: map<PacketId, Bytes>, natives: seq<PacketId>, listed: seq<PacketId>, m: nat,
                     frame: Bytes, i: nat)
    requires CodesEnds(cat, natives, frame) && multiset(listed) == multiset(natives) && Lacks(cat, pool, listed, m)
    requires !Decode(listed, pool, frame).RunsOff? && i != TTL
    ensures Decode(listed, pool, frame).code == listed[m]
    ensures ByteAt(Decode(listed, pool, frame).packet, i)
         == Add(SumAt(Originals(cat, Between(natives)), i), ByteAt(cat[listed[m]], i))
  {
    hide Decode, SumAt, Originals, Others, Xor, Between, Add;
    OneMissingAll(listed, pool, m, frame);
    OthersOctet(cat, pool, listed, m, i);
    SumOfListed(cat, listed, natives, i);
    SumOfNatives(cat, natives, i);
    EndsOctet(cat, natives, frame, i);
    var first, last := ByteAt(cat[natives[0]], i), ByteAt(cat[natives[|natives| - 1]], i);
    var between, missing := SumAt(Originals(cat, Between(natives)), i), ByteAt(cat[listed[m]], i);
    SwapTerms(SumAt(Originals(cat, listed), i), SumAt(Others(listed, pool, 0), i), missing);
    FourOctets(first, between, last, missing);
  }

  /** Up to the time to live the packets XOR to nothing. */
  ghost predicate CancelOut(cat: Catalogue, pids: seq<PacketId>) {
    forall i: nat | i != TTL :: SumAt(Originals(cat, pids), i) == 0
  }

  lemma FrameIsCanonical(cat: Catalogue, natives: seq<PacketId>, frame: Bytes)
    requires CodesEnds(cat, natives, frame)
    ensures Canonical(frame)
  {
  }

  lemma ReachesBeyond(hash: Hash, cat: Catalogue, pid: PacketId)
    requires GoodCatalogue(hash, cat) && pid in cat
    ensures Canonical(cat[pid]) && |cat[pid]| > TTL + 1 && exists i: nat :: i > TTL && ByteAt(cat[pid], i) != 0
  {
    assert ByteAt(cat[pid], |cat[pid]| - 1) != 0;
  }

  /** A receiver that lacks one native decodes a copy of it if and only if the natives between the first
      and the last cancel out. */
  lemma DecodesCopyIff(hash: Hash, cat: Catalogue, pool: map<PacketId, Bytes>, natives: seq<PacketId>,
                       listed: seq<PacketId>,
                       m: nat, frame: Bytes)
    requires GoodCatalogue(hash, cat) && CodesEnds(cat, natives, frame)
    requires multiset(listed) == multiset(natives) && Lacks(cat, pool, listed, m)
    requires !Decode(listed, pool, frame).RunsOff?
    ensures Decode(listed, pool, frame).code == listed[m]
    ensures Copy(Decode(listed, pool, frame).packet, cat[listed[m]]) <==> CancelOut(cat, Between(natives))
  {
    hide Decode, Originals, Between, SumAt, GoodCatalogue, CodesEnds, Lacks;
    LacksListed(cat, pool, listed, m);
    var r, c := Decode(listed, pool, frame).packet, cat[listed[m]];
    DecodedOctet(cat, pool, natives, listed, m, frame, 0);
    forall i: nat | i != TTL
      ensures ByteAt(r, i) == ByteAt(c, i) <==> SumAt(Originals(cat, Between(natives)), i) == 0
    {
      DecodedOctet(cat, pool, natives, listed, m, frame, i);
      AddGroup(SumAt(Originals(cat, Between(natives)), i), ByteAt(c, i), ByteAt(c, i));
    }
    if CancelOut(cat, Between(natives)) {
      FrameIsCanonical(cat, natives, frame);
      DecodeCanonical(listed, pool, frame);
      ReachesBeyond(hash, cat, listed[m]);
      AlikeIsCopy(r, c);
    }
    if Copy(r, c) {
      CopyIsAlike(r, c);
    }
  }

  lemma LacksListed(cat: Catalogue, pool: map<PacketId, Bytes>, listed: seq<PacketId>, m: nat)
    requires Lacks(cat, pool, listed, m)
    ensures m < |listed| && listed[m] in cat
  {
  }

  lemma DecodeCanonical(listed: seq<PacketId>, pool: map<PacketId, Bytes>, frame: Bytes)
    requires Canonical(frame) && !Decode(listed, pool, frame).RunsOff?
    ensures Canonical(Decode(listed, pool, frame).packet)
  {
    DecodedFromCanonical(listed, pool, frame, 0, 0, 0, 0);
  }

  // ---------- Which natives are missing ----------

  lemma {:induction false} NoneIsMissing(pids: seq<PacketId>, pool: map<PacketId, Bytes>, k: nat)
    requires k <= |pids| && Missing(pids, pool, k) == 0
    ensures forall i | k <= i < |pids| :: pids[i] in pool
    decreases |pids| - k
  {
    if k == |pids| {
    } else {
      NoneIsMissing(pids, pool, k + 1);
    }
  }

  lemma {:induction false} OneIsMissing(pids: seq<PacketId>, pool: map<PacketId, Bytes>, k: nat) returns (m: nat)
    requires k <= |pids| && Missing(pids, pool, k) == 1
    ensures k <= m < |pids| && pids[m] !in pool && forall i | k <= i < |pids| && i != m :: pids[i] in pool
    decreases |pids| - k
  {
    if pids[k] !in pool {
      NoneIsMissing(pids, pool, k + 1);
      m := k;
    } else {
      m := OneIsMissing(pids, pool, k + 1);
    }
  }

  // ---------- What a node takes out of a frame ----------

  /** The frame is what the packets of the catalogue make it. */
  ghost predicate Genuine(cat: Catalogue, t: Transmission) {
    && (|t.natives| == 1 ==> Entered(cat, t.natives[0], t.packet))
    && (|t.natives| > 1 ==> CodesEnds(cat, t.natives, t.packet))
  }

  ghost predicate GenuinePool(cat: Catalogue, pool: map<PacketId, Bytes>) {
    forall pid | pid in pool :: Entered(cat, pid, pool[pid])
  }

  /** The natives between the first and the last cancel out, and there are at most 255 in all. */
  ghost predicate Clean(cat: Catalogue, t: Transmission) {
    |t.natives| <= 1 || (|t.natives| <= 255 && CancelOut(cat, Between(t.natives)))
  }

  /** Frames of two natives are clean, whatever the packets are. */
  lemma PairIsClean(cat: Catalogue, t: Transmission)
    requires |t.natives| <= 2
    ensures Clean(cat, t)
  {
    assert Originals(cat, []) == [];
  }

  lemma PlainGain(w: World, hash: Hash, cat: Catalogue, p: Pools, j: nat, pool: map<PacketId, Bytes>, t: Transmission,
                  listed: seq<PacketId>)
    requires Backed(w, hash, p, t) && Genuine(cat, t) && |t.natives| == 1 && Gained(w, hash, j, pool, t, listed).Got?
    ensures var g := Gained(w, hash, j, pool, t, listed); g.pid in t.natives && Entered(cat, g.pid, g.packet)
  {
    hide ReceiversHoldOthers, Sender;
    GainIsNative(w, hash, p, j, pool, t, listed);
  }

  /** What is decoded without trouble from a clean frame is the one native missing. */
  lemma CleanDecode(hash: Hash, cat: Catalogue, pool: map<PacketId, Bytes>, t: Transmission, listed: seq<PacketId>)
    requires GoodCatalogue(hash, cat) && Genuine(cat, t) && Clean(cat, t) && |t.natives| > 1 && GenuinePool(cat, pool)
    requires multiset(listed) == multiset(t.natives)
    requires var r := Decode(listed, pool, t.packet); !r.RunsOff? && r.code >= 0
    ensures var r := Decode(listed, pool, t.packet);
            r.code in t.natives && hash(Renewed(r.packet)) == r.code && Entered(cat, r.code, Renewed(r.packet))
  {
    hide Decode, CancelOut, CodesEnds;
    assert |listed| == |multiset(listed)| == |t.natives|;
    DecodeVerdict(listed, pool, t.packet);
    var m := OneIsMissing(listed, pool, 0);
    ListedInCatalogue(cat, t, listed);
    DecodesCopyIff(hash, cat, pool, t.natives, listed, m, t.packet);
    var r := Decode(listed, pool, t.packet).packet;
    RenewedIsCopy(r);
    CopyOfCopy(Renewed(r), r, cat[listed[m]]);
    assert listed[m] in multiset(listed);
  }

  lemma ListedInCatalogue(cat: Catalogue, t: Transmission, listed: seq<PacketId>)
    requires CodesEnds(cat, t.natives, t.packet) && multiset(listed) == multiset(t.natives)
    ensures forall k | 0 <= k < |listed| :: listed[k] in cat
  {
    forall k | 0 <= k < |listed|
      ensures listed[k] in cat
    {
      assert listed[k] in multiset(listed);
    }
  }

  lemma CleanGain(w: World, hash: Hash, cat: Catalogue, p: Pools, j: nat, pool: map<PacketId, Bytes>, t: Transmission,
                  listed: seq<PacketId>)
    requires GoodCatalogue(hash, cat) && Backed(w, hash, p, t) && Genuine(cat, t) && Clean(cat, t)
    requires GenuinePool(cat, pool)
    requires multiset(listed) == multiset(t.natives) && Gained(w, hash, j, pool, t, listed).Got?
    ensures var g := Gained(w, hash, j, pool, t, listed); g.pid in t.natives && Entered(cat, g.pid, g.packet)
  {
    hide GoodCatalogue, Genuine, Clean, GenuinePool, Decode, Backed, Entered, OwnPid, NextHere;
    SomeNative(w, hash, p, t);
    if |t.natives| == 1 {
      PlainGain(w, hash, cat, p, j, pool, t, listed);
    } else {
      CleanDecode(hash, cat, pool, t, listed);
    }
  }

  // ---------- The network ----------

  ghost function Cataloguing(cat: Catalogue): Property {
    (e: Entry) => !e.hello ==> Entered(cat, e.pid, e.packet)
  }

  ghost predicate GenuineNode(cat: Catalogue, node: Node) {
    EveryQueued(Cataloguing(cat), node.st) && GenuinePool(cat, node.pool)
  }

  ghost predicate GenuineNet(cat: Catalogue, net: Net) {
    && (forall j | 0 <= j < |net.nodes| :: GenuineNode(cat, net.nodes[j]))
    && (forall t | t in net.air :: Genuine(cat, t))
  }

  /** A packet from above is a copy of one in the catalogue. */
  ghost predicate FromCatalogue(cat: Catalogue, move: Move) {
    move.Accept? && !move.entry.hello ==> Entered(cat, move.entry.pid, move.entry.packet)
  }

  lemma NodeStaysGenuine(cat: Catalogue, net: Net, j: nat, node: Node)
    requires GenuineNet(cat, net) && j < |net.nodes| && GenuineNode(cat, node)
    ensures GenuineNet(cat, net.(nodes := net.nodes[j := node]))
  {
    hide GenuineNode, Genuine;
  }

  lemma AcceptStaysGenuine(y: Layout, hash: Hash, cat: Catalogue, net: Net, j: nat, e: Entry)
    requires GenuineNet(cat, net) && ValidMove(y, hash, net, Accept(j, e)) && After(y, hash, net, Accept(j, e)).Some?
    requires FromCatalogue(cat, Accept(j, e))
    ensures GenuineNet(cat, After(y, hash, net, Accept(j, e)).value)
  {
    hide Every, Linked, Added, SearchMac, Entered, Genuine;
    var node := net.nodes[j];
    EnqueuedEvery(Cataloguing(cat), node.st.queue, e);
    NodeStaysGenuine(cat, net, j, Accepted(node, e).value);
  }

  lemma RetryStaysGenuine(y: Layout, hash: Hash, cat: Catalogue, net: Net, j: nat)
    requires GenuineNet(cat, net) && ValidMove(y, hash, net, Retry(j)) && After(y, hash, net, Retry(j)).Some?
    ensures GenuineNet(cat, After(y, hash, net, Retry(j)).value)
  {
    hide Every, Entered, Genuine, Retransmitted;
    var node := net.nodes[j];
    RetransmittedEvery(Cataloguing(cat), node.st);
    NodeStaysGenuine(cat, net, j, node.(st := Retransmitted(node.st).value));
  }

  lemma GreetStaysGenuine(y: Layout, hash: Hash, cat: Catalogue, net: Net, j: nat, pairs: seq<AddressPair>)
    requires GenuineNet(cat, net) && ValidMove(y, hash, net, Greet(j, pairs))
    requires After(y, hash, net, Greet(j, pairs)).Some?
    ensures GenuineNet(cat, After(y, hash, net, Greet(j, pairs)).value)
  {
    hide Every, Entered, Genuine, LearnedTable, Complete;
    var node := net.nodes[j];
    NodeStaysGenuine(cat, net, j, node.(st := Learned(node.st, pairs).value));
  }

  /** The frame a node sends is made of the copies it queued. */
  lemma SentIsGenuine(w: World, cat: Catalogue, st: Protocol, active: seq<nat>)
    requires Inv(w, st) && EveryQueued(Cataloguing(cat), st) && st.queue.order != []
    requires Sent(st, active).Done? && Sent(st, active).value.frame.Some?
    ensures var f := Sent(st, active).value.frame.value;
            && (|f.pids| == 1 ==> Entered(cat, f.pids[0], f.packet))
            && (|f.pids| > 1 ==> CodesEnds(cat, f.pids, f.packet))
  {
    hide Inv, Sent, Decodable, Entered, Xor;
    SentFrameIsSound(w, st, active);
    SentKnown(st, active);
    var f := Sent(st, active).value.frame.value;
    var front := st.queue.cells[st.queue.order[0]];
    EveryCell(Cataloguing(cat), st.queue, st.queue.order[0]);
    if |f.pids| > 1 {
      NativesEntered(cat, st, active, front, Sent(st, active).value);
      var p :| p in st.queue.cells && st.queue.cells[p].Unicast() && st.queue.cells[p].pid == f.pids[|f.pids| - 1]
               && f.packet == Xor(front.packet, st.queue.cells[p].packet);
      EveryCell(Cataloguing(cat), st.queue, p);
      EnteredIs(cat, front.pid, front.packet);
      EnteredIs(cat, st.queue.cells[p].pid, st.queue.cells[p].packet);
    }
  }

  lemma EnteredIs(cat: Catalogue, pid: PacketId, packet: Bytes)
    requires Entered(cat, pid, packet)
    ensures pid in cat && Copy(packet, cat[pid])
  {
  }

  lemma NativesEntered(cat: Catalogue, st: Protocol, active: seq<nat>, front: Entry, s: Sending)
    requires s.frame.Some? && SoundFrame(st, active, front, s) && |s.frame.value.pids| > 1
    requires EveryQueued(Cataloguing(cat), st)
    ensures forall pid | pid in s.frame.value.pids :: pid in cat
  {
    hide Decodable, Kept, IsCoded, ListsNatives, IsFront;
    forall pid | pid in s.frame.value.pids
      ensures pid in cat
    {
      var p :| p in st.queue.cells && st.queue.cells[p].Unicast() && st.queue.cells[p].pid == pid;
      EveryCell(Cataloguing(cat), st.queue, p);
    }
  }

  lemma TransmitStaysGenuine(y: Layout, hash: Hash, cat: Catalogue, net: Net, j: nat, active: seq<nat>,
                             mac: Mac48Address)
    requires NetInv(y, hash, net) && GenuineNet(cat, net) && ValidMove(y, hash, net, Transmit(j, active, mac))
    requires After(y, hash, net, Transmit(j, active, mac)).Some?
    ensures GenuineNet(cat, After(y, hash, net, Transmit(j, active, mac)).value)
  {
    hide Inv, Every, Sent, Truthful, Backed, GoodLayout, PoolsOf, Along, Behind, AcksAlong, AcksBehind, CodesEnds;
    hide Entered;
    var node := net.nodes[j];
    var (node', t) := Transmitted(y, j, node, active, mac).value;
    if active != [] && node.st.queue.order != [] {
      SentEvery(Cataloguing(cat), node.st, active);
      if t.Some? {
        SentIsGenuine(y.world, cat, node.st, active);
      }
    }
    NodeStaysGenuine(cat, net, j, node');
    assert net.air + [] == net.air;
  }

  /** A clean frame from the air gives a node a native, and leaves pools genuine. */
  lemma DeliverKeeps(y: Layout, hash: Hash, cat: Catalogue, net: Net, move: Move)
    requires NetInv(y, hash, net) && GenuineNet(cat, net) && GoodCatalogue(hash, cat) && move.Deliver?
    requires ValidMove(y, hash, net, move) && After(y, hash, net, move).Some?
    requires forall t | t in net.air :: Clean(cat, t)
    ensures NetInv(y, hash, After(y, hash, net, move).value) && GenuineNet(cat, After(y, hash, net, move).value)
  {
    hide GoodCatalogue, Clean, Genuine, Backed, Gained, GenuineNode, GoodNode, Truthful, Received, Dropped;
    var j, t, node := move.j, net.air[move.k], net.nodes[move.j];
    assert t in net.air;
    var g := Gained(y.world, hash, j, node.pool, t, move.listed);
    PoolIsGenuine(cat, node);
    if g.Got? {
      CleanGain(y.world, hash, cat, PoolsOf(net), j, node.pool, t, move.listed);
      NativeIsHeld(y.world, hash, PoolsOf(net), t, g.pid);
    }
    DeliverKeepsIff(y, hash, net, j, move.k, move.mac, move.listed);
    ReceivedIsGenuine(y, hash, cat, j, node, t, move.mac, move.listed);
    NodeStaysGenuine(cat, net, j, Received(y, hash, j, node, t, move.mac, move.listed).value);
  }

  lemma PoolIsGenuine(cat: Catalogue, node: Node)
    requires GenuineNode(cat, node)
    ensures GenuinePool(cat, node.pool)
  {
  }

  lemma ReceivedIsGenuine(y: Layout, hash: Hash, cat: Catalogue, j: nat, node: Node, t: Transmission, mac: Mac48Address,
                          listed: seq<PacketId>)
    requires GenuineNode(cat, node) && Received(y, hash, j, node, t, mac, listed).Some?
    requires var g := Gained(y.world, hash, j, node.pool, t, listed); g.Got? ==> Entered(cat, g.pid, g.packet)
    ensures GenuineNode(cat, Received(y, hash, j, node, t, mac, listed).value)
  {
    hide Every, Gained, Dropped, Recognized, Addressed, Told, Entered, Acknowledged, Recorded;
    AcknowledgedEvery(Cataloguing(cat), node.st.rtqueue, Addressed(t.acks, y.home(j)));
  }

  /** Every move keeps all that is on record true and all packets genuine, as long as the frames on the
      air are clean. */
  lemma MoveKeeps(y: Layout, hash: Hash, cat: Catalogue, net: Net, move: Move)
    requires NetInv(y, hash, net) && GenuineNet(cat, net) && GoodCatalogue(hash, cat) && FromCatalogue(cat, move)
    requires ValidMove(y, hash, net, move) && After(y, hash, net, move).Some?
    requires forall t | t in net.air :: Clean(cat, t)
    ensures NetInv(y, hash, After(y, hash, net, move).value) && GenuineNet(cat, After(y, hash, net, move).value)
  {
    hide NetInv, GenuineNet, GoodCatalogue, ValidMove, After, Clean;
    if move.Deliver? {
      DeliverKeeps(y, hash, cat, net, move);
    } else {
      OwnMoveKeeps(y, hash, net, move);
      match move {
        case Accept(j, e) => AcceptStaysGenuine(y, hash, cat, net, j, e);
        case Transmit(j, active, mac) => TransmitStaysGenuine(y, hash, cat, net, j, active, mac);
        case Retry(j) => RetryStaysGenuine(y, hash, cat, net, j);
        case Greet(j, pairs) => GreetStaysGenuine(y, hash, cat, net, j, pairs);
      }
    }
  }

  lemma {:induction false} RunKeeps(y: Layout, hash: Hash, cat: Catalogue, net: Net, moves: seq<Move>)
    requires NetInv(y, hash, net) && GenuineNet(cat, net) && GoodCatalogue(hash, cat)
    requires ValidMoves(y, hash, net, moves) && Ran(y, hash, net, moves).Some?
    requires forall move | move in moves :: FromCatalogue(cat, move)
    requires forall t | t in Ran(y, hash, net, moves).value.air :: Clean(cat, t)
    ensures var net' := Ran(y, hash, net, moves).value; NetInv(y, hash, net') && GenuineNet(cat, net')
    decreases |moves|
  {
    hide NetInv, GenuineNet, GoodCatalogue, ValidMove, After, Clean, FromCatalogue;
    if moves == [] {
    } else {
      var net1 := After(y, hash, net, moves[0]).value;
      AirGrowsInRuns(y, hash, net, moves);
      assert forall t | t in net.air :: t in Ran(y, hash, net, moves).value.air;
      MoveKeeps(y, hash, cat, net, moves[0]);
      RunKeeps(y, hash, cat, net1, moves[1..]);
    }
  }

  /** In every state a network gets into from fresh nodes, with packets of a catalogue, if all coded frames
      it has sent are clean, as those of two natives always are: what any node has on record of any address
      is true of the pool of its owner, and of every coded frame each receiver holds all natives but its
      own. */
  lemma RecordsAreTrue(y: Layout, hash: Hash, cat: Catalogue, devices: seq<seq<nat>>, moves: seq<Move>)
    requires GoodLayout(y, |devices|) && GoodCatalogue(hash, cat)
    requires ValidMoves(y, hash, Fresh(devices), moves) && Ran(y, hash, Fresh(devices), moves).Some?
    requires forall move | move in moves :: FromCatalogue(cat, move)
    requires forall t | t in Ran(y, hash, Fresh(devices), moves).value.air :: Clean(cat, t)
    ensures var net := Ran(y, hash, Fresh(devices), moves).value;
            && (forall j, pid, m | 0 <= j < |net.nodes| && GetItem(net.nodes[j].st.known, pid, m) ::
                  y.world.owner(m) < |net.nodes| && pid in net.nodes[y.world.owner(m)].pool)
            && (forall t, m, pid | t in net.air && |t.natives| > 1 && m in t.header && pid in t.natives
                 && pid != t.header[m] ::
                  y.world.owner(m) < |net.nodes| && pid in net.nodes[y.world.owner(m)].pool)
  {
    hide ValidMoves, Ran, GetItem, GoodLayout, GoodNode, GoodWorld, GoodCatalogue, Clean, FromCatalogue;
    FreshIsGood(y, hash, devices);
    RunKeeps(y, hash, cat, Fresh(devices), moves);
    var net := Ran(y, hash, Fresh(devices), moves).value;
    forall j, pid, m | 0 <= j < |net.nodes| && GetItem(net.nodes[j].st.known, pid, m)
      ensures y.world.owner(m) < |net.nodes| && pid in net.nodes[y.world.owner(m)].pool
    {
      assert Truthful(y.world, PoolsOf(net), net.nodes[j].st.known);
      assert HoldsAt(y.world, PoolsOf(net), m, pid);
    }
    forall t, m, pid | t in net.air && |t.natives| > 1 && m in t.header && pid in t.natives && pid != t.header[m]
      ensures y.world.owner(m) < |net.nodes| && pid in net.nodes[y.world.owner(m)].pool
    {
      assert Backed(y.world, hash, PoolsOf(net), t);
      assert HoldsAt(y.world, PoolsOf(net), m, pid);
    }
  }

  // ---------- Nodes with two neighbours ----------

  /** No node knows more than two neighbours. */
  ghost predicate FewNeighbors(net: Net) {
    forall j | 0 <= j < |net.nodes| :: |net.nodes[j].st.neighbors| <= 2
  }

  ghost predicate FewThroughout(y: Layout, hash: Hash, net: Net, moves: seq<Move>)
    requires ValidMoves(y, hash, net, moves)
    decreases |moves|
  {
    && FewNeighbors(net)
    && (moves != [] ==>
          var o := After(y, hash, net, moves[0]);
          o.Some? ==> FewThroughout(y, hash, o.value, moves[1..]))
  }

  ghost predicate ShortFrames(air: seq<Transmission>) {
    forall t | t in air :: |t.natives| <= 2
  }

  /** A frame has no more natives than its sender has neighbours. */
  lemma FrameFitsTable(w: World, st: Protocol, active: seq<nat>)
    requires Inv(w, st) && st.queue.order != [] && Sent(st, active).Done? && Sent(st, active).value.frame.Some?
    ensures var s := Sent(st, active).value; |s.frame.value.pids| <= 1 || |s.frame.value.pids| <= |s.st.neighbors|
  {
    hide Inv, Sent, Decodable, KeepsNatives, IsCoded;
    SentFrameIsSound(w, st, active);
  }

  lemma FewStaysShort(y: Layout, hash: Hash, net: Net, move: Move)
    requires NetInv(y, hash, net) && ValidMove(y, hash, net, move) && After(y, hash, net, move).Some?
    requires ShortFrames(net.air) && FewNeighbors(After(y, hash, net, move).value)
    ensures ShortFrames(After(y, hash, net, move).value.air)
  {
    hide Accepted, Received, Retransmitted, Learned, ValidStep, Sent, Inv, Truthful, Backed, GoodLayout, EveryQueued;
    if move.Transmit? {
      var node := net.nodes[move.j];
      var (node', t) := Transmitted(y, move.j, node, move.active, move.mac).value;
      assert After(y, hash, net, move).value.nodes[move.j] == node';
      if t.Some? {
        FrameFitsTable(y.world, node.st, move.active);
      }
    }
  }

  lemma {:induction false} FewMeansShort(y: Layout, hash: Hash, cat: Catalogue, net: Net, moves: seq<Move>)
    requires NetInv(y, hash, net) && GenuineNet(cat, net) && GoodCatalogue(hash, cat) && ShortFrames(net.air)
    requires ValidMoves(y, hash, net, moves) && Ran(y, hash, net, moves).Some? && FewThroughout(y, hash, net, moves)
    requires forall move | move in moves :: FromCatalogue(cat, move)
    ensures ShortFrames(Ran(y, hash, net, moves).value.air)
    decreases |moves|
  {
    hide NetInv, GenuineNet, GoodCatalogue, ValidMove, After, FewNeighbors, FromCatalogue, ShortFrames;
    if moves == [] {
    } else {
      ShortIsClean(cat, net.air);
      MoveKeeps(y, hash, cat, net, moves[0]);
      FewAtFirst(y, hash, After(y, hash, net, moves[0]).value, moves[1..]);
      FewStaysShort(y, hash, net, moves[0]);
      FewMeansShort(y, hash, cat, After(y, hash, net, moves[0]).value, moves[1..]);
    }
  }

  lemma FewAtFirst(y: Layout, hash: Hash, net: Net, moves: seq<Move>)
    requires ValidMoves(y, hash, net, moves) && FewThroughout(y, hash, net, moves)
    ensures FewNeighbors(net)
  {
  }

  lemma ShortIsClean(cat: Catalogue, air: seq<Transmission>)
    requires ShortFrames(air)
    ensures forall t | t in air :: Clean(cat, t)
  {
    hide Clean;
    forall t | t in air
      ensures Clean(cat, t)
    {
      PairIsClean(cat, t);
    }
  }

  /** So with nodes of at most two neighbours all records are true, whatever packets are coded. */
  lemma TwoNeighborsSuffice(y: Layout, hash: Hash, cat: Catalogue, devices: seq<seq<nat>>, moves: seq<Move>)
    requires GoodLayout(y, |devices|) && GoodCatalogue(hash, cat)
    requires ValidMoves(y, hash, Fresh(devices), moves) && Ran(y, hash, Fresh(devices), moves).Some?
    requires forall move | move in moves :: FromCatalogue(cat, move)
    requires FewThroughout(y, hash, Fresh(devices), moves)
    ensures var net := Ran(y, hash, Fresh(devices), moves).value;
            forall j, pid, m | 0 <= j < |net.nodes| && GetItem(net.nodes[j].st.known, pid, m) ::
              y.world.owner(m) < |net.nodes| && pid in net.nodes[y.world.owner(m)].pool
  {
    hide ValidMoves, Ran, GetItem, GoodLayout, GoodNode, GoodWorld, GoodCatalogue, Clean, FromCatalogue, FewThroughout;
    FreshIsGood(y, hash, devices);
    FewMeansShort(y, hash, cat, Fresh(devices), moves);
    ShortIsClean(cat, Ran(y, hash, Fresh(devices), moves).value.air);
    RecordsAreTrue(y, hash, cat, devices, moves);
  }

  // ---------- Frames that are not clean ----------

  /** Only copies of a packet have its id. */
  ghost predicate Distinguishes(hash: Hash, cat: Catalogue) {
    forall b: Bytes | hash(b) in cat :: Copy(b, cat[hash(b)])
  }

  /** The packet p is, up to the time to live, what the given ones XOR to. */
  ghost predicate SumsTo(cat: Catalogue, pids: seq<PacketId>, m: PacketId, p: PacketId)
    requires m in cat && p in cat
  {
    forall i: nat | i != TTL :: Add(SumAt(Originals(cat, pids), i), ByteAt(cat[m], i)) == ByteAt(cat[p], i)
  }

  /** What is decoded has the id of a packet if and only if the native missing and those between the first
      and the last XOR to that packet. */
  lemma DecodedIdIff(hash: Hash, cat: Catalogue, pool: map<PacketId, Bytes>, natives: seq<PacketId>,
                     listed: seq<PacketId>,
                     m: nat, frame: Bytes, p: PacketId)
    requires GoodCatalogue(hash, cat) && Distinguishes(hash, cat) && CodesEnds(cat, natives, frame) && p in cat
    requires multiset(listed) == multiset(natives) && Lacks(cat, pool, listed, m)
    requires !Decode(listed, pool, frame).RunsOff?
    ensures listed[m] in cat
    ensures hash(Renewed(Decode(listed, pool, frame).packet)) == p <==> SumsTo(cat, Between(natives), listed[m], p)
  {
    hide Decode, Originals, Between, SumAt, CodesEnds, Lacks;
    LacksListed(cat, pool, listed, m);
    var r := Decode(listed, pool, frame).packet;
    forall i: nat | i != TTL
      ensures ByteAt(r, i) == Add(SumAt(Originals(cat, Between(natives)), i), ByteAt(cat[listed[m]], i))
    {
      DecodedOctet(cat, pool, natives, listed, m, frame, i);
    }
    RenewedIsCopy(r);
    if SumsTo(cat, Between(natives), listed[m], p) {
      FrameIsCanonical(cat, natives, frame);
      DecodeCanonical(listed, pool, frame);
      ReachesBeyond(hash, cat, p);
      AlikeIsCopy(r, cat[p]);
      CopyOfCopy(Renewed(r), r, cat[p]);
    } else if hash(Renewed(r)) == p {
      CopyOfCopy(r, Renewed(r), cat[p]);
      CopyIsAlike(r, cat[p]);
    }
  }

  lemma CancelSums(cat: Catalogue, pids: seq<PacketId>, m: PacketId)
    requires m in cat
    ensures SumsTo(cat, pids, m, m) <==> CancelOut(cat, pids)
  {
    hide Originals, SumAt;
    forall i: nat
      ensures Add(SumAt(Originals(cat, pids), i), ByteAt(cat[m], i)) == ByteAt(cat[m], i) <==>
                SumAt(Originals(cat, pids), i) == 0
    {
      AddGroup(SumAt(Originals(cat, pids), i), ByteAt(cat[m], i), ByteAt(cat[m], i));
    }
  }

  /** A bystander that lacks one native of a coded frame.  If it does not stop, it takes that native from
      the frame if and only if the natives between the first and the last cancel out; and what it has on
      record stays true if and only if the sender holds the packet that the missing native and those in
      between XOR to. */
  lemma BystanderKeepsIff(y: Layout, hash: Hash, cat: Catalogue, net: Net, j: nat, k: nat, mac: Mac48Address,
                          listed: seq<PacketId>, m: nat)
    requires NetInv(y, hash, net) && GenuineNet(cat, net) && GoodCatalogue(hash, cat) && Distinguishes(hash, cat)
    requires ValidMove(y, hash, net, Deliver(j, k, mac, listed))
    requires After(y, hash, net, Deliver(j, k, mac, listed)).Some?
    requires |net.air[k].natives| > 1 && y.world.owner(net.air[k].sender.mac) != j
    requires !NextHere(y.world, j, net.air[k].header)
    requires m < |listed| && listed[m] !in net.nodes[j].pool
    requires forall i | 0 <= i < |listed| && i != m :: listed[i] in net.nodes[j].pool
    ensures y.world.owner(net.air[k].sender.mac) < |net.nodes|
    ensures var t := net.air[k];
            var held := net.nodes[y.world.owner(t.sender.mac)].pool;
            var g := Gained(y.world, hash, j, net.nodes[j].pool, t, listed);
            && listed[m] in cat && (forall p | p in held :: p in cat) && g.Got?
            && (g.pid == listed[m] <==> CancelOut(cat, Between(t.natives)))
            && (NetInv(y, hash, After(y, hash, net, Deliver(j, k, mac, listed)).value) <==>
                exists p :: p in held && SumsTo(cat, Between(t.natives), listed[m], p))
  {
    hide GoodNode, Truthful, GoodLayout, Decode, SumsTo, CancelOut, Backed, CodesEnds, Originals, Between;
    hide FrameReceived;
    hide GoodCatalogue, Distinguishes, ReceiversHoldOthers, NextHere, OwnPid, Entered;
    var t, node := net.air[k], net.nodes[j];
    OnAir(y, hash, net, Deliver(j, k, mac, listed));
    assert t in net.air;
    NoBroadcastCoded(y.world, hash, PoolsOf(net), t);
    BackedSender(y.world, hash, PoolsOf(net), t);
    var held := net.nodes[y.world.owner(t.sender.mac)].pool;
    ListedInCatalogue(cat, t, listed);
    PoolInCatalogue(cat, held);
    PoolInCatalogue(cat, node.pool);
    assert Lacks(cat, node.pool, listed, m);
    var r := Decode(listed, node.pool, t.packet);
    DecodesCopyIff(hash, cat, node.pool, t.natives, listed, m, t.packet);
    CancelSums(cat, Between(t.natives), listed[m]);
    DecodedIdIff(hash, cat, node.pool, t.natives, listed, m, t.packet, listed[m]);
    forall p | p in held
      ensures hash(Renewed(r.packet)) == p <==> SumsTo(cat, Between(t.natives), listed[m], p)
    {
      DecodedIdIff(hash, cat, node.pool, t.natives, listed, m, t.packet, p);
    }
    DeliverKeepsIff(y, hash, net, j, k, mac, listed);
  }

  lemma NoBroadcastCoded(w: World, hash: Hash, p: Pools, t: Transmission)
    requires Backed(w, hash, p, t) && |t.natives| > 1
    ensures BROADCAST !in t.header
  {
    hide ReceiversHoldOthers;
  }

  lemma PoolInCatalogue(cat: Catalogue, pool: map<PacketId, Bytes>)
    requires GenuinePool(cat, pool)
    ensures forall p | p in pool :: p in cat && Entered(cat, p, pool[p])
  {
  }

  // ---------- A frame of two natives, octet by octet ----------

  lemma PairDecode(listed: seq<PacketId>, pool: map<PacketId, Bytes>, m: nat, frame: Bytes)
    requires |listed| == 2 && m < 2 && listed[m] !in pool && listed[1 - m] in pool
    ensures Decode(listed, pool, frame) ==
            if Same(pool[listed[1 - m]], frame) then RunsOff else Decoded(listed[m], Xor(pool[listed[1 - m]], frame))
  {
    hide Same, Xor, DecodedFrom;
    if m == 0 {
      MissingTurn(listed, pool, frame, 0, 0, 0);
      FoundTurn(listed, pool, frame, 1, 1, listed[0], 0);
      LastTurn(listed, pool, Xor(pool[listed[1]], frame), FoundBefore(2, 0), listed[0]);
    } else {
      FoundTurn(listed, pool, frame, 0, 0, 0, 1);
      MissingTurn(listed, pool, Xor(pool[listed[0]], frame), 1, FoundBefore(1, 1), 0);
      LastTurn(listed, pool, Xor(pool[listed[0]], frame), FoundBefore(1, 1), listed[1]);
    }
  }

  /** What is left of the XOR of two packets once a copy of one is taken out. */
  lemma OtherTakenOut(own: Bytes, other: Bytes, copy: Bytes, frame: Bytes)
    requires frame == Xor(own, other) && Alike(copy, other)
    ensures Alike(Xor(copy, frame), own)
    ensures copy == other ==> Same(Xor(copy, frame), own) && (Same(copy, frame) <==> Same(own, []))
    ensures Same(copy, frame) ==> forall i: nat | i != TTL :: ByteAt(own, i) == 0
  {
    hide Xor;
    forall i: nat
      ensures ByteAt(Xor(copy, frame), i) == Add(ByteAt(copy, i), Add(ByteAt(own, i), ByteAt(other, i)))
      ensures ByteAt(copy, i) == ByteAt(other, i) ==> ByteAt(Xor(copy, frame), i) == ByteAt(own, i)
      ensures ByteAt(copy, i) == ByteAt(other, i) ==> (ByteAt(copy, i) == ByteAt(frame, i) <==> ByteAt(own, i) == 0)
    {
      XorBytes(own, other, i);
      XorBytes(copy, frame, i);
      ThreeOctets(ByteAt(own, i), ByteAt(other, i));
    }
  }

  lemma ThreeOctets(x: bv8, y: bv8)
    ensures Add(y, Add(x, y)) == x && (y == Add(x, y) <==> x == 0)
  {
  }

  /** What a node takes out of a frame that codes its packet with one it holds: its packet without trailing
      zeros and with a renewed time to live, if that still has the id; a bystander takes it under whatever
      id it then has.  A packet of zeros cannot be decoded. */
  ghost function OwnGain(w: World, hash: Hash, j: nat, t: Transmission, pid: PacketId, packet: Bytes): Gain {
    var own := Renewed(Stripped(packet));
    if Same(packet, []) then Wrong
    else if !NextHere(w, j, t.header) then Got(hash(own), own, false)
    else if hash(own) == pid then Got(pid, own, true)
    else Wrong
  }

  /** Either the pool holds the other packet as it was sent; or it holds it with another time to live, as
      it does at a relay that queues what it heard with the time to live lowered, and the packet reaches
      beyond the time to live. */
  ghost predicate Recoverable(copy: Bytes, other: Bytes, own: Bytes) {
    copy == other || (Alike(copy, other) && exists i: nat :: i > TTL && ByteAt(own, i) != 0)
  }

  /** A frame of two natives, in either order of the header, received by a node that lacks one of them. */
  lemma PairIsGained(w: World, hash: Hash, j: nat, pool: map<PacketId, Bytes>, t: Transmission, sent: seq<Bytes>,
                     own: nat, first: nat)
    requires |t.natives| == |sent| == 2 && own < 2 && first < 2 && t.packet == Xor(sent[0], sent[1])
    requires t.natives[own] !in pool && t.natives[1 - own] in pool
    requires Recoverable(pool[t.natives[1 - own]], sent[1 - own], sent[own])
    requires BROADCAST !in t.header && (NextHere(w, j, t.header) ==> OwnPid(w, j, t.header) == t.natives[own])
    ensures Gained(w, hash, j, pool, t, [t.natives[first], t.natives[1 - first]])
              == OwnGain(w, hash, j, t, t.natives[own], sent[own])
  {
    hide Decode, Same, Xor, NextHere, OwnPid, Alike, Renewed, Recoverable;
    var listed := [t.natives[first], t.natives[1 - first]];
    var copy := pool[t.natives[1 - own]];
    PairDecode(listed, pool, if own == first then 0 else 1, t.packet);
    XorGroup(sent[0], sent[1], []);
    assert t.packet == Xor(sent[own], sent[1 - own]);
    OwnPacketLeft(sent[own], sent[1 - own], copy, t.packet);
  }

  /** The packet left is the own one, once renewed. */
  lemma OwnPacketLeft(own: Bytes, other: Bytes, copy: Bytes, frame: Bytes)
    requires frame == Xor(own, other) && Recoverable(copy, other, own)
    ensures Same(copy, frame) <==> Same(own, [])
    ensures !Same(own, []) ==> Renewed(Xor(copy, frame)) == Renewed(Stripped(own))
  {
    hide Xor, Stripped, Renewed;
    RecoverableAlike(copy, other, own);
    OtherTakenOut(own, other, copy, frame);
    StrippedSame(own);
    XorIsCanonical(copy, frame);
    StrippedIsCanonical(own);
    if copy == other {
      CanonicalUnique(Xor(copy, frame), Stripped(own));
    } else {
      var i: nat :| i > TTL && ByteAt(own, i) != 0;
      assert ByteAt(Stripped(own), i) == ByteAt(own, i);
      AlikeToSame(Xor(copy, frame), own, Stripped(own));
      AlikeIsCopy(Xor(copy, frame), Stripped(own));
      LongEnough(Stripped(own), i);
      RenewedEqual(Xor(copy, frame), Stripped(own));
    }
  }

  lemma RecoverableAlike(copy: Bytes, other: Bytes, own: Bytes)
    requires Recoverable(copy, other, own)
    ensures Alike(copy, other) && (copy != other ==> exists i: nat :: i > TTL && ByteAt(own, i) != 0)
  {
  }

  lemma AlikeToSame(a: Bytes, b: Bytes, c: Bytes)
    requires Alike(a, b) && Same(c, b)
    ensures Alike(a, c)
  {
    forall i: nat | i != TTL
      ensures ByteAt(a, i) == ByteAt(c, i)
    {
      assert ByteAt(a, i) == ByteAt(b, i) && ByteAt(c, i) == ByteAt(b, i);
    }
  }

  lemma LongEnough(a: Bytes, i: nat)
    requires i > TTL && ByteAt(a, i) != 0
    ensures |a| > TTL
  {
  }

  lemma XorIsCanonical(a: Bytes, b: Bytes)
    ensures Canonical(Xor(a, b))
  {
  }

  lemma StrippedIsCanonical(a: Bytes)
    ensures Canonical(Stripped(a))
  {
  }
}
