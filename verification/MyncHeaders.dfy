/** The headers of the coding layer on the wire. */
module MyncHeaders {
  import opened Addresses
  import opened Metrics
  import opened Options
  import opened XorCoding
  import opened MyncNeighbors
  import opened Octets

  // ---------- MyncHello ----------

  const TRINITY := 12

  type WirePair = p: AddressPair | p.channel < 0x1_0000 witness AddressPair(0, 0, 0)

  function PutTrinity(p: WirePair): Octets {
    Put(p.ip, 4) + (Put(p.mac, 6) + Put(p.channel, 2))
  }

  function GetTrinity(c: Octets): WirePair
    requires |c| == TRINITY
  {
    Powers();
    AddressPair(GetAt(c, 0, 4), GetAt(c, 4, 6), GetAt(c, 10, 2))
  }

  lemma TrinityFaithful()
    ensures Faithful(TRINITY, PutTrinity, GetTrinity)
  {
    Powers();
    forall p: WirePair
      ensures GetTrinity(PutTrinity(p)) == p
    {
      var c := PutTrinity(p);
      AtSplits(c, 0, Put(p.ip, 4), Put(p.mac, 6) + Put(p.channel, 2));
      AtSplits(c, 4, Put(p.mac, 6), Put(p.channel, 2));
      AtPut(c, 0, p.ip, 4);
      AtPut(c, 4, p.mac, 6);
      AtPut(c, 10, p.channel, 2);
    }
  }

  /** The length field is eight bits wide; all pairs are written nevertheless. */
  function HelloSerialized(pairs: seq<WirePair>): Octets {
    Put(|pairs| % 0x100, 1) + PutAll(pairs, PutTrinity)
  }

  function HelloSize(pairs: seq<WirePair>): nat {
    1 + TRINITY * |pairs|
  }

  function HelloDeserialized(b: Octets, pos: nat): Option<seq<WirePair>> {
    if !Available(b, pos, 1) then None
    else
      var n := GetAt(b, pos, 1);
      if !Available(b, pos + 1, n * TRINITY) then None else Some(GetAll(b, pos + 1, n, TRINITY, GetTrinity))
  }

  /** The first n pairs can be read off a written list. */
  lemma PrefixRead(pairs: seq<WirePair>, b: Octets, pos: nat, n: nat)
    requires n <= |pairs| && At(b, pos, PutAll(pairs, PutTrinity))
    ensures Available(b, pos, n * TRINITY) && GetAll(b, pos, n, TRINITY, GetTrinity) == pairs[..n]
    ensures |PutAll(pairs, PutTrinity)| == TRINITY * |pairs|
  {
    hide Put, Get, PutAll, GetAll, Power, PutTrinity, GetTrinity;
    TrinityFaithful();
    PutAllWidth(pairs, TRINITY, PutTrinity, GetTrinity);
    var listed := pairs[..n];
    assert pairs == listed + pairs[n..];
    PutAllSplits(listed, pairs[n..], PutTrinity);
    AtSplits(b, pos, PutAll(listed, PutTrinity), PutAll(pairs[n..], PutTrinity));
    GetAllPut(b, pos, listed, TRINITY, PutTrinity, GetTrinity);
  }

  /** Of a hello the receiver reads as many pairs as the length field says: it gets the hello that was
      written, and consumes exactly the size announced, if and only if there are at most 255 pairs. */
  lemma HelloRoundTripIff(pairs: seq<WirePair>, b: Octets, pos: nat)
    requires At(b, pos, HelloSerialized(pairs))
    ensures |HelloSerialized(pairs)| == HelloSize(pairs)
    ensures HelloDeserialized(b, pos) == Some(pairs[..|pairs| % 0x100])
    ensures HelloDeserialized(b, pos) == Some(pairs) <==> |pairs| <= 255
    ensures HelloSize(pairs[..|pairs| % 0x100]) == HelloSize(pairs) <==> |pairs| <= 255
  {
    hide Put, Get, PutAll, GetAll, Power, PutTrinity, GetTrinity;
    Powers();
    var n := |pairs| % 0x100;
    AtSplits(b, pos, Put(n, 1), PutAll(pairs, PutTrinity));
    AtPut(b, pos, n, 1);
    PrefixRead(pairs, b, pos + 1, n);
    assert pairs[..n] == pairs <==> n == |pairs|;
  }

  lemma TrinityStands(b: Octets, pos: nat, p: WirePair)
    requires At(b, pos, PutTrinity(p))
    ensures Stands(b, pos, p.ip, 4) && Stands(b, pos + 4, p.mac, 6) && Stands(b, pos + 10, p.channel, 2)
  {
    hide Put, Stands;
    AtSplits(b, pos, Put(p.ip, 4), Put(p.mac, 6) + Put(p.channel, 2));
    AtSplits(b, pos + 4, Put(p.mac, 6), Put(p.channel, 2));
    AtStands(b, pos, p.ip, 4);
    AtStands(b, pos + 4, p.mac, 6);
    AtStands(b, pos + 10, p.channel, 2);
  }

  lemma HelloParts(pairs: seq<WirePair>, b: Octets, pos: nat)
    requires At(b, pos, HelloSerialized(pairs))
    ensures At(b, pos, Put(|pairs| % 0x100, 1)) && At(b, pos + 1, PutAll(pairs, PutTrinity))
  {
    hide Put, PutAll, PutTrinity;
    AtSplits(b, pos, Put(|pairs| % 0x100, 1), PutAll(pairs, PutTrinity));
  }

  /** A written hello, octet by octet: the length, and of each pair IP address, MAC address and channel. */
  lemma HelloOnTheWire(pairs: seq<WirePair>, b: Octets, pos: nat, k: nat)
    requires At(b, pos, HelloSerialized(pairs))
    ensures Stands(b, pos, |pairs| % 0x100, 1)
    ensures k < |pairs| ==>
              var at := pos + 1 + k * TRINITY;
              Stands(b, at, pairs[k].ip, 4) && Stands(b, at + 4, pairs[k].mac, 6)
                && Stands(b, at + 10, pairs[k].channel, 2)
  {
    hide Put, PutAll, PutTrinity, GetTrinity, Stands, HelloSerialized, Faithful;
    TrinityFaithful();
    HelloParts(pairs, b, pos);
    AtStands(b, pos, |pairs| % 0x100, 1);
    if k < |pairs| {
      ElementAt(b, pos + 1, pairs, TRINITY, PutTrinity, GetTrinity, k);
      TrinityStands(b, pos + 1 + k * TRINITY, pairs[k]);
    }
  }

  class MyncHello {
    var pairs: seq<WirePair>

    constructor ()
      ensures pairs == []
    {
      pairs := [];
    }

    method Add(p: WirePair)
      modifies this
      ensures pairs == old(pairs) + [p]
    {
      pairs := pairs + [p];
    }

    method Serialize(start: Writer)
      modifies start
      ensures start.bytes == old(start.bytes) + HelloSerialized(pairs)
    {
      start.Write(|pairs| % 0x100, 1);
      start.WriteAll(pairs, PutTrinity);
    }

    method GetSerializedSize() returns (size: nat)
      ensures size == |HelloSerialized(pairs)|
    {
      TrinityFaithful();
      PutAllWidth(pairs, TRINITY, PutTrinity, GetTrinity);
      size := 1 + (4 + 6 + 2) * |pairs|;
    }

    method Deserialize(bufIter: Reader) returns (dist: Option<nat>)
      requires bufIter.position <= |bufIter.bytes|
      modifies this, bufIter
      ensures match HelloDeserialized(bufIter.bytes, old(bufIter.position))
              case None => dist == None
              case Some(ps) =>
                && pairs == ps && dist == Some(HelloSize(ps))
                && bufIter.position == old(bufIter.position) + HelloSize(ps)
    {
      hide GetAll, Get, Power;
      var pos := bufIter.position;
      var length := bufIter.Read(1);
      if length == None {
        return None;
      }
      var list := bufIter.ReadAll(length.value, TRINITY, GetTrinity);
      if list == None {
        return None;
      }
      pairs := list.value;
      return Some(bufIter.position - pos);
    }
  }

  // ---------- MyncHeader: nexthops ----------

  /** How reading a header ends: at the end of the buffer, at the assertion that as many octets were
      taken as the header would be written with, or with their number. */
  datatype Reading = TooShort | SizesDiffer | Taken(dist: nat)

  datatype Nexthop = Nexthop(mac: Mac48Address, pid: PacketId)

  datatype AckBlock = AckBlock(address: Ipv4Address, pid: PacketId)

  /** A map is kept as the list of its entries in the order of their keys. */
  ghost predicate Sorted(ns: seq<Nexthop>) {
    forall i, j | 0 <= i < j < |ns| :: ns[i].mac < ns[j].mac
  }

  predicate Lists(ns: seq<Nexthop>, mac: Mac48Address) {
    exists n | n in ns :: n.mac == mac
  }

  /** How many entries come before a key. */
  function Before(ns: seq<Nexthop>, mac: Mac48Address): (k: nat)
    ensures k <= |ns| && (forall j | 0 <= j < k :: ns[j].mac < mac) && (k < |ns| ==> ns[k].mac >= mac)
  {
    if ns == [] || ns[0].mac >= mac then 0 else 1 + Before(ns[1..], mac)
  }

  /** Insertion does not replace the entry of a key that is present. */
  function WithNexthop(ns: seq<Nexthop>, n: Nexthop): seq<Nexthop> {
    if Lists(ns, n.mac) then ns
    else
      var k := Before(ns, n.mac);
      ns[..k] + [n] + ns[k..]
  }

  function FromList(raw: seq<Nexthop>): seq<Nexthop> {
    if raw == [] then [] else WithNexthop(FromList(raw[..|raw| - 1]), raw[|raw| - 1])
  }

  lemma WithNexthopSorted(ns: seq<Nexthop>, n: Nexthop)
    requires Sorted(ns)
    ensures Sorted(WithNexthop(ns, n))
    ensures forall x :: x in WithNexthop(ns, n) <==> x in ns || (x == n && !Lists(ns, n.mac))
  {
    if !Lists(ns, n.mac) {
      var k := Before(ns, n.mac);
      AfterIsLarger(ns, n);
      hide Sorted, Lists;
      BetweenSorted(ns[..k], n, ns[k..]);
      assert ns == ns[..k] + ns[k..];
    }
  }

  lemma AfterIsLarger(ns: seq<Nexthop>, n: Nexthop)
    requires Sorted(ns) && !Lists(ns, n.mac)
    ensures var k := Before(ns, n.mac);
            && Sorted(ns[..k]) && Sorted(ns[k..])
            && (forall j | 0 <= j < k :: ns[..k][j].mac < n.mac)
                 && (forall j | 0 <= j < |ns[k..]| :: n.mac < ns[k..][j].mac)
  {
    var k := Before(ns, n.mac);
    forall j | k <= j < |ns|
      ensures n.mac < ns[j].mac
    {
      assert ns[j] in ns && ns[k].mac <= ns[j].mac;
    }
  }

  lemma BetweenSorted(a: seq<Nexthop>, n: Nexthop, b: seq<Nexthop>)
    requires Sorted(a) && Sorted(b)
    requires (forall j | 0 <= j < |a| :: a[j].mac < n.mac) && (forall j | 0 <= j < |b| :: n.mac < b[j].mac)
    ensures Sorted(a + [n] + b)
  {
    forall i, j | 0 <= i < j < |a + [n] + b|
      ensures (a + [n] + b)[i].mac < (a + [n] + b)[j].mac
    {
      assert i < |a| ==> (a + [n] + b)[i] == a[i];
      assert j > |a| ==> (a + [n] + b)[j] == b[j - |a| - 1];
      assert i > |a| ==> (a + [n] + b)[i] == b[i - |a| - 1];
    }
  }

  lemma AppendsLast(front: seq<Nexthop>, last: Nexthop)
    requires forall n | n in front :: n.mac < last.mac
    ensures WithNexthop(front, last) == front + [last]
  {
    assert forall j | 0 <= j < |front| :: front[j] in front;
  }

  /** Reading a sorted list into a map gives the same list. */
  lemma {:induction false} FromSorted(raw: seq<Nexthop>)
    requires Sorted(raw)
    ensures FromList(raw) == raw
  {
    hide WithNexthop;
    if raw == [] {
    } else {
      var front, last := raw[..|raw| - 1], raw[|raw| - 1];
      FromSorted(front);
      AppendsLast(front, last);
      assert raw == front + [last];
    }
  }

  /** No destination is listed twice. */
  ghost predicate NoRepeats(raw: seq<Nexthop>) {
    forall i, j | 0 <= i < j < |raw| :: raw[i].mac != raw[j].mac
  }

  lemma RepeatsIff(front: seq<Nexthop>, last: Nexthop)
    ensures NoRepeats(front + [last]) <==> NoRepeats(front) && !Lists(front, last.mac)
    ensures forall m :: Lists(front + [last], m) <==> Lists(front, m) || m == last.mac
  {
    var raw := front + [last];
    assert raw[|front|] == last && forall i | 0 <= i < |front| :: raw[i] == front[i];
    if NoRepeats(raw) {
      assert forall i, j | 0 <= i < j < |front| :: raw[i].mac != raw[j].mac;
    }
    assert forall n :: n in raw <==> n in front || n == last;
  }

  /** Reading into a map loses entries exactly if a destination is listed twice. */
  lemma {:induction false} FromListIff(raw: seq<Nexthop>)
    ensures Sorted(FromList(raw)) && forall m :: Lists(FromList(raw), m) <==> Lists(raw, m)
    ensures |FromList(raw)| <= |raw| && (|FromList(raw)| == |raw| <==> NoRepeats(raw))
  {
    if raw == [] {
    } else {
      var front, last := raw[..|raw| - 1], raw[|raw| - 1];
      FromListIff(front);
      assert raw == front + [last];
      RepeatsIff(front, last);
      WithNexthopSorted(FromList(front), last);
    }
  }

  // ---------- MyncHeader on the wire ----------

  datatype Fields = Fields(
    ip: Ipv4Address,
    originalTime: NFMetric,
    lastTime: NFMetric,
    encodedNum: UInt16,
    nexthops: seq<Nexthop>,
    reportNum: UInt16,
    recps: seq<PacketId>,
    ackNum: UInt16,
    acks: seq<AckBlock>)

  const NEXTHOP := 10

  const RECP := 4

  const ACK := 8

  function PutNexthop(n: Nexthop): Octets {
    Put(n.mac, 6) + Put(n.pid, 4)
  }

  function GetNexthop(c: Octets): Nexthop
    requires |c| == NEXTHOP
  {
    Powers();
    Nexthop(GetAt(c, 0, 6), GetAt(c, 6, 4))
  }

  function PutRecp(pid: PacketId): Octets {
    Put(pid, 4)
  }

  function GetRecp(c: Octets): PacketId
    requires |c| == RECP
  {
    Powers();
    GetAt(c, 0, 4)
  }

  function PutAck(a: AckBlock): Octets {
    Put(a.address, 4) + Put(a.pid, 4)
  }

  function GetAck(c: Octets): AckBlock
    requires |c| == ACK
  {
    Powers();
    AckBlock(GetAt(c, 0, 4), GetAt(c, 4, 4))
  }

  lemma ElementsFaithful()
    ensures Faithful(NEXTHOP, PutNexthop, GetNexthop)
    ensures Faithful(RECP, PutRecp, GetRecp)
    ensures Faithful(ACK, PutAck, GetAck)
  {
    Powers();
    forall n
      ensures GetNexthop(PutNexthop(n)) == n
    {
      AtSplits(PutNexthop(n), 0, Put(n.mac, 6), Put(n.pid, 4));
      AtPut(PutNexthop(n), 0, n.mac, 6);
      AtPut(PutNexthop(n), 6, n.pid, 4);
    }
    forall pid: PacketId
      ensures GetRecp(PutRecp(pid)) == pid
    {
      AtPut(PutRecp(pid), 0, pid, 4);
    }
    forall a
      ensures GetAck(PutAck(a)) == a
    {
      AtSplits(PutAck(a), 0, Put(a.address, 4), Put(a.pid, 4));
      AtPut(PutAck(a), 0, a.address, 4);
      AtPut(PutAck(a), 4, a.pid, 4);
    }
  }

  /** A list preceded by its counter. */
  function PutCounted<T>(n: UInt16, xs: seq<T>, put: T -> Octets): Octets {
    Put(n, 2) + PutAll(xs, put)
  }

  function GetCounted<T>(b: Octets, pos: nat, width: nat, get: Octets --> T): (xs: Option<seq<T>>)
    requires forall c: Octets | |c| == width :: get.requires(c)
    ensures xs.Some? ==> |xs.value| < 0x1_0000
  {
    Powers();
    if !Available(b, pos, 2) || !Available(b, pos + 2, GetAt(b, pos, 2) * width) then None
    else Some(GetAll(b, pos + 2, GetAt(b, pos, 2), width, get))
  }

  lemma CountedRoundTrip<T(!new)>(b: Octets, pos: nat, n: UInt16, xs: seq<T>, width: nat,
                                  put: T -> Octets, get: Octets --> T)
    requires Faithful(width, put, get) && n == |xs| && At(b, pos, PutCounted(n, xs, put))
    ensures |PutCounted(n, xs, put)| == 2 + n * width && GetCounted(b, pos, width, get) == Some(xs)
  {
    hide Put, Get, Power, PutAll, GetAll;
    Powers();
    AtSplits(b, pos, Put(n, 2), PutAll(xs, put));
    AtPut(b, pos, n, 2);
    GetAllPut(b, pos + 2, xs, width, put, get);
  }

  function PutLists(h: Fields): Octets {
    PutCounted(h.encodedNum, h.nexthops, PutNexthop)
      + (PutCounted(h.reportNum, h.recps, PutRecp) + PutCounted(h.ackNum, h.acks, PutAck))
  }

  function Serialized(h: Fields): Octets {
    Put(h.ip, 4) + (Put(h.originalTime, 8) + (Put(h.lastTime, 8) + PutLists(h)))
  }

  function SerializedSize(h: Fields): nat {
    4 + 8 + 8 + 2 + NEXTHOP * |h.nexthops| + 2 + RECP * |h.recps| + 2 + ACK * |h.acks|
  }

  /** The counters are those of the containers, and the map is in order. */
  ghost predicate Counted(h: Fields) {
    h.encodedNum == |h.nexthops| && h.reportNum == |h.recps| && h.ackNum == |h.acks| && Sorted(h.nexthops)
  }

  /** The three lists with their counters, and where they end. */
  datatype ThreeLists = ThreeLists(raw: seq<Nexthop>, recps: seq<PacketId>, acks: seq<AckBlock>, end: nat)

  function GetLists(b: Octets, pos: nat): (r: Option<ThreeLists>)
    ensures r.Some? ==> |r.value.raw| < 0x1_0000 && |r.value.recps| < 0x1_0000 && |r.value.acks| < 0x1_0000
  {
    match GetCounted(b, pos, NEXTHOP, GetNexthop)
    case None => None
    case Some(raw) =>
      var pos1 := pos + 2 + |raw| * NEXTHOP;
      match GetCounted(b, pos1, RECP, GetRecp)
      case None => None
      case Some(recps) =>
        var pos2 := pos1 + 2 + |recps| * RECP;
        match GetCounted(b, pos2, ACK, GetAck)
        case None => None
        case Some(acks) => Some(ThreeLists(raw, recps, acks, pos2 + 2 + |acks| * ACK))
  }

  /** The header read at a position, unless the buffer is too short for it, and where it ends. */
  function Deserialized(b: Octets, pos: nat): Option<(Fields, nat)> {
    Powers();
    if !Available(b, pos, 20) then None
    else
      match GetLists(b, pos + 20)
      case None => None
      case Some(l) =>
        Some((Fields(GetAt(b, pos, 4), GetAt(b, pos + 4, 8), GetAt(b, pos + 12, 8),
                     |l.raw|, FromList(l.raw), |l.recps|, l.recps, |l.acks|, l.acks), l.end))
  }

  lemma SizeAsWritten(h: Fields)
    ensures |Serialized(h)| == SerializedSize(h)
  {
    hide Put, Get, PutAll, Power, Faithful, PutNexthop, PutRecp, PutAck;
    ElementsFaithful();
    PutAllWidth(h.nexthops, NEXTHOP, PutNexthop, GetNexthop);
    PutAllWidth(h.recps, RECP, PutRecp, GetRecp);
    PutAllWidth(h.acks, ACK, PutAck, GetAck);
  }

  /** The assertion at the end of reading holds exactly if the octets list no destination twice. */
  lemma SizesAgreeIff(b: Octets, pos: nat)
    requires Deserialized(b, pos).Some?
    ensures GetLists(b, pos + 20).Some?
    ensures var (h, end) := Deserialized(b, pos).value;
            end - pos == SerializedSize(h) <==> NoRepeats(GetLists(b, pos + 20).value.raw)
  {
    hide FromList, GetCounted, Get, Power, NoRepeats;
    FromListIff(GetLists(b, pos + 20).value.raw);
  }

  lemma ListsRoundTrip(h: Fields, b: Octets, pos: nat)
    requires Counted(h) && At(b, pos, PutLists(h))
    ensures |PutLists(h)| == 6 + NEXTHOP * |h.nexthops| + RECP * |h.recps| + ACK * |h.acks|
    ensures GetLists(b, pos) == Some(ThreeLists(h.nexthops, h.recps, h.acks, pos + |PutLists(h)|))
  {
    hide PutNexthop, GetNexthop, PutRecp, GetRecp, PutAck, GetAck, PutCounted, GetCounted, Sorted, Faithful;
    ElementsFaithful();
    var acks := PutCounted(h.ackNum, h.acks, PutAck);
    var reports := PutCounted(h.reportNum, h.recps, PutRecp);
    var nexthops := PutCounted(h.encodedNum, h.nexthops, PutNexthop);
    AtSplits(b, pos, nexthops, reports + acks);
    AtSplits(b, pos + |nexthops|, reports, acks);
    CountedRoundTrip(b, pos, h.encodedNum, h.nexthops, NEXTHOP, PutNexthop, GetNexthop);
    CountedRoundTrip(b, pos + |nexthops|, h.reportNum, h.recps, RECP, PutRecp, GetRecp);
    CountedRoundTrip(b, pos + |nexthops| + |reports|, h.ackNum, h.acks, ACK, PutAck, GetAck);
  }

  /** Reading undoes writing, wherever the header stands in a buffer and whatever follows it, and takes
      exactly the size announced: for every header whose counters match its containers. */
  lemma RoundTrip(h: Fields, b: Octets, pos: nat)
    requires Counted(h) && At(b, pos, Serialized(h))
    ensures |Serialized(h)| == SerializedSize(h)
    ensures Deserialized(b, pos) == Some((h, pos + SerializedSize(h)))
  {
    hide Put, Get, Power, PutLists, GetLists, Sorted;
    Powers();
    AtSplits(b, pos, Put(h.ip, 4), Put(h.originalTime, 8) + (Put(h.lastTime, 8) + PutLists(h)));
    AtSplits(b, pos + 4, Put(h.originalTime, 8), Put(h.lastTime, 8) + PutLists(h));
    AtSplits(b, pos + 12, Put(h.lastTime, 8), PutLists(h));
    AtPut(b, pos, h.ip, 4);
    AtPut(b, pos + 4, h.originalTime, 8);
    AtPut(b, pos + 12, h.lastTime, 8);
    ListsRoundTrip(h, b, pos + 20);
    FromSorted(h.nexthops);
  }

  lemma ListParts<T(!new)>(b: Octets, pos: nat, n: UInt16, xs: seq<T>, width: nat, put: T -> Octets,
                           get: Octets --> T)
    requires Faithful(width, put, get) && At(b, pos, PutCounted(n, xs, put))
    ensures Stands(b, pos, n, 2) && At(b, pos + 2, PutAll(xs, put)) && |PutCounted(n, xs, put)| == 2 + |xs| * width
  {
    hide Put, PutAll, Stands, Faithful;
    AtSplits(b, pos, Put(n, 2), PutAll(xs, put));
    AtStands(b, pos, n, 2);
    PutAllWidth(xs, width, put, get);
  }

  /** Where the two later lists start in a header at the position. */
  function ReportsStart(h: Fields, pos: nat): nat {
    pos + 22 + |h.nexthops| * NEXTHOP
  }

  function AcksStart(h: Fields, pos: nat): nat {
    ReportsStart(h, pos) + 2 + |h.recps| * RECP
  }

  lemma HeaderParts(h: Fields, b: Octets, pos: nat)
    requires At(b, pos, Serialized(h))
    ensures At(b, pos, Put(h.ip, 4)) && At(b, pos + 4, Put(h.originalTime, 8)) && At(b, pos + 12, Put(h.lastTime, 8))
    ensures At(b, pos + 20, PutLists(h))
  {
    hide Put, PutLists;
    AtSplits(b, pos, Put(h.ip, 4), Put(h.originalTime, 8) + (Put(h.lastTime, 8) + PutLists(h)));
    AtSplits(b, pos + 4, Put(h.originalTime, 8), Put(h.lastTime, 8) + PutLists(h));
    AtSplits(b, pos + 12, Put(h.lastTime, 8), PutLists(h));
  }

  lemma ListsParts(h: Fields, b: Octets, pos: nat)
    requires At(b, pos + 20, PutLists(h))
    ensures At(b, pos + 20, PutCounted(h.encodedNum, h.nexthops, PutNexthop))
    ensures At(b, ReportsStart(h, pos), PutCounted(h.reportNum, h.recps, PutRecp))
    ensures At(b, AcksStart(h, pos), PutCounted(h.ackNum, h.acks, PutAck))
  {
    hide PutNexthop, PutRecp, PutAck, PutCounted, Faithful, Stands, GetNexthop, GetRecp, GetAck, At;
    ElementsFaithful();
    var acks := PutCounted(h.ackNum, h.acks, PutAck);
    var reports := PutCounted(h.reportNum, h.recps, PutRecp);
    var nexthops := PutCounted(h.encodedNum, h.nexthops, PutNexthop);
    AtSplits(b, pos + 20, nexthops, reports + acks);
    AtSplits(b, pos + 20 + |nexthops|, reports, acks);
    ListParts(b, pos + 20, h.encodedNum, h.nexthops, NEXTHOP, PutNexthop, GetNexthop);
    ListParts(b, pos + 20 + |nexthops|, h.reportNum, h.recps, RECP, PutRecp, GetRecp);
  }

  /** A written header, octet by octet: IP address, original and last time, then the three counters, each in
      front of its list. */
  lemma OnTheWire(h: Fields, b: Octets, pos: nat)
    requires At(b, pos, Serialized(h))
    ensures Stands(b, pos, h.ip, 4) && Stands(b, pos + 4, h.originalTime, 8) && Stands(b, pos + 12, h.lastTime, 8)
    ensures Stands(b, pos + 20, h.encodedNum, 2) && At(b, pos + 22, PutAll(h.nexthops, PutNexthop))
    ensures Stands(b, ReportsStart(h, pos), h.reportNum, 2)
    ensures At(b, ReportsStart(h, pos) + 2, PutAll(h.recps, PutRecp))
    ensures Stands(b, AcksStart(h, pos), h.ackNum, 2) && At(b, AcksStart(h, pos) + 2, PutAll(h.acks, PutAck))
  {
    hide PutNexthop, PutRecp, PutAck, PutCounted, PutAll, Faithful, Put, Stands, Serialized, ReportsStart, AcksStart;
    hide PutLists, GetNexthop, GetRecp, GetAck, At;
    ElementsFaithful();
    HeaderParts(h, b, pos);
    AtStands(b, pos, h.ip, 4);
    AtStands(b, pos + 4, h.originalTime, 8);
    AtStands(b, pos + 12, h.lastTime, 8);
    ListsParts(h, b, pos);
    ListParts(b, pos + 20, h.encodedNum, h.nexthops, NEXTHOP, PutNexthop, GetNexthop);
    ListParts(b, ReportsStart(h, pos), h.reportNum, h.recps, RECP, PutRecp, GetRecp);
    ListParts(b, AcksStart(h, pos), h.ackNum, h.acks, ACK, PutAck, GetAck);
  }

  /** Each native, octet by octet: its destination and its id. */
  lemma NativeOnTheWire(h: Fields, b: Octets, pos: nat, k: nat)
    requires At(b, pos, Serialized(h)) && k < |h.nexthops|
    ensures var at := pos + 22 + k * NEXTHOP;
            Stands(b, at, h.nexthops[k].mac, 6) && Stands(b, at + 6, h.nexthops[k].pid, 4)
  {
    hide PutNexthop, PutRecp, PutAck, PutAll, Faithful, Stands, Serialized, GetNexthop, GetRecp, GetAck, At;
    ElementsFaithful();
    OnTheWire(h, b, pos);
    ElementAt(b, pos + 22, h.nexthops, NEXTHOP, PutNexthop, GetNexthop, k);
    NexthopStands(b, pos + 22 + k * NEXTHOP, h.nexthops[k]);
  }

  /** Each packet reported: its id. */
  lemma ReportOnTheWire(h: Fields, b: Octets, pos: nat, k: nat)
    requires At(b, pos, Serialized(h)) && k < |h.recps|
    ensures Stands(b, ReportsStart(h, pos) + 2 + k * RECP, h.recps[k], 4)
  {
    hide PutNexthop, PutRecp, PutAck, PutAll, Faithful, Stands, Serialized, GetNexthop, GetRecp, GetAck, At;
    hide ReportsStart, AcksStart;
    ElementsFaithful();
    OnTheWire(h, b, pos);
    ElementAt(b, ReportsStart(h, pos) + 2, h.recps, RECP, PutRecp, GetRecp, k);
    RecpStands(b, ReportsStart(h, pos) + 2 + k * RECP, h.recps[k]);
  }

  /** Each acknowledgement: the address it is for and the id. */
  lemma AckOnTheWire(h: Fields, b: Octets, pos: nat, k: nat)
    requires At(b, pos, Serialized(h)) && k < |h.acks|
    ensures var at := AcksStart(h, pos) + 2 + k * ACK;
            Stands(b, at, h.acks[k].address, 4) && Stands(b, at + 4, h.acks[k].pid, 4)
  {
    hide PutNexthop, PutRecp, PutAck, PutAll, Faithful, Stands, Serialized, GetNexthop, GetRecp, GetAck, At;
    hide ReportsStart, AcksStart;
    ElementsFaithful();
    OnTheWire(h, b, pos);
    ElementAt(b, AcksStart(h, pos) + 2, h.acks, ACK, PutAck, GetAck, k);
    AckStands(b, AcksStart(h, pos) + 2 + k * ACK, h.acks[k]);
  }

  lemma NexthopStands(b: Octets, pos: nat, n: Nexthop)
    requires At(b, pos, PutNexthop(n))
    ensures Stands(b, pos, n.mac, 6) && Stands(b, pos + 6, n.pid, 4)
  {
    hide Put, Stands;
    AtSplits(b, pos, Put(n.mac, 6), Put(n.pid, 4));
    AtStands(b, pos, n.mac, 6);
    AtStands(b, pos + 6, n.pid, 4);
  }

  lemma RecpStands(b: Octets, pos: nat, pid: PacketId)
    requires At(b, pos, PutRecp(pid))
    ensures Stands(b, pos, pid, 4)
  {
    AtStands(b, pos, pid, 4);
  }

  lemma AckStands(b: Octets, pos: nat, a: AckBlock)
    requires At(b, pos, PutAck(a))
    ensures Stands(b, pos, a.address, 4) && Stands(b, pos + 4, a.pid, 4)
  {
    hide Put, Stands;
    AtSplits(b, pos, Put(a.address, 4), Put(a.pid, 4));
    AtStands(b, pos, a.address, 4);
    AtStands(b, pos + 4, a.pid, 4);
  }

  class MyncHeader {
    var ip: Ipv4Address
    var originalTime: NFMetric
    var lastTime: NFMetric
    var encodedNum: UInt16
    var nexthops: seq<Nexthop>
    var reportNum: UInt16
    var recps: seq<PacketId>
    var ackNum: UInt16
    var acks: seq<AckBlock>

    ghost function View(): Fields
      reads this
    {
      Fields(ip, originalTime, lastTime, encodedNum, nexthops, reportNum, recps, ackNum, acks)
    }

    constructor ()
      ensures Counted(View()) && nexthops == [] && recps == [] && acks == [] && originalTime == lastTime == 0
    {
      encodedNum, reportNum, ackNum, originalTime, lastTime := 0, 0, 0, 0, 0;
      nexthops, recps, acks := [], [], [];
    }

    /** The 16-bit counter still matches the map if and only if the destination was listed already or
        fewer than 65535 others are. */
    method AddIdNexthop(nexthop: Mac48Address, pktId: PacketId) returns (added: bool)
      requires Counted(View())
      modifies `nexthops, `encodedNum
      ensures added == !Lists(old(nexthops), nexthop) && nexthops == WithNexthop(old(nexthops), Nexthop(nexthop, pktId))
      ensures Counted(View()) <==> !added || |old(nexthops)| < 0xFFFF
    {
      WithNexthopSorted(nexthops, Nexthop(nexthop, pktId));
      if exists n | n in nexthops :: n.mac == nexthop {
        return false;
      }
      var k := Before(nexthops, nexthop);
      nexthops := nexthops[..k] + [Nexthop(nexthop, pktId)] + nexthops[k..];
      encodedNum := (encodedNum + 1) % 0x1_0000;
      return true;
    }

    method AddRecpReport(pid: PacketId) returns (added: bool)
      requires Counted(View())
      modifies `recps, `reportNum
      ensures added == (pid !in old(recps)) && recps == if added then old(recps) + [pid] else old(recps)
      ensures Counted(View()) <==> !added || |old(recps)| < 0xFFFF
    {
      if pid in recps {
        return false;
      }
      recps := recps + [pid];
      reportNum := (reportNum + 1) % 0x1_0000;
      return true;
    }

    method AddAckBlock(ack: AckBlock)
      requires Counted(View())
      modifies `acks, `ackNum
      ensures acks == old(acks) + [ack] && (Counted(View()) <==> |old(acks)| < 0xFFFF)
    {
      acks := acks + [ack];
      ackNum := (ackNum + 1) % 0x1_0000;
    }

    method GetSerializedSize() returns (size: nat)
      requires reportNum == |recps| && ackNum == |acks|
      ensures size == |Serialized(View())|
    {
      SizeAsWritten(View());
      size := 4 + 8 + 8 + 2 + (6 + 4) * |nexthops| + 2 + 4 * |recps| + 2 + (4 + 4) * |acks|;
    }

    method Serialize(start: Writer)
      modifies start
      ensures start.bytes == old(start.bytes) + Serialized(View())
    {
      hide PutAll, PutCounted, Put;
      ghost var before := start.bytes;
      start.Write(ip, 4);
      start.Write(originalTime, 8);
      start.Write(lastTime, 8);
      WriteCounted(start, encodedNum, nexthops, PutNexthop);
      WriteCounted(start, reportNum, recps, PutRecp);
      WriteCounted(start, ackNum, acks, PutAck);
      Joined(before, View());
    }

    static method WriteCounted<T>(start: Writer, n: UInt16, xs: seq<T>, put: T -> Octets)
      modifies start
      ensures start.bytes == old(start.bytes) + PutCounted(n, xs, put)
    {
      start.Write(n, 2);
      start.WriteAll(xs, put);
    }

    static method ReadCounted<T>(bufIter: Reader, width: nat, get: Octets --> T) returns (xs: Option<seq<T>>)
      requires bufIter.position <= |bufIter.bytes| && forall c: Octets | |c| == width :: get.requires(c)
      modifies bufIter
      ensures xs == GetCounted(bufIter.bytes, old(bufIter.position), width, get)
      ensures xs != None ==> bufIter.position == old(bufIter.position) + 2 + |xs.value| * width <= |bufIter.bytes|
    {
      hide GetAll, Get, Power;
      var n := bufIter.Read(2);
      if n == None {
        return None;
      }
      xs := bufIter.ReadAll(n.value, width, get);
    }

    /** Reads the header at the reader's position, and returns how many octets it took, asserted to be
        the size of the header read. */
    method Deserialize(bufIter: Reader) returns (r: Reading)
      requires bufIter.position <= |bufIter.bytes|
      modifies this, bufIter
      ensures match Deserialized(bufIter.bytes, old(bufIter.position))
              case None => r == TooShort
              case Some((h, end)) =>
                var dist := end - old(bufIter.position);
                View() == h && bufIter.position == end && r == if dist == SerializedSize(h) then Taken(dist)
                  else SizesDiffer
    {
      hide GetAll, GetAt, GetLists, FromList, SerializedSize, Serialized;
      var pos := bufIter.position;
      var complete := ReadTimes(bufIter);
      if complete {
        complete := ReadLists(bufIter);
      }
      if !complete {
        return TooShort;
      }
      var dist := bufIter.position - pos;
      SizeAsWritten(View());
      var size := GetSerializedSize();
      return if dist == size then Taken(dist) else SizesDiffer;
    }

    /** The address and the two times in front of the lists. */
    method ReadTimes(bufIter: Reader) returns (complete: bool)
      requires bufIter.position <= |bufIter.bytes|
      modifies `ip, `originalTime, `lastTime, bufIter
      ensures complete == Available(bufIter.bytes, old(bufIter.position), 20)
      ensures complete ==>
                var pos := old(bufIter.position);
                && bufIter.position == pos + 20
                && ip == GetAt(bufIter.bytes, pos, 4) && originalTime == GetAt(bufIter.bytes, pos + 4, 8)
                && lastTime == GetAt(bufIter.bytes, pos + 12, 8)
    {
      hide Get, Power;
      Powers();
      var a := bufIter.Read(4);
      var o := bufIter.Read(8);
      var l := bufIter.Read(8);
      complete := a != None && o != None && l != None;
      if complete {
        ip, originalTime, lastTime := a.value, o.value, l.value;
      }
    }

    method ReadLists(bufIter: Reader) returns (complete: bool)
      requires bufIter.position <= |bufIter.bytes|
      modifies `encodedNum, `nexthops, `reportNum, `recps, `ackNum, `acks, bufIter
      ensures match GetLists(bufIter.bytes, old(bufIter.position))
              case None => !complete
              case Some(l) =>
                && complete && bufIter.position == l.end && old(bufIter.position) <= l.end
                && encodedNum == |l.raw| && nexthops == FromList(l.raw)
                && reportNum == |recps| && recps == l.recps && ackNum == |acks| && acks == l.acks
    {
      hide GetCounted, FromList, GetNexthop, GetRecp, GetAck;
      var raw := ReadCounted(bufIter, NEXTHOP, GetNexthop);
      if raw == None {
        return false;
      }
      encodedNum := |raw.value|;
      InsertAll(raw.value);
      var reports := ReadCounted(bufIter, RECP, GetRecp);
      if reports == None {
        return false;
      }
      reportNum, recps := |reports.value|, reports.value;
      var blocks := ReadCounted(bufIter, ACK, GetAck);
      if blocks == None {
        return false;
      }
      ackNum, acks := |blocks.value|, blocks.value;
      return true;
    }

    method InsertAll(raw: seq<Nexthop>)
      modifies `nexthops
      ensures nexthops == FromList(raw)
    {
      nexthops := [];
      for i := 0 to |raw|
        invariant nexthops == FromList(raw[..i])
      {
        assert raw[..i + 1][..i] == raw[..i];
        nexthops := WithNexthop(nexthops, raw[i]);
      }
      assert raw[..|raw|] == raw;
    }
  }

  lemma Joined(before: Octets, h: Fields)
    ensures before + Put(h.ip, 4) + Put(h.originalTime, 8) + Put(h.lastTime, 8)
              + PutCounted(h.encodedNum, h.nexthops, PutNexthop)
            + PutCounted(h.reportNum, h.recps, PutRecp) + PutCounted(h.ackNum, h.acks, PutAck)
         == before + Serialized(h)
  {
    hide Put, PutCounted;
  }
}
