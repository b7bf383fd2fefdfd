/** The routing hello on the wire. */
module HelloHeaders {
  import opened Addresses
  import opened Metrics
  import opened Options
  import opened LinkState
  import opened Octets

  const ORIGINAL: Octet := 1

  /** The fields of the header; the flag is the octet on the wire. */
  datatype Fields = Fields(address: Ipv4Address, time: NFMetric, pairsNum: UInt32, pairs: seq<NFPair>, ttl: Octet,
    original: Octet)

  const PAIR := 12

  function PutPair(p: NFPair): Octets {
    Put(p.address, 4) + Put(p.nf_etox, 8)
  }

  function GetPair(c: Octets): NFPair
    requires |c| == PAIR
  {
    Powers();
    NFPair(GetAt(c, 0, 4), GetAt(c, 4, 8))
  }

  function Serialized(h: Fields): Octets {
    Put(h.address, 4) + (Put(h.time, 8)
      + (Put(h.pairsNum, 4) + (PutAll(h.pairs, PutPair) + (Put(h.ttl, 1) + Put(h.original, 1)))))
  }

  function SerializedSize(h: Fields): nat {
    4 + 8 + 4 + PAIR * h.pairsNum + 1 + 1
  }

  /** The header read at a position, unless the buffer is too short for it. */
  ghost function Deserialized(b: Octets, pos: nat): Option<Fields> {
    Powers();
    if !Available(b, pos, 16) then None
    else
      var n := GetAt(b, pos + 12, 4);
      if !Available(b, pos + 16, n * PAIR + 2) then None
      else
        Some(Fields(GetAt(b, pos, 4), GetAt(b, pos + 4, 8), n, GetAll(b, pos + 16, n, PAIR, GetPair),
                    GetAt(b, pos + 16 + n * PAIR, 1), GetAt(b, pos + 17 + n * PAIR, 1)))
  }

  lemma PairFaithful()
    ensures Faithful(PAIR, PutPair, GetPair)
  {
    Powers();
    forall p
      ensures GetPair(PutPair(p)) == p
    {
      var c := PutPair(p);
      AtSplits(c, 0, Put(p.address, 4), Put(p.nf_etox, 8));
      AtPut(c, 0, p.address, 4);
      AtPut(c, 4, p.nf_etox, 8);
    }
  }

  /** Where the fields of a written header are. */
  lemma FieldsAt(h: Fields, b: Octets, pos: nat)
    requires At(b, pos, Serialized(h))
    ensures At(b, pos, Put(h.address, 4)) && At(b, pos + 4, Put(h.time, 8)) && At(b, pos + 12, Put(h.pairsNum, 4))
    ensures |PutAll(h.pairs, PutPair)| == |h.pairs| * PAIR && At(b, pos + 16, PutAll(h.pairs, PutPair))
    ensures var end := pos + 16 + |h.pairs| * PAIR; At(b, end, Put(h.ttl, 1)) && At(b, end + 1, Put(h.original, 1))
    ensures |Serialized(h)| == 18 + |h.pairs| * PAIR
  {
    hide Put, Get, PutAll, GetAll, Power, PutPair, GetPair;
    PairFaithful();
    PutAllWidth(h.pairs, PAIR, PutPair, GetPair);
    var tail := Put(h.ttl, 1) + Put(h.original, 1);
    AtSplits(b, pos, Put(h.address, 4), Put(h.time, 8) + (Put(h.pairsNum, 4) + (PutAll(h.pairs, PutPair) + tail)));
    AtSplits(b, pos + 4, Put(h.time, 8), Put(h.pairsNum, 4) + (PutAll(h.pairs, PutPair) + tail));
    AtSplits(b, pos + 12, Put(h.pairsNum, 4), PutAll(h.pairs, PutPair) + tail);
    AtSplits(b, pos + 16, PutAll(h.pairs, PutPair), tail);
    AtSplits(b, pos + 16 + |h.pairs| * PAIR, Put(h.ttl, 1), Put(h.original, 1));
  }

  /** Reading undoes writing, wherever the header stands in a buffer and whatever follows it, and the
      size announced is the number of octets written: for every header whose counter matches its list. */
  lemma RoundTrip(h: Fields, b: Octets, pos: nat)
    requires h.pairsNum == |h.pairs| && At(b, pos, Serialized(h))
    ensures |Serialized(h)| == SerializedSize(h)
    ensures Deserialized(b, pos) == Some(h)
  {
    hide Put, Get, PutAll, GetAll, Power, PutPair, GetPair;
    Powers();
    PairFaithful();
    FieldsAt(h, b, pos);
    var n := |h.pairs|;
    AtPut(b, pos, h.address, 4);
    AtPut(b, pos + 4, h.time, 8);
    AtPut(b, pos + 12, h.pairsNum, 4);
    GetAllPut(b, pos + 16, h.pairs, PAIR, PutPair, GetPair);
    AtPut(b, pos + 16 + n * PAIR, h.ttl, 1);
    AtPut(b, pos + 17 + n * PAIR, h.original, 1);
  }

  /** A written header, octet by octet: the address, the time, the number of pairs, and at the end, after the
      pairs, TTL and flag. */
  lemma OnTheWire(h: Fields, b: Octets, pos: nat)
    requires h.pairsNum == |h.pairs| && At(b, pos, Serialized(h))
    ensures Stands(b, pos, h.address, 4) && Stands(b, pos + 4, h.time, 8) && Stands(b, pos + 12, |h.pairs|, 4)
    ensures var end := pos + 16 + |h.pairs| * PAIR; Stands(b, end, h.ttl, 1) && Stands(b, end + 1, h.original, 1)
  {
    hide Put, PutAll, PutPair, Stands, Serialized;
    FieldsAt(h, b, pos);
    AtStands(b, pos, h.address, 4);
    AtStands(b, pos + 4, h.time, 8);
    AtStands(b, pos + 12, h.pairsNum, 4);
    AtStands(b, pos + 16 + |h.pairs| * PAIR, h.ttl, 1);
    AtStands(b, pos + 16 + |h.pairs| * PAIR + 1, h.original, 1);
  }

  /** Each pair, octet by octet: the address and the metric. */
  lemma PairOnTheWire(h: Fields, b: Octets, pos: nat, k: nat)
    requires k < |h.pairs| && At(b, pos, Serialized(h))
    ensures Stands(b, pos + 16 + k * PAIR, h.pairs[k].address, 4)
    ensures Stands(b, pos + 16 + k * PAIR + 4, h.pairs[k].nf_etox, 8)
  {
    hide Put, PutAll, PutPair, GetPair, Stands, Serialized, Faithful;
    PairFaithful();
    FieldsAt(h, b, pos);
    ElementAt(b, pos + 16, h.pairs, PAIR, PutPair, GetPair, k);
    PairStands(b, pos + 16 + k * PAIR, h.pairs[k]);
  }

  lemma PairStands(b: Octets, pos: nat, p: NFPair)
    requires At(b, pos, PutPair(p))
    ensures Stands(b, pos, p.address, 4) && Stands(b, pos + 4, p.nf_etox, 8)
  {
    hide Put, Stands;
    AtSplits(b, pos, Put(p.address, 4), Put(p.nf_etox, 8));
    AtStands(b, pos, p.address, 4);
    AtStands(b, pos + 4, p.nf_etox, 8);
  }

  // ---------- The class ----------

  class HelloHeader {
    var address: Ipv4Address
    var time: NFMetric
    var pairsNum: UInt32
    var pairs: seq<NFPair>
    var ttl: Octet
    var original: Octet

    ghost function View(): Fields
      reads this
    {
      Fields(address, time, pairsNum, pairs, ttl, original)
    }

    ghost predicate Counted()
      reads this
    {
      pairsNum == |pairs|
    }

    constructor ()
      ensures Counted() && pairs == [] && time == 0 && original == ORIGINAL
    {
      pairsNum, pairs, time, original := 0, [], 0, ORIGINAL;
    }

    /** The 32-bit counter still matches the list if and only if the list has room for one more. */
    method AddPair(ip: Ipv4Address, nf_etox: NFMetric)
      requires Counted()
      modifies `pairs, `pairsNum
      ensures pairs == old(pairs) + [NFPair(ip, nf_etox)]
      ensures Counted() <==> |old(pairs)| + 1 < 0x1_0000_0000
    {
      pairs := pairs + [NFPair(ip, nf_etox)];
      pairsNum := (pairsNum + 1) % 0x1_0000_0000;
    }

    method GetSerializedSize() returns (size: nat)
      requires Counted()
      ensures size == |Serialized(View())|
    {
      hide Put, Get, PutAll, Power, Faithful;
      PairFaithful();
      PutAllWidth(pairs, PAIR, PutPair, GetPair);
      size := 32 / 8 + 64 / 8 + 32 / 8 + (32 / 8 + 64 / 8) * pairsNum + 1 + 1;
    }

    method Serialize(start: Writer)
      requires Counted()
      modifies start
      ensures start.bytes == old(start.bytes) + Serialized(View())
    {
      hide PutAll;
      ghost var before := start.bytes;
      start.Write(address, 4);
      start.Write(time, 8);
      start.Write(pairsNum, 4);
      start.WriteAll(pairs, PutPair);
      start.Write(ttl, 1);
      start.Write(original, 1);
      Joined(before, View());
    }

    /** Reads the header at the reader's position, and returns how many octets it took. */
    method Deserialize(bufIter: Reader) returns (dist: Option<nat>)
      requires bufIter.position <= |bufIter.bytes|
      modifies this, bufIter
      ensures match Deserialized(bufIter.bytes, old(bufIter.position))
              case None => dist == None
              case Some(h) =>
                && View() == h && Counted() && dist == Some(SerializedSize(h))
                && bufIter.position == old(bufIter.position) + SerializedSize(h)
    {
      hide GetAll, GetAt;
      var pos := bufIter.position;
      var complete := ReadFront(bufIter);
      if !complete {
        return None;
      }
      var list := bufIter.ReadAll(pairsNum, PAIR, GetPair);
      if list == None {
        return None;
      }
      pairs := list.value;
      complete := ReadBack(bufIter);
      return if complete then Some(bufIter.position - pos) else None;
    }

    /** The fields in front of the pairs. */
    method ReadFront(bufIter: Reader) returns (complete: bool)
      requires bufIter.position <= |bufIter.bytes|
      modifies `address, `time, `pairsNum, bufIter
      ensures complete == Available(bufIter.bytes, old(bufIter.position), 16)
      ensures complete ==>
                var pos := old(bufIter.position);
                && bufIter.position == pos + 16
                && address == GetAt(bufIter.bytes, pos, 4) && time == GetAt(bufIter.bytes, pos + 4, 8)
                && pairsNum == GetAt(bufIter.bytes, pos + 12, 4)
    {
      hide Get, Power;
      Powers();
      var a := bufIter.Read(4);
      var t := bufIter.Read(8);
      var n := bufIter.Read(4);
      complete := a != None && t != None && n != None;
      if complete {
        address, time, pairsNum := a.value, t.value, n.value;
      }
    }

    /** The fields behind the pairs. */
    method ReadBack(bufIter: Reader) returns (complete: bool)
      requires bufIter.position <= |bufIter.bytes|
      modifies `ttl, `original, bufIter
      ensures complete == Available(bufIter.bytes, old(bufIter.position), 2)
      ensures complete ==>
                var pos := old(bufIter.position);
                && bufIter.position == pos + 2
                && ttl == GetAt(bufIter.bytes, pos, 1) && original == GetAt(bufIter.bytes, pos + 1, 1)
    {
      hide Get, Power;
      Powers();
      var l := bufIter.Read(1);
      var o := bufIter.Read(1);
      complete := l != None && o != None;
      if complete {
        ttl, original := l.value, o.value;
      }
    }
  }

  lemma Joined(before: Octets, h: Fields)
    ensures before + Put(h.address, 4) + Put(h.time, 8) + Put(h.pairsNum, 4) + PutAll(h.pairs, PutPair) + Put(h.ttl, 1)
              + Put(h.original, 1)
         == before + Serialized(h)
  {
    hide Put, PutAll;
  }
}
