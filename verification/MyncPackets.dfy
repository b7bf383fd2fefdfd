/** Packets up to their time to live, which every node on the way lowers and the coding layer renews. */
module MyncPackets {
  import opened XorCoding

  /** What gives a packet its id. */
  type Hash = Bytes -> PacketId

  /** Where the time to live is in a packet, and what it is set to once a packet has been decoded. */
  const TTL := 8

  const FULL_TTL: bv8 := 64

  function Renewed(packet: Bytes): Bytes {
    if |packet| <= TTL then packet else packet[TTL := FULL_TTL]
  }

  /** The packets differ at most in their time to live and in trailing zeros. */
  ghost predicate Alike(a: Bytes, b: Bytes) {
    forall i: nat | i != TTL :: ByteAt(a, i) == ByteAt(b, i)
  }

  /** The packets differ at most in their time to live. */
  ghost predicate Copy(a: Bytes, b: Bytes) {
    |a| == |b| && forall i | 0 <= i < |b| && i != TTL :: a[i] == b[i]
  }

  /** Packets by their ids. */
  type Catalogue = map<PacketId, Bytes>

  /** The ids of a catalogue are hashes, which ignore the time to live; packets reach beyond it, and none
      ends in a zero. */
  ghost predicate GoodCatalogue(hash: Hash, cat: Catalogue) {
    forall p | p in cat ::
      && |cat[p]| > TTL + 1 && cat[p][|cat[p]| - 1] != 0
      && forall b | Copy(b, cat[p]) :: hash(b) == p
  }

  /** The packet is a copy of the one in the catalogue. */
  ghost predicate Entered(cat: Catalogue, pid: PacketId, packet: Bytes) {
    pid in cat && Copy(packet, cat[pid])
  }

  lemma RenewedIsCopy(packet: Bytes)
    ensures Copy(Renewed(packet), packet)
  {
  }

  lemma CopyOfCopy(a: Bytes, b: Bytes, c: Bytes)
    requires Copy(a, b) && Copy(b, c)
    ensures Copy(a, c)
  {
  }

  lemma CopyIsAlike(a: Bytes, b: Bytes)
    requires Copy(a, b)
    ensures Alike(a, b)
  {
  }

  /** Without trailing zeros, and with an octet beyond the time to live, likeness means being a copy. */
  lemma AlikeIsCopy(a: Bytes, b: Bytes)
    requires Alike(a, b) && Canonical(a) && Canonical(b) && exists i: nat :: i > TTL && ByteAt(b, i) != 0
    ensures Copy(a, b)
  {
    var i: nat :| i > TTL && ByteAt(b, i) != 0;
    assert ByteAt(a, i) == ByteAt(b, i);
    assert ByteAt(a, |a| - 1) == a[|a| - 1] != 0;
    assert ByteAt(b, |b| - 1) == b[|b| - 1] != 0;
    forall k | 0 <= k < |b| && k != TTL
      ensures a[k] == b[k]
    {
      assert ByteAt(a, k) == ByteAt(b, k);
    }
  }

  /** Renewing makes copies equal. */
  lemma RenewedEqual(a: Bytes, b: Bytes)
    requires Copy(a, b) && |b| > TTL
    ensures Renewed(a) == Renewed(b)
  {
  }
}
