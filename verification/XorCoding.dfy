/** The XOR of packets, the pool of native packets, and decoding. */
module XorCoding {

  type Bytes = seq<bv8>

  // ---------- Byte strings modulo trailing zeros ----------

  /** Byte i, reading zeros past the end. */
  function ByteAt(s: Bytes, i: nat): bv8 {
    if i < |s| then s[i] else 0
  }

  /** The XOR of two bytes. */
  function Add(x: bv8, y: bv8): bv8 {
    x ^ y
  }

  lemma AddAssociates(x: bv8, y: bv8, z: bv8)
    ensures Add(Add(x, y), z) == Add(x, Add(y, z))
  {
  }

  lemma AddCommutes(x: bv8, y: bv8)
    ensures Add(x, y) == Add(y, x)
  {
  }

  lemma AddUnits(x: bv8)
    ensures Add(x, 0) == x && Add(0, x) == x && Add(x, x) == 0
  {
  }

  lemma AddGroup(x: bv8, y: bv8, z: bv8)
    ensures Add(x, y) == Add(y, x) && Add(Add(x, y), z) == Add(x, Add(y, z))
    ensures Add(x, 0) == x && Add(0, x) == x && Add(x, x) == 0
    ensures Add(x, y) == z <==> x == Add(y, z)
    ensures Add(x, y) == 0 <==> x == y
  {
    hide Add;
    AddCommutes(x, y);
    AddAssociates(x, y, z);
    AddUnits(x);
    AddUnits(y);
    AddUnits(z);
    AddAssociates(y, y, x);
    AddAssociates(y, y, z);
    AddAssociates(x, y, y);
  }

  /** The strings differ at most in trailing zeros. */
  ghost predicate Same(a: Bytes, b: Bytes) {
    forall i: nat :: ByteAt(a, i) == ByteAt(b, i)
  }

  predicate Canonical(s: Bytes) {
    s == [] || s[|s| - 1] != 0
  }

  function Stripped(s: Bytes): (r: Bytes)
    ensures Canonical(r)
  {
    if Canonical(s) then s else Stripped(s[..|s| - 1])
  }

  function Padded(a: Bytes, b: Bytes): Bytes {
    seq(if |a| > |b| then |a| else |b|, i requires 0 <= i => Add(ByteAt(a, i), ByteAt(b, i)))
  }

  /** The XOR of two packets, without trailing zeros. */
  function Xor(a: Bytes, b: Bytes): Bytes {
    Stripped(Padded(a, b))
  }

  lemma {:induction false} StrippedSame(s: Bytes)
    ensures Same(Stripped(s), s)
    decreases |s|
  {
    if !Canonical(s) {
      StrippedSame(s[..|s| - 1]);
      forall i: nat
        ensures ByteAt(s[..|s| - 1], i) == ByteAt(s, i)
      {
      }
    }
  }

  lemma CanonicalUnique(a: Bytes, b: Bytes)
    requires Canonical(a) && Canonical(b) && Same(a, b)
    ensures a == b
  {
    if a != [] {
      assert ByteAt(a, |a| - 1) == ByteAt(b, |a| - 1);
    }
    if b != [] {
      assert ByteAt(a, |b| - 1) == ByteAt(b, |b| - 1);
    }
    forall i | 0 <= i < |a|
      ensures a[i] == b[i]
    {
      assert ByteAt(a, i) == ByteAt(b, i);
    }
  }

  /** Stripping picks one representative of each class. */
  lemma SameIffStrippedEqual(a: Bytes, b: Bytes)
    ensures Same(a, b) <==> Stripped(a) == Stripped(b)
  {
    StrippedSame(a);
    StrippedSame(b);
    if Same(a, b) {
      CanonicalUnique(Stripped(a), Stripped(b));
    }
  }

  lemma XorBytes(a: Bytes, b: Bytes, i: nat)
    ensures ByteAt(Xor(a, b), i) == Add(ByteAt(a, i), ByteAt(b, i))
  {
    StrippedSame(Padded(a, b));
    assert ByteAt(Padded(a, b), i) == Add(ByteAt(a, i), ByteAt(b, i));
  }

  /** The computation of XOR finds a last non-zero byte if and only if its inputs differ modulo
      trailing zeros; on equal ones its search runs off the buffer. */
  lemma XorDefinedIff(a: Bytes, b: Bytes)
    ensures (exists i | 0 <= i < |Padded(a, b)| :: Padded(a, b)[i] != 0) <==> !Same(a, b)
    ensures !Same(a, b) <==> Xor(a, b) != []
  {
    if !Same(a, b) {
      var i: nat :| ByteAt(a, i) != ByteAt(b, i);
      AddGroup(ByteAt(a, i), ByteAt(b, i), 0);
      XorBytes(a, b, i);
      assert Padded(a, b)[i] != 0;
    } else {
      forall i: nat
        ensures ByteAt(Xor(a, b), i) == ByteAt([], i)
      {
        XorBytes(a, b, i);
      }
      CanonicalUnique(Xor(a, b), []);
      assert forall i | 0 <= i < |Padded(a, b)| :: ByteAt(a, i) == ByteAt(b, i);
    }
  }

  /** XOR computes in an Abelian group whose elements are the byte strings modulo trailing zeros:
      commutative, associative, with the empty string neutral and every element its own inverse. */
  lemma XorGroup(a: Bytes, b: Bytes, c: Bytes)
    ensures Xor(a, b) == Xor(b, a)
    ensures Xor(Xor(a, b), c) == Xor(a, Xor(b, c))
    ensures Xor(a, []) == Stripped(a)
    ensures Xor(a, a) == []
    ensures Xor(Xor(a, b), b) == Stripped(a)
  {
    forall i: nat
      ensures ByteAt(Xor(a, b), i) == ByteAt(Xor(b, a), i)
      ensures ByteAt(Xor(Xor(a, b), c), i) == ByteAt(Xor(a, Xor(b, c)), i)
      ensures ByteAt(Xor(a, []), i) == ByteAt(Stripped(a), i)
      ensures ByteAt(Xor(Xor(a, b), b), i) == ByteAt(Stripped(a), i)
    {
      XorBytes(a, b, i);
      XorBytes(b, a, i);
      XorBytes(b, c, i);
      XorBytes(Xor(a, b), c, i);
      XorBytes(a, Xor(b, c), i);
      XorBytes(a, [], i);
      XorBytes(Xor(a, b), b, i);
      StrippedSame(a);
      AddGroup(ByteAt(a, i), ByteAt(b, i), ByteAt(c, i));
      AddGroup(ByteAt(a, i), ByteAt(b, i), ByteAt(b, i));
      AddGroup(ByteAt(b, i), 0, 0);
    }
    CanonicalUnique(Xor(a, b), Xor(b, a));
    CanonicalUnique(Xor(Xor(a, b), c), Xor(a, Xor(b, c)));
    CanonicalUnique(Xor(a, []), Stripped(a));
    CanonicalUnique(Xor(Xor(a, b), b), Stripped(a));
    XorDefinedIff(a, a);
  }

  method XOR(p1: Bytes, p2: Bytes) returns (packet: Bytes)
    requires !Same(p1, p2)
    ensures packet == Xor(p1, p2) && packet != [] && packet[|packet| - 1] != 0
  {
    XorDefinedIff(p1, p2);
    var buffer := Combine(p1, p2);
    packet := Trim(buffer);
  }

  /** The first two loops of XOR: the common part, then the rest of the longer packet. */
  method Combine(p1: Bytes, p2: Bytes) returns (buffer: array<bv8>)
    ensures fresh(buffer) && buffer[..] == Padded(p1, p2)
  {
    var len1, len2 := |p1|, |p2|;
    var big := if len1 > len2 then len1 else len2;
    var small := if len1 > len2 then len2 else len1;
    buffer := new bv8[big](_ => 0);
    for i := 0 to small
      invariant forall k | 0 <= k < i :: buffer[k] == Padded(p1, p2)[k]
    {
      buffer[i] := p1[i] ^ p2[i];
    }
    for i := small to big
      invariant forall k | 0 <= k < i :: buffer[k] == Padded(p1, p2)[k]
    {
      if len1 > len2 {
        buffer[i] := p1[i] ^ 0;
      } else {
        buffer[i] := p2[i] ^ 0;
      }
    }
  }

  /** The backward search for the last byte that is not zero. */
  method Trim(buffer: array<bv8>) returns (packet: Bytes)
    requires exists i :: 0 <= i < buffer.Length && buffer[i] != 0
    ensures packet == Stripped(buffer[..]) && packet != [] && packet[|packet| - 1] != 0
  {
    var trueLen := buffer.Length - 1;
    ghost var last :| 0 <= last < buffer.Length && buffer[last] != 0;
    assert buffer[..trueLen + 1] == buffer[..];
    while buffer[trueLen] == 0
      invariant last <= trueLen < buffer.Length
      invariant Stripped(buffer[..trueLen + 1]) == Stripped(buffer[..])
      decreases trueLen
    {
      assert buffer[..trueLen + 1][..trueLen] == buffer[..trueLen];
      trueLen := trueLen - 1;
    }
    packet := buffer[..trueLen + 1];
  }

  // ---------- The XOR of several packets ----------

  ghost function SumAt(packets: seq<Bytes>, i: nat): bv8 {
    if packets == [] then 0 else Add(ByteAt(packets[0], i), SumAt(packets[1..], i))
  }

  lemma {:induction false} SumSplits(a: seq<Bytes>, b: seq<Bytes>, i: nat)
    ensures SumAt(a + b, i) == Add(SumAt(a, i), SumAt(b, i))
  {
    if a == [] {
      assert a + b == b;
    } else {
      assert (a + b)[1..] == a[1..] + b;
      SumSplits(a[1..], b, i);
    }
  }

  // ---------- Decoding ----------

  type PacketId = p: nat | p < 0x1_0000_0000

  class MyncPacketPool {
    var pool: map<PacketId, Bytes>

    constructor ()
      ensures pool == map[]
    {
      pool := map[];
    }

    /** A packet already in the pool is not replaced. */
    method AddToPool(pid: PacketId, packet: Bytes)
      modifies this
      ensures pool == if pid in old(pool) then old(pool) else old(pool)[pid := packet]
    {
      if pid !in pool {
        pool := pool[pid := packet];
      }
    }

    method Find(pid: PacketId) returns (found: bool, packet: Bytes)
      ensures found == (pid in pool) && (found ==> packet == pool[pid])
    {
      if pid in pool {
        return true, pool[pid];
      }
      return false, [];
    }
  }

  /** RunsOff stands for an XOR of equal packets; otherwise the value returned and the packet left. */
  datatype Decoded = RunsOff | Decoded(code: int, packet: Bytes)

  /** The rest of the loop from entry k of the header, with its three counters; those of missing and
      found natives are eight bits wide. */
  ghost function DecodedFrom(pids: seq<PacketId>, pool: map<PacketId, Bytes>, packet: Bytes, k: nat, missing: nat,
                             found: nat, pid: PacketId): Decoded
    requires k <= |pids|
    decreases |pids| - k
  {
    if k == |pids| then Verdict(pids, packet, missing, found, pid)
    else if pids[k] !in pool then
      if missing + 1 > 1 then Decoded(-1, packet)
      else DecodedFrom(pids, pool, packet, k + 1, (missing + 1) % 256, found, pids[k])
    else if (found + 1) % 256 < |pids| then
      if Same(pool[pids[k]], packet) then RunsOff
      else DecodedFrom(pids, pool, Xor(pool[pids[k]], packet), k + 1, missing, (found + 1) % 256, pid)
    else Verdict(pids, packet, missing, (found + 1) % 256, pid)
  }

  ghost function Verdict(pids: seq<PacketId>, packet: Bytes, missing: nat, found: nat, pid: PacketId): Decoded {
    if missing == 0 && found == |pids| then Decoded(-2, packet) else Decoded(pid, packet)
  }

  ghost function Decode(pids: seq<PacketId>, pool: map<PacketId, Bytes>, packet: Bytes): Decoded {
    DecodedFrom(pids, pool, packet, 0, 0, 0, 0)
  }

  /** The ids are those of the header in the order of its map. */
  method DecodeFrame(pids: seq<PacketId>, pool: MyncPacketPool, frame: Bytes) returns (code: int, packet: Bytes)
    requires Decode(pids, pool.pool, frame) != RunsOff
    ensures Decode(pids, pool.pool, frame) == Decoded(code, packet)
  {
    var pid: PacketId := 0;
    var missing, found := 0, 0;
    packet := frame;
    var k := 0;
    while k < |pids|
      invariant 0 <= k <= |pids| && 0 <= missing && 0 <= found
      invariant DecodedFrom(pids, pool.pool, packet, k, missing, found, pid) == Decode(pids, pool.pool, frame)
    {
      var isFound, foundPkt := pool.Find(pids[k]);
      if !isFound {
        missing := (missing + 1) % 256;
        if missing > 1 {
          return -1, packet;
        }
        pid := pids[k];
      } else {
        found := (found + 1) % 256;
        if found < |pids| {
          packet := XOR(foundPkt, packet);
        } else {
          break;
        }
      }
      k := k + 1;
    }
    if missing == 0 && found == |pids| {
      return -2, packet;
    }
    return pid, packet;
  }

  // ---------- What decoding returns ----------

  /** The entries from k on whose native is not pooled. */
  ghost function Missing(pids: seq<PacketId>, pool: map<PacketId, Bytes>, k: nat): nat
    requires k <= |pids|
    decreases |pids| - k
  {
    if k == |pids| then 0 else (if pids[k] in pool then 0 else 1) + Missing(pids, pool, k + 1)
  }

  /** Two or more missing natives: the loop gives up with -1, for any number of natives. */
  lemma {:induction false} TwoMissing(pids: seq<PacketId>, pool: map<PacketId, Bytes>, packet: Bytes, k: nat,
                                      missing: nat, found: nat, pid: PacketId)
    requires k <= |pids| && missing <= 1 && found <= 255 && found <= k && Missing(pids, pool, k) + missing >= 2
    ensures var r := DecodedFrom(pids, pool, packet, k, missing, found, pid); r.RunsOff? || r.code == -1
    decreases |pids| - k
  {
    if pids[k] !in pool {
      if missing == 0 {
        TwoMissing(pids, pool, packet, k + 1, 1, found, pids[k]);
      }
    } else {
      assert k + 1 < |pids| by {
        assert Missing(pids, pool, |pids|) == 0;
      }
      TwoMissing(pids, pool, Xor(pool[pids[k]], packet), k + 1, missing, (found + 1) % 256, pid);
    }
  }

  /** No native missing: up to 255 natives the loop notices and returns -2.  From 256 on its
      eight-bit counter never reaches their number and it returns 0, as if packet 0 were decoded. */
  lemma {:induction false} NoneMissing(pids: seq<PacketId>, pool: map<PacketId, Bytes>, packet: Bytes, k: nat,
                                       found: nat)
    requires k <= |pids| && Missing(pids, pool, k) == 0 && found == k % 256
    requires (|pids| <= 255 ==> k == |pids| ==> k == 0)
    ensures var r := DecodedFrom(pids, pool, packet, k, 0, found, 0);
            r.RunsOff? || r.code == if |pids| <= 255 then -2 else 0
    decreases |pids| - k
  {
    if k < |pids| && (found + 1) % 256 < |pids| {
      NoneMissing(pids, pool, Xor(pool[pids[k]], packet), k + 1, (found + 1) % 256);
    }
  }

  /** The pooled natives from entry k on. */
  ghost function Others(pids: seq<PacketId>, pool: map<PacketId, Bytes>, k: nat): seq<Bytes>
    requires k <= |pids|
    decreases |pids| - k
  {
    if k == |pids| then []
    else if pids[k] in pool then [pool[pids[k]]] + Others(pids, pool, k + 1) else Others(pids, pool, k + 1)
  }

  /** r is packet XOR all of the given packets. */
  ghost predicate IsSumWith(r: Bytes, packet: Bytes, packets: seq<Bytes>) {
    forall i: nat :: ByteAt(r, i) == Add(ByteAt(packet, i), SumAt(packets, i))
  }

  lemma AbsorbSum(packet: Bytes, first: Bytes, rest: seq<Bytes>)
    ensures forall r :: IsSumWith(r, Xor(first, packet), rest) ==> IsSumWith(r, packet, [first] + rest)
  {
    forall r, i: nat | IsSumWith(r, Xor(first, packet), rest)
      ensures ByteAt(r, i) == Add(ByteAt(packet, i), SumAt([first] + rest, i))
    {
      XorBytes(first, packet, i);
      assert ([first] + rest)[1..] == rest;
    }
  }

  /** The counter of found natives before entry k when native m is the one missing. */
  ghost function FoundBefore(k: nat, m: nat): nat {
    (if m < k then k - 1 else k) % 256
  }

  /** The turn for a pooled native, when one later or earlier native is missing: the loop goes on. */
  lemma FoundTurn(pids: seq<PacketId>, pool: map<PacketId, Bytes>, packet: Bytes, k: nat, missing: nat, pid: PacketId,
                  m: nat)
    requires k < |pids| && m < |pids| && k != m && pids[k] in pool
    ensures (FoundBefore(k, m) + 1) % 256 == FoundBefore(k + 1, m)
    ensures DecodedFrom(pids, pool, packet, k, missing, FoundBefore(k, m), pid) ==
            if Same(pool[pids[k]], packet) then RunsOff
            else DecodedFrom(pids, pool, Xor(pool[pids[k]], packet), k + 1, missing, FoundBefore(k + 1, m), pid)
  {
    hide Same, Xor, FoundBefore;
    FoundNext(k, m, |pids|);
  }

  lemma FoundNext(k: nat, m: nat, n: nat)
    requires k < n && m < n && k != m
    ensures (FoundBefore(k, m) + 1) % 256 == FoundBefore(k + 1, m) < n
  {
  }

  lemma MissingTurn(pids: seq<PacketId>, pool: map<PacketId, Bytes>, packet: Bytes, k: nat, found: nat, pid: PacketId)
    requires k < |pids| && pids[k] !in pool
    ensures DecodedFrom(pids, pool, packet, k, 0, found, pid)
              == DecodedFrom(pids, pool, packet, k + 1, 1, found, pids[k])
  {
  }

  lemma LastTurn(pids: seq<PacketId>, pool: map<PacketId, Bytes>, packet: Bytes, found: nat, pid: PacketId)
    ensures DecodedFrom(pids, pool, packet, |pids|, 1, found, pid) == Decoded(pid, packet)
  {
  }

  /** Exactly one native missing: the loop returns its id and the frame XOR all the pooled natives,
      for any number of natives, unless an intermediate XOR runs off. */
  lemma {:induction false} OneMissing(pids: seq<PacketId>, pool: map<PacketId, Bytes>, packet: Bytes, k: nat,
                                      missing: nat, found: nat, pid: PacketId, m: nat)
    requires k <= |pids| && m < |pids| && pids[m] !in pool && forall i | 0 <= i < |pids| && i != m :: pids[i] in pool
    requires found == FoundBefore(k, m)
    requires if m < k then missing == 1 && pid == pids[m] else missing == 0
    ensures var r := DecodedFrom(pids, pool, packet, k, missing, found, pid);
            r.RunsOff? || (r.code == pids[m] && IsSumWith(r.packet, packet, Others(pids, pool, k)))
    decreases |pids| - k
  {
    hide IsSumWith, Xor, Same, DecodedFrom;
    if k == |pids| {
      LastTurn(pids, pool, packet, found, pid);
      NothingElse(packet);
    } else if pids[k] !in pool {
      MissingTurn(pids, pool, packet, k, found, pid);
      OneMissing(pids, pool, packet, k + 1, 1, found, pids[k], m);
    } else {
      FoundTurn(pids, pool, packet, k, missing, pid, m);
      if !Same(pool[pids[k]], packet) {
        OneMissing(pids, pool, Xor(pool[pids[k]], packet), k + 1, missing, FoundBefore(k + 1, m), pid, m);
        AbsorbSum(packet, pool[pids[k]], Others(pids, pool, k + 1));
      }
    }
  }

  lemma NothingElse(packet: Bytes)
    ensures IsSumWith(packet, packet, [])
  {
    forall i: nat
      ensures ByteAt(packet, i) == Add(ByteAt(packet, i), SumAt([], i))
    {
      AddGroup(ByteAt(packet, i), 0, 0);
    }
  }

  lemma {:induction false} PooledSum(pids: seq<PacketId>, pool: map<PacketId, Bytes>, natives: seq<Bytes>, m: nat,
                                     k: nat, i: nat)
    requires k <= |pids| == |natives| && m < |pids| && pids[m] !in pool
    requires forall j | 0 <= j < |pids| && j != m :: pids[j] in pool && pool[pids[j]] == natives[j]
    ensures SumAt(natives[k..], i) == Add(SumAt(Others(pids, pool, k), i), if k <= m then ByteAt(natives[m], i) else 0)
    decreases |pids| - k
  {
    hide Add;
    if k == |pids| {
      AddGroup(0, 0, 0);
    } else {
      assert natives[k..][1..] == natives[k + 1..];
      PooledSum(pids, pool, natives, m, k + 1, i);
      var rest, missing := SumAt(Others(pids, pool, k + 1), i), ByteAt(natives[m], i);
      if k == m {
        AddGroup(rest, 0, 0);
        AddGroup(missing, rest, 0);
      } else {
        assert Others(pids, pool, k)[1..] == Others(pids, pool, k + 1);
        AddAssociates(ByteAt(natives[k], i), rest, if k + 1 <= m then missing else 0);
      }
    }
  }

  /** Natives listed in a header, of which the receiver's pool holds all but number m. */
  ghost predicate AllButOne(pids: seq<PacketId>, pool: map<PacketId, Bytes>, natives: seq<Bytes>, m: nat) {
    && m < |pids| == |natives| && pids[m] !in pool
    && forall j | 0 <= j < |pids| && j != m :: pids[j] in pool && pool[pids[j]] == natives[j]
  }

  ghost predicate IsSumOf(frame: Bytes, natives: seq<Bytes>) {
    forall i: nat :: ByteAt(frame, i) == SumAt(natives, i)
  }

  /** Decode inverts XOR coding: when exactly one listed native is missing and no intermediate XOR
      runs off, it returns the missing id, and it returns the missing native (up to trailing zeros)
      if and only if the frame was the XOR of all listed natives. */
  lemma DecodeInvertsCoding(pids: seq<PacketId>, pool: map<PacketId, Bytes>, natives: seq<Bytes>, m: nat, frame: Bytes)
    requires AllButOne(pids, pool, natives, m) && !Decode(pids, pool, frame).RunsOff?
    ensures Decode(pids, pool, frame).code == pids[m]
    ensures Same(Decode(pids, pool, frame).packet, natives[m]) <==> IsSumOf(frame, natives)
  {
    OneMissingAll(pids, pool, m, frame);
    forall i: nat
      ensures SumAt(natives, i) == Add(SumAt(Others(pids, pool, 0), i), ByteAt(natives[m], i))
    {
      PooledSum(pids, pool, natives, m, 0, i);
      assert natives[0..] == natives;
    }
    SumComparison(Decode(pids, pool, frame).packet, frame, Others(pids, pool, 0), natives, natives[m]);
  }

  lemma SumComparison(r: Bytes, frame: Bytes, others: seq<Bytes>, natives: seq<Bytes>, missing: Bytes)
    requires IsSumWith(r, frame, others)
    requires forall i: nat :: SumAt(natives, i) == Add(SumAt(others, i), ByteAt(missing, i))
    ensures Same(r, missing) <==> IsSumOf(frame, natives)
  {
    forall i: nat
      ensures ByteAt(r, i) == ByteAt(missing, i) <==> ByteAt(frame, i) == SumAt(natives, i)
    {
      AddGroup(ByteAt(frame, i), SumAt(others, i), ByteAt(missing, i));
    }
  }

  lemma OneMissingAll(pids: seq<PacketId>, pool: map<PacketId, Bytes>, m: nat, frame: Bytes)
    requires m < |pids| && pids[m] !in pool && forall i | 0 <= i < |pids| && i != m :: pids[i] in pool
    requires !Decode(pids, pool, frame).RunsOff?
    ensures Decode(pids, pool, frame).code == pids[m]
    ensures IsSumWith(Decode(pids, pool, frame).packet, frame, Others(pids, pool, 0))
  {
    OneMissing(pids, pool, frame, 0, 0, 0, 0, m);
  }

  lemma {:induction false} DecodedFromCanonical(pids: seq<PacketId>, pool: map<PacketId, Bytes>, packet: Bytes, k: nat,
                                                missing: nat, found: nat, pid: PacketId)
    requires k <= |pids| && Canonical(packet)
    ensures var r := DecodedFrom(pids, pool, packet, k, missing, found, pid); r.RunsOff? || Canonical(r.packet)
    decreases |pids| - k
  {
    hide Same, Stripped;
    if k == |pids| {
    } else if pids[k] !in pool {
      DecodedFromCanonical(pids, pool, packet, k + 1, (missing + 1) % 256, found, pids[k]);
    } else {
      DecodedFromCanonical(pids, pool, Xor(pool[pids[k]], packet), k + 1, missing, (found + 1) % 256, pid);
    }
  }

  /** What is decoded never ends in a zero, so it is the native itself if that does not either. */
  lemma DecodesExactly(pids: seq<PacketId>, pool: map<PacketId, Bytes>, frame: Bytes, native: Bytes)
    requires Canonical(frame) && Canonical(native)
    ensures var r := Decode(pids, pool, frame); !r.RunsOff? && Same(r.packet, native) ==> r.packet == native
  {
    DecodedFromCanonical(pids, pool, frame, 0, 0, 0, 0);
    var r := Decode(pids, pool, frame);
    if !r.RunsOff? && Same(r.packet, native) {
      CanonicalUnique(r.packet, native);
    }
  }

  /** The verdict by the number of missing natives.  Finding none missing is reported as such if and
      only if the header lists at most 255 of them. */
  lemma DecodeVerdict(pids: seq<PacketId>, pool: map<PacketId, Bytes>, frame: Bytes)
    requires !Decode(pids, pool, frame).RunsOff?
    ensures Missing(pids, pool, 0) >= 2 ==> Decode(pids, pool, frame).code == -1
    ensures Missing(pids, pool, 0) == 0 ==> (Decode(pids, pool, frame).code == -2 <==> |pids| <= 255)
  {
    if Missing(pids, pool, 0) >= 2 {
      TwoMissing(pids, pool, frame, 0, 0, 0, 0);
    }
    if Missing(pids, pool, 0) == 0 {
      NoneMissing(pids, pool, frame, 0, 0);
    }
  }

  /** What a frame that is the XOR of all natives still holds before entry k: the natives from k on,
      and the missing one. */
  ghost predicate Holds(packet: Bytes, natives: seq<Bytes>, m: nat, k: nat)
    requires k <= |natives| && m < |natives|
  {
    forall i: nat :: ByteAt(packet, i) == Remaining(natives, m, k, i)
  }

  ghost function Remaining(natives: seq<Bytes>, m: nat, k: nat, i: nat): bv8
    requires k <= |natives| && m < |natives|
  {
    Add(SumAt(natives[k..], i), if m < k then ByteAt(natives[m], i) else 0)
  }

  /** After entry k nothing but zeros is left. */
  ghost predicate CancelsAfter(natives: seq<Bytes>, m: nat, k: nat)
    requires k < |natives| && m < |natives|
  {
    Holds([], natives, m, k + 1)
  }

  lemma RemainingStep(natives: seq<Bytes>, m: nat, k: nat, i: nat)
    requires k < |natives| && m < |natives|
    ensures k == m ==> Remaining(natives, m, k + 1, i) == Remaining(natives, m, k, i)
    ensures k != m ==> Remaining(natives, m, k + 1, i) == Add(ByteAt(natives[k], i), Remaining(natives, m, k, i))
  {
    assert natives[k..][1..] == natives[k + 1..];
  }

  lemma HoldsStep(packet: Bytes, natives: seq<Bytes>, m: nat, k: nat)
    requires k < |natives| && m < |natives| && Holds(packet, natives, m, k)
    ensures k == m ==> Holds(packet, natives, m, k + 1)
    ensures k != m ==> Holds(Xor(natives[k], packet), natives, m, k + 1)
    ensures k != m ==> (Same(natives[k], packet) <==> CancelsAfter(natives, m, k))
  {
    forall i: nat
      ensures k == m ==> ByteAt(packet, i) == Remaining(natives, m, k + 1, i)
      ensures k != m ==> ByteAt(Xor(natives[k], packet), i) == Remaining(natives, m, k + 1, i)
      ensures k != m ==> (ByteAt(natives[k], i) == ByteAt(packet, i) <==> Remaining(natives, m, k + 1, i) == 0)
    {
      hide Remaining;
      RemainingStep(natives, m, k, i);
      XorBytes(natives[k], packet, i);
      AddGroup(ByteAt(natives[k], i), ByteAt(packet, i), 0);
    }
  }

  lemma {:induction false} RunsOffFromIff(pids: seq<PacketId>, pool: map<PacketId, Bytes>, natives: seq<Bytes>, m: nat,
                                          packet: Bytes, k: nat, missing: nat, found: nat, pid: PacketId)
    requires AllButOne(pids, pool, natives, m) && k <= |pids| && Holds(packet, natives, m, k)
    requires found == FoundBefore(k, m) && missing == (if m < k then 1 else 0)
    ensures DecodedFrom(pids, pool, packet, k, missing, found, pid).RunsOff? <==>
            exists j :: k <= j < |pids| && j != m && CancelsAfter(natives, m, j)
    decreases |pids| - k
  {
    hide Holds, CancelsAfter, Same, Xor, DecodedFrom;
    if k == |pids| {
      LastTurn(pids, pool, packet, found, pid);
    } else {
      HoldsStep(packet, natives, m, k);
      if k == m {
        MissingTurn(pids, pool, packet, k, found, pid);
        RunsOffFromIff(pids, pool, natives, m, packet, k + 1, 1, found, pids[k]);
      } else {
        FoundTurn(pids, pool, packet, k, missing, pid, m);
        RunsOffFromIff(pids, pool, natives, m, Xor(natives[k], packet), k + 1, missing, FoundBefore(k + 1, m), pid);
      }
    }
  }

  /** On the XOR of all listed natives decoding runs off the buffer if and only if, after some entry,
      what is left cancels out. */
  lemma DecodeRunsOffIff(pids: seq<PacketId>, pool: map<PacketId, Bytes>, natives: seq<Bytes>, m: nat, frame: Bytes)
    requires AllButOne(pids, pool, natives, m) && IsSumOf(frame, natives)
    ensures Decode(pids, pool, frame).RunsOff? <==>
            exists j :: 0 <= j < |pids| && j != m && CancelsAfter(natives, m, j)
  {
    assert natives[0..] == natives;
    RunsOffFromIff(pids, pool, natives, m, frame, 0, 0, 0, 0);
  }

  // ---------- When decoding runs off, for any frame ----------

  /** How many of the first k natives are not pooled. */
  ghost function MissingBefore(pids: seq<PacketId>, pool: map<PacketId, Bytes>, k: nat): (n: nat)
    requires k <= |pids|
    ensures n <= k
  {
    if k == 0 then 0 else MissingBefore(pids, pool, k - 1) + if pids[k - 1] in pool then 0 else 1
  }

  /** The pooled ones among the first k natives, last first. */
  ghost function PooledBefore(pids: seq<PacketId>, pool: map<PacketId, Bytes>, k: nat): seq<Bytes>
    requires k <= |pids|
  {
    if k == 0 then []
    else (if pids[k - 1] in pool then [pool[pids[k - 1]]] else []) + PooledBefore(pids, pool, k - 1)
  }

  /** Entry k is pooled, fewer than two natives before it are missing, and it is not the last of at most 255
      natives of which none is missing. */
  ghost predicate TakesOut(pids: seq<PacketId>, pool: map<PacketId, Bytes>, k: nat) {
    && k < |pids| && pids[k] in pool && MissingBefore(pids, pool, k) <= 1
    && !(k + 1 == |pids| <= 255 && MissingBefore(pids, pool, k) == 0)
  }

  /** The frame equals the XOR of the pooled ones among its first k natives. */
  ghost predicate UsedUp(pids: seq<PacketId>, pool: map<PacketId, Bytes>, frame: Bytes, k: nat)
    requires k <= |pids|
  {
    IsSumOf(frame, PooledBefore(pids, pool, k))
  }

  /** What is left of the frame before entry k. */
  ghost predicate Remains(pids: seq<PacketId>, pool: map<PacketId, Bytes>, frame: Bytes, packet: Bytes, k: nat)
    requires k <= |pids|
  {
    IsSumWith(packet, frame, PooledBefore(pids, pool, k))
  }

  lemma RemainsStep(pids: seq<PacketId>, pool: map<PacketId, Bytes>, frame: Bytes, packet: Bytes, k: nat)
    requires k < |pids| && Remains(pids, pool, frame, packet, k)
    ensures pids[k] !in pool ==> Remains(pids, pool, frame, packet, k + 1)
    ensures pids[k] in pool ==> Remains(pids, pool, frame, Xor(pool[pids[k]], packet), k + 1)
    ensures pids[k] in pool ==> (Same(pool[pids[k]], packet) <==> UsedUp(pids, pool, frame, k + 1))
  {
    var before := PooledBefore(pids, pool, k);
    if pids[k] !in pool {
      assert PooledBefore(pids, pool, k + 1) == before;
    } else {
      var own := pool[pids[k]];
      assert PooledBefore(pids, pool, k + 1) == [own] + before && ([own] + before)[1..] == before;
      forall i: nat
        ensures ByteAt(Xor(own, packet), i) == Add(ByteAt(frame, i), SumAt([own] + before, i))
        ensures ByteAt(own, i) == ByteAt(packet, i) <==> ByteAt(frame, i) == SumAt([own] + before, i)
      {
        XorBytes(own, packet, i);
        AddThree(ByteAt(own, i), ByteAt(frame, i), SumAt(before, i));
      }
    }
  }

  lemma AddThree(own: bv8, frame: bv8, before: bv8)
    ensures Add(own, Add(frame, before)) == Add(frame, Add(own, before))
    ensures own == Add(frame, before) <==> frame == Add(own, before)
  {
    hide Add;
    AddGroup(own, before, frame);
    AddAssociates(own, frame, before);
    AddAssociates(frame, own, before);
    AddCommutes(own, frame);
    AddCommutes(before, frame);
  }

  lemma {:induction false} RunsOffAfter(pids: seq<PacketId>, pool: map<PacketId, Bytes>, frame: Bytes, packet: Bytes,
                                        k: nat, missing: nat, found: nat, pid: PacketId)
    requires k <= |pids| && Remains(pids, pool, frame, packet, k)
    requires missing == MissingBefore(pids, pool, k) <= 1 && found == (k - missing) % 256
    ensures DecodedFrom(pids, pool, packet, k, missing, found, pid).RunsOff? <==>
            exists j :: k <= j < |pids| && TakesOut(pids, pool, j) && UsedUp(pids, pool, frame, j + 1)
    decreases |pids| - k
  {
    hide Remains, UsedUp, Xor, Same;
    if k == |pids| {
    } else {
      RemainsStep(pids, pool, frame, packet, k);
      if pids[k] !in pool {
        if missing == 0 {
          RunsOffAfter(pids, pool, frame, packet, k + 1, 1, found, pids[k]);
        } else {
          MissingOnlyGrows(pids, pool, k + 1);
        }
      } else {
        CountedFound(k, missing, |pids|);
        assert TakesOut(pids, pool, k) <==> (found + 1) % 256 < |pids|;
        if (found + 1) % 256 < |pids| && !Same(pool[pids[k]], packet) {
          RunsOffAfter(pids, pool, frame, Xor(pool[pids[k]], packet), k + 1, missing, (found + 1) % 256, pid);
        }
      }
    }
  }

  lemma {:induction false} MissingOnlyGrows(pids: seq<PacketId>, pool: map<PacketId, Bytes>, k: nat)
    requires k <= |pids|
    ensures forall j | k <= j <= |pids| :: MissingBefore(pids, pool, k) <= MissingBefore(pids, pool, j)
    decreases |pids| - k
  {
    if k < |pids| {
      MissingOnlyGrows(pids, pool, k + 1);
    }
  }

  /** The eight-bit counter reaches the number of natives at the last of at most 255, none of them missing. */
  lemma CountedFound(k: nat, missing: nat, n: nat)
    requires missing <= 1 && missing <= k < n
    ensures ((k - missing) % 256 + 1) % 256 == (k + 1 - missing) % 256
    ensures (k + 1 - missing) % 256 < n <==> !(k + 1 == n <= 255 && missing == 0)
  {
  }

  /** For any frame, pool and header: decoding runs off the buffer if and only if the frame equals the XOR of
      the pooled ones among its first natives, up to one that is taken out. */
  lemma RunsOffIff(pids: seq<PacketId>, pool: map<PacketId, Bytes>, frame: Bytes)
    ensures Decode(pids, pool, frame).RunsOff? <==>
            exists j :: 0 <= j < |pids| && TakesOut(pids, pool, j) && UsedUp(pids, pool, frame, j + 1)
  {
    NothingElse(frame);
    RunsOffAfter(pids, pool, frame, frame, 0, 0, 0, 0);
  }

  /** A header that starts with two missing natives is given up at once. */
  lemma TwoMissingFirst(pids: seq<PacketId>, pool: map<PacketId, Bytes>, frame: Bytes)
    requires |pids| >= 2 && pids[0] !in pool && pids[1] !in pool
    ensures Decode(pids, pool, frame) == Decoded(-1, frame)
  {
    MissingTurn(pids, pool, frame, 0, 0, 0);
  }

  // ---------- The frame Encode builds ----------

  /** Encode overwrites its frame with the XOR of the original packet and the newest partner. */
  ghost function SourceFrame(original: Bytes, partners: seq<Bytes>): Bytes
    requires partners != []
  {
    Xor(original, partners[|partners| - 1])
  }

  /** The packets XOR to zeros only. */
  ghost predicate Cancels(packets: seq<Bytes>) {
    forall i: nat :: SumAt(packets, i) == 0
  }

  lemma SumWithout(b: seq<Bytes>, k: nat, i: nat)
    requires k < |b|
    ensures SumAt(b, i) == Add(ByteAt(b[k], i), SumAt(b[..k] + b[k + 1..], i))
  {
    assert b == b[..k] + ([b[k]] + b[k + 1..]);
    SumSplits(b[..k], [b[k]] + b[k + 1..], i);
    SumSplits([b[k]], b[k + 1..], i);
    SumSplits(b[..k], b[k + 1..], i);
    assert [b[k]][1..] == [];
  }

  lemma MultisetWithout<T>(s: seq<T>, k: nat)
    requires k < |s|
    ensures multiset(s[..k] + s[k + 1..]) == multiset(s) - multiset{s[k]}
  {
    assert s == s[..k] + [s[k]] + s[k + 1..];
  }

  lemma {:induction false} SumPermutes(a: seq<Bytes>, b: seq<Bytes>, i: nat)
    requires multiset(a) == multiset(b)
    ensures SumAt(a, i) == SumAt(b, i)
    decreases |a|
  {
    hide SumAt;
    assert |multiset(a)| == |multiset(b)|;
    if a == [] {
    } else {
      assert a[0] in multiset(a);
      var k :| 0 <= k < |b| && b[k] == a[0];
      var a', b' := a[..0] + a[1..], b[..k] + b[k + 1..];
      MultisetWithout(a, 0);
      MultisetWithout(b, k);
      SumPermutes(a', b', i);
      SumWithout(a, 0, i);
      SumWithout(b, k, i);
    }
  }

  lemma SourceFrameByte(original: Bytes, front: seq<Bytes>, last: Bytes, natives: seq<Bytes>, i: nat)
    requires multiset(natives) == multiset([original] + (front + [last]))
    ensures SumAt(natives, i) == Add(ByteAt(Xor(original, last), i), SumAt(front, i))
  {
    XorBytes(original, last, i);
    SumPermutes(natives, [original] + (front + [last]), i);
    SumSplits([original], front + [last], i);
    SumSplits(front, [last], i);
    assert [original][1..] == [] && [last][1..] == [];
  }

  /** The frame is the XOR of all natives it lists if and only if the partners chosen before the last
      one cancel out; with a single partner it always is. */
  lemma SourceFrameIsSumIff(original: Bytes, partners: seq<Bytes>, natives: seq<Bytes>)
    requires partners != [] && multiset(natives) == multiset([original] + partners)
    ensures IsSumOf(SourceFrame(original, partners), natives) <==>
            Cancels(partners[..|partners| - 1])
    ensures |partners| == 1 ==> IsSumOf(SourceFrame(original, partners), natives)
  {
    var last := partners[|partners| - 1];
    var front := partners[..|partners| - 1];
    assert partners == front + [last];
    forall i: nat
      ensures ByteAt(SourceFrame(original, partners), i) == SumAt(natives, i) <==> SumAt(front, i) == 0
    {
      SourceFrameByte(original, front, last, natives, i);
    }
  }
}
