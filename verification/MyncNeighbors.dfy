/** The neighbour table of the coding layer: which addresses belong together, and the virtual queue
    of pointers to the packets each neighbour is to receive. */
module MyncNeighbors {
  import opened Addresses
  import opened Options

  /** An interface of a neighbour; its IP address may not be known yet. */
  datatype AddressPair = AddressPair(ip: Ipv4Address, mac: Mac48Address, channel: nat)

  datatype Neighbor = Neighbor(pairs: seq<AddressPair>, virtualQueue: seq<nat>)

  // ---------- The operations on values ----------

  predicate HasMac(n: Neighbor, mac: Mac48Address) {
    exists p | p in n.pairs :: p.mac == mac
  }

  predicate HasIp(n: Neighbor, ip: Ipv4Address) {
    exists p | p in n.pairs :: p.ip == ip
  }

  /** The first neighbour with the address, or the number of neighbours. */
  function SearchMac(ns: seq<Neighbor>, mac: Mac48Address): (i: nat)
    ensures i <= |ns| && (i < |ns| ==> HasMac(ns[i], mac))
    ensures forall j | 0 <= j < i :: !HasMac(ns[j], mac)
  {
    if ns == [] || HasMac(ns[0], mac) then 0 else 1 + SearchMac(ns[1..], mac)
  }

  function SearchIp(ns: seq<Neighbor>, ip: Ipv4Address): (i: nat)
    ensures i <= |ns| && (i < |ns| ==> HasIp(ns[i], ip))
    ensures forall j | 0 <= j < i :: !HasIp(ns[j], ip)
  {
    if ns == [] || HasIp(ns[0], ip) then 0 else 1 + SearchIp(ns[1..], ip)
  }

  /** Drops every pair that shares an address or the channel with t. */
  function Cleared(pairs: seq<AddressPair>, t: AddressPair): (r: seq<AddressPair>)
    ensures forall p :: p in r <==> p in pairs && p.ip != t.ip && p.mac != t.mac && p.channel != t.channel
  {
    if pairs == [] then []
    else if pairs[0].ip == t.ip || pairs[0].mac == t.mac || pairs[0].channel == t.channel then Cleared(pairs[1..], t)
    else [pairs[0]] + Cleared(pairs[1..], t)
  }

  function WithTrinity(n: Neighbor, t: AddressPair): (r: Neighbor)
    ensures r.virtualQueue == n.virtualQueue
  {
    n.(pairs := Cleared(n.pairs, t) + [t])
  }

  /** The least MAC address, by which what a neighbour holds is recorded. */
  function MinMac(pairs: seq<AddressPair>): (mac: Mac48Address)
    ensures pairs != [] ==> exists p | p in pairs :: p.mac == mac
    ensures forall p | p in pairs :: mac <= p.mac
  {
    if pairs == [] then 0
    else if |pairs| == 1 then pairs[0].mac
    else
      var rest := MinMac(pairs[1..]);
      if pairs[0].mac < rest then pairs[0].mac else rest
  }

  function GetMac(n: Neighbor): Mac48Address {
    MinMac(n.pairs)
  }

  /** Inserts into an ascending list without repetitions. */
  function Inserted(s: seq<nat>, x: nat): (r: seq<nat>)
    ensures forall y :: y in r <==> y == x || y in s
  {
    if s == [] || x < s[0] then [x] + s
    else if x == s[0] then s
    else [s[0]] + Inserted(s[1..], x)
  }

  function ChannelsOf(pairs: seq<AddressPair>): (r: seq<nat>)
    ensures forall c :: c in r <==> exists p | p in pairs :: p.channel == c
  {
    if pairs == [] then [] else Inserted(ChannelsOf(pairs[..|pairs| - 1]), pairs[|pairs| - 1].channel)
  }

  /** The first MAC address on a channel. */
  function MacOn(pairs: seq<AddressPair>, channel: nat): (r: Option<Mac48Address>)
    ensures r.Some? <==> exists p | p in pairs :: p.channel == channel
    ensures r.Some? ==> exists p | p in pairs :: p.channel == channel && p.mac == r.value
  {
    if pairs == [] then None
    else if pairs[0].channel == channel then Some(pairs[0].mac)
    else MacOn(pairs[1..], channel)
  }

  lemma {:induction false} MacOnIsFirst(pairs: seq<AddressPair>, k: nat)
    requires k < |pairs| && forall j | 0 <= j < k :: pairs[j].channel != pairs[k].channel
    ensures MacOn(pairs, pairs[k].channel) == Some(pairs[k].mac)
  {
    if k > 0 {
      MacOnIsFirst(pairs[1..], k - 1);
    }
  }

  function Intersection(a: seq<nat>, b: seq<nat>): (r: seq<nat>)
    ensures forall c :: c in r <==> c in a && c in b
  {
    if a == [] then [] else if a[0] in b then [a[0]] + Intersection(a[1..], b) else Intersection(a[1..], b)
  }

  /** Two neighbours share an address, the unknown IP address aside. */
  predicate ShareAddress(a: Neighbor, b: Neighbor) {
    (exists p | p in a.pairs :: p.ip != ANY && HasIp(b, p.ip)) || (exists p | p in a.pairs :: HasMac(b, p.mac))
  }

  function Added(ns: seq<Neighbor>, n: Neighbor): seq<Neighbor> {
    if exists other | other in ns :: ShareAddress(n, other) then ns else ns + [n]
  }

  function Without(ns: seq<Neighbor>, i: nat): seq<Neighbor>
    requires i < |ns|
  {
    ns[..i] + ns[i + 1..]
  }
}
