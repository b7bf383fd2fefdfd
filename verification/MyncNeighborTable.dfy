/** The neighbours as objects that are updated in place.  Pointers of a virtual queue are followed
    through the cells of the output queue. */
module MyncNeighborTable {
  import opened Addresses
  import opened Options
  import opened XorCoding
  import opened MyncQueues
  import opened MyncNeighbors
  import opened MyncProtocol

  // ---------- What the loops compute ----------

  lemma MinMacIs(pairs: seq<AddressPair>, mac: Mac48Address)
    requires exists p | p in pairs :: p.mac == mac
    requires forall p | p in pairs :: mac <= p.mac
    ensures MinMac(pairs) == mac
  {
  }

  ghost predicate Stale(p: AddressPair, t: AddressPair) {
    p.ip == t.ip || p.mac == t.mac || p.channel == t.channel
  }

  /** What the erasing loop has kept before pair i, and what will be left of the rest. */
  ghost function KeptAndCleared(pairs: seq<AddressPair>, i: nat, t: AddressPair): seq<AddressPair>
    requires i <= |pairs|
  {
    pairs[..i] + Cleared(pairs[i..], t)
  }

  /** One turn of the erasing loop, and its two ends. */
  lemma ClearedTurn(pairs: seq<AddressPair>, i: nat, t: AddressPair)
    requires i < |pairs|
    ensures Stale(pairs[i], t) ==> KeptAndCleared(pairs[..i] + pairs[i + 1..], i, t) == KeptAndCleared(pairs, i, t)
    ensures !Stale(pairs[i], t) ==> KeptAndCleared(pairs, i + 1, t) == KeptAndCleared(pairs, i, t)
  {
    assert pairs[i..][1..] == pairs[i + 1..];
    var shorter := pairs[..i] + pairs[i + 1..];
    assert shorter[..i] == pairs[..i] && shorter[i..] == pairs[i + 1..];
  }

  lemma ClearedEnds(pairs: seq<AddressPair>, t: AddressPair)
    ensures KeptAndCleared(pairs, 0, t) == Cleared(pairs, t) && KeptAndCleared(pairs, |pairs|, t) == pairs
  {
    assert pairs[0..] == pairs;
  }

  lemma {:induction false} UnlinkedFrom(cells: map<nat, Entry>, vq: seq<nat>, pid: PacketId, i: nat)
    requires i <= |vq| && forall k | 0 <= k < i :: vq[k] in cells && cells[vq[k]].pid != pid
    ensures Unlinked(cells, vq, pid) ==
            match Unlinked(cells, vq[i..], pid)
            case Fatal(r) => Fatal(r)
            case Done(rest) => Done(vq[..i] + rest)
  {
    if i > 0 {
      UnlinkedFrom(cells, vq[1..], pid, i - 1);
      assert vq[1..][i - 1..] == vq[i..];
      var r := Unlinked(cells, vq[i..], pid);
      assert r.Done? ==> [vq[0]] + (vq[1..][..i - 1] + r.value) == vq[..i] + r.value;
    } else {
      var r := Unlinked(cells, vq[0..], pid);
      assert vq[0..] == vq && (r.Done? ==> vq[..0] + r.value == r.value);
    }
  }

  // ---------- One neighbour ----------

  class MyncNeighbor {
    var pairs: seq<AddressPair>
    var virtualQueue: seq<nat>

    ghost function View(): Neighbor
      reads this
    {
      Neighbor(pairs, virtualQueue)
    }

    constructor ()
      ensures View() == Neighbor([], [])
    {
      pairs, virtualQueue := [], [];
    }

    method HasIP(ip: Ipv4Address) returns (has: bool)
      ensures has == HasIp(View(), ip)
    {
      for i := 0 to |pairs|
        invariant forall p | p in pairs[..i] :: p.ip != ip
      {
        if pairs[i].ip == ip {
          return true;
        }
      }
      return false;
    }

    method HasMAC(mac: Mac48Address) returns (has: bool)
      ensures has == HasMac(View(), mac)
    {
      for i := 0 to |pairs|
        invariant forall p | p in pairs[..i] :: p.mac != mac
      {
        if pairs[i].mac == mac {
          return true;
        }
      }
      return false;
    }

    /** The least MAC address. */
    method GetMAC() returns (mac: Mac48Address)
      ensures mac == GetMac(View())
    {
      if pairs == [] {
        return 0;
      }
      mac := pairs[0].mac;
      for i := 0 to |pairs|
        invariant exists p | p in pairs :: p.mac == mac
        invariant forall p | p in pairs[..i] :: mac <= p.mac
      {
        if pairs[i].mac < mac {
          mac := pairs[i].mac;
        }
      }
      assert pairs[..|pairs|] == pairs;
      MinMacIs(pairs, mac);
    }

    method GetChannels() returns (channels: seq<nat>)
      ensures channels == ChannelsOf(pairs)
    {
      channels := [];
      for i := 0 to |pairs|
        invariant channels == ChannelsOf(pairs[..i])
      {
        assert pairs[..i + 1][..i] == pairs[..i];
        channels := Inserted(channels, pairs[i].channel);
      }
      assert pairs[..|pairs|] == pairs;
    }

    /** The first MAC address on a channel. */
    method Index(channel: nat) returns (mac: Option<Mac48Address>)
      ensures mac == MacOn(pairs, channel)
    {
      for i := 0 to |pairs|
        invariant MacOn(pairs[i..], channel) == MacOn(pairs, channel)
      {
        if pairs[i].channel == channel {
          return Some(pairs[i].mac);
        }
      }
      return None;
    }

    method AddSoftTrinity(t: AddressPair)
      modifies this
      ensures View() == old(View()).(pairs := old(pairs) + [t])
    {
      pairs := pairs + [t];
    }

    method AddSoftTrinities(trinities: seq<AddressPair>)
      modifies this
      ensures View() == old(View()).(pairs := old(pairs) + trinities)
    {
      for k := 0 to |trinities|
        invariant View() == old(View()).(pairs := old(pairs) + trinities[..k])
      {
        AddSoftTrinity(trinities[k]);
      }
      assert trinities[..|trinities|] == trinities;
    }

    /** Erases every pair that shares an address or the channel, then appends the new one. */
    method AddTrinity(t: AddressPair)
      modifies this
      ensures View() == WithTrinity(old(View()), t) && virtualQueue == old(virtualQueue)
    {
      hide KeptAndCleared, Cleared;
      ClearedEnds(pairs, t);
      var i := 0;
      while i < |pairs|
        invariant i <= |pairs| && virtualQueue == old(virtualQueue)
        invariant KeptAndCleared(pairs, i, t) == Cleared(old(pairs), t)
        decreases |pairs| - i
      {
        ClearedTurn(pairs, i, t);
        if pairs[i].ip == t.ip || pairs[i].mac == t.mac || pairs[i].channel == t.channel {
          pairs := pairs[..i] + pairs[i + 1..];
        } else {
          i := i + 1;
        }
      }
      ClearedEnds(pairs, t);
      pairs := pairs + [t];
    }

    method AddVirtualQueueEntry(cells: map<nat, Entry>, ptr: nat, front: bool) returns (r: Outcome<()>)
      modifies this
      ensures match Pushed(cells, old(virtualQueue), ptr, front)
              case Fatal(reason) => r == Fatal(reason)
              case Done(vq) => r == Done(()) && View() == old(View()).(virtualQueue := vq)
    {
      if ptr !in cells || exists p | p in virtualQueue :: p !in cells {
        return Fatal(Dangling);
      }
      for i := 0 to |virtualQueue|
        invariant View() == old(View())
        invariant forall p | p in virtualQueue[..i] :: cells[p].pid != cells[ptr].pid
      {
        if cells[virtualQueue[i]].pid == cells[ptr].pid {
          return Fatal(DuplicateInVirtualQueue);
        }
      }
      assert virtualQueue[..|virtualQueue|] == virtualQueue;
      if front {
        virtualQueue := [ptr] + virtualQueue;
      } else {
        virtualQueue := virtualQueue + [ptr];
      }
      return Done(());
    }

    method RemoveVirtualQueueEntry(cells: map<nat, Entry>, pid: PacketId) returns (r: Outcome<()>)
      modifies this
      ensures match Unlinked(cells, old(virtualQueue), pid)
              case Fatal(reason) => r == Fatal(reason)
              case Done(vq) => r == Done(()) && View() == old(View()).(virtualQueue := vq)
    {
      for i := 0 to |virtualQueue|
        invariant View() == old(View())
        invariant forall k | 0 <= k < i :: virtualQueue[k] in cells && cells[virtualQueue[k]].pid != pid
      {
        UnlinkedFrom(cells, virtualQueue, pid, i);
        if virtualQueue[i] !in cells {
          return Fatal(Dangling);
        }
        if cells[virtualQueue[i]].pid == pid {
          assert virtualQueue[i..][1..] == virtualQueue[i + 1..];
          virtualQueue := virtualQueue[..i] + virtualQueue[i + 1..];
          return Done(());
        }
      }
      UnlinkedFrom(cells, virtualQueue, pid, |virtualQueue|);
      return Fatal(NotInVirtualQueue);
    }

    method RemoveFront() returns (ptr: nat)
      requires virtualQueue != []
      modifies this
      ensures ptr == old(virtualQueue)[0] && View() == old(View()).(virtualQueue := old(virtualQueue)[1..])
    {
      ptr := virtualQueue[0];
      virtualQueue := virtualQueue[1..];
    }

    /** Takes over the virtual queue of another neighbour, entry by entry. */
    method TakeOver(cells: map<nat, Entry>, other: MyncNeighbor) returns (r: Outcome<()>)
      requires other != this
      modifies this, other
      ensures match MovedOver(cells, old(other.virtualQueue), old(virtualQueue))
              case Fatal(reason) => r == Fatal(reason)
              case Done(vq) =>
                && r == Done(()) && View() == old(View()).(virtualQueue := vq)
                && other.pairs == old(other.pairs)
    {
      while other.virtualQueue != []
        invariant pairs == old(pairs) && other.pairs == old(other.pairs)
        invariant MovedOver(cells, other.virtualQueue, virtualQueue)
                    == MovedOver(cells, old(other.virtualQueue), old(virtualQueue))
        decreases |other.virtualQueue|
      {
        hide Pushed;
        var ptr := other.RemoveFront();
        r := AddVirtualQueueEntry(cells, ptr, false);
        if r.Fatal? {
          return;
        }
      }
      return Done(());
    }
  }

  // ---------- The table ----------

  class NeighborTable {
    var neighbors: seq<MyncNeighbor>

    ghost predicate Valid()
      reads this
    {
      forall i, j | 0 <= i < j < |neighbors| :: neighbors[i] != neighbors[j]
    }

    ghost function Members(): (m: set<MyncNeighbor>)
      reads this
    {
      set n | n in neighbors
    }

    ghost function View(): (v: seq<Neighbor>)
      reads this, neighbors
      ensures |v| == |neighbors| && forall i | 0 <= i < |neighbors| :: v[i] == neighbors[i].View()
    {
      seq(|neighbors|, i requires 0 <= i < |neighbors| reads this, neighbors => neighbors[i].View())
    }

    constructor ()
      ensures Valid() && View() == []
    {
      neighbors := [];
    }

    method SearchNeighborByIP(ip: Ipv4Address) returns (pos: nat)
      ensures pos == SearchIp(View(), ip)
    {
      pos := 0;
      while pos < |neighbors|
        invariant pos <= |neighbors| && forall k | 0 <= k < pos :: !HasIp(View()[k], ip)
      {
        var found := neighbors[pos].HasIP(ip);
        if found {
          return;
        }
        pos := pos + 1;
      }
    }

    method SearchNeighborByMAC(mac: Mac48Address) returns (pos: nat)
      ensures pos == SearchMac(View(), mac)
    {
      pos := 0;
      while pos < |neighbors|
        invariant pos <= |neighbors| && forall k | 0 <= k < pos :: !HasMac(View()[k], mac)
      {
        var found := neighbors[pos].HasMAC(mac);
        if found {
          return;
        }
        pos := pos + 1;
      }
    }

    static method SharesAddress(a: MyncNeighbor, b: MyncNeighbor) returns (share: bool)
      ensures share == ShareAddress(a.View(), b.View())
    {
      for i := 0 to |a.pairs|
        invariant forall p | p in a.pairs[..i] :: p.ip == ANY || !HasIp(b.View(), p.ip)
      {
        if a.pairs[i].ip != ANY {
          var found := b.HasIP(a.pairs[i].ip);
          if found {
            return true;
          }
        }
      }
      for i := 0 to |a.pairs|
        invariant forall p | p in a.pairs[..i] :: !HasMac(b.View(), p.mac)
      {
        var found := b.HasMAC(a.pairs[i].mac);
        if found {
          return true;
        }
      }
      assert a.pairs[..|a.pairs|] == a.pairs;
      return false;
    }

    method AddNeighbor(n: MyncNeighbor) returns (added: bool)
      requires Valid() && n !in Members()
      modifies this
      ensures Valid() && View() == Added(old(View()), n.View())
      ensures neighbors == if added then old(neighbors) + [n] else old(neighbors)
    {
      for i := 0 to |neighbors|
        invariant neighbors == old(neighbors)
        invariant forall k | 0 <= k < i :: !ShareAddress(n.View(), View()[k])
      {
        var share := SharesAddress(n, neighbors[i]);
        if share {
          assert View()[i] in View();
          return false;
        }
      }
      assert forall other | other in View() :: !ShareAddress(n.View(), other);
      neighbors := neighbors + [n];
      return true;
    }

    method RemoveNeighbor(i: nat)
      requires Valid() && i < |neighbors|
      modifies this
      ensures Valid() && View() == Without(old(View()), i) && neighbors == old(neighbors[..i] + neighbors[i + 1..])
    {
      neighbors := neighbors[..i] + neighbors[i + 1..];
    }

    /** Puts a pointer into the virtual queue of the neighbour with the given address. */
    method LinkEntry(cells: map<nat, Entry>, ptr: nat, dest: Mac48Address, front: bool) returns (r: Outcome<()>)
      requires Valid()
      modifies Members()
      ensures Valid() && neighbors == old(neighbors)
      ensures match Linked(cells, old(View()), ptr, dest, front)
              case Fatal(reason) => r == Fatal(reason)
              case Done(ns) => r == Done(()) && View() == ns
    {
      hide Pushed;
      var pos := SearchNeighborByMAC(dest);
      if pos == |neighbors| {
        return Fatal(NoNeighbor);
      }
      r := neighbors[pos].AddVirtualQueueEntry(cells, ptr, front);
    }

    /** Moves the virtual queue of neighbour i, if there is one, over and removes the neighbour. */
    method Absorb(cells: map<nat, Entry>, i: nat, into: MyncNeighbor) returns (r: Outcome<()>)
      requires Valid() && i <= |neighbors| && into !in Members()
      modifies this, Members(), into
      ensures match Absorbed(cells, old(Assembly(View(), into.View())), i)
              case Fatal(reason) => r == Fatal(reason)
              case Done(a) => r == Done(()) && Valid() && Assembly(View(), into.View()) == a
      ensures Members() <= old(Members())
    {
      if i == |neighbors| {
        return Done(());
      }
      hide MovedOver;
      r := into.TakeOver(cells, neighbors[i]);
      if r.Done? {
        RemoveNeighbor(i);
        assert View() == old(Without(View(), i));
      }
    }

    method NeighborLearn(cells: map<nat, Entry>, hello: seq<AddressPair>) returns (r: Outcome<()>)
      requires Valid()
      modifies this, Members()
      ensures match LearnedTable(cells, old(View()), hello)
              case Fatal(reason) => r == Fatal(reason)
              case Done(ns) => r == Done(()) && Valid() && View() == ns
      ensures fresh(Members() - old(Members()))
    {
      hide Absorbed, Added, WithTrinity, SearchIp, SearchMac;
      var pairNum := |hello| % 256;
      if pairNum == 0 {
        return Done(());
      }
      var neighbor := new MyncNeighbor();
      ghost var listed := hello[..pairNum];
      ghost var start := Assembly(View(), neighbor.View());
      for i := 0 to pairNum
        invariant Valid() && fresh(neighbor) && neighbor !in Members()
        invariant Members() <= old(Members())
        invariant LearnedPairs(cells, Assembly(View(), neighbor.View()), listed[i..])
                    == LearnedPairs(cells, start, listed)
      {
        r := LearnPair(cells, hello[i], neighbor);
        if r.Fatal? {
          return;
        }
        assert listed[i..][1..] == listed[i + 1..];
      }
      var added := AddNeighbor(neighbor);
      return Done(());
    }

    method LearnPair(cells: map<nat, Entry>, pair: AddressPair, neighbor: MyncNeighbor) returns (r: Outcome<()>)
      requires Valid() && neighbor !in Members()
      modifies this, Members(), neighbor
      ensures match LearnedPair(cells, old(Assembly(View(), neighbor.View())), pair)
              case Fatal(reason) => r == Fatal(reason)
              case Done(a) => r == Done(()) && Valid() && Assembly(View(), neighbor.View()) == a
      ensures Members() <= old(Members())
    {
      hide Absorbed, WithTrinity;
      var searchMac := SearchNeighborByMAC(pair.mac);
      r := Absorb(cells, searchMac, neighbor);
      if r.Fatal? {
        return;
      }
      var searchIp := SearchNeighborByIP(pair.ip);
      r := Absorb(cells, searchIp, neighbor);
      if r.Fatal? {
        return;
      }
      neighbor.AddTrinity(pair);
    }

    method AddSender(t: AddressPair) returns (added: bool)
      requires Valid()
      modifies this
      ensures var n := Neighbor([t], []);
              && Valid() && added == !(exists other | other in old(View()) :: ShareAddress(n, other))
              && View() == if added then old(View()) + [n] else old(View())
      ensures fresh(Members() - old(Members()))
    {
      var neighbor := new MyncNeighbor();
      neighbor.AddTrinity(t);
      assert neighbor.View() == Neighbor([t], []);
      added := AddNeighbor(neighbor);
    }

    /** A neighbour for a destination not seen before, with its first packet. */
    method AddReceiver(cells: map<nat, Entry>, t: AddressPair, ptr: nat)
      requires Valid() && ptr in cells
      modifies this
      ensures Valid() && View() == Added(old(View()), Neighbor([t], [ptr]))
      ensures fresh(Members() - old(Members()))
    {
      hide Added;
      var tmp := new MyncNeighbor();
      tmp.AddTrinity(t);
      var added := tmp.AddVirtualQueueEntry(cells, ptr, false);
      assert tmp.View() == Neighbor([t], [ptr]);
      hide WithTrinity, Pushed;
      var isNew := AddNeighbor(tmp);
    }

    /** Merges neighbour j, brought up to date, into neighbour i. */
    method Merge(cells: map<nat, Entry>, i: nat, j: nat, t: AddressPair) returns (r: Outcome<()>)
      requires Valid() && i < |neighbors| && j < |neighbors| && i != j
      modifies this, Members()
      ensures var (a, b) := old((View()[i], View()[j]));
              match MovedOver(cells, b.virtualQueue, a.virtualQueue)
              case Fatal(reason) => r == Fatal(reason)
              case Done(vq) =>
                && r == Done(()) && Valid()
                && View() == Without(old(View())[i := Neighbor(a.pairs + WithTrinity(b, t).pairs, vq)], j)
      ensures Members() <= old(Members())
    {
      hide WithTrinity, MovedOver;
      r := MoveInto(cells, neighbors[i], neighbors[j], t);
      if r.Done? {
        ghost var merged := old(View())[i := neighbors[i].View()];
        RemoveNeighbor(j);
        assert View() == Without(merged, j);
      }
    }

    static method MoveInto(cells: map<nat, Entry>, into: MyncNeighbor, other: MyncNeighbor,
                           t: AddressPair) returns (r: Outcome<()>)
      requires into != other
      modifies into, other
      ensures match MovedOver(cells, old(other.virtualQueue), old(into.virtualQueue))
              case Fatal(reason) => r == Fatal(reason)
              case Done(vq) =>
                && r == Done(())
                && into.View() == Neighbor(old(into.pairs) + WithTrinity(old(other.View()), t).pairs, vq)
    {
      hide WithTrinity, MovedOver;
      other.AddTrinity(t);
      into.AddSoftTrinities(other.pairs);
      r := into.TakeOver(cells, other);
    }

    method Extend(i: nat, t: AddressPair)
      requires Valid() && i < |neighbors|
      modifies Members()
      ensures Valid() && neighbors == old(neighbors)
      ensures View() == old(View())[i := old(View()[i].(pairs := View()[i].pairs + [t]))]
    {
      neighbors[i].AddSoftTrinity(t);
    }

    method BringUpToDate(i: nat, t: AddressPair)
      requires Valid() && i < |neighbors|
      modifies Members()
      ensures Valid() && neighbors == old(neighbors)
      ensures View() == old(View())[i := WithTrinity(old(View()[i]), t)]
    {
      hide WithTrinity;
      neighbors[i].AddTrinity(t);
    }

    /** Finds, extends, merges or makes the neighbour that a frame came from. */
    method SMNeighbors(cells: map<nat, Entry>, t: AddressPair) returns (r: Outcome<nat>)
      requires Valid()
      modifies this, Members()
      ensures match Recognized(cells, old(View()), t)
              case Fatal(reason) => r == Fatal(reason)
              case Done(ns) =>
                && Valid() && View() == ns
                && r == if SearchIp(ns, t.ip) < |ns| then Done(SearchIp(ns, t.ip)) else Fatal(NoNeighbor)
      ensures fresh(Members() - old(Members()))
    {
      hide WithTrinity, MovedOver, Recognized, Members, Valid;
      var searched := Recognize(cells, t);
      if searched.Fatal? {
        return Fatal(searched.reason);
      }
      var pos := SearchNeighborByIP(t.ip);
      return if pos < |neighbors| then Done(pos) else Fatal(NoNeighbor);
    }

    method Recognize(cells: map<nat, Entry>, t: AddressPair) returns (r: Outcome<()>)
      requires Valid()
      modifies this, Members()
      ensures match Recognized(cells, old(View()), t)
              case Fatal(reason) => r == Fatal(reason)
              case Done(ns) => r == Done(()) && Valid() && View() == ns
      ensures fresh(Members() - old(Members()))
    {
      hide WithTrinity, MovedOver, ShareAddress, SearchIp, SearchMac, HasIp, HasMac;
      var searchIp := SearchNeighborByIP(t.ip);
      var searchMac := SearchNeighborByMAC(t.mac);
      r := Done(());
      if searchIp < |neighbors| && searchMac == |neighbors| {
        Extend(searchIp, t);
      } else if searchIp == |neighbors| && searchMac < |neighbors| {
        BringUpToDate(searchMac, t);
      } else if searchIp < |neighbors| && searchMac < |neighbors| {
        if searchIp != searchMac {
          r := Merge(cells, searchIp, searchMac, t);
        }
      } else {
        var added := AddSender(t);
        if !added {
          return Fatal(CannotAddNeighbor);
        }
      }
    }
  }
}
