/** How many packets were sent to each destination, and how many of them it acknowledged. */
module TxRatios {
  import opened Addresses

  const UINT32 := 0x1_0000_0000

  type Count = c: nat | c < UINT32

  datatype Tally = Tally(address: Mac48Address, sends: Count, acks: Count) {
    /** What the source asserts after every change. */
    predicate Plausible() {
      acks <= sends
    }
  }

  // ---------- The tallies, on values ----------

  function WithSend(t: Tally): Tally {
    t.(sends := (t.sends + 1) % UINT32)
  }

  function WithAck(t: Tally): Tally {
    t.(acks := (t.acks + 1) % UINT32)
  }

  /** The first tally of an address, or a new one. */
  function Of(ts: seq<Tally>, mac: Mac48Address): (t: Tally)
    ensures t.address == mac
  {
    if ts == [] then Tally(mac, 0, 0) else if ts[0].address == mac then ts[0] else Of(ts[1..], mac)
  }

  /** Replaces the first tally of an address, or adds one at the end. */
  function Put(ts: seq<Tally>, t: Tally): seq<Tally> {
    if ts == [] then [t] else if ts[0].address == t.address then [t] + ts[1..] else [ts[0]] + Put(ts[1..], t)
  }

  lemma {:induction false} PutOf(ts: seq<Tally>, t: Tally, mac: Mac48Address)
    ensures Of(Put(ts, t), mac) == if mac == t.address then t else Of(ts, mac)
  {
    if ts == [] {
    } else {
      PutOf(ts[1..], t, mac);
      if ts[0].address == t.address {
        assert ([t] + ts[1..])[1..] == ts[1..];
      } else {
        assert ([ts[0]] + Put(ts[1..], t))[1..] == Put(ts[1..], t);
      }
    }
  }

  lemma {:induction false} PutAt(ts: seq<Tally>, t: Tally, i: nat)
    requires i <= |ts| && forall k | 0 <= k < i :: ts[k].address != t.address
    requires i < |ts| ==> ts[i].address == t.address
    ensures Put(ts, t) == if i < |ts| then ts[i := t] else ts + [t]
    ensures Of(ts, t.address) == if i < |ts| then ts[i] else Tally(t.address, 0, 0)
  {
    if i == 0 {
    } else {
      assert ts[0].address != t.address && ts == [ts[0]] + ts[1..];
      PutAt(ts[1..], t, i - 1);
    }
  }

  /** The assertion holds after a send if and only if the 32-bit counter of sends does not wrap, or no
      acknowledgement was counted; and after an acknowledgement if and only if fewer were counted than
      sends, or the counter of acknowledgements wraps. */
  lemma PlausibleIff(t: Tally)
    requires t.Plausible()
    ensures WithSend(t).Plausible() <==> t.sends + 1 < UINT32 || t.acks == 0
    ensures WithAck(t).Plausible() <==> t.acks < t.sends || t.acks + 1 == UINT32
  {
  }

  // ---------- The classes ----------

  class DestTxRatio {
    const address: Mac48Address
    var sends: Count
    var acks: Count

    ghost function View(): Tally
      reads this
    {
      Tally(address, sends, acks)
    }

    constructor (mac: Mac48Address)
      ensures View() == Tally(mac, 0, 0)
    {
      address, sends, acks := mac, 0, 0;
    }

    /** Returns whether the assertion holds. */
    method AddSend() returns (ok: bool)
      modifies this
      ensures View() == WithSend(old(View())) && ok == View().Plausible()
    {
      sends := (sends + 1) % UINT32;
      ok := sends >= acks;
    }

    method AddAck() returns (ok: bool)
      modifies this
      ensures View() == WithAck(old(View())) && ok == View().Plausible()
    {
      acks := (acks + 1) % UINT32;
      ok := sends >= acks;
    }
  }

  class TxRatio {
    var dests: seq<DestTxRatio>

    ghost function View(): (ts: seq<Tally>)
      reads this, dests
      ensures |ts| == |dests| && forall i | 0 <= i < |ts| :: ts[i] == dests[i].View()
    {
      seq(|dests|, i requires 0 <= i < |dests| reads this, dests => dests[i].View())
    }

    ghost predicate Valid()
      reads this
    {
      forall i, j | 0 <= i < j < |dests| :: dests[i] != dests[j]
    }

    constructor ()
      ensures Valid() && View() == []
    {
      dests := [];
    }

    method AddSendTo(mac: Mac48Address) returns (ok: bool)
      requires Valid()
      modifies this, dests
      ensures Valid() && (forall d | d in dests :: d in old(dests) || fresh(d))
      ensures var t := WithSend(Of(old(View()), mac)); View() == Put(old(View()), t) && ok == t.Plausible()
    {
      ghost var ts := View();
      for i := 0 to |dests|
        invariant dests == old(dests) && View() == ts
        invariant forall k | 0 <= k < i :: ts[k].address != mac
      {
        if dests[i].address == mac {
          PutAt(ts, WithSend(ts[i]), i);
          ok := dests[i].AddSend();
          return;
        }
      }
      PutAt(ts, WithSend(Tally(mac, 0, 0)), |ts|);
      var dest := new DestTxRatio(mac);
      ok := dest.AddSend();
      dests := dests + [dest];
    }

    method AddAckFrom(mac: Mac48Address) returns (ok: bool)
      requires Valid()
      modifies this, dests
      ensures Valid() && (forall d | d in dests :: d in old(dests) || fresh(d))
      ensures var t := WithAck(Of(old(View()), mac)); View() == Put(old(View()), t) && ok == t.Plausible()
    {
      ghost var ts := View();
      for i := 0 to |dests|
        invariant dests == old(dests) && View() == ts
        invariant forall k | 0 <= k < i :: ts[k].address != mac
      {
        if dests[i].address == mac {
          PutAt(ts, WithAck(ts[i]), i);
          ok := dests[i].AddAck();
          return;
        }
      }
      PutAt(ts, WithAck(Tally(mac, 0, 0)), |ts|);
      var dest := new DestTxRatio(mac);
      ok := dest.AddAck();
      dests := dests + [dest];
    }
  }
}
