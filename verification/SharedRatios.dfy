/** One counter of sends and acknowledgements shared, as the repository installs it, by the lower MACs of all
    interfaces and by the coding layer. */
module SharedRatios {
  import opened Addresses
  import opened Options
  import opened TxRatios
  import opened MacLow

  // ---------- What the handlers of one MAC count ----------

  datatype Count = SendTo(mac: Mac48Address) | AckFrom(mac: Mac48Address) | NoCount

  /** What a handler counts. */
  function Counts(s: State, step: Step): Count {
    match step
    case Start(dest, _) => if IsGroup(dest) || dest == BROADCAST then NoCount else SendTo(dest)
    case ReceiveAck => if s.normalAckTimeout && s.params.mustWaitNormalAck then AckFrom(s.dest) else NoCount
    case _ => NoCount
  }

  /** The counter afterwards; None where its assertion fails. */
  function After(ts: seq<Tally>, c: Count): Option<seq<Tally>> {
    match c
    case NoCount => Some(ts)
    case SendTo(mac) => if WithSend(Of(ts, mac)).Plausible() then Some(Put(ts, WithSend(Of(ts, mac)))) else None
    case AckFrom(mac) => if WithAck(Of(ts, mac)).Plausible() then Some(Put(ts, WithAck(Of(ts, mac)))) else None
  }

  /** At most one event of the exchange is running, and it has its packet. */
  ghost predicate Exclusive(s: State) {
    && !(s.normalAckTimeout && s.ctsTimeout) && !(s.normalAckTimeout && s.sendData) && !(s.ctsTimeout && s.sendData)
    && (s.waitSifs ==> !s.normalAckTimeout && !s.ctsTimeout && !s.sendData)
    && (s.ctsTimeout || s.sendData ==> s.hasPacket)
    && (s.normalAckTimeout ==> s.params.mustWaitNormalAck)
  }

  /** One if the MAC expects an acknowledgement from the address. */
  ghost function Waits(s: State, mac: Mac48Address): nat {
    if Expecting(s) && s.dest == mac then 1 else 0
  }

  ghost function Sends(c: Count, mac: Mac48Address): nat {
    if c == SendTo(mac) then 1 else 0
  }

  ghost function Acks(c: Count, mac: Mac48Address): nat {
    if c == AckFrom(mac) then 1 else 0
  }

  /** A handler stops only at the counter; what it counts pays for what it comes to expect. */
  lemma HandlerCounts(s: State, step: Step)
    requires Exclusive(s) && Allowed(s, step)
    ensures Next(s, step).Some? <==> After(s.ratios, Counts(s, step)).Some?
    ensures Next(s, step).Some? ==>
              var s' := Next(s, step).value;
              && Exclusive(s') && s'.ratios == After(s.ratios, Counts(s, step)).value
              && forall mac :: Waits(s', mac) + Acks(Counts(s, step), mac) <= Waits(s, mac)
                   + Sends(Counts(s, step), mac)
  {
    hide Of, Put, IsGroup, Exclusive, Expecting;
    match step {
      case Start(dest, params) => StartCounts(s, dest, params);
      case ReceiveAck => AckCounts(s);
      case _ => OtherCounts(s, step);
    }
  }

  lemma StartCounts(s: State, dest: Mac48Address, params: Params)
    requires Exclusive(s) && Allowed(s, Start(dest, params))
    ensures var c := Counts(s, Start(dest, params));
            && (Started(s, dest, params).Some? <==> After(s.ratios, c).Some?)
            && (Started(s, dest, params).Some? ==>
                  var s' := Started(s, dest, params).value;
                  && Exclusive(s') && s'.ratios == After(s.ratios, c).value
                  && forall mac :: Waits(s', mac) + Acks(c, mac) <= Waits(s, mac) + Sends(c, mac))
  {
    hide Of, Put, IsGroup;
  }

  lemma AckCounts(s: State)
    requires Exclusive(s)
    ensures var c := Counts(s, ReceiveAck);
            && (AckReceived(s).Some? <==> After(s.ratios, c).Some?)
            && (AckReceived(s).Some? ==>
                  var s' := AckReceived(s).value;
                  && Exclusive(s') && s'.ratios == After(s.ratios, c).value
                  && forall mac :: Waits(s', mac) + Acks(c, mac) <= Waits(s, mac) + Sends(c, mac))
  {
    hide Of, Put, IsGroup;
  }

  lemma OtherCounts(s: State, step: Step)
    requires Exclusive(s) && Allowed(s, step) && !step.Start? && !step.ReceiveAck?
    ensures Next(s, step).Some? && Exclusive(Next(s, step).value) && Next(s, step).value.ratios == s.ratios
    ensures forall mac :: Waits(Next(s, step).value, mac) <= Waits(s, mac)
  {
    hide Of, Put, IsGroup;
  }

  // ---------- All MACs and the coding layer ----------

  /** The MACs, the shared counter, and what the coding layer counted on its own account. */
  datatype Shared = Shared(macs: seq<State>, ratios: seq<Tally>, coded: seq<Tally>)

  /** A handler of one MAC; a coded frame to an address; an acknowledgement of a coded packet in a frame from
      an address. */
  datatype Event = Handler(i: nat, step: Step) | Coded(mac: Mac48Address) | Answered(mac: Mac48Address)

  /** The state of a MAC with the counter it shares. */
  function MacOf(sh: Shared, i: nat): State
    requires i < |sh.macs|
  {
    sh.macs[i].(ratios := sh.ratios)
  }

  function CodedAfter(sh: Shared, c: Count): Option<Shared> {
    match After(sh.ratios, c)
    case None => None
    case Some(ratios) =>
      match After(sh.coded, c)
      case None => Some(sh.(ratios := ratios))
      case Some(coded) => Some(sh.(ratios := ratios, coded := coded))
  }

  /** None where an assertion fails. */
  function Happened(sh: Shared, ev: Event): Option<Shared>
    requires ev.Handler? ==> ev.i < |sh.macs|
  {
    match ev
    case Handler(i, step) =>
      (match Next(MacOf(sh, i), step)
       case None => None
       case Some(s) => Some(sh.(macs := sh.macs[i := s], ratios := s.ratios)))
    case Coded(mac) => CodedAfter(sh, SendTo(mac))
    case Answered(mac) => CodedAfter(sh, AckFrom(mac))
  }

  /** Handlers run only when they may; and the coding layer has no more packets acknowledged from an address
      than it sent there. */
  ghost predicate Fair(sh: Shared, ev: Event) {
    match ev
    case Handler(i, step) => i < |sh.macs| && Allowed(MacOf(sh, i), step)
    case Coded(_) => true
    case Answered(mac) => Of(sh.coded, mac).acks < Of(sh.coded, mac).sends
  }

  ghost function Waiting(macs: seq<State>, mac: Mac48Address): nat {
    if macs == [] then 0 else Waits(macs[0], mac) + Waiting(macs[1..], mac)
  }

  lemma {:induction false} WaitingAt(macs: seq<State>, i: nat, s: State, mac: Mac48Address)
    requires i < |macs|
    ensures Waiting(macs[i := s], mac) + Waits(macs[i], mac) == Waiting(macs, mac) + Waits(s, mac)
  {
    if i == 0 {
      assert macs[i := s][1..] == macs[1..];
    } else {
      assert macs[i := s][1..] == macs[1..][i - 1 := s];
      WaitingAt(macs[1..], i - 1, s, mac);
    }
  }

  /** At every address the surplus of sends covers the acknowledgements the MACs expect and those the coding
      layer still misses. */
  ghost predicate Covered(sh: Shared, starts: nat) {
    && (forall i | 0 <= i < |sh.macs| :: Exclusive(sh.macs[i]))
    && (forall mac :: CoveredAt(sh, starts, mac))
  }

  ghost predicate CoveredAt(sh: Shared, starts: nat, mac: Mac48Address) {
    var t, c := Of(sh.ratios, mac), Of(sh.coded, mac);
    && t.sends <= starts && c.acks <= c.sends <= starts
    && t.acks + Waiting(sh.macs, mac) + (c.sends - c.acks) <= t.sends
  }

  function SendsOf(ev: Event): nat {
    match ev
    case Handler(_, step) => Starts(step)
    case Coded(_) => 1
    case Answered(_) => 0
  }

  lemma AfterOf(ts: seq<Tally>, c: Count, mac: Mac48Address)
    requires After(ts, c).Some? && Of(ts, mac).sends + 1 < UINT32 && Of(ts, mac).acks + 1 < UINT32
    ensures Of(After(ts, c).value, mac).sends == Of(ts, mac).sends + Sends(c, mac)
    ensures Of(After(ts, c).value, mac).acks == Of(ts, mac).acks + Acks(c, mac)
  {
    hide Put, Of;
    match c {
      case NoCount =>
      case SendTo(m) => PutOf(ts, WithSend(Of(ts, m)), mac);
      case AckFrom(m) => PutOf(ts, WithAck(Of(ts, m)), mac);
    }
  }

  lemma AfterSome(ts: seq<Tally>, c: Count, mac: Mac48Address)
    requires Of(ts, mac).sends + 1 < UINT32 && Of(ts, mac).acks <= Of(ts, mac).sends
    requires c.NoCount? || c == SendTo(mac) || (c == AckFrom(mac) && Of(ts, mac).acks < Of(ts, mac).sends)
    ensures After(ts, c).Some?
  {
    hide Put, Of;
    PlausibleIff(Of(ts, mac));
  }

  lemma HandlerCovered(sh: Shared, starts: nat, i: nat, step: Step)
    requires Covered(sh, starts) && Fair(sh, Handler(i, step)) && starts + Starts(step) + 1 < UINT32
    ensures Happened(sh, Handler(i, step)).Some? && Covered(Happened(sh, Handler(i, step)).value, starts + Starts(step))
  {
    hide Next, Of, Put, Allowed, Exclusive, Expecting;
    var s := MacOf(sh, i);
    var c := Counts(s, step);
    ExclusiveWith(sh.macs[i], sh.ratios);
    HandlerCounts(s, step);
    var mac := if c.NoCount? then 0 else c.mac;
    assert CoveredAt(sh, starts, mac);
    WaitsFor(sh, i, mac);
    if c.AckFrom? {
      AckIsExpected(s, step, mac);
    }
    AfterSome(sh.ratios, c, mac);
    var s' := Next(s, step).value;
    var sh' := Happened(sh, Handler(i, step)).value;
    var total := starts + Starts(step);
    forall m
      ensures CoveredAt(sh', total, m)
    {
      assert CoveredAt(sh, starts, m);
      AfterOf(sh.ratios, c, m);
      WaitingAt(sh.macs, i, s', m);
      StartIsSend(s, step, m);
    }
  }

  lemma ExclusiveWith(s: State, ratios: seq<Tally>)
    requires Exclusive(s)
    ensures Exclusive(s.(ratios := ratios)) && forall mac :: Waits(s.(ratios := ratios), mac) == Waits(s, mac)
  {
  }

  lemma {:induction false} WaitsFor(sh: Shared, i: nat, mac: Mac48Address)
    requires i < |sh.macs|
    ensures Waits(sh.macs[i], mac) <= Waiting(sh.macs, mac)
    decreases |sh.macs|
  {
    hide Waits;
    if i == 0 {
    } else {
      WaitsFor(sh.(macs := sh.macs[1..]), i - 1, mac);
    }
  }

  lemma AckIsExpected(s: State, step: Step, mac: Mac48Address)
    requires Counts(s, step) == AckFrom(mac)
    ensures Waits(s, mac) == 1
  {
  }

  lemma StartIsSend(s: State, step: Step, mac: Mac48Address)
    ensures Sends(Counts(s, step), mac) <= Starts(step)
  {
  }

  /** Every fair event leaves the surplus sufficient; no assertion fails. */
  lemma EventCovered(sh: Shared, starts: nat, ev: Event)
    requires Covered(sh, starts) && Fair(sh, ev) && starts + SendsOf(ev) + 1 < UINT32
    ensures Happened(sh, ev).Some? && Covered(Happened(sh, ev).value, starts + SendsOf(ev))
  {
    hide Next, Of, Put, Allowed, Exclusive, Waiting;
    if ev.Handler? {
      HandlerCovered(sh, starts, ev.i, ev.step);
    } else {
      var c := if ev.Coded? then SendTo(ev.mac) else AckFrom(ev.mac);
      assert CoveredAt(sh, starts, ev.mac);
      AfterSome(sh.ratios, c, ev.mac);
      AfterSome(sh.coded, c, ev.mac);
      var sh' := Happened(sh, ev).value;
      var total := starts + SendsOf(ev);
      forall m
        ensures CoveredAt(sh', total, m)
      {
        assert CoveredAt(sh, starts, m);
        AfterOf(sh.ratios, c, m);
        AfterOf(sh.coded, c, m);
      }
    }
  }

  // ---------- Whole runs ----------

  ghost predicate AllFair(sh: Shared, events: seq<Event>)
    decreases |events|
  {
    events != [] ==>
      && Fair(sh, events[0])
      && (Happened(sh, events[0]).Some? ==> AllFair(Happened(sh, events[0]).value, events[1..]))
  }

  ghost function AllHappened(sh: Shared, events: seq<Event>): Option<Shared>
    requires AllFair(sh, events)
    decreases |events|
  {
    if events == [] then Some(sh)
    else
      var o := Happened(sh, events[0]);
      if o.None? then None else AllHappened(o.value, events[1..])
  }

  function AllSends(events: seq<Event>): nat
    decreases |events|
  {
    if events == [] then 0 else SendsOf(events[0]) + AllSends(events[1..])
  }

  lemma {:induction false} RunCovered(sh: Shared, starts: nat, events: seq<Event>)
    requires Covered(sh, starts) && AllFair(sh, events) && starts + AllSends(events) + 1 < UINT32
    ensures AllHappened(sh, events).Some? && Covered(AllHappened(sh, events).value, starts + AllSends(events))
    decreases |events|
  {
    hide Covered, Happened, Allowed;
    if events == [] {
    } else {
      EventCovered(sh, starts, events[0]);
      RunCovered(Happened(sh, events[0]).value, starts + SendsOf(events[0]), events[1..]);
    }
  }

  /** Over every run of all MACs and the coding layer with fewer than 2^32 - 1 sends, acknowledgements never
      exceed sends in the shared counter and no assertion fails, as long as the coding layer has no more
      packets acknowledged from an address than it sent there. */
  lemma SharedAcksNeverExceedSends(macs: seq<State>, events: seq<Event>)
    requires forall i | 0 <= i < |macs| :: Idle(macs[i])
    requires AllFair(Shared(macs, [], []), events) && AllSends(events) + 1 < UINT32
    ensures var o := AllHappened(Shared(macs, [], []), events);
            o.Some? && forall mac :: Of(o.value.ratios, mac).acks <= Of(o.value.ratios, mac).sends
  {
    hide AllHappened, AllFair, AllSends;
    var sh := Shared(macs, [], []);
    forall mac
      ensures CoveredAt(sh, 0, mac)
    {
      NobodyWaits(macs, mac);
    }
    RunCovered(sh, 0, events);
    var sh' := AllHappened(sh, events).value;
    forall mac
      ensures Of(sh'.ratios, mac).acks <= Of(sh'.ratios, mac).sends
    {
      assert CoveredAt(sh', AllSends(events), mac);
    }
  }

  lemma {:induction false} NobodyWaits(macs: seq<State>, mac: Mac48Address)
    requires forall i | 0 <= i < |macs| :: Idle(macs[i])
    ensures Waiting(macs, mac) == 0
  {
    if macs == [] {
    } else {
      NobodyWaits(macs[1..], mac);
    }
  }

  /** An acknowledgement of a coded packet that comes in a frame from another interface of the receiver than
      the packet was sent to breaks the counter, if nothing else was sent there. */
  lemma AnswerFromElsewhere(macs: seq<State>, sent: Mac48Address, from: Mac48Address)
    ensures Happened(Shared(macs, [], []), Coded(sent)).Some?
    ensures Happened(Happened(Shared(macs, [], []), Coded(sent)).value, Answered(from)).Some? <==> sent == from
  {
    PutOf([], WithSend(Of([], sent)), from);
  }
}
