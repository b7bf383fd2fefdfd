/** The transmissions of the lower MAC with normal acknowledgements: its timers, and what it counts. */
module MacLow {
  import opened Addresses
  import opened Options
  import opened TxRatios

  /** The group bit is the least significant one of the first octet. */
  predicate IsGroup(mac: Mac48Address) {
    mac / 0x100_0000_0000 % 2 == 1
  }

  datatype Params = Params(mustWaitNormalAck: bool, mustSendRts: bool, hasNextPacket: bool)

  /** Which events are running, whether a packet is held, and the header and parameters of the current
      transmission. */
  datatype State = State(
    normalAckTimeout: bool,
    ctsTimeout: bool,
    sendData: bool,
    waitSifs: bool,
    hasPacket: bool,
    dest: Mac48Address,
    params: Params,
    ratios: seq<Tally>)

  // ---------- The handlers, on values; None where an assertion fails ----------

  function Cancelled(s: State): State {
    s.(normalAckTimeout := false, ctsTimeout := false, sendData := false, waitSifs := false)
  }

  function Counted(s: State, t: Tally): Option<State> {
    if t.Plausible() then Some(s.(ratios := Put(s.ratios, t))) else None
  }

  function WithDataTimers(s: State): Option<State> {
    if s.params.mustWaitNormalAck then if s.normalAckTimeout then None else Some(s.(normalAckTimeout := true))
    else if s.params.hasNextPacket then if s.waitSifs then None else Some(s.(waitSifs := true))
    else Some(s)
  }

  function DataSent(s: State): Option<State> {
    match WithDataTimers(s)
    case None => None
    case Some(s') => Some(s'.(hasPacket := false))
  }

  function RtsSent(s: State): Option<State> {
    if s.ctsTimeout then None else Some(s.(ctsTimeout := true))
  }

  /** A new transmission: whatever was under way is cancelled, and a send is counted unless the
      destination is a group. */
  function Started(s: State, dest: Mac48Address, params: Params): Option<State> {
    var s1 := Cancelled(s.(hasPacket := true, dest := dest)).(params := params);
    match if IsGroup(dest) || dest == BROADCAST then Some(s1) else Counted(s1, WithSend(Of(s1.ratios, dest)))
    case None => None
    case Some(s2) => if params.mustSendRts then RtsSent(s2) else DataSent(s2)
  }

  function CtsReceived(s: State): Option<State> {
    if !s.ctsTimeout || !s.hasPacket then Some(s)
    else if s.sendData then None
    else Some(s.(ctsTimeout := false, sendData := true))
  }

  function AckReceived(s: State): Option<State> {
    if !s.normalAckTimeout || !s.params.mustWaitNormalAck then Some(s)
    else
      match Counted(s, WithAck(Of(s.ratios, s.dest)))
      case None => None
      case Some(s1) =>
        var s2 := s1.(normalAckTimeout := false);
        Some(if s.params.hasNextPacket then s2.(waitSifs := true) else s2)
  }

  /** The events themselves; an event that occurs is no longer running. */
  function DataAfterCts(s: State): Option<State> {
    if !s.hasPacket then None else DataSent(s.(sendData := false))
  }

  datatype Step =
    | Start(dest: Mac48Address, params: Params)
    | ReceiveCts
    | ReceiveAck
    | SendDataAfterCts
    | CtsTimeout
    | NormalAckTimeout
    | WaitSifsAfterEndTx
    | SwitchChannel

  /** An event occurs only while it is running; a packet for a group is not acknowledged. */
  predicate Allowed(s: State, step: Step) {
    match step
    case Start(dest, params) => params.mustWaitNormalAck ==> !IsGroup(dest) && dest != BROADCAST
    case SendDataAfterCts => s.sendData
    case CtsTimeout => s.ctsTimeout
    case NormalAckTimeout => s.normalAckTimeout
    case WaitSifsAfterEndTx => s.waitSifs
    case _ => true
  }

  function Next(s: State, step: Step): Option<State> {
    match step
    case Start(dest, params) => Started(s, dest, params)
    case ReceiveCts => CtsReceived(s)
    case ReceiveAck => AckReceived(s)
    case SendDataAfterCts => DataAfterCts(s)
    case CtsTimeout => Some(s.(ctsTimeout := false, hasPacket := false))
    case NormalAckTimeout => Some(s.(normalAckTimeout := false))
    case WaitSifsAfterEndTx => Some(s.(waitSifs := false))
    case SwitchChannel => Some(Cancelled(s).(hasPacket := false))
  }

  // ---------- Acknowledgements never exceed sends ----------

  ghost predicate Expecting(s: State) {
    s.normalAckTimeout || ((s.ctsTimeout || s.sendData) && s.params.mustWaitNormalAck)
  }

  /** At most `starts` transmissions were started.  At most one event of the exchange is running; it has
      its packet; and while an acknowledgement is expected, one more packet was sent to the current
      destination than were acknowledged. */
  ghost predicate Inv(s: State, starts: nat) {
    && (forall mac :: Of(s.ratios, mac).Plausible() && Of(s.ratios, mac).sends <= starts)
    && !(s.normalAckTimeout && s.ctsTimeout) && !(s.normalAckTimeout && s.sendData) && !(s.ctsTimeout && s.sendData)
    && (s.waitSifs ==> !s.normalAckTimeout && !s.ctsTimeout && !s.sendData)
    && (s.ctsTimeout || s.sendData ==> s.hasPacket)
    && (s.normalAckTimeout ==> s.params.mustWaitNormalAck)
    && (Expecting(s) ==> Of(s.ratios, s.dest).acks < Of(s.ratios, s.dest).sends)
  }

  function Starts(step: Step): nat {
    if step.Start? then 1 else 0
  }

  lemma CountedTallies(s: State, t: Tally, limit: nat)
    requires forall mac :: Of(s.ratios, mac).Plausible() && Of(s.ratios, mac).sends <= limit
    requires t.Plausible() && t.sends <= limit
    ensures Counted(s, t).Some?
    ensures var ts := Counted(s, t).value.ratios;
            && (forall mac :: Of(ts, mac).Plausible() && Of(ts, mac).sends <= limit)
            && Of(ts, t.address) == t
  {
    forall mac
      ensures Of(Put(s.ratios, t), mac) == if mac == t.address then t else Of(s.ratios, mac)
    {
      PutOf(s.ratios, t, mac);
    }
  }

  lemma StartKeepsInv(s: State, starts: nat, dest: Mac48Address, params: Params)
    requires Inv(s, starts) && Allowed(s, Start(dest, params)) && starts + 1 < UINT32
    ensures Started(s, dest, params).Some? && Inv(Started(s, dest, params).value, starts + 1)
  {
    hide Of, Put, IsGroup;
    var s1 := Cancelled(s.(hasPacket := true, dest := dest)).(params := params);
    PlausibleIff(Of(s.ratios, dest));
    CountedTallies(s1, WithSend(Of(s.ratios, dest)), starts + 1);
  }

  lemma AckKeepsInv(s: State, starts: nat)
    requires Inv(s, starts)
    ensures AckReceived(s).Some? && Inv(AckReceived(s).value, starts)
  {
    hide Of, Put, IsGroup;
    if Expecting(s) {
      PlausibleIff(Of(s.ratios, s.dest));
      CountedTallies(s, WithAck(Of(s.ratios, s.dest)), starts);
    }
  }

  /** Every allowed step keeps the invariant, as long as fewer than 2^32 transmissions were started; in
      particular no assertion on timers, packets or counters fails. */
  lemma NextKeepsInv(s: State, starts: nat, step: Step)
    requires Inv(s, starts) && Allowed(s, step) && starts + Starts(step) < UINT32
    ensures Next(s, step).Some? && Inv(Next(s, step).value, starts + Starts(step))
  {
    hide Of, Put, IsGroup;
    match step {
      case Start(dest, params) => StartKeepsInv(s, starts, dest, params);
      case ReceiveAck => AckKeepsInv(s, starts);
      case _ =>
    }
  }

  // ---------- Whole runs ----------

  ghost function Played(s: State, steps: seq<Step>): Option<State>
    decreases |steps|
  {
    if steps == [] then Some(s)
    else if Next(s, steps[0]).None? then None
    else Played(Next(s, steps[0]).value, steps[1..])
  }

  ghost predicate Legal(s: State, steps: seq<Step>)
    decreases |steps|
  {
    steps != [] ==> Allowed(s, steps[0]) && (Next(s, steps[0]).Some? ==> Legal(Next(s, steps[0]).value, steps[1..]))
  }

  function AllStarts(steps: seq<Step>): nat {
    if steps == [] then 0 else Starts(steps[0]) + AllStarts(steps[1..])
  }

  /** Nothing is running and nothing was counted yet. */
  ghost predicate Idle(s: State) {
    !s.normalAckTimeout && !s.ctsTimeout && !s.sendData && !s.waitSifs && s.ratios == []
  }

  lemma {:induction false} PlayedKeepsInv(s: State, starts: nat, steps: seq<Step>)
    requires Inv(s, starts) && Legal(s, steps) && starts + AllStarts(steps) < UINT32
    ensures Played(s, steps).Some? && Inv(Played(s, steps).value, starts + AllStarts(steps))
    decreases |steps|
  {
    hide Inv, Next, Allowed;
    if steps == [] {
    } else {
      NextKeepsInv(s, starts, steps[0]);
      PlayedKeepsInv(Next(s, steps[0]).value, starts + Starts(steps[0]), steps[1..]);
    }
  }

  /** Over every run of fewer than 2^32 transmissions, through RTS and CTS, timeouts, cancellations and
      restarts, no destination acknowledges more packets than it was sent, no assertion fails, and while
      the acknowledgement timer runs the current destination is at least one behind. */
  lemma AcksNeverExceedSends(s: State, steps: seq<Step>)
    requires Idle(s) && Legal(s, steps) && AllStarts(steps) < UINT32
    ensures Played(s, steps).Some?
    ensures var ts := Played(s, steps).value;
            && (forall mac :: Of(ts.ratios, mac).acks <= Of(ts.ratios, mac).sends)
            && (ts.normalAckTimeout ==> Of(ts.ratios, ts.dest).acks < Of(ts.ratios, ts.dest).sends)
  {
    PlayedKeepsInv(s, 0, steps);
    hide Played, Of;
    assert forall mac :: Of(Played(s, steps).value.ratios, mac).Plausible();
  }

  /** An acknowledged transmission without trouble, with RTS and CTS or without. */
  function Exchange(dest: Mac48Address, params: Params): seq<Step> {
    [Start(dest, params)] + (if params.mustSendRts then [ReceiveCts, SendDataAfterCts] else []) + [ReceiveAck]
  }

  /** The state in which the acknowledgement of such a transmission arrives. */
  function Awaiting(s: State, dest: Mac48Address, params: Params): State {
    Cancelled(s).(params := params, dest := dest, normalAckTimeout := true, hasPacket := false,
                  ratios := if IsGroup(dest) || dest == BROADCAST then s.ratios
                    else Put(s.ratios, WithSend(Of(s.ratios, dest))))
  }

  lemma ExchangeAwaits(s: State, starts: nat, dest: Mac48Address, params: Params)
    requires Inv(s, starts) && starts + 1 < UINT32 && params.mustWaitNormalAck
    ensures Played(s, Exchange(dest, params)) == Next(Awaiting(s, dest, params), ReceiveAck)
  {
    hide Of, Put, IsGroup;
    PlausibleIff(Of(s.ratios, dest));
    var started := Next(s, Start(dest, params)).value;
    var last := [ReceiveAck];
    PlayedLast(Awaiting(s, dest, params));
    if params.mustSendRts {
      var sending := Next(started, ReceiveCts).value;
      assert Exchange(dest, params)[1..] == [ReceiveCts, SendDataAfterCts] + last;
      assert ([ReceiveCts, SendDataAfterCts] + last)[1..] == [SendDataAfterCts] + last;
      assert ([SendDataAfterCts] + last)[1..] == last;
      assert Next(sending, SendDataAfterCts) == Some(Awaiting(s, dest, params));
      assert Played(sending, [SendDataAfterCts] + last) == Played(Awaiting(s, dest, params), last);
      assert Played(started, [ReceiveCts, SendDataAfterCts] + last) == Played(sending, [SendDataAfterCts] + last);
    } else {
      assert Exchange(dest, params)[1..] == last;
      assert started == Awaiting(s, dest, params);
    }
  }

  /** A transmission that nobody acknowledges, with RTS and CTS or without. */
  function Message(dest: Mac48Address, params: Params): seq<Step> {
    [Start(dest, params)] + if params.mustSendRts then [ReceiveCts, SendDataAfterCts] else []
  }

  /** Each of its events occurs while it is running. */
  lemma ExchangeIsLegal(s: State, starts: nat, dest: Mac48Address, params: Params)
    requires Inv(s, starts) && starts + 1 < UINT32 && Allowed(s, Start(dest, params))
    ensures Legal(s, Message(dest, params)) && Legal(s, Exchange(dest, params))
  {
    hide Of, Put, IsGroup;
    StartKeepsInv(s, starts, dest, params);
    var started := Started(s, dest, params).value;
    var last := [ReceiveAck];
    assert last[1..] == [];
    if params.mustSendRts {
      RtsIsAnswered(s, starts, dest, params);
      assert Message(dest, params)[1..] == [ReceiveCts, SendDataAfterCts];
      assert [ReceiveCts, SendDataAfterCts][1..] == [SendDataAfterCts] && [SendDataAfterCts][1..] == [];
      assert Exchange(dest, params)[1..] == [ReceiveCts, SendDataAfterCts] + last;
      assert ([ReceiveCts, SendDataAfterCts] + last)[1..] == [SendDataAfterCts] + last;
      assert ([SendDataAfterCts] + last)[1..] == last;
      assert forall s' :: Legal(s', last);
      var sending := CtsReceived(started).value;
      assert Legal(sending, [SendDataAfterCts]) && Legal(sending, [SendDataAfterCts] + last);
    } else {
      assert Message(dest, params)[1..] == [] && Exchange(dest, params)[1..] == last;
    }
  }

  /** After an RTS the CTS is awaited, and once it has come the data is about to be sent. */
  lemma RtsIsAnswered(s: State, starts: nat, dest: Mac48Address, params: Params)
    requires Inv(s, starts) && starts + 1 < UINT32 && Allowed(s, Start(dest, params)) && params.mustSendRts
    ensures Started(s, dest, params).Some? && CtsReceived(Started(s, dest, params).value).Some?
    ensures var s' := CtsReceived(Started(s, dest, params).value).value; s'.sendData && s'.hasPacket && !s'.ctsTimeout
  {
    hide Of, Put, IsGroup;
    StartKeepsInv(s, starts, dest, params);
  }

  lemma PlayedLast(s: State)
    ensures Played(s, [ReceiveAck]) == Next(s, ReceiveAck)
  {
    assert [ReceiveAck][1..] == [];
  }

  /** Only the tally of one address differs, and is the given one. */
  ghost predicate OnlyTally(before: seq<Tally>, after: seq<Tally>, t: Tally) {
    forall mac :: Of(after, mac) == if mac == t.address then t else Of(before, mac)
  }

  lemma AckIsTallied(s: State)
    requires s.normalAckTimeout && s.params.mustWaitNormalAck && Of(s.ratios, s.dest).acks < Of(s.ratios, s.dest).sends
    ensures AckReceived(s).Some?
    ensures var s', t := AckReceived(s).value, Of(s.ratios, s.dest);
            && OnlyTally(s.ratios, s'.ratios, Tally(s.dest, t.sends, t.acks + 1))
            && s' == s.(normalAckTimeout := false, waitSifs := s.waitSifs || s.params.hasNextPacket,
                        ratios := s'.ratios)
  {
    hide Of, Put;
    var t := Of(s.ratios, s.dest);
    forall mac
      ensures Of(Put(s.ratios, WithAck(t)), mac) == if mac == s.dest then WithAck(t) else Of(s.ratios, mac)
    {
      PutOf(s.ratios, WithAck(t), mac);
    }
  }

  /** An expected acknowledgement ends the exchange: it is counted once, for the current destination, no timer
      runs any more, and the wait before the next packet is running exactly if there is one. */
  lemma AckEndsExchange(s: State, starts: nat)
    requires Inv(s, starts) && s.normalAckTimeout && starts < UINT32
    ensures AckReceived(s).Some?
    ensures var s', t := AckReceived(s).value, Of(s.ratios, s.dest);
            && t.acks + 1 < UINT32 && OnlyTally(s.ratios, s'.ratios, Tally(s.dest, t.sends, t.acks + 1))
            && s' == s.(normalAckTimeout := false, waitSifs := s.params.hasNextPacket, ratios := s'.ratios)
            && !Expecting(s')
  {
    hide Of, Put, IsGroup, OnlyTally, AckReceived;
    AckIsTallied(s);
  }

  /** An acknowledgement that is not expected changes nothing.  After a timeout or a change of channel none is
      expected and nothing more was counted; where it came to no answer to an RTS the packet is gone. */
  lemma LateAckIsIgnored(s: State, starts: nat, step: Step)
    requires Inv(s, starts) && Allowed(s, step) && (step.NormalAckTimeout? || step.CtsTimeout? || step.SwitchChannel?)
    ensures !s.normalAckTimeout ==> AckReceived(s) == Some(s)
    ensures Next(s, step).Some?
    ensures var s' := Next(s, step).value;
            && !Expecting(s') && s'.ratios == s.ratios && AckReceived(s') == Some(s') && CtsReceived(s') == Some(s')
            && (step.CtsTimeout? || step.SwitchChannel? ==> !s'.hasPacket)
  {
    hide Of, Put, IsGroup;
  }

  /** A transmission to a node, acknowledged in time, counts one send and one acknowledgement for it and
      nothing else, and the wait before the next packet then runs exactly if there is one. */
  lemma ExchangeCompletes(s: State, starts: nat, dest: Mac48Address, params: Params)
    requires Inv(s, starts) && starts + 1 < UINT32 && params.mustWaitNormalAck
    requires !IsGroup(dest) && dest != BROADCAST
    ensures Legal(s, Exchange(dest, params)) && Played(s, Exchange(dest, params)).Some?
    ensures var s', t := Played(s, Exchange(dest, params)).value, Of(s.ratios, dest);
            && OnlyTally(s.ratios, s'.ratios, Tally(dest, t.sends + 1, t.acks + 1))
            && s'.waitSifs == params.hasNextPacket && !Expecting(s') && !s'.hasPacket
  {
    hide Of, Put, IsGroup, Played, Exchange, Legal, AckReceived;
    ExchangeIsLegal(s, starts, dest, params);
    ExchangeAwaits(s, starts, dest, params);
    SendIsTallied(s, starts, dest);
    AckIsTallied(Awaiting(s, dest, params));
  }

  /** Such a transmission counts one send unless it goes to a group, expects nothing, and the wait before the
      next packet then runs exactly if there is one. */
  lemma MessageCompletes(s: State, starts: nat, dest: Mac48Address, params: Params)
    requires Inv(s, starts) && starts + 1 < UINT32 && !params.mustWaitNormalAck
    ensures Legal(s, Message(dest, params)) && Played(s, Message(dest, params)).Some?
    ensures var s', t := Played(s, Message(dest, params)).value, Of(s.ratios, dest);
            && (if IsGroup(dest) || dest == BROADCAST then s'.ratios == s.ratios
                else OnlyTally(s.ratios, s'.ratios, Tally(dest, t.sends + 1, t.acks)))
            && s'.waitSifs == params.hasNextPacket && !Expecting(s') && !s'.hasPacket
  {
    hide Of, Put, IsGroup, Legal;
    ExchangeIsLegal(s, starts, dest, params);
    StartKeepsInv(s, starts, dest, params);
    SendIsTallied(s, starts, dest);
    var started := Started(s, dest, params).value;
    if params.mustSendRts {
      RtsIsAnswered(s, starts, dest, params);
      var sending := CtsReceived(started).value;
      assert Message(dest, params)[1..] == [ReceiveCts, SendDataAfterCts];
      assert [ReceiveCts, SendDataAfterCts][1..] == [SendDataAfterCts] && [SendDataAfterCts][1..] == [];
      assert Played(sending, [SendDataAfterCts]) == DataAfterCts(sending);
    } else {
      assert Message(dest, params)[1..] == [];
    }
  }

  lemma SendIsTallied(s: State, starts: nat, dest: Mac48Address)
    requires Inv(s, starts) && starts + 1 < UINT32
    ensures var t := Of(s.ratios, dest);
            t.sends + 1 < UINT32 && OnlyTally(s.ratios, Put(s.ratios, WithSend(t)), Tally(dest, t.sends + 1, t.acks))
  {
    hide Of, Put;
    var t := Of(s.ratios, dest);
    assert t.Plausible() && t.sends <= starts;
    forall mac
      ensures Of(Put(s.ratios, WithSend(t)), mac) == if mac == dest then WithSend(t) else Of(s.ratios, mac)
    {
      PutOf(s.ratios, WithSend(t), mac);
    }
  }

  /** That a packet for a group is not acknowledged is what the callers must see to: from any state on,
      an acknowledged transmission passes the assertions if and only if it does not go to a group, or
      the group was sent more packets before than it acknowledged. */
  lemma GroupsMustNotAcknowledge(s: State, starts: nat, dest: Mac48Address, params: Params)
    requires Inv(s, starts) && starts + 1 < UINT32 && params.mustWaitNormalAck
    ensures Played(s, Exchange(dest, params)).Some? <==>
            (!IsGroup(dest) && dest != BROADCAST) || Of(s.ratios, dest).acks < Of(s.ratios, dest).sends
  {
    hide Of, Put, IsGroup, Played, Exchange;
    ExchangeAwaits(s, starts, dest, params);
    var t := Of(s.ratios, dest);
    PlausibleIff(t);
    PlausibleIff(WithSend(t));
    PutOf(s.ratios, WithSend(t), dest);
  }

  /** No group is ever sent a counted packet, so over every run none has a surplus: its first
      acknowledgement fails. */
  lemma {:induction false} GroupsHaveNoSurplus(s: State, steps: seq<Step>, group: Mac48Address)
    requires (IsGroup(group) || group == BROADCAST) && Of(s.ratios, group).sends == 0 && Played(s, steps).Some?
    ensures Of(Played(s, steps).value.ratios, group).sends == 0
    decreases |steps|
  {
    hide Of, Put, IsGroup;
    if steps == [] {
    } else {
      TallyOfGroup(s, steps[0], group);
      GroupsHaveNoSurplus(Next(s, steps[0]).value, steps[1..], group);
    }
  }

  lemma TallyOfGroup(s: State, step: Step, group: Mac48Address)
    requires (IsGroup(group) || group == BROADCAST) && Next(s, step).Some?
    ensures Of(Next(s, step).value.ratios, group).sends == Of(s.ratios, group).sends
  {
    hide Of, Put, IsGroup;
    if step.Start? {
      PutOf(s.ratios, WithSend(Of(s.ratios, step.dest)), group);
    } else if step.ReceiveAck? {
      PutOf(s.ratios, WithAck(Of(s.ratios, s.dest)), group);
    }
  }

  // ---------- The class ----------

  /** The same handlers on fields; each returns whether its assertions hold. */
  class MacLowTransmitter {
    var normalAckTimeout: bool
    var ctsTimeout: bool
    var sendData: bool
    var waitSifs: bool
    var hasPacket: bool
    var dest: Mac48Address
    var params: Params
    const txRatio: TxRatio

    ghost predicate Valid()
      reads this, txRatio
    {
      txRatio.Valid()
    }

    ghost function View(): State
      reads this, txRatio, txRatio.dests
    {
      State(normalAckTimeout, ctsTimeout, sendData, waitSifs, hasPacket, dest, params, txRatio.View())
    }

    constructor (dest: Mac48Address, params: Params)
      ensures Valid() && Idle(View()) && fresh(txRatio)
    {
      normalAckTimeout, ctsTimeout, sendData, waitSifs, hasPacket := false, false, false, false, false;
      this.dest, this.params := dest, params;
      txRatio := new TxRatio();
    }

    method CancelAllEvents()
      requires Valid()
      modifies this
      ensures Valid() && View() == Cancelled(old(View()))
    {
      if normalAckTimeout {
        normalAckTimeout := false;
      }
      if ctsTimeout {
        ctsTimeout := false;
      }
      if sendData {
        sendData := false;
      }
      if waitSifs {
        waitSifs := false;
      }
    }

    method StartTransmission(to: Mac48Address, transmission: Params) returns (ok: bool)
      requires Valid()
      modifies this, txRatio, txRatio.dests
      ensures match Started(old(View()), to, transmission)
              case None => !ok
              case Some(s) => ok && Valid() && View() == s
      ensures forall d | d in txRatio.dests :: d in old(txRatio.dests) || fresh(d)
    {
      hide Of, Put;
      hasPacket, dest := true, to;
      CancelAllEvents();
      params := transmission;
      if !IsGroup(dest) && dest != BROADCAST {
        ok := txRatio.AddSendTo(dest);
        if !ok {
          return;
        }
      }
      if params.mustSendRts {
        ok := SendRtsForPacket();
      } else {
        ok := SendDataPacket();
      }
    }

    method SendRtsForPacket() returns (ok: bool)
      requires Valid()
      modifies `ctsTimeout
      ensures Valid() && match RtsSent(old(View())) case None => !ok case Some(s) => ok && View() == s
    {
      ok := !ctsTimeout;
      ctsTimeout := true;
    }

    method StartDataTxTimers() returns (ok: bool)
      requires Valid()
      modifies `normalAckTimeout, `waitSifs
      ensures Valid() && match WithDataTimers(old(View())) case None => !ok case Some(s) => ok && View() == s
    {
      ok := true;
      if params.mustWaitNormalAck {
        ok := !normalAckTimeout;
        normalAckTimeout := true;
      } else if params.hasNextPacket {
        ok := !waitSifs;
        waitSifs := true;
      }
    }

    method SendDataPacket() returns (ok: bool)
      requires Valid()
      modifies `normalAckTimeout, `waitSifs, `hasPacket
      ensures Valid() && match DataSent(old(View())) case None => !ok case Some(s) => ok && View() == s
    {
      ok := StartDataTxTimers();
      hasPacket := false;
    }

    method ReceiveCts() returns (ok: bool)
      requires Valid()
      modifies `ctsTimeout, `sendData
      ensures Valid() && match CtsReceived(old(View())) case None => !ok case Some(s) => ok && View() == s
    {
      ok := true;
      if ctsTimeout && hasPacket {
        ctsTimeout := false;
        ok := !sendData;
        sendData := true;
      }
    }

    method ReceiveAck() returns (ok: bool)
      requires Valid()
      modifies this, txRatio, txRatio.dests
      ensures match AckReceived(old(View()))
              case None => !ok
              case Some(s) => ok && Valid() && View() == s
      ensures forall d | d in txRatio.dests :: d in old(txRatio.dests) || fresh(d)
    {
      hide Of, Put;
      ok := true;
      if normalAckTimeout && params.mustWaitNormalAck {
        ok := txRatio.AddAckFrom(dest);
        normalAckTimeout := false;
        if params.hasNextPacket {
          waitSifs := true;
        }
      }
    }

    /** The event that sends the data once the medium is reserved; it is no longer running then. */
    method SendDataAfterCts() returns (ok: bool)
      requires Valid() && sendData
      modifies `sendData, `normalAckTimeout, `waitSifs, `hasPacket
      ensures Valid() && match DataAfterCts(old(View())) case None => !ok case Some(s) => ok && View() == s
    {
      sendData := false;
      if !hasPacket {
        return false;
      }
      ok := SendDataPacket();
    }
  }
}
