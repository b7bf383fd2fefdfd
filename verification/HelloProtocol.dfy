/** The flooding of hellos among all nodes, as a state machine.  Which copies of a frame arrive, at
    whom and in what order is left open. */
module HelloProtocol {
  import opened Addresses
  import opened Metrics
  import opened LinkState
  import opened Options

  /** What a hello says, whoever relays it. */
  datatype Report = Report(address: Ipv4Address, time: nat, pairs: seq<NFPair>)

  /** A frame on its way from `via` to `to`; `hops` counts how often it was relayed. */
  datatype Copy = Copy(via: Ipv4Address, to: Ipv4Address, hello: Hello, hops: nat)

  /** The databases of all nodes and the frames in flight.  The last three components record
      history: what was broadcast, what each node has taken in, and whom it heard directly. */
  datatype System = System(
    maxTTL: nat,
    dbs: map<Ipv4Address, seq<NodeState>>,
    inflight: seq<Copy>,
    sent: set<Report>,
    heard: map<Ipv4Address, set<Report>>,
    direct: set<(Ipv4Address, Ipv4Address)>)

  datatype Step =
    | Measure(at: Ipv4Address, neighbor: Ipv4Address, metric: NFMetric)
    | Broadcast(at: Ipv4Address, time: nat, receivers: seq<Ipv4Address>)
    | Deliver(index: nat, receivers: seq<Ipv4Address>)
    | Lose(index: nat)
    | NeighborExpires(at: Ipv4Address, neighbor: Ipv4Address)

  function ReportOf(hello: Hello): Report {
    Report(hello.address, hello.time, hello.pairs)
  }

  /** Every node starts out knowing itself only. */
  function Start(nodes: set<Ipv4Address>, maxTTL: nat): System {
    System(maxTTL, map a | a in nodes :: [NodeState(a, 0, [], false)], [], {}, map a | a in nodes :: {}, {})
  }

  /** One copy per receiver. */
  function Copies(via: Ipv4Address, hello: Hello, hops: nat, receivers: seq<Ipv4Address>): (r: seq<Copy>)
    ensures |r| == |receivers|
  {
    seq(|receivers|, i requires 0 <= i < |receivers| => Copy(via, receivers[i], hello, hops))
  }

  /** What the receiver of a frame passes on: nothing once the TTL is used up. */
  function Relayed(hello: Hello): Option<Hello> {
    if hello.ttl > 0 then Some(hello.(ttl := hello.ttl - 1, original := false)) else None
  }

  function Forwarded(c: Copy, receivers: seq<Ipv4Address>): seq<Copy> {
    match Relayed(c.hello)
    case None => []
    case Some(hello) => Copies(c.to, hello, c.hops + 1, receivers)
  }

  function Removed(s: seq<Copy>, k: nat): seq<Copy>
    requires k < |s|
  {
    s[..k] + s[k + 1..]
  }

  function WithNeighbor(nodes: seq<NodeState>, address: Ipv4Address, flag: bool): seq<NodeState> {
    var i := IndexOf(nodes, address);
    if i < |nodes| then nodes[i := nodes[i].(neighbor := flag)] else nodes
  }

  /** The database after a hello from another node. */
  function TakenIn(nodes: seq<NodeState>, hello: Hello): seq<NodeState> {
    var updated := Updated(nodes, hello);
    if hello.original then WithNeighbor(updated, hello.address, true) else updated
  }

  /** Frames only travel between nodes that exist. */
  ghost predicate Wired(s: System) {
    s.heard.Keys == s.dbs.Keys && forall c | c in s.inflight :: c.to in s.dbs
  }

  /** Hello times of one origin strictly increase. */
  ghost predicate Enabled(s: System, step: Step) {
    && Wired(s)
    && match step
    case Measure(at, _, _) => at in s.dbs
    case Broadcast(at, time, receivers) =>
      && at in s.dbs && (forall r | r in receivers :: r in s.dbs)
      && (forall r | r in s.sent && r.address == at :: r.time < time)
    case Deliver(index, receivers) => index < |s.inflight| && forall r | r in receivers :: r in s.dbs
    case Lose(index) => index < |s.inflight|
    case NeighborExpires(at, _) => at in s.dbs
  }

  function Self(nodes: seq<NodeState>, at: Ipv4Address): seq<NFPair> {
    var i := IndexOf(nodes, at);
    if i < |nodes| then nodes[i].pairs else []
  }

  function Next(s: System, step: Step): System
    requires Enabled(s, step)
  {
    match step
    case Measure(at, neighbor, metric) =>
      var nodes := s.dbs[at];
      var i := IndexOf(nodes, at);
      if i == |nodes| then s
      else s.(dbs := s.dbs[at := nodes[i := nodes[i].(pairs := WithMetric(nodes[i].pairs, neighbor, metric))]])
    case Broadcast(at, time, receivers) =>
      var hello := Hello(at, time, Self(s.dbs[at], at), s.maxTTL, true);
      s.(inflight := s.inflight + Copies(at, hello, 0, receivers), sent := s.sent + {ReportOf(hello)})
    case Deliver(index, receivers) =>
      var c := s.inflight[index];
      var rest := Removed(s.inflight, index);
      if c.hello.address == c.to then s.(inflight := rest)
      else
        s.(inflight := rest + Forwarded(c, receivers),
           dbs := s.dbs[c.to := TakenIn(s.dbs[c.to], c.hello)],
           heard := s.heard[c.to := s.heard[c.to] + {ReportOf(c.hello)}],
           direct := if c.via == c.hello.address then s.direct + {(c.to, c.via)} else s.direct)
    case Lose(index) => s.(inflight := Removed(s.inflight, index))
    case NeighborExpires(at, neighbor) => s.(dbs := s.dbs[at := WithNeighbor(s.dbs[at], neighbor, false)])
  }

  // ---------- The invariant ----------

  /** TTLs count down from the maximum, and only frames sent by the origin itself, not yet relayed,
      carry the original flag. */
  ghost predicate GoodCopy(nodes: set<Ipv4Address>, sent: set<Report>, maxTTL: nat, c: Copy) {
    && c.to in nodes
    && ReportOf(c.hello) in sent
    && c.hello.ttl + c.hops == maxTTL
    && (c.hello.original <==> c.hops == 0)
    && (c.hello.original ==> c.via == c.hello.address)
  }

  ghost predicate GoodCopies(nodes: set<Ipv4Address>, sent: set<Report>, maxTTL: nat, inflight: seq<Copy>) {
    forall c | c in inflight :: GoodCopy(nodes, sent, maxTTL, c)
  }

  /** The entry is a report taken in from its origin, the latest one. */
  ghost predicate GoodEntry(heard: set<Report>, e: NodeState) {
    && Report(e.address, e.time, e.pairs) in heard
    && forall r | r in heard && r.address == e.address :: r.time <= e.time
  }

  ghost predicate GoodReports(heard: set<Report>, at: Ipv4Address, nodes: seq<NodeState>) {
    && DistinctAddresses(nodes)
    && |nodes| > 0 && nodes[0].address == at
    && (forall i | 0 < i < |nodes| :: GoodEntry(heard, nodes[i]))
    && (forall r | r in heard :: r.address != at && IndexOf(nodes, r.address) < |nodes|)
  }

  /** Whoever is marked as a neighbour was heard directly. */
  ghost predicate GoodFlags(direct: set<(Ipv4Address, Ipv4Address)>, at: Ipv4Address, nodes: seq<NodeState>) {
    forall i | 0 <= i < |nodes| && nodes[i].neighbor :: (at, nodes[i].address) in direct
  }

  /** A node never broadcasts two different hellos with the same time. */
  ghost predicate TimesIdentify(sent: set<Report>) {
    forall r, r' | r in sent && r' in sent && r.address == r'.address && r.time == r'.time :: r == r'
  }

  ghost predicate Inv(s: System) {
    && s.heard.Keys == s.dbs.Keys
    && GoodCopies(s.dbs.Keys, s.sent, s.maxTTL, s.inflight)
    && TimesIdentify(s.sent)
    && (forall at | at in s.dbs :: s.heard[at] <= s.sent)
    && (forall at | at in s.dbs :: GoodReports(s.heard[at], at, s.dbs[at]))
    && (forall at | at in s.dbs :: GoodFlags(s.direct, at, s.dbs[at]))
  }

  lemma StartInv(nodes: set<Ipv4Address>, maxTTL: nat)
    ensures Inv(Start(nodes, maxTTL))
  {
  }

  lemma IndexIs(nodes: seq<NodeState>, i: nat)
    requires i < |nodes| && DistinctAddresses(nodes)
    ensures IndexOf(nodes, nodes[i].address) == i
  {
  }

  /** Taking in a report keeps the database good with respect to the enlarged history. */
  lemma UpdatedGood(heard: set<Report>, at: Ipv4Address, nodes: seq<NodeState>, hello: Hello)
    requires GoodReports(heard, at, nodes) && hello.address != at
    requires forall r | r in heard && r.address == hello.address && r.time == hello.time :: r == ReportOf(hello)
    ensures GoodReports(heard + {ReportOf(hello)}, at, Updated(nodes, hello))
  {
    hide Updated, GoodEntry;
    var updated := Updated(nodes, hello);
    forall k | 0 < k < |updated|
      ensures GoodEntry(heard + {ReportOf(hello)}, updated[k])
    {
      UpdatedEntryGood(heard, at, nodes, hello, k);
    }
    UpdatedKeepsAddresses(nodes, hello);
    forall q | q in heard + {ReportOf(hello)}
      ensures IndexOf(updated, q.address) < |updated|
    {
      UpdatedIndex(nodes, hello);
      var i := if q in heard then IndexOf(nodes, q.address) else IndexOf(nodes, hello.address);
      assert updated[i].address == q.address;
    }
  }

  lemma UpdatedKeepsAddresses(nodes: seq<NodeState>, hello: Hello)
    requires DistinctAddresses(nodes)
    ensures DistinctAddresses(Updated(nodes, hello)) && |nodes| <= |Updated(nodes, hello)|
    ensures forall k | 0 <= k < |nodes| :: Updated(nodes, hello)[k].address == nodes[k].address
  {
  }

  lemma UpdatedEntryGood(heard: set<Report>, at: Ipv4Address, nodes: seq<NodeState>, hello: Hello, k: nat)
    requires GoodReports(heard, at, nodes) && hello.address != at && 0 < k < |Updated(nodes, hello)|
    requires forall r | r in heard && r.address == hello.address && r.time == hello.time :: r == ReportOf(hello)
    ensures GoodEntry(heard + {ReportOf(hello)}, Updated(nodes, hello)[k])
  {
    if k < |nodes| {
      assert GoodEntry(heard, nodes[k]);
    } else {
      assert forall q | q in heard :: q.address != hello.address;
    }
  }

  lemma UpdatedFlags(direct: set<(Ipv4Address, Ipv4Address)>, at: Ipv4Address, nodes: seq<NodeState>, hello: Hello)
    requires GoodFlags(direct, at, nodes)
    ensures GoodFlags(direct, at, Updated(nodes, hello))
  {
  }

  /** Flipping a flag, or a change of the node's own metrics, leaves the reports good. */
  lemma SameReportsGood(heard: set<Report>, at: Ipv4Address, nodes: seq<NodeState>, nodes': seq<NodeState>)
    requires GoodReports(heard, at, nodes) && |nodes'| == |nodes|
    requires forall k | 0 <= k < |nodes| :: nodes'[k].address == nodes[k].address
    requires forall k | 0 < k < |nodes| :: nodes'[k].time == nodes[k].time && nodes'[k].pairs == nodes[k].pairs
    ensures GoodReports(heard, at, nodes')
  {
    forall k | 0 < k < |nodes|
      ensures GoodEntry(heard, nodes'[k])
    {
      assert GoodEntry(heard, nodes[k]);
    }
    forall q | q in heard
      ensures IndexOf(nodes', q.address) < |nodes'|
    {
      assert nodes'[IndexOf(nodes, q.address)].address == q.address;
    }
  }

  lemma TakenInGood(heard: set<Report>, direct: set<(Ipv4Address, Ipv4Address)>, at: Ipv4Address, nodes: seq<NodeState>,
                    hello: Hello)
    requires GoodReports(heard, at, nodes) && GoodFlags(direct, at, nodes) && hello.address != at
    requires forall r | r in heard && r.address == hello.address && r.time == hello.time :: r == ReportOf(hello)
    requires hello.original ==> (at, hello.address) in direct
    ensures GoodReports(heard + {ReportOf(hello)}, at, TakenIn(nodes, hello))
    ensures GoodFlags(direct, at, TakenIn(nodes, hello))
  {
    UpdatedGood(heard, at, nodes, hello);
    UpdatedFlags(direct, at, nodes, hello);
    SameReportsGood(heard + {ReportOf(hello)}, at, Updated(nodes, hello), TakenIn(nodes, hello));
  }

  lemma ForwardedGood(nodes: set<Ipv4Address>, sent: set<Report>, maxTTL: nat, c: Copy, receivers: seq<Ipv4Address>)
    requires GoodCopy(nodes, sent, maxTTL, c) && forall r | r in receivers :: r in nodes
    ensures GoodCopies(nodes, sent, maxTTL, Forwarded(c, receivers))
  {
    forall d | d in Forwarded(c, receivers)
      ensures GoodCopy(nodes, sent, maxTTL, d)
    {
      assert ReportOf(d.hello) == ReportOf(c.hello);
    }
  }

  lemma DeliveredCopies(s: System, index: nat, receivers: seq<Ipv4Address>)
    requires Inv(s) && Enabled(s, Deliver(index, receivers))
    ensures GoodCopies(s.dbs.Keys, s.sent, s.maxTTL, Next(s, Deliver(index, receivers)).inflight)
  {
    hide GoodCopy, TakenIn, Forwarded;
    ForwardedGood(s.dbs.Keys, s.sent, s.maxTTL, s.inflight[index], receivers);
    RemovedIsSubset(s.inflight, index);
  }

  lemma DeliverKeepsInv(s: System, index: nat, receivers: seq<Ipv4Address>)
    requires Inv(s) && Enabled(s, Deliver(index, receivers))
    ensures Inv(Next(s, Deliver(index, receivers)))
  {
    hide GoodReports, TakenIn;
    var c := s.inflight[index];
    var s' := Next(s, Deliver(index, receivers));
    DeliveredCopies(s, index, receivers);
    assert s'.dbs.Keys == s.dbs.Keys;
    assert GoodCopy(s.dbs.Keys, s.sent, s.maxTTL, c);
    if c.hello.address != c.to {
      TakenInGood(s.heard[c.to], s'.direct, c.to, s.dbs[c.to], c.hello);
    }
  }

  lemma BroadcastKeepsInv(s: System, at: Ipv4Address, time: nat, receivers: seq<Ipv4Address>)
    requires Inv(s) && Enabled(s, Broadcast(at, time, receivers))
    ensures Inv(Next(s, Broadcast(at, time, receivers)))
  {
    hide GoodReports, GoodFlags;
    var s' := Next(s, Broadcast(at, time, receivers));
    forall d | d in s'.inflight
      ensures GoodCopy(s.dbs.Keys, s'.sent, s.maxTTL, d)
    {
      if d in s.inflight {
        assert GoodCopy(s.dbs.Keys, s.sent, s.maxTTL, d);
      }
    }
  }

  lemma RemovedIsSubset(s: seq<Copy>, k: nat)
    requires k < |s|
    ensures forall c | c in Removed(s, k) :: c in s
  {
  }

  /** Entering a metric changes the pairs of the own entry only. */
  lemma MeasuredDatabase(s: System, at: Ipv4Address, neighbor: Ipv4Address, metric: NFMetric)
    requires Inv(s) && Enabled(s, Measure(at, neighbor, metric))
    ensures var s' := Next(s, Measure(at, neighbor, metric));
            && at in s'.dbs && s' == s.(dbs := s.dbs[at := s'.dbs[at]])
            && |s'.dbs[at]| == |s.dbs[at]|
            && (forall k | 0 <= k < |s.dbs[at]| ::
                  s'.dbs[at][k].address == s.dbs[at][k].address && s'.dbs[at][k].neighbor == s.dbs[at][k].neighbor)
            && (forall k | 0 < k < |s.dbs[at]| ::
                  s'.dbs[at][k].time == s.dbs[at][k].time && s'.dbs[at][k].pairs == s.dbs[at][k].pairs)
  {
    hide GoodCopies, WithMetric, TimesIdentify, GoodFlags, GoodEntry;
    IndexIs(s.dbs[at], 0);
  }

  lemma SameFlagsGood(direct: set<(Ipv4Address, Ipv4Address)>, at: Ipv4Address, nodes: seq<NodeState>,
                      nodes': seq<NodeState>)
    requires GoodFlags(direct, at, nodes) && |nodes'| == |nodes|
    requires forall k | 0 <= k < |nodes| ::
               nodes'[k].address == nodes[k].address && nodes'[k].neighbor == nodes[k].neighbor
    ensures GoodFlags(direct, at, nodes')
  {
  }

  lemma MeasureKeepsInv(s: System, at: Ipv4Address, neighbor: Ipv4Address, metric: NFMetric)
    requires Inv(s) && Enabled(s, Measure(at, neighbor, metric))
    ensures Inv(Next(s, Measure(at, neighbor, metric)))
  {
    hide GoodCopies, WithMetric, TimesIdentify, GoodReports, GoodFlags;
    var s' := Next(s, Measure(at, neighbor, metric));
    MeasuredDatabase(s, at, neighbor, metric);
    SameFlagsGood(s.direct, at, s.dbs[at], s'.dbs[at]);
    SameReportsGood(s.heard[at], at, s.dbs[at], s'.dbs[at]);
    assert s'.dbs.Keys == s.dbs.Keys;
  }

  lemma ExpiryKeepsInv(s: System, at: Ipv4Address, neighbor: Ipv4Address)
    requires Inv(s) && Enabled(s, NeighborExpires(at, neighbor))
    ensures Inv(Next(s, NeighborExpires(at, neighbor)))
  {
    hide GoodCopies, GoodReports, TimesIdentify;
    var s' := Next(s, NeighborExpires(at, neighbor));
    SameReportsGood(s.heard[at], at, s.dbs[at], s'.dbs[at]);
    assert s'.dbs.Keys == s.dbs.Keys;
  }

  /** Every step keeps the invariant. */
  lemma StepKeepsInv(s: System, step: Step)
    requires Inv(s) && Enabled(s, step)
    ensures Inv(Next(s, step))
  {
    match step
    case Deliver(index, receivers) => DeliverKeepsInv(s, index, receivers);
    case Broadcast(at, time, receivers) => BroadcastKeepsInv(s, at, time, receivers);
    case Lose(index) => RemovedIsSubset(s.inflight, index);
    case Measure(at, neighbor, metric) => MeasureKeepsInv(s, at, neighbor, metric);
    case NeighborExpires(at, neighbor) => ExpiryKeepsInv(s, at, neighbor);
  }

  // ---------- Over whole executions ----------

  /** The state after a sequence of steps, provided each is enabled in its turn. */
  ghost predicate Runs(s: System, steps: seq<Step>, end: System)
    decreases |steps|
  {
    if steps == [] then s == end
    else Enabled(s, steps[0]) && Runs(Next(s, steps[0]), steps[1..], end)
  }

  lemma {:induction false} RunKeepsInv(s: System, steps: seq<Step>, end: System)
    requires Inv(s) && Runs(s, steps, end)
    ensures Inv(end)
    decreases |steps|
  {
    if steps == [] {
    } else {
      StepKeepsInv(s, steps[0]);
      RunKeepsInv(Next(s, steps[0]), steps[1..], end);
    }
  }

  /** In every reachable state every remote entry is a hello its origin really sent and the latest of
      those taken in from that origin, two nodes with equal times for an origin hold equal pairs, and
      a node marked as neighbour was heard directly. */
  lemma DatabasesAreSafe(nodes: set<Ipv4Address>, maxTTL: nat, steps: seq<Step>, end: System)
    requires Runs(Start(nodes, maxTTL), steps, end)
    ensures forall at, i | at in end.dbs && 0 < i < |end.dbs[at]| ::
              && at in end.heard && Report(end.dbs[at][i].address, end.dbs[at][i].time,
                   end.dbs[at][i].pairs) in end.sent
              && (forall r | r in end.heard[at] && r.address == end.dbs[at][i].address :: r.time <= end.dbs[at][i].time)
    ensures forall x, y, i, j | x in end.dbs && y in end.dbs && 0 < i < |end.dbs[x]| && 0 < j < |end.dbs[y]|
                && end.dbs[x][i].address == end.dbs[y][j].address && end.dbs[x][i].time == end.dbs[y][j].time ::
              end.dbs[x][i].pairs == end.dbs[y][j].pairs
    ensures forall at, i | at in end.dbs && 0 <= i < |end.dbs[at]| && end.dbs[at][i].neighbor ::
              (at, end.dbs[at][i].address) in end.direct
    ensures forall c | c in end.inflight ::
              && c.hello.ttl + c.hops == maxTTL
              && (c.hello.original <==> c.hops == 0) && (c.hello.original ==> c.via == c.hello.address)
  {
    StartInv(nodes, maxTTL);
    RunKeepsInv(Start(nodes, maxTTL), steps, end);
    RunKeepsMaxTTL(Start(nodes, maxTTL), steps, end);
    forall at, i | at in end.dbs && 0 < i < |end.dbs[at]|
      ensures Report(end.dbs[at][i].address, end.dbs[at][i].time, end.dbs[at][i].pairs) in end.sent
      ensures forall r | r in end.heard[at] && r.address == end.dbs[at][i].address :: r.time <= end.dbs[at][i].time
    {
      assert GoodReports(end.heard[at], at, end.dbs[at]);
      assert GoodEntry(end.heard[at], end.dbs[at][i]);
      assert end.heard[at] <= end.sent;
    }
    forall c | c in end.inflight
      ensures c.hello.ttl + c.hops == maxTTL
      ensures (c.hello.original <==> c.hops == 0) && (c.hello.original ==> c.via == c.hello.address)
    {
      assert GoodCopy(end.dbs.Keys, end.sent, end.maxTTL, c);
    }
  }

  lemma {:induction false} RunKeepsMaxTTL(s: System, steps: seq<Step>, end: System)
    requires Runs(s, steps, end)
    ensures end.maxTTL == s.maxTTL
    decreases |steps|
  {
    if steps == [] {
    } else {
      RunKeepsMaxTTL(Next(s, steps[0]), steps[1..], end);
    }
  }

  /** No node forgets another, and the time of an entry never goes back. */
  ghost predicate NoOlder(nodes: seq<NodeState>, nodes': seq<NodeState>) {
    && |nodes| <= |nodes'|
    && forall i | 0 <= i < |nodes| :: nodes'[i].address == nodes[i].address && nodes[i].time <= nodes'[i].time
  }

  lemma StepNeverGoesBack(s: System, step: Step, at: Ipv4Address)
    requires Inv(s) && Enabled(s, step) && at in s.dbs
    ensures at in Next(s, step).dbs && NoOlder(s.dbs[at], Next(s, step).dbs[at])
  {
    hide Inv, Wired, Copies, Removed, WithMetric, Forwarded;
  }

  lemma {:induction false} TimesNeverGoBack(s: System, steps: seq<Step>, end: System, at: Ipv4Address)
    requires Inv(s) && Runs(s, steps, end) && at in s.dbs
    ensures at in end.dbs && NoOlder(s.dbs[at], end.dbs[at])
    decreases |steps|
  {
    hide Inv, Enabled;
    if steps == [] {
    } else {
      StepKeepsInv(s, steps[0]);
      StepNeverGoesBack(s, steps[0], at);
      TimesNeverGoBack(Next(s, steps[0]), steps[1..], end, at);
    }
  }

  // ---------- Flooding ends ----------

  /** The most receptions a frame with this TTL can cause, itself included, when every relay reaches
      at most D nodes: W(0) = 1 and W(t) = 1 + D * W(t - 1). */
  ghost function Receptions(ttl: nat, D: nat): (r: nat)
    ensures r >= 1
  {
    if ttl == 0 then 1 else 1 + D * Receptions(ttl - 1, D)
  }

  ghost function Pending(inflight: seq<Copy>, D: nat): nat {
    if inflight == [] then 0 else Receptions(inflight[0].hello.ttl, D) + Pending(inflight[1..], D)
  }

  lemma {:induction false} PendingSplits(a: seq<Copy>, b: seq<Copy>, D: nat)
    ensures Pending(a + b, D) == Pending(a, D) + Pending(b, D)
  {
    if a == [] {
      assert a + b == b;
    } else {
      assert (a + b)[1..] == a[1..] + b;
      PendingSplits(a[1..], b, D);
    }
  }

  lemma {:induction false} PendingCopies(via: Ipv4Address, hello: Hello, hops: nat, receivers: seq<Ipv4Address>, D: nat)
    ensures Pending(Copies(via, hello, hops, receivers), D) == |receivers| * Receptions(hello.ttl, D)
  {
    if receivers == [] {
    } else {
      assert Copies(via, hello, hops, receivers)[1..] == Copies(via, hello, hops, receivers[1..]);
      PendingCopies(via, hello, hops, receivers[1..], D);
      assert |receivers| * Receptions(hello.ttl, D) == Receptions(hello.ttl, D)
          + (|receivers| - 1) * Receptions(hello.ttl, D);
    }
  }

  lemma PendingRemoved(inflight: seq<Copy>, k: nat, D: nat)
    requires k < |inflight|
    ensures Pending(inflight, D) == Receptions(inflight[k].hello.ttl, D) + Pending(Removed(inflight, k), D)
  {
    assert inflight == inflight[..k] + ([inflight[k]] + inflight[k + 1..]);
    PendingSplits(inflight[..k], [inflight[k]] + inflight[k + 1..], D);
    PendingSplits([inflight[k]], inflight[k + 1..], D);
    PendingSplits(inflight[..k], inflight[k + 1..], D);
  }

  lemma ReceptionsMonotone(t: nat, m: nat, D: nat)
    requires m <= D
    ensures m * Receptions(t, D) <= D * Receptions(t, D)
  {
  }

  lemma ForwardedPending(c: Copy, receivers: seq<Ipv4Address>, D: nat)
    requires |receivers| <= D
    ensures Pending(Forwarded(c, receivers), D) < Receptions(c.hello.ttl, D)
  {
    if c.hello.ttl > 0 {
      var hello := c.hello.(ttl := c.hello.ttl - 1, original := false);
      PendingCopies(c.to, hello, c.hops + 1, receivers, D);
      ReceptionsMonotone(c.hello.ttl - 1, |receivers|, D);
    }
  }

  /** The measure falls with every reception. */
  lemma DeliverLowersPending(s: System, index: nat, receivers: seq<Ipv4Address>, D: nat)
    requires Inv(s) && Enabled(s, Deliver(index, receivers)) && |receivers| <= D
    ensures Pending(Next(s, Deliver(index, receivers)).inflight, D) < Pending(s.inflight, D)
  {
    hide Inv, Pending, Receptions, Forwarded, Removed;
    var c := s.inflight[index];
    PendingRemoved(s.inflight, index, D);
    ForwardedPending(c, receivers, D);
    PendingSplits(Removed(s.inflight, index), Forwarded(c, receivers), D);
  }

  /** How many frames a run of steps receives, loses, or first sends out. */
  ghost function Moved(steps: seq<Step>): nat {
    if steps == [] then 0
    else (if steps[0].Deliver? || steps[0].Lose? then 1 else 0) + Moved(steps[1..])
  }

  ghost function Emitted(steps: seq<Step>): nat {
    if steps == [] then 0
    else (if steps[0].Broadcast? then |steps[0].receivers| else 0) + Emitted(steps[1..])
  }

  /** The measure after one step, whatever it is. */
  lemma StepMovesPending(s: System, step: Step, D: nat)
    requires Inv(s) && Enabled(s, step) && (step.Deliver? ==> |step.receivers| <= D)
    ensures Next(s, step).maxTTL == s.maxTTL
    ensures Moved([step]) + Pending(Next(s, step).inflight, D) <= Pending(s.inflight, D)
              + Emitted([step]) * Receptions(s.maxTTL, D)
  {
    hide Inv, Pending, Receptions, Wired;
    match step
    case Deliver(index, receivers) => DeliverLowersPending(s, index, receivers, D);
    case Lose(index) => PendingRemoved(s.inflight, index, D);
    case Broadcast(at, time, receivers) =>
      var hello := Hello(at, time, Self(s.dbs[at], at), s.maxTTL, true);
      PendingCopies(at, hello, 0, receivers, D);
      PendingSplits(s.inflight, Copies(at, hello, 0, receivers), D);
    case Measure(_, _, _) =>
    case NeighborExpires(_, _) =>
  }

  /** Whatever order frames arrive in, the number of receptions and losses in a run is bounded by
      what was in flight and what was broadcast: every flood dies out. */
  lemma {:induction false} FloodingEnds(s: System, steps: seq<Step>, end: System, D: nat)
    requires Inv(s) && Runs(s, steps, end)
    requires forall step | step in steps && step.Deliver? :: |step.receivers| <= D
    ensures Moved(steps) + Pending(end.inflight, D) <= Pending(s.inflight, D) + Emitted(steps) * Receptions(s.maxTTL, D)
    decreases |steps|
  {
    hide Inv, Enabled, Next, Pending, Receptions;
    if steps == [] {
    } else {
      StepKeepsInv(s, steps[0]);
      StepMovesPending(s, steps[0], D);
      FloodingEnds(Next(s, steps[0]), steps[1..], end, D);
      MulDistributes(Emitted([steps[0]]), Emitted(steps[1..]), Receptions(s.maxTTL, D));
    }
  }

  lemma MulDistributes(a: nat, b: nat, c: nat)
    ensures (a + b) * c == a * c + b * c
  {
  }

  // ---------- One node ----------

  /** What a node does with its database: the parts of a step that happen in one place. */
  class HelloRouter {
    const address: Ipv4Address
    const maxTTL: nat
    const network: LinkStateNetwork

    constructor (address: Ipv4Address, maxTTL: nat)
      ensures this.address == address && this.maxTTL == maxTTL
      ensures network.Valid() && fresh(network) && network.View() == Start({address}, maxTTL).dbs[address]
    {
      this.address, this.maxTTL := address, maxTTL;
      network := new LinkStateNetwork();
      new;
      var added := network.AddNode(address);
    }

    /** Takes in a hello and returns what is passed on; the node's own hellos are ignored. */
    method Receive(hello: Hello) returns (forwarded: Option<Hello>)
      requires network.Valid()
      modifies network, network.nodes
      ensures network.Valid()
      ensures network.View() == if hello.address == address then old(network.View())
                else TakenIn(old(network.View()), hello)
      ensures forwarded == if hello.address == address then None else Relayed(hello)
      ensures forwarded.Some? <==> hello.address != address && hello.ttl > 0
      ensures forwarded.Some? ==>
                ReportOf(forwarded.value) == ReportOf(hello) && forwarded.value.ttl == hello.ttl - 1
                  && !forwarded.value.original
    {
      if hello.address == address {
        return None;
      }
      TakeIn(hello);
      return if hello.ttl > 0 then ForwardHello(hello.(ttl := hello.ttl - 1)) else None;
    }

    method TakeIn(hello: Hello)
      requires network.Valid()
      modifies network, network.nodes
      ensures network.Valid() && network.View() == TakenIn(old(network.View()), hello)
    {
      hide Updated;
      var node := network.Update(hello);
      if hello.original {
        ghost var nodes := network.View();
        ghost var i := IndexOf(nodes, hello.address);
        assert node in network.nodes;
        node.SetNeighbor();
        forall k | 0 <= k < |nodes| && k != i
          ensures network.nodes[k].View() == nodes[k]
        {
          assert nodes[k].address != nodes[i].address;
        }
        assert network.View() == nodes[i := nodes[i].(neighbor := true)];
      }
    }

    function ForwardHello(hello: Hello): Option<Hello> {
      Some(hello.(original := false))
    }

    /** The hello a node broadcasts lists the metrics it has entered for itself. */
    method LinkStateBroadcast(time: nat) returns (hello: Hello)
      ensures hello == Hello(address, time, Self(network.View(), address), maxTTL, true)
      ensures network.Valid() ==> forall i | 0 <= i < |network.View()| && network.View()[i].address == address ::
                hello.pairs == network.View()[i].pairs
    {
      var self := network.Search(address);
      var listed: seq<NFPair> := [];
      if self != null {
        var pairs := self.pairs;
        for i := 0 to |pairs|
          invariant listed == pairs[..i]
        {
          listed := listed + [pairs[i]];
        }
      }
      hello := Hello(address, time, listed, maxTTL, true);
    }
  }
}
