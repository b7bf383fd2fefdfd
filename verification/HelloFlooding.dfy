/** How far a flood gets: a hello that is not lost on its way is taken in by exactly the nodes within one hop
    more than its TTL, and tells them the metrics its origin has entered. */
module HelloFlooding {
  import opened Addresses
  import opened Metrics
  import opened LinkState
  import opened Options
  import opened HelloProtocol

  // ---------- One hop ----------

  /** A node passes on the hellos of others whose TTL is not used up, with one less and without the flag. */
  lemma RelayedIff(hello: Hello)
    ensures Relayed(hello).Some? <==> hello.ttl > 0
    ensures Relayed(hello).Some? ==>
              var r := Relayed(hello).value;
              ReportOf(r) == ReportOf(hello) && r.ttl == hello.ttl - 1 && !r.original
  {
  }

  /** A copy of the report on its way to a node, relayed so many times. */
  ghost predicate OnItsWay(s: System, r: Report, to: Ipv4Address, hops: nat) {
    exists c :: c in s.inflight && ReportOf(c.hello) == r && c.to == to && c.hops == hops
  }

  lemma AddedIsOnItsWay(s: System, r: Report, rest: seq<Copy>, via: Ipv4Address, hello: Hello, hops: nat,
                        receivers: seq<Ipv4Address>, to: Ipv4Address)
    requires s.inflight == rest + Copies(via, hello, hops, receivers) && ReportOf(hello) == r && to in receivers
    ensures OnItsWay(s, r, to, hops)
  {
    var i :| 0 <= i < |receivers| && receivers[i] == to;
    assert s.inflight[|rest| + i] == Copy(via, to, hello, hops);
  }

  /** What a reception passes on reaches everyone within range as a copy relayed once more, as long as the TTL
      lasts; and the receiver has then taken the report in. */
  lemma DeliveryPassesOn(s: System, index: nat, receivers: seq<Ipv4Address>, to: Ipv4Address)
    requires Inv(s) && Enabled(s, Deliver(index, receivers)) && s.inflight[index].hello.address != s.inflight[index].to
    ensures var c := s.inflight[index];
            var s' := Next(s, Deliver(index, receivers));
            && ReportOf(c.hello) in s'.heard[c.to]
            && (c.hello.ttl > 0 && to in receivers ==> OnItsWay(s', ReportOf(c.hello), to, c.hops + 1))
  {
    hide Inv, TakenIn, Removed, OnItsWay;
    var c := s.inflight[index];
    var s' := Next(s, Deliver(index, receivers));
    RelayedIff(c.hello);
    if c.hello.ttl > 0 && to in receivers {
      AddedIsOnItsWay(s', ReportOf(c.hello), Removed(s.inflight, index), c.to, Relayed(c.hello).value, c.hops + 1,
        receivers, to);
    }
  }

  // ---------- Who is how far ----------

  /** Who hears whom. */
  type Links = Ipv4Address -> set<Ipv4Address>

  /** There is a way of at most so many hops. */
  ghost predicate Within(links: Links, origin: Ipv4Address, node: Ipv4Address, hops: nat)
    decreases hops
  {
    node == origin || (hops > 0 && exists u :: Within(links, origin, u, hops - 1) && node in links(u))
  }

  lemma OneHopFurther(links: Links, origin: Ipv4Address, u: Ipv4Address, node: Ipv4Address, hops: nat)
    requires Within(links, origin, u, hops) && node in links(u)
    ensures Within(links, origin, node, hops + 1)
  {
  }

  lemma {:induction false} WithinMore(links: Links, origin: Ipv4Address, node: Ipv4Address, hops: nat, more: nat)
    requires Within(links, origin, node, hops) && hops <= more
    ensures Within(links, origin, node, more)
    decreases hops
  {
    if node != origin {
      var u :| Within(links, origin, u, hops - 1) && node in links(u);
      WithinMore(links, origin, u, hops - 1, more - 1);
    }
  }

  // ---------- Runs in which a report is not lost ----------

  /** The report is broadcast, and relayed, to exactly those who hear the sender, and no copy of it is lost.
      What happens to other reports is left open. */
  ghost predicate Carries(links: Links, r: Report, s: System, step: Step)
    requires Enabled(s, step)
  {
    match step
    case Broadcast(at, time, receivers) =>
      at == r.address && time == r.time ==> forall n :: n in receivers <==> n in links(at)
    case Deliver(index, receivers) =>
      ReportOf(s.inflight[index].hello) == r ==> forall n :: n in receivers <==> n in links(s.inflight[index].to)
    case Lose(index) => ReportOf(s.inflight[index].hello) != r
    case _ => true
  }

  ghost predicate AllCarry(links: Links, r: Report, s: System, steps: seq<Step>, end: System)
    requires Runs(s, steps, end)
    decreases |steps|
  {
    steps != [] ==> Carries(links, r, s, steps[0]) && AllCarry(links, r, Next(s, steps[0]), steps[1..], end)
  }

  /** To whom a copy of the report has been delivered, and after how many relays. */
  type Arrivals = set<(Ipv4Address, nat)>

  ghost function Arrived(r: Report, s: System, step: Step, done: Arrivals): Arrivals
    requires Enabled(s, step)
  {
    if step.Deliver? && ReportOf(s.inflight[step.index].hello) == r then
      done + {(s.inflight[step.index].to, s.inflight[step.index].hops)}
    else done
  }

  ghost predicate Due(s: System, r: Report, done: Arrivals, n: Ipv4Address, hops: nat) {
    (n, hops) in done || OnItsWay(s, r, n, hops)
  }

  /** Everyone who hears the origin, or a node that has had the report with TTL left, has had it one relay
      later, or will. */
  ghost predicate Spreads(links: Links, r: Report, s: System, done: Arrivals) {
    && (r in s.sent ==> forall n | n in links(r.address) :: Due(s, r, done, n, 0))
    && (forall v, h, n | (v, h) in done && v != r.address && h < s.maxTTL && n in links(v) :: Due(s, r, done, n, h + 1))
    && (forall v, h | (v, h) in done && v != r.address :: v in s.heard && r in s.heard[v])
  }

  /** Nobody has it, or will, who is further away than it was relayed. */
  ghost predicate StaysWithin(links: Links, r: Report, s: System) {
    && (forall c | c in s.inflight && ReportOf(c.hello) == r ::
         c.hops <= s.maxTTL && Within(links, r.address, c.to, c.hops + 1))
    && (forall v | v in s.heard && r in s.heard[v] :: Within(links, r.address, v, s.maxTTL + 1))
  }

  // ---------- It spreads ----------

  lemma DueStays(s: System, s': System, r: Report, done: Arrivals, done': Arrivals, n: Ipv4Address, hops: nat)
    requires Due(s, r, done, n, hops) && done <= done'
    requires forall c | c in s.inflight && ReportOf(c.hello) == r && (c.to, c.hops) !in done' :: c in s'.inflight
    ensures Due(s', r, done', n, hops)
  {
  }

  lemma RemovedOne(s: seq<Copy>, k: nat)
    requires k < |s|
    ensures forall c | c in s && c != s[k] :: c in Removed(s, k)
  {
  }

  /** No copy of the report goes away without having arrived. */
  lemma NothingLost(links: Links, r: Report, s: System, step: Step, done: Arrivals)
    requires Inv(s) && Enabled(s, step) && Carries(links, r, s, step)
    ensures forall c | c in s.inflight && ReportOf(c.hello) == r && (c.to, c.hops) !in Arrived(r, s, step, done) ::
              c in Next(s, step).inflight
  {
    hide Inv, Forwarded, TakenIn, Wired;
    if step.Deliver? || step.Lose? {
      RemovedOne(s.inflight, step.index);
    }
  }

  lemma HeardStays(s: System, step: Step, v: Ipv4Address, r: Report)
    requires Enabled(s, step) && v in s.heard && r in s.heard[v]
    ensures v in Next(s, step).heard && r in Next(s, step).heard[v]
  {
    hide Forwarded, TakenIn, Removed;
  }

  lemma ArrivalSpreads(links: Links, r: Report, s: System, step: Step, done: Arrivals, n: Ipv4Address)
    requires Inv(s) && Enabled(s, step) && Carries(links, r, s, step) && step.Deliver?
    requires var c := s.inflight[step.index]; ReportOf(c.hello) == r && c.to != r.address
    ensures var c := s.inflight[step.index];
            && c.to in Next(s, step).heard && r in Next(s, step).heard[c.to]
            && (c.hops < s.maxTTL && n in links(c.to) ==> OnItsWay(Next(s, step), r, n, c.hops + 1))
  {
    hide Carries, TakenIn, Removed, Forwarded, OnItsWay, GoodReports, GoodFlags;
    var c := s.inflight[step.index];
    assert GoodCopy(s.dbs.Keys, s.sent, s.maxTTL, c);
    InRange(links, r, s, step, n);
    DeliveryPassesOn(s, step.index, step.receivers, n);
  }

  lemma InRange(links: Links, r: Report, s: System, step: Step, n: Ipv4Address)
    requires Enabled(s, step) && Carries(links, r, s, step) && step.Deliver?
    requires ReportOf(s.inflight[step.index].hello) == r
    ensures n in step.receivers <==> n in links(s.inflight[step.index].to)
  {
  }

  /** A report sent for the first time goes to everyone who hears its origin. */
  lemma BroadcastSpreads(links: Links, r: Report, s: System, step: Step, n: Ipv4Address)
    requires Enabled(s, step) && Carries(links, r, s, step)
    requires r !in s.sent && r in Next(s, step).sent && n in links(r.address)
    ensures OnItsWay(Next(s, step), r, n, 0)
  {
    hide TakenIn, Forwarded, OnItsWay, Self, Removed;
    var hello := Hello(step.at, step.time, Self(s.dbs[step.at], step.at), s.maxTTL, true);
    AddedIsOnItsWay(Next(s, step), r, s.inflight, step.at, hello, 0, step.receivers, n);
  }

  lemma SentStays(s: System, step: Step)
    requires Enabled(s, step)
    ensures s.sent <= Next(s, step).sent && Next(s, step).maxTTL == s.maxTTL
  {
    hide Forwarded, TakenIn, Removed, Self;
  }

  lemma StepSpreads(links: Links, r: Report, s: System, step: Step, done: Arrivals)
    requires Inv(s) && Enabled(s, step) && Carries(links, r, s, step) && Spreads(links, r, s, done)
    ensures Spreads(links, r, Next(s, step), Arrived(r, s, step, done))
  {
    hide Inv, Carries, Next, Due, OnItsWay;
    var s', done' := Next(s, step), Arrived(r, s, step, done);
    NothingLost(links, r, s, step, done);
    SentStays(s, step);
    forall n | r in s'.sent && n in links(r.address)
      ensures Due(s', r, done', n, 0)
    {
      if r in s.sent {
        DueStays(s, s', r, done, done', n, 0);
      } else {
        BroadcastSpreads(links, r, s, step, n);
        OnItsWayIsDue(s', r, done', n, 0);
      }
    }
    forall v, h, n | (v, h) in done' && v != r.address && h < s'.maxTTL && n in links(v)
      ensures Due(s', r, done', n, h + 1)
    {
      if (v, h) in done {
        DueStays(s, s', r, done, done', n, h + 1);
      } else {
        ArrivalSpreads(links, r, s, step, done, n);
        OnItsWayIsDue(s', r, done', n, h + 1);
      }
    }
    forall v, h | (v, h) in done' && v != r.address
      ensures v in s'.heard && r in s'.heard[v]
    {
      if (v, h) in done {
        HeardStays(s, step, v, r);
      } else {
        ArrivalSpreads(links, r, s, step, done, v);
      }
    }
  }

  lemma OnItsWayIsDue(s: System, r: Report, done: Arrivals, n: Ipv4Address, hops: nat)
    requires OnItsWay(s, r, n, hops)
    ensures Due(s, r, done, n, hops)
  {
  }

  // ---------- It stays within range ----------

  lemma ForwardedWithin(links: Links, r: Report, s: System, step: Step, d: Copy)
    requires Inv(s) && Enabled(s, step) && Carries(links, r, s, step) && StaysWithin(links, r, s)
    requires step.Deliver? && d in Forwarded(s.inflight[step.index], step.receivers) && ReportOf(d.hello) == r
    ensures d.hops <= s.maxTTL && Within(links, r.address, d.to, d.hops + 1)
  {
    hide GoodReports, GoodFlags;
    var c := s.inflight[step.index];
    assert GoodCopy(s.dbs.Keys, s.sent, s.maxTTL, c);
    assert ReportOf(c.hello) == r;
    OneHopFurther(links, r.address, c.to, d.to, c.hops + 1);
  }

  lemma BroadcastWithin(links: Links, r: Report, s: System, step: Step, d: Copy)
    requires Enabled(s, step) && Carries(links, r, s, step) && step.Broadcast?
    requires d in Next(s, step).inflight && d !in s.inflight && ReportOf(d.hello) == r
    ensures d.hops <= s.maxTTL && Within(links, r.address, d.to, d.hops + 1)
  {
    hide Self;
    OneHopFurther(links, r.address, r.address, d.to, 0);
  }

  lemma HeardWithin(links: Links, r: Report, s: System, step: Step, v: Ipv4Address)
    requires Enabled(s, step) && StaysWithin(links, r, s)
    requires v in Next(s, step).heard && r in Next(s, step).heard[v]
    ensures Within(links, r.address, v, s.maxTTL + 1)
  {
    hide Forwarded, TakenIn, Removed, Within;
    if v in s.heard && r in s.heard[v] {
    } else {
      var c := s.inflight[step.index];
      assert c in s.inflight && v == c.to && ReportOf(c.hello) == r;
      WithinMore(links, r.address, v, c.hops + 1, s.maxTTL + 1);
    }
  }

  lemma StepStaysWithin(links: Links, r: Report, s: System, step: Step)
    requires Inv(s) && Enabled(s, step) && Carries(links, r, s, step) && StaysWithin(links, r, s)
    ensures StaysWithin(links, r, Next(s, step))
  {
    hide Inv, Carries, TakenIn, Within, Forwarded, Self, Removed;
    var s' := Next(s, step);
    SentStays(s, step);
    forall d | d in s'.inflight && ReportOf(d.hello) == r
      ensures d.hops <= s'.maxTTL && Within(links, r.address, d.to, d.hops + 1)
    {
      if d !in s.inflight {
        if step.Broadcast? {
          BroadcastWithin(links, r, s, step, d);
        } else {
          RemovedIsSubset(s.inflight, step.index);
          ForwardedWithin(links, r, s, step, d);
        }
      }
    }
    forall v | v in s'.heard && r in s'.heard[v]
      ensures Within(links, r.address, v, s'.maxTTL + 1)
    {
      HeardWithin(links, r, s, step, v);
    }
  }

  // ---------- Whole runs ----------

  lemma {:induction false} RunSpreads(links: Links, r: Report, s: System, steps: seq<Step>, end: System,
                                      done: Arrivals) returns (all: Arrivals)
    requires Inv(s) && Runs(s, steps, end) && AllCarry(links, r, s, steps, end)
    requires Spreads(links, r, s, done) && StaysWithin(links, r, s)
    ensures Spreads(links, r, end, all) && StaysWithin(links, r, end)
    decreases |steps|
  {
    hide Inv, Enabled, Next, Carries, Spreads, StaysWithin, Arrived;
    if steps == [] {
      all := done;
    } else {
      StepKeepsInv(s, steps[0]);
      StepSpreads(links, r, s, steps[0], done);
      StepStaysWithin(links, r, s, steps[0]);
      all := RunSpreads(links, r, Next(s, steps[0]), steps[1..], end, Arrived(r, s, steps[0], done));
    }
  }

  /** When no copy is on its way any more, everyone in range has had one. */
  lemma {:induction false} QuietMeansArrived(links: Links, r: Report, s: System, done: Arrivals, v: Ipv4Address,
                                             hops: nat) returns (h: nat)
    requires Spreads(links, r, s, done) && r in s.sent && forall c | c in s.inflight :: ReportOf(c.hello) != r
    requires v != r.address && Within(links, r.address, v, hops) && hops <= s.maxTTL + 1
    ensures h < hops && (v, h) in done
    decreases hops
  {
    var u :| Within(links, r.address, u, hops - 1) && v in links(u);
    if u == r.address {
      assert Due(s, r, done, v, 0);
      h := 0;
    } else {
      var before := QuietMeansArrived(links, r, s, done, u, hops - 1);
      assert Due(s, r, done, v, before + 1);
      h := before + 1;
    }
  }

  /** The node's entry for the origin is at least as late as the report. */
  ghost predicate IsAsLate(nodes: seq<NodeState>, r: Report) {
    var i := IndexOf(nodes, r.address);
    i < |nodes| && r.time <= nodes[i].time && (r.time == nodes[i].time ==> nodes[i].pairs == r.pairs)
  }

  lemma HeardIsEntered(s: System, v: Ipv4Address, r: Report)
    requires Inv(s) && v in s.heard && r in s.heard[v]
    ensures v in s.dbs && v != r.address && IsAsLate(s.dbs[v], r)
  {
    hide GoodCopies, GoodFlags;
    assert GoodReports(s.heard[v], v, s.dbs[v]);
    var i := IndexOf(s.dbs[v], r.address);
    assert GoodEntry(s.heard[v], s.dbs[v][i]);
    assert s.heard[v] <= s.sent;
  }

  /** Whatever else happens and whatever order frames arrive in: once a report has been broadcast, has been
      relayed to everyone in range, has not been lost, and is no longer on its way, exactly the nodes within
      maxTTL + 1 hops of its origin have taken it in, and their entries are at least as late. */
  lemma FloodReachesExactly(links: Links, r: Report, s: System, steps: seq<Step>, end: System, v: Ipv4Address)
    requires Inv(s) && Runs(s, steps, end) && AllCarry(links, r, s, steps, end)
    requires r !in s.sent && r in end.sent && forall c | c in end.inflight :: ReportOf(c.hello) != r
    requires v in end.heard && v != r.address
    ensures r in end.heard[v] <==> Within(links, r.address, v, end.maxTTL + 1)
    ensures Within(links, r.address, v, end.maxTTL + 1) ==> v in end.dbs && IsAsLate(end.dbs[v], r)
  {
    hide Runs, AllCarry, Within, IsAsLate;
    NotYetSpread(links, r, s);
    var done := RunSpreads(links, r, s, steps, end, {});
    RunKeepsInv(s, steps, end);
    if Within(links, r.address, v, end.maxTTL + 1) {
      var h := QuietMeansArrived(links, r, end, done, v, end.maxTTL + 1);
      HeardIsEntered(end, v, r);
    }
  }

  lemma NotYetSpread(links: Links, r: Report, s: System)
    requires Inv(s) && r !in s.sent
    ensures Spreads(links, r, s, {}) && StaysWithin(links, r, s)
  {
    hide GoodReports, GoodFlags;
    forall c | c in s.inflight
      ensures ReportOf(c.hello) != r
    {
      assert GoodCopy(s.dbs.Keys, s.sent, s.maxTTL, c);
    }
    assert forall v | v in s.heard :: s.heard[v] <= s.sent;
  }

  // ---------- What a hello tells ----------

  /** The metric a node has entered last for a neighbour, if any. */
  ghost function Entered(steps: seq<Step>, at: Ipv4Address, neighbor: Ipv4Address): Option<NFMetric> {
    if steps == [] then None
    else
      var later := Entered(steps[1..], at, neighbor);
      if later.Some? then later
      else
        match steps[0]
        case Measure(a, n, metric) => if a == at && n == neighbor then Some(metric) else None
        case _ => None
  }

  /** A node's own entry, which is its first. */
  ghost function OwnPairs(s: System, at: Ipv4Address): seq<NFPair>
    requires Inv(s) && at in s.dbs
  {
    assert GoodReports(s.heard[at], at, s.dbs[at]);
    s.dbs[at][0].pairs
  }

  /** Only its own measurements change what a node lists of itself. */
  lemma StepEnters(s: System, step: Step, at: Ipv4Address, neighbor: Ipv4Address)
    requires Inv(s) && Enabled(s, step) && at in s.dbs && Inv(Next(s, step))
    ensures at in Next(s, step).dbs
    ensures var pairs, pairs' := OwnPairs(s, at), OwnPairs(Next(s, step), at);
            && (DistinctPairs(pairs) ==> DistinctPairs(pairs'))
            && MetricOf(pairs', neighbor) ==
                 (if step.Measure? && step.at == at && step.neighbor == neighbor then step.metric
                  else MetricOf(pairs, neighbor))
            && (Lists(pairs', neighbor) <==>
                  (step.Measure? && step.at == at && step.neighbor == neighbor) || Lists(pairs, neighbor))
  {
    hide Inv, OwnPairs, WithMetric, MetricOf, Lists, DistinctPairs;
    if step.Measure? && step.at == at {
      OwnMeasured(s, step);
      MetricEntered(OwnPairs(s, at), step.neighbor, step.metric, neighbor);
    } else {
      OwnStays(s, step, at);
    }
  }

  lemma OwnMeasured(s: System, step: Step)
    requires Inv(s) && Enabled(s, step) && step.Measure? && Inv(Next(s, step))
    ensures OwnPairs(Next(s, step), step.at) == WithMetric(OwnPairs(s, step.at), step.neighbor, step.metric)
  {
    hide GoodCopies, GoodFlags, TimesIdentify, GoodEntry, WithMetric;
    assert GoodReports(s.heard[step.at], step.at, s.dbs[step.at]);
    IndexIs(s.dbs[step.at], 0);
  }

  lemma OwnStays(s: System, step: Step, at: Ipv4Address)
    requires Inv(s) && Enabled(s, step) && at in s.dbs && Inv(Next(s, step))
    requires !(step.Measure? && step.at == at)
    ensures at in Next(s, step).dbs && OwnPairs(Next(s, step), at) == OwnPairs(s, at)
  {
    hide GoodCopies, GoodFlags, TimesIdentify, GoodEntry, WithMetric, Forwarded, Removed, TakenIn, WithNeighbor, Self;
    assert GoodReports(s.heard[at], at, s.dbs[at]);
    if step.Deliver? && s.inflight[step.index].hello.address != at {
      TakenInOwn(s.dbs[at], s.inflight[step.index].hello);
    } else if step.NeighborExpires? {
      MarkedOwn(s.dbs[at], step.neighbor);
    }
  }

  lemma TakenInOwn(nodes: seq<NodeState>, hello: Hello)
    requires nodes != [] && nodes[0].address != hello.address
    ensures TakenIn(nodes, hello) != [] && TakenIn(nodes, hello)[0].pairs == nodes[0].pairs
  {
  }

  lemma MarkedOwn(nodes: seq<NodeState>, a: Ipv4Address)
    requires nodes != []
    ensures WithNeighbor(nodes, a, false) != [] && WithNeighbor(nodes, a, false)[0].pairs == nodes[0].pairs
  {
  }

  lemma {:induction false} RunEnters(s: System, steps: seq<Step>, end: System, at: Ipv4Address, neighbor: Ipv4Address)
    requires Inv(s) && Runs(s, steps, end) && at in s.dbs && DistinctPairs(OwnPairs(s, at))
    ensures Inv(end) && at in end.dbs && DistinctPairs(OwnPairs(end, at))
    ensures var last := Entered(steps, at, neighbor);
            && MetricOf(OwnPairs(end, at), neighbor) ==
                 (if last.Some? then last.value else MetricOf(OwnPairs(s, at), neighbor))
            && (Lists(OwnPairs(end, at), neighbor) <==> last.Some? || Lists(OwnPairs(s, at), neighbor))
    decreases |steps|
  {
    hide Inv, Enabled, Next, OwnPairs, MetricOf, Lists, DistinctPairs;
    if steps == [] {
    } else {
      StepKeepsInv(s, steps[0]);
      StepEnters(s, steps[0], at, neighbor);
      RunEnters(Next(s, steps[0]), steps[1..], end, at, neighbor);
    }
  }

  /** In every run, whatever is heard meanwhile: a hello lists exactly the neighbours its origin has entered a
      metric for, each once and with the metric entered last. */
  lemma HelloTellsMetrics(nodes: set<Ipv4Address>, maxTTL: nat, steps: seq<Step>, end: System, at: Ipv4Address,
                          time: nat, receivers: seq<Ipv4Address>, neighbor: Ipv4Address)
    requires at in nodes && Runs(Start(nodes, maxTTL), steps, end) && Enabled(end, Broadcast(at, time, receivers))
    ensures var told := Next(end, Broadcast(at, time, receivers)).sent - end.sent;
            exists r :: told == {r} && r.address == at && r.time == time && DistinctPairs(r.pairs)
              && (Lists(r.pairs, neighbor) <==> Entered(steps, at, neighbor).Some?)
              && (Entered(steps, at, neighbor).Some? ==>
                    MetricOf(r.pairs, neighbor) == Entered(steps, at, neighbor).value)
  {
    hide Runs, Entered, MetricOf, DistinctPairs;
    StartInv(nodes, maxTTL);
    assert OwnPairs(Start(nodes, maxTTL), at) == [] && !Lists([], neighbor);
    OnePairIsDistinct([]);
    RunEnters(Start(nodes, maxTTL), steps, end, at, neighbor);
    OwnIsSelf(end, at);
    var r := Report(at, time, OwnPairs(end, at));
    assert r !in end.sent && Next(end, Broadcast(at, time, receivers)).sent == end.sent + {r};
    assert end.sent + {r} - end.sent == {r};
  }

  lemma OnePairIsDistinct(pairs: seq<NFPair>)
    requires |pairs| <= 1
    ensures DistinctPairs(pairs)
  {
  }

  lemma OwnIsSelf(s: System, at: Ipv4Address)
    requires Inv(s) && at in s.dbs
    ensures Self(s.dbs[at], at) == OwnPairs(s, at)
  {
    hide GoodCopies, GoodFlags, TimesIdentify, GoodEntry;
    assert GoodReports(s.heard[at], at, s.dbs[at]);
    IndexIs(s.dbs[at], 0);
  }

  // ---------- Who is marked as a neighbour ----------

  ghost predicate Marked(nodes: seq<NodeState>, a: Ipv4Address) {
    var i := IndexOf(nodes, a);
    i < |nodes| && nodes[i].neighbor
  }

  /** The step brings an original hello of the other node. */
  ghost predicate HearsDirectly(s: System, step: Step, at: Ipv4Address, other: Ipv4Address) {
    step.Deliver? && step.index < |s.inflight| && s.inflight[step.index].to == at
      && s.inflight[step.index].hello.original && s.inflight[step.index].hello.address == other != at
  }

  /** Marked before, or heard directly, and not expired since. */
  ghost predicate Recent(s: System, steps: seq<Step>, end: System, at: Ipv4Address, other: Ipv4Address, marked: bool)
    requires Runs(s, steps, end)
    decreases |steps|
  {
    if steps == [] then marked
    else
      Recent(Next(s, steps[0]), steps[1..], end, at, other,
        HearsDirectly(s, steps[0], at, other) || (marked && steps[0] != NeighborExpires(at, other)))
  }

  lemma WithNeighborMarks(nodes: seq<NodeState>, a: Ipv4Address, flag: bool, other: Ipv4Address)
    requires IndexOf(nodes, a) < |nodes| || !flag
    ensures Marked(WithNeighbor(nodes, a, flag), other) <==> if other == a then flag else Marked(nodes, other)
  {
    var r, i, j := WithNeighbor(nodes, a, flag), IndexOf(nodes, other), IndexOf(nodes, a);
    SamePlace(nodes, r, other);
    if i < |nodes| && i == j {
      assert nodes[i].address == other;
    }
  }

  lemma {:induction false} SamePlace(nodes: seq<NodeState>, nodes': seq<NodeState>, a: Ipv4Address)
    requires |nodes| <= |nodes'| && forall k | 0 <= k < |nodes| :: nodes'[k].address == nodes[k].address
    ensures IndexOf(nodes, a) < |nodes| ==> IndexOf(nodes', a) == IndexOf(nodes, a)
    ensures IndexOf(nodes, a) == |nodes| ==> IndexOf(nodes', a) >= |nodes|
  {
  }

  lemma TakenInMarks(nodes: seq<NodeState>, hello: Hello, other: Ipv4Address)
    ensures Marked(TakenIn(nodes, hello), other) <==>
      (hello.original && hello.address == other) || Marked(nodes, other)
  {
    hide IndexOf;
    var updated := Updated(nodes, hello);
    UpdatedIndex(nodes, hello);
    SamePlace(nodes, updated, other);
    assert Marked(updated, other) <==> Marked(nodes, other);
    if hello.original {
      WithNeighborMarks(updated, hello.address, true, other);
    }
  }

  lemma StepMarks(s: System, step: Step, at: Ipv4Address, other: Ipv4Address)
    requires Enabled(s, step) && at in s.dbs
    ensures at in Next(s, step).dbs
    ensures Marked(Next(s, step).dbs[at], other) <==>
      HearsDirectly(s, step, at, other) || (Marked(s.dbs[at], other) && step != NeighborExpires(at, other))
  {
    hide TakenIn, WithNeighbor, WithMetric, Marked, Forwarded, Removed, IndexOf, Self;
    match step {
      case Deliver(index, _) =>
        TakenInMarks(s.dbs[at], s.inflight[index].hello, other);
      case NeighborExpires(a, n) =>
        WithNeighborMarks(s.dbs[at], n, false, other);
      case Measure(a, _, _) =>
        MeasureMarks(s, step, at, other);
      case _ =>
    }
  }

  lemma MeasureMarks(s: System, step: Step, at: Ipv4Address, other: Ipv4Address)
    requires Enabled(s, step) && at in s.dbs && step.Measure?
    ensures at in Next(s, step).dbs && (Marked(Next(s, step).dbs[at], other) <==> Marked(s.dbs[at], other))
  {
    hide WithMetric;
    SamePlace(s.dbs[at], Next(s, step).dbs[at], other);
  }

  /** In every run exactly those are marked as neighbours that were heard directly and whose timer has not
      expired since. */
  lemma {:induction false} MarkedIffRecent(s: System, steps: seq<Step>, end: System, at: Ipv4Address,
                                           other: Ipv4Address)
    requires Runs(s, steps, end) && at in s.dbs
    ensures at in end.dbs
    ensures Marked(end.dbs[at], other) <==> Recent(s, steps, end, at, other, Marked(s.dbs[at], other))
    decreases |steps|
  {
    hide Enabled, Next, Marked, HearsDirectly;
    if steps == [] {
    } else {
      StepMarks(s, steps[0], at, other);
      MarkedIffRecent(Next(s, steps[0]), steps[1..], end, at, other);
    }
  }
}
