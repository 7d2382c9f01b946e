/**
 The simulator (radio2/src/sim.c): an event loop over nodes (Node), with packets shared
 between events (Packet) and the event queue used as a bag of which each pop takes some
 earliest event (that the heap does so is shown in EventQueue).

 The loop's termination measure shows that a run with a finite end of time stops, for
 every topology and all random draws.  Its invariant says that references balance, that
 timers and beacons are handled in time order, and that the nodes and beacons form a
 reachable state of the network (Mesh).
 */
module Sim {
  import opened Wrappers
  import opened Digits
  import opened EventQueue
  import opened Neigh
  import opened Node
  import Mesh
  import Packets = Packet
  import Routing

  const PROP_DELAY: nat := 1000
  const PROP_DELAY_PERBYTE: nat := 1000
  const PROP_DELAY_MIN: nat := 1000
  const PROP_DELAY_FUZZ: nat := 1000
  const TIMER_DELAY_FUZZ: nat := 1000

  // ---------- Weights: why the loop ends ----------

  /** What an event may still cause, measured by the time that is left after it. */
  function EventWeight(e: Event, base: nat, end: nat): nat {
    if e.vtime >= end then 0 else Pow(base, end - e.vtime)
  }

  function Weight(queue: seq<Event>, base: nat, end: nat): nat {
    if queue == [] then 0
    else Weight(queue[..|queue| - 1], base, end) + EventWeight(queue[|queue| - 1], base, end)
  }

  lemma {:induction false} WeightAppend(a: seq<Event>, b: seq<Event>, base: nat, end: nat)
    ensures Weight(a + b, base, end) == Weight(a, base, end) + Weight(b, base, end)
    decreases |b|
  {
    hide EventWeight;
    if b == [] {
      assert a + b == a;
    } else {
      var n := |b| - 1;
      assert (a + b)[..|a| + n] == a + b[..n];
      WeightAppend(a, b[..n], base, end);
    }
  }

  function RemovedAt(queue: seq<Event>, k: nat): seq<Event>
    requires k < |queue|
  {
    queue[..k] + queue[k + 1..]
  }

  lemma WeightWithout(queue: seq<Event>, k: nat, base: nat, end: nat)
    requires k < |queue|
    ensures Weight(queue, base, end) == Weight(RemovedAt(queue, k), base, end) + EventWeight(queue[k], base, end)
  {
    hide EventWeight;
    var one := [queue[k]];
    assert queue == queue[..k] + one + queue[k + 1..];
    WeightAppend(queue[..k] + one, queue[k + 1..], base, end);
    WeightAppend(queue[..k], one, base, end);
    WeightAppend(queue[..k], queue[k + 1..], base, end);
    assert one[..0] == [];
    assert Weight(one, base, end) == EventWeight(queue[k], base, end);
  }

  lemma LaterEventWeight(e: Event, vtime: nat, base: nat, end: nat)
    requires base >= 1 && vtime < e.vtime && vtime < end
    ensures EventWeight(e, base, end) <= Pow(base, end - vtime - 1)
  {
    if e.vtime < end {
      PowMonotone(base, end - e.vtime, end - vtime - 1);
    }
  }

  /** Later events weigh together at most their number times the weight of the next instant. */
  lemma {:induction false} LaterWeight(added: seq<Event>, vtime: nat, base: nat, end: nat)
    requires base >= 1 && vtime < end
    requires forall e :: e in added ==> vtime < e.vtime
    ensures Weight(added, base, end) <= |added| * Pow(base, end - vtime - 1)
    decreases |added|
  {
    hide Pow, EventWeight;
    if added != [] {
      var n := |added| - 1;
      assert added[n] in added;
      LaterWeight(added[..n], vtime, base, end);
      LaterEventWeight(added[n], vtime, base, end);
      OneMoreUnit(n, Pow(base, end - vtime - 1));
    }
  }

  lemma OneMoreUnit(n: nat, unit: nat)
    ensures (n + 1) * unit == n * unit + unit
  {
  }

  /** Replacing an event by fewer than base later ones makes the queue lighter. */
  lemma HandlingLightens(queue: seq<Event>, k: nat, added: seq<Event>, base: nat, end: nat)
    requires k < |queue| && queue[k].vtime < end && |added| < base
    requires forall e :: e in added ==> queue[k].vtime < e.vtime
    ensures Weight(RemovedAt(queue, k) + added, base, end) < Weight(queue, base, end)
  {
    hide Pow, Weight;
    var v := queue[k].vtime;
    WeightWithout(queue, k, base, end);
    WeightAppend(RemovedAt(queue, k), added, base, end);
    LaterWeight(added, v, base, end);
    PowPositive(base, end - v - 1);
    PowStep(base, end - v);
    FewerUnits(|added|, base, Pow(base, end - v - 1));
  }

  lemma PowStep(b: nat, n: nat)
    requires n > 0
    ensures Pow(b, n) == b * Pow(b, n - 1)
  {
  }

  lemma {:induction false} FewerUnits(a: nat, b: nat, unit: nat)
    requires a < b && unit >= 1
    ensures a * unit < b * unit
    decreases b
  {
    assert b * unit == (b - 1) * unit + unit;
    if a < b - 1 {
      FewerUnits(a, b - 1, unit);
    }
  }

  // ---------- Who holds which packet ----------

  function HeldBy(e: Event): multiset<nat> {
    match e.packet case None => multiset{} case Some(id) => multiset{id}
  }

  /** The packets held by the queue, once for each event that holds them. */
  function Holding(queue: seq<Event>): multiset<nat> {
    if queue == [] then multiset{} else Holding(queue[..|queue| - 1]) + HeldBy(queue[|queue| - 1])
  }

  lemma BagLaws(a: multiset<nat>, b: multiset<nat>, c: multiset<nat>)
    ensures (a + b) + c == a + (b + c)
    ensures (a + b) + c == (a + c) + b
    ensures a + multiset{} == a
  {
  }

  lemma HoldingSnoc(queue: seq<Event>, e: Event)
    ensures Holding(queue + [e]) == Holding(queue) + HeldBy(e)
  {
    hide HeldBy;
    assert (queue + [e])[..|queue|] == queue;
  }

  lemma HoldingNone()
    ensures Holding([]) == multiset{}
  {
  }

  lemma {:induction false} HoldingAppend(a: seq<Event>, b: seq<Event>)
    ensures Holding(a + b) == Holding(a) + Holding(b)
    decreases |b|
  {
    hide Holding, HeldBy;
    if b == [] {
      assert a + b == a;
      HoldingNone();
      BagLaws(Holding(a), multiset{}, multiset{});
    } else {
      var front, last := b[..|b| - 1], b[|b| - 1];
      assert b == front + [last] && a + b == (a + front) + [last];
      HoldingSnoc(a + front, last);
      HoldingSnoc(front, last);
      HoldingAppend(a, front);
      BagLaws(Holding(a), Holding(front), HeldBy(last));
    }
  }

  lemma HoldingWithout(queue: seq<Event>, k: nat)
    requires k < |queue|
    ensures Holding(queue) == Holding(RemovedAt(queue, k)) + HeldBy(queue[k])
  {
    hide Holding, HeldBy;
    var a, e, b := queue[..k], queue[k], queue[k + 1..];
    assert queue == (a + [e]) + b;
    HoldingAppend(a + [e], b);
    HoldingSnoc(a, e);
    HoldingAppend(a, b);
    BagLaws(Holding(a), HeldBy(e), Holding(b));
  }

  lemma {:induction false} HolderInQueue(queue: seq<Event>, e: Event)
    requires e in queue && e.packet.Some?
    ensures e.packet.value in Holding(queue)
    decreases |queue|
  {
    var front, last := queue[..|queue| - 1], queue[|queue| - 1];
    assert queue == front + [last];
    if e in front {
      HolderInQueue(front, e);
    }
  }

  // ---------- Popping ----------

  predicate IsEarliest(queue: seq<Event>, k: nat) {
    k < |queue| && forall e :: e in queue ==> queue[k].vtime <= e.vtime
  }

  lemma {:induction false} EarliestExists(queue: seq<Event>) returns (k: nat)
    requires queue != []
    ensures IsEarliest(queue, k)
    decreases |queue|
  {
    var n := |queue| - 1;
    assert queue == queue[..n] + [queue[n]];
    if n == 0 {
      k := 0;
    } else {
      k := EarliestExists(queue[..n]);
      if queue[n].vtime < queue[k].vtime {
        k := n;
      }
    }
  }

  // ---------- What queued events mean ----------

  /** For each node, where its packets go: other nodes. */
  ghost predicate LinksOk(links: seq<seq<nat>>) {
    forall i, d :: 0 <= i < |links| && d in links[i] ==> d < |links| && d != i
  }

  ghost function EdgesOf(links: seq<seq<nat>>): Mesh.Edges {
    set i, k | 0 <= i < |links| && 0 <= k < |links[i]| :: (i, links[i][k])
  }

  /** The largest number of links of a node. */
  function MaxDegree(links: seq<seq<nat>>): (d: nat)
    ensures forall i :: 0 <= i < |links| ==> |links[i]| <= d
  {
    if links == [] then 0
    else
      var d, n := MaxDegree(links[..|links| - 1]), |links[|links| - 1]|;
      if n > d then n else d
  }

  /** A queued timer is for a node that is up; a queued beacon is in the air; neither is for the past. */
  ghost predicate EventOk(e: Event, store: Packets.Store, mesh: Mesh.State, end: nat) {
    && e.node.Some? && e.node.value < |mesh.nodes| && e.vtime < end
    && match e.packet
       case None => e.vtime >= mesh.now && mesh.nodes[e.node.value].status != Asleep
       case Some(id) => id in store && PacketOk(store[id].packet, e, mesh)
  }

  ghost predicate PacketOk(p: Packet, e: Event, mesh: Mesh.State)
    requires e.node.Some?
  {
    p.BeaconPacket? ==>
      e.vtime >= mesh.now && p.beacon.neigh != [] && Mesh.Flight(e.node.value, p.beacon) in mesh.air
  }

  ghost predicate QueueOk(queue: seq<Event>, store: Packets.Store, mesh: Mesh.State, end: nat) {
    forall e :: e in queue ==> EventOk(e, store, mesh, end)
  }

  /** References balance, counting those of the queue and those held by the code now running. */
  ghost predicate Accounted(queue: seq<Event>, store: Packets.Store, held: multiset<nat>, nextPacket: nat) {
    && Packets.Balanced(store, Holding(queue) + held)
    && forall id :: id in store ==> id < nextPacket
  }

  ghost predicate Grown(store: Packets.Store, later: Packets.Store) {
    forall id :: id in store ==> id in later && later[id] == store[id]
  }

  /** What a handler run for a node at time v may ask for, given the network state it leaves. */
  ghost predicate CallbackOk(c: Callback, node: nat, dsts: seq<nat>, v: nat, mesh: Mesh.State) {
    && node < |mesh.nodes|
    && match c
       case Timer(t) => t > v && v >= mesh.now && mesh.nodes[node].status != Asleep
       case Send(t, BeaconPacket(b)) =>
         t >= v >= mesh.now && b.neigh != [] && forall d :: d in dsts ==> Mesh.Flight(d, b) in mesh.air
       case Send(t, DataPacket(_)) => t >= v
  }

  /** A callback that sends data: neither a timer nor a beacon. */
  predicate Quiet(c: Callback) {
    c.Send? && c.packet.DataPacket?
  }

  ghost predicate IsData(e: Event, store: Packets.Store) {
    e.packet.Some? && e.packet.value in store && store[e.packet.value].packet.DataPacket?
  }

  /** No timer or beacon in the queue is earlier than v. */
  ghost predicate NoneBefore(queue: seq<Event>, store: Packets.Store, v: nat) {
    forall e :: e in queue ==> e.vtime >= v || IsData(e, store)
  }

  ghost predicate InOrder(times: seq<nat>, now: nat) {
    && (forall i, j :: 0 <= i < j < |times| ==> times[i] <= times[j])
    && (forall t :: t in times ==> t <= now)
  }

  /**
   The network's run so far: no step was skipped, the list of times is that of its steps,
   one for each, and it is in order.
   */
  ghost predicate History(edges: Mesh.Edges, start: Mesh.State, steps: seq<Mesh.Step>, handled: seq<nat>, mesh: Mesh.State) {
    && mesh == Mesh.Run(edges, start, steps) && Mesh.AllEnabled(edges, start, steps)
    && |handled| == |steps| && (forall i :: 0 <= i < |steps| ==> steps[i].vtime == handled[i])
    && InOrder(handled, mesh.now)
  }

  lemma HistoryGrows(edges: Mesh.Edges, start: Mesh.State, steps: seq<Mesh.Step>, handled: seq<nat>, mesh: Mesh.State, step: Mesh.Step)
    requires History(edges, start, steps, handled, mesh) && Mesh.Enabled(mesh, step)
    ensures History(edges, start, steps + [step], handled + [step.vtime], Mesh.Next(edges, mesh, step))
    ensures Mesh.Next(edges, mesh, step).now == step.vtime
  {
    hide InOrder, Mesh.Run, Mesh.AllEnabled;
    Mesh.RunSnoc(edges, start, steps, step);
    Mesh.AllEnabledSnoc(edges, start, steps, step);
    OneMoreTime(handled, mesh.now, step.vtime);
    NextTime(edges, mesh, step);
    hide Mesh.Next, Mesh.Enabled;
  }

  lemma NextTime(edges: Mesh.Edges, mesh: Mesh.State, step: Mesh.Step)
    requires Mesh.Enabled(mesh, step)
    ensures Mesh.Next(edges, mesh, step).now == step.vtime >= mesh.now
  {
    hide AfterTimer, AfterBeacon, BeaconOf;
  }

  // ---------- What callbacks queue ----------

  /** A propagation delay of sim_prop_delay; its lower bound never matters. */
  predicate PropDelay(d: nat, p: Packet) {
    PROP_DELAY <= d - PROP_DELAY_PERBYTE * Length(p) < PROP_DELAY + PROP_DELAY_FUZZ
  }

  /** One event for each destination, in order, as far as it comes before the end. */
  function Arrivals(ends: seq<nat>, vtime: nat, id: nat, delays: seq<nat>, end: nat): seq<Event>
    requires |ends| == |delays|
  {
    if ends == [] then []
    else
      var n := |ends| - 1;
      Arrivals(ends[..n], vtime, id, delays[..n], end)
      + (if vtime + delays[n] < end then [Event(vtime + delays[n], Some(ends[n]), Some(id))] else [])
  }

  ghost predicate Sent(p: Packet, vtime: nat, ends: seq<nat>, end: nat, added: seq<Event>, store: Packets.Store, id: nat, delays: seq<nat>) {
    && |delays| == |ends| && (forall d :: d in delays ==> PropDelay(d, p))
    && added == Arrivals(ends, vtime, id, delays, end)
    && (added != [] ==> id in store && store[id].packet == p)
  }

  predicate TimerSet(node: nat, vtime: nat, end: nat, added: seq<Event>, delay: nat) {
    && delay < TIMER_DELAY_FUZZ
    && added == if vtime + delay < end then [Event(vtime + delay, Some(node), None)] else []
  }

  /** What one callback of a node queues, for some random delays. */
  ghost predicate Asks(c: Callback, node: nat, ends: seq<nat>, end: nat, added: seq<Event>, store: Packets.Store) {
    match c
    case Timer(t) => exists delay: nat :: TimerSet(node, t, end, added, delay)
    case Send(t, p) => exists id: nat, delays: seq<nat> :: Sent(p, t, ends, end, added, store, id, delays)
  }

  /** What several callbacks queue, one after the other. */
  ghost predicate AsksAll(cbs: seq<Callback>, node: nat, ends: seq<nat>, end: nat, added: seq<Event>, store: Packets.Store)
    decreases |cbs|
  {
    if cbs == [] then added == []
    else
      exists k: nat :: k <= |added| && AsksAll(cbs[..|cbs| - 1], node, ends, end, added[..k], store)
                    && Asks(cbs[|cbs| - 1], node, ends, end, added[k..], store)
  }

  lemma AsksGrown(c: Callback, node: nat, ends: seq<nat>, end: nat, added: seq<Event>, store: Packets.Store, later: Packets.Store)
    requires Asks(c, node, ends, end, added, store) && Grown(store, later)
    ensures Asks(c, node, ends, end, added, later)
  {
    hide Arrivals, PropDelay;
    if c.Send? {
      var id: nat, delays: seq<nat> :| Sent(c.packet, c.vtime, ends, end, added, store, id, delays);
      assert Sent(c.packet, c.vtime, ends, end, added, later, id, delays);
    }
  }

  lemma {:induction false} AsksAllGrown(cbs: seq<Callback>, node: nat, ends: seq<nat>, end: nat,
                                        added: seq<Event>, store: Packets.Store, later: Packets.Store)
    requires AsksAll(cbs, node, ends, end, added, store) && Grown(store, later)
    ensures AsksAll(cbs, node, ends, end, added, later)
    decreases |cbs|
  {
    hide Asks, Grown;
    if cbs != [] {
      var front, last := cbs[..|cbs| - 1], cbs[|cbs| - 1];
      var k: nat :| k <= |added| && AsksAll(front, node, ends, end, added[..k], store)
                 && Asks(last, node, ends, end, added[k..], store);
      AsksAllGrown(front, node, ends, end, added[..k], store, later);
      AsksGrown(last, node, ends, end, added[k..], store, later);
    }
  }

  lemma AsksOneMore(cbs: seq<Callback>, c: Callback, node: nat, ends: seq<nat>, end: nat,
                    added: seq<Event>, more: seq<Event>, before: Packets.Store, store: Packets.Store)
    requires AsksAll(cbs, node, ends, end, added, before) && Grown(before, store)
    requires Asks(c, node, ends, end, more, store)
    ensures AsksAll(cbs + [c], node, ends, end, added + more, store)
  {
    hide Asks, Grown;
    AsksAllGrown(cbs, node, ends, end, added, before, store);
    assert (cbs + [c])[..|cbs|] == cbs && (cbs + [c])[|cbs|] == c;
    assert (added + more)[..|added|] == added && (added + more)[|added|..] == more;
  }

  lemma NoArrivals(vtime: nat, id: nat, end: nat)
    ensures Arrivals([], vtime, id, [], end) == []
  {
  }

  lemma ArrivalsStep(ends: seq<nat>, k: nat, vtime: nat, id: nat, delays: seq<nat>, delay: nat, end: nat)
    requires k < |ends| && |delays| == k
    ensures Arrivals(ends[..k + 1], vtime, id, delays + [delay], end)
         == Arrivals(ends[..k], vtime, id, delays, end)
            + (if vtime + delay < end then [Event(vtime + delay, Some(ends[k]), Some(id))] else [])
  {
    assert ends[..k + 1][..k] == ends[..k] && (delays + [delay])[..k] == delays;
  }

  lemma PropDelayIs(delay: nat, fuzz: nat, p: Packet)
    requires fuzz < PROP_DELAY_FUZZ && delay == PROP_DELAY + PROP_DELAY_PERBYTE * Length(p) + fuzz
    ensures PropDelay(delay, p)
  {
  }

  /** What the route tests of the first n nodes queue. */
  ghost predicate Probed(nodes: seq<Node>, n: nat, tick: nat, links: seq<seq<nat>>, end: nat, added: seq<Event>, store: Packets.Store)
    requires n <= |nodes| && n <= |links|
    decreases n
  {
    if n == 0 then added == []
    else
      exists k: nat :: k <= |added| && Probed(nodes, n - 1, tick, links, end, added[..k], store)
                    && AsksAll(RouteProbe(nodes[n - 1], tick), n - 1, links[n - 1], end, added[k..], store)
  }

  lemma {:induction false} ProbedGrown(nodes: seq<Node>, n: nat, tick: nat, links: seq<seq<nat>>, end: nat,
                                       added: seq<Event>, store: Packets.Store, later: Packets.Store)
    requires n <= |nodes| && n <= |links| && Probed(nodes, n, tick, links, end, added, store) && Grown(store, later)
    ensures Probed(nodes, n, tick, links, end, added, later)
    decreases n
  {
    hide AsksAll, Grown, RouteProbe;
    if n > 0 {
      var k: nat :| k <= |added| && Probed(nodes, n - 1, tick, links, end, added[..k], store)
                 && AsksAll(RouteProbe(nodes[n - 1], tick), n - 1, links[n - 1], end, added[k..], store);
      ProbedGrown(nodes, n - 1, tick, links, end, added[..k], store, later);
      AsksAllGrown(RouteProbe(nodes[n - 1], tick), n - 1, links[n - 1], end, added[k..], store, later);
    }
  }

  lemma ProbedOneMore(nodes: seq<Node>, n: nat, tick: nat, links: seq<seq<nat>>, end: nat,
                      added: seq<Event>, more: seq<Event>, before: Packets.Store, store: Packets.Store)
    requires n < |nodes| && n < |links| && Probed(nodes, n, tick, links, end, added, before) && Grown(before, store)
    requires AsksAll(RouteProbe(nodes[n], tick), n, links[n], end, more, store)
    ensures Probed(nodes, n + 1, tick, links, end, added + more, store)
  {
    hide AsksAll, Grown, RouteProbe;
    ProbedGrown(nodes, n, tick, links, end, added, before, store);
    assert (added + more)[..|added|] == added && (added + more)[|added|..] == more;
  }

  /** The first n nodes are as node_init leaves them, and what it asks for is queued. */
  ghost predicate Started(nodes: seq<Node>, n: nat, options: Options, ends: seq<nat>, end: nat, queue: seq<Event>)
    requires n <= |nodes|
    decreases n
  {
    if n == 0 then queue == []
    else
      exists k: nat, loc: Loc, delay: nat :: k <= |queue| && StartedOne(nodes, n, options, ends, end, queue[k..], loc, delay)
                                          && Started(nodes, n - 1, options, ends, end, queue[..k])
  }

  ghost predicate StartedOne(nodes: seq<Node>, n: nat, options: Options, ends: seq<nat>, end: nat, added: seq<Event>, loc: Loc, delay: nat)
    requires 0 < n <= |nodes|
  {
    var i := n - 1;
    Jitter(delay) && nodes[i] == Init(i, options, loc, delay).0 && AsksAll(Init(i, options, loc, delay).1, i, ends, end, added, map[])
  }

  lemma StartedPrefix(nodes: seq<Node>, more: seq<Node>, n: nat, options: Options, ends: seq<nat>, end: nat, queue: seq<Event>)
    requires n <= |nodes| && Started(nodes, n, options, ends, end, queue)
    ensures Started(nodes + more, n, options, ends, end, queue)
    decreases n
  {
    hide AsksAll, Init;
    if n > 0 {
      var k: nat, loc: Loc, delay: nat :| k <= |queue| && StartedOne(nodes, n, options, ends, end, queue[k..], loc, delay)
                                       && Started(nodes, n - 1, options, ends, end, queue[..k]);
      StartedPrefix(nodes, more, n - 1, options, ends, end, queue[..k]);
      assert StartedOne(nodes + more, n, options, ends, end, queue[k..], loc, delay);
    }
  }

  lemma StartedOneMore(nodes: seq<Node>, node: Node, options: Options, ends: seq<nat>, end: nat,
                       queue: seq<Event>, added: seq<Event>, loc: Loc, delay: nat)
    requires Started(nodes, |nodes|, options, ends, end, queue) && Jitter(delay)
    requires node == Init(|nodes|, options, loc, delay).0
    requires AsksAll(Init(|nodes|, options, loc, delay).1, |nodes|, ends, end, added, map[])
    ensures Started(nodes + [node], |nodes| + 1, options, ends, end, queue + added)
  {
    hide AsksAll, Init;
    StartedPrefix(nodes, [node], |nodes|, options, ends, end, queue);
    assert (queue + added)[..|queue|] == queue && (queue + added)[|queue|..] == added;
    assert StartedOne(nodes + [node], |nodes| + 1, options, ends, end, added, loc, delay);
  }

  lemma NothingAsked(node: nat, ends: seq<nat>, end: nat, store: Packets.Store)
    ensures AsksAll([], node, ends, end, [], store)
  {
  }

  lemma NoneStarted(options: Options, end: nat)
    ensures Started([], 0, options, [], end, [])
  {
  }

  /** node_init asks for at most a timer, and only at a node that is up. */
  lemma InitAsks(id: nat, options: Options, loc: Loc, delay: nat)
    ensures var (node, cbs) := Init(id, options, loc, delay);
      cbs == [] || (|cbs| == 1 && cbs[0].Timer? && cbs == [Timer(cbs[0].vtime)] && node.status != Asleep)
  {
  }

  lemma AsksOneTimer(t: nat, node: nat, ends: seq<nat>, end: nat, added: seq<Event>)
    requires exists delay: nat :: TimerSet(node, t, end, added, delay)
    ensures AsksAll([Timer(t)], node, ends, end, added, map[])
  {
    AsksOneMore([], Timer(t), node, ends, end, [], added, map[], map[]);
    assert [] + [Timer(t)] == [Timer(t)] && [] + added == added;
  }

  /** The packets that events carry, where they still exist, are the same. */
  ghost predicate SamePackets(added: seq<Event>, store: Packets.Store, later: Packets.Store) {
    forall e :: e in added && e.packet.Some? && e.packet.value in store ==>
      e.packet.value in later && later[e.packet.value].packet == store[e.packet.value].packet
  }

  lemma SentSame(p: Packet, vtime: nat, ends: seq<nat>, end: nat, added: seq<Event>, store: Packets.Store, later: Packets.Store,
                 id: nat, delays: seq<nat>)
    requires Sent(p, vtime, ends, end, added, store, id, delays) && SamePackets(added, store, later)
    ensures Sent(p, vtime, ends, end, added, later, id, delays)
  {
    ArrivalsAre(ends, vtime, id, delays, end, p);
    hide Arrivals, PropDelay;
    if added != [] {
      assert added[0] in added;
    }
  }

  lemma AsksSame(c: Callback, node: nat, ends: seq<nat>, end: nat, added: seq<Event>, store: Packets.Store, later: Packets.Store)
    requires Asks(c, node, ends, end, added, store) && SamePackets(added, store, later)
    ensures Asks(c, node, ends, end, added, later)
  {
    hide Sent, SamePackets;
    if c.Send? {
      var id: nat, delays: seq<nat> :| Sent(c.packet, c.vtime, ends, end, added, store, id, delays);
      SentSame(c.packet, c.vtime, ends, end, added, store, later, id, delays);
    }
  }

  lemma PartOf(added: seq<Event>, k: nat, store: Packets.Store, later: Packets.Store)
    requires SamePackets(added, store, later) && k <= |added|
    ensures SamePackets(added[..k], store, later) && SamePackets(added[k..], store, later)
  {
  }

  lemma {:induction false} AsksAllSame(cbs: seq<Callback>, node: nat, ends: seq<nat>, end: nat,
                                       added: seq<Event>, store: Packets.Store, later: Packets.Store)
    requires AsksAll(cbs, node, ends, end, added, store) && SamePackets(added, store, later)
    ensures AsksAll(cbs, node, ends, end, added, later)
    decreases |cbs|
  {
    hide Asks, SamePackets;
    if cbs != [] {
      var front, last := cbs[..|cbs| - 1], cbs[|cbs| - 1];
      var k: nat :| k <= |added| && AsksAll(front, node, ends, end, added[..k], store)
                 && Asks(last, node, ends, end, added[k..], store);
      PartOf(added, k, store, later);
      AsksAllSame(front, node, ends, end, added[..k], store, later);
      AsksSame(last, node, ends, end, added[k..], store, later);
    }
  }

  lemma {:induction false} ProbedSame(nodes: seq<Node>, n: nat, tick: nat, links: seq<seq<nat>>, end: nat,
                                      added: seq<Event>, store: Packets.Store, later: Packets.Store)
    requires n <= |nodes| && n <= |links| && Probed(nodes, n, tick, links, end, added, store) && SamePackets(added, store, later)
    ensures Probed(nodes, n, tick, links, end, added, later)
    decreases n
  {
    hide AsksAll, SamePackets, RouteProbe;
    if n > 0 {
      var k: nat :| k <= |added| && Probed(nodes, n - 1, tick, links, end, added[..k], store)
                 && AsksAll(RouteProbe(nodes[n - 1], tick), n - 1, links[n - 1], end, added[k..], store);
      PartOf(added, k, store, later);
      ProbedSame(nodes, n - 1, tick, links, end, added[..k], store, later);
      AsksAllSame(RouteProbe(nodes[n - 1], tick), n - 1, links[n - 1], end, added[k..], store, later);
    }
  }

  /** Arrivals lie between the sending and the end, at the destinations. */
  lemma {:induction false} ArrivalsAre(ends: seq<nat>, vtime: nat, id: nat, delays: seq<nat>, end: nat, p: Packet)
    requires |ends| == |delays| && forall d :: d in delays ==> PropDelay(d, p)
    ensures |Arrivals(ends, vtime, id, delays, end)| <= |ends|
    ensures forall e :: e in Arrivals(ends, vtime, id, delays, end) ==>
              e.packet == Some(id) && vtime < e.vtime < end && e.node.Some? && e.node.value in ends
    decreases |ends|
  {
    if ends != [] {
      var n := |ends| - 1;
      assert forall d :: d in delays[..n] ==> d in delays;
      ArrivalsAre(ends[..n], vtime, id, delays[..n], end, p);
      assert delays[n] in delays && PropDelay(delays[n], p);
    }
  }

  /** The step of the network that handling an event takes. */
  predicate StepFor(step: Mesh.Step, e: Event, store: Packets.Store) {
    && e.node.Some? && step.vtime == e.vtime
    && match e.packet
       case None => step.Fire? && step.node == e.node.value && Jitter(step.delay1) && Jitter(step.delay2)
       case Some(id) =>
         step.Deliver? && Jitter(step.delay) && id in store && store[id].packet.BeaconPacket?
         && step.flight == Mesh.Flight(e.node.value, store[id].packet.beacon)
  }

  /** What the handler of an event asks for; step says what the dice showed. */
  function Answer(nodes: seq<Node>, e: Event, store: Packets.Store, step: Mesh.Step): seq<Callback>
    requires e.node.Some? && e.node.value < |nodes| && (e.packet.Some? ==> e.packet.value in store)
  {
    var node := nodes[e.node.value];
    match e.packet
    case None => if step.Fire? then AfterTimer(node, e.vtime, step.delay1, step.delay2, step.loc).1 else []
    case Some(id) =>
      match store[id].packet
      case DataPacket(d) => DataAnswer(node, e.vtime, d)
      case BeaconPacket(b) =>
        if !step.Deliver? || b.neigh == [] then []
        else
          match AfterBeacon(node, e.vtime, b, step.delay, step.loc)
          case None => []
          case Some(result) => result.1
  }

  /** The nodes after the handler of an event; None when a neighbour table overflows. */
  function NodesAfter(nodes: seq<Node>, e: Event, store: Packets.Store, step: Mesh.Step): Option<seq<Node>>
    requires e.node.Some? && e.node.value < |nodes| && (e.packet.Some? ==> e.packet.value in store)
  {
    var n := e.node.value;
    match e.packet
    case None =>
      if step.Fire? then Some(nodes[n := AfterTimer(nodes[n], e.vtime, step.delay1, step.delay2, step.loc).0]) else None
    case Some(id) =>
      match store[id].packet
      case DataPacket(_) => Some(nodes)
      case BeaconPacket(b) =>
        if !step.Deliver? || b.neigh == [] then None
        else
          match AfterBeacon(nodes[n], e.vtime, b, step.delay, step.loc)
          case None => None
          case Some(result) => Some(nodes[n := result.0])
  }

  /** How many events a list of callbacks can queue. */
  function Cost(cbs: seq<Callback>, degree: nat): nat {
    if cbs == [] then 0
    else Cost(cbs[..|cbs| - 1], degree) + if cbs[|cbs| - 1].Timer? then 1 else degree
  }

  lemma CostOne(c: Callback, degree: nat)
    ensures Cost([c], degree) == if c.Timer? then 1 else degree
  {
    assert [c][..0] == [];
  }

  lemma CostTwo(c: Callback, d: Callback, degree: nat)
    ensures Cost([c, d], degree) == Cost([c], degree) + if d.Timer? then 1 else degree
  {
    assert [c, d][..1] == [c];
  }

  lemma CostThree(c: Callback, d: Callback, e: Callback, degree: nat)
    ensures Cost([c, d, e], degree) == Cost([c, d], degree) + if e.Timer? then 1 else degree
  {
    assert [c, d, e][..2] == [c, d];
  }

  // ---------- Handlers ask for what they may ----------

  lemma FireCallbacks(links: seq<seq<nat>>, mesh: Mesh.State, step: Mesh.Step)
    requires LinksOk(links) && |links| == |mesh.nodes|
    requires step.Fire? && Mesh.Enabled(mesh, step) && Jitter(step.delay1) && Jitter(step.delay2)
    ensures var n, after := step.node, Mesh.Next(EdgesOf(links), mesh, step);
            var cbs := AfterTimer(mesh.nodes[n], step.vtime, step.delay1, step.delay2, step.loc).1;
            && Cost(cbs, |links[n]|) <= |links[n]| + 2
            && forall c :: c in cbs ==> CallbackOk(c, n, links[n], step.vtime, after)
  {
    var n, v := step.node, step.vtime;
    var mesh' := Mesh.Next(EdgesOf(links), mesh, step);
    var (after, cbs) := AfterTimer(mesh.nodes[n], v, step.delay1, step.delay2, step.loc);
    hide AfterTimer;
    TimerCallbacks(mesh.nodes[n], v, step.delay1, step.delay2, step.loc);
    TimerAdvances(mesh.nodes[n], v, step.delay1, step.delay2, step.loc);
    var b := BeaconOf(after);
    var timers: seq<nat>, t: nat :| |timers| <= 1 && t > v && (forall u :: u in timers ==> u > v)
      && cbs == (if timers == [] then [] else [Timer(timers[0])]) + [Send(v, BeaconPacket(b)), Timer(t)];
    var send, last := Send(v, BeaconPacket(b)), Timer(t);
    forall d | d in links[n] ensures Mesh.Flight(d, b) in mesh'.air {
      var k :| 0 <= k < |links[n]| && links[n][k] == d;
      assert (n, d) in EdgesOf(links);
    }
    assert CallbackOk(send, n, links[n], v, mesh') && CallbackOk(last, n, links[n], v, mesh');
    if timers == [] {
      assert cbs == [send, last];
      CostOne(send, |links[n]|);
      CostTwo(send, last, |links[n]|);
    } else {
      assert timers[0] in timers && cbs == [Timer(timers[0]), send, last];
      CostOne(Timer(timers[0]), |links[n]|);
      CostTwo(Timer(timers[0]), send, |links[n]|);
      CostThree(Timer(timers[0]), send, last, |links[n]|);
    }
  }

  lemma DeliverCallbacks(links: seq<seq<nat>>, mesh: Mesh.State, step: Mesh.Step)
    requires LinksOk(links) && |links| == |mesh.nodes|
    requires step.Deliver? && Mesh.Enabled(mesh, step) && Jitter(step.delay)
    requires AfterBeacon(mesh.nodes[step.flight.to], step.vtime, step.flight.beacon, step.delay, step.loc).Some?
    ensures var n, after := step.flight.to, Mesh.Next(EdgesOf(links), mesh, step);
            var cbs := AfterBeacon(mesh.nodes[n], step.vtime, step.flight.beacon, step.delay, step.loc).value.1;
            && !after.crashed
            && Cost(cbs, |links[n]|) <= |links[n]| + 2
            && forall c :: c in cbs ==> CallbackOk(c, n, links[n], step.vtime, after)
  {
    var n, v := step.flight.to, step.vtime;
    var (after, cbs) := AfterBeacon(mesh.nodes[n], v, step.flight.beacon, step.delay, step.loc).value;
    var p := BeaconPacket(step.flight.beacon);
    ReceiveCallbacks(mesh.nodes[n], v, p, step.delay, step.loc);
    ReceiveAdvances(mesh.nodes[n], v, p, step.delay, step.loc);
    hide AfterBeacon;
    TimersCost(cbs, |links[n]|);
    assert cbs != [] ==> cbs[0] in cbs;
  }

  lemma {:induction false} TimersCost(cbs: seq<Callback>, degree: nat)
    requires forall c :: c in cbs ==> c.Timer?
    ensures Cost(cbs, degree) == |cbs|
    decreases |cbs|
  {
    if cbs != [] {
      TimersCost(cbs[..|cbs| - 1], degree);
    }
  }

  lemma DataCallbacks(links: seq<seq<nat>>, mesh: Mesh.State, n: nat, v: nat, cbs: seq<Callback>)
    requires n < |links| == |mesh.nodes|
    requires |cbs| <= 1 && forall c :: c in cbs ==> Quiet(c) && c.vtime == v
    ensures Cost(cbs, |links[n]|) <= |links[n]| + 2
    ensures forall c :: c in cbs ==> CallbackOk(c, n, links[n], v, mesh)
  {
    if cbs != [] {
      assert cbs == [cbs[0]];
      CostOne(cbs[0], |links[n]|);
    }
  }

  // ---------- A network step keeps queued events meaningful ----------

  lemma StepKeepsEvent(edges: Mesh.Edges, e: Event, store: Packets.Store, mesh: Mesh.State, end: nat, step: Mesh.Step)
    requires EventOk(e, store, mesh, end) && Mesh.Enabled(mesh, step)
    requires e.vtime >= step.vtime || IsData(e, store)
    ensures EventOk(e, store, Mesh.Next(edges, mesh, step), end)
  {
    Mesh.NextAdvances(edges, mesh, step, e.node.value);
  }

  lemma StepKeepsQueue(edges: Mesh.Edges, queue: seq<Event>, store: Packets.Store, mesh: Mesh.State, end: nat, step: Mesh.Step)
    requires QueueOk(queue, store, mesh, end) && Mesh.Enabled(mesh, step) && NoneBefore(queue, store, step.vtime)
    ensures QueueOk(queue, store, Mesh.Next(edges, mesh, step), end)
  {
    hide EventOk, IsData, Mesh.Enabled, Mesh.Next;
    forall e | e in queue ensures EventOk(e, store, Mesh.Next(edges, mesh, step), end) {
      StepKeepsEvent(edges, e, store, mesh, end, step);
    }
  }

  lemma GrownQueueOk(queue: seq<Event>, store: Packets.Store, later: Packets.Store, mesh: Mesh.State, end: nat)
    requires QueueOk(queue, store, mesh, end) && Grown(store, later)
    ensures QueueOk(queue, later, mesh, end)
  {
    hide EventOk, Grown;
    forall e | e in queue ensures EventOk(e, later, mesh, end) {
      GrownEventOk(e, store, later, mesh, end);
    }
  }

  lemma FreedQueueOk(queue: seq<Event>, store: Packets.Store, held: multiset<nat>, nextPacket: nat, id: nat, mesh: Mesh.State, end: nat)
    requires QueueOk(queue, store, mesh, end) && id in store && store[id].refcount > 0
    requires Accounted(queue, Packets.Free(store, id), held, nextPacket)
    ensures QueueOk(queue, Packets.Free(store, id), mesh, end)
  {
    hide Accounted;
    var later := Packets.Free(store, id);
    forall e | e in queue ensures EventOk(e, later, mesh, end) {
      if e.packet.Some? {
        QueuedIsLive(queue, later, held, nextPacket, e);
      }
    }
  }

  /** Freeing one reference changes no packet that an event in the queue carries. */
  lemma FreedSame(queue: seq<Event>, store: Packets.Store, held: multiset<nat>, nextPacket: nat, id: nat)
    requires id in store && store[id].refcount > 0
    requires Accounted(queue, Packets.Free(store, id), held, nextPacket)
    ensures SamePackets(queue, store, Packets.Free(store, id))
  {
    hide Accounted;
    var later := Packets.Free(store, id);
    forall e | e in queue && e.packet.Some? ensures e.packet.value in later {
      QueuedIsLive(queue, later, held, nextPacket, e);
    }
  }

  lemma GrownSame(queue: seq<Event>, before: Packets.Store, store: Packets.Store, later: Packets.Store)
    requires Grown(before, store) && SamePackets(queue, store, later)
    ensures SamePackets(queue, before, later)
  {
  }

  lemma AnswerGrown(nodes: seq<Node>, e: Event, before: Packets.Store, store: Packets.Store, step: Mesh.Step)
    requires e.node.Some? && e.node.value < |nodes| && (e.packet.Some? ==> e.packet.value in before) && Grown(before, store)
    ensures Answer(nodes, e, before, step) == Answer(nodes, e, store, step)
  {
    hide AfterTimer, AfterBeacon, DataAnswer;
  }

  lemma NodesAfterGrown(nodes: seq<Node>, e: Event, before: Packets.Store, store: Packets.Store, step: Mesh.Step)
    requires e.node.Some? && e.node.value < |nodes| && (e.packet.Some? ==> e.packet.value in before) && Grown(before, store)
    ensures NodesAfter(nodes, e, before, step) == NodesAfter(nodes, e, store, step)
  {
    hide AfterTimer, AfterBeacon;
  }

  lemma JoinedSame(a: seq<Event>, b: seq<Event>, store: Packets.Store, later: Packets.Store)
    requires SamePackets(a + b, store, later)
    ensures SamePackets(a, store, later) && SamePackets(b, store, later)
  {
    assert forall e :: e in a ==> e in a + b;
    assert forall e :: e in b ==> e in a + b;
  }

  lemma JoinedQueueOk(a: seq<Event>, b: seq<Event>, store: Packets.Store, mesh: Mesh.State, end: nat)
    requires QueueOk(a, store, mesh, end) && forall e :: e in b ==> EventOk(e, store, mesh, end)
    ensures QueueOk(a + b, store, mesh, end)
  {
    hide EventOk;
  }

  lemma GrownIsSame(queue: seq<Event>, before: Packets.Store, store: Packets.Store, later: Packets.Store)
    requires Grown(before, store) && Grown(store, later)
    ensures SamePackets(queue, before, later)
  {
  }

  // ---------- The rounds of a run ----------

  /** The program between two rounds of the event loop, and the network steps made so far. */
  datatype Snap = Snap(queue: seq<Event>, store: Packets.Store, tick: nat, nodes: seq<Node>, steps: seq<Mesh.Step>)

  /** What one round did: the event it took, the network step, the probes and what the handler asked for. */
  datatype Turn = Turn(k: nat, step: Mesh.Step, probes: seq<Event>, added: seq<Event>)

  /**
   One round: an earliest event is handled by one network step, or by none if it carries
   data; the queue gets the probes of a tick that is behind and exactly what the handler
   asks for, and nothing else in it changes.
   */
  ghost predicate RoundIs(links: seq<seq<nat>>, end: nat, a: Snap, b: Snap, turn: Turn) {
    && IsEarliest(a.queue, turn.k)
    && var e := a.queue[turn.k];
    && e.node.Some? && e.node.value < |a.nodes| == |links| && (e.packet.Some? ==> e.packet.value in a.store)
    && b.queue == RemovedAt(a.queue, turn.k) + turn.probes + turn.added
    && SamePackets(RemovedAt(a.queue, turn.k), a.store, b.store)
    && (if e.vtime > a.tick
        then b.tick == a.tick + VTIME_SECONDS && Probed(a.nodes, |a.nodes|, a.tick, links, end, turn.probes, b.store)
        else b.tick == a.tick && turn.probes == [])
    && AsksAll(Answer(a.nodes, e, a.store, turn.step), e.node.value, links[e.node.value], end, turn.added, b.store)
    && NodesAfter(a.nodes, e, a.store, turn.step) == Some(b.nodes)
    && (if IsData(e, a.store) then b.steps == a.steps
        else StepFor(turn.step, e, a.store) && b.steps == a.steps + [turn.step])
  }

  /** The round in which a table overflows: its step is the last. */
  ghost predicate StopIs(last: Snap, turn: Turn, steps: seq<Mesh.Step>) {
    && IsEarliest(last.queue, turn.k) && StepFor(turn.step, last.queue[turn.k], last.store)
    && steps == last.steps + [turn.step]
  }

  /** The nodes are what the steps so far make of the network, and every queued packet is allocated. */
  ghost predicate SnapOk(links: seq<seq<nat>>, start: Mesh.State, s: Snap) {
    && s.nodes == Mesh.Run(EdgesOf(links), start, s.steps).nodes && |s.nodes| == |links|
    && forall e :: e in s.queue && e.packet.Some? ==> e.packet.value in s.store
  }

  /** A run as a chain of rounds. */
  ghost predicate Rounds(links: seq<seq<nat>>, end: nat, start: Mesh.State, snaps: seq<Snap>, turns: seq<Turn>) {
    && |snaps| == |turns| + 1
    && (forall i :: 0 <= i < |snaps| ==> SnapOk(links, start, snaps[i]))
    && (forall i :: 0 <= i < |turns| ==> RoundIs(links, end, snaps[i], snaps[i + 1], turns[i]))
  }

  /** The events that the rounds of a chain took, and those that they queued. */
  function Handled(snaps: seq<Snap>, turns: seq<Turn>): multiset<Event>
    requires |snaps| > |turns|
  {
    if turns == [] then multiset{}
    else
      var n := |turns| - 1;
      Handled(snaps[..|turns|], turns[..n]) + TakenIn(snaps[n], turns[n])
  }

  function TakenIn(s: Snap, turn: Turn): multiset<Event> {
    if turn.k < |s.queue| then multiset{s.queue[turn.k]} else multiset{}
  }

  function Queued(turns: seq<Turn>): multiset<Event> {
    if turns == [] then multiset{}
    else
      var n := |turns| - 1;
      Queued(turns[..n]) + multiset(turns[n].probes) + multiset(turns[n].added)
  }

  /** Main result: over any chain of rounds, what was queued is exactly what has been handled and what is still queued. */
  lemma {:induction false} EventsConserved(links: seq<seq<nat>>, end: nat, start: Mesh.State, snaps: seq<Snap>, turns: seq<Turn>)
    requires Rounds(links, end, start, snaps, turns)
    ensures |snaps| == |turns| + 1
    ensures multiset(snaps[0].queue) + Queued(turns) == Handled(snaps, turns) + multiset(snaps[|turns|].queue)
    decreases |turns|
  {
    hide RoundIs, SnapOk, TakenIn;
    if turns != [] {
      var n := |turns| - 1;
      RoundsPrefix(links, end, start, snaps, turns);
      var before, prior := snaps[..|turns|], turns[..n];
      EventsConserved(links, end, start, before, prior);
      RoundConserves(links, end, snaps[n], snaps[n + 1], turns[n]);
      assert before[0] == snaps[0] && before[|prior|] == snaps[n];
      BagsMove(multiset(snaps[0].queue), Queued(prior), Handled(before, prior), multiset(snaps[n].queue),
               multiset(turns[n].probes), multiset(turns[n].added), TakenIn(snaps[n], turns[n]), multiset(snaps[n + 1].queue));
      hide Rounds;
    }
  }

  lemma BagsMove(first: multiset<Event>, queued: multiset<Event>, handled: multiset<Event>, now: multiset<Event>,
                 probes: multiset<Event>, added: multiset<Event>, taken: multiset<Event>, later: multiset<Event>)
    requires first + queued == handled + now && now + probes + added == taken + later
    ensures first + (queued + probes + added) == (handled + taken) + later
  {
    assert first + (queued + probes + added) == (first + queued) + probes + added;
    assert (handled + now) + probes + added == handled + (now + probes + added);
  }

  lemma RoundsPrefix(links: seq<seq<nat>>, end: nat, start: Mesh.State, snaps: seq<Snap>, turns: seq<Turn>)
    requires Rounds(links, end, start, snaps, turns) && turns != []
    ensures Rounds(links, end, start, snaps[..|turns|], turns[..|turns| - 1])
    ensures RoundIs(links, end, snaps[|turns| - 1], snaps[|turns|], turns[|turns| - 1])
  {
    hide SnapOk, RoundIs;
  }

  lemma RoundConserves(links: seq<seq<nat>>, end: nat, a: Snap, b: Snap, turn: Turn)
    requires RoundIs(links, end, a, b, turn)
    ensures turn.k < |a.queue|
    ensures multiset(a.queue) + multiset(turn.probes) + multiset(turn.added) == TakenIn(a, turn) + multiset(b.queue)
  {
    hide SamePackets, Probed, AsksAll, Answer, NodesAfter, IsData, StepFor;
    Removes(a.queue, turn.k);
  }

  lemma Removes(queue: seq<Event>, k: nat)
    requires k < |queue|
    ensures multiset(queue) == multiset{queue[k]} + multiset(RemovedAt(queue, k))
  {
    assert queue == queue[..k] + [queue[k]] + queue[k + 1..];
  }

  // ---------- One operation at a time ----------

  lemma InsertBalanced(queue: seq<Event>, store: Packets.Store, held: multiset<nat>, e: Event, nextPacket: nat)
    requires Accounted(queue, store, held, nextPacket) && e.packet.Some? && e.packet.value in held
    ensures e.packet.value in store
    ensures Accounted(queue + [e], Packets.Clone(store, e.packet.value), held, nextPacket)
  {
    hide Holding;
    var id := e.packet.value;
    Packets.CloneBalanced(store, Holding(queue) + held, id);
    HoldingSnoc(queue, e);
    BagLaws(Holding(queue), held, multiset{id});
  }

  lemma InsertTimerBalanced(queue: seq<Event>, store: Packets.Store, held: multiset<nat>, e: Event, nextPacket: nat)
    requires Accounted(queue, store, held, nextPacket) && e.packet.None?
    ensures Accounted(queue + [e], store, held, nextPacket)
  {
    hide Holding;
    HoldingSnoc(queue, e);
    BagLaws(Holding(queue), held, multiset{});
  }

  lemma NewAccounted(queue: seq<Event>, store: Packets.Store, held: multiset<nat>, nextPacket: nat, p: Packet)
    requires Accounted(queue, store, held, nextPacket)
    ensures Accounted(queue, Packets.New(store, nextPacket, p), held + multiset{nextPacket}, nextPacket + 1)
  {
    hide Holding;
    Packets.NewBalanced(store, Holding(queue) + held, nextPacket, p);
    BagLaws(Holding(queue), held, multiset{nextPacket});
  }

  lemma FreeAccounted(queue: seq<Event>, store: Packets.Store, held: multiset<nat>, nextPacket: nat, id: nat)
    requires Accounted(queue, store, held + multiset{id}, nextPacket)
    ensures id in store && store[id].refcount > 0
    ensures Accounted(queue, Packets.Free(store, id), held, nextPacket)
  {
    hide Holding;
    BagLaws(Holding(queue), held, multiset{id});
    Packets.FreeBalanced(store, Holding(queue) + (held + multiset{id}), id);
    assert Holding(queue) + (held + multiset{id}) - multiset{id} == Holding(queue) + held;
  }

  // ---------- The simulator ----------

  class Simulator {
    const links: seq<seq<nat>>
    const end: nat
    var queue: seq<Event>
    var store: Packets.Store
    var nextPacket: nat
    var nodes: seq<Node>
    var tick: nat
    ghost var mesh: Mesh.State  // the network state that nodes and queued beacons belong to
    ghost var start: Mesh.State
    ghost var steps: seq<Mesh.Step>  // how the network got from start to mesh
    ghost var handled: seq<nat>  // the times of the timers and beacons handled, in order

    constructor (links: seq<seq<nat>>, end: nat)
      ensures this.links == links && this.end == end
      ensures queue == [] && store == map[] && nextPacket == 0 && nodes == [] && tick == 0
    {
      this.links := links;
      this.end := end;
      queue := [];
      store := map[];
      nextPacket := 0;
      nodes := [];
      tick := 0;
      mesh := Mesh.State(0, [], {}, {}, false);
      start := mesh;
      steps := [];
      handled := [];
    }

    /** node_init for the next node: it may ask for a timer. */
    method StartNode(options: Options)
      requires |nodes| < |links| && store == map[] && nextPacket == 0
      requires mesh == Mesh.State(0, nodes, {}, {}, false) && Mesh.Initial(mesh, options)
      requires Accounted(queue, store, multiset{}, nextPacket) && QueueOk(queue, store, mesh, end)
      requires Started(nodes, |nodes|, options, [], end, queue)
      modifies this`queue, this`nodes, this`mesh
      ensures |nodes| == |old(nodes)| + 1
      ensures mesh == Mesh.State(0, nodes, {}, {}, false) && Mesh.Initial(mesh, options)
      ensures Accounted(queue, store, multiset{}, nextPacket) && QueueOk(queue, store, mesh, end)
      ensures Started(nodes, |nodes|, options, [], end, queue)
    {
      hide Accounted, EventOk, Mesh.Initial, Started, AsksAll, Init;
      ghost var before, smaller := queue, mesh;
      var i := |nodes|;
      var delay := DrawJitter();
      var loc: Loc :| true;
      var (node, cbs) := Init(i, options, loc, delay);
      InitAsks(i, options, loc, delay);
      nodes := nodes + [node];
      mesh := mesh.(nodes := nodes);
      MoreNodesInitial(smaller, options, node, loc, delay);
      MoreNodesQueueOk(before, store, smaller, end, node);
      if cbs == [] {
        NothingAsked(i, [], end, map[]);
        StartedOneMore(old(nodes), node, options, [], end, before, [], loc, delay);
        assert before + [] == before;
      } else {
        ghost var added := RequestTimer(i, cbs[0].vtime, multiset{});
        AsksOneTimer(cbs[0].vtime, i, [], end, added);
        StartedOneMore(old(nodes), node, options, [], end, before, added, loc, delay);
        forall e | e in added ensures EventOk(e, store, mesh, end) {
          NewTimerOk(e, store, mesh, end);
        }
        JoinedQueueOk(before, added, store, mesh, end);
      }
    }

    /** main's first half: every node is initialised and may ask for a timer. */
    method Setup(options: Options)
      requires queue == [] && store == map[] && nodes == [] && nextPacket == 0 && LinksOk(links)
      modifies this
      ensures Valid(multiset{}) && steps == [] && handled == []
      ensures Mesh.Initial(start, options) && |start.nodes| == |links| && start == mesh && tick == 0
      ensures Started(nodes, |nodes|, options, [], end, queue)
    {
      hide Accounted, EventOk, Mesh.Initial, Started;
      NothingAccounted();
      mesh := Mesh.State(0, [], {}, {}, false);
      NoNodesInitial(options);
      NoneStarted(options, end);
      while |nodes| < |links|
        invariant |nodes| <= |links| && store == map[] && nextPacket == 0
        invariant mesh == Mesh.State(0, nodes, {}, {}, false) && Mesh.Initial(mesh, options)
        invariant Accounted(queue, store, multiset{}, nextPacket) && QueueOk(queue, store, mesh, end)
        invariant Started(nodes, |nodes|, options, [], end, queue)
        decreases |links| - |nodes|
      {
        StartNode(options);
      }
      start, steps, handled, tick := mesh, [], [], 0;
    }

    /** The loop invariant; held counts the references of the code now running. */
    ghost predicate Valid(held: multiset<nat>)
      reads this
    {
      && LinksOk(links) && |links| == |nodes|
      && mesh.nodes == nodes && !mesh.crashed && History(EdgesOf(links), start, steps, handled, mesh)
      && Accounted(queue, store, held, nextPacket)
      && QueueOk(queue, store, mesh, end)
    }

    /** sim_callback with a packet: one event per link, each holding its own reference. */
    method Broadcast(node: nat, vtime: nat, id: nat, ghost held: multiset<nat>) returns (ghost added: seq<Event>, ghost delays: seq<nat>)
      requires node < |links| && id in held && Accounted(queue, store, held, nextPacket)
      modifies this`queue, this`store
      ensures queue == old(queue) + added && |delays| == |links[node]|
      ensures added == Arrivals(links[node], vtime, id, delays, end)
      ensures id in store && forall d :: d in delays ==> PropDelay(d, store[id].packet)
      ensures Accounted(queue, store, held, nextPacket)
      ensures store.Keys == old(store).Keys
      ensures forall i :: i in store ==> store[i].packet == old(store)[i].packet && (i != id ==> store[i] == old(store)[i])
    {
      hide Accounted, Length, Arrivals, PropDelay;
      NoArrivals(vtime, id, end);
      added, delays := [], [];
      HeldIsLive(queue, store, held, nextPacket, id);
      for k := 0 to |links[node]|
        invariant queue == old(queue) + added && |delays| == k
        invariant added == Arrivals(links[node][..k], vtime, id, delays, end)
        invariant id in store && forall d :: d in delays ==> PropDelay(d, store[id].packet)
        invariant Accounted(queue, store, held, nextPacket)
        invariant id in store && store.Keys == old(store).Keys
        invariant forall i :: i in store ==> store[i].packet == old(store)[i].packet && (i != id ==> store[i] == old(store)[i])
      {
        var fuzz :| 0 <= fuzz < PROP_DELAY_FUZZ;
        var delay := PROP_DELAY + PROP_DELAY_PERBYTE * Length(store[id].packet) + fuzz;
        if delay < PROP_DELAY_MIN {
          delay := PROP_DELAY_MIN;
        }
        if vtime + delay < end {
          var e := Event(vtime + delay, Some(links[node][k]), Some(id));
          InsertBalanced(queue, store, held, e, nextPacket);
          store := Packets.Clone(store, id);
          queue := queue + [e];
          added := added + [e];
        }
        PropDelayIs(delay, fuzz, store[id].packet);
        ArrivalsStep(links[node], k, vtime, id, delays, delay, end);
        delays := delays + [delay];
      }
      assert links[node][..|links[node]|] == links[node];
    }

    /** sim_callback without a packet: a timer for the node itself. */
    method RequestTimer(node: nat, vtime: nat, ghost held: multiset<nat>) returns (ghost added: seq<Event>)
      requires Accounted(queue, store, held, nextPacket)
      modifies this`queue
      ensures queue == old(queue) + added && |added| <= 1
      ensures exists delay: nat :: TimerSet(node, vtime, end, added, delay)
      ensures Accounted(queue, store, held, nextPacket)
    {
      var delay: nat :| 0 <= delay < TIMER_DELAY_FUZZ;
      added := [];
      if vtime + delay < end {
        var e := Event(vtime + delay, Some(node), None);
        InsertTimerBalanced(queue, store, held, e, nextPacket);
        queue := queue + [e];
        added := [e];
      }
      assert TimerSet(node, vtime, end, added, delay);
    }

    /** node_send_data and the end of node_timer: create a packet, broadcast it, drop the creator's reference. */
    method SendPacket(node: nat, vtime: nat, p: Packet, ghost held: multiset<nat>) returns (ghost added: seq<Event>)
      requires node < |links| && Accounted(queue, store, held, nextPacket)
      modifies this`queue, this`store, this`nextPacket
      ensures queue == old(queue) + added && |added| <= |links[node]|
      ensures forall e :: e in added ==>
                && vtime < e.vtime < end && e.node.Some? && e.node.value in links[node]
                && e.packet.Some? && e.packet.value in store && store[e.packet.value].packet == p
      ensures Asks(Send(vtime, p), node, links[node], end, added, store)
      ensures Accounted(queue, store, held, nextPacket) && Grown(old(store), store)
    {
      hide Accounted, Arrivals, PropDelay;
      var id := nextPacket;
      NewAccounted(queue, store, held, nextPacket, p);
      NewIsFresh(queue, store, held, nextPacket);
      store := Packets.New(store, id, p);
      nextPacket := nextPacket + 1;
      ghost var delays;
      added, delays := Broadcast(node, vtime, id, held + multiset{id});
      ArrivalsAre(links[node], vtime, id, delays, end, p);
      FreeAccounted(queue, store, held, nextPacket, id);
      store := Packets.Free(store, id);
      forall e | e in added ensures e.packet.value in store && store[e.packet.value].packet == p {
        QueuedIsLive(queue, store, held, nextPacket, e);
      }
      if added != [] {
        assert added[0] in added;
      }
      assert Sent(p, vtime, links[node], end, added, store, id, delays);
    }

    /** One call of Node_callback. */
    method CallBack(node: nat, c: Callback, ghost v: nat, ghost held: multiset<nat>) returns (ghost added: seq<Event>)
      requires node < |links| == |mesh.nodes| && LinksOk(links)
      requires Accounted(queue, store, held, nextPacket) && CallbackOk(c, node, links[node], v, mesh)
      modifies this`queue, this`store, this`nextPacket
      ensures queue == old(queue) + added && |added| <= if c.Timer? then 1 else |links[node]|
      ensures forall e :: e in added ==> e.vtime > v && EventOk(e, store, mesh, end)
      ensures Quiet(c) ==> forall e :: e in added ==> IsData(e, store)
      ensures Asks(c, node, links[node], end, added, store)
      ensures Accounted(queue, store, held, nextPacket) && Grown(old(store), store)
    {
      hide Accounted, Sent;
      match c
      case Timer(t) => added := RequestTimer(node, t, held);
      case Send(t, p) => added := SendPacket(node, t, p, held);
    }

    method Callbacks(node: nat, cbs: seq<Callback>, ghost v: nat, ghost held: multiset<nat>) returns (ghost added: seq<Event>)
      requires node < |links| == |mesh.nodes| && LinksOk(links)
      requires Accounted(queue, store, held, nextPacket) && forall c :: c in cbs ==> CallbackOk(c, node, links[node], v, mesh)
      modifies this`queue, this`store, this`nextPacket
      ensures queue == old(queue) + added && |added| <= Cost(cbs, |links[node]|)
      ensures forall e :: e in added ==> e.vtime > v && EventOk(e, store, mesh, end)
      ensures (forall c :: c in cbs ==> Quiet(c)) ==> forall e :: e in added ==> IsData(e, store)
      ensures AsksAll(cbs, node, links[node], end, added, store)
      ensures Accounted(queue, store, held, nextPacket) && Grown(old(store), store)
    {
      hide Accounted, CallbackOk, EventOk, IsData, Quiet, Asks;
      added := [];
      for k := 0 to |cbs|
        invariant queue == old(queue) + added && |added| <= Cost(cbs[..k], |links[node]|)
        invariant forall e :: e in added ==> e.vtime > v && EventOk(e, store, mesh, end)
        invariant (forall c :: c in cbs ==> Quiet(c)) ==> forall e :: e in added ==> IsData(e, store)
        invariant AsksAll(cbs[..k], node, links[node], end, added, store)
        invariant Accounted(queue, store, held, nextPacket) && Grown(old(store), store)
      {
        hide AsksAll;
        ghost var before := store;
        ghost var more := CallBack(node, cbs[k], v, held);
        forall e | e in added ensures EventOk(e, store, mesh, end) && (IsData(e, before) ==> IsData(e, store)) {
          GrownEventOk(e, before, store, mesh, end);
        }
        AsksOneMore(cbs[..k], cbs[k], node, links[node], end, added, more, before, store);
        added := added + more;
        assert cbs[..k + 1] == cbs[..k] + [cbs[k]];
        assert cbs[..k + 1][..k] == cbs[..k];
      }
      assert cbs[..|cbs|] == cbs;
    }

    /** node_timer for a queued timer. */
    method HandleTimer(e: Event) returns (ghost added: seq<Event>, ghost step: Mesh.Step)
      requires Valid(multiset{}) && e.packet.None? && EventOk(e, store, mesh, end) && NoneBefore(queue, store, e.vtime)
      modifies this`queue, this`store, this`nextPacket, this`nodes, this`mesh, this`steps, this`handled
      ensures Valid(multiset{}) && start == old(start)
      ensures queue == old(queue) + added && |added| <= MaxDegree(links) + 2 && forall a :: a in added ==> a.vtime > e.vtime
      ensures handled == old(handled) + [e.vtime] && mesh.now == e.vtime
      ensures StepFor(step, e, old(store)) && steps == old(steps) + [step]
      ensures Mesh.Enabled(old(mesh), step) && mesh == Mesh.Next(EdgesOf(links), old(mesh), step)
      ensures AsksAll(AfterTimer(old(nodes)[step.node], e.vtime, step.delay1, step.delay2, step.loc).1,
                      step.node, links[step.node], end, added, store)
      ensures nodes == old(nodes)[step.node := AfterTimer(old(nodes)[step.node], e.vtime, step.delay1, step.delay2, step.loc).0]
      ensures Grown(old(store), store)
    {
      hide Accounted, EventOk, NoneBefore, History, Mesh.Next, CallbackOk, IsData, AsksAll, AfterTimer;
      TimerIsEnabled(e, store, mesh, end);
      var n, v := e.node.value, e.vtime;
      var delay1 := DrawJitter();
      var delay2 := DrawJitter();
      var loc: Loc :| true;
      ghost var edges, mid := EdgesOf(links), store;
      step := Mesh.Fire(n, v, delay1, delay2, loc);
      var (after, cbs) := AfterTimer(nodes[n], v, delay1, delay2, loc);
      StepKeepsQueue(edges, queue, store, mesh, end, step);
      FireCallbacks(links, mesh, step);
      HistoryGrows(edges, start, steps, handled, mesh, step);
      FireNext(edges, mesh, step);
      nodes := nodes[n := after];
      mesh, steps, handled := Mesh.Next(edges, mesh, step), steps + [step], handled + [v];
      added := Callbacks(n, cbs, v, multiset{});
      GrownQueueOk(old(queue), mid, store, mesh, end);
      JoinedQueueOk(old(queue), added, store, mesh, end);
    }

    /** A beacon event: node_receive_beacon and what it asks for. The packet is still held. */
    method HandleBeacon(e: Event, b: Beacon) returns (aborted: bool, ghost added: seq<Event>, ghost step: Mesh.Step)
      requires Valid(HeldBy(e)) && EventOk(e, store, mesh, end) && NoneBefore(queue, store, e.vtime)
      requires e.packet.Some? && store[e.packet.value].packet == BeaconPacket(b)
      modifies this`queue, this`store, this`nextPacket, this`nodes, this`mesh, this`steps, this`handled
      ensures start == old(start) && History(EdgesOf(links), start, steps, handled, mesh) && aborted == mesh.crashed
      ensures mesh.nodes == nodes
      ensures !aborted ==> Valid(HeldBy(e)) && mesh.now == e.vtime
      ensures !aborted ==> queue == old(queue) + added && |added| <= MaxDegree(links) + 2 && forall a :: a in added ==> a.vtime > e.vtime
      ensures handled == old(handled) + [e.vtime]
      ensures StepFor(step, e, old(store)) && steps == old(steps) + [step]
      ensures Mesh.Enabled(old(mesh), step) && mesh == Mesh.Next(EdgesOf(links), old(mesh), step)
      ensures var r := AfterBeacon(old(nodes)[step.flight.to], e.vtime, b, step.delay, step.loc);
        && aborted == r.None?
        && (!aborted ==> AsksAll(r.value.1, step.flight.to, links[step.flight.to], end, added, store)
                         && nodes == old(nodes)[step.flight.to := r.value.0])
      ensures !aborted ==> Grown(old(store), store)
    {
      hide Accounted, NoneBefore, History, CallbackOk, IsData, HeldBy, AsksAll;
      BeaconIsEnabled(e, b, store, mesh, end);
      hide EventOk;
      var n, v := e.node.value, e.vtime;
      var delay := DrawJitter();
      var loc: Loc :| true;
      ghost var edges, mid := EdgesOf(links), store;
      step := Mesh.Deliver(Mesh.Flight(n, b), v, delay, loc);
      assert Mesh.Enabled(mesh, step);
      StepKeepsQueue(edges, queue, store, mesh, end, step);
      HistoryGrows(edges, start, steps, handled, mesh, step);
      DeliverNext(edges, mesh, step);
      added := [];
      var r := AfterBeacon(nodes[n], v, b, delay, loc);
      if r.Some? {
        DeliverCallbacks(links, mesh, step);
      }
      mesh, steps, handled := Mesh.Next(edges, mesh, step), steps + [step], handled + [v];
      hide AfterBeacon, Mesh.Next, Mesh.Enabled;
      if r.None? {
        return true, [], step;
      }
      aborted := false;
      nodes := nodes[n := r.value.0];
      added := Callbacks(n, r.value.1, v, HeldBy(e));
      GrownQueueOk(old(queue), mid, store, mesh, end);
      JoinedQueueOk(old(queue), added, store, mesh, end);
    }

    /** A data event: node_receive_data. The packet is still held. */
    method HandleData(e: Event, d: Data) returns (ghost added: seq<Event>)
      requires Valid(HeldBy(e)) && EventOk(e, store, mesh, end)
      requires e.packet.Some? && store[e.packet.value].packet == DataPacket(d)
      modifies this`queue, this`store, this`nextPacket
      ensures Valid(HeldBy(e))
      ensures queue == old(queue) + added && |added| <= MaxDegree(links) + 2 && forall a :: a in added ==> a.vtime > e.vtime
      ensures AsksAll(DataAnswer(nodes[e.node.value], e.vtime, d), e.node.value, links[e.node.value], end, added, store)
      ensures Grown(old(store), store)
    {
      hide Accounted, NoneBefore, History, CallbackOk, IsData, HeldBy, Forwarded, AsksAll;
      var n, v := e.node.value, e.vtime;
      hide EventOk;
      ghost var mid := store;
      var cbs := DataAnswer(nodes[n], v, d);
      DataAnswerIsQuiet(nodes[n], v, d);
      DataCallbacks(links, mesh, n, v, cbs);
      added := Callbacks(n, cbs, v, HeldBy(e));
      GrownQueueOk(old(queue), mid, store, mesh, end);
      JoinedQueueOk(old(queue), added, store, mesh, end);
    }

    /** node_receive and packet_free; stops when a neighbour table overflows. */
    method HandlePacket(e: Event) returns (aborted: bool, ghost added: seq<Event>, ghost step: Mesh.Step)
      requires e.packet.Some? && Valid(HeldBy(e)) && EventOk(e, store, mesh, end) && NoneBefore(queue, store, e.vtime)
      modifies this`queue, this`store, this`nextPacket, this`nodes, this`mesh, this`steps, this`handled
      ensures start == old(start) && History(EdgesOf(links), start, steps, handled, mesh) && aborted == mesh.crashed
      ensures mesh.nodes == nodes
      ensures !aborted ==> Valid(multiset{})
      ensures !aborted ==> queue == old(queue) + added && |added| <= MaxDegree(links) + 2 && forall a :: a in added ==> a.vtime > e.vtime
      ensures aborted ==> !IsData(e, old(store))
      ensures !aborted ==> NodesAfter(old(nodes), e, old(store), step) == Some(nodes)
      ensures handled == old(handled) + if IsData(e, old(store)) then [] else [e.vtime]
      ensures if IsData(e, old(store)) then steps == old(steps) && nodes == old(nodes)
              else StepFor(step, e, old(store)) && steps == old(steps) + [step]
      ensures !aborted ==> AsksAll(Answer(old(nodes), e, old(store), step), e.node.value, links[e.node.value], end, added, store)
      ensures !aborted ==> SamePackets(queue, old(store), store)
    {
      hide Accounted, NoneBefore, History, AsksAll;
      aborted := false;
      var id := e.packet.value;
      assert id in store && HeldBy(e) == multiset{id};
      match store[id].packet {
        case BeaconPacket(b) =>
          aborted, added, step := HandleBeacon(e, b);
          if aborted {
            return;
          }
        case DataPacket(d) =>
          added := HandleData(e, d);
          step := *;
      }
      hide EventOk, IsData;
      BagLaws(multiset{}, multiset{id}, multiset{});
      assert multiset{} + multiset{id} == HeldBy(e);
      FreeAccounted(queue, store, multiset{}, nextPacket, id);
      FreedQueueOk(queue, store, multiset{}, nextPacket, id, mesh, end);
      FreedSame(queue, store, multiset{}, nextPacket, id);
      JoinedSame(old(queue), added, store, Packets.Free(store, id));
      AsksAllSame(Answer(old(nodes), e, old(store), step), e.node.value, links[e.node.value], end, added, store, Packets.Free(store, id));
      GrownSame(queue, old(store), store, Packets.Free(store, id));
      store := Packets.Free(store, id);
    }

    /** queue_pop on a queue that is not empty. */
    method PopEarliest() returns (e: Event, ghost k: nat)
      requires queue != []
      modifies this`queue
      ensures IsEarliest(old(queue), k) && e == old(queue)[k] && queue == RemovedAt(old(queue), k)
    {
      ghost var earliest := EarliestExists(queue);
      var i :| 0 <= i < |queue| && IsEarliest(queue, i);
      e, k := queue[i], i;
      queue := RemovedAt(queue, i);
    }

    /** node_route_test at every node: data packets for node 0, stamped with the tick. */
    method RouteTests(ghost held: multiset<nat>) returns (ghost added: seq<Event>)
      requires Valid(held)
      modifies this`queue, this`store, this`nextPacket
      ensures Valid(held) && Grown(old(store), store)
      ensures queue == old(queue) + added && forall e :: e in added ==> IsData(e, store)
      ensures Probed(nodes, |nodes|, tick, links, end, added, store)
    {
      hide Accounted, EventOk, History, CallbackOk, IsData, RouteProbe, AsksAll;
      added := [];
      for i := 0 to |nodes|
        invariant Valid(held) && Grown(old(store), store)
        invariant queue == old(queue) + added && forall e :: e in added ==> IsData(e, store)
        invariant Probed(nodes, i, tick, links, end, added, store)
      {
        hide Probed;
        ghost var before, mid := queue, store;
        var cbs := RouteProbe(nodes[i], tick);
        RouteProbeIsQuiet(nodes[i], tick);
        DataCallbacks(links, mesh, i, tick, cbs);
        ghost var more := Callbacks(i, cbs, tick, held);
        GrownQueueOk(before, mid, store, mesh, end);
        JoinedQueueOk(before, more, store, mesh, end);
        forall e | e in added ensures IsData(e, store) {
          GrownIsData(e, mid, store);
        }
        ProbedOneMore(nodes, i, tick, links, end, added, more, mid, store);
        added := added + more;
      }
    }

    ghost function Now(): Snap
      reads this
    {
      Snap(queue, store, tick, nodes, steps)
    }

    /** One round of the event loop. */
    method Round() returns (aborted: bool, ghost turn: Turn)
      requires Valid(multiset{}) && queue != []
      modifies this`queue, this`store, this`nextPacket, this`nodes, this`tick, this`mesh, this`steps, this`handled
      ensures start == old(start) && History(EdgesOf(links), start, steps, handled, mesh) && aborted == mesh.crashed
      ensures mesh.nodes == nodes
      ensures if aborted then StopIs(old(Now()), turn, steps) else Valid(multiset{}) && RoundIs(links, end, old(Now()), Now(), turn)
      ensures handled == old(handled) + if IsData(old(queue)[turn.k], old(store)) then [] else [old(queue)[turn.k].vtime]
      ensures !aborted ==>
                TimeLeft(end, tick) < TimeLeft(end, old(tick))
                || (tick == old(tick) && Weight(queue, Base(), end) < Weight(old(queue), Base(), end))
    {
      hide Accounted, EventOk, History, NoneBefore, IsData, Weight, HeldBy, StepFor, AsksAll, Probed, Answer, NodesAfter, SamePackets, Grown, RoundIs, StopIs;
      var event;
      ghost var was := Now();
      ghost var k, step, probes, added;
      event, k := PopEarliest();
      PoppedAccounted(old(queue), k, store, nextPacket);
      PoppedQueueOk(old(queue), k, store, mesh, end);
      EventIs(event, store, mesh, end);
      ghost var before, mid := queue, store;
      probes := [];
      GrownSelf(store);
      if event.vtime > tick {
        probes := RouteTests(HeldBy(event));
        tick := tick + VTIME_SECONDS;
        GrownEventOk(event, mid, store, mesh, end);
        GrownNoneBefore(before, probes, mid, store, event.vtime);
      } else {
        assert before + [] == before;
      }
      SameKind(event, mid, store, mesh, end);
      ghost var later, network, full := store, mesh, queue;
      if event.packet.Some? {
        aborted, added, step := HandlePacket(event);
        if !aborted {
          JoinedSame(full, added, later, store);
          JoinedSame(before, probes, later, store);
          GrownSame(before, mid, later, store);
          if event.vtime > old(tick) {
            ProbedSame(old(nodes), |nodes|, old(tick), links, end, probes, later, store);
          }
        }
      } else {
        TimerHoldsNothing(event);
        aborted := false;
        added, step := HandleTimer(event);
        AnswerIsTimer(old(nodes), event, later, step);
        GrownIsSame(before, mid, later, store);
        if event.vtime > old(tick) {
          ProbedGrown(old(nodes), |nodes|, old(tick), links, end, probes, later, store);
        }
      }
      AnswerGrown(old(nodes), event, mid, later, step);
      NodesAfterGrown(old(nodes), event, mid, later, step);
      if !IsData(event, mid) {
        StepForBefore(step, event, mid, later, network, end);
      }
      turn := Turn(k, step, probes, added);
      if aborted {
        StopsHere(was, turn, steps);
      } else {
        RoundPacks(links, end, was, Now(), turn);
      }
      if !aborted && tick == old(tick) {
        HandlingLightens(old(queue), k, added, Base(), end);
      }
    }

    function Base(): nat {
      MaxDegree(links) + 3
    }

    /**
     main's event loop: it ends, with every packet freed, unless a neighbour table overflows.
     The states between its rounds are recorded, and what each round did.
     */
    method Run() returns (aborted: bool, ghost snaps: seq<Snap>, ghost turns: seq<Turn>)
      requires Valid(multiset{})
      modifies this`queue, this`store, this`nextPacket, this`nodes, this`tick, this`mesh, this`steps, this`handled
      ensures start == old(start) && History(EdgesOf(links), start, steps, handled, mesh) && aborted == mesh.crashed
      ensures mesh.nodes == nodes
      ensures !aborted ==> Valid(multiset{}) && queue == [] && store == map[]
      ensures Rounds(links, end, start, snaps, turns) && snaps[0] == old(Now())
      ensures if aborted then exists turn :: StopIs(snaps[|turns|], turn, steps) else snaps[|turns|] == Now()
      ensures old(steps) <= steps && old(handled) <= handled
    {
      hide Accounted, EventOk, History, Weight, RoundIs, SnapOk, StopIs, Rounds;
      aborted, snaps, turns := false, [Now()], [];
      NowOk(links, start, mesh, handled, end, Now());
      NoRounds(links, end, start, Now());
      while queue != []
        invariant Valid(multiset{}) && start == old(start) && !aborted && old(steps) <= steps && old(handled) <= handled
        invariant Rounds(links, end, start, snaps, turns) && |snaps| == |turns| + 1
        invariant snaps[0] == old(Now()) && snaps[|turns|] == Now()
        decreases TimeLeft(end, tick), Weight(queue, Base(), end)
      {
        ghost var turn;
        ghost var before := Now();
        aborted, turn := Round();
        if aborted {
          StopSteps(before, turn, steps);
          return;
        }
        NowOk(links, start, mesh, handled, end, Now());
        RoundSteps(links, end, before, Now(), turn);
        OneRoundMore(links, end, start, snaps, turns, Now(), turn);
        snaps, turns := snaps + [Now()], turns + [turn];
      }
      EmptyStore(store, nextPacket);
    }
  }

  lemma StopsHere(last: Snap, turn: Turn, steps: seq<Mesh.Step>)
    requires IsEarliest(last.queue, turn.k) && StepFor(turn.step, last.queue[turn.k], last.store)
    requires steps == last.steps + [turn.step]
    ensures StopIs(last, turn, steps)
  {
    hide IsEarliest, StepFor;
  }

  lemma RoundPacks(links: seq<seq<nat>>, end: nat, a: Snap, b: Snap, turn: Turn)
    requires IsEarliest(a.queue, turn.k) && |a.nodes| == |links|
    requires var e := a.queue[turn.k]; e.node.Some? && e.node.value < |a.nodes| && (e.packet.Some? ==> e.packet.value in a.store)
    requires b.queue == RemovedAt(a.queue, turn.k) + turn.probes + turn.added
    requires SamePackets(RemovedAt(a.queue, turn.k), a.store, b.store)
    requires if a.queue[turn.k].vtime > a.tick
             then b.tick == a.tick + VTIME_SECONDS && Probed(a.nodes, |a.nodes|, a.tick, links, end, turn.probes, b.store)
             else b.tick == a.tick && turn.probes == []
    requires var e := a.queue[turn.k];
      AsksAll(Answer(a.nodes, e, a.store, turn.step), e.node.value, links[e.node.value], end, turn.added, b.store)
    requires NodesAfter(a.nodes, a.queue[turn.k], a.store, turn.step) == Some(b.nodes)
    requires IsData(a.queue[turn.k], a.store) ==> b.steps == a.steps
    requires !IsData(a.queue[turn.k], a.store) ==> StepFor(turn.step, a.queue[turn.k], a.store) && b.steps == a.steps + [turn.step]
    ensures RoundIs(links, end, a, b, turn)
  {
    hide IsEarliest, Probed, AsksAll, Answer, NodesAfter, SamePackets, IsData, StepFor;
  }

  lemma NowOk(links: seq<seq<nat>>, start: Mesh.State, mesh: Mesh.State, handled: seq<nat>, end: nat, s: Snap)
    requires History(EdgesOf(links), start, s.steps, handled, mesh) && mesh.nodes == s.nodes && |links| == |s.nodes|
    requires QueueOk(s.queue, s.store, mesh, end)
    ensures SnapOk(links, start, s)
  {
    hide Mesh.Run, Mesh.AllEnabled, InOrder;
  }

  lemma StopSteps(last: Snap, turn: Turn, steps: seq<Mesh.Step>)
    requires StopIs(last, turn, steps)
    ensures last.steps <= steps
  {
    hide IsEarliest, StepFor;
  }

  lemma RoundSteps(links: seq<seq<nat>>, end: nat, a: Snap, b: Snap, turn: Turn)
    requires RoundIs(links, end, a, b, turn)
    ensures a.steps <= b.steps
  {
    hide Probed, AsksAll, IsEarliest, StepFor, Answer, NodesAfter, SamePackets, IsData;
  }

  lemma NoRounds(links: seq<seq<nat>>, end: nat, start: Mesh.State, s: Snap)
    requires SnapOk(links, start, s)
    ensures Rounds(links, end, start, [s], [])
  {
    hide SnapOk;
  }

  lemma OneRoundMore(links: seq<seq<nat>>, end: nat, start: Mesh.State, snaps: seq<Snap>, turns: seq<Turn>, next: Snap, turn: Turn)
    requires Rounds(links, end, start, snaps, turns) && SnapOk(links, start, next)
    requires RoundIs(links, end, snaps[|turns|], next, turn)
    ensures Rounds(links, end, start, snaps + [next], turns + [turn])
  {
    hide SnapOk, RoundIs;
  }

  /** How much simulated time the tick still has to cover. */
  function TimeLeft(end: nat, tick: nat): nat {
    if tick < end then end - tick else 0
  }

  lemma GrownSelf(store: Packets.Store)
    ensures Grown(store, store)
  {
  }

  lemma AnswerIsTimer(nodes: seq<Node>, e: Event, store: Packets.Store, step: Mesh.Step)
    requires e.packet.None? && StepFor(step, e, store) && e.node.Some? && e.node.value < |nodes|
    ensures NodesAfter(nodes, e, store, step)
            == Some(nodes[step.node := AfterTimer(nodes[step.node], e.vtime, step.delay1, step.delay2, step.loc).0])
    ensures Answer(nodes, e, store, step) == AfterTimer(nodes[step.node], e.vtime, step.delay1, step.delay2, step.loc).1
    ensures step.node == e.node.value
  {
    hide AfterTimer;
  }

  lemma StepForBefore(step: Mesh.Step, e: Event, store: Packets.Store, later: Packets.Store, mesh: Mesh.State, end: nat)
    requires EventOk(e, store, mesh, end) && Grown(store, later) && StepFor(step, e, later)
    ensures StepFor(step, e, store)
  {
  }

  lemma RouteProbeIsQuiet(node: Node, vtime: nat)
    ensures var cbs := RouteProbe(node, vtime);
            |cbs| <= 1 && forall c :: c in cbs ==> Quiet(c) && c.vtime == vtime
  {
  }

  lemma GrownIsData(e: Event, store: Packets.Store, later: Packets.Store)
    requires IsData(e, store) && Grown(store, later)
    ensures IsData(e, later)
  {
  }

  lemma GrownNoneBefore(queue: seq<Event>, added: seq<Event>, store: Packets.Store, later: Packets.Store, v: nat)
    requires NoneBefore(queue, store, v) && Grown(store, later) && forall e :: e in added ==> IsData(e, later)
    ensures NoneBefore(queue + added, later, v)
  {
  }

  lemma PoppedAccounted(queue: seq<Event>, k: nat, store: Packets.Store, nextPacket: nat)
    requires k < |queue| && Accounted(queue, store, multiset{}, nextPacket)
    ensures Accounted(RemovedAt(queue, k), store, HeldBy(queue[k]), nextPacket)
  {
    hide Holding, HeldBy, RemovedAt;
    HoldingWithout(queue, k);
    BagLaws(Holding(queue), multiset{}, multiset{});
  }

  lemma PoppedQueueOk(queue: seq<Event>, k: nat, store: Packets.Store, mesh: Mesh.State, end: nat)
    requires IsEarliest(queue, k) && QueueOk(queue, store, mesh, end)
    ensures QueueOk(RemovedAt(queue, k), store, mesh, end) && EventOk(queue[k], store, mesh, end)
    ensures NoneBefore(RemovedAt(queue, k), store, queue[k].vtime)
  {
    hide EventOk, IsData;
    forall e | e in RemovedAt(queue, k) ensures e in queue {
    }
  }

  lemma EventIs(e: Event, store: Packets.Store, mesh: Mesh.State, end: nat)
    requires EventOk(e, store, mesh, end)
    ensures e.vtime < end && e.node.Some? && e.node.value < |mesh.nodes|
    ensures e.packet.Some? ==> e.packet.value in store
  {
  }

  lemma SameKind(e: Event, store: Packets.Store, later: Packets.Store, mesh: Mesh.State, end: nat)
    requires EventOk(e, store, mesh, end) && Grown(store, later)
    ensures IsData(e, store) == IsData(e, later) && (e.packet.None? ==> !IsData(e, store))
  {
  }

  lemma TimerHoldsNothing(e: Event)
    requires e.packet.None?
    ensures HeldBy(e) == multiset{}
  {
  }

  lemma EmptyStore(store: Packets.Store, nextPacket: nat)
    requires Accounted([], store, multiset{}, nextPacket)
    ensures store == map[]
  {
    Packets.NothingHeld(store);
  }

  lemma NothingAccounted()
    ensures Accounted([], map[], multiset{}, 0)
  {
  }

  lemma MoreNodesQueueOk(queue: seq<Event>, store: Packets.Store, mesh: Mesh.State, end: nat, node: Node)
    requires QueueOk(queue, store, mesh, end)
    ensures QueueOk(queue, store, mesh.(nodes := mesh.nodes + [node]), end)
  {
  }

  lemma NoNodesInitial(options: Options)
    ensures Mesh.Initial(Mesh.State(0, [], {}, {}, false), options)
  {
  }

  lemma MoreNodesInitial(mesh: Mesh.State, options: Options, node: Node, loc: Loc, delay: nat)
    requires Mesh.Initial(mesh, options) && node == Init(|mesh.nodes|, options, loc, delay).0
    ensures Mesh.Initial(mesh.(nodes := mesh.nodes + [node]), options)
  {
    assert Mesh.InitialNode(node, |mesh.nodes|, options);
  }

  lemma NewTimerOk(e: Event, store: Packets.Store, mesh: Mesh.State, end: nat)
    requires e.packet.None? && e.node.Some? && e.node.value < |mesh.nodes| && e.vtime < end && mesh.now == 0
    requires mesh.nodes[e.node.value].status != Asleep
    ensures EventOk(e, store, mesh, end)
  {
  }

  /**
   A simulation with a finite end: for every topology, set of options and random draw it
   is a chain of rounds that starts with the timers of the nodes and ends.
   */
  method Simulate(links: seq<seq<nat>>, end: nat, options: Options)
    returns (aborted: bool, sim: Simulator, ghost snaps: seq<Snap>, ghost turns: seq<Turn>)
    requires LinksOk(links)
    ensures sim.links == links && sim.end == end && sim.mesh.nodes == sim.nodes
    ensures !aborted ==> sim.queue == [] && sim.store == map[]
    ensures Mesh.Initial(sim.start, options) && aborted == sim.mesh.crashed
    ensures History(EdgesOf(links), sim.start, sim.steps, sim.handled, sim.mesh)
    ensures Rounds(links, end, sim.start, snaps, turns)
    ensures snaps[0].steps == [] && snaps[0].nodes == sim.start.nodes && snaps[0].tick == 0
    ensures Started(snaps[0].nodes, |snaps[0].nodes|, options, [], end, snaps[0].queue)
    ensures if aborted then exists turn :: StopIs(snaps[|turns|], turn, sim.steps) else snaps[|turns|] == sim.Now()
    ensures !aborted ==> Handled(snaps, turns) == multiset(snaps[0].queue) + Queued(turns)
    ensures Mesh.SmallBalls(EdgesOf(links)) ==> !aborted
    ensures Routing.KnownIds(Mesh.Sites(sim.mesh.nodes))
  {
    hide Accounted, EventOk, InOrder, Mesh.Run, Mesh.AllEnabled, Mesh.Initial, Mesh.SmallBalls, RoundIs, SnapOk, StopIs, Rounds, Started;
    sim := new Simulator(links, end);
    sim.Setup(options);
    aborted, snaps, turns := sim.Run();
    EventsConserved(links, end, sim.start, snaps, turns);
    NoSelfLinks(links);
    LinksWithin(links);
    Mesh.ListedNodesExist(EdgesOf(links), sim.start, options, sim.steps);
    if Mesh.SmallBalls(EdgesOf(links)) {
      Mesh.NoTableOverflows(EdgesOf(links), sim.start, options, sim.steps);
    }
  }

  lemma NoSelfLinks(links: seq<seq<nat>>)
    requires LinksOk(links)
    ensures Mesh.NoLoops(EdgesOf(links))
  {
    forall e | e in EdgesOf(links) ensures e.0 != e.1 {
      var i, k :| 0 <= i < |links| && 0 <= k < |links[i]| && e == (i, links[i][k]);
      assert links[i][k] in links[i];
    }
  }

  /** The edges of the simulator's network join its nodes, as Mesh.ListedNodesExist asks. */
  lemma LinksWithin(links: seq<seq<nat>>)
    requires LinksOk(links)
    ensures Mesh.Within(EdgesOf(links), |links|)
  {
    forall e | e in EdgesOf(links) ensures e.0 < |links| && e.1 < |links| {
      var i, k :| 0 <= i < |links| && 0 <= k < |links[i]| && e == (i, links[i][k]);
      assert links[i][k] in links[i];
    }
  }

  method DrawJitter() returns (delay: nat)
    ensures Jitter(delay)
  {
    assert Jitter(BEACON_PERIOD);
    delay :| 0 <= delay <= 2 * BEACON_PERIOD && Jitter(delay);
  }

  lemma BeaconIsEnabled(e: Event, b: Beacon, store: Packets.Store, mesh: Mesh.State, end: nat)
    requires EventOk(e, store, mesh, end) && !mesh.crashed
    requires e.packet.Some? && store[e.packet.value].packet == BeaconPacket(b)
    ensures e.node.Some? && e.node.value < |mesh.nodes| && b.neigh != []
    ensures e.vtime >= mesh.now && Mesh.Flight(e.node.value, b) in mesh.air
  {
  }

  lemma DeliverNext(edges: Mesh.Edges, mesh: Mesh.State, step: Mesh.Step)
    requires step.Deliver? && Mesh.Enabled(mesh, step)
    ensures var n := step.flight.to;
            var r := AfterBeacon(mesh.nodes[n], step.vtime, step.flight.beacon, step.delay, step.loc);
            var next := Mesh.Next(edges, mesh, step);
            && next.now == step.vtime && next.crashed == r.None?
            && next.nodes == if r.Some? then mesh.nodes[n := r.value.0] else mesh.nodes
  {
    hide AfterBeacon;
  }

  lemma DataAnswerIsQuiet(node: Node, vtime: nat, d: Data)
    ensures var cbs := DataAnswer(node, vtime, d);
            |cbs| <= 1 && forall c :: c in cbs ==> Quiet(c) && c.vtime == vtime
  {
  }

  lemma TimerIsEnabled(e: Event, store: Packets.Store, mesh: Mesh.State, end: nat)
    requires EventOk(e, store, mesh, end) && e.packet.None? && !mesh.crashed
    ensures e.node.Some? && e.node.value < |mesh.nodes|
    ensures forall delay1: nat, delay2: nat, loc: Loc ::
              Mesh.Enabled(mesh, Mesh.Fire(e.node.value, e.vtime, delay1, delay2, loc))
  {
  }

  lemma FireNext(edges: Mesh.Edges, mesh: Mesh.State, step: Mesh.Step)
    requires step.Fire? && Mesh.Enabled(mesh, step)
    ensures var after := AfterTimer(mesh.nodes[step.node], step.vtime, step.delay1, step.delay2, step.loc).0;
            var next := Mesh.Next(edges, mesh, step);
            next.now == step.vtime && next.nodes == mesh.nodes[step.node := after] && !next.crashed
  {
    hide AfterTimer, BeaconOf;
  }

  lemma OneMoreTime(times: seq<nat>, now: nat, t: nat)
    requires InOrder(times, now) && now <= t
    ensures InOrder(times + [t], t)
  {
    assert forall x :: x in times + [t] ==> x in times || x == t;
    assert forall i :: 0 <= i < |times| ==> times[i] in times;
  }

  lemma NewIsFresh(queue: seq<Event>, store: Packets.Store, held: multiset<nat>, nextPacket: nat)
    requires Accounted(queue, store, held, nextPacket)
    ensures nextPacket !in store
  {
  }

  lemma QueuedIsLive(queue: seq<Event>, store: Packets.Store, held: multiset<nat>, nextPacket: nat, e: Event)
    requires Accounted(queue, store, held, nextPacket) && e in queue && e.packet.Some?
    ensures e.packet.value in store
  {
    hide Holding;
    HolderInQueue(queue, e);
    assert e.packet.value in Holding(queue) + held;
  }

  lemma GrownEventOk(e: Event, store: Packets.Store, later: Packets.Store, mesh: Mesh.State, end: nat)
    requires EventOk(e, store, mesh, end) && Grown(store, later)
    ensures EventOk(e, later, mesh, end) && (IsData(e, store) ==> IsData(e, later))
  {
  }

  lemma HeldIsLive(queue: seq<Event>, store: Packets.Store, held: multiset<nat>, nextPacket: nat, id: nat)
    requires Accounted(queue, store, held, nextPacket) && id in held
    ensures id in store
  {
    assert id in Holding(queue) + held;
  }
}
