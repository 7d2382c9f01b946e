/**
 What a simulation is for: the network wakes up.  In a run that no table overflow stops,
 timers go on until the end, every beacon arrives on every link, and each node that can be
 reached from one that is up at the start gets up in time.
 */
module Waking {
  import opened Wrappers
  import opened EventQueue
  import opened Neigh
  import opened Node
  import opened Sim
  import Mesh
  import NodeLaws
  import Packets = Packet

  /** No propagation takes this long, no timer is set further ahead. */
  const FLIGHT: nat := 199_000
  const PERIOD: nat := 1_501_000
  const STAGE: nat := 4_200_000

  // ---------- What a round queues ----------

  /** The part of what was queued that one of the callbacks asked for. */
  lemma {:induction false} PartAsked(cbs: seq<Callback>, q: nat, node: nat, ends: seq<nat>, end: nat, added: seq<Event>, store: Packets.Store)
    returns (part: seq<Event>)
    requires AsksAll(cbs, node, ends, end, added, store) && q < |cbs|
    ensures Asks(cbs[q], node, ends, end, part, store) && forall e :: e in part ==> e in added
    decreases |cbs|
  {
    hide Asks;
    var front, last := cbs[..|cbs| - 1], cbs[|cbs| - 1];
    var k: nat :| k <= |added| && AsksAll(front, node, ends, end, added[..k], store)
               && Asks(last, node, ends, end, added[k..], store);
    if q == |cbs| - 1 {
      part := added[k..];
    } else {
      part := PartAsked(front, q, node, ends, end, added[..k], store);
    }
  }

  lemma TimerAsked(t: nat, node: nat, ends: seq<nat>, end: nat, part: seq<Event>, store: Packets.Store) returns (e: Event)
    requires Asks(Timer(t), node, ends, end, part, store) && t + 1000 <= end
    ensures e in part && e.node == Some(node) && e.packet.None? && t <= e.vtime < t + 1000
  {
    var delay: nat :| TimerSet(node, t, end, part, delay);
    e := Event(t + delay, Some(node), None);
  }

  /** A beacon of at most thirteen entries, or data. */
  predicate Short(p: Packet) {
    p.BeaconPacket? ==> |p.beacon.neigh| <= 13
  }

  lemma ArrivalAt(ends: seq<nat>, vtime: nat, id: nat, delays: seq<nat>, end: nat, i: nat)
    requires |ends| == |delays| && i < |ends| && vtime + delays[i] < end
    ensures Event(vtime + delays[i], Some(ends[i]), Some(id)) in Arrivals(ends, vtime, id, delays, end)
    decreases |ends|
  {
    var n := |ends| - 1;
    if i < n {
      ArrivalAt(ends[..n], vtime, id, delays[..n], end, i);
    }
  }

  lemma PacketAsked(p: Packet, v: nat, node: nat, ends: seq<nat>, end: nat, part: seq<Event>, store: Packets.Store, d: nat) returns (e: Event)
    requires Asks(Send(v, p), node, ends, end, part, store) && d in ends && Short(p) && v + FLIGHT <= end
    ensures e in part && e.node == Some(d) && v < e.vtime < v + FLIGHT
    ensures e.packet.Some? && e.packet.value in store && store[e.packet.value].packet == p
  {
    var id: nat, delays: seq<nat> :| Sent(p, v, ends, end, part, store, id, delays);
    var i :| 0 <= i < |ends| && ends[i] == d;
    assert delays[i] in delays && PropDelay(delays[i], p);
    ArrivalAt(ends, v, id, delays, end, i);
    e := Event(v + delays[i], Some(d), Some(id));
  }

  // ---------- Rounds ----------

  function TakenAt(s: Snap, turn: Turn): Event
    requires turn.k < |s.queue|
  {
    s.queue[turn.k]
  }

  /** A round that fires a timer of node n at time v. */
  ghost predicate FiresAt(s: Snap, turn: Turn, n: nat, v: nat) {
    turn.k < |s.queue| && TakenAt(s, turn).node == Some(n) && TakenAt(s, turn).packet.None? && TakenAt(s, turn).vtime == v
  }

  /** A round that delivers a beacon to node n at time v. */
  ghost predicate DeliversAt(s: Snap, turn: Turn, n: nat, v: nat, b: Beacon) {
    && turn.k < |s.queue| && TakenAt(s, turn).node == Some(n) && TakenAt(s, turn).vtime == v
    && TakenAt(s, turn).packet.Some? && TakenAt(s, turn).packet.value in s.store
    && s.store[TakenAt(s, turn).packet.value].packet == BeaconPacket(b)
  }

  lemma FireRound(links: seq<seq<nat>>, end: nat, a: Snap, b: Snap, turn: Turn, n: nat, v: nat)
    requires RoundIs(links, end, a, b, turn) && FiresAt(a, turn, n, v)
    ensures n < |a.nodes| == |links| && turn.step.Fire? && Jitter(turn.step.delay1) && Jitter(turn.step.delay2)
    ensures var r := AfterTimer(a.nodes[n], v, turn.step.delay1, turn.step.delay2, turn.step.loc);
      b.nodes == a.nodes[n := r.0] && AsksAll(r.1, n, links[n], end, turn.added, b.store)
    ensures forall e :: e in turn.added ==> e in b.queue
  {
    hide AfterTimer, AfterBeacon, DataAnswer, AsksAll, Probed, SamePackets, IsEarliest;
  }

  lemma DeliverRound(links: seq<seq<nat>>, end: nat, a: Snap, b: Snap, turn: Turn, n: nat, v: nat, beacon: Beacon)
    requires RoundIs(links, end, a, b, turn) && DeliversAt(a, turn, n, v, beacon)
    ensures n < |a.nodes| == |links| && turn.step.Deliver? && Jitter(turn.step.delay) && beacon.neigh != []
    ensures var r := AfterBeacon(a.nodes[n], v, beacon, turn.step.delay, turn.step.loc);
      r.Some? && b.nodes == a.nodes[n := r.value.0] && AsksAll(r.value.1, n, links[n], end, turn.added, b.store)
    ensures forall e :: e in turn.added ==> e in b.queue
  {
    hide AfterTimer, AfterBeacon, DataAnswer, AsksAll, Probed, SamePackets, IsEarliest;
  }

  /** Every round fires a timer, delivers a beacon, or leaves the nodes alone. */
  lemma RoundKinds(links: seq<seq<nat>>, end: nat, a: Snap, b: Snap, turn: Turn)
    requires RoundIs(links, end, a, b, turn)
    ensures turn.k < |a.queue| && |b.nodes| == |a.nodes| && TakenAt(a, turn).node.Some?
    ensures var e := TakenAt(a, turn);
      || FiresAt(a, turn, e.node.value, e.vtime)
      || (exists beacon :: DeliversAt(a, turn, e.node.value, e.vtime, beacon))
      || b.nodes == a.nodes
  {
    hide AfterTimer, AfterBeacon, DataAnswer, AsksAll, Probed, SamePackets;
    var e := TakenAt(a, turn);
    if e.packet.Some? && a.store[e.packet.value].packet.BeaconPacket? {
      assert DeliversAt(a, turn, e.node.value, e.vtime, a.store[e.packet.value].packet.beacon);
    }
  }

  /** Events that are not taken stay, with their packets. */
  lemma EventStays(links: seq<seq<nat>>, end: nat, a: Snap, b: Snap, turn: Turn, e: Event)
    requires RoundIs(links, end, a, b, turn) && e in a.queue && TakenAt(a, turn) != e
    ensures e in b.queue
    ensures e.packet.Some? && e.packet.value in a.store ==>
              e.packet.value in b.store && b.store[e.packet.value].packet == a.store[e.packet.value].packet
  {
    hide AfterTimer, AfterBeacon, DataAnswer, AsksAll, Probed, Answer, NodesAfter, StepFor, IsData;
    var i :| 0 <= i < |a.queue| && a.queue[i] == e;
    assert i != turn.k;
    var rest := RemovedAt(a.queue, turn.k);
    assert rest[if i < turn.k then i else i - 1] == e;
  }

  // ---------- Whole runs ----------

  /** A chain of rounds that ends with nothing left to do. */
  ghost predicate Whole(links: seq<seq<nat>>, end: nat, start: Mesh.State, snaps: seq<Snap>, turns: seq<Turn>) {
    && Rounds(links, end, start, snaps, turns) && snaps[|turns|].queue == []
    && forall i, j :: 0 <= i < j < |snaps[|turns|].steps| ==> snaps[|turns|].steps[i].vtime <= snaps[|turns|].steps[j].vtime
  }

  lemma RoundAt(links: seq<seq<nat>>, end: nat, start: Mesh.State, snaps: seq<Snap>, turns: seq<Turn>, i: nat)
    requires Whole(links, end, start, snaps, turns) && i <= |turns|
    ensures |snaps| == |turns| + 1 && |snaps[i].nodes| == |links|
    ensures i < |turns| ==> RoundIs(links, end, snaps[i], snaps[i + 1], turns[i])
    ensures snaps[i].queue != [] ==> i < |turns|
  {
    hide RoundIs;
    assert SnapOk(links, start, snaps[i]);
  }

  /** Every queued event has its round. */
  lemma {:induction false} EventTaken(links: seq<seq<nat>>, end: nat, start: Mesh.State, snaps: seq<Snap>, turns: seq<Turn>,
                                      i: nat, e: Event) returns (k: nat)
    requires Whole(links, end, start, snaps, turns) && i < |snaps| && e in snaps[i].queue
    ensures i <= k < |turns| && |snaps| == |turns| + 1 && turns[k].k < |snaps[k].queue| && TakenAt(snaps[k], turns[k]) == e
    ensures e.packet.Some? && e.packet.value in snaps[i].store ==>
              e.packet.value in snaps[k].store && snaps[k].store[e.packet.value].packet == snaps[i].store[e.packet.value].packet
    decreases |snaps| - i
  {
    RoundSize(links, end, start, snaps, turns);
    RoundAt(links, end, start, snaps, turns, i);
    hide Whole, RoundIs;
    RoundKinds(links, end, snaps[i], snaps[i + 1], turns[i]);
    if TakenAt(snaps[i], turns[i]) == e {
      k := i;
    } else {
      EventStays(links, end, snaps[i], snaps[i + 1], turns[i], e);
      k := EventTaken(links, end, start, snaps, turns, i + 1, e);
    }
  }

  lemma RoundSize(links: seq<seq<nat>>, end: nat, start: Mesh.State, snaps: seq<Snap>, turns: seq<Turn>)
    requires Whole(links, end, start, snaps, turns)
    ensures |snaps| == |turns| + 1
  {
    hide RoundIs, SnapOk;
  }

  // ---------- Timers go on, beacons arrive ----------

  lemma TimerParts(node: Node, v: nat, delay1: nat, delay2: nat, loc: Loc) returns (after: Node, s: nat)
    ensures var r := AfterTimer(node, v, delay1, delay2, loc);
      && after == r.0 && s + 1 < |r.1| && r.1[s] == Send(v, BeaconPacket(BeaconOf(after))) && r.1[s + 1] == Timer(v + delay2)
  {
    var r := AfterTimer(node, v, delay1, delay2, loc);
    after, s := r.0, |r.1| - 2;
  }

  /** Main result: where a timer fires, the next one of that node fires between half a second and 1.501 seconds later. */
  lemma TimersGoOn(links: seq<seq<nat>>, end: nat, start: Mesh.State, snaps: seq<Snap>, turns: seq<Turn>, i: nat, n: nat, v: nat)
    returns (k: nat, w: nat)
    requires Whole(links, end, start, snaps, turns) && i < |turns| && i < |snaps|
    requires FiresAt(snaps[i], turns[i], n, v) && v + PERIOD <= end
    ensures i < k < |turns| && k < |snaps| && FiresAt(snaps[k], turns[k], n, w) && v + 500_000 <= w < v + PERIOD
  {
    RoundAt(links, end, start, snaps, turns, i);
    var e := NextTimer(links, end, snaps[i], snaps[i + 1], turns[i], n, v);
    hide Whole;
    k := EventTaken(links, end, start, snaps, turns, i + 1, e);
    w := e.vtime;
  }

  lemma JitterBounds(delay: nat)
    requires Jitter(delay)
    ensures 500_000 <= delay <= 1_500_000 && PERIOD == 1_501_000
  {
  }

  lemma NextTimer(links: seq<seq<nat>>, end: nat, a: Snap, b: Snap, turn: Turn, n: nat, v: nat) returns (e: Event)
    requires RoundIs(links, end, a, b, turn) && FiresAt(a, turn, n, v) && v + PERIOD <= end
    ensures e in b.queue && e.node == Some(n) && e.packet.None? && v + 500_000 <= e.vtime < v + PERIOD
  {
    hide *;
    FireRound(links, end, a, b, turn, n, v);
    JitterBounds(turn.step.delay2);
    var r := AfterTimer(a.nodes[n], v, turn.step.delay1, turn.step.delay2, turn.step.loc);
    var after, s := TimerParts(a.nodes[n], v, turn.step.delay1, turn.step.delay2, turn.step.loc);
    var part := PartAsked(r.1, s + 1, n, links[n], end, turn.added, b.store);
    e := TimerAsked(v + turn.step.delay2, n, links[n], end, part, b.store);
  }

  lemma IsShort(node: Node)
    ensures Short(BeaconPacket(BeaconOf(node)))
  {
  }

  lemma NextBeacon(links: seq<seq<nat>>, end: nat, a: Snap, b: Snap, turn: Turn, n: nat, v: nat, d: nat) returns (e: Event)
    requires RoundIs(links, end, a, b, turn) && FiresAt(a, turn, n, v) && v + FLIGHT <= end && n < |links| && d in links[n]
    ensures n < |b.nodes| && e in b.queue && e.node == Some(d) && v < e.vtime < v + FLIGHT
    ensures e.packet.Some? && e.packet.value in b.store && b.store[e.packet.value].packet == BeaconPacket(BeaconOf(b.nodes[n]))
  {
    hide *;
    FireRound(links, end, a, b, turn, n, v);
    var r := AfterTimer(a.nodes[n], v, turn.step.delay1, turn.step.delay2, turn.step.loc);
    var after, s := TimerParts(a.nodes[n], v, turn.step.delay1, turn.step.delay2, turn.step.loc);
    var part := PartAsked(r.1, s, n, links[n], end, turn.added, b.store);
    IsShort(after);
    e := PacketAsked(BeaconPacket(BeaconOf(after)), v, n, links[n], end, part, b.store, d);
  }

  /** Main result: the beacon that a timer sends is delivered to the far end of every link of its node. */
  lemma BeaconsArrive(links: seq<seq<nat>>, end: nat, start: Mesh.State, snaps: seq<Snap>, turns: seq<Turn>,
                      i: nat, n: nat, v: nat, d: nat) returns (k: nat, w: nat)
    requires Whole(links, end, start, snaps, turns) && i < |turns| && i + 1 < |snaps|
    requires FiresAt(snaps[i], turns[i], n, v) && v + FLIGHT <= end && n < |links| && d in links[n]
    ensures i < k < |turns| && k < |snaps| && n < |snaps[i + 1].nodes| && v < w < v + FLIGHT
    ensures DeliversAt(snaps[k], turns[k], d, w, BeaconOf(snaps[i + 1].nodes[n]))
  {
    RoundAt(links, end, start, snaps, turns, i);
    var e := NextBeacon(links, end, snaps[i], snaps[i + 1], turns[i], n, v, d);
    hide Whole, BeaconOf;
    k := EventTaken(links, end, start, snaps, turns, i + 1, e);
    w := e.vtime;
  }

  // ---------- Data ----------

  /** A round that delivers data to node n at time v. */
  ghost predicate PassesAt(s: Snap, turn: Turn, n: nat, v: nat, data: Data) {
    && turn.k < |s.queue| && TakenAt(s, turn).node == Some(n) && TakenAt(s, turn).vtime == v
    && TakenAt(s, turn).packet.Some? && TakenAt(s, turn).packet.value in s.store
    && s.store[TakenAt(s, turn).packet.value].packet == DataPacket(data)
  }

  lemma DataRound(links: seq<seq<nat>>, end: nat, a: Snap, b: Snap, turn: Turn, n: nat, v: nat, data: Data)
    requires RoundIs(links, end, a, b, turn) && PassesAt(a, turn, n, v, data)
    ensures n < |a.nodes| == |links| && b.nodes == a.nodes
    ensures AsksAll(DataAnswer(a.nodes[n], v, data), n, links[n], end, turn.added, b.store)
    ensures forall e :: e in turn.added ==> e in b.queue
  {
    hide AfterTimer, AfterBeacon, DataAnswer, AsksAll, Probed, SamePackets, IsEarliest;
  }

  /**
   Main result: data that reaches its hop on the way, where a neighbour helps, is sent on
   over every link with that neighbour as its next hop, and arrives there.
   */
  lemma DataArrives(links: seq<seq<nat>>, end: nat, start: Mesh.State, snaps: seq<Snap>, turns: seq<Turn>,
                    i: nat, n: nat, v: nat, data: Data, d: nat) returns (k: nat, w: nat, next: Data)
    requires Whole(links, end, start, snaps, turns) && i < |turns| && i < |snaps| && PassesAt(snaps[i], turns[i], n, v, data)
    requires n < |links| && d in links[n] && v + FLIGHT <= end && n < |snaps[i].nodes| && snaps[i].nodes[n].id == data.hop != data.dst
    requires forall m :: m in Unexpired(snaps[i].nodes[n].table) ==> m.stratum >= 1
    requires exists m :: m in Unexpired(snaps[i].nodes[n].table) && NodeLaws.Helps(m, snaps[i].nodes[n], data.dst, data.dstloc)
    ensures i < k < |turns| && k < |snaps| && v < w < v + FLIGHT && PassesAt(snaps[k], turns[k], d, w, next)
    ensures next.ttl == data.ttl - 1 && (next.src, next.dst, next.dstloc) == (data.src, data.dst, data.dstloc)
    ensures exists m :: m in Unexpired(snaps[i].nodes[n].table) && NodeLaws.Helps(m, snaps[i].nodes[n], data.dst, data.dstloc)
                        && next.hop == m.id
  {
    RoundAt(links, end, start, snaps, turns, i);
    var node := snaps[i].nodes[n];
    DataRound(links, end, snaps[i], snaps[i + 1], turns[i], n, v, data);
    NodeLaws.DataGoesOn(node, v, data);
    var cbs := DataAnswer(node, v, data);
    next := cbs[0].packet.data;
    hide Whole, RoundIs, AsksAll, Asks, DataAnswer, Unexpired, NodeLaws.Helps;
    var part := PartAsked(cbs, 0, n, links[n], end, turns[i].added, snaps[i + 1].store);
    var e := PacketAsked(DataPacket(next), v, n, links[n], end, part, snaps[i + 1].store, d);
    k := EventTaken(links, end, start, snaps, turns, i + 1, e);
    w := e.vtime;
  }

  lemma {:induction false} ProbedAt(nodes: seq<Node>, n: nat, tick: nat, links: seq<seq<nat>>, end: nat, added: seq<Event>,
                                    store: Packets.Store, i: nat) returns (part: seq<Event>)
    requires i < n <= |nodes| && n <= |links| && Probed(nodes, n, tick, links, end, added, store)
    ensures AsksAll(RouteProbe(nodes[i], tick), i, links[i], end, part, store) && forall e :: e in part ==> e in added
    decreases n
  {
    hide AsksAll, RouteProbe;
    var k: nat :| k <= |added| && Probed(nodes, n - 1, tick, links, end, added[..k], store)
               && AsksAll(RouteProbe(nodes[n - 1], tick), n - 1, links[n - 1], end, added[k..], store);
    if i == n - 1 {
      part := added[k..];
    } else {
      part := ProbedAt(nodes, n - 1, tick, links, end, added[..k], store, i);
    }
  }

  lemma TickRound(links: seq<seq<nat>>, end: nat, a: Snap, b: Snap, turn: Turn)
    requires RoundIs(links, end, a, b, turn) && turn.k < |a.queue| && TakenAt(a, turn).vtime > a.tick
    ensures b.tick == a.tick + 1_000_000 && |a.nodes| == |links|
    ensures Probed(a.nodes, |a.nodes|, a.tick, links, end, turn.probes, b.store) && forall e :: e in turn.probes ==> e in b.queue
  {
    hide AfterTimer, AfterBeacon, DataAnswer, AsksAll, Probed, SamePackets, IsEarliest, Answer, NodesAfter, StepFor, IsData;
  }

  /** Main result: at each tick every node that has a neighbour to help sends a probe for node 0, which arrives on all its links. */
  lemma ProbesArrive(links: seq<seq<nat>>, end: nat, start: Mesh.State, snaps: seq<Snap>, turns: seq<Turn>,
                     i: nat, n: nat, d: nat) returns (k: nat, w: nat, probe: Data)
    requires Whole(links, end, start, snaps, turns) && i < |turns| && i < |snaps| && n < |links| && n < |snaps[i].nodes|
    requires turns[i].k < |snaps[i].queue| && TakenAt(snaps[i], turns[i]).vtime > snaps[i].tick && snaps[i].tick + FLIGHT <= end
    requires d in links[n] && forall m :: m in Unexpired(snaps[i].nodes[n].table) ==> m.stratum >= 1
    requires exists m :: m in Unexpired(snaps[i].nodes[n].table) && NodeLaws.Helps(m, snaps[i].nodes[n], 0, Loc(0, 0, 0))
    ensures i < k < |turns| && k < |snaps| && snaps[i].tick < w < snaps[i].tick + FLIGHT && PassesAt(snaps[k], turns[k], d, w, probe)
    ensures (probe.src, probe.dst, probe.dstloc) == (snaps[i].nodes[n].id, 0, Loc(0, 0, 0))
    ensures exists m :: m in Unexpired(snaps[i].nodes[n].table) && NodeLaws.Helps(m, snaps[i].nodes[n], 0, Loc(0, 0, 0))
                        && probe.hop == m.id
  {
    RoundAt(links, end, start, snaps, turns, i);
    var node, tick := snaps[i].nodes[n], snaps[i].tick;
    TickRound(links, end, snaps[i], snaps[i + 1], turns[i]);
    NodeLaws.ProbeGoesOut(node, tick);
    var cbs := RouteProbe(node, tick);
    probe := cbs[0].packet.data;
    hide Whole, RoundIs, AsksAll, Asks, RouteProbe, Unexpired, NodeLaws.Helps, Probed;
    var some := ProbedAt(snaps[i].nodes, |snaps[i].nodes|, tick, links, end, turns[i].probes, snaps[i + 1].store, n);
    var part := PartAsked(cbs, 0, n, links[n], end, some, snaps[i + 1].store);
    var e := PacketAsked(DataPacket(probe), tick, n, links[n], end, part, snaps[i + 1].store, d);
    k := EventTaken(links, end, start, snaps, turns, i + 1, e);
    w := e.vtime;
  }

  // ---------- What a round does to a node ----------

  predicate Up(node: Node) {
    node.status == Awake || node.status == Root
  }

  /** Woken, due at time w. */
  predicate Due(node: Node, w: nat) {
    node.status == Waking && node.wakeTime == w
  }

  ghost predicate HearsUp(s: Snap, turn: Turn, n: nat, v: nat) {
    exists b: Beacon :: DeliversAt(s, turn, n, v, b) && b.status != Waking
  }

  lemma FireOnNode(links: seq<seq<nat>>, end: nat, a: Snap, b: Snap, turn: Turn, n: nat, v: nat, m: nat)
    requires RoundIs(links, end, a, b, turn) && FiresAt(a, turn, n, v) && m < |a.nodes|
    ensures |b.nodes| == |a.nodes|
    ensures m != n ==> b.nodes[m] == a.nodes[m]
    ensures m == n ==> b.nodes[m].wakeTime == a.nodes[m].wakeTime
    ensures m == n ==>
              b.nodes[m].status == if a.nodes[m].status == Waking && v >= a.nodes[m].wakeTime then Awake else a.nodes[m].status
  {
    FireRound(links, end, a, b, turn, n, v);
    TimerAdvances(a.nodes[n], v, turn.step.delay1, turn.step.delay2, turn.step.loc);
    hide RoundIs, FiresAt, AfterTimer, AsksAll;
  }

  lemma DeliverOnNode(links: seq<seq<nat>>, end: nat, a: Snap, b: Snap, turn: Turn, n: nat, v: nat, beacon: Beacon, m: nat)
    requires RoundIs(links, end, a, b, turn) && DeliversAt(a, turn, n, v, beacon) && m < |a.nodes|
    ensures |b.nodes| == |a.nodes|
    ensures m != n ==> b.nodes[m] == a.nodes[m]
    ensures m == n && a.nodes[m].status != Asleep ==> b.nodes[m].status == a.nodes[m].status && b.nodes[m].wakeTime == a.nodes[m].wakeTime
    ensures m == n && a.nodes[m].status == Asleep ==>
              if beacon.status == Waking then b.nodes[m].status == Asleep else Due(b.nodes[m], v + 2_500_000)
  {
    DeliverRound(links, end, a, b, turn, n, v, beacon);
    if a.nodes[n].status == Asleep {
      NodeLaws.SleeperWakesIff(a.nodes[n], v, beacon, turn.step.delay, turn.step.loc);
    } else {
      NodeLaws.UpIsUnmoved(a.nodes[n], v, beacon, turn.step.delay, turn.step.loc);
    }
    hide RoundIs, DeliversAt, AfterBeacon, AsksAll;
  }

  lemma OneTaken(a: Snap, turn: Turn, n: nat, v: nat, m: nat, u: nat)
    requires FiresAt(a, turn, n, v)
    ensures FiresAt(a, turn, m, u) ==> m == n && u == v
    ensures !HearsUp(a, turn, m, u)
  {
  }

  lemma OneDelivered(a: Snap, turn: Turn, n: nat, v: nat, beacon: Beacon, m: nat, u: nat)
    requires DeliversAt(a, turn, n, v, beacon)
    ensures !FiresAt(a, turn, m, u)
    ensures forall c: Beacon :: DeliversAt(a, turn, m, u, c) ==> m == n && u == v && c == beacon
  {
  }

  lemma RoundOnNode(links: seq<seq<nat>>, end: nat, a: Snap, b: Snap, turn: Turn, m: nat)
    requires RoundIs(links, end, a, b, turn) && m < |a.nodes|
    ensures |b.nodes| == |a.nodes| && turn.k < |a.queue|
    ensures var x, y, v := a.nodes[m], b.nodes[m], TakenAt(a, turn).vtime;
      && (Up(x) ==> Up(y))
      && (x.status == Waking ==> y.wakeTime == x.wakeTime
                                 && y.status == if FiresAt(a, turn, m, v) && v >= x.wakeTime then Awake else Waking)
      && (x.status == Asleep ==> if HearsUp(a, turn, m, v) then Due(y, v + 2_500_000) else y.status == Asleep)
  {
    RoundKinds(links, end, a, b, turn);
    hide RoundIs, DeliversAt, FiresAt;
    var n, v := TakenAt(a, turn).node.value, TakenAt(a, turn).vtime;
    if FiresAt(a, turn, n, v) {
      FireOnNode(links, end, a, b, turn, n, v, m);
      OneTaken(a, turn, n, v, m, v);
    } else if beacon :| DeliversAt(a, turn, n, v, beacon) {
      DeliverOnNode(links, end, a, b, turn, n, v, beacon, m);
      OneDelivered(a, turn, n, v, beacon, m, v);
    } else {
      NeitherOf(a, turn, m);
    }
  }

  lemma NeitherOf(a: Snap, turn: Turn, m: nat)
    requires turn.k < |a.queue| && TakenAt(a, turn).node.Some?
    requires var e := TakenAt(a, turn); !FiresAt(a, turn, e.node.value, e.vtime) && !exists b :: DeliversAt(a, turn, e.node.value, e.vtime, b)
    ensures !FiresAt(a, turn, m, TakenAt(a, turn).vtime) && !HearsUp(a, turn, m, TakenAt(a, turn).vtime)
  {
    if b :| DeliversAt(a, turn, m, TakenAt(a, turn).vtime, b) {
      assert DeliversAt(a, turn, TakenAt(a, turn).node.value, TakenAt(a, turn).vtime, b);
    }
  }

  /** A node that wakes has a timer queued a second later. */
  lemma WakeTimer(links: seq<seq<nat>>, end: nat, a: Snap, b: Snap, turn: Turn, n: nat, v: nat) returns (e: Event)
    requires RoundIs(links, end, a, b, turn) && HearsUp(a, turn, n, v) && n < |a.nodes| && a.nodes[n].status == Asleep
    requires v + 1_001_000 <= end
    ensures e in b.queue && e.node == Some(n) && e.packet.None? && v + 1_000_000 <= e.vtime < v + 1_001_000
  {
    var beacon: Beacon :| DeliversAt(a, turn, n, v, beacon) && beacon.status != Waking;
    hide *;
    DeliverRound(links, end, a, b, turn, n, v, beacon);
    NodeLaws.SleeperWakesIff(a.nodes[n], v, beacon, turn.step.delay, turn.step.loc);
    var cbs := AfterBeacon(a.nodes[n], v, beacon, turn.step.delay, turn.step.loc).value.1;
    assert cbs[1] == Timer(v + 1_000_000);
    var part := PartAsked(cbs, 1, n, links[n], end, turn.added, b.store);
    e := TimerAsked(v + 1_000_000, n, links[n], end, part, b.store);
  }

  // ---------- Getting up ----------

  /** A timer of node m fires at time v in round j and leaves it up. */
  ghost predicate GetsUp(snaps: seq<Snap>, turns: seq<Turn>, j: nat, m: nat, v: nat) {
    && j < |turns| && |snaps| == |turns| + 1 && FiresAt(snaps[j], turns[j], m, v)
    && m < |snaps[j + 1].nodes| && Up(snaps[j + 1].nodes[m])
  }

  lemma NowUp(snaps: seq<Snap>, turns: seq<Turn>, j: nat, m: nat, v: nat)
    requires j < |turns| && |snaps| == |turns| + 1 && FiresAt(snaps[j], turns[j], m, v)
    requires m < |snaps[j + 1].nodes| && Up(snaps[j + 1].nodes[m])
    ensures GetsUp(snaps, turns, j, m, v)
  {
  }

  lemma IsFiring(a: Snap, turn: Turn, m: nat, e: Event)
    requires turn.k < |a.queue| && TakenAt(a, turn) == e && e.node == Some(m) && e.packet.None?
    ensures FiresAt(a, turn, m, e.vtime)
  {
  }

  lemma TakenIsEarliest(links: seq<seq<nat>>, end: nat, a: Snap, b: Snap, turn: Turn, e: Event)
    requires RoundIs(links, end, a, b, turn) && e in a.queue
    ensures turn.k < |a.queue| && TakenAt(a, turn).vtime <= e.vtime
  {
    hide AfterTimer, AfterBeacon, DataAnswer, AsksAll, Probed, SamePackets, Answer, NodesAfter, StepFor, IsData;
  }

  /** A node that has been woken, with a timer queued, gets up within one period after it is due. */
  lemma {:induction false} Rises(links: seq<seq<nat>>, end: nat, start: Mesh.State, snaps: seq<Snap>, turns: seq<Turn>,
                                 i: nat, m: nat, w: nat, e: Event) returns (j: nat, v: nat)
    requires Whole(links, end, start, snaps, turns) && i < |snaps| && m < |snaps[i].nodes| && Due(snaps[i].nodes[m], w)
    requires e in snaps[i].queue && e.node == Some(m) && e.packet.None? && e.vtime < w + PERIOD <= end
    ensures GetsUp(snaps, turns, j, m, v) && w <= v < w + PERIOD
    decreases |snaps| - i
  {
    RoundSize(links, end, start, snaps, turns);
    RoundAt(links, end, start, snaps, turns, i);
    hide Whole, RoundIs, FiresAt, GetsUp, HearsUp;
    var a, b, turn := snaps[i], snaps[i + 1], turns[i];
    RoundOnNode(links, end, a, b, turn, m);
    TakenIsEarliest(links, end, a, b, turn, e);
    var u := TakenAt(a, turn).vtime;
    if FiresAt(a, turn, m, u) && u >= w {
      j, v := i, u;
      NowUp(snaps, turns, i, m, u);
    } else if TakenAt(a, turn) == e {
      IsFiring(a, turn, m, e);
      var later := NextTimer(links, end, a, b, turn, m, e.vtime);
      j, v := Rises(links, end, start, snaps, turns, i + 1, m, w, later);
    } else {
      EventStays(links, end, a, b, turn, e);
      j, v := Rises(links, end, start, snaps, turns, i + 1, m, w, e);
    }
  }

  lemma {:induction false} UpStays(links: seq<seq<nat>>, end: nat, start: Mesh.State, snaps: seq<Snap>, turns: seq<Turn>,
                                   i: nat, k: nat, m: nat)
    requires Whole(links, end, start, snaps, turns) && i <= k < |snaps| && m < |snaps[i].nodes| && Up(snaps[i].nodes[m])
    ensures m < |snaps[k].nodes| && Up(snaps[k].nodes[m])
    decreases k - i
  {
    hide *;
    if i < k {
      RoundSize(links, end, start, snaps, turns);
      RoundAt(links, end, start, snaps, turns, i);
      RoundOnNode(links, end, snaps[i], snaps[i + 1], turns[i], m);
      UpStays(links, end, start, snaps, turns, i + 1, k, m);
    }
  }

  /** A node that was asleep and is not any more has been woken in some round. */
  lemma {:induction false} WokenBefore(links: seq<seq<nat>>, end: nat, start: Mesh.State, snaps: seq<Snap>, turns: seq<Turn>,
                                       k: nat, m: nat) returns (i: nat)
    requires Whole(links, end, start, snaps, turns) && k < |snaps| && m < |links|
    requires |snaps[0].nodes| == |links| == |snaps[k].nodes|
    requires snaps[0].nodes[m].status == Asleep && snaps[k].nodes[m].status != Asleep
    ensures i < k && |snaps[i].nodes| == |links| == |snaps[i + 1].nodes|
    ensures snaps[i].nodes[m].status == Asleep && snaps[i + 1].nodes[m].status != Asleep
    decreases k
  {
    hide RoundIs, SnapOk;
    RoundSize(links, end, start, snaps, turns);
    RoundAt(links, end, start, snaps, turns, k - 1);
    if snaps[k - 1].nodes[m].status == Asleep {
      i := k - 1;
    } else {
      hide Whole;
      i := WokenBefore(links, end, start, snaps, turns, k - 1, m);
    }
  }

  // ---------- The order of rounds ----------

  lemma {:induction false} StepsGrow(links: seq<seq<nat>>, end: nat, start: Mesh.State, snaps: seq<Snap>, turns: seq<Turn>, i: nat, k: nat)
    requires Whole(links, end, start, snaps, turns) && i <= k < |snaps|
    ensures snaps[i].steps <= snaps[k].steps
    decreases k - i
  {
    hide *;
    if i < k {
      RoundSize(links, end, start, snaps, turns);
      RoundAt(links, end, start, snaps, turns, i);
      RoundSteps(links, end, snaps[i], snaps[i + 1], turns[i]);
      StepsGrow(links, end, start, snaps, turns, i + 1, k);
    }
  }

  lemma HearingStep(links: seq<seq<nat>>, end: nat, a: Snap, b: Snap, turn: Turn, n: nat, v: nat, beacon: Beacon)
    requires RoundIs(links, end, a, b, turn) && DeliversAt(a, turn, n, v, beacon)
    ensures b.steps == a.steps + [turn.step] && turn.step.vtime == v
  {
    hide AfterTimer, AfterBeacon, DataAnswer, AsksAll, Probed, SamePackets, Answer, NodesAfter, IsEarliest;
  }

  lemma Sorted(links: seq<seq<nat>>, end: nat, start: Mesh.State, snaps: seq<Snap>, turns: seq<Turn>)
    requires Whole(links, end, start, snaps, turns)
    ensures |snaps| == |turns| + 1
    ensures forall i, j :: 0 <= i < j < |snaps[|turns|].steps| ==> snaps[|turns|].steps[i].vtime <= snaps[|turns|].steps[j].vtime
  {
    hide RoundIs, SnapOk;
  }

  /** Of two beacons delivered one after the other the second is not earlier. */
  lemma InTimeOrder(links: seq<seq<nat>>, end: nat, start: Mesh.State, snaps: seq<Snap>, turns: seq<Turn>,
                    i: nat, m: nat, u: nat, b: Beacon, k: nat, n: nat, v: nat, c: Beacon)
    requires Whole(links, end, start, snaps, turns) && i < k < |turns| && k < |snaps|
    requires DeliversAt(snaps[i], turns[i], m, u, b) && DeliversAt(snaps[k], turns[k], n, v, c)
    ensures u <= v
  {
    Sorted(links, end, start, snaps, turns);
    RoundAt(links, end, start, snaps, turns, i);
    RoundAt(links, end, start, snaps, turns, k);
    HearingStep(links, end, snaps[i], snaps[i + 1], turns[i], m, u, b);
    HearingStep(links, end, snaps[k], snaps[k + 1], turns[k], n, v, c);
    StepsGrow(links, end, start, snaps, turns, i + 1, k);
    StepsGrow(links, end, start, snaps, turns, k + 1, |turns|);
    hide Whole, RoundIs, DeliversAt;
    var steps := snaps[|turns|].steps;
    assert snaps[i + 1].steps[|snaps[i].steps|] == turns[i].step;
    assert snaps[k].steps[|snaps[i].steps|] == turns[i].step;
    assert snaps[k + 1].steps[|snaps[i].steps|] == turns[i].step && snaps[k + 1].steps[|snaps[k].steps|] == turns[k].step;
    assert steps[|snaps[i].steps|] == turns[i].step && steps[|snaps[k].steps|] == turns[k].step;
  }

  // ---------- The wave ----------

  /** A node that is woken by a beacon at time u gets up within the following four seconds. */
  lemma WokenGetsUp(links: seq<seq<nat>>, end: nat, start: Mesh.State, snaps: seq<Snap>, turns: seq<Turn>,
                    i: nat, m: nat, u: nat) returns (j: nat, v: nat)
    requires Whole(links, end, start, snaps, turns) && i < |turns| && i + 1 < |snaps| && m < |snaps[i].nodes|
    requires snaps[i].nodes[m].status == Asleep && HearsUp(snaps[i], turns[i], m, u) && u + 2_500_000 + PERIOD <= end
    ensures GetsUp(snaps, turns, j, m, v) && v < u + 2_500_000 + PERIOD
  {
    RoundAt(links, end, start, snaps, turns, i);
    hide Whole, RoundIs, GetsUp;
    var a, b, turn := snaps[i], snaps[i + 1], turns[i];
    HearingTime(a, turn, m, u);
    hide HearsUp;
    RoundOnNode(links, end, a, b, turn, m);
    var e := WakeTimer(links, end, a, b, turn, m, u);
    j, v := Rises(links, end, start, snaps, turns, i + 1, m, u + 2_500_000, e);
  }

  lemma HearingTime(a: Snap, turn: Turn, m: nat, u: nat)
    requires HearsUp(a, turn, m, u)
    ensures turn.k < |a.queue| && TakenAt(a, turn).vtime == u
  {
  }

  /** The first nodes of a start are as node_init leaves them, and their timers are queued. */
  lemma {:induction false} StartedAt(nodes: seq<Node>, n: nat, options: Options, ends: seq<nat>, end: nat, queue: seq<Event>, i: nat)
    returns (part: seq<Event>, loc: Loc, delay: nat)
    requires i < n <= |nodes| && Started(nodes, n, options, ends, end, queue)
    ensures StartedOne(nodes, i + 1, options, ends, end, part, loc, delay) && forall e :: e in part ==> e in queue
    decreases n
  {
    hide StartedOne;
    var k: nat, l: Loc, d: nat :| k <= |queue| && StartedOne(nodes, n, options, ends, end, queue[k..], l, d)
                               && Started(nodes, n - 1, options, ends, end, queue[..k]);
    if i == n - 1 {
      part, loc, delay := queue[k..], l, d;
    } else {
      part, loc, delay := StartedAt(nodes, n - 1, options, ends, end, queue[..k], i);
    }
  }

  /** How a simulation starts: who is up, with a timer, and who sleeps. */
  lemma StartsUp(nodes: seq<Node>, options: Options, end: nat, queue: seq<Event>, m: nat)
    requires m < |nodes| && Started(nodes, |nodes|, options, [], end, queue)
    ensures Up(nodes[m]) <==> options.awake || (m == 0 && options.root)
    ensures !Up(nodes[m]) ==> nodes[m].status == Asleep
    ensures Up(nodes[m]) && PERIOD <= end ==>
              exists e :: e in queue && e.node == Some(m) && e.packet.None? && e.vtime < PERIOD
  {
    var part, loc, delay := StartedAt(nodes, |nodes|, options, [], end, queue, m);
    NodeLaws.StartsAs(m, options, loc, delay);
    hide Init, AsksAll;
    if Up(nodes[m]) && PERIOD <= end {
      var cbs := Init(m, options, loc, delay).1;
      var one := PartAsked(cbs, 0, m, [], end, part, map[]);
      var e := TimerAsked(if nodes[m].status == Root then 0 else delay, m, [], end, one, map[]);
    }
  }

  lemma StarterGetsUp(links: seq<seq<nat>>, end: nat, start: Mesh.State, snaps: seq<Snap>, turns: seq<Turn>,
                      options: Options, m: nat) returns (j: nat, v: nat)
    requires Whole(links, end, start, snaps, turns) && |snaps| > 0 && m < |snaps[0].nodes| && PERIOD <= end
    requires Started(snaps[0].nodes, |snaps[0].nodes|, options, [], end, snaps[0].queue) && Up(snaps[0].nodes[m])
    ensures GetsUp(snaps, turns, j, m, v) && v < PERIOD
  {
    StartsUp(snaps[0].nodes, options, end, snaps[0].queue, m);
    hide Whole, Started, Up;
    var e :| e in snaps[0].queue && e.node == Some(m) && e.packet.None? && e.vtime < PERIOD;
    j := EventTaken(links, end, start, snaps, turns, 0, e);
    v := e.vtime;
    IsFiring(snaps[j], turns[j], m, e);
    UpStays(links, end, start, snaps, turns, 0, j + 1, m);
    NowUp(snaps, turns, j, m, v);
  }

  /** m is d links away from a. */
  ghost predicate Away(links: seq<seq<nat>>, a: nat, m: nat, d: nat)
    decreases d
  {
    if d == 0 then a == m
    else exists c: nat :: c < |links| && Away(links, a, c, d - 1) && m in links[c]
  }

  /** Where a node gets up, the nodes at the far ends of its links get up one stage later at most. */
  lemma NextGetsUp(links: seq<seq<nat>>, end: nat, start: Mesh.State, snaps: seq<Snap>, turns: seq<Turn>, options: Options,
                   j: nat, c: nat, v: nat, m: nat) returns (k: nat, w: nat)
    requires Whole(links, end, start, snaps, turns) && LinksOk(links) && c < |links| && m in links[c]
    requires |snaps| > 0 && Started(snaps[0].nodes, |snaps[0].nodes|, options, [], end, snaps[0].queue)
    requires GetsUp(snaps, turns, j, c, v) && v + STAGE <= end
    ensures GetsUp(snaps, turns, k, m, w) && (w < v + STAGE || w < PERIOD)
  {
    RoundSize(links, end, start, snaps, turns);
    RoundAt(links, end, start, snaps, turns, 0);
    var h, t := BeaconsArrive(links, end, start, snaps, turns, j, c, v, m);
    RoundAt(links, end, start, snaps, turns, h);
    var beacon := BeaconOf(snaps[j + 1].nodes[c]);
    BeaconIsUp(snaps[j + 1].nodes[c]);
    Hearing(snaps[h], turns[h], m, t, beacon);
    if Up(snaps[0].nodes[m]) {
      k, w := StarterGetsUp(links, end, start, snaps, turns, options, m);
    } else if snaps[h].nodes[m].status == Asleep {
      k, w := WokenGetsUp(links, end, start, snaps, turns, h, m, t);
    } else {
      StartsUp(snaps[0].nodes, options, end, snaps[0].queue, m);
      hide Whole, GetsUp, Started, DeliversAt;
      var i := WokenBefore(links, end, start, snaps, turns, h, m);
      RoundAt(links, end, start, snaps, turns, i);
      RoundOnNode(links, end, snaps[i], snaps[i + 1], turns[i], m);
      var u := TakenAt(snaps[i], turns[i]).vtime;
      var b: Beacon :| DeliversAt(snaps[i], turns[i], m, u, b) && b.status != Waking;
      InTimeOrder(links, end, start, snaps, turns, i, m, u, b, h, m, t, beacon);
      k, w := WokenGetsUp(links, end, start, snaps, turns, i, m, u);
    }
  }

  lemma BeaconIsUp(node: Node)
    requires Up(node)
    ensures BeaconOf(node).status != Waking
  {
  }

  lemma Hearing(s: Snap, turn: Turn, n: nat, v: nat, b: Beacon)
    requires DeliversAt(s, turn, n, v, b) && b.status != Waking
    ensures HearsUp(s, turn, n, v)
  {
  }

  /**
   Main result: in a run that ends by itself, a node d links away from one that is up at
   the start gets up, at a timer that fires before 1.501 + 4.2 d seconds, if there is that
   much time.
   */
  lemma {:induction false} WaveArrives(links: seq<seq<nat>>, end: nat, start: Mesh.State, snaps: seq<Snap>, turns: seq<Turn>,
                                       options: Options, a: nat, m: nat, d: nat) returns (j: nat, v: nat)
    requires Whole(links, end, start, snaps, turns) && LinksOk(links) && a < |links| && Away(links, a, m, d)
    requires |snaps| > 0 && Started(snaps[0].nodes, |snaps[0].nodes|, options, [], end, snaps[0].queue)
    requires options.awake || (a == 0 && options.root)
    requires PERIOD + STAGE * d <= end
    ensures GetsUp(snaps, turns, j, m, v) && v < PERIOD + STAGE * d
    decreases d
  {
    hide Whole, Started, GetsUp;
    RoundSize(links, end, start, snaps, turns);
    RoundAt(links, end, start, snaps, turns, 0);
    if d == 0 {
      StartsUp(snaps[0].nodes, options, end, snaps[0].queue, a);
      j, v := StarterGetsUp(links, end, start, snaps, turns, options, a);
    } else {
      var c: nat :| c < |links| && Away(links, a, c, d - 1) && m in links[c];
      var i, u := WaveArrives(links, end, start, snaps, turns, options, a, c, d - 1);
      j, v := NextGetsUp(links, end, start, snaps, turns, options, i, c, u, m);
    }
  }

  /** So at the end every such node is up. */
  lemma EveryoneIsUp(links: seq<seq<nat>>, end: nat, start: Mesh.State, snaps: seq<Snap>, turns: seq<Turn>,
                     options: Options, a: nat, m: nat, d: nat)
    requires Whole(links, end, start, snaps, turns) && LinksOk(links) && a < |links| && Away(links, a, m, d)
    requires |snaps| > 0 && Started(snaps[0].nodes, |snaps[0].nodes|, options, [], end, snaps[0].queue)
    requires options.awake || (a == 0 && options.root)
    requires PERIOD + STAGE * d <= end
    ensures |snaps| == |turns| + 1 && m < |snaps[|turns|].nodes| && Up(snaps[|turns|].nodes[m])
  {
    RoundSize(links, end, start, snaps, turns);
    var j, v := WaveArrives(links, end, start, snaps, turns, options, a, m, d);
    hide Whole, Started;
    UpStays(links, end, start, snaps, turns, j + 1, |turns|, m);
  }

  /** A simulation, and what it comes to: unless a table overflows, all that can be reached in time get up. */
  method SimulateAll(links: seq<seq<nat>>, end: nat, options: Options) returns (aborted: bool, sim: Simulator)
    requires LinksOk(links)
    ensures Mesh.SmallBalls(EdgesOf(links)) ==> !aborted
    ensures !aborted ==> forall a: nat, m: nat, d: nat ::
              a < |links| && Away(links, a, m, d) && (options.awake || (a == 0 && options.root)) && PERIOD + STAGE * d <= end ==>
                m < |sim.nodes| && Up(sim.nodes[m])
  {
    hide Mesh.SmallBalls, Started, Mesh.Initial, Whole;
    ghost var snaps, turns;
    aborted, sim, snaps, turns := Simulate(links, end, options);
    if !aborted {
      RunIsWhole(links, end, sim.start, snaps, turns, sim.steps, sim.handled, sim.mesh);
      forall a: nat, m: nat, d: nat | a < |links| && Away(links, a, m, d) && (options.awake || (a == 0 && options.root))
                                      && PERIOD + STAGE * d <= end
        ensures m < |sim.nodes| && Up(sim.nodes[m])
      {
        EveryoneIsUp(links, end, sim.start, snaps, turns, options, a, m, d);
      }
    }
  }

  lemma RunIsWhole(links: seq<seq<nat>>, end: nat, start: Mesh.State, snaps: seq<Snap>, turns: seq<Turn>,
                   steps: seq<Mesh.Step>, handled: seq<nat>, mesh: Mesh.State)
    requires Rounds(links, end, start, snaps, turns) && History(EdgesOf(links), start, steps, handled, mesh)
    requires |snaps| == |turns| + 1 && snaps[|turns|].steps == steps && snaps[|turns|].queue == []
    ensures Whole(links, end, start, snaps, turns)
  {
    hide Rounds, Mesh.Run, Mesh.AllEnabled;
  }
}
