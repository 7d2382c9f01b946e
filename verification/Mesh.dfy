/**
 The whole network as a transition system: nodes (Node), and beacons in the air.

 A beacon, once sent, stays in the air for ever, so it may be delivered late, in any
 order, several times or never.  A timer may fire at any node that is not asleep.  The
 clock is the time of the latest step; steps come in time order.  Which nodes were heard
 by whom is recorded so that it can be spoken about; no handler reads it.
 */
module Mesh {
  import opened Wrappers
  import opened Neigh
  import opened Node
  import Routing

  type Edges = set<(nat, nat)>

  /** A beacon on its way along one edge. */
  datatype Flight = Flight(to: nat, beacon: Beacon)

  /** heard holds (a, b) when a has been delivered a beacon sent by b. */
  datatype State = State(now: nat, nodes: seq<Node>, air: set<Flight>, heard: set<(nat, nat)>, crashed: bool)

  datatype Step =
    | Fire(node: nat, vtime: nat, delay1: nat, delay2: nat, loc: Loc)
    | Deliver(flight: Flight, vtime: nat, delay: nat, loc: Loc)

  predicate NoLoops(edges: Edges) {
    forall e :: e in edges ==> e.0 != e.1
  }

  function Flights(edges: Edges, src: nat, b: Beacon): set<Flight> {
    set e | e in edges && e.0 == src :: Flight(e.1, b)
  }

  predicate Enabled(s: State, step: Step) {
    && !s.crashed && step.vtime >= s.now
    && match step
       case Fire(n, _, _, _, _) => n < |s.nodes| && s.nodes[n].status != Asleep
       case Deliver(f, _, _, _) => f in s.air && f.to < |s.nodes| && f.beacon.neigh != []
  }

  /** The state after a step; a neighbour table overflow stops the program. */
  function Next(edges: Edges, s: State, step: Step): State
    requires Enabled(s, step)
  {
    match step
    case Fire(n, vtime, delay1, delay2, loc) =>
      var after := AfterTimer(s.nodes[n], vtime, delay1, delay2, loc).0;
      s.(now := vtime, nodes := s.nodes[n := after], air := s.air + Flights(edges, n, BeaconOf(after)))
    case Deliver(f, vtime, delay, loc) =>
      var sender := f.beacon.neigh[0].id;
      var t := s.(now := vtime, heard := s.heard + {(f.to, sender)});
      match AfterBeacon(s.nodes[f.to], vtime, f.beacon, delay, loc)
      case None => t.(crashed := true)
      case Some((after, _)) => t.(nodes := s.nodes[f.to := after])
  }

  /** A run: steps that are not enabled do nothing. */
  function Run(edges: Edges, s: State, steps: seq<Step>): State
    decreases |steps|
  {
    if steps == [] then s
    else Run(edges, if Enabled(s, steps[0]) then Next(edges, s, steps[0]) else s, steps[1..])
  }

  lemma {:induction false} RunSnoc(edges: Edges, s: State, steps: seq<Step>, step: Step)
    requires Enabled(Run(edges, s, steps), step)
    ensures Run(edges, s, steps + [step]) == Next(edges, Run(edges, s, steps), step)
    decreases |steps|
  {
    hide Enabled, Next;
    if steps == [] {
      assert ([] + [step])[1..] == [];
    } else {
      assert (steps + [step])[1..] == steps[1..] + [step];
      RunSnoc(edges, if Enabled(s, steps[0]) then Next(edges, s, steps[0]) else s, steps[1..], step);
    }
  }

  /** Each step is enabled at its turn, so that a run skips none. */
  predicate AllEnabled(edges: Edges, s: State, steps: seq<Step>)
    decreases |steps|
  {
    steps == [] || (Enabled(s, steps[0]) && AllEnabled(edges, Next(edges, s, steps[0]), steps[1..]))
  }

  lemma {:induction false} AllEnabledSnoc(edges: Edges, s: State, steps: seq<Step>, step: Step)
    requires AllEnabled(edges, s, steps) && Enabled(Run(edges, s, steps), step)
    ensures AllEnabled(edges, s, steps + [step])
    decreases |steps|
  {
    hide Enabled, Next;
    if steps == [] {
      assert ([] + [step])[1..] == [];
    } else {
      assert (steps + [step])[1..] == steps[1..] + [step];
      AllEnabledSnoc(edges, Next(edges, s, steps[0]), steps[1..], step);
    }
  }

  /** All nodes as node_init leaves them. */
  ghost predicate Initial(s: State, options: Options) {
    && s.now == 0 && s.air == {} && s.heard == {} && !s.crashed
    && forall i :: 0 <= i < |s.nodes| ==> InitialNode(s.nodes[i], i, options)
  }

  ghost predicate InitialNode(node: Node, id: nat, options: Options) {
    exists loc: Loc, delay: nat :: node == Init(id, options, loc, delay).0
  }

  // ---------- Links and walks ----------

  predicate Bi(edges: Edges, a: nat, b: nat) {
    (a, b) in edges && (b, a) in edges
  }

  /** A walk of exactly k bidirectional links. */
  ghost predicate BiWalk(edges: Edges, a: nat, b: nat, k: nat)
    decreases k
  {
    if k == 0 then a == b else exists c: nat :: Bi(edges, a, c) && BiWalk(edges, c, b, k - 1)
  }

  lemma BiWalkOne(edges: Edges, a: nat, b: nat)
    ensures BiWalk(edges, a, b, 1) <==> Bi(edges, a, b)
  {
    if Bi(edges, a, b) {
      assert BiWalk(edges, b, b, 0);
    }
    if BiWalk(edges, a, b, 1) {
      var c: nat :| Bi(edges, a, c) && BiWalk(edges, c, b, 0);
    }
  }

  // ---------- The invariant ----------

  /** What an entry with this stratum means when node self lists it. */
  ghost predicate EntryOk(edges: Edges, heard: set<(nat, nat)>, self: nat, n: Neigh) {
    && n.id != self
    && (n.stratum == 1 || n.stratum == 2 || n.stratum == 3 || n.stratum == STRATUM_INF)
    && (n.stratum == 1 ==> (self, n.id) in heard && (n.id, self) in heard)
    && (n.stratum == STRATUM_INF ==> (self, n.id) in heard)
    && (n.stratum != STRATUM_INF ==> BiWalk(edges, self, n.id, n.stratum))
  }

  ghost predicate TableOk(edges: Edges, heard: set<(nat, nat)>, self: nat, t: seq<Entry>) {
    && UniqueIds(t)
    && forall e :: e in t ==> e.expiry != 0 && EntryOk(edges, heard, self, e.neigh)
  }

  ghost predicate FlightOk(edges: Edges, heard: set<(nat, nat)>, f: Flight) {
    && f.beacon.neigh != []
    && f.beacon.neigh[0].stratum == 0
    && (f.beacon.neigh[0].id, f.to) in edges
    && forall n :: n in f.beacon.neigh[1..] ==> EntryOk(edges, heard, f.beacon.neigh[0].id, n) && n.stratum != 3
  }

  ghost predicate Inv(edges: Edges, s: State) {
    && (forall p :: p in s.heard ==> (p.1, p.0) in edges)
    && (forall i :: 0 <= i < |s.nodes| ==> s.nodes[i].id == i && TableOk(edges, s.heard, i, s.nodes[i].table))
    && (forall f :: f in s.air ==> FlightOk(edges, s.heard, f))
  }

  // ---------- Inserting keeps tables meaningful ----------

  lemma InsertedOk(edges: Edges, heard: set<(nat, nat)>, self: nat, t: seq<Entry>, n: Neigh, vtime: nat)
    requires TableOk(edges, heard, self, t) && EntryOk(edges, heard, self, n) && Inserted(t, n, vtime).Some?
    ensures TableOk(edges, heard, self, Inserted(t, n, vtime).value)
  {
    hide EntryOk;
    InsertedLookup(t, n, vtime, n.id);
    var t' := Inserted(t, n, vtime).value;
    forall e | e in t' ensures e.expiry != 0 && EntryOk(edges, heard, self, e.neigh) {
      if e !in t {
        assert e == Entry(n, vtime + EXPIRY_TIMEOUT);
      }
    }
  }

  /** What a beacon entry becomes in the receiver's table. */
  function Further(n: Neigh): Neigh {
    n.(stratum := (n.stratum + 1) % 256)
  }

  predicate Taken(n: Neigh, self: nat) {
    n.id != self && n.stratum != STRATUM_INF
  }

  lemma {:induction false} InsertAllOk(edges: Edges, heard: set<(nat, nat)>, self: nat, t: seq<Entry>, ns: seq<Neigh>, vtime: nat)
    requires TableOk(edges, heard, self, t) && InsertAll(t, self, ns, vtime).Some?
    requires forall n :: n in ns && Taken(n, self) ==> EntryOk(edges, heard, self, Further(n))
    ensures TableOk(edges, heard, self, InsertAll(t, self, ns, vtime).value)
    decreases |ns|
  {
    hide EntryOk, TableOk, Inserted;
    if ns != [] {
      assert ns[0] in ns;
      if Taken(ns[0], self) {
        InsertedOk(edges, heard, self, t, Further(ns[0]), vtime);
        InsertAllOk(edges, heard, self, Inserted(t, Further(ns[0]), vtime).value, ns[1..], vtime);
      } else {
        InsertAllOk(edges, heard, self, t, ns[1..], vtime);
      }
    }
  }

  /** A sender that lists the receiver has heard it: the link is bidirectional and both have heard each other. */
  lemma SeenSelfMeansHeard(edges: Edges, s: State, f: Flight)
    requires Inv(edges, s) && f in s.air && SeesSelf(f.beacon.neigh, f.to)
    ensures (f.beacon.neigh[0].id, f.to) in s.heard && Bi(edges, f.to, f.beacon.neigh[0].id)
  {
    hide TableOk;
    var ns := f.beacon.neigh;
    var n :| n in ns && n.id == f.to && (n.stratum == 1 || n.stratum == STRATUM_INF);
    assert ns == [ns[0]] + ns[1..];
    assert n in ns[1..];
  }

  lemma FurtherOk(edges: Edges, s: State, f: Flight, heard: set<(nat, nat)>, n: Neigh)
    requires Inv(edges, s) && f in s.air && SeesSelf(f.beacon.neigh, f.to)
    requires heard == s.heard + {(f.to, f.beacon.neigh[0].id)}
    requires n in f.beacon.neigh && Taken(n, f.to)
    ensures EntryOk(edges, heard, f.to, Further(n))
  {
    hide TableOk;
    var ns, sender := f.beacon.neigh, f.beacon.neigh[0].id;
    SeenSelfMeansHeard(edges, s, f);
    assert ns == [ns[0]] + ns[1..];
    if n == ns[0] {
      BiWalkOne(edges, f.to, sender);
    } else {
      assert n in ns[1..];
      assert BiWalk(edges, f.to, n.id, n.stratum + 1);
    }
  }

  lemma RecordedOk(edges: Edges, s: State, f: Flight, vtime: nat, heard: set<(nat, nat)>)
    requires NoLoops(edges) && Inv(edges, s) && f in s.air && f.to < |s.nodes|
    requires heard == s.heard + {(f.to, f.beacon.neigh[0].id)}
    requires Recorded(s.nodes[f.to].table, f.to, f.beacon, vtime).Some?
    ensures TableOk(edges, heard, f.to, Recorded(s.nodes[f.to].table, f.to, f.beacon, vtime).value)
  {
    var t := s.nodes[f.to].table;
    MoreHeard(edges, s.heard, heard, f.to, t);
    if SeesSelf(f.beacon.neigh, f.to) {
      forall n | n in f.beacon.neigh && Taken(n, f.to) ensures EntryOk(edges, heard, f.to, Further(n)) {
        FurtherOk(edges, s, f, heard, n);
      }
      InsertAllOk(edges, heard, f.to, t, f.beacon.neigh, vtime);
    } else {
      InsertedOk(edges, heard, f.to, t, f.beacon.neigh[0].(stratum := STRATUM_INF), vtime);
    }
  }

  lemma MoreHeard(edges: Edges, heard: set<(nat, nat)>, more: set<(nat, nat)>, self: nat, t: seq<Entry>)
    requires heard <= more && TableOk(edges, heard, self, t)
    ensures TableOk(edges, more, self, t)
  {
  }

  lemma MoreHeardInFlight(edges: Edges, heard: set<(nat, nat)>, more: set<(nat, nat)>, f: Flight)
    requires heard <= more && FlightOk(edges, heard, f)
    ensures FlightOk(edges, more, f)
  {
  }

  lemma {:induction false} ListedOk(edges: Edges, heard: set<(nat, nat)>, self: nat, ns: seq<Neigh>, room: nat)
    requires forall n :: n in ns ==> EntryOk(edges, heard, self, n)
    ensures forall n :: n in Listed(ns, room) ==> EntryOk(edges, heard, self, n) && n.stratum != 3
    decreases |ns|
  {
    hide EntryOk;
    if ns != [] && room > 0 {
      assert ns[0] in ns;
      ListedOk(edges, heard, self, ns[1..], room - 1);
      ListedOk(edges, heard, self, ns[1..], room);
    }
  }

  lemma {:induction false} UnexpiredFrom(t: seq<Entry>, n: Neigh)
    requires n in Unexpired(t)
    ensures exists e :: e in t && e.neigh == n && e.expiry != 0
    decreases |t|
  {
    if t != [] {
      if n in Unexpired(t[1..]) {
        UnexpiredFrom(t[1..], n);
      } else {
        assert t[0] in t;
      }
    }
  }

  /** A beacon repeats its sender's table, so it is as good as the table. */
  lemma SentOk(edges: Edges, heard: set<(nat, nat)>, node: Node, f: Flight)
    requires TableOk(edges, heard, node.id, node.table) && f in Flights(edges, node.id, BeaconOf(node))
    ensures FlightOk(edges, heard, f)
  {
    hide EntryOk, Unexpired;
    var ns := Unexpired(node.table);
    forall n | n in ns ensures EntryOk(edges, heard, node.id, n) {
      UnexpiredFrom(node.table, n);
    }
    ListedOk(edges, heard, node.id, ns, BEACON_ENTRIES - 1);
    assert f.beacon.neigh[1..] == Listed(ns, BEACON_ENTRIES - 1);
  }

  // ---------- Every step keeps the invariant ----------

  lemma FireInv(edges: Edges, s: State, step: Step)
    requires Inv(edges, s) && step.Fire? && Enabled(s, step)
    ensures Inv(edges, Next(edges, s, step))
  {
    hide TableOk, FlightOk, Flights, BeaconOf;
    var n, t := step.node, Next(edges, s, step);
    var after := AfterTimer(s.nodes[n], step.vtime, step.delay1, step.delay2, step.loc).0;
    TimerAdvances(s.nodes[n], step.vtime, step.delay1, step.delay2, step.loc);
    hide AfterTimer;
    assert t.nodes == s.nodes[n := after];
    forall f | f in t.air ensures FlightOk(edges, s.heard, f) {
      if f !in s.air {
        SentOk(edges, s.heard, after, f);
      }
    }
  }

  lemma DeliverInv(edges: Edges, s: State, step: Step)
    requires NoLoops(edges) && Inv(edges, s) && step.Deliver? && Enabled(s, step)
    ensures Inv(edges, Next(edges, s, step))
  {
    hide TableOk, Recorded;
    var f, t := step.flight, Next(edges, s, step);
    assert FlightOk(edges, s.heard, f);
    forall i | 0 <= i < |s.nodes| ensures t.nodes[i].id == i && TableOk(edges, t.heard, i, t.nodes[i].table) {
      MoreHeard(edges, s.heard, t.heard, i, s.nodes[i].table);
      if i == f.to && !t.crashed && t.nodes[i].table != s.nodes[i].table {
        RecordedOk(edges, s, f, step.vtime, t.heard);
      }
    }
    forall g | g in t.air ensures FlightOk(edges, t.heard, g) {
      MoreHeardInFlight(edges, s.heard, t.heard, g);
    }
  }

  lemma NextInv(edges: Edges, s: State, step: Step)
    requires NoLoops(edges) && Inv(edges, s) && Enabled(s, step)
    ensures Inv(edges, Next(edges, s, step))
  {
    hide Inv, Next, Enabled;
    match step
    case Fire(_, _, _, _, _) => FireInv(edges, s, step);
    case Deliver(_, _, _, _) => DeliverInv(edges, s, step);
  }

  lemma InitialInv(edges: Edges, s: State, options: Options)
    requires Initial(s, options)
    ensures Inv(edges, s)
  {
    forall i | 0 <= i < |s.nodes| ensures s.nodes[i].id == i && s.nodes[i].table == [] {
      InitialNodeIs(s.nodes[i], i, options);
    }
  }

  lemma InitialNodeIs(node: Node, id: nat, options: Options)
    requires InitialNode(node, id, options)
    ensures node.id == id && node.table == []
  {
  }

  lemma {:induction false} RunInv(edges: Edges, s: State, steps: seq<Step>)
    requires NoLoops(edges) && Inv(edges, s)
    ensures Inv(edges, Run(edges, s, steps))
    decreases |steps|
  {
    hide Inv, Next, Enabled;
    if steps != [] {
      if Enabled(s, steps[0]) {
        NextInv(edges, s, steps[0]);
        RunInv(edges, Next(edges, s, steps[0]), steps[1..]);
      } else {
        RunInv(edges, s, steps[1..]);
      }
    }
  }

  /** Main result: in every reachable state a listed stratum tells the truth about the topology. */
  lemma StrataTellTheTruth(edges: Edges, start: State, options: Options, steps: seq<Step>, i: nat, e: Entry)
    requires NoLoops(edges) && Initial(start, options)
    requires var s := Run(edges, start, steps); i < |s.nodes| && e in s.nodes[i].table
    ensures var s := Run(edges, start, steps);
            && UniqueIds(s.nodes[i].table) && e.neigh.id != i
            && e.neigh.stratum in {1, 2, 3, STRATUM_INF}
            && (e.neigh.stratum == 1 ==> Bi(edges, i, e.neigh.id))
            && (e.neigh.stratum == STRATUM_INF ==> (i, e.neigh.id) in s.heard && (e.neigh.id, i) in edges)
            && (e.neigh.stratum != STRATUM_INF ==> BiWalk(edges, i, e.neigh.id, e.neigh.stratum))
  {
    hide Run, Initial;
    InitialInv(edges, start, options);
    RunInv(edges, start, steps);
    BiWalkOne(edges, i, e.neigh.id);
  }

  // ---------- The neighbour table does not overflow ----------

  function Sources(edges: Edges): set<nat> {
    set e | e in edges :: e.0
  }

  /** The nodes that may ever be listed at self: those it can hear, and those within three bidirectional links. */
  ghost predicate Nearby(edges: Edges, self: nat, x: nat) {
    x != self && ((x, self) in edges || BiWalk(edges, self, x, 1) || BiWalk(edges, self, x, 2) || BiWalk(edges, self, x, 3))
  }

  ghost function Ball(edges: Edges, self: nat): set<nat> {
    set x | x in Sources(edges) && Nearby(edges, self, x)
  }

  lemma {:induction false} WalkEndsAtSource(edges: Edges, a: nat, b: nat, k: nat)
    requires k > 0 && BiWalk(edges, a, b, k)
    ensures b in Sources(edges)
    decreases k
  {
    var c: nat :| Bi(edges, a, c) && BiWalk(edges, c, b, k - 1);
    if k == 1 {
      assert (c, a) in edges;
    } else {
      WalkEndsAtSource(edges, c, b, k - 1);
    }
  }

  // ---------- Only nodes there are get listed ----------

  /** Every edge joins two of the n nodes. */
  predicate Within(edges: Edges, n: nat) {
    forall e :: e in edges ==> e.0 < n && e.1 < n
  }

  lemma SourcesWithin(edges: Edges, n: nat, x: nat)
    requires Within(edges, n) && x in Sources(edges)
    ensures x < n
  {
  }

  /** What a route test reads of the nodes. */
  function Sites(nodes: seq<Node>): (net: seq<Routing.Site>)
    ensures |net| == |nodes|
    ensures forall i :: 0 <= i < |nodes| ==> net[i] == Routing.Site(nodes[i].loc, Unexpired(nodes[i].table))
  {
    seq(|nodes|, i requires 0 <= i < |nodes| => Routing.Site(nodes[i].loc, Unexpired(nodes[i].table)))
  }

  lemma {:induction false} SameNumberOfNodes(edges: Edges, s: State, steps: seq<Step>)
    ensures |Run(edges, s, steps).nodes| == |s.nodes|
    decreases |steps|
  {
    hide Enabled, Next;
    if steps != [] {
      if Enabled(s, steps[0]) {
        SameNumberNext(edges, s, steps[0]);
        SameNumberOfNodes(edges, Next(edges, s, steps[0]), steps[1..]);
      } else {
        SameNumberOfNodes(edges, s, steps[1..]);
      }
    }
  }

  lemma SameNumberNext(edges: Edges, s: State, step: Step)
    requires Enabled(s, step)
    ensures |Next(edges, s, step).nodes| == |s.nodes|
  {
    hide AfterTimer, AfterBeacon, BeaconOf;
  }

  /** In every reachable state a table lists only nodes there are, so a route test never leaves the array of nodes. */
  lemma ListedNodesExist(edges: Edges, start: State, options: Options, steps: seq<Step>)
    requires NoLoops(edges) && Initial(start, options) && Within(edges, |start.nodes|)
    ensures Routing.KnownIds(Sites(Run(edges, start, steps).nodes))
  {
    hide Run, Initial, NoLoops, Within, Unexpired;
    SameNumberOfNodes(edges, start, steps);
    var nodes := Run(edges, start, steps).nodes;
    forall i, n | 0 <= i < |nodes| && n in Sites(nodes)[i].ns ensures n.id < |nodes| {
      UnexpiredFrom(nodes[i].table, n);
      var e :| e in nodes[i].table && e.neigh == n;
      StrataTellTheTruth(edges, start, options, steps, i, e);
      ListedIsSource(edges, i, n);
      SourcesWithin(edges, |nodes|, n.id);
    }
  }

  lemma ListedIsSource(edges: Edges, self: nat, n: Neigh)
    requires n.stratum in {1, 2, 3, STRATUM_INF}
    requires n.stratum == STRATUM_INF ==> (n.id, self) in edges
    requires n.stratum != STRATUM_INF ==> BiWalk(edges, self, n.id, n.stratum)
    ensures n.id in Sources(edges)
  {
    if n.stratum != STRATUM_INF {
      WalkEndsAtSource(edges, self, n.id, n.stratum);
    }
  }

  // ---------- ... and only nearby ones ----------

  lemma EntryInBall(edges: Edges, heard: set<(nat, nat)>, self: nat, n: Neigh)
    requires EntryOk(edges, heard, self, n) && forall p :: p in heard ==> (p.1, p.0) in edges
    ensures n.id in Ball(edges, self)
  {
    if n.stratum == STRATUM_INF {
      assert (n.id, self) in edges;
    } else {
      WalkEndsAtSource(edges, self, n.id, n.stratum);
    }
  }

  lemma TableInBall(edges: Edges, heard: set<(nat, nat)>, self: nat, t: seq<Entry>)
    requires TableOk(edges, heard, self, t) && forall p :: p in heard ==> (p.1, p.0) in edges
    ensures Ids(t) <= Ball(edges, self)
  {
    hide EntryOk, Ball;
    forall e | e in t ensures e.neigh.id in Ball(edges, self) {
      EntryInBall(edges, heard, self, e.neigh);
    }
  }

  ghost predicate SmallBalls(edges: Edges) {
    forall i: nat :: |Ball(edges, i)| <= NEIGH_MAX
  }

  lemma InsertFits(edges: Edges, heard: set<(nat, nat)>, self: nat, t: seq<Entry>, n: Neigh, vtime: nat)
    requires TableOk(edges, heard, self, t) && EntryOk(edges, heard, self, n)
    requires forall p :: p in heard ==> (p.1, p.0) in edges
    requires |Ball(edges, self)| <= NEIGH_MAX
    ensures Inserted(t, n, vtime).Some?
  {
    hide EntryOk, Ball;
    TableInBall(edges, heard, self, t);
    EntryInBall(edges, heard, self, n);
    FitsIn(t, n, vtime, Ball(edges, self));
  }

  lemma {:induction false} InsertAllFits(edges: Edges, heard: set<(nat, nat)>, self: nat, t: seq<Entry>, ns: seq<Neigh>, vtime: nat)
    requires TableOk(edges, heard, self, t)
    requires forall n :: n in ns && Taken(n, self) ==> EntryOk(edges, heard, self, Further(n))
    requires forall p :: p in heard ==> (p.1, p.0) in edges
    requires |Ball(edges, self)| <= NEIGH_MAX
    ensures InsertAll(t, self, ns, vtime).Some?
    decreases |ns|
  {
    hide EntryOk, TableOk, Inserted, Ball;
    if ns != [] {
      assert ns[0] in ns;
      if Taken(ns[0], self) {
        InsertFits(edges, heard, self, t, Further(ns[0]), vtime);
        InsertedOk(edges, heard, self, t, Further(ns[0]), vtime);
        InsertAllFits(edges, heard, self, Inserted(t, Further(ns[0]), vtime).value, ns[1..], vtime);
      } else {
        InsertAllFits(edges, heard, self, t, ns[1..], vtime);
      }
    }
  }

  lemma NextDoesNotCrash(edges: Edges, s: State, step: Step)
    requires NoLoops(edges) && SmallBalls(edges) && Inv(edges, s) && Enabled(s, step)
    ensures !Next(edges, s, step).crashed
  {
    hide TableOk, Ball, SeesSelf, InsertAll, Inserted;
    if step.Deliver? {
      var f := step.flight;
      var self, t, heard := f.to, s.nodes[f.to].table, s.heard + {(f.to, f.beacon.neigh[0].id)};
      assert FlightOk(edges, s.heard, f);
      MoreHeard(edges, s.heard, heard, self, t);
      assert |Ball(edges, self)| <= NEIGH_MAX;
      if SeesSelf(f.beacon.neigh, self) {
        forall n | n in f.beacon.neigh && Taken(n, self) ensures EntryOk(edges, heard, self, Further(n)) {
          FurtherOk(edges, s, f, heard, n);
        }
        InsertAllFits(edges, heard, self, t, f.beacon.neigh, step.vtime);
      } else {
        InsertFits(edges, heard, self, t, f.beacon.neigh[0].(stratum := STRATUM_INF), step.vtime);
      }
    }
  }

  /** Main result: where every node can hear or reach at most fifty others, no run overflows a neighbour table. */
  lemma {:induction false} RunDoesNotCrash(edges: Edges, s: State, steps: seq<Step>)
    requires NoLoops(edges) && SmallBalls(edges) && Inv(edges, s) && !s.crashed
    ensures !Run(edges, s, steps).crashed
    decreases |steps|
  {
    hide Inv, Next, Enabled, SmallBalls;
    if steps != [] {
      if Enabled(s, steps[0]) {
        NextDoesNotCrash(edges, s, steps[0]);
        NextInv(edges, s, steps[0]);
        RunDoesNotCrash(edges, Next(edges, s, steps[0]), steps[1..]);
      } else {
        RunDoesNotCrash(edges, s, steps[1..]);
      }
    }
  }

  lemma NoTableOverflows(edges: Edges, start: State, options: Options, steps: seq<Step>)
    requires NoLoops(edges) && SmallBalls(edges) && Initial(start, options)
    ensures !Run(edges, start, steps).crashed
  {
    InitialInv(edges, start, options);
    RunDoesNotCrash(edges, start, steps);
  }

  // ---------- Status over a run ----------

  function Rank(status: Status): nat {
    match status case Asleep => 0 case Waking => 1 case Awake => 2 case Root => 3
  }

  /** Later statuses: ASLEEP, WAKING, AWAKE in this order; ROOT never changes and is never entered. */
  predicate NotBefore(before: Status, after: Status) {
    Rank(before) <= Rank(after) && (after == Root <==> before == Root)
  }

  lemma NextAdvances(edges: Edges, s: State, step: Step, i: nat)
    requires Enabled(s, step) && i < |s.nodes|
    ensures |Next(edges, s, step).nodes| == |s.nodes|
    ensures Advances(s.nodes[i].status, Next(edges, s, step).nodes[i].status)
  {
    match step
    case Fire(n, vtime, delay1, delay2, loc) => TimerAdvances(s.nodes[n], vtime, delay1, delay2, loc);
    case Deliver(f, vtime, delay, loc) =>
      if AfterBeacon(s.nodes[f.to], vtime, f.beacon, delay, loc).Some? {
        ReceiveAdvances(s.nodes[f.to], vtime, BeaconPacket(f.beacon), delay, loc);
      }
  }

  lemma {:induction false} StatusNeverGoesBack(edges: Edges, s: State, steps: seq<Step>, i: nat)
    requires i < |s.nodes|
    ensures |Run(edges, s, steps).nodes| == |s.nodes|
    ensures NotBefore(s.nodes[i].status, Run(edges, s, steps).nodes[i].status)
    decreases |steps|
  {
    hide Next, Enabled;
    if steps != [] {
      if Enabled(s, steps[0]) {
        NextAdvances(edges, s, steps[0], i);
        StatusNeverGoesBack(edges, Next(edges, s, steps[0]), steps[1..], i);
      } else {
        StatusNeverGoesBack(edges, s, steps[1..], i);
      }
    }
  }

  // ---------- Waking spreads at one hop per 2.5 seconds ----------

  /** A directed walk of exactly k edges leads from a node awake at the start to i. */
  ghost predicate ReachedIn(edges: Edges, awake: set<nat>, i: nat, k: nat)
    decreases k
  {
    if k == 0 then i in awake else exists j: nat :: (j, i) in edges && ReachedIn(edges, awake, j, k - 1)
  }

  /** By time t a wake-up can have come this far. */
  ghost predicate InTime(edges: Edges, awake: set<nat>, i: nat, t: nat) {
    exists k: nat :: ReachedIn(edges, awake, i, k) && k * WAKEUP_PERIOD <= t
  }

  ghost predicate NodeInTime(edges: Edges, awake: set<nat>, node: Node, now: nat) {
    match node.status
    case Asleep => true
    case Waking => InTime(edges, awake, node.id, node.wakeTime)
    case _ => InTime(edges, awake, node.id, now)
  }

  ghost predicate FlightInTime(edges: Edges, awake: set<nat>, f: Flight, now: nat) {
    && f.beacon.neigh != [] && (f.beacon.neigh[0].id, f.to) in edges && f.beacon.status != Asleep
    && (f.beacon.status != Waking ==> InTime(edges, awake, f.beacon.neigh[0].id, now))
  }

  ghost predicate WakeInv(edges: Edges, awake: set<nat>, s: State) {
    && (forall i :: 0 <= i < |s.nodes| ==> s.nodes[i].id == i && NodeInTime(edges, awake, s.nodes[i], s.now))
    && (forall f :: f in s.air ==> FlightInTime(edges, awake, f, s.now))
  }

  lemma LaterInTime(edges: Edges, awake: set<nat>, i: nat, t: nat, u: nat)
    requires InTime(edges, awake, i, t) && t <= u
    ensures InTime(edges, awake, i, u)
  {
  }

  lemma OneHopLater(edges: Edges, awake: set<nat>, i: nat, j: nat, t: nat)
    requires InTime(edges, awake, j, t) && (j, i) in edges
    ensures InTime(edges, awake, i, t + WAKEUP_PERIOD)
  {
    var k: nat :| ReachedIn(edges, awake, j, k) && k * WAKEUP_PERIOD <= t;
    assert ReachedIn(edges, awake, i, k + 1);
  }

  lemma TimePasses(edges: Edges, awake: set<nat>, node: Node, now: nat, later: nat)
    requires NodeInTime(edges, awake, node, now) && now <= later
    ensures NodeInTime(edges, awake, node, later)
  {
    hide InTime;
    if node.status == Awake || node.status == Root {
      LaterInTime(edges, awake, node.id, now, later);
    }
  }

  lemma FlightTimePasses(edges: Edges, awake: set<nat>, f: Flight, now: nat, later: nat)
    requires FlightInTime(edges, awake, f, now) && now <= later
    ensures FlightInTime(edges, awake, f, later)
  {
    hide InTime;
    if f.beacon.status != Waking {
      LaterInTime(edges, awake, f.beacon.neigh[0].id, now, later);
    }
  }

  lemma FireInTime(edges: Edges, awake: set<nat>, s: State, step: Step)
    requires WakeInv(edges, awake, s) && step.Fire? && Enabled(s, step)
    ensures WakeInv(edges, awake, Next(edges, s, step))
  {
    hide InTime, BeaconOf;
    var n, t := step.node, Next(edges, s, step);
    var before := s.nodes[n];
    var after := AfterTimer(before, step.vtime, step.delay1, step.delay2, step.loc).0;
    TimerAdvances(before, step.vtime, step.delay1, step.delay2, step.loc);
    TimePasses(edges, awake, before, s.now, t.now);
    if after.status == Awake && before.status == Waking {
      LaterInTime(edges, awake, n, before.wakeTime, t.now);
    }
    assert NodeInTime(edges, awake, after, t.now);
    hide NodeInTime, AfterTimer;
    assert t.nodes == s.nodes[n := after];
    forall i | 0 <= i < |t.nodes| ensures t.nodes[i].id == i && NodeInTime(edges, awake, t.nodes[i], t.now) {
      TimePasses(edges, awake, s.nodes[i], s.now, t.now);
    }
    forall f | f in t.air ensures FlightInTime(edges, awake, f, t.now) {
      if f in s.air {
        FlightTimePasses(edges, awake, f, s.now, t.now);
      } else {
        SentInTime(edges, awake, after, f, t.now);
      }
    }
  }

  lemma SentInTime(edges: Edges, awake: set<nat>, node: Node, f: Flight, now: nat)
    requires NodeInTime(edges, awake, node, now) && node.status != Asleep && f in Flights(edges, node.id, BeaconOf(node))
    ensures FlightInTime(edges, awake, f, now)
  {
    hide InTime;
  }

  lemma DeliverInTime(edges: Edges, awake: set<nat>, s: State, step: Step)
    requires WakeInv(edges, awake, s) && step.Deliver? && Enabled(s, step)
    ensures WakeInv(edges, awake, Next(edges, s, step))
  {
    hide InTime, Recorded;
    var f, t := step.flight, Next(edges, s, step);
    assert FlightInTime(edges, awake, f, s.now);
    FlightTimePasses(edges, awake, f, s.now, t.now);
    if f.beacon.status != Waking {
      OneHopLater(edges, awake, f.to, f.beacon.neigh[0].id, t.now);
    }
    forall i | 0 <= i < |t.nodes| ensures t.nodes[i].id == i && NodeInTime(edges, awake, t.nodes[i], t.now) {
      TimePasses(edges, awake, s.nodes[i], s.now, t.now);
    }
    forall g | g in t.air ensures FlightInTime(edges, awake, g, t.now) {
      FlightTimePasses(edges, awake, g, s.now, t.now);
    }
  }

  lemma NextInTime(edges: Edges, awake: set<nat>, s: State, step: Step)
    requires WakeInv(edges, awake, s) && Enabled(s, step)
    ensures WakeInv(edges, awake, Next(edges, s, step))
  {
    hide WakeInv, Next, Enabled;
    match step
    case Fire(_, _, _, _, _) => FireInTime(edges, awake, s, step);
    case Deliver(_, _, _, _) => DeliverInTime(edges, awake, s, step);
  }

  lemma {:induction false} RunInTime(edges: Edges, awake: set<nat>, s: State, steps: seq<Step>)
    requires WakeInv(edges, awake, s)
    ensures WakeInv(edges, awake, Run(edges, s, steps))
    decreases |steps|
  {
    hide WakeInv, Next, Enabled;
    if steps != [] {
      if Enabled(s, steps[0]) {
        NextInTime(edges, awake, s, steps[0]);
        RunInTime(edges, awake, Next(edges, s, steps[0]), steps[1..]);
      } else {
        RunInTime(edges, awake, s, steps[1..]);
      }
    }
  }

  /** The nodes that do not start asleep. */
  ghost function AwakeAtStart(s: State): set<nat> {
    set i | 0 <= i < |s.nodes| && s.nodes[i].status != Asleep
  }

  lemma InitialInTime(edges: Edges, s: State, options: Options)
    requires Initial(s, options)
    ensures WakeInv(edges, AwakeAtStart(s), s)
  {
    var awake := AwakeAtStart(s);
    forall i | 0 <= i < |s.nodes| ensures s.nodes[i].id == i && NodeInTime(edges, awake, s.nodes[i], 0) {
      var loc: Loc, delay: nat :| s.nodes[i] == Init(i, options, loc, delay).0;
      if s.nodes[i].status != Asleep {
        assert ReachedIn(edges, awake, i, 0) && 0 * WAKEUP_PERIOD <= 0;
      }
    }
  }

  /** Every walk from a node awake at the start to i has at least d edges. */
  ghost predicate AtLeastAway(edges: Edges, awake: set<nat>, i: nat, d: nat) {
    forall k: nat :: k < d ==> !ReachedIn(edges, awake, i, k)
  }

  /** Main result: a node at directed distance d from those awake at the start is not AWAKE before d times 2.5 s. */
  lemma AwakeTakesTime(edges: Edges, start: State, options: Options, steps: seq<Step>, i: nat, d: nat)
    requires Initial(start, options) && i < |Run(edges, start, steps).nodes|
    requires AtLeastAway(edges, AwakeAtStart(start), i, d)
    requires Run(edges, start, steps).nodes[i].status == Awake || Run(edges, start, steps).nodes[i].status == Root
    ensures Run(edges, start, steps).now >= d * WAKEUP_PERIOD
  {
    hide Run, Initial;
    var awake := AwakeAtStart(start);
    InitialInTime(edges, start, options);
    RunInTime(edges, awake, start, steps);
    var s := Run(edges, start, steps);
    assert NodeInTime(edges, awake, s.nodes[i], s.now);
    var k: nat :| ReachedIn(edges, awake, i, k) && k * WAKEUP_PERIOD <= s.now;
    assert k >= d;
  }
}
