/**
 Laws about runs of the network: a sleeper that a beacon has woken gets up at its first
 timer after the wake-up period, and two neighbours that hear each other confirm it.
 */
module MeshLaws {
  import opened Wrappers
  import opened Neigh
  import opened Node
  import opened NodeLaws
  import opened Mesh

  // ---------- Getting up ----------

  /** The node has been woken and is due at time w, or is up. */
  predicate Rising(node: Node, w: nat) {
    (node.status == Waking && node.wakeTime == w) || node.status == Awake
  }

  lemma RisingKept(edges: Edges, s: State, step: Step, n: nat, w: nat)
    requires n < |s.nodes| && Rising(s.nodes[n], w) && Enabled(s, step)
    ensures |Next(edges, s, step).nodes| == |s.nodes| && Rising(Next(edges, s, step).nodes[n], w)
    ensures s.nodes[n].status == Awake ==> Next(edges, s, step).nodes[n].status == Awake
  {
    match step
    case Fire(m, vtime, delay1, delay2, loc) =>
      TimerAdvances(s.nodes[m], vtime, delay1, delay2, loc);
      hide AfterTimer, Flights, BeaconOf;
    case Deliver(f, vtime, delay, loc) =>
      var r := AfterBeacon(s.nodes[f.to], vtime, f.beacon, delay, loc);
      if r.Some? && s.nodes[f.to].status != Asleep {
        UpIsUnmoved(s.nodes[f.to], vtime, f.beacon, delay, loc);
      }
      hide AfterBeacon;
  }

  lemma {:induction false} RisingStays(edges: Edges, s: State, steps: seq<Step>, n: nat, w: nat)
    requires n < |s.nodes| && Rising(s.nodes[n], w)
    ensures |Run(edges, s, steps).nodes| == |s.nodes| && Rising(Run(edges, s, steps).nodes[n], w)
    ensures s.nodes[n].status == Awake ==> Run(edges, s, steps).nodes[n].status == Awake
    decreases |steps|
  {
    hide Enabled, Next, Rising;
    if steps != [] {
      if Enabled(s, steps[0]) {
        RisingKept(edges, s, steps[0], n, w);
        RisingStays(edges, Next(edges, s, steps[0]), steps[1..], n, w);
      } else {
        RisingStays(edges, s, steps[1..], n, w);
      }
    }
  }

  lemma DueTimerRaises(edges: Edges, s: State, fire: Step, n: nat, w: nat)
    requires n < |s.nodes| && Rising(s.nodes[n], w) && Enabled(s, fire) && fire.Fire? && fire.node == n && fire.vtime >= w
    ensures |Next(edges, s, fire).nodes| == |s.nodes| && Next(edges, s, fire).nodes[n].status == Awake
  {
    TimerAdvances(s.nodes[n], fire.vtime, fire.delay1, fire.delay2, fire.loc);
    hide AfterTimer, Flights, BeaconOf;
  }

  lemma BeaconRouses(edges: Edges, s: State, wake: Step)
    requires wake.Deliver? && Enabled(s, wake) && s.nodes[wake.flight.to].status == Asleep
    requires wake.flight.beacon.status != Waking && !Next(edges, s, wake).crashed
    ensures |Next(edges, s, wake).nodes| == |s.nodes|
    ensures Rising(Next(edges, s, wake).nodes[wake.flight.to], wake.vtime + 2_500_000)
  {
    SleeperWakesIff(s.nodes[wake.flight.to], wake.vtime, wake.flight.beacon, wake.delay, wake.loc);
    hide AfterBeacon;
  }

  /**
   Main result: whatever happens in between and after, a sleeper that a beacon of a node
   not itself WAKING has reached is AWAKE once a timer of its has fired 2.5 seconds later.
   */
  lemma SleeperGetsUp(edges: Edges, s: State, wake: Step, between: seq<Step>, fire: Step, rest: seq<Step>)
    requires wake.Deliver? && Enabled(s, wake) && s.nodes[wake.flight.to].status == Asleep
    requires wake.flight.beacon.status != Waking && !Next(edges, s, wake).crashed
    requires fire.Fire? && fire.node == wake.flight.to && fire.vtime >= wake.vtime + 2_500_000
    requires Enabled(Run(edges, Next(edges, s, wake), between), fire)
    ensures var end := Run(edges, Next(edges, Run(edges, Next(edges, s, wake), between), fire), rest);
      |end.nodes| == |s.nodes| && end.nodes[wake.flight.to].status == Awake
  {
    hide Run, Next, Enabled, Rising;
    var n, w := wake.flight.to, wake.vtime + 2_500_000;
    assert n < |s.nodes| by {
      EnabledNode(s, wake);
    }
    BeaconRouses(edges, s, wake);
    var s1 := Next(edges, s, wake);
    RisingStays(edges, s1, between, n, w);
    var s2 := Run(edges, s1, between);
    DueTimerRaises(edges, s2, fire, n, w);
    var s3 := Next(edges, s2, fire);
    AwakeIsRising(s3.nodes[n], w);
    RisingStays(edges, s3, rest, n, w);
  }

  lemma EnabledNode(s: State, wake: Step)
    requires wake.Deliver? && Enabled(s, wake)
    ensures wake.flight.to < |s.nodes|
  {
  }

  lemma AwakeIsRising(node: Node, w: nat)
    requires node.status == Awake
    ensures Rising(node, w)
  {
  }

  // ---------- The handshake ----------

  /** The node lists another one at this stratum. */
  ghost predicate Lists(node: Node, id: nat, stratum: nat) {
    Lookup(node.table, id).Some? && Lookup(node.table, id).value.stratum == stratum
  }

  /** What the invariant says of a beacon in the air, as NodeLaws asks for it. */
  lemma FlightShape(edges: Edges, s: State, f: Flight)
    requires NoLoops(edges) && Inv(edges, s) && f in s.air
    ensures var ns := f.beacon.neigh;
      && ns != [] && ns[0].stratum == 0 && ns[0].id != f.to
      && (forall n :: n in ns ==> n.stratum <= 8 || n.stratum == 10)
      && (forall n :: n in ns && n.id == ns[0].id ==> n == ns[0])
  {
    hide TableOk;
    var ns := f.beacon.neigh;
    assert FlightOk(edges, s.heard, f);
    assert (ns[0].id, f.to) in edges;
    forall n | n in ns ensures n == ns[0] || (n in ns[1..] && n.id != ns[0].id) {
      assert ns == [ns[0]] + ns[1..];
    }
    hide BiWalk;
  }

  lemma TableShape(edges: Edges, s: State, a: nat, id: nat)
    requires Inv(edges, s) && a < |s.nodes|
    ensures s.nodes[a].id == a && UniqueIds(s.nodes[a].table)
    ensures Lookup(s.nodes[a].table, id).Some? ==> Lookup(s.nodes[a].table, id).value.stratum >= 1
  {
    hide FlightOk, BiWalk;
    var t := s.nodes[a].table;
    assert TableOk(edges, s.heard, a, t);
    var i := IndexFrom(t, id, 0);
    if i < |t| {
      assert t[i] in t;
    }
  }

  /** What delivering a beacon that is heeded does to the receiver's view of its sender. */
  lemma DeliveredSender(edges: Edges, s: State, step: Step)
    requires NoLoops(edges) && Inv(edges, s) && step.Deliver? && Enabled(s, step) && !Next(edges, s, step).crashed
    requires s.nodes[step.flight.to].status != Asleep || step.flight.beacon.status != Waking
    ensures var f, after := step.flight, Next(edges, s, step);
      && |after.nodes| == |s.nodes|
      && (Heard(f.beacon.neigh, f.to) ==> Lists(after.nodes[f.to], f.beacon.neigh[0].id, 1))
      && (!Heard(f.beacon.neigh, f.to) ==>
            Lists(after.nodes[f.to], f.beacon.neigh[0].id, 1) || Lists(after.nodes[f.to], f.beacon.neigh[0].id, 10))
  {
    var f := step.flight;
    FlightShape(edges, s, f);
    TableShape(edges, s, f.to, f.beacon.neigh[0].id);
    RecordsBeacon(s.nodes[f.to], step.vtime, f.beacon, step.delay, step.loc);
    SenderIsListed(s.nodes[f.to].table, f.to, f.beacon, step.vtime);
    hide AfterBeacon, Inv, Recorded, Heard, Lookup, UniqueIds;
  }

  lemma RecordsBeacon(node: Node, vtime: nat, b: Beacon, delay: nat, loc: Loc)
    requires b.neigh != [] && (node.status != Asleep || b.status != Waking)
    ensures var r := AfterBeacon(node, vtime, b, delay, loc);
      if r.None? then Recorded(node.table, node.id, b, vtime).None?
      else Recorded(node.table, node.id, b, vtime) == Some(r.value.0.table)
  {
    hide Recorded;
  }

  /** A beacon with room to spare, sent by a node that lists a neighbour at stratum 1 or INF, says so. */
  lemma BeaconTellsListed(node: Node, a: nat, stratum: nat)
    requires Lists(node, a, stratum) && (stratum == 1 || stratum == 10) && |BeaconOf(node).neigh| < 13
    requires forall e :: e in node.table ==> e.expiry != 0
    ensures Heard(BeaconOf(node).neigh, a)
  {
    hide Unexpired;
    var i := IndexFrom(node.table, a, 0);
    assert node.table[i] in node.table;
    BeaconLists(node, i);
    var n := node.table[i].neigh;
    assert n in BeaconOf(node).neigh[1..];
    assert n in BeaconOf(node).neigh;
  }

  /** The beacon that a timer sends. */
  function SentBy(s: State, fire: Step): Beacon
    requires fire.Fire? && Enabled(s, fire)
  {
    BeaconOf(AfterTimer(s.nodes[fire.node], fire.vtime, fire.delay1, fire.delay2, fire.loc).0)
  }

  lemma FiredBeacon(edges: Edges, s: State, fire: Step, a: nat)
    requires fire.Fire? && Enabled(s, fire) && (fire.node, a) in edges
    ensures var after := Next(edges, s, fire);
      && fire.node < |after.nodes| == |s.nodes| && after.nodes[fire.node].table == s.nodes[fire.node].table
      && after.nodes[fire.node].id == s.nodes[fire.node].id
      && SentBy(s, fire) == BeaconOf(after.nodes[fire.node]) && Flight(a, SentBy(s, fire)) in after.air
  {
    TimerAdvances(s.nodes[fire.node], fire.vtime, fire.delay1, fire.delay2, fire.loc);
    hide AfterTimer, BeaconOf;
    var e := (fire.node, a);
    assert e in edges && e.0 == fire.node;
  }

  /**
   Main result: if b lists a, one-sided or not, and fires with room in its beacon, then
   whenever that beacon is delivered to a and heeded, a has b as a confirmed neighbour.
   */
  lemma ListedConfirms(edges: Edges, s: State, fire: Step, between: seq<Step>, deliver: Step, a: nat, stratum: nat)
    requires NoLoops(edges) && Inv(edges, s) && fire.Fire? && Enabled(s, fire) && (fire.node, a) in edges
    requires Lists(s.nodes[fire.node], a, stratum) && (stratum == 1 || stratum == 10)
    requires |SentBy(s, fire).neigh| < 13 && deliver.Deliver? && deliver.flight == Flight(a, SentBy(s, fire))
    requires var later := Run(edges, Next(edges, s, fire), between);
      && Enabled(later, deliver) && !Next(edges, later, deliver).crashed
      && (later.nodes[deliver.flight.to].status != Asleep || deliver.flight.beacon.status != Waking)
    ensures Lists(Next(edges, Run(edges, Next(edges, s, fire), between), deliver).nodes[deliver.flight.to], fire.node, 1)
  {
    hide Run, Inv, Next, Enabled, Lists, Heard, BeaconOf, SentBy;
    NextInv(edges, s, fire);
    FiredBeacon(edges, s, fire, a);
    var s1 := Next(edges, s, fire);
    var node := s1.nodes[fire.node];
    SameLists(s.nodes[fire.node], node, a, stratum);
    Unexpires(edges, s1, fire.node);
    BeaconTellsListed(node, a, stratum);
    RunInv(edges, s1, between);
    DeliveredSender(edges, Run(edges, s1, between), deliver);
    SaysWho(node);
  }

  /**
   Main result: two beacons confirm a link.  A node b heeds a beacon of a and fires next,
   with room in its own beacon; once that is delivered to a and heeded, a has b as a
   confirmed neighbour.
   */
  lemma TwoBeaconsConfirm(edges: Edges, s: State, hear: Step, fire: Step, between: seq<Step>, deliver: Step)
    requires NoLoops(edges) && Inv(edges, s) && hear.Deliver? && Enabled(s, hear) && !Next(edges, s, hear).crashed
    requires s.nodes[hear.flight.to].status != Asleep || hear.flight.beacon.status != Waking
    requires fire.Fire? && fire.node == hear.flight.to && Enabled(Next(edges, s, hear), fire)
    requires (fire.node, hear.flight.beacon.neigh[0].id) in edges
    requires var beacon := SentBy(Next(edges, s, hear), fire);
      |beacon.neigh| < 13 && deliver.Deliver? && deliver.flight == Flight(hear.flight.beacon.neigh[0].id, beacon)
    requires var later := Run(edges, Next(edges, Next(edges, s, hear), fire), between);
      && Enabled(later, deliver) && !Next(edges, later, deliver).crashed
      && (later.nodes[deliver.flight.to].status != Asleep || deliver.flight.beacon.status != Waking)
    ensures Lists(Next(edges, Run(edges, Next(edges, Next(edges, s, hear), fire), between), deliver).nodes[deliver.flight.to],
                  hear.flight.to, 1)
  {
    hide Run, Inv, Next, Lists, Heard, BeaconOf, SentBy;
    var s1, a := Next(edges, s, hear), hear.flight.beacon.neigh[0].id;
    DeliveredSender(edges, s, hear);
    NextInv(edges, s, hear);
    hide Enabled;
    if Lists(s1.nodes[fire.node], a, 1) {
      ListedConfirms(edges, s1, fire, between, deliver, a, 1);
    } else {
      ListedConfirms(edges, s1, fire, between, deliver, a, 10);
    }
  }

  lemma SaysWho(node: Node)
    ensures BeaconOf(node).neigh[0].id == node.id
  {
  }

  lemma SameLists(node: Node, other: Node, a: nat, stratum: nat)
    requires node.table == other.table && Lists(node, a, stratum)
    ensures Lists(other, a, stratum)
  {
  }

  lemma Unexpires(edges: Edges, s: State, n: nat)
    requires Inv(edges, s) && n < |s.nodes|
    ensures s.nodes[n].id == n && forall e :: e in s.nodes[n].table ==> e.expiry != 0
  {
    hide FlightOk, EntryOk;
    assert TableOk(edges, s.heard, n, s.nodes[n].table);
  }
}
