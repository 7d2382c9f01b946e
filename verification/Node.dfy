/**
 A node (radio2/src/node.c): how it wakes up, beacons, hears beacons and forwards data.

 Handlers are given as functions on node values; the class at the end carries the same
 state in fields and updates it in place.  Calls through Node_callback are returned, in
 order.  Random draws (timer jitter, perturbed or recomputed locations) are arguments.
 */
module Node {
  import opened Wrappers
  import opened Neigh
  import Routing

  const BEACON_PERIOD: nat := VTIME_SECONDS
  const WAKEUP_PERIOD: nat := 2_500_000
  const BEACON_MAXSTRAT: nat := 2
  const TTL_MAX: int := 100

  /** A beacon buffer of 200 bytes: a header of 2 bytes and entries of 15. */
  const BEACON_ENTRIES: nat := (200 - 2) / 15
  const HEADER_BYTES: nat := 2
  const ENTRY_BYTES: nat := 15
  const DATA_BYTES: nat := 43

  datatype Status = Asleep | Waking | Awake | Root

  datatype Beacon = Beacon(status: Status, neigh: seq<Neigh>)

  datatype Data = Data(src: nat, dst: nat, hop: nat, srcloc: Loc, dstloc: Loc, ttl: int, vtime: nat)

  datatype Packet = BeaconPacket(beacon: Beacon) | DataPacket(data: Data)

  function Length(p: Packet): nat {
    match p
    case BeaconPacket(b) => HEADER_BYTES + ENTRY_BYTES * |b.neigh|
    case DataPacket(_) => DATA_BYTES
  }

  /** One call of Node_callback: a timer request or a packet to send. */
  datatype Callback = Timer(vtime: nat) | Send(vtime: nat, packet: Packet)

  datatype Node = Node(id: nat, status: Status, wakeTime: nat, loc: Loc, table: seq<Entry>)

  /** NODE_BEACON_PERIOD times a random factor between one half and three halves. */
  predicate Jitter(delay: nat) {
    BEACON_PERIOD / 2 <= delay <= BEACON_PERIOD + BEACON_PERIOD / 2
  }

  // ---------- Status ----------

  /** node_set_status: every status but ASLEEP requests a timer, ROOT at once. */
  function WithStatus(node: Node, vtime: nat, status: Status, delay: nat): (Node, seq<Callback>) {
    (node.(status := status),
     if status == Asleep then [] else [Timer(vtime + if status == Root then 0 else delay)])
  }

  /** The options a node is started with: 'R' makes node 0 the root, 'A' makes all other nodes awake. */
  datatype Options = Options(root: bool, awake: bool)

  function Init(id: nat, options: Options, loc: Loc, delay: nat): (Node, seq<Callback>) {
    var node := Node(id, Asleep, 0, loc, []);
    if options.root && id == 0 then WithStatus(node, 0, Root, delay)
    else if options.awake then WithStatus(node, 0, Awake, delay)
    else (node, [])
  }

  // ---------- Beacons ----------

  /** Whether a neighbour goes into beacons: at stratum 1, 2 or INF. */
  predicate Announced(n: Neigh) {
    1 <= n.stratum <= BEACON_MAXSTRAT || n.stratum == STRATUM_INF
  }

  /** The first announced neighbours, as many as there is room for. */
  function Listed(ns: seq<Neigh>, room: nat): (listed: seq<Neigh>)
    ensures |listed| <= room
  {
    if ns == [] || room == 0 then []
    else if Announced(ns[0]) then [ns[0]] + Listed(ns[1..], room - 1)
    else Listed(ns[1..], room)
  }

  function BeaconOf(node: Node): (b: Beacon)
    ensures 1 <= |b.neigh| <= BEACON_ENTRIES
  {
    Beacon(node.status, [Neigh(node.id, 0, node.loc)] + Listed(Unexpired(node.table), BEACON_ENTRIES - 1))
  }

  /** Whether the beacon's sender says it hears this node. */
  predicate SeesSelf(ns: seq<Neigh>, id: nat) {
    exists n :: n in ns && n.id == id && (n.stratum == 1 || n.stratum == STRATUM_INF)
  }

  /** Record each listed node one stratum further away, but not this node and nothing one-sided. */
  function InsertAll(t: seq<Entry>, id: nat, ns: seq<Neigh>, vtime: nat): Option<seq<Entry>>
    decreases |ns|
  {
    if ns == [] then Some(t)
    else if ns[0].id != id && ns[0].stratum != STRATUM_INF then
      match Inserted(t, ns[0].(stratum := (ns[0].stratum + 1) % 256), vtime)
      case None => None
      case Some(t') => InsertAll(t', id, ns[1..], vtime)
    else InsertAll(t, id, ns[1..], vtime)
  }

  /** The sleeper's reaction to a beacon that is not from a waking node. */
  function WakeUp(node: Node, vtime: nat, delay: nat, loc: Loc): (Node, seq<Callback>) {
    var (woken, cbs) := WithStatus(node, vtime, Waking, delay);
    (woken.(wakeTime := vtime + WAKEUP_PERIOD, loc := loc), cbs + [Timer(vtime + BEACON_PERIOD)])
  }

  /** The table after a beacon. */
  function Recorded(t: seq<Entry>, id: nat, b: Beacon, vtime: nat): Option<seq<Entry>>
    requires b.neigh != []
  {
    if SeesSelf(b.neigh, id) then InsertAll(t, id, b.neigh, vtime)
    else Inserted(t, b.neigh[0].(stratum := STRATUM_INF), vtime)
  }

  /** node_receive_beacon; None when the neighbour table overflows. */
  function AfterBeacon(node: Node, vtime: nat, b: Beacon, delay: nat, loc: Loc): Option<(Node, seq<Callback>)>
    requires b.neigh != []
  {
    if node.status == Asleep && b.status == Waking then Some((node, []))
    else
      var (n, cbs) := if node.status == Asleep then WakeUp(node, vtime, delay, loc) else (node, []);
      match Recorded(n.table, n.id, b, vtime)
      case None => None
      case Some(t) => Some((n.(table := t), cbs))
  }

  /** node_timer: perhaps wake up fully, move, beacon, and ask for the next timer. */
  function AfterTimer(node: Node, vtime: nat, delay1: nat, delay2: nat, loc: Loc): (Node, seq<Callback>) {
    var (n, cbs) := if node.status == Waking && vtime >= node.wakeTime then WithStatus(node, vtime, Awake, delay1)
                    else (node, []);
    var moved := n.(loc := loc);
    (moved, cbs + [Send(vtime, BeaconPacket(BeaconOf(moved))), Timer(vtime + delay2)])
  }

  // ---------- Data ----------

  function NextHop(node: Node, dst: nat, dstloc: Loc): Option<nat> {
    Routing.Route(Unexpired(node.table), node.loc, dst, dstloc, 1)
  }

  function Forwarded(node: Node, vtime: nat, data: Data): seq<Callback> {
    match NextHop(node, data.dst, data.dstloc)
    case None => []
    case Some(hop) => [Send(vtime, DataPacket(data.(ttl := data.ttl - 1, hop := hop)))]
  }

  function DataAnswer(node: Node, vtime: nat, data: Data): seq<Callback> {
    if data.hop != node.id || data.dst == node.id then [] else Forwarded(node, vtime, data)
  }

  /** node_route_test: a data packet for node 0 at the origin. */
  function RouteProbe(node: Node, vtime: nat): seq<Callback> {
    var origin := Loc(0, 0, 0);
    Forwarded(node, vtime, Data(node.id, 0, 0, node.loc, origin, TTL_MAX, vtime))
  }

  function AfterReceive(node: Node, vtime: nat, p: Packet, delay: nat, loc: Loc): Option<(Node, seq<Callback>)>
    requires p.BeaconPacket? ==> p.beacon.neigh != []
  {
    match p
    case BeaconPacket(b) => AfterBeacon(node, vtime, b, delay, loc)
    case DataPacket(d) => Some((node, DataAnswer(node, vtime, d)))
  }

  // ---------- What handlers ask for ----------

  /** The order in which a status may change. */
  predicate Advances(before: Status, after: Status) {
    || before == after
    || (before == Asleep && after == Waking)
    || (before == Waking && after == Awake)
  }

  /** Status only moves ASLEEP, WAKING, AWAKE; ROOT and AWAKE stay; a sleeper that stays asleep is unchanged and silent. */
  lemma ReceiveAdvances(node: Node, vtime: nat, p: Packet, delay: nat, loc: Loc)
    requires p.BeaconPacket? ==> p.beacon.neigh != []
    requires AfterReceive(node, vtime, p, delay, loc).Some?
    ensures var (after, cbs) := AfterReceive(node, vtime, p, delay, loc).value;
            && Advances(node.status, after.status) && after.id == node.id
            && (after.status == Asleep ==> after.table == node.table && forall c :: c in cbs ==> c.Send? && c.packet.DataPacket?)
            && (after.status != node.status ==> p.BeaconPacket? && p.beacon.status != Waking && after.wakeTime == vtime + WAKEUP_PERIOD)
            && (after.status == node.status ==> after.wakeTime == node.wakeTime && after.loc == node.loc)
  {
  }

  lemma TimerAdvances(node: Node, vtime: nat, delay1: nat, delay2: nat, loc: Loc)
    ensures var (after, cbs) := AfterTimer(node, vtime, delay1, delay2, loc);
            && Advances(node.status, after.status) && after.id == node.id && after.table == node.table
            && after.wakeTime == node.wakeTime
            && (after.status != node.status ==> after.status == Awake && vtime >= node.wakeTime)
            && (node.status == Waking && after.status == Waking ==> vtime < node.wakeTime)
  {
  }

  /** A beacon wakes at most two timers, both later; data is sent on at most once and asks for no timer. */
  lemma ReceiveCallbacks(node: Node, vtime: nat, p: Packet, delay: nat, loc: Loc)
    requires p.BeaconPacket? ==> p.beacon.neigh != []
    requires AfterReceive(node, vtime, p, delay, loc).Some? && Jitter(delay)
    ensures var (_, cbs) := AfterReceive(node, vtime, p, delay, loc).value;
            match p
            case BeaconPacket(_) => |cbs| <= 2 && forall c :: c in cbs ==> c.Timer? && c.vtime > vtime
            case DataPacket(_) => |cbs| <= 1 && forall c :: c in cbs ==> c.Send? && c.vtime == vtime && c.packet.DataPacket?
  {
  }

  /** A timer sends one beacon at once and asks for at most two later timers. */
  lemma TimerCallbacks(node: Node, vtime: nat, delay1: nat, delay2: nat, loc: Loc)
    requires Jitter(delay1) && Jitter(delay2)
    ensures var (after, cbs) := AfterTimer(node, vtime, delay1, delay2, loc);
            exists timers: seq<nat>, t: nat ::
              && |timers| <= 1 && t > vtime && (forall u :: u in timers ==> u > vtime)
              && cbs == (if timers == [] then [] else [Timer(timers[0])])
                        + [Send(vtime, BeaconPacket(BeaconOf(after))), Timer(t)]
  {
    var wakes := node.status == Waking && vtime >= node.wakeTime;
    var timers := if wakes then [vtime + delay1] else [];
    var (after, cbs) := AfterTimer(node, vtime, delay1, delay2, loc);
    assert cbs == (if timers == [] then [] else [Timer(timers[0])])
                  + [Send(vtime, BeaconPacket(BeaconOf(after))), Timer(vtime + delay2)];
  }

  // ---------- The node object ----------

  class NodeObject {
    const id: nat
    var status: Status
    var wakeTime: nat
    var loc: Loc
    const neighTable: NeighTable

    ghost predicate Valid()
      reads this, neighTable
    {
      neighTable.Valid()
    }

    ghost function Value(): Node
      requires Valid()
      reads this, neighTable, neighTable.table
    {
      Node(id, status, wakeTime, loc, neighTable.Contents())
    }

    /** The first half of node_init. */
    constructor (id: nat, loc: Loc)
      ensures Valid() && fresh(neighTable) && fresh(neighTable.table)
      ensures Value() == Node(id, Asleep, 0, loc, [])
    {
      this.id, this.loc := id, loc;
      status := Asleep;
      wakeTime := 0;
      neighTable := new NeighTable();
    }

    /** The second half of node_init: options may wake the node, which then asks for a timer. */
    method Start(options: Options, delay: nat) returns (cbs: seq<Callback>)
      requires Valid() && status == Asleep && wakeTime == 0 && neighTable.Contents() == []
      modifies this`status
      ensures Valid() && (Value(), cbs) == Init(id, options, loc, delay)
    {
      cbs := [];
      if options.root && id == 0 {
        cbs := SetStatus(0, Root, delay);
      } else if options.awake {
        cbs := SetStatus(0, Awake, delay);
      }
    }

    method SetStatus(vtime: nat, status: Status, delay: nat) returns (cbs: seq<Callback>)
      requires Valid()
      modifies this`status
      ensures Valid() && (Value(), cbs) == WithStatus(old(Value()), vtime, status, delay)
    {
      this.status := status;
      cbs := [];
      if status != Asleep {
        var when := vtime;
        if status != Root {
          when := when + delay;
        }
        cbs := [Timer(when)];
      }
    }

    /** node_beacon: this node, then announced neighbours while the buffer has room. */
    method MakeBeacon() returns (b: Beacon)
      requires Valid()
      ensures b == BeaconOf(Value())
    {
      hide Unexpired;
      var ns := [Neigh(id, 0, loc)];
      var iter := new NeighIter(neighTable);
      while |ns| < BEACON_ENTRIES
        invariant fresh(iter) && iter.Valid() && iter.table == neighTable && 1 <= |ns| <= BEACON_ENTRIES
        invariant BeaconOf(Value()).neigh == ns + Listed(iter.Todo(), BEACON_ENTRIES - |ns|)
        decreases |iter.Todo()|
      {
        var n := iter.Next();
        if n.None? {
          break;
        }
        if Announced(n.value) {
          ns := ns + [n.value];
        }
      }
      b := Beacon(status, ns);
    }

    /** The first half of node_receive_beacon: does the sender list this node? */
    method LooksForSelf(b: Beacon) returns (seen: bool)
      ensures seen == SeesSelf(b.neigh, id)
    {
      seen := false;
      for i := 0 to |b.neigh|
        invariant seen == SeesSelf(b.neigh[..i], id)
      {
        var n := b.neigh[i];
        assert b.neigh[..i + 1] == b.neigh[..i] + [n];
        if n.id == id && (n.stratum == 1 || n.stratum == STRATUM_INF) {
          seen := true;
        }
      }
      assert b.neigh[..|b.neigh|] == b.neigh;
    }

    /** The second half: every listed node goes into the table. */
    method RecordAll(b: Beacon, vtime: nat)
      requires Valid() && InsertAll(neighTable.Contents(), id, b.neigh, vtime).Some?
      modifies neighTable, neighTable.table
      ensures Valid() && Some(neighTable.Contents()) == InsertAll(old(neighTable.Contents()), id, b.neigh, vtime)
    {
      ghost var final := InsertAll(neighTable.Contents(), id, b.neigh, vtime);
      for i := 0 to |b.neigh|
        invariant Valid() && InsertAll(neighTable.Contents(), id, b.neigh[i..], vtime) == final
      {
        var n := b.neigh[i];
        assert b.neigh[i..][0] == n && b.neigh[i..][1..] == b.neigh[i + 1..];
        if n.id != id && n.stratum != STRATUM_INF {
          neighTable.Insert(n.(stratum := (n.stratum + 1) % 256), vtime);
        }
      }
    }

    /** The source asserts that the neighbour table does not overflow. */
    method ReceiveBeacon(vtime: nat, b: Beacon, delay: nat, nearby: Loc) returns (cbs: seq<Callback>)
      requires Valid() && b.neigh != [] && AfterBeacon(Value(), vtime, b, delay, nearby).Some?
      modifies this, neighTable, neighTable.table
      ensures Valid() && Some((Value(), cbs)) == AfterBeacon(old(Value()), vtime, b, delay, nearby)
    {
      hide InsertAll, SeesSelf, Inserted;
      cbs := [];
      if status == Asleep {
        if b.status == Waking {
          return;
        }
        cbs := SetStatus(vtime, Waking, delay);
        wakeTime := vtime + WAKEUP_PERIOD;
        loc := nearby;
        cbs := cbs + [Timer(vtime + BEACON_PERIOD)];
      }
      var seen := LooksForSelf(b);
      if !seen {
        neighTable.Insert(b.neigh[0].(stratum := STRATUM_INF), vtime);
        return;
      }
      RecordAll(b, vtime);
    }

    method OnTimer(vtime: nat, delay1: nat, delay2: nat, newLoc: Loc) returns (cbs: seq<Callback>)
      requires Valid()
      modifies this
      ensures Valid() && (Value(), cbs) == AfterTimer(old(Value()), vtime, delay1, delay2, newLoc)
    {
      cbs := [];
      if status == Waking && vtime >= wakeTime {
        cbs := SetStatus(vtime, Awake, delay1);
      }
      loc := newLoc;
      var b := MakeBeacon();
      cbs := cbs + [Send(vtime, BeaconPacket(b)), Timer(vtime + delay2)];
    }

    method ForwardData(vtime: nat, data: Data) returns (cbs: seq<Callback>)
      requires Valid()
      ensures cbs == Forwarded(Value(), vtime, data)
    {
      var hop := Routing.RouteMfr(neighTable, loc, data.dst, data.dstloc, 1);
      if hop == None {
        return [];
      }
      cbs := [Send(vtime, DataPacket(data.(ttl := data.ttl - 1, hop := hop.value)))];
    }

    method ReceiveData(vtime: nat, data: Data) returns (cbs: seq<Callback>)
      requires Valid()
      ensures cbs == DataAnswer(Value(), vtime, data)
    {
      cbs := [];
      if data.hop != id {
        return;
      }
      if data.dst != id {
        cbs := ForwardData(vtime, data);
      }
    }

    method RouteTest(vtime: nat) returns (cbs: seq<Callback>)
      requires Valid()
      ensures cbs == RouteProbe(Value(), vtime)
    {
      cbs := ForwardData(vtime, Data(id, 0, 0, loc, Loc(0, 0, 0), TTL_MAX, vtime));
    }

    method Receive(vtime: nat, p: Packet, delay: nat, nearby: Loc) returns (cbs: seq<Callback>)
      requires Valid() && (p.BeaconPacket? ==> p.beacon.neigh != []) && AfterReceive(Value(), vtime, p, delay, nearby).Some?
      modifies this, neighTable, neighTable.table
      ensures Valid() && Some((Value(), cbs)) == AfterReceive(old(Value()), vtime, p, delay, nearby)
    {
      hide AfterBeacon, DataAnswer;
      match p
      case BeaconPacket(b) => cbs := ReceiveBeacon(vtime, b, delay, nearby);
      case DataPacket(d) => cbs := ReceiveData(vtime, d);
    }
  }
}
