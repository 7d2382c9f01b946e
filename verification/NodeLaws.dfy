/**
 What a node does with beacons and data, in its own terms: which neighbours a beacon
 lists, when a sleeper wakes and what it then asks for, which strata a table holds after
 a beacon, when it overflows, and when data is sent on and to whom.
 */
module NodeLaws {
  import opened Wrappers
  import opened Neigh
  import opened Node
  import Routing

  // ---------- Which neighbours a beacon lists ----------

  /** A table entry that belongs into beacons. */
  predicate Live(e: Entry) {
    e.expiry != 0 && (e.neigh.stratum == 1 || e.neigh.stratum == 2 || e.neigh.stratum == 10)
  }

  /** The slots ks of the table, ascending, are those that the list comes from. */
  ghost predicate ComesFrom(listed: seq<Neigh>, t: seq<Entry>, ks: seq<nat>) {
    && |ks| == |listed|
    && (forall i :: 0 <= i < |ks| ==> ks[i] < |t| && Live(t[ks[i]]) && t[ks[i]].neigh == listed[i])
    && (forall i, j :: 0 <= i < j < |ks| ==> ks[i] < ks[j])
  }

  /** Every live entry is listed, or comes after a full list. */
  ghost predicate LeavesOut(t: seq<Entry>, ks: seq<nat>, room: nat) {
    forall k :: 0 <= k < |t| && Live(t[k]) && k !in ks ==> |ks| == room && forall i :: 0 <= i < |ks| ==> ks[i] < k
  }

  /** The same slots in a table with one more entry in front. */
  function Up(ks: seq<nat>): (up: seq<nat>)
    ensures |up| == |ks| && forall i :: 0 <= i < |ks| ==> up[i] == ks[i] + 1
  {
    seq(|ks|, i requires 0 <= i < |ks| => ks[i] + 1)
  }

  lemma UpMember(ks: seq<nat>, k: nat)
    ensures k + 1 in Up(ks) <==> k in ks
  {
    if k in ks {
      var i :| 0 <= i < |ks| && ks[i] == k;
      assert Up(ks)[i] == k + 1;
    }
  }

  lemma {:induction false} ListedFrom(t: seq<Entry>, room: nat) returns (ks: seq<nat>)
    ensures ComesFrom(Listed(Unexpired(t), room), t, ks) && LeavesOut(t, ks, room) && |ks| <= room
    decreases |t|
  {
    hide Live, Listed, Unexpired;
    if t == [] || room == 0 {
      ks := [];
      ListsNothing(t, room);
    } else {
      var rest := t[1..];
      ListedStep(t, room);
      if Live(t[0]) {
        var later := ListedFrom(rest, room - 1);
        ks := [0] + Up(later);
        ComesFromFirst(Listed(Unexpired(rest), room - 1), t, later);
        LeavesOutLater(t, later, room - 1);
        LeavesOutFirst(t, later, room - 1);
      } else {
        var later := ListedFrom(rest, room);
        ks := Up(later);
        ComesFromLater(Listed(Unexpired(rest), room), t, later);
        LeavesOutLater(t, later, room);
      }
    }
  }

  lemma ListsNothing(t: seq<Entry>, room: nat)
    requires t == [] || room == 0
    ensures Listed(Unexpired(t), room) == []
  {
  }

  lemma ListedStep(t: seq<Entry>, room: nat)
    requires t != [] && room > 0
    ensures Listed(Unexpired(t), room)
            == if Live(t[0]) then [t[0].neigh] + Listed(Unexpired(t[1..]), room - 1) else Listed(Unexpired(t[1..]), room)
  {
    var rest := Unexpired(t[1..]);
    assert ([t[0].neigh] + rest)[1..] == rest && [] + rest == rest;
  }

  lemma ComesFromLater(listed: seq<Neigh>, t: seq<Entry>, later: seq<nat>)
    requires t != [] && ComesFrom(listed, t[1..], later)
    ensures ComesFrom(listed, t, Up(later))
  {
    hide Live;
  }

  lemma ComesFromFirst(listed: seq<Neigh>, t: seq<Entry>, later: seq<nat>)
    requires t != [] && ComesFrom(listed, t[1..], later) && Live(t[0])
    ensures ComesFrom([t[0].neigh] + listed, t, [0] + Up(later))
  {
    hide Live;
    ComesFromLater(listed, t, later);
  }

  lemma LeavesOutLater(t: seq<Entry>, later: seq<nat>, room: nat)
    requires t != [] && LeavesOut(t[1..], later, room)
    ensures forall k :: 1 <= k < |t| && Live(t[k]) && k !in Up(later) ==> |later| == room && forall i :: 0 <= i < |later| ==> Up(later)[i] < k
  {
    hide Live;
    forall k | 1 <= k < |t| && Live(t[k]) && k !in Up(later)
      ensures |later| == room && forall i :: 0 <= i < |later| ==> Up(later)[i] < k
    {
      UpMember(later, k - 1);
      assert t[1..][k - 1] == t[k];
    }
  }

  lemma LeavesOutFirst(t: seq<Entry>, later: seq<nat>, room: nat)
    requires t != []
    requires forall k :: 1 <= k < |t| && Live(t[k]) && k !in Up(later) ==> |later| == room && forall i :: 0 <= i < |later| ==> Up(later)[i] < k
    ensures LeavesOut(t, [0] + Up(later), room + 1)
  {
    hide Live;
    var ks := [0] + Up(later);
    assert forall k :: k in ks <==> k == 0 || k in Up(later);
    forall k | 0 <= k < |t| && Live(t[k]) && k !in ks ensures |ks| == room + 1 && forall i :: 0 <= i < |ks| ==> ks[i] < k {
      assert 1 <= k;
    }
  }

  /**
   Main result: a beacon says who sends it and then lists exactly the entries of its table
   that have not expired and are at stratum 1, 2 or INF, in table order, unless it is full
   with thirteen.
   */
  lemma BeaconContents(node: Node) returns (ks: seq<nat>)
    ensures var b := BeaconOf(node);
      && b.status == node.status && b.neigh[0] == Neigh(node.id, 0, node.loc)
      && ComesFrom(b.neigh[1..], node.table, ks) && LeavesOut(node.table, ks, 12) && |b.neigh| <= 13
  {
    ks := ListedFrom(node.table, 12);
  }

  /** In a beacon with room left, every such entry is listed. */
  lemma BeaconLists(node: Node, k: nat)
    requires k < |node.table| && Live(node.table[k]) && |BeaconOf(node).neigh| < 13
    ensures node.table[k].neigh in BeaconOf(node).neigh[1..]
  {
    hide Live, Unexpired;
    var ks := BeaconContents(node);
    if k in ks {
      var i :| 0 <= i < |ks| && ks[i] == k;
      assert BeaconOf(node).neigh[1..][i] == node.table[k].neigh;
    }
  }

  // ---------- Waking up ----------

  /** Main result: a sleeper wakes on a beacon exactly if its sender is not itself WAKING, and then asks for two timers. */
  lemma SleeperWakesIff(node: Node, vtime: nat, b: Beacon, delay: nat, loc: Loc)
    requires node.status == Asleep && b.neigh != [] && AfterBeacon(node, vtime, b, delay, loc).Some?
    ensures var (after, cbs) := AfterBeacon(node, vtime, b, delay, loc).value;
      && (after.status == Waking <==> b.status != Waking)
      && (b.status != Waking ==>
            after.wakeTime == vtime + 2_500_000 && after.loc == loc
            && cbs == [Timer(vtime + delay), Timer(vtime + 1_000_000)])
      && (b.status == Waking ==> after == node && cbs == [])
  {
    hide Recorded;
  }

  /** A node that is up stays as it is but for its table, and asks for nothing. */
  lemma UpIsUnmoved(node: Node, vtime: nat, b: Beacon, delay: nat, loc: Loc)
    requires node.status != Asleep && b.neigh != [] && AfterBeacon(node, vtime, b, delay, loc).Some?
    ensures var (after, cbs) := AfterBeacon(node, vtime, b, delay, loc).value;
      after == node.(table := after.table) && cbs == []
  {
    hide Recorded;
  }

  /**
   What a timer does: a WAKING node that is due gets up and asks for one timer more; every
   node then sends its beacon, with its status as it now is, and asks for the next timer.
   */
  lemma TimerFires(node: Node, vtime: nat, delay1: nat, delay2: nat, loc: Loc)
    ensures var (after, cbs) := AfterTimer(node, vtime, delay1, delay2, loc);
      && after.id == node.id && after.loc == loc && after.table == node.table
      && (if node.status == Waking && vtime >= node.wakeTime
          then after.status == Awake && cbs == [Timer(vtime + delay1), Send(vtime, BeaconPacket(BeaconOf(after))), Timer(vtime + delay2)]
          else after.status == node.status && cbs == [Send(vtime, BeaconPacket(BeaconOf(after))), Timer(vtime + delay2)])
  {
    hide BeaconOf;
  }

  /** How nodes start: the root at once, others awake with a timer within the jitter, or asleep. */
  lemma StartsAs(id: nat, options: Options, loc: Loc, delay: nat)
    ensures var (node, cbs) := Init(id, options, loc, delay);
      && node.id == id && node.loc == loc && node.table == []
      && (node.status == Root <==> id == 0 && options.root)
      && (node.status == Awake <==> options.awake && !(id == 0 && options.root))
      && (node.status != Root && node.status != Awake ==> node.status == Asleep && cbs == [])
      && (node.status == Root ==> cbs == [Timer(0)]) && (node.status == Awake ==> cbs == [Timer(delay)])
  {
  }

  // ---------- What a beacon leaves in the table ----------

  /** Some node of the list, not one-sided, is reported at this stratum as seen from the receiver. */
  ghost predicate Reported(ns: seq<Neigh>, id: nat, stratum: nat) {
    exists n :: n in ns && n.id == id && n.stratum != 10 && n.stratum + 1 == stratum
  }

  /** The lowest of what the table held and what is reported, and nothing if there is neither. */
  ghost predicate IsLowest(held: Option<Neigh>, ns: seq<Neigh>, id: nat, after: Option<Neigh>) {
    match after
    case None => held.None? && forall k :: !Reported(ns, id, k)
    case Some(n) =>
      && n.id == id
      && ((held.Some? && held.value.stratum == n.stratum) || Reported(ns, id, n.stratum))
      && (held.Some? ==> n.stratum <= held.value.stratum)
      && (forall k :: Reported(ns, id, k) ==> n.stratum <= k)
  }

  lemma ReportedSplit(ns: seq<Neigh>, id: nat, k: nat)
    requires ns != []
    ensures Reported(ns, id, k) <==> Reported([ns[0]], id, k) || Reported(ns[1..], id, k)
  {
    assert ns == [ns[0]] + ns[1..];
    assert forall n :: n in ns <==> n in [ns[0]] || n in ns[1..];
  }

  lemma LowestOfTwo(held: Option<Neigh>, mid: Option<Neigh>, after: Option<Neigh>, ns: seq<Neigh>, id: nat)
    requires ns != [] && IsLowest(held, [ns[0]], id, mid) && IsLowest(mid, ns[1..], id, after)
    ensures IsLowest(held, ns, id, after)
  {
    hide Reported;
    forall k ensures Reported(ns, id, k) <==> Reported([ns[0]], id, k) || Reported(ns[1..], id, k) {
      ReportedSplit(ns, id, k);
    }
  }

  lemma LookupId(t: seq<Entry>, id: nat)
    ensures Lookup(t, id).Some? ==> Lookup(t, id).value.id == id
  {
  }

  lemma InsertIsLowest(t: seq<Entry>, n: Neigh, vtime: nat, id: nat)
    requires UniqueIds(t) && n.stratum != 10 && n.stratum <= 8
    requires Inserted(t, n.(stratum := n.stratum + 1), vtime).Some?
    ensures var t' := Inserted(t, n.(stratum := n.stratum + 1), vtime).value;
      UniqueIds(t') && IsLowest(Lookup(t, id), [n], id, Lookup(t', id))
  {
    InsertedLookup(t, n.(stratum := n.stratum + 1), vtime, id);
    LookupId(t, id);
    hide Inserted, Lookup, UniqueIds;
    assert Reported([n], n.id, n.stratum + 1);
  }

  lemma SkipIsLowest(t: seq<Entry>, n: Neigh, id: nat)
    requires n.id != id || n.stratum == 10
    ensures IsLowest(Lookup(t, id), [n], id, Lookup(t, id))
  {
    LookupId(t, id);
  }

  lemma InsertAllStep(t: seq<Entry>, self: nat, ns: seq<Neigh>, vtime: nat)
    requires ns != [] && ns[0].stratum <= 10
    ensures InsertAll(t, self, ns, vtime) ==
      if ns[0].id != self && ns[0].stratum != 10 then
        (match Inserted(t, ns[0].(stratum := ns[0].stratum + 1), vtime)
         case None => None
         case Some(t') => InsertAll(t', self, ns[1..], vtime))
      else InsertAll(t, self, ns[1..], vtime)
  {
  }

  /**
   Main result: after a beacon that lists its receiver, the table holds for every other
   node the lowest of the stratum it held and those reported, one further out.
   */
  lemma {:induction false} InsertAllIsLowest(t: seq<Entry>, self: nat, ns: seq<Neigh>, vtime: nat, id: nat)
    requires UniqueIds(t) && InsertAll(t, self, ns, vtime).Some?
    requires forall n :: n in ns ==> n.stratum <= 8 || n.stratum == 10
    ensures var t' := InsertAll(t, self, ns, vtime).value;
      && UniqueIds(t')
      && (id != self ==> IsLowest(Lookup(t, id), ns, id, Lookup(t', id)))
      && (id == self ==> Lookup(t', id) == Lookup(t, id))
    decreases |ns|
  {
    hide Inserted, Lookup, UniqueIds, IsLowest;
    if ns == [] {
      NothingReported(t, self, vtime, id);
    } else {
      var n := ns[0];
      assert n in ns;
      InsertAllStep(t, self, ns, vtime);
      hide InsertAll;
      if n.id != self && n.stratum != 10 {
        var mid := Inserted(t, n.(stratum := n.stratum + 1), vtime).value;
        InsertIsLowest(t, n, vtime, id);
        InsertedElsewhere(t, n.(stratum := n.stratum + 1), vtime, self);
        InsertAllIsLowest(mid, self, ns[1..], vtime, id);
        if id != self {
          LowestOfTwo(Lookup(t, id), Lookup(mid, id), Lookup(InsertAll(t, self, ns, vtime).value, id), ns, id);
        }
      } else {
        InsertAllIsLowest(t, self, ns[1..], vtime, id);
        if id != self {
          SkipIsLowest(t, n, id);
          LowestOfTwo(Lookup(t, id), Lookup(t, id), Lookup(InsertAll(t, self, ns, vtime).value, id), ns, id);
        }
      }
    }
  }

  /** A stratum is a byte: a node reported at 255 is taken for the receiver itself. */
  lemma StratumWraps(t: seq<Entry>, self: nat, n: Neigh, vtime: nat)
    requires UniqueIds(t) && n.stratum == 255 && n.id != self && InsertAll(t, self, [n], vtime).Some?
    ensures var held := Lookup(InsertAll(t, self, [n], vtime).value, n.id); held.Some? && held.value.stratum == 0
  {
    assert [n][1..] == [];
    InsertedLookup(t, n.(stratum := 0), vtime, n.id);
    LookupId(t, n.id);
    hide Inserted, Lookup, UniqueIds;
  }

  lemma NothingReported(t: seq<Entry>, self: nat, vtime: nat, id: nat)
    ensures InsertAll(t, self, [], vtime) == Some(t) && IsLowest(Lookup(t, id), [], id, Lookup(t, id))
  {
    LookupId(t, id);
  }

  lemma InsertedElsewhere(t: seq<Entry>, n: Neigh, vtime: nat, id: nat)
    requires UniqueIds(t) && Inserted(t, n, vtime).Some? && id != n.id
    ensures Lookup(Inserted(t, n, vtime).value, id) == Lookup(t, id)
  {
    InsertedLookup(t, n, vtime, id);
  }

  /** A beacon that does not list its receiver leaves the sender at INF, or at stratum 0 or 1 if it was there. */
  lemma OneSidedIsInf(t: seq<Entry>, self: nat, b: Beacon, vtime: nat)
    requires b.neigh != [] && UniqueIds(t) && Recorded(t, self, b, vtime).Some?
    requires forall n :: n in b.neigh && n.id == self ==> n.stratum != 1 && n.stratum != 10
    ensures var t', sender := Recorded(t, self, b, vtime).value, b.neigh[0].id;
      && UniqueIds(t')
      && (forall id :: id != sender ==> Lookup(t', id) == Lookup(t, id))
      && Lookup(t', sender).Some? && Lookup(t', sender).value.id == sender
      && Lookup(t', sender).value.stratum
         == if Lookup(t, sender).Some? && Lookup(t, sender).value.stratum <= 1 then Lookup(t, sender).value.stratum else 10
  {
    var n := b.neigh[0].(stratum := 10);
    InsertedLookup(t, n, vtime, n.id);
    LookupId(t, n.id);
    forall id | id != n.id ensures Lookup(Inserted(t, n, vtime).value, id) == Lookup(t, id) {
      InsertedElsewhere(t, n, vtime, id);
    }
    hide Inserted, Lookup, UniqueIds;
  }

  /** The receiver is in the list at stratum 1 or INF: the sender hears it. */
  predicate Heard(ns: seq<Neigh>, self: nat) {
    exists n :: n in ns && n.id == self && (n.stratum == 1 || n.stratum == 10)
  }

  lemma HeardIsRecorded(t: seq<Entry>, self: nat, b: Beacon, vtime: nat)
    requires b.neigh != []
    ensures Heard(b.neigh, self) ==> Recorded(t, self, b, vtime) == InsertAll(t, self, b.neigh, vtime)
    ensures !Heard(b.neigh, self) ==> Recorded(t, self, b, vtime) == Inserted(t, b.neigh[0].(stratum := 10), vtime)
  {
    hide InsertAll, Inserted;
  }

  /** After any beacon that is heeded its sender is listed: at stratum 1 if it hears the receiver, else at 1 or INF. */
  lemma SenderIsListed(t: seq<Entry>, self: nat, b: Beacon, vtime: nat)
    requires b.neigh != [] && UniqueIds(t) && Recorded(t, self, b, vtime).Some?
    requires b.neigh[0].stratum == 0 && b.neigh[0].id != self
    requires forall n :: n in b.neigh ==> n.stratum <= 8 || n.stratum == 10
    requires forall n :: n in b.neigh && n.id == b.neigh[0].id ==> n == b.neigh[0]
    requires Lookup(t, b.neigh[0].id).Some? ==> Lookup(t, b.neigh[0].id).value.stratum >= 1
    ensures var after := Lookup(Recorded(t, self, b, vtime).value, b.neigh[0].id);
      && after.Some?
      && (Heard(b.neigh, self) ==> after.value.stratum == 1)
      && (!Heard(b.neigh, self) ==> after.value.stratum == 1 || after.value.stratum == 10)
  {
    hide InsertAll, Inserted, Lookup, UniqueIds, Recorded;
    HeardIsRecorded(t, self, b, vtime);
    var ns, sender := b.neigh, b.neigh[0].id;
    if Heard(ns, self) {
      InsertAllIsLowest(t, self, ns, vtime, sender);
      assert ns[0] in ns && Reported(ns, sender, 1);
    } else {
      OneSidedIsInf(t, self, b, vtime);
    }
  }

  // ---------- When the table overflows ----------

  /** The ids that a beacon would put into the table. */
  function NewIds(ns: seq<Neigh>, self: nat): set<nat> {
    set n | n in ns && n.id != self && n.stratum != 10 :: n.id
  }

  lemma SameIds(t: seq<Entry>, t': seq<Entry>)
    requires |t| == |t'| && forall j :: 0 <= j < |t| ==> t'[j].neigh.id == t[j].neigh.id
    ensures Ids(t) == Ids(t')
  {
    forall e | e in t ensures e.neigh.id in Ids(t') {
      var j :| 0 <= j < |t| && t[j] == e;
      assert t'[j] in t';
    }
    forall e | e in t' ensures e.neigh.id in Ids(t) {
      var j :| 0 <= j < |t'| && t'[j] == e;
      assert t[j] in t;
    }
  }

  lemma IdsSnoc(t: seq<Entry>, e: Entry)
    ensures Ids(t + [e]) == Ids(t) + {e.neigh.id}
  {
    assert forall x :: x in t + [e] <==> x in t || x == e;
  }

  lemma InsertedIds(t: seq<Entry>, n: Neigh, vtime: nat)
    requires UniqueIds(t) && |t| <= 50
    ensures match Inserted(t, n, vtime)
            case None => |Ids(t) + {n.id}| > 50
            case Some(t') => UniqueIds(t') && |t'| <= 50 && Ids(t') == Ids(t) + {n.id} && |Ids(t')| <= 50
  {
    IdsCount(t);
    InsertedFailsIff(t, n, vtime);
    if Inserted(t, n, vtime).Some? {
      InsertedLookup(t, n, vtime, n.id);
      IdsCount(Inserted(t, n, vtime).value);
      var i := IndexFrom(t, n.id, 0);
      if i < |t| {
        assert t[i] in t;
        SameIds(t, Inserted(t, n, vtime).value);
      } else {
        IdsSnoc(t, Entry(n, vtime + EXPIRY_TIMEOUT));
      }
      hide UniqueIds, Ids;
    }
  }

  lemma NewIdsStep(ns: seq<Neigh>, self: nat)
    requires ns != []
    ensures NewIds(ns, self) == (if ns[0].id != self && ns[0].stratum != 10 then {ns[0].id} else {}) + NewIds(ns[1..], self)
  {
    assert ns == [ns[0]] + ns[1..];
    assert forall n :: n in ns <==> n == ns[0] || n in ns[1..];
  }

  /** Main result: recording a beacon overflows the table exactly if the ids it held and those that are new exceed fifty. */
  lemma {:induction false} OverflowsIff(t: seq<Entry>, self: nat, ns: seq<Neigh>, vtime: nat)
    requires UniqueIds(t) && |t| <= 50 && forall n :: n in ns ==> n.stratum <= 10
    ensures InsertAll(t, self, ns, vtime).None? <==> |Ids(t) + NewIds(ns, self)| > 50
    decreases |ns|
  {
    hide Inserted, UniqueIds, Ids;
    if ns == [] {
      SmallTable(t);
      assert Ids(t) + NewIds(ns, self) == Ids(t);
    } else {
      var n := ns[0];
      assert n in ns;
      InsertAllStep(t, self, ns, vtime);
      NewIdsStep(ns, self);
      hide InsertAll, NewIds;
      if n.id != self && n.stratum != 10 {
        var further := n.(stratum := n.stratum + 1);
        InsertedIds(t, further, vtime);
        assert Ids(t) + NewIds(ns, self) == (Ids(t) + {n.id}) + NewIds(ns[1..], self);
        if Inserted(t, further, vtime).Some? {
          OverflowsIff(Inserted(t, further, vtime).value, self, ns[1..], vtime);
        } else {
          SubsetSize(Ids(t) + {n.id}, Ids(t) + NewIds(ns, self));
        }
      } else {
        assert NewIds(ns, self) == NewIds(ns[1..], self);
        OverflowsIff(t, self, ns[1..], vtime);
      }
    }
  }

  /** Main result: exactly when a beacon stops the program. */
  lemma BeaconOverflowsIff(node: Node, vtime: nat, b: Beacon, delay: nat, loc: Loc)
    requires b.neigh != [] && UniqueIds(node.table) && |node.table| <= 50 && forall n :: n in b.neigh ==> n.stratum <= 10
    ensures AfterBeacon(node, vtime, b, delay, loc).None? <==>
      && !(node.status == Asleep && b.status == Waking)
      && |Ids(node.table) + if Heard(b.neigh, node.id) then NewIds(b.neigh, node.id) else {b.neigh[0].id}| > 50
  {
    HeardIsRecorded(node.table, node.id, b, vtime);
    if Heard(b.neigh, node.id) {
      OverflowsIff(node.table, node.id, b.neigh, vtime);
    } else {
      InsertedIds(node.table, b.neigh[0].(stratum := 10), vtime);
    }
    hide InsertAll, Inserted, UniqueIds, Ids, NewIds, Heard, Recorded;
  }

  lemma SmallTable(t: seq<Entry>)
    requires UniqueIds(t) && |t| <= 50
    ensures |Ids(t)| <= 50
  {
    IdsCount(t);
  }

  // ---------- Sending data on ----------

  /** A direct neighbour that is the destination, or nearer to it than the node is. */
  predicate Helps(n: Neigh, node: Node, dst: nat, dstloc: Loc) {
    n.stratum == 1 && (n.id == dst || Routing.Dist2(n.loc, dstloc) < Routing.Dist2(node.loc, dstloc))
  }

  /** The packet as it is sent on by way of n. */
  predicate SentOn(c: Callback, data: Data, vtime: nat, hop: nat) {
    && c.Send? && c.vtime == vtime && c.packet.DataPacket?
    && c.packet.data.hop == hop && c.packet.data.ttl == data.ttl - 1
    && (c.packet.data.src, c.packet.data.dst, c.packet.data.srcloc, c.packet.data.dstloc, c.packet.data.vtime)
       == (data.src, data.dst, data.srcloc, data.dstloc, data.vtime)
  }

  lemma ForwardsTo(node: Node, vtime: nat, data: Data)
    requires forall n :: n in Unexpired(node.table) ==> n.stratum >= 1
    ensures var cbs, ns := Forwarded(node, vtime, data), Unexpired(node.table);
      if exists n :: n in ns && Helps(n, node, data.dst, data.dstloc)
      then |cbs| == 1 && exists n :: n in ns && Helps(n, node, data.dst, data.dstloc) && SentOn(cbs[0], data, vtime, n.id)
      else cbs == []
  {
    hide Routing.Route, Unexpired, Routing.Dist2;
    var ns := Unexpired(node.table);
    Routing.RouteDirect(ns, node.loc, data.dst, data.dstloc);
    match NextHop(node, data.dst, data.dstloc)
    case None =>
      forall n | n in ns ensures !Helps(n, node, data.dst, data.dstloc) {
        assert !Routing.GoodHop(n, node.loc, data.dst, data.dstloc);
      }
    case Some(hop) =>
      var n :| n in ns && n.id == hop && Routing.GoodHop(n, node.loc, data.dst, data.dstloc);
      assert Helps(n, node, data.dst, data.dstloc);
  }

  /**
   Main result: a node sends data on exactly if it is the packet's hop and not its
   destination and has a neighbour that helps; the packet goes by such a neighbour.
   */
  lemma DataGoesOn(node: Node, vtime: nat, data: Data)
    requires forall n :: n in Unexpired(node.table) ==> n.stratum >= 1
    ensures var cbs, ns := DataAnswer(node, vtime, data), Unexpired(node.table);
      if data.hop == node.id && data.dst != node.id && exists n :: n in ns && Helps(n, node, data.dst, data.dstloc)
      then |cbs| == 1 && exists n :: n in ns && Helps(n, node, data.dst, data.dstloc) && SentOn(cbs[0], data, vtime, n.id)
      else cbs == []
  {
    hide Unexpired, Forwarded, Helps, SentOn;
    ForwardsTo(node, vtime, data);
  }

  /** A route test sends such a packet to node 0 at the origin, if a neighbour helps. */
  lemma ProbeGoesOut(node: Node, vtime: nat)
    requires forall n :: n in Unexpired(node.table) ==> n.stratum >= 1
    ensures var cbs, ns, origin := RouteProbe(node, vtime), Unexpired(node.table), Loc(0, 0, 0);
      if exists n :: n in ns && Helps(n, node, 0, origin)
      then |cbs| == 1 && cbs[0].Send? && cbs[0].vtime == vtime && cbs[0].packet.DataPacket?
           && (cbs[0].packet.data.src, cbs[0].packet.data.dst, cbs[0].packet.data.dstloc) == (node.id, 0, origin)
           && (cbs[0].packet.data.srcloc, cbs[0].packet.data.ttl, cbs[0].packet.data.vtime) == (node.loc, 99, vtime)
           && exists n :: n in ns && Helps(n, node, 0, origin) && cbs[0].packet.data.hop == n.id
      else cbs == []
  {
    hide Unexpired, Forwarded, Helps;
    ForwardsTo(node, vtime, Data(node.id, 0, 0, node.loc, Loc(0, 0, 0), TTL_MAX, vtime));
  }
}
