/**
 The neighbour table of a node (radio2/src/neigh.c): up to fifty entries, one per id,
 each with a stratum: 1 for a neighbour known to hear us, 2 and 3 for nodes behind it,
 INF for one we hear but who is not known to hear us.
 */
module Neigh {
  import opened Wrappers

  const VTIME_SECONDS: nat := 1_000_000
  const EXPIRY_TIMEOUT: nat := 30 * VTIME_SECONDS
  const NEIGH_MAX: nat := 50
  const STRATUM_INF: nat := 10

  datatype Loc = Loc(x: int, y: int, z: int)

  datatype Neigh = Neigh(id: nat, stratum: nat, loc: Loc)

  /** A table slot; an expiry of zero hides the entry from iterators. */
  datatype Entry = Entry(neigh: Neigh, expiry: nat)

  const NO_ENTRY := Entry(Neigh(0, 0, Loc(0, 0, 0)), 0)

  // ---------- The table as a sequence ----------

  /** The first slot from i on that lists the id, or the length of the table. */
  function IndexFrom(t: seq<Entry>, id: nat, i: nat): (k: nat)
    requires i <= |t|
    ensures i <= k <= |t|
    ensures k < |t| ==> t[k].neigh.id == id
    ensures forall j :: i <= j < k ==> t[j].neigh.id != id
    decreases |t| - i
  {
    if i == |t| || t[i].neigh.id == id then i else IndexFrom(t, id, i + 1)
  }

  /** Whether a new report of a listed id replaces the old one. */
  predicate Replaces(heard: nat, held: nat) {
    (heard == STRATUM_INF && held > 1) || heard <= held
  }

  /** The table after an insertion; None when the table is full and the source's assertion fails. */
  function Inserted(t: seq<Entry>, n: Neigh, vtime: nat): Option<seq<Entry>> {
    var i := IndexFrom(t, n.id, 0);
    var e := Entry(n, vtime + EXPIRY_TIMEOUT);
    if i < |t| then
      Some(if Replaces(n.stratum, t[i].neigh.stratum) then t[i := e] else t)
    else if |t| < NEIGH_MAX then
      Some(t + [e])
    else
      None
  }

  ghost predicate UniqueIds(t: seq<Entry>) {
    forall i, j :: 0 <= i < j < |t| ==> t[i].neigh.id != t[j].neigh.id
  }

  function Ids(t: seq<Entry>): set<nat> {
    set e | e in t :: e.neigh.id
  }

  function Lookup(t: seq<Entry>, id: nat): Option<Neigh> {
    var i := IndexFrom(t, id, 0);
    if i < |t| then Some(t[i].neigh) else None
  }

  // ---------- What an insertion does ----------

  /**
   Seen by id, an insertion changes at most the entry for its id.  A report of the same or
   a lower stratum replaces what is held, one at INF replaces all but a confirmed
   neighbour, and nothing else does.
   */
  lemma InsertedLookup(t: seq<Entry>, n: Neigh, vtime: nat, id: nat)
    requires UniqueIds(t) && Inserted(t, n, vtime).Some?
    ensures var t' := Inserted(t, n, vtime).value;
            var held := Lookup(t, n.id);
            && UniqueIds(t')
            && Lookup(t', id) == if id != n.id then Lookup(t, id)
                                 else if held.None? || n.stratum <= held.value.stratum
                                         || (n.stratum == STRATUM_INF && held.value.stratum > 1) then Some(n)
                                 else held
  {
    var t' := Inserted(t, n, vtime).value;
    var i := IndexFrom(t, n.id, 0);
    var k := IndexFrom(t, id, 0);
    var k' := IndexFrom(t', id, 0);
    assert forall j :: 0 <= j < |t| ==> t'[j].neigh.id == t[j].neigh.id;
    if id == n.id {
      assert k == i;
      assert t'[i].neigh.id == id;
      assert k' <= i && t'[k'].neigh.id == id;
      assert k' < |t| ==> t[k'].neigh.id == id;
    } else if k < |t| {
      assert t'[k].neigh.id == id;
      assert k' <= k;
      assert t[k'].neigh.id == t'[k'].neigh.id == id;
      assert t'[k] == t[k];
    } else {
      assert k' == |t'|;
    }
  }

  /** The table is full only when it lists fifty other ids. */
  lemma InsertedFailsIff(t: seq<Entry>, n: Neigh, vtime: nat)
    ensures Inserted(t, n, vtime).None? <==> |t| >= NEIGH_MAX && n.id !in Ids(t)
  {
    var i := IndexFrom(t, n.id, 0);
    if i < |t| {
      assert t[i] in t;
    }
  }

  /** A confirmed neighbour is never demoted by reports of stratum one or more. */
  lemma StratumOneStays(t: seq<Entry>, n: Neigh, vtime: nat, id: nat)
    requires UniqueIds(t) && Inserted(t, n, vtime).Some? && n.stratum >= 1
    requires Lookup(t, id).Some? && Lookup(t, id).value.stratum == 1
    ensures var after := Lookup(Inserted(t, n, vtime).value, id);
            after.Some? && after.value.stratum == 1
  {
    InsertedLookup(t, n, vtime, id);
  }

  lemma {:induction false} IdsCount(t: seq<Entry>)
    requires UniqueIds(t)
    ensures |Ids(t)| == |t|
    decreases |t|
  {
    if t != [] {
      var front, last := t[..|t| - 1], t[|t| - 1];
      IdsCount(front);
      assert t == front + [last];
      assert Ids(t) == Ids(front) + {last.neigh.id};
      assert last.neigh.id !in Ids(front);
    }
  }

  /** A table whose ids all come from a set of at most fifty never overflows on an id of that set. */
  lemma FitsIn(t: seq<Entry>, n: Neigh, vtime: nat, ids: set<nat>)
    requires UniqueIds(t) && Ids(t) <= ids && n.id in ids && |ids| <= NEIGH_MAX
    ensures Inserted(t, n, vtime).Some?
  {
    InsertedFailsIff(t, n, vtime);
    IdsCount(t);
    if n.id !in Ids(t) {
      SubsetSize(Ids(t) + {n.id}, ids);
    }
  }

  lemma {:induction false} SubsetSize(a: set<nat>, b: set<nat>)
    requires a <= b
    ensures |a| <= |b|
    decreases a
  {
    if x :| x in a {
      SubsetSize(a - {x}, b - {x});
    }
  }

  // ---------- The table object ----------

  class NeighTable {
    const table: array<Entry>
    var nneigh: nat

    ghost predicate Valid()
      reads this
    {
      table.Length == NEIGH_MAX && nneigh <= NEIGH_MAX
    }

    function Contents(): seq<Entry>
      requires nneigh <= table.Length
      reads this, table
    {
      table[..nneigh]
    }

    constructor ()
      ensures Valid() && fresh(table) && Contents() == []
    {
      table := new Entry[NEIGH_MAX](_ => NO_ENTRY);
      nneigh := 0;
    }

    /** The source asserts that there is room for a new id. */
    method Insert(neigh: Neigh, vtime: nat)
      requires Valid() && Inserted(Contents(), neigh, vtime).Some?
      modifies this, table
      ensures Valid() && Some(Contents()) == Inserted(old(Contents()), neigh, vtime)
    {
      ghost var before := Contents();
      var i := 0;
      while i < nneigh
        invariant i <= nneigh <= NEIGH_MAX && nneigh == old(nneigh) && Contents() == before
        invariant IndexFrom(before, neigh.id, 0) == IndexFrom(before, neigh.id, i)
      {
        if table[i].neigh.id == neigh.id {
          if (neigh.stratum == STRATUM_INF && table[i].neigh.stratum > 1) || neigh.stratum <= table[i].neigh.stratum {
            table[i] := Entry(neigh, vtime + EXPIRY_TIMEOUT);
            assert Contents() == before[i := Entry(neigh, vtime + EXPIRY_TIMEOUT)];
          }
          return;
        }
        i := i + 1;
      }
      table[nneigh] := Entry(neigh, vtime + EXPIRY_TIMEOUT);
      nneigh := nneigh + 1;
      assert Contents() == before + [Entry(neigh, vtime + EXPIRY_TIMEOUT)];
    }
  }

  /** The entries an iterator returns. */
  function Unexpired(t: seq<Entry>): seq<Neigh> {
    if t == [] then []
    else (if t[0].expiry != 0 then [t[0].neigh] else []) + Unexpired(t[1..])
  }

  class NeighIter {
    const table: NeighTable
    var index: nat

    ghost predicate Valid()
      reads this, table
    {
      table.Valid() && index <= table.nneigh
    }

    ghost function Todo(): seq<Neigh>
      requires Valid()
      reads this, table, table.table
    {
      Unexpired(table.Contents()[index..])
    }

    constructor (table: NeighTable)
      requires table.Valid()
      ensures Valid() && this.table == table && Todo() == Unexpired(table.Contents())
    {
      this.table := table;
      index := 0;
    }

    method Next() returns (n: Option<Neigh>)
      requires Valid()
      modifies this
      ensures Valid()
      ensures old(Todo()) == [] ==> n == None && Todo() == []
      ensures old(Todo()) != [] ==> n == Some(old(Todo())[0]) && Todo() == old(Todo())[1..]
    {
      while index < table.nneigh
        invariant Valid() && Todo() == old(Todo())
        decreases table.nneigh - index
      {
        var entry := table.table[index];
        ghost var rest := table.Contents()[index..];
        assert rest[0] == entry && rest[1..] == table.Contents()[index + 1..];
        index := index + 1;
        if entry.expiry != 0 {
          return Some(entry.neigh);
        }
      }
      return None;
    }
  }
}
