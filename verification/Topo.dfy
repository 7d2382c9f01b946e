/**
 The topology index (radio2/src/topo.c): a hash table of directed edges with linear
 probing and wraparound.  A slot whose two ends are equal counts as empty.

 Reference: a map from edges to probabilities.  The table after any inserts, read back
 through an iterator, agrees with that map.
 */
module Topo {
  import opened Wrappers

  const TABLE_SIZE: nat := 30000
  const TABLE_OFFSET: nat := 30
  const MAX_ENTRIES: nat := 9000

  /** Node ids are sixteen bits wide in the source; nothing here depends on it. */
  datatype Entry = Entry(src: nat, dst: nat, prob: real)

  const EMPTY := Entry(0, 0, 0.0)

  type Edge = (nat, nat)

  // ---------- Slots ----------

  predicate Free(e: Entry) {
    e.src == e.dst
  }

  function Home(src: nat): (n: nat)
    ensures n < TABLE_SIZE
  {
    (TABLE_OFFSET * src) % TABLE_SIZE
  }

  function After(n: nat): (m: nat)
    requires n < TABLE_SIZE
    ensures m < TABLE_SIZE
  {
    (n + 1) % TABLE_SIZE
  }

  /** The slot k places after n, around the end. */
  function Slot(n: nat, k: nat): (m: nat)
    requires n < TABLE_SIZE && k <= TABLE_SIZE
    ensures m < TABLE_SIZE
  {
    if n + k < TABLE_SIZE then n + k else n + k - TABLE_SIZE
  }

  /** How many places m is after n. */
  function Gap(n: nat, m: nat): (k: nat)
    requires n < TABLE_SIZE && m < TABLE_SIZE
    ensures k < TABLE_SIZE && Slot(n, k) == m
  {
    if n <= m then m - n else m + TABLE_SIZE - n
  }

  // ---------- The invariant ----------

  function Occupied(table: seq<Entry>): nat {
    if table == [] then 0 else Occupied(table[..|table| - 1]) + if Free(table[|table| - 1]) then 0 else 1
  }

  /** No free slot lies between an edge's home and the slot that holds it. */
  ghost predicate Reachable(table: seq<Entry>, m: nat)
    requires |table| == TABLE_SIZE && m < TABLE_SIZE
  {
    forall k :: 0 <= k < Gap(Home(table[m].src), m) ==> !Free(table[Slot(Home(table[m].src), k)])
  }

  ghost predicate WellPlaced(table: seq<Entry>) {
    && |table| == TABLE_SIZE
    && (forall m :: 0 <= m < TABLE_SIZE && !Free(table[m]) ==> Reachable(table, m))
    && (forall m, n :: 0 <= m < n < TABLE_SIZE && !Free(table[m]) && !Free(table[n]) ==>
          (table[m].src, table[m].dst) != (table[n].src, table[n].dst))
  }

  /** The table holds exactly these edges. */
  ghost predicate Holds(table: seq<Entry>, edges: map<Edge, real>)
    requires |table| == TABLE_SIZE
  {
    && (forall m :: 0 <= m < TABLE_SIZE && !Free(table[m]) ==>
          (table[m].src, table[m].dst) in edges && edges[(table[m].src, table[m].dst)] == table[m].prob)
    && (forall e :: e in edges ==>
          exists m :: 0 <= m < TABLE_SIZE && !Free(table[m]) && (table[m].src, table[m].dst) == e)
  }

  lemma {:induction false} OccupiedUpdate(table: seq<Entry>, n: nat, e: Entry)
    requires n < |table|
    ensures Occupied(table[n := e]) + (if Free(table[n]) then 0 else 1) == Occupied(table) + (if Free(e) then 0 else 1)
    decreases |table|
  {
    var last := |table| - 1;
    var t := table[n := e];
    if n == last {
      assert t[..last] == table[..last];
    } else {
      assert t[..last] == table[..last][n := e];
      OccupiedUpdate(table[..last], n, e);
    }
  }

  lemma {:induction false} AllOccupied(table: seq<Entry>)
    requires forall m :: 0 <= m < |table| ==> !Free(table[m])
    ensures Occupied(table) == |table|
    decreases |table|
  {
    if table != [] {
      AllOccupied(table[..|table| - 1]);
    }
  }

  lemma {:induction false} NoneOccupied(table: seq<Entry>)
    requires forall m :: 0 <= m < |table| ==> Free(table[m])
    ensures Occupied(table) == 0
    decreases |table|
  {
    if table != [] {
      NoneOccupied(table[..|table| - 1]);
    }
  }

  /** A probe that has seen every slot taken has not gone all the way round. */
  lemma ProbeEnds(table: seq<Entry>, h: nat, k: nat)
    requires |table| == TABLE_SIZE && Occupied(table) < TABLE_SIZE && h < TABLE_SIZE && k <= TABLE_SIZE
    requires forall j :: 0 <= j < k ==> !Free(table[Slot(h, j)])
    ensures k < TABLE_SIZE
  {
    if k == TABLE_SIZE {
      forall m | 0 <= m < TABLE_SIZE ensures !Free(table[m]) {
        assert !Free(table[Slot(h, Gap(h, m))]);
      }
      AllOccupied(table);
    }
  }

  // ---------- Insertion ----------

  /** The edges after an insertion: a self-loop leaves no trace. */
  function WithEdge(edges: map<Edge, real>, e: Entry): map<Edge, real> {
    if Free(e) then edges else edges[(e.src, e.dst) := e.prob]
  }

  function WithEdges(entries: seq<Entry>): map<Edge, real> {
    if entries == [] then map[] else WithEdge(WithEdges(entries[..|entries| - 1]), entries[|entries| - 1])
  }

  predicate Joins(e: Entry, x: Edge) {
    e.src == x.0 && e.dst == x.1 && x.0 != x.1
  }

  /** Main result: the edges are those of the entries that join two nodes, each with the probability given last. */
  lemma {:induction false} EdgesAre(entries: seq<Entry>, x: Edge)
    ensures x in WithEdges(entries) <==> exists i :: 0 <= i < |entries| && Joins(entries[i], x)
    ensures forall i :: 0 <= i < |entries| && Joins(entries[i], x) && (forall j :: i < j < |entries| ==> !Joins(entries[j], x)) ==>
              x in WithEdges(entries) && WithEdges(entries)[x] == entries[i].prob
    decreases |entries|
  {
    if entries != [] {
      var n := |entries| - 1;
      var front := entries[..n];
      EdgesAre(front, x);
      assert forall i :: 0 <= i < n ==> front[i] == entries[i];
      if Joins(entries[n], x) {
        assert x == (entries[n].src, entries[n].dst);
      }
    }
  }

  predicate SameEdge(a: Entry, b: Entry) {
    a.src == b.src && a.dst == b.dst
  }

  /** The probe's outcome: n is the first slot from home that is free or holds the same edge. */
  ghost predicate Found(table: seq<Entry>, e: Entry, n: nat)
    requires |table| == TABLE_SIZE && n < TABLE_SIZE
  {
    && (Free(table[n]) || SameEdge(table[n], e))
    && (forall k :: 0 <= k < Gap(Home(e.src), n) ==>
          !Free(table[Slot(Home(e.src), k)]) && !SameEdge(table[Slot(Home(e.src), k)], e))
  }

  /** A free slot found by the probe proves that the edge is nowhere in the table. */
  lemma FoundFreeIsNew(table: seq<Entry>, e: Entry, n: nat, m: nat)
    requires WellPlaced(table) && n < TABLE_SIZE && m < TABLE_SIZE
    requires Found(table, e, n) && Free(table[n]) && !Free(table[m])
    ensures (table[m].src, table[m].dst) != (e.src, e.dst)
  {
    var h := Home(e.src);
    assert Slot(h, Gap(h, m)) == m && Slot(h, Gap(h, n)) == n;
    assert Reachable(table, m);
  }

  lemma WriteKeepsPlaces(table: seq<Entry>, e: Entry, n: nat)
    requires WellPlaced(table) && n < TABLE_SIZE && Found(table, e, n)
    requires Free(e) ==> Free(table[n])
    ensures WellPlaced(table[n := e])
  {
    var t := table[n := e];
    forall m | 0 <= m < TABLE_SIZE && !Free(t[m]) ensures Reachable(t, m) {
      var h := Home(t[m].src);
      if m != n {
        assert Reachable(table, m);
      }
      forall k | 0 <= k < Gap(h, m) ensures !Free(t[Slot(h, k)]) {
        assert !Free(table[Slot(h, k)]);
      }
    }
    forall m, k | 0 <= m < k < TABLE_SIZE && !Free(t[m]) && !Free(t[k])
      ensures (t[m].src, t[m].dst) != (t[k].src, t[k].dst)
    {
      if Free(table[n]) && (m == n || k == n) {
        FoundFreeIsNew(table, e, n, if m == n then k else m);
      }
    }
  }

  lemma WriteAddsEdge(table: seq<Entry>, e: Entry, n: nat, edges: map<Edge, real>)
    requires WellPlaced(table) && n < TABLE_SIZE && Found(table, e, n) && Holds(table, edges)
    requires Free(e) ==> Free(table[n])
    ensures Holds(table[n := e], WithEdge(edges, e))
  {
    var t, after := table[n := e], WithEdge(edges, e);
    forall m | 0 <= m < TABLE_SIZE && !Free(t[m])
      ensures (t[m].src, t[m].dst) in after && after[(t[m].src, t[m].dst)] == t[m].prob
    {
      if m != n && (t[m].src, t[m].dst) == (e.src, e.dst) && Free(table[n]) {
        FoundFreeIsNew(table, e, n, m);
      }
    }
    forall x | x in after
      ensures exists m :: 0 <= m < TABLE_SIZE && !Free(t[m]) && (t[m].src, t[m].dst) == x
    {
      if !Free(e) && x == (e.src, e.dst) {
        assert !Free(t[n]);
      } else {
        var m :| 0 <= m < TABLE_SIZE && !Free(table[m]) && (table[m].src, table[m].dst) == x;
        assert m != n;
        assert t[m] == table[m];
      }
    }
  }

  // ---------- Sequences of insertions ----------

  datatype State = State(table: seq<Entry>, entries: nat, maxId: nat)

  /** Where the probe stops: k counts the places already passed. */
  function Target(table: seq<Entry>, e: Entry, k: nat): (n: nat)
    requires |table| == TABLE_SIZE && k < TABLE_SIZE
    ensures n < TABLE_SIZE
    decreases TABLE_SIZE - k
  {
    var n := Slot(Home(e.src), k);
    if Free(table[n]) || SameEdge(table[n], e) || k + 1 == TABLE_SIZE then n
    else Target(table, e, k + 1)
  }

  lemma TargetStep(table: seq<Entry>, e: Entry, k: nat)
    requires |table| == TABLE_SIZE && k < TABLE_SIZE
    ensures var n := Slot(Home(e.src), k);
            Target(table, e, k)
            == if Free(table[n]) || SameEdge(table[n], e) || k + 1 == TABLE_SIZE then n else Target(table, e, k + 1)
  {
  }

  lemma SameEdgeFree(a: Entry, b: Entry)
    requires SameEdge(a, b)
    ensures Free(a) == Free(b)
  {
  }

  function Max(a: nat, b: nat): nat {
    if a > b then a else b
  }

  /** One insertion; None when the source's assertion on the number of entries fails. */
  function Insertion(st: State, e: Entry): Option<State>
    requires |st.table| == TABLE_SIZE
  {
    if st.entries >= MAX_ENTRIES then None else
    var n := Target(st.table, e, 0);
    if Free(st.table[n]) then
      Some(State(st.table[n := e], st.entries + 1, Max(Max(st.maxId, e.src), e.dst)))
    else
      Some(st.(table := st.table[n := e]))
  }

  function EmptyTable(): seq<Entry> {
    seq(TABLE_SIZE, _ => EMPTY)
  }

  const NEW_STATE := State(EmptyTable(), 0, 0)

  function Insertions(entries: seq<Entry>): (r: Option<State>)
    ensures r.Some? ==> |r.value.table| == TABLE_SIZE
  {
    if entries == [] then Some(NEW_STATE) else
    match Insertions(entries[..|entries| - 1])
    case None => None
    case Some(st) => Insertion(st, entries[|entries| - 1])
  }

  /** How many self-loops there are: each uses up an entry and leaves no edge. */
  function Loops(entries: seq<Entry>): nat {
    if entries == [] then 0 else Loops(entries[..|entries| - 1]) + if Free(entries[|entries| - 1]) then 1 else 0
  }

  /** The largest id in any of the entries. */
  function Largest(entries: seq<Entry>): nat {
    if entries == [] then 0
    else
      var e := entries[|entries| - 1];
      Max(Max(Largest(entries[..|entries| - 1]), e.src), e.dst)
  }

  /** What a state reached by insertions stands for: the edges, the number of self-loops seen, the largest id seen. */
  ghost predicate Represents(st: State, edges: map<Edge, real>, loops: nat, largest: nat) {
    && WellPlaced(st.table)
    && Holds(st.table, edges)
    && Occupied(st.table) <= st.entries <= MAX_ENTRIES
    && st.entries == |edges| + loops && st.maxId == largest
    && (forall e :: e in edges ==> e.0 <= st.maxId && e.1 <= st.maxId)
  }

  lemma {:induction false} TargetFound(table: seq<Entry>, e: Entry, k: nat)
    requires |table| == TABLE_SIZE && k < TABLE_SIZE && Occupied(table) < TABLE_SIZE
    requires forall j :: 0 <= j < k ==>
               !Free(table[Slot(Home(e.src), j)]) && !SameEdge(table[Slot(Home(e.src), j)], e)
    ensures Found(table, e, Target(table, e, k))
    decreases TABLE_SIZE - k
  {
    var h := Home(e.src);
    var n := Slot(h, k);
    assert Gap(h, n) == k;
    if !Free(table[n]) {
      ProbeEnds(table, h, k + 1);
      if !SameEdge(table[n], e) {
        TargetFound(table, e, k + 1);
      }
    }
  }

  lemma InsertionRepresents(st: State, e: Entry, edges: map<Edge, real>, loops: nat, largest: nat)
    requires Represents(st, edges, loops, largest) && Insertion(st, e).Some?
    ensures Represents(Insertion(st, e).value, WithEdge(edges, e), loops + (if Free(e) then 1 else 0),
                       Max(Max(largest, e.src), e.dst))
  {
    hide Holds, WellPlaced;
    PlacedSize(st.table);
    var n := Target(st.table, e, 0);
    TargetFound(st.table, e, 0);
    WriteKeepsPlaces(st.table, e, n);
    WriteAddsEdge(st.table, e, n, edges);
    OccupiedUpdate(st.table, n, e);
    if !Free(st.table[n]) {
      OverwrittenIsKnown(st.table, e, n, edges);
    } else {
      FreeIsUnknown(st.table, e, n, edges);
    }
    SizeWithEdge(edges, e);
  }

  lemma FreeIsUnknown(table: seq<Entry>, e: Entry, n: nat, edges: map<Edge, real>)
    requires WellPlaced(table) && n < TABLE_SIZE && Found(table, e, n) && Holds(table, edges) && Free(table[n])
    ensures (e.src, e.dst) !in edges
  {
    PlacedSize(table);
    hide WellPlaced, Found, Free;
    if (e.src, e.dst) in edges {
      var m :| 0 <= m < TABLE_SIZE && !Free(table[m]) && (table[m].src, table[m].dst) == (e.src, e.dst);
      FoundFreeIsNew(table, e, n, m);
    }
  }

  lemma SizeWithEdge(edges: map<Edge, real>, e: Entry)
    ensures |WithEdge(edges, e)| == |edges| + if Free(e) || (e.src, e.dst) in edges then 0 else 1
  {
    assert (e.src, e.dst) in edges ==> edges[(e.src, e.dst) := e.prob].Keys == edges.Keys;
    assert edges[(e.src, e.dst) := e.prob].Keys == edges.Keys + {(e.src, e.dst)};
  }

  lemma PlacedSize(table: seq<Entry>)
    requires WellPlaced(table)
    ensures |table| == TABLE_SIZE
  {
  }

  lemma OverwrittenIsKnown(table: seq<Entry>, e: Entry, n: nat, edges: map<Edge, real>)
    requires WellPlaced(table) && n < TABLE_SIZE && Found(table, e, n) && Holds(table, edges) && !Free(table[n])
    ensures (e.src, e.dst) in edges && !Free(e)
  {
  }

  lemma {:induction false} InsertionsRepresent(entries: seq<Entry>)
    requires Insertions(entries).Some?
    ensures Represents(Insertions(entries).value, WithEdges(entries), Loops(entries), Largest(entries))
    decreases |entries|
  {
    if entries == [] {
      NoneOccupied(NEW_STATE.table);
    } else {
      hide Represents, Insertion, WithEdge, Free, Max;
      var front := entries[..|entries| - 1];
      InsertionsRepresent(front);
      InsertionRepresents(Insertions(front).value, entries[|entries| - 1], WithEdges(front), Loops(front), Largest(front));
    }
  }

  /** Main result: the counter of entries is the number of edges and of self-loops inserted; the largest id is exact. */
  lemma CountersAreExact(entries: seq<Entry>)
    requires Insertions(entries).Some?
    ensures Insertions(entries).value.entries == |WithEdges(entries)| + Loops(entries)
    ensures Insertions(entries).value.maxId == Largest(entries)
  {
    InsertionsRepresent(entries);
  }

  lemma {:induction false} LargestIs(entries: seq<Entry>)
    ensures forall e :: e in entries ==> e.src <= Largest(entries) && e.dst <= Largest(entries)
    ensures entries != [] ==> exists e :: e in entries && (e.src == Largest(entries) || e.dst == Largest(entries))
    decreases |entries|
  {
    if entries != [] {
      var front, last := entries[..|entries| - 1], entries[|entries| - 1];
      LargestIs(front);
      assert entries == front + [last];
      if Largest(entries) != last.src && Largest(entries) != last.dst {
        assert Largest(entries) == Largest(front) > 0;
        var e :| e in front && (e.src == Largest(front) || e.dst == Largest(front));
        assert e in entries;
      } else {
        assert last in entries;
      }
    }
  }

  /** How much of the room for entries is used up. */
  function Recorded(entries: seq<Entry>): nat {
    |WithEdges(entries)| + Loops(entries)
  }

  lemma RecordedGrows(entries: seq<Entry>)
    requires entries != []
    ensures Recorded(entries[..|entries| - 1]) <= Recorded(entries)
  {
    SizeWithEdge(WithEdges(entries[..|entries| - 1]), entries[|entries| - 1]);
  }

  /**
   Main result: the assertion on the number of entries fails on some insertion exactly if
   all entries but the last make up 9000, each edge counted once and each self-loop as often as it comes.
   */
  lemma {:induction false} InsertionsFailIff(entries: seq<Entry>)
    ensures Insertions(entries).None? <==> entries != [] && Recorded(entries[..|entries| - 1]) >= MAX_ENTRIES
    decreases |entries|
  {
    hide WithEdges, Loops, Recorded, Insertion;
    if entries != [] {
      var front := entries[..|entries| - 1];
      InsertionsFailIff(front);
      if Insertions(front).Some? {
        FailsIffFull(front, entries[|entries| - 1]);
      } else {
        RecordedGrows(front);
      }
    }
  }

  lemma FailsIffFull(front: seq<Entry>, e: Entry)
    requires Insertions(front).Some?
    ensures Insertion(Insertions(front).value, e).None? <==> Recorded(front) >= MAX_ENTRIES
  {
    hide Insertions, WithEdges, Loops;
    CountersAreExact(front);
  }

  // ---------- Iteration ----------

  /** What an iterator at slot n still returns: the entries with its source, up to the next free slot. */
  function Remaining(table: seq<Entry>, src: nat, n: nat, k: nat): seq<Entry>
    requires |table| == TABLE_SIZE && n < TABLE_SIZE
    decreases k
  {
    if k == 0 || Free(table[n]) then []
    else (if table[n].src == src then [table[n]] else []) + Remaining(table, src, After(n), k - 1)
  }

  lemma SlotNext(h: nat, k: nat)
    requires h < TABLE_SIZE && k < TABLE_SIZE
    ensures Slot(h, k + 1) == After(Slot(h, k))
  {
  }

  /** The entry sits in one of the slots k to end of its source's probe sequence. */
  ghost predicate StoredBetween(table: seq<Entry>, src: nat, k: nat, end: nat, e: Entry)
    requires |table| == TABLE_SIZE && end < TABLE_SIZE
  {
    e.src == src && exists j :: k <= j < end && table[Slot(Home(src), j)] == e
  }

  lemma RemainingStep(table: seq<Entry>, src: nat, n: nat, k: nat)
    requires |table| == TABLE_SIZE && n < TABLE_SIZE && k > 0
    ensures Remaining(table, src, n, k)
            == if Free(table[n]) then []
               else (if table[n].src == src then [table[n]] else []) + Remaining(table, src, After(n), k - 1)
  {
  }

  /** An iterator k places from home returns exactly the entries of its source before the next free slot. */
  lemma {:induction false} RemainingIs(table: seq<Entry>, src: nat, k: nat, end: nat, e: Entry)
    requires |table| == TABLE_SIZE && k <= end < TABLE_SIZE
    requires Free(table[Slot(Home(src), end)])
    requires forall j :: k <= j < end ==> !Free(table[Slot(Home(src), j)])
    ensures e in Remaining(table, src, Slot(Home(src), k), TABLE_SIZE - k) <==> StoredBetween(table, src, k, end, e)
    decreases end - k
  {
    hide Remaining, Free, StoredBetween;
    RemainingStep(table, src, Slot(Home(src), k), TABLE_SIZE - k);
    if k == end {
      StoredNowhere(table, src, k, e);
    } else {
      SlotNext(Home(src), k);
      RemainingIs(table, src, k + 1, end, e);
      StoredFirst(table, src, k, end, e);
    }
  }

  lemma StoredNowhere(table: seq<Entry>, src: nat, k: nat, e: Entry)
    requires |table| == TABLE_SIZE && k < TABLE_SIZE
    ensures !StoredBetween(table, src, k, k, e)
  {
  }

  lemma StoredFirst(table: seq<Entry>, src: nat, k: nat, end: nat, e: Entry)
    requires |table| == TABLE_SIZE && k < end < TABLE_SIZE
    ensures StoredBetween(table, src, k, end, e)
            <==> (e.src == src && table[Slot(Home(src), k)] == e) || StoredBetween(table, src, k + 1, end, e)
  {
    if StoredBetween(table, src, k, end, e) {
      var j :| k <= j < end && table[Slot(Home(src), j)] == e;
      assert j == k || k + 1 <= j;
    }
  }

  lemma SlotsDiffer(table: seq<Entry>, src: nat, i: nat, j: nat)
    requires WellPlaced(table) && i < j < TABLE_SIZE
    requires !Free(table[Slot(Home(src), i)]) && !Free(table[Slot(Home(src), j)])
    requires table[Slot(Home(src), i)].src == src == table[Slot(Home(src), j)].src
    ensures table[Slot(Home(src), i)].dst != table[Slot(Home(src), j)].dst
  {
    var m, n := Slot(Home(src), i), Slot(Home(src), j);
    assert m != n;
  }

  /** Distinct slots hold distinct edges, so no destination is returned twice. */
  lemma {:induction false} RemainingDistinct(table: seq<Entry>, src: nat, k: nat, end: nat)
    requires WellPlaced(table) && k <= end < TABLE_SIZE
    requires Free(table[Slot(Home(src), end)])
    requires forall j :: k <= j < end ==> !Free(table[Slot(Home(src), j)])
    ensures DistinctEnds(Remaining(table, src, Slot(Home(src), k), TABLE_SIZE - k))
    decreases end - k
  {
    PlacedSize(table);
    hide WellPlaced, Free, Remaining, DistinctEnds;
    var h := Home(src);
    RemainingStep(table, src, Slot(h, k), TABLE_SIZE - k);
    if k == end {
      DistinctNone();
    } else {
      SlotNext(h, k);
      RemainingDistinct(table, src, k + 1, end);
      var rest := Remaining(table, src, Slot(h, k + 1), TABLE_SIZE - k - 1);
      var e0 := table[Slot(h, k)];
      if e0.src == src {
        forall e | e in rest ensures e.dst != e0.dst {
          LaterDiffers(table, src, k, end, e);
        }
        DistinctPrepend(e0, rest);
      } else {
        assert [] + rest == rest;
      }
    }
  }

  lemma LaterDiffers(table: seq<Entry>, src: nat, k: nat, end: nat, e: Entry)
    requires WellPlaced(table) && k < end < TABLE_SIZE && table[Slot(Home(src), k)].src == src
    requires Free(table[Slot(Home(src), end)])
    requires forall j :: k <= j < end ==> !Free(table[Slot(Home(src), j)])
    requires e in Remaining(table, src, Slot(Home(src), k + 1), TABLE_SIZE - k - 1)
    ensures e.dst != table[Slot(Home(src), k)].dst
  {
    PlacedSize(table);
    hide WellPlaced, Free, Remaining;
    RemainingIs(table, src, k + 1, end, e);
    var j :| k + 1 <= j < end && table[Slot(Home(src), j)] == e;
    SlotsDiffer(table, src, k, j);
  }

  lemma DistinctNone()
    ensures DistinctEnds([])
  {
  }

  lemma DistinctPrepend(e: Entry, rest: seq<Entry>)
    requires DistinctEnds(rest) && forall x :: x in rest ==> x.dst != e.dst
    ensures DistinctEnds([e] + rest)
  {
  }

  ghost predicate DistinctEnds(out: seq<Entry>) {
    forall i, j :: 0 <= i < j < |out| ==> out[i].dst != out[j].dst
  }

  lemma FreeSlotAhead(table: seq<Entry>, n: nat) returns (end: nat)
    requires |table| == TABLE_SIZE && Occupied(table) < TABLE_SIZE && n < TABLE_SIZE
    ensures end < TABLE_SIZE && Free(table[Slot(n, end)])
    ensures forall j :: 0 <= j < end ==> !Free(table[Slot(n, j)])
  {
    end := 0;
    ProbeEnds(table, n, 0);
    while !Free(table[Slot(n, end)])
      invariant end < TABLE_SIZE
      invariant forall j :: 0 <= j < end ==> !Free(table[Slot(n, j)])
      decreases TABLE_SIZE - end
    {
      ProbeEnds(table, n, end + 1);
      end := end + 1;
    }
  }

  /** An edge of this source lies in the run of taken slots that starts at its home. */
  lemma EdgeInRun(table: seq<Entry>, m: nat, end: nat)
    requires WellPlaced(table) && m < TABLE_SIZE && end < TABLE_SIZE && !Free(table[m])
    requires Free(table[Slot(Home(table[m].src), end)])
    ensures Gap(Home(table[m].src), m) < end
  {
    assert Reachable(table, m);
    assert Slot(Home(table[m].src), Gap(Home(table[m].src), m)) == m;
  }

  predicate IsEdge(e: Entry, src: nat, edges: map<Edge, real>) {
    e.src == src && (src, e.dst) in edges && edges[(src, e.dst)] == e.prob
  }

  /** The list names each edge from src exactly once, with its probability. */
  ghost predicate ListsEdges(out: seq<Entry>, src: nat, edges: map<Edge, real>) {
    && DistinctEnds(out)
    && (forall e :: e in out <==> IsEdge(e, src, edges))
  }

  /** Main result: after any insertions, iterating on src returns each inserted edge from src once, with its latest probability. */
  lemma IterationIsExact(entries: seq<Entry>, src: nat)
    requires Insertions(entries).Some?
    ensures ListsEdges(Remaining(Insertions(entries).value.table, src, Home(src), TABLE_SIZE), src, WithEdges(entries))
  {
    hide Insertions, WithEdges, WellPlaced, Holds, DistinctEnds, Remaining, Free;
    InsertionsRepresent(entries);
    var st, edges := Insertions(entries).value, WithEdges(entries);
    var end := FreeSlotAhead(st.table, Home(src));
    assert Slot(Home(src), 0) == Home(src);
    RemainingDistinct(st.table, src, 0, end);
    hide IsEdge;
    forall e ensures e in Remaining(st.table, src, Home(src), TABLE_SIZE) <==> IsEdge(e, src, edges) {
      ReturnedIffEdge(st.table, edges, src, end, e);
    }
  }

  lemma ReturnedIffEdge(table: seq<Entry>, edges: map<Edge, real>, src: nat, end: nat, e: Entry)
    requires |table| == TABLE_SIZE && end < TABLE_SIZE && Free(table[Slot(Home(src), end)])
    requires forall j :: 0 <= j < end ==> !Free(table[Slot(Home(src), j)])
    requires WellPlaced(table) && Holds(table, edges)
    ensures e in Remaining(table, src, Home(src), TABLE_SIZE) <==> IsEdge(e, src, edges)
  {
    hide *;
    FirstSlot(Home(src));
    RemainingIs(table, src, 0, end, e);
    if StoredBetween(table, src, 0, end, e) {
      ProbedIsEdge(table, edges, src, end, e);
    }
    if IsEdge(e, src, edges) {
      EdgeIsProbed(table, edges, src, end, e);
    }
  }

  lemma FirstSlot(h: nat)
    requires h < TABLE_SIZE
    ensures Slot(h, 0) == h
  {
  }

  lemma ProbedIsEdge(table: seq<Entry>, edges: map<Edge, real>, src: nat, end: nat, e: Entry)
    requires |table| == TABLE_SIZE && Holds(table, edges) && end < TABLE_SIZE
    requires forall j :: 0 <= j < end ==> !Free(table[Slot(Home(src), j)])
    requires StoredBetween(table, src, 0, end, e)
    ensures IsEdge(e, src, edges)
  {
    hide Free, Holds, Slot, Home;
    var j :| 0 <= j < end && table[Slot(Home(src), j)] == e;
    StoredIsEdge(table, Slot(Home(src), j), edges);
  }

  /** An edge lies in the run of taken slots from its home. */
  lemma EdgeIsProbed(table: seq<Entry>, edges: map<Edge, real>, src: nat, end: nat, e: Entry)
    requires WellPlaced(table) && |table| == TABLE_SIZE && Holds(table, edges) && IsEdge(e, src, edges)
    requires end < TABLE_SIZE && Free(table[Slot(Home(src), end)])
    ensures StoredBetween(table, src, 0, end, e)
  {
    var h := Home(src);
    var m := EdgeIsStored(table, e, src, edges);
    hide Holds, Free, Home;
    EdgeInRun(table, m, end);
    hide WellPlaced;
    assert table[Slot(h, Gap(h, m))] == e;
  }

  lemma StoredIsEdge(table: seq<Entry>, m: nat, edges: map<Edge, real>)
    requires |table| == TABLE_SIZE && m < TABLE_SIZE && !Free(table[m]) && Holds(table, edges)
    ensures IsEdge(table[m], table[m].src, edges)
  {
  }

  lemma EdgeIsStored(table: seq<Entry>, e: Entry, src: nat, edges: map<Edge, real>) returns (m: nat)
    requires |table| == TABLE_SIZE && IsEdge(e, src, edges) && Holds(table, edges)
    ensures m < TABLE_SIZE && !Free(table[m]) && table[m] == e
  {
    m :| 0 <= m < TABLE_SIZE && !Free(table[m]) && (table[m].src, table[m].dst) == (src, e.dst);
  }

  // ---------- The index and its iterator ----------

  class Index {
    var table: array<Entry>
    var entries: nat
    var maxId: nat

    ghost predicate Valid()
      reads this, table
    {
      && table.Length == TABLE_SIZE
      && Occupied(table[..]) <= entries <= MAX_ENTRIES
    }

    function Value(): State
      reads this, table
    {
      State(table[..], entries, maxId)
    }

    constructor ()
      ensures Valid() && fresh(table) && Value() == NEW_STATE
    {
      table := new Entry[TABLE_SIZE](_ => EMPTY);
      entries := 0;
      maxId := 0;
      new;
      assert table[..] == NEW_STATE.table;
      NoneOccupied(table[..]);
    }

    /** The source asserts that the index is below its limit. */
    method Insert(e: Entry)
      requires Valid() && entries < MAX_ENTRIES
      modifies this, table
      ensures Valid() && table == old(table)
      ensures Some(Value()) == Insertion(old(Value()), e)
    {
      hide Occupied, Target, Free;
      ghost var before := table[..];
      var n := (TABLE_OFFSET * e.src) % TABLE_SIZE;
      ghost var k := 0;
      while !Free(table[n])
        invariant k < TABLE_SIZE && n == Slot(Home(e.src), k)
        invariant forall j :: 0 <= j < k ==> !Free(before[Slot(Home(e.src), j)])
        invariant Target(before, e, k) == Target(before, e, 0)
        invariant table == old(table) && table[..] == before && Value() == old(Value())
        decreases TABLE_SIZE - k
      {
        ProbeEnds(before, Home(e.src), k + 1);
        TargetStep(before, e, k);
        if SameEdge(table[n], e) {
          OccupiedUpdate(before, n, e);
          SameEdgeFree(before[n], e);
          table[n] := e;
          assert table[..] == before[n := e];
          return;
        }
        SlotNext(Home(e.src), k);
        n := (n + 1) % TABLE_SIZE;
        k := k + 1;
      }
      TargetStep(before, e, k);
      OccupiedUpdate(before, n, e);
      table[n] := e;
      assert table[..] == before[n := e];
      entries := entries + 1;
      if e.src > maxId {
        maxId := e.src;
      }
      if e.dst > maxId {
        maxId := e.dst;
      }
    }
  }

  lemma {:induction false} FuelIsEnough(table: seq<Entry>, src: nat, n: nat, k: nat, end: nat)
    requires |table| == TABLE_SIZE && n < TABLE_SIZE && end < k && end < TABLE_SIZE
    requires Free(table[Slot(n, end)])
    ensures Remaining(table, src, n, k) == Remaining(table, src, n, end)
    decreases end
  {
    hide Remaining, Free;
    assert Slot(n, 0) == n;
    RemainingStep(table, src, n, k);
    if end == 0 {
      RemainingNone(table, src, n);
    } else {
      RemainingStep(table, src, n, end);
      assert Slot(After(n), end - 1) == Slot(n, end);
      FuelIsEnough(table, src, After(n), k - 1, end - 1);
    }
  }

  lemma RemainingNone(table: seq<Entry>, src: nat, n: nat)
    requires |table| == TABLE_SIZE && n < TABLE_SIZE
    ensures Remaining(table, src, n, 0) == []
  {
  }

  lemma Advance(table: seq<Entry>, src: nat, n: nat, end: nat)
    requires |table| == TABLE_SIZE && n < TABLE_SIZE && end < TABLE_SIZE
    requires Free(table[Slot(n, end)]) && !Free(table[n])
    ensures end > 0 && Slot(After(n), end - 1) == Slot(n, end)
    ensures Remaining(table, src, n, TABLE_SIZE)
            == (if table[n].src == src then [table[n]] else []) + Remaining(table, src, After(n), TABLE_SIZE)
  {
    hide Remaining, Free;
    assert Slot(n, 0) == n;
    RemainingStep(table, src, n, TABLE_SIZE);
    FuelIsEnough(table, src, After(n), TABLE_SIZE, end - 1);
    FuelIsEnough(table, src, After(n), TABLE_SIZE - 1, end - 1);
  }

  class Iterator {
    const topo: Index
    const src: nat
    var offs: nat

    ghost predicate Valid()
      reads this, topo, topo.table
    {
      topo.Valid() && offs < TABLE_SIZE
    }

    /** What later calls of Next return. */
    ghost function Todo(): seq<Entry>
      requires Valid()
      reads this, topo, topo.table
    {
      Remaining(topo.table[..], src, offs, TABLE_SIZE)
    }

    constructor (topo: Index, src: nat)
      requires topo.Valid()
      ensures Valid() && this.topo == topo && this.src == src
      ensures Todo() == Remaining(topo.table[..], src, Home(src), TABLE_SIZE)
    {
      this.topo := topo;
      this.src := src;
      offs := (TABLE_OFFSET * src) % TABLE_SIZE;
    }

    /** The next entry of this source, or None at a free slot, where the iterator then stays. */
    method Next() returns (entry: Option<Entry>)
      requires Valid()
      modifies this
      ensures Valid()
      ensures old(Todo()) == [] ==> entry == None && Todo() == []
      ensures old(Todo()) != [] ==> entry == Some(old(Todo())[0]) && Todo() == old(Todo())[1..]
    {
      hide Remaining, Free;
      ghost var table := topo.table[..];
      ghost var end: nat := FreeSlotAhead(table, offs);
      while true
        invariant Valid() && topo.table[..] == table
        invariant end < TABLE_SIZE && Free(table[Slot(offs, end)])
        invariant Todo() == old(Todo())
        decreases end
      {
        var e := topo.table[offs];
        if Free(e) {
          RemainingStep(table, src, offs, TABLE_SIZE);
          return None;
        }
        Advance(table, src, offs, end);
        offs := (offs + 1) % TABLE_SIZE;
        end := end - 1;
        if e.src == src {
          return Some(e);
        }
      }
    }
  }
}
