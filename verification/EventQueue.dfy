/**
 The simulator's event queue (radio2/src/queue.c): a binary heap in an array that is
 doubled when full and halved when less than a fifth full.

 The in-place loops are tied to functions on sequences (Inserted, Popped); lemmas about
 those functions say what a priority queue promises.
 */
module EventQueue {

  import opened Wrappers

  const VTIME_INF: nat := 0xFFFF_FFFF_FFFF_FFFF
  const SIZE_MIN: nat := 1024
  const SIZE_MAX: nat := 1024 * 1024

  /** An entry: when, for which node, and the packet that arrives (none for a timer). */
  datatype Event = Event(vtime: nat, node: Option<nat>, packet: Option<nat>)

  const NULL_EVENT := Event(VTIME_INF, None, None)

  // ---------- The heap as a sequence ----------

  function Parent(i: nat): nat
    requires i > 0
  {
    (i + 1) / 2 - 1
  }

  function Left(i: nat): nat {
    (i + 1) * 2 - 1
  }

  function Right(i: nat): nat {
    (i + 1) * 2
  }

  ghost predicate Heap(s: seq<Event>) {
    forall j :: 0 < j < |s| ==> s[Parent(j)].vtime <= s[j].vtime
  }

  function Swap(s: seq<Event>, i: nat, j: nat): (t: seq<Event>)
    requires i < |s| && j < |s|
    ensures |t| == |s|
  {
    s[i := s[j]][j := s[i]]
  }

  /** An event moves towards the root while its parent is later. */
  function SiftUp(s: seq<Event>, i: nat): (t: seq<Event>)
    requires i < |s|
    ensures |t| == |s|
    decreases i
  {
    if i > 0 && s[i].vtime < s[Parent(i)].vtime then SiftUp(Swap(s, i, Parent(i)), Parent(i)) else s
  }

  /** The earliest of a slot and its children; the slot itself on a tie, else the left child. */
  function Earliest(s: seq<Event>, i: nat): (x: nat)
    requires i < |s|
    ensures x < |s| && (x == i || x == Left(i) || x == Right(i))
  {
    var x := if Left(i) < |s| && s[Left(i)].vtime < s[i].vtime then Left(i) else i;
    if Right(i) < |s| && s[Right(i)].vtime < s[x].vtime then Right(i) else x
  }

  /** An event moves towards the leaves while a child is earlier. */
  function SiftDown(s: seq<Event>, i: nat): (t: seq<Event>)
    requires i < |s|
    ensures |t| == |s|
    decreases |s| - i
  {
    var x := Earliest(s, i);
    if x == i then s else SiftDown(Swap(s, x, i), x)
  }

  function Inserted(s: seq<Event>, event: Event): seq<Event> {
    SiftUp(s + [event], |s|)
  }

  function Popped(s: seq<Event>): seq<Event>
    requires s != []
  {
    var n := |s| - 1;
    if n == 0 then [] else SiftDown(s[..n][0 := s[n]], 0)
  }

  // ---------- Order ----------

  /** A heap but for slot i, which may be too early for its place. */
  ghost predicate HeapBelow(s: seq<Event>, i: nat) {
    && (forall j :: 0 < j < |s| && j != i ==> s[Parent(j)].vtime <= s[j].vtime)
    && (forall j :: 0 < j < |s| && i > 0 && Parent(j) == i ==> s[Parent(i)].vtime <= s[j].vtime)
  }

  lemma SiftUpStep(s: seq<Event>, i: nat)
    requires i < |s|
    ensures SiftUp(s, i)
            == if i > 0 && s[i].vtime < s[Parent(i)].vtime then SiftUp(Swap(s, i, Parent(i)), Parent(i)) else s
  {
  }

  lemma SwapMovesDefectUp(s: seq<Event>, i: nat)
    requires 0 < i < |s| && HeapBelow(s, i) && s[i].vtime < s[Parent(i)].vtime
    ensures HeapBelow(Swap(s, i, Parent(i)), Parent(i))
  {
    var p, t := Parent(i), Swap(s, i, Parent(i));
    forall j | 0 < j < |s| && j != p ensures t[Parent(j)].vtime <= t[j].vtime {
      if Parent(j) == p && j != i {
        assert s[p].vtime <= s[j].vtime;
      }
    }
    forall j | 0 < j < |s| && p > 0 && Parent(j) == p ensures t[Parent(p)].vtime <= t[j].vtime {
      assert s[Parent(p)].vtime <= s[p].vtime;
    }
  }

  lemma {:induction false} SiftUpHeap(s: seq<Event>, i: nat)
    requires i < |s| && HeapBelow(s, i)
    ensures Heap(SiftUp(s, i))
    decreases i
  {
    if i > 0 && s[i].vtime < s[Parent(i)].vtime {
      SwapMovesDefectUp(s, i);
      hide HeapBelow;
      SiftUpHeap(Swap(s, i, Parent(i)), Parent(i));
    }
  }

  /** A heap but for slot i, which may be too late for its place. */
  ghost predicate HeapAbove(s: seq<Event>, i: nat) {
    && (forall j :: 0 < j < |s| && Parent(j) != i ==> s[Parent(j)].vtime <= s[j].vtime)
    && (forall j :: 0 < j < |s| && i > 0 && Parent(j) == i ==> s[Parent(i)].vtime <= s[j].vtime)
  }

  lemma SwapMovesDefectDown(s: seq<Event>, i: nat)
    requires i < |s| && HeapAbove(s, i) && Earliest(s, i) != i
    ensures HeapAbove(Swap(s, Earliest(s, i), i), Earliest(s, i))
  {
    var x := Earliest(s, i);
    var t := Swap(s, x, i);
    assert Parent(x) == i;
    forall j | 0 < j < |s| && Parent(j) != x ensures t[Parent(j)].vtime <= t[j].vtime {
      if j == i {
        assert s[Parent(i)].vtime <= s[x].vtime;
      } else if Parent(j) == i {
        assert j == Left(i) || j == Right(i);
      }
    }
    forall j | 0 < j < |s| && Parent(j) == x ensures t[Parent(x)].vtime <= t[j].vtime {
      assert s[x].vtime <= s[j].vtime;
    }
  }

  lemma {:induction false} SiftDownHeap(s: seq<Event>, i: nat)
    requires i < |s| && HeapAbove(s, i)
    ensures Heap(SiftDown(s, i))
    decreases |s| - i
  {
    var x := Earliest(s, i);
    if x != i {
      SwapMovesDefectDown(s, i);
      hide HeapAbove;
      SiftDownHeap(Swap(s, x, i), x);
    }
  }

  /** Inserting into a heap gives a heap. */
  lemma InsertedHeap(s: seq<Event>, event: Event)
    requires Heap(s)
    ensures Heap(Inserted(s, event))
  {
    SiftUpHeap(s + [event], |s|);
  }

  /** Popping from a heap leaves a heap. */
  lemma PoppedHeap(s: seq<Event>)
    requires Heap(s) && s != []
    ensures Heap(Popped(s))
  {
    var n := |s| - 1;
    if n > 0 {
      SiftDownHeap(s[..n][0 := s[n]], 0);
    }
  }

  /** The root of a heap is earliest. */
  lemma {:induction false} RootIsEarliest(s: seq<Event>, j: nat)
    requires Heap(s) && j < |s|
    ensures s[0].vtime <= s[j].vtime
    decreases j
  {
    if j > 0 {
      RootIsEarliest(s, Parent(j));
    }
  }

  // ---------- Contents ----------

  lemma SwapContents(s: seq<Event>, i: nat, j: nat)
    requires i < |s| && j < |s|
    ensures multiset(Swap(s, i, j)) == multiset(s)
  {
  }

  lemma {:induction false} SiftUpContents(s: seq<Event>, i: nat)
    requires i < |s|
    ensures multiset(SiftUp(s, i)) == multiset(s)
    decreases i
  {
    if i > 0 && s[i].vtime < s[Parent(i)].vtime {
      SwapContents(s, i, Parent(i));
      SiftUpContents(Swap(s, i, Parent(i)), Parent(i));
    }
  }

  lemma {:induction false} SiftDownContents(s: seq<Event>, i: nat)
    requires i < |s|
    ensures multiset(SiftDown(s, i)) == multiset(s)
    decreases |s| - i
  {
    var x := Earliest(s, i);
    if x != i {
      SwapContents(s, x, i);
      SiftDownContents(Swap(s, x, i), x);
    }
  }

  /** Insertion adds exactly the event. */
  lemma InsertedContents(s: seq<Event>, event: Event)
    ensures multiset(Inserted(s, event)) == multiset(s) + multiset{event}
  {
    SiftUpContents(s + [event], |s|);
  }

  function Without(bag: multiset<Event>, e: Event): multiset<Event> {
    bag - multiset{e}
  }

  /** Popping removes exactly the root. */
  lemma PoppedContents(s: seq<Event>)
    requires s != []
    ensures multiset(Popped(s)) == Without(multiset(s), s[0])
  {
    var n := |s| - 1;
    assert s == s[..n] + [s[n]];
    if n > 0 {
      var t := s[..n][0 := s[n]];
      assert multiset(t) == multiset(s[..n]) - multiset{s[0]} + multiset{s[n]};
      SiftDownContents(t, 0);
    }
  }

  // ---------- Runs: the heap is a priority queue ----------

  datatype Operation = Insert(event: Event) | Pop

  /** The heap after some operations, and what its pops returned. */
  function Run(s: seq<Event>, ops: seq<Operation>): (seq<Event>, seq<Event>)
    decreases |ops|
  {
    if ops == [] then (s, []) else
    match ops[0]
    case Insert(event) => Run(Inserted(s, event), ops[1..])
    case Pop =>
      if s == [] then
        var (t, out) := Run(s, ops[1..]); (t, [NULL_EVENT] + out)
      else
        var (t, out) := Run(Popped(s), ops[1..]); (t, [s[0]] + out)
  }

  /** The reference: a bag of which each pop takes some earliest event, or returns NULL_EVENT when it is empty. */
  ghost predicate PriorityRun(bag: multiset<Event>, ops: seq<Operation>, out: seq<Event>, final: multiset<Event>)
    decreases |ops|
  {
    if ops == [] then out == [] && final == bag else
    match ops[0]
    case Insert(event) => PriorityRun(bag + multiset{event}, ops[1..], out, final)
    case Pop =>
      && out != []
      && if bag == multiset{} then out[0] == NULL_EVENT && PriorityRun(bag, ops[1..], out[1..], final)
         else
           && out[0] in bag
           && (forall e :: e in bag ==> out[0].vtime <= e.vtime)
           && PriorityRun(Without(bag, out[0]), ops[1..], out[1..], final)
  }

  lemma RootOfBag(s: seq<Event>)
    requires Heap(s) && s != []
    ensures s[0] in multiset(s) && forall e :: e in multiset(s) ==> s[0].vtime <= e.vtime
  {
    forall e | e in multiset(s) ensures s[0].vtime <= e.vtime {
      var j :| 0 <= j < |s| && s[j] == e;
      RootIsEarliest(s, j);
    }
  }

  /** Main result: every run of the heap is a run of the bag. */
  lemma {:induction false} RunIsPriorityRun(s: seq<Event>, ops: seq<Operation>)
    requires Heap(s)
    ensures Heap(Run(s, ops).0)
    ensures PriorityRun(multiset(s), ops, Run(s, ops).1, multiset(Run(s, ops).0))
    decreases |ops|
  {
    hide Inserted, Popped, Heap, Without;
    if ops != [] {
      var rest := ops[1..];
      match ops[0]
      case Insert(event) =>
        InsertedHeap(s, event);
        InsertedContents(s, event);
        RunIsPriorityRun(Inserted(s, event), rest);
      case Pop =>
        if s == [] {
          RunIsPriorityRun(s, rest);
          assert ([NULL_EVENT] + Run(s, rest).1)[1..] == Run(s, rest).1;
        } else {
          RootOfBag(s);
          PoppedHeap(s);
          PoppedContents(s);
          RunIsPriorityRun(Popped(s), rest);
          assert ([s[0]] + Run(Popped(s), rest).1)[1..] == Run(Popped(s), rest).1;
        }
    }
  }

  function Pops(n: nat): seq<Operation> {
    seq(n, _ => Pop)
  }

  ghost predicate Sorted(s: seq<Event>) {
    forall i, j :: 0 <= i < j < |s| ==> s[i].vtime <= s[j].vtime
  }

  lemma PopsFirst(s: seq<Event>, n: nat)
    requires s != [] && n > 0
    ensures Run(s, Pops(n)) == (Run(Popped(s), Pops(n - 1)).0, [s[0]] + Run(Popped(s), Pops(n - 1)).1)
  {
    hide Popped;
    assert Pops(n)[1..] == Pops(n - 1);
  }

  lemma SortedPrepend(first: Event, rest: seq<Event>, bag: multiset<Event>)
    requires first in bag && forall e :: e in bag ==> first.vtime <= e.vtime
    requires Sorted(rest) && multiset(rest) == Without(bag, first)
    ensures Sorted([first] + rest) && multiset([first] + rest) == bag
  {
    forall e | e in rest ensures first.vtime <= e.vtime {
      assert e in multiset(rest);
    }
  }

  lemma PoppedLength(s: seq<Event>)
    requires s != []
    ensures |Popped(s)| == |s| - 1
  {
  }

  /** What popping until the queue is empty returns. */
  function Drained(s: seq<Event>): (out: seq<Event>)
    ensures |out| == |s|
    decreases |s|
  {
    if s == [] then [] else PoppedLength(s); [s[0]] + Drained(Popped(s))
  }

  lemma {:induction false} PopsDrain(s: seq<Event>)
    ensures Run(s, Pops(|s|)) == ([], Drained(s))
    decreases |s|
  {
    if s == [] {
      assert Run(s, Pops(0)) == (s, []);
    } else {
      hide Popped, Run, Pops;
      PopsFirst(s, |s|);
      PoppedLength(s);
      PopsDrain(Popped(s));
    }
  }

  /** Popping as often as there are events returns all of them in time order. */
  lemma {:induction false} DrainSorts(s: seq<Event>)
    requires Heap(s)
    ensures multiset(Drained(s)) == multiset(s) && Sorted(Drained(s))
    decreases |s|
  {
    if s != [] {
      var t := Popped(s);
      PoppedLength(s);
      PoppedHeap(s);
      PoppedContents(s);
      RootOfBag(s);
      hide Popped, Heap, Sorted, Without;
      DrainSorts(t);
      SortedPrepend(s[0], Drained(t), multiset(s));
    }
  }

  lemma {:induction false} RunAppend(s: seq<Event>, a: seq<Operation>, b: seq<Operation>)
    ensures var (t, out) := Run(s, a);
            Run(s, a + b) == (Run(t, b).0, out + Run(t, b).1)
    decreases |a|
  {
    hide Inserted, Popped;
    if a == [] {
      assert a + b == b;
      assert Run(s, a).1 + Run(s, b).1 == Run(s, b).1;
    } else {
      assert (a + b)[1..] == a[1..] + b;
      match a[0]
      case Insert(event) => RunAppend(Inserted(s, event), a[1..], b);
      case Pop =>
        var first, next := if s == [] then NULL_EVENT else s[0], if s == [] then s else Popped(s);
        RunAppend(next, a[1..], b);
        var (t, out) := Run(next, a[1..]);
        assert [first] + (out + Run(t, b).1) == ([first] + out) + Run(t, b).1;
    }
  }

  lemma DrainThenNull(s: seq<Event>)
    ensures Run(s, Pops(|s| + 1)) == ([], Drained(s) + [NULL_EVENT])
  {
    hide Run, Drained;
    PopsDrain(s);
    RunAppend(s, Pops(|s|), [Pop]);
    assert Pops(|s|) + [Pop] == Pops(|s| + 1);
    PopEmpty();
  }

  lemma PopEmpty()
    ensures Run([], [Pop]) == ([], [NULL_EVENT])
  {
    var none: seq<Event> := [];
    assert [Pop][1..] == [];
    assert Run([], []) == ([], none);
    assert [NULL_EVENT] + none == [NULL_EVENT];
  }

  /** After any operations on a new queue, draining sorts what is left, and one more pop returns VTIME_INF. */
  lemma AnyRunDrains(ops: seq<Operation>)
    ensures var (left, out) := Run([], ops);
            var drained := Drained(left);
            && Run([], ops + Pops(|left| + 1)) == ([], out + drained + [NULL_EVENT])
            && multiset(drained) == multiset(left) && Sorted(drained)
            && NULL_EVENT.vtime == VTIME_INF
  {
    hide Sorted, Run, Drained;
    EmptyHeap();
    RunIsPriorityRun([], ops);
    var (left, out) := Run([], ops);
    DrainThenNull(left);
    DrainSorts(left);
    RunAppend([], ops, Pops(|left| + 1));
    assert out + (Drained(left) + [NULL_EVENT]) == out + Drained(left) + [NULL_EVENT];
  }

  lemma EmptyHeap()
    ensures Heap([])
  {
  }

  // ---------- Resizing ----------

  /** What resizing looks at: the array's length and the number of live events. */
  datatype Store = Store(size: nat, nevents: nat)

  predicate ValidStore(st: Store) {
    && st.size in {1024, 2048, 4096, 8192, 16384, 32768, 65536, 131072, 262144, 524288, 1048576}
    && st.nevents <= st.size
  }

  /** The source's assertion in _queue_resize. */
  predicate CanResize(st: Store) {
    st.nevents == st.size ==> st.size < SIZE_MAX
  }

  function Resized(st: Store): Store {
    if st.nevents == st.size then
      var doubled := st.size * 2;
      st.(size := if doubled > SIZE_MAX then SIZE_MAX else doubled)
    else if st.nevents < st.size / 5 && st.size > SIZE_MIN then
      st.(size := st.size / 2)
    else
      st
  }

  /** How many live events a resize carries into the new array. */
  function Carried(st: Store): nat {
    if Resized(st) == st then 0 else st.nevents
  }

  /** One operation's effect on the store and its cost; None when the assertion fails. */
  function StoreStep(st: Store, op: Operation): Option<(Store, nat)> {
    match op
    case Insert(_) =>
      if !CanResize(st) then None
      else Some((Resized(st).(nevents := st.nevents + 1), Carried(st)))
    case Pop =>
      if st.nevents == 0 then Some((st, 0))
      else
        var fewer := st.(nevents := st.nevents - 1);
        if !CanResize(fewer) then None else Some((Resized(fewer), Carried(fewer)))
  }

  function StoreRun(st: Store, ops: seq<Operation>): Option<(Store, nat)>
    decreases |ops|
  {
    if ops == [] then Some((st, 0)) else
    match StoreStep(st, ops[0])
    case None => None
    case Some((next, cost)) =>
      match StoreRun(next, ops[1..])
      case None => None
      case Some((final, more)) => Some((final, cost + more))
  }

  const NEW_STORE := Store(SIZE_MIN, 0)

  /** The room an operation may have prepaid: how far the store is from where it was last resized. */
  function Potential(st: Store): int {
    var full, sparse := 2 * st.nevents - st.size, st.size / 2 - st.nevents;
    if full > sparse then full else sparse
  }

  function Price(op: Operation): nat {
    if op.Insert? then 2 else 1
  }

  function TotalPrice(ops: seq<Operation>): nat {
    if ops == [] then 0 else Price(ops[0]) + TotalPrice(ops[1..])
  }

  /** The assertion fails exactly when an event is inserted among 2^20 others; otherwise sizes stay valid. */
  lemma StoreStepValid(st: Store, op: Operation)
    requires ValidStore(st)
    ensures StoreStep(st, op).None? <==> op.Insert? && st.nevents == SIZE_MAX
    ensures StoreStep(st, op).Some? ==> ValidStore(StoreStep(st, op).value.0)
  {
  }

  lemma ResizedValid(st: Store)
    requires ValidStore(st) && CanResize(st)
    ensures ValidStore(Resized(st)) && 0 < st.size <= SIZE_MAX
    ensures st.nevents <= Resized(st).size && (st.nevents < st.size || st.nevents < Resized(st).size)
  {
  }

  lemma StoreFits(st: Store)
    requires ValidStore(st)
    ensures st.nevents <= st.size
  {
  }

  lemma ValidAfterInsert(st: Store)
    requires ValidStore(st) && CanResize(st)
    ensures ValidStore(Resized(st).(nevents := st.nevents + 1)) && Resized(st).nevents == st.nevents
  {
  }

  lemma ValidAfterPop(st: Store)
    requires ValidStore(st) && st.nevents > 0
    ensures ValidStore(st.(nevents := st.nevents - 1)) && CanResize(st.(nevents := st.nevents - 1))
  {
  }

  lemma ResizePays(st: Store)
    requires ValidStore(st) && CanResize(st)
    ensures Carried(st) + Potential(Resized(st)) <= Potential(st)
  {
  }

  lemma StoreStepPays(st: Store, op: Operation)
    requires ValidStore(st) && StoreStep(st, op).Some?
    ensures var (next, cost) := StoreStep(st, op).value;
            cost + Potential(next) <= Potential(st) + Price(op)
  {
    if op.Insert? {
      ResizePays(st);
    } else if st.nevents > 0 {
      ResizePays(st.(nevents := st.nevents - 1));
    }
  }

  lemma {:induction false} StoreRunPays(st: Store, ops: seq<Operation>)
    requires ValidStore(st) && StoreRun(st, ops).Some?
    ensures var (final, cost) := StoreRun(st, ops).value;
            ValidStore(final) && cost + Potential(final) <= Potential(st) + TotalPrice(ops)
    decreases |ops|
  {
    hide StoreStep, Potential, Price, ValidStore;
    if ops != [] {
      StoreStepValid(st, ops[0]);
      StoreStepPays(st, ops[0]);
      StoreRunPays(StoreStep(st, ops[0]).value.0, ops[1..]);
    }
  }

  /** Main result: from a new queue, all resizes together carry at most 512 + 2 inserts + pops events. */
  lemma AmortizedResizing(ops: seq<Operation>)
    requires StoreRun(NEW_STORE, ops).Some?
    ensures var (final, cost) := StoreRun(NEW_STORE, ops).value;
            ValidStore(final) && cost <= 512 + TotalPrice(ops)
  {
    hide StoreRun, TotalPrice;
    StoreRunPays(NEW_STORE, ops);
    var final := StoreRun(NEW_STORE, ops).value.0;
    assert Potential(final) >= 0;
  }

  /** An array that is no longer the smallest is at most five times as long as its events need, give or take four. */
  predicate Tight(st: Store) {
    st.size == SIZE_MIN || st.size <= 5 * st.nevents + 4
  }

  lemma {:induction false} StoreRunTight(st: Store, ops: seq<Operation>)
    requires ValidStore(st) && Tight(st) && StoreRun(st, ops).Some?
    ensures Tight(StoreRun(st, ops).value.0)
    decreases |ops|
  {
    if ops != [] {
      StoreStepValid(st, ops[0]);
      StoreStepTight(st, ops[0]);
      hide StoreStep, Tight, ValidStore;
      StoreRunTight(StoreStep(st, ops[0]).value.0, ops[1..]);
    }
  }

  lemma StoreStepTight(st: Store, op: Operation)
    requires ValidStore(st) && Tight(st) && StoreStep(st, op).Some?
    ensures Tight(StoreStep(st, op).value.0)
  {
  }

  /** Main result: through any run from a new queue the array is 1024 long or at most five times its events and four. */
  lemma SpaceIsLinear(ops: seq<Operation>)
    requires StoreRun(NEW_STORE, ops).Some?
    ensures var st := StoreRun(NEW_STORE, ops).value.0;
      st.nevents <= st.size && (st.size == 1024 || st.size <= 5 * st.nevents + 4)
  {
    hide StoreRun;
    StoreRunPays(NEW_STORE, ops);
    StoreRunTight(NEW_STORE, ops);
  }

  lemma {:induction false} StoreRunCounts(s: seq<Event>, st: Store, ops: seq<Operation>)
    requires st.nevents == |s| && StoreRun(st, ops).Some?
    ensures StoreRun(st, ops).value.0.nevents == |Run(s, ops).0|
    decreases |ops|
  {
    if ops != [] {
      var next := StoreStep(st, ops[0]).value.0;
      match ops[0]
      case Insert(event) => StoreRunCounts(Inserted(s, event), next, ops[1..]);
      case Pop => StoreRunCounts(if s == [] then s else Popped(s), next, ops[1..]);
    }
  }

  // ---------- The queue object ----------

  class Queue {
    var size: nat
    var nevents: nat
    var events: array<Event>
    ghost var carried: nat  // events carried across by all resizes so far

    ghost predicate Valid()
      reads this, events
    {
      && events.Length == size
      && ValidStore(Shape())
      && Heap(Live())
    }

    function Shape(): Store
      reads this
    {
      Store(size, nevents)
    }

    /** The live events, in heap order. */
    function Live(): seq<Event>
      requires nevents <= events.Length
      reads this, events
    {
      events[..nevents]
    }

    constructor ()
      ensures Valid() && fresh(events)
      ensures Live() == [] && Shape() == NEW_STORE && carried == 0
    {
      size := SIZE_MIN;
      nevents := 0;
      carried := 0;
      events := new Event[SIZE_MIN](_ => NULL_EVENT);
    }

    /** The call to realloc: a new array of the current size with the old one's events. */
    method Reallocate()
      requires nevents <= events.Length && nevents <= size
      modifies this`events, this`carried
      ensures fresh(events) && events.Length == size
      ensures Live() == old(Live()) && carried == old(carried) + nevents
    {
      var old_events, n := events, nevents;
      events := new Event[size](i requires 0 <= i reads old_events =>
        if i < n && i < old_events.Length then old_events[i] else NULL_EVENT);
      carried := carried + nevents;
    }

    /** Doubles or halves the array; the live events survive in place. */
    method Resize()
      requires Valid() && CanResize(Shape())
      modifies this
      ensures Valid() && (events == old(events) || fresh(events))
      ensures Shape() == Resized(old(Shape())) && Live() == old(Live())
      ensures carried == old(carried) + Carried(old(Shape()))
    {
      hide Heap, ValidStore;
      ResizedValid(Shape());
      if nevents == size {
        size := size * 2;
        if size > SIZE_MAX {
          size := SIZE_MAX;
        }
      } else if nevents < size / 5 && size > SIZE_MIN {
        size := size / 2;
      } else {
        return;
      }
      Reallocate();
    }

    /** Restores the heap after its root was replaced. */
    method Heapify()
      requires nevents <= events.Length
      modifies events
      ensures events.Length == old(events.Length)
      ensures Live() == if old(Live()) == [] then [] else SiftDown(old(Live()), 0)
      ensures events[nevents..] == old(events[nevents..])
    {
      var i := 0;
      while true
        invariant nevents <= events.Length && (i < nevents || i == nevents == 0)
        invariant nevents > 0 ==> SiftDown(Live(), i) == SiftDown(old(Live()), 0)
        invariant events[nevents..] == old(events[nevents..])
        decreases nevents - i
      {
        var l, r := Left(i), Right(i);
        var x := i;
        if l < nevents && events[l].vtime < events[x].vtime {
          x := l;
        }
        if r < nevents && events[r].vtime < events[x].vtime {
          x := r;
        }
        ghost var before := Live();
        assert nevents > 0 ==> x == Earliest(before, i);
        if x == i {
          break;
        }
        var temp := events[x];
        events[x] := events[i];
        events[i] := temp;
        assert Live() == Swap(before, x, i);
        i := x;
      }
    }

    /** Moves the hole at the end towards the root until the event may fill it. */
    method SiftHole(event: Event)
      requires 0 < nevents <= events.Length
      modifies events
      ensures Live() == SiftUp(old(Live())[nevents - 1 := event], nevents - 1)
    {
      hide SiftUp;
      var i := nevents - 1;
      ghost var start := Live()[i := event];
      while i > 0 && event.vtime < events[Parent(i)].vtime
        invariant i < nevents
        invariant SiftUp(Live()[i := event], i) == SiftUp(start, nevents - 1)
      {
        ghost var before, hole := Live()[i := event], i;
        SiftUpStep(before, i);
        events[i] := events[Parent(i)];
        i := Parent(i);
        assert Live()[i := event] == Swap(before, hole, i);
      }
      SiftUpStep(Live()[i := event], i);
      events[i] := event;
      assert Live() == Live()[i := event];
    }

    method Insert(event: Event)
      requires Valid() && CanResize(Shape())
      modifies this, events
      ensures Valid() && (events == old(events) || fresh(events))
      ensures Live() == Inserted(old(Live()), event)
      ensures StoreStep(old(Shape()), Operation.Insert(event)) == Some((Shape(), carried - old(carried)))
    {
      hide Heap, ValidStore, Resized;
      StoreFits(Shape());
      ValidAfterInsert(Shape());
      InsertedHeap(Live(), event);
      Resize();
      nevents := nevents + 1;
      StoreFits(Shape());
      assert Live()[nevents - 1 := event] == old(Live()) + [event];
      SiftHole(event);
    }

    method Top() returns (e: Event)
      requires Valid()
      ensures e == if Live() == [] then NULL_EVENT else Live()[0]
    {
      e := NULL_EVENT;
      if nevents > 0 {
        e := events[0];
      }
    }

    /** Overwrites the root with the last event and restores the heap. */
    method RemoveRoot()
      requires 0 < nevents <= events.Length
      modifies this`nevents, events
      ensures nevents == old(nevents) - 1 && events.Length == old(events.Length)
      ensures Live() == Popped(old(Live()))
    {
      hide SiftDown;
      ghost var before := Live();
      events[0] := events[nevents - 1];
      nevents := nevents - 1;
      assert nevents > 0 ==> Live() == before[..nevents][0 := before[nevents]];
      Heapify();
    }

    method Pop() returns (e: Event)
      requires Valid()
      modifies this, events
      ensures Valid() && (events == old(events) || fresh(events))
      ensures old(Live()) == [] ==> e == NULL_EVENT && Live() == []
      ensures old(Live()) != [] ==> e == old(Live())[0] && Live() == Popped(old(Live()))
      ensures StoreStep(old(Shape()), Operation.Pop) == Some((Shape(), carried - old(carried)))
    {
      hide Heap, ValidStore, Resized, Popped;
      e := NULL_EVENT;
      if nevents == 0 {
        return;
      }
      StoreFits(Shape());
      PoppedHeap(Live());
      ValidAfterPop(Shape());
      e := events[0];
      RemoveRoot();
      Resize();
    }
  }
}
