/**
 The threaded send queue of the first version (radio/serial/queue.c): a linked list under
 a mutex, a sender thread that sleeps on a condition variable, a receiver thread whose
 handler may itself send, and any number of threads that call queue_send_packet and
 queue_send_get_size.

 One action is one statement of one thread; any interleaving of actions is a run.  The
 condition variable may also wake the sender without a signal.
 */
module SendQueue {
  import opened Wrappers

  type Data(==, 0, !new) = seq<bv8>

  datatype Cell = Cell(data: Data, next: Option<nat>)

  datatype Thread = Sender | Receiver | Producer(i: nat)

  /** Where the sender stands in queue_sender; x is the cell it has popped. */
  datatype SenderAt =
    | SLock                    // about to lock the send mutex
    | STest                    // at the test of the waiting loop
    | SSleep                   // inside pthread_cond_wait, the mutex released
    | SRelock                  // woken, about to lock the mutex again
    | SPop                     // about to move the head on
    | SFix(x: nat)             // about to clear the tail if the list has become empty
    | SUnlock(x: nat)          // about to unlock the send mutex
    | SHold(x: nat)            // about to lock the holdoff mutex
    | SSend(x: nat)            // sending
    | SDone(x: nat)            // about to unlock the holdoff mutex
    | SFree(x: nat)            // about to free the cell

  /** Where the receiver stands in queue_receiver. */
  datatype ReceiverAt =
    | RWait                    // waiting for a packet
    | RLock                    // about to lock the holdoff mutex
    | RRecv                    // receiving a packet of a burst
    | RHandler                 // running the handler
    | RMore                    // waiting for another packet of the burst
    | RUnlock                  // about to unlock the holdoff mutex

  /** Where a thread stands in a call of queue_send_packet; n is its new cell. */
  datatype CallAt =
    | ELock(n: nat)            // about to lock the send mutex
    | ETest(n: nat)            // about to look whether there is a tail
    | ESignal                  // has made n the whole list, about to signal
    | ELink(n: nat)            // about to make the old tail point to n
    | ETail(n: nat)            // about to make n the tail
    | EUnlock                  // about to unlock the send mutex
    // The same for a call of queue_send_get_size.
    | GLook                    // about to look at the head, without the mutex
    | GLock                    // about to lock the send mutex
    | GCount(x: Option<nat>, count: nat)  // at the test of the counting loop
    | GUnlock(count: nat)      // about to unlock the send mutex and return

  datatype State = State(
    heap: map<nat, Cell>, head: Option<nat>, tail: Option<nat>,
    sendLock: Option<Thread>, holdLock: Option<Thread>,
    sender: SenderAt, receiver: ReceiverAt, calls: map<Thread, CallAt>,
    // History: what each call asked to send, the cells in the list, what has been linked in and what has been sent.
    asked: map<Thread, Data>, chain: seq<nat>, enqueued: seq<Data>, transmitted: seq<Data>)

  datatype Action =
    | SenderStep
    | WakeUp                                        // the sender wakes without a signal
    | ReceiverStep(yes: bool)                       // what wait_packet or recv_packet answers, where it matters
    | Call(t: Thread, n: nat, data: Data)           // t calls queue_send_packet; malloc returns n
    | Measure(t: Thread)                            // t calls queue_send_get_size
    | CallStep(t: Thread)

  function Init(): State {
    State(map[], None, None, None, None, SLock, RWait, map[], map[], [], [], [])
  }

  /** Which actions can happen: a lock that is taken blocks, a sleeping sender does not run by itself. */
  predicate Enabled(s: State, a: Action) {
    match a
    case SenderStep =>
      && (s.sender.SLock? || s.sender.SRelock? ==> s.sendLock.None?)
      && (s.sender.SHold? ==> s.holdLock.None?) && !s.sender.SSleep?
    case WakeUp => s.sender.SSleep?
    case ReceiverStep(_) => (s.receiver.RLock? ==> s.holdLock.None?) && (s.receiver.RHandler? ==> Receiver !in s.calls)
    case Call(t, n, _) => n !in s.heap && t !in s.calls && t != Sender && (t == Receiver ==> s.receiver.RHandler?)
    case Measure(t) => t !in s.calls && t != Sender && (t == Receiver ==> s.receiver.RHandler?)
    case CallStep(t) => t in s.calls && (s.calls[t].ELock? || s.calls[t].GLock? ==> s.sendLock.None?)
  }

  function SenderNext(s: State): Option<State> {
    match s.sender
    case SLock => Some(s.(sendLock := Some(Sender), sender := STest))
    case STest => Some(if s.head.None? then s.(sendLock := None, sender := SSleep) else s.(sender := SPop))
    case SSleep => Some(s)
    case SRelock => Some(s.(sendLock := Some(Sender), sender := STest))
    case SPop =>
      if s.head.None? || s.head.value !in s.heap then None
      else Some(s.(head := s.heap[s.head.value].next, sender := SFix(s.head.value), chain := if s.chain == [] then [] else s.chain[1..]))
    case SFix(x) => Some(s.(tail := if s.head.None? then None else s.tail, sender := SUnlock(x)))
    case SUnlock(x) => Some(s.(sendLock := None, sender := SHold(x)))
    case SHold(x) => Some(s.(holdLock := Some(Sender), sender := SSend(x)))
    case SSend(x) =>
      if x !in s.heap then None else Some(s.(transmitted := s.transmitted + [s.heap[x].data], sender := SDone(x)))
    case SDone(x) => Some(s.(holdLock := None, sender := SFree(x)))
    case SFree(x) => if x !in s.heap then None else Some(s.(heap := s.heap - {x}, sender := SLock))
  }

  function ReceiverNext(s: State, yes: bool): State {
    match s.receiver
    case RWait => s.(receiver := if yes then RLock else RWait)
    case RLock => s.(holdLock := Some(Receiver), receiver := RRecv)
    case RRecv => s.(receiver := if yes then RHandler else RMore)
    case RHandler => s.(receiver := RMore)
    case RMore => s.(receiver := if yes then RRecv else RUnlock)
    case RUnlock => s.(holdLock := None, receiver := RWait)
  }

  function CallNext(s: State, t: Thread): Option<State>
    requires t in s.calls
  {
    match s.calls[t]
    case ELock(n) => Some(s.(sendLock := Some(t), calls := s.calls[t := ETest(n)]))
    case ETest(n) =>
      if s.tail.Some? then Some(s.(calls := s.calls[t := ELink(n)]))
      else if n !in s.heap then None
      else Some(s.(tail := Some(n), head := Some(n), calls := s.calls[t := ESignal],
                   chain := s.chain + [n], enqueued := s.enqueued + [s.heap[n].data]))
    case ESignal =>
      Some(s.(sender := if s.sender.SSleep? then SRelock else s.sender, calls := s.calls[t := EUnlock]))
    case ELink(n) =>
      if s.tail.None? || s.tail.value !in s.heap || n !in s.heap then None
      else Some(s.(heap := s.heap[s.tail.value := s.heap[s.tail.value].(next := Some(n))], calls := s.calls[t := ETail(n)],
                   chain := s.chain + [n], enqueued := s.enqueued + [s.heap[n].data]))
    case ETail(n) => Some(s.(tail := Some(n), calls := s.calls[t := EUnlock]))
    case EUnlock => Some(s.(sendLock := None, calls := s.calls - {t}))
    case GLook => Some(s.(calls := if s.head.None? then s.calls - {t} else s.calls[t := GLock]))
    case GLock => Some(s.(sendLock := Some(t), calls := s.calls[t := GCount(s.head, 0)]))
    case GCount(x, count) =>
      if x.None? then Some(s.(calls := s.calls[t := GUnlock(count)]))
      else if x.value !in s.heap then None
      else Some(s.(calls := s.calls[t := GCount(s.heap[x.value].next, count + 1)]))
    case GUnlock(_) => Some(s.(sendLock := None, calls := s.calls - {t}))
  }

  /** The new cell is filled before any lock is taken. */
  function Entered(s: State, t: Thread, n: nat, data: Data): State {
    s.(heap := s.heap[n := Cell(data, None)], calls := s.calls[t := ELock(n)], asked := s.asked[t := data])
  }

  /** The effect of an action; None where the program would follow a null or freed pointer, or free twice. */
  function Do(s: State, a: Action): Option<State>
    requires Enabled(s, a)
  {
    match a
    case SenderStep => SenderNext(s)
    case WakeUp => Some(s.(sender := SRelock))
    case ReceiverStep(yes) => Some(ReceiverNext(s, yes))
    case Call(t, n, data) => Some(Entered(s, t, n, data))
    case Measure(t) => Some(s.(calls := s.calls[t := GLook]))
    case CallStep(t) => CallNext(s, t)
  }

  // ---------- The invariant ----------

  /** The cell the sender has taken out of the list and not yet freed. */
  predicate Holds(at: SenderAt, x: nat) {
    match at
    case SFix(y) => x == y
    case SUnlock(y) => x == y
    case SHold(y) => x == y
    case SSend(y) => x == y
    case SDone(y) => x == y
    case SFree(y) => x == y
    case _ => false
  }

  function PacketAt(heap: map<nat, Cell>, x: nat): Data {
    if x in heap then heap[x].data else []
  }

  /** The packets of a list of cells. */
  function DataOf(heap: map<nat, Cell>, chain: seq<nat>): (ds: seq<Data>)
    ensures |ds| == |chain|
  {
    seq(|chain|, i requires 0 <= i < |chain| => PacketAt(heap, chain[i]))
  }

  /** The packet the sender has in hand and has not yet sent. */
  function InHand(s: State): seq<Data> {
    match s.sender
    case SFix(x) => [PacketAt(s.heap, x)]
    case SUnlock(x) => [PacketAt(s.heap, x)]
    case SHold(x) => [PacketAt(s.heap, x)]
    case SSend(x) => [PacketAt(s.heap, x)]
    case _ => []
  }

  /** The cell of a call that is not yet in the list. */
  predicate Pending(at: CallAt, n: nat) {
    match at
    case ELock(m) => m == n
    case ETest(m) => m == n
    case ELink(m) => m == n
    case _ => false
  }

  predicate SenderInSection(at: SenderAt) {
    at.STest? || at.SPop? || at.SFix? || at.SUnlock?
  }

  predicate CallInSection(at: CallAt) {
    !at.ELock? && !at.GLook? && !at.GLock?
  }

  predicate InBurst(at: ReceiverAt) {
    at.RRecv? || at.RHandler? || at.RMore? || at.RUnlock?
  }

  predicate Sending(at: SenderAt) {
    at.SSend? || at.SDone?
  }

  ghost predicate Locks(s: State) {
    && Sender !in s.calls && (Receiver in s.calls ==> s.receiver.RHandler?)
    && (s.sendLock == Some(Sender) <==> SenderInSection(s.sender))
    && (forall t :: t in s.calls ==> (s.sendLock == Some(t) <==> CallInSection(s.calls[t])))
    && (s.sendLock.Some? && s.sendLock.value != Sender ==> s.sendLock.value in s.calls)
    && (s.holdLock == Some(Sender) <==> Sending(s.sender))
    && (s.holdLock == Some(Receiver) <==> InBurst(s.receiver))
    && (s.holdLock.Some? ==> s.holdLock.value == Sender || s.holdLock.value == Receiver)
  }

  predicate NextIs(heap: map<nat, Cell>, chain: seq<nat>, i: nat)
    requires i < |chain|
  {
    chain[i] in heap && heap[chain[i]].next == if i + 1 < |chain| then Some(chain[i + 1]) else None
  }

  /** The pointers from the head on run through exactly the cells of the chain. */
  ghost predicate Linked(heap: map<nat, Cell>, head: Option<nat>, chain: seq<nat>) {
    && head == (if chain == [] then None else Some(chain[0]))
    && (forall i :: 0 <= i < |chain| ==> NextIs(heap, chain, i))
    && (forall i, j :: 0 <= i < j < |chain| ==> chain[i] != chain[j])
  }

  function Last(chain: seq<nat>): Option<nat> {
    if chain == [] then None else Some(chain[|chain| - 1])
  }

  /** The tail is the last cell, except between the two updates of a critical section. */
  ghost predicate TailIs(s: State) {
    if s.sender.SFix? then s.tail == if s.chain == [] then Some(s.sender.x) else Last(s.chain)
    else if s.sendLock.Some? && s.sendLock.value in s.calls && s.calls[s.sendLock.value].ETail? then
      |s.chain| >= 2 && s.tail == Last(s.chain[..|s.chain| - 1]) && Last(s.chain) == Some(s.calls[s.sendLock.value].n)
    else s.tail == Last(s.chain)
  }

  ghost predicate Cells(s: State) {
    && (forall x :: Holds(s.sender, x) ==> x in s.heap && x !in s.chain)
    && (forall t, n :: t in s.calls && Pending(s.calls[t], n) ==>
         n in s.heap && n !in s.chain && s.heap[n].next == None && !Holds(s.sender, n))
    && (forall t, u, n :: t in s.calls && u in s.calls && Pending(s.calls[t], n) && Pending(s.calls[u], n) ==> t == u)
  }

  /** At each statement of a critical section, what its tests have established. */
  ghost predicate Tested(s: State) {
    && (s.sender.SPop? ==> s.chain != [])
    && (forall t :: t in s.calls && s.calls[t].ELink? ==> s.chain != [])
    && (forall t :: t in s.calls && s.calls[t].ESignal? ==> s.chain != [])
  }

  /** A new cell holds what its call asked to send. */
  ghost predicate Asked(s: State) {
    forall t :: t in s.calls ==> forall n :: Pending(s.calls[t], n) ==> t in s.asked && PacketAt(s.heap, n) == s.asked[t]
  }

  /** A count is the number of cells before the pointer x that follows them. */
  predicate CountsTo(x: Option<nat>, count: nat, chain: seq<nat>) {
    count <= |chain| && x == if count < |chain| then Some(chain[count]) else None
  }

  /** What a call of queue_send_get_size has counted. */
  predicate CountIs(at: CallAt, chain: seq<nat>) {
    match at
    case GCount(x, count) => CountsTo(x, count, chain)
    case GUnlock(count) => count == |chain|
    case _ => true
  }

  ghost predicate Counted(s: State) {
    forall t :: t in s.calls ==> CountIs(s.calls[t], s.chain)
  }

  /** Nothing lost, duplicated or reordered. */
  ghost predicate Conserved(s: State) {
    s.enqueued == s.transmitted + InHand(s) + DataOf(s.heap, s.chain)
  }

  /** The sender sleeps on a list that is not empty only while the signal is about to be given. */
  ghost predicate SleepsWell(s: State) {
    s.sender.SSleep? && s.chain != [] ==> exists t :: t in s.calls && s.calls[t].ESignal?
  }

  ghost predicate Inv(s: State) {
    Locks(s) && Linked(s.heap, s.head, s.chain) && TailIs(s) && Cells(s) && Tested(s) && Asked(s) && Counted(s) && Conserved(s) && SleepsWell(s)
  }

  lemma InitInv()
    ensures Inv(Init())
  {
  }

  // ---------- The list ----------

  lemma PopList(heap: map<nat, Cell>, head: Option<nat>, chain: seq<nat>)
    requires Linked(heap, head, chain) && chain != []
    ensures head == Some(chain[0]) && chain[0] in heap && chain[0] !in chain[1..]
    ensures Linked(heap, heap[chain[0]].next, chain[1..])
    ensures DataOf(heap, chain) == [PacketAt(heap, chain[0])] + DataOf(heap, chain[1..])
    ensures Last(chain[1..]) == if |chain| == 1 then None else Last(chain)
  {
    var rest := chain[1..];
    assert NextIs(heap, chain, 0);
    forall i | 0 <= i < |rest| ensures NextIs(heap, rest, i) {
      assert NextIs(heap, chain, i + 1);
    }
  }

  lemma FreeCell(heap: map<nat, Cell>, head: Option<nat>, chain: seq<nat>, x: nat)
    requires Linked(heap, head, chain) && x !in chain
    ensures Linked(heap - {x}, head, chain) && DataOf(heap - {x}, chain) == DataOf(heap, chain)
  {
    forall i | 0 <= i < |chain| ensures NextIs(heap - {x}, chain, i) {
      assert NextIs(heap, chain, i) && chain[i] in chain;
    }
  }

  lemma NewCell(heap: map<nat, Cell>, head: Option<nat>, chain: seq<nat>, n: nat, c: Cell)
    requires Linked(heap, head, chain) && n !in heap
    ensures Linked(heap[n := c], head, chain) && DataOf(heap[n := c], chain) == DataOf(heap, chain)
    ensures n !in chain
  {
    forall i | 0 <= i < |chain| ensures NextIs(heap[n := c], chain, i) && chain[i] != n {
      assert NextIs(heap, chain, i);
    }
  }

  lemma FirstCell(heap: map<nat, Cell>, n: nat)
    requires n in heap && heap[n].next == None
    ensures Linked(heap, Some(n), [n]) && DataOf(heap, [n]) == [heap[n].data] && Last([n]) == Some(n)
    ensures DataOf(heap, []) == []
  {
  }

  lemma AppendCell(heap: map<nat, Cell>, head: Option<nat>, chain: seq<nat>, n: nat)
    requires Linked(heap, head, chain) && chain != [] && n in heap && n !in chain && heap[n].next == None
    ensures Last(chain).value in heap && Last(chain).value in chain
    ensures var l := Last(chain).value; var after := heap[l := heap[l].(next := Some(n))];
      && Linked(after, head, chain + [n])
      && DataOf(after, chain + [n]) == DataOf(heap, chain) + [heap[n].data]
    ensures Last((chain + [n])[..|chain|]) == Last(chain) && Last(chain + [n]) == Some(n)
  {
    var l := Last(chain).value;
    assert NextIs(heap, chain, |chain| - 1);
    var after, longer := heap[l := heap[l].(next := Some(n))], chain + [n];
    assert longer[..|chain|] == chain;
    forall i | 0 <= i < |longer| ensures NextIs(after, longer, i) {
      if i < |chain| {
        assert NextIs(heap, chain, i) && chain[i] in chain;
      }
    }
  }

  // ---------- Every statement keeps the invariant ----------

  lemma HeadIs(s: State)
    requires Linked(s.heap, s.head, s.chain)
    ensures s.head == if s.chain == [] then None else Some(s.chain[0])
    ensures s.chain != [] ==> s.chain[0] in s.heap
  {
    assert s.chain != [] ==> NextIs(s.heap, s.chain, 0);
  }

  lemma SenderSafe(s: State)
    requires Inv(s) && Enabled(s, SenderStep)
    ensures SenderNext(s).Some?
  {
    hide Locks, Conserved, TailIs, SleepsWell, DataOf, Linked;
    HeadIs(s);
    if s.sender.SSend? || s.sender.SFree? {
      assert Holds(s.sender, s.sender.x);
    }
  }

  lemma SenderLocks(s: State)
    requires Inv(s) && Enabled(s, SenderStep) && SenderNext(s).Some?
    ensures Locks(SenderNext(s).value)
  {
    SenderTouches(s);
    SenderMovesLocks(s);
    hide SenderNext, Enabled, Conserved, TailIs, SleepsWell, DataOf, Linked, Cells, Tested, Holds;
  }

  lemma SenderMovesLocks(s: State)
    requires Enabled(s, SenderStep) && SenderNext(s).Some?
    requires (s.sendLock == Some(Sender) <==> SenderInSection(s.sender)) && (s.holdLock == Some(Sender) <==> Sending(s.sender))
    ensures var t := SenderNext(s).value;
      && (t.sendLock == Some(Sender) <==> SenderInSection(t.sender)) && (t.holdLock == Some(Sender) <==> Sending(t.sender))
      && (t.sendLock == s.sendLock || (s.sendLock.None? && t.sendLock == Some(Sender)) || (s.sendLock == Some(Sender) && t.sendLock.None?))
      && (t.holdLock == s.holdLock || (s.holdLock.None? && t.holdLock == Some(Sender)) || (s.holdLock == Some(Sender) && t.holdLock.None?))
  {
  }

  lemma SenderPops(s: State)
    requires Inv(s) && s.sender.SPop?
    ensures SenderNext(s).Some?
    ensures var t := SenderNext(s).value; Linked(t.heap, t.head, t.chain) && TailIs(t) && Tested(t)
  {
    hide Linked, Conserved, SleepsWell, DataOf, Cells, Asked;
    PopList(s.heap, s.head, s.chain);
  }

  lemma SenderList(s: State)
    requires Inv(s) && Enabled(s, SenderStep) && SenderNext(s).Some?
    ensures var t := SenderNext(s).value; Linked(t.heap, t.head, t.chain) && TailIs(t) && Tested(t)
  {
    hide Linked, Conserved, SleepsWell, DataOf, Asked;
    HeadIs(s);
    if s.sender.SPop? {
      SenderPops(s);
    } else if s.sender.SFree? {
      assert Holds(s.sender, s.sender.x);
      hide Cells;
      FreeCell(s.heap, s.head, s.chain, s.sender.x);
    } else {
      hide Cells, Holds;
    }
  }

  lemma SenderLeavesCalls(s: State)
    requires SenderNext(s).Some?
    ensures var t := SenderNext(s).value;
      t.calls == s.calls && t.asked == s.asked && t.receiver == s.receiver && t.enqueued == s.enqueued
  {
  }

  lemma SenderLeavesList(s: State)
    requires SenderNext(s).Some?
    ensures !s.sender.SFree? ==> SenderNext(s).value.heap == s.heap
    ensures !s.sender.SPop? ==> SenderNext(s).value.chain == s.chain && SenderNext(s).value.head == s.head
  {
  }

  /** What a statement of the sender leaves alone. */
  lemma SenderTouches(s: State)
    requires SenderNext(s).Some?
    ensures var t := SenderNext(s).value;
      && t.calls == s.calls && t.asked == s.asked && t.receiver == s.receiver && t.enqueued == s.enqueued
      && (!s.sender.SFree? ==> t.heap == s.heap) && (!s.sender.SPop? ==> t.chain == s.chain && t.head == s.head)
  {
    hide SenderNext;
    SenderLeavesCalls(s);
    SenderLeavesList(s);
  }

  lemma SenderHands(s: State)
    requires SenderNext(s).Some? && !s.sender.SPop?
    ensures forall x :: Holds(SenderNext(s).value.sender, x) ==> Holds(s.sender, x)
  {
  }

  lemma SenderCells(s: State)
    requires Inv(s) && Enabled(s, SenderStep) && SenderNext(s).Some?
    ensures Cells(SenderNext(s).value)
  {
    hide Linked, Conserved, SleepsWell, DataOf, TailIs, Locks, Tested;
    if s.sender.SPop? {
      PoppedCell(s);
    } else if s.sender.SFree? {
    } else {
      SenderTouches(s);
      SenderHands(s);
      hide SenderNext, Holds;
    }
  }

  lemma PoppedCell(s: State)
    requires Inv(s) && s.sender.SPop?
    ensures SenderNext(s).Some? && Cells(SenderNext(s).value)
  {
    hide Linked, Conserved, SleepsWell, DataOf, TailIs, Locks;
    PopList(s.heap, s.head, s.chain);
    assert s.chain == [s.chain[0]] + s.chain[1..];
    assert forall n :: n in s.chain[1..] ==> n in s.chain;
  }

  lemma SenderConserves(s: State)
    requires Inv(s) && Enabled(s, SenderStep) && SenderNext(s).Some?
    ensures Conserved(SenderNext(s).value)
  {
    hide Linked, SleepsWell, DataOf, TailIs, Locks;
    if s.sender.SPop? {
      PopList(s.heap, s.head, s.chain);
    } else if s.sender.SFree? {
      FreeCell(s.heap, s.head, s.chain, s.sender.x);
    }
  }

  /** The sender goes to sleep only when it has seen the list empty. */
  lemma SenderSleeps(s: State)
    requires Inv(s) && Enabled(s, SenderStep) && SenderNext(s).Some?
    ensures SleepsWell(SenderNext(s).value)
  {
    hide Linked, DataOf, TailIs, Locks, Cells, Conserved, Tested;
    HeadIs(s);
  }

  lemma SenderAsks(s: State)
    requires Inv(s) && Enabled(s, SenderStep) && SenderNext(s).Some?
    ensures Asked(SenderNext(s).value)
  {
    hide Linked, DataOf, TailIs, Locks, Conserved, Tested, SleepsWell;
    SenderFrees(s);
    SenderTouches(s);
    hide SenderNext, Pending, PacketAt, Holds;
  }

  lemma SenderFrees(s: State)
    requires SenderNext(s).Some?
    ensures forall n :: !Holds(s.sender, n) ==> PacketAt(SenderNext(s).value.heap, n) == PacketAt(s.heap, n)
  {
    SenderTouches(s);
    if !s.sender.SFree? {
      hide SenderNext, PacketAt, Holds;
    }
  }

  /** While the sender changes the list, nobody is counting it. */
  lemma SenderCounts(s: State)
    requires Locks(s) && Counted(s) && SenderNext(s).Some?
    ensures Counted(SenderNext(s).value)
  {
    SenderTouches(s);
    if s.sender.SPop? {
      SenderAlone(s);
    }
    hide SenderNext, Locks;
  }

  lemma SenderAlone(s: State)
    requires Locks(s) && SenderInSection(s.sender)
    ensures s.sendLock == Some(Sender)
    ensures forall t :: t in s.calls ==> !CallInSection(s.calls[t])
  {
  }

  lemma SenderKeeps(s: State)
    requires Inv(s) && Enabled(s, SenderStep)
    ensures SenderNext(s).Some? && Inv(SenderNext(s).value)
  {
    SenderSafe(s);
    SenderLocks(s);
    SenderList(s);
    SenderCells(s);
    SenderConserves(s);
    SenderSleeps(s);
    SenderAsks(s);
    SenderCounts(s);
    hide SenderNext, Enabled, Locks, Linked, TailIs, Cells, Tested, Asked, Counted, Conserved, SleepsWell;
  }

  lemma WakeUpKeeps(s: State)
    requires Inv(s) && Enabled(s, WakeUp)
    ensures Inv(s.(sender := SRelock))
  {
    hide Linked, DataOf, Counted, Asked;
    CallsAlone(s, s.(sender := SRelock));
  }

  lemma CallsAlone(s: State, next: State)
    requires Asked(s) && Counted(s) && next.heap == s.heap && next.calls == s.calls && next.asked == s.asked && next.chain == s.chain
    ensures Asked(next) && Counted(next)
  {
    hide Pending, PacketAt, CountsTo;
  }

  lemma ReceiverKeeps(s: State, yes: bool)
    requires Inv(s) && Enabled(s, ReceiverStep(yes))
    ensures Inv(ReceiverNext(s, yes))
  {
    ReceiverTouches(s, yes);
    ReceiverLocks(s, yes);
    hide ReceiverNext, Enabled, Linked, DataOf, Locks, Counted, Asked;
    CallsAlone(s, ReceiverNext(s, yes));
  }

  lemma ReceiverTouches(s: State, yes: bool)
    ensures var t := ReceiverNext(s, yes); t == s.(receiver := t.receiver, holdLock := t.holdLock)
  {
  }

  lemma ReceiverLocks(s: State, yes: bool)
    requires Locks(s) && Enabled(s, ReceiverStep(yes))
    ensures Locks(ReceiverNext(s, yes))
  {
  }

  lemma EnterCells(s: State, t: Thread, n: nat, data: Data)
    requires Cells(s) && Linked(s.heap, s.head, s.chain) && n !in s.heap && t !in s.calls
    ensures Cells(Entered(s, t, n, data))
  {
    NewCell(s.heap, s.head, s.chain, n, Cell(data, None));
    hide Linked, Holds;
  }

  lemma EnterHand(s: State, t: Thread, n: nat, data: Data)
    requires Cells(s) && n !in s.heap
    ensures InHand(Entered(s, t, n, data)) == InHand(s)
  {
    assert InHand(s) != [] ==> Holds(s.sender, s.sender.x);
  }

  lemma EnterLocks(s: State, t: Thread, n: nat, data: Data)
    requires Locks(s) && TailIs(s) && Tested(s) && SleepsWell(s) && Enabled(s, Call(t, n, data))
    ensures var next := Entered(s, t, n, data); Locks(next) && TailIs(next) && Tested(next)
  {
  }

  lemma EnterSleeps(s: State, t: Thread, n: nat, data: Data)
    requires SleepsWell(s) && t !in s.calls
    ensures SleepsWell(Entered(s, t, n, data))
  {
    if s.sender.SSleep? && s.chain != [] {
      var u :| u in s.calls && s.calls[u].ESignal?;
      assert Entered(s, t, n, data).calls[u].ESignal?;
    }
  }

  lemma PendingCell(s: State, t: Thread, n: nat)
    requires Cells(s) && t in s.calls && Pending(s.calls[t], n)
    ensures n in s.heap && n !in s.chain && s.heap[n].next == None && !Holds(s.sender, n)
    ensures forall u :: u in s.calls && Pending(s.calls[u], n) ==> u == t
  {
  }

  lemma EnterAsks(s: State, t: Thread, n: nat, data: Data)
    requires Asked(s) && Cells(s) && n !in s.heap && t !in s.calls
    ensures Asked(Entered(s, t, n, data))
  {
    hide Holds;
    var next := Entered(s, t, n, data);
    forall u, m | u in next.calls && Pending(next.calls[u], m) ensures u in next.asked && PacketAt(next.heap, m) == next.asked[u] {
      if u != t {
        PendingCell(s, u, m);
      }
    }
  }

  lemma EnterCounts(s: State, t: Thread, n: nat, data: Data)
    requires Counted(s)
    ensures Counted(Entered(s, t, n, data))
  {
  }

  lemma EnterKeeps(s: State, t: Thread, n: nat, data: Data)
    requires Inv(s) && Enabled(s, Call(t, n, data))
    ensures Inv(Entered(s, t, n, data))
  {
    NewCell(s.heap, s.head, s.chain, n, Cell(data, None));
    EnterCells(s, t, n, data);
    EnterHand(s, t, n, data);
    EnterLocks(s, t, n, data);
    EnterSleeps(s, t, n, data);
    EnterAsks(s, t, n, data);
    EnterCounts(s, t, n, data);
    hide Linked, DataOf, Cells, Locks, TailIs, Tested, Asked, Counted, SleepsWell, InHand;
  }

  /** A thread inside its critical section is alone there. */
  lemma Alone(s: State, t: Thread)
    requires Locks(s) && t in s.calls && CallInSection(s.calls[t])
    ensures s.sendLock == Some(t) && !SenderInSection(s.sender) && t != Sender
    ensures forall u :: u in s.calls && CallInSection(s.calls[u]) ==> u == t
  {
  }

  lemma TailOutside(s: State, t: Thread)
    requires Locks(s) && TailIs(s) && t in s.calls && CallInSection(s.calls[t]) && !s.calls[t].ETail?
    ensures s.tail == Last(s.chain)
  {
    Alone(s, t);
  }

  /** A statement of a call changes no packet and no other call. */
  lemma CallAsks(s: State, t: Thread)
    requires Asked(s) && t in s.calls && CallNext(s, t).Some?
    ensures Asked(CallNext(s, t).value)
  {
    CallFrame(s, t);
    hide CallNext;
  }

  lemma CallFrame(s: State, t: Thread)
    requires t in s.calls && CallNext(s, t).Some?
    ensures var next := CallNext(s, t).value;
      && next.asked == s.asked && (forall n :: PacketAt(next.heap, n) == PacketAt(s.heap, n))
      && (forall u :: u in next.calls ==> u in s.calls && (u != t ==> next.calls[u] == s.calls[u]))
      && (forall n :: t in next.calls && Pending(next.calls[t], n) ==> Pending(s.calls[t], n))
  {
    CallMoves(s, t);
    CallKeepsPackets(s, t);
    hide CallNext, PacketAt, Pending;
  }

  lemma CallKeepsPackets(s: State, t: Thread)
    requires t in s.calls && CallNext(s, t).Some?
    ensures CallNext(s, t).value.asked == s.asked
    ensures forall n :: PacketAt(CallNext(s, t).value.heap, n) == PacketAt(s.heap, n)
  {
  }

  lemma EmptyTouches(s: State, t: Thread, n: nat)
    requires t in s.calls && s.calls[t] == ETest(n) && s.tail.None? && n in s.heap
    ensures CallNext(s, t) == Some(s.(tail := Some(n), head := Some(n), calls := s.calls[t := ESignal],
                                      chain := s.chain + [n], enqueued := s.enqueued + [s.heap[n].data]))
    ensures Pending(ETest(n), n) && forall m :: !Pending(ESignal, m)
  {
  }

  lemma EmptyKeepsCells(s: State, t: Thread, n: nat)
    requires Cells(s) && t in s.calls && s.calls[t] == ETest(n) && s.tail.None?
    ensures CallNext(s, t).Some? && Cells(CallNext(s, t).value)
  {
    PendingCell(s, t, n);
    EmptyTouches(s, t, n);
    hide CallNext, Holds, Pending;
  }

  lemma EmptyKeepsLocks(s: State, t: Thread, n: nat)
    requires Locks(s) && t in s.calls && s.calls[t] == ETest(n) && s.tail.None? && n in s.heap && s.chain == []
    ensures CallNext(s, t).Some?
    ensures var next := CallNext(s, t).value; Locks(next) && TailIs(next) && Tested(next) && SleepsWell(next)
  {
    Alone(s, t);
    EmptyTouches(s, t, n);
    hide CallNext, Holds, Pending;
    assert CallNext(s, t).value.calls[t].ESignal?;
  }

  /** While a thread links its cell, no other one is counting. */
  lemma NobodyCounts(s: State, t: Thread)
    requires Locks(s) && t in s.calls && (s.calls[t].ETest? || s.calls[t].ELink?) && CallNext(s, t).Some?
    ensures Counted(CallNext(s, t).value)
  {
    Alone(s, t);
  }

  /** The first cell becomes head and tail. */
  lemma EntersEmpty(s: State, t: Thread)
    requires Inv(s) && t in s.calls && s.calls[t].ETest? && s.tail.None?
    ensures s.chain == [] && CallNext(s, t).Some? && Inv(CallNext(s, t).value)
  {
    var n := s.calls[t].n;
    PendingCell(s, t, n);
    TailOutside(s, t);
    FirstCell(s.heap, n);
    EmptyTouches(s, t, n);
    EmptyKeepsCells(s, t, n);
    EmptyKeepsLocks(s, t, n);
    CallAsks(s, t);
    NobodyCounts(s, t);
    hide Linked, DataOf, Cells, Locks, TailIs, Tested, Asked, Counted, SleepsWell, CallNext, Holds, Pending;
    assert s.chain + [n] == [n];
    assert DataOf(s.heap, s.chain) == [];
    assert InHand(CallNext(s, t).value) == InHand(s);
  }

  lemma LinkKeepsLocks(s: State, t: Thread, n: nat)
    requires Locks(s) && TailIs(s) && Tested(s) && SleepsWell(s)
    requires t in s.calls && s.calls[t] == ELink(n) && n in s.heap && s.tail.Some? && s.tail.value in s.heap
    ensures CallNext(s, t).Some?
    ensures var next := CallNext(s, t).value; Locks(next) && TailIs(next) && Tested(next) && SleepsWell(next)
  {
    Alone(s, t);
    TailOutside(s, t);
    LinkTouches(s, t, n);
    assert (s.chain + [n])[..|s.chain|] == s.chain;
    assert CallNext(s, t).value.tail == s.tail && CallNext(s, t).value.sendLock == s.sendLock;
    assert CallNext(s, t).value.receiver == s.receiver && CallNext(s, t).value.holdLock == s.holdLock;
    hide CallNext, Holds, Pending;
  }

  /** The old tail is made to point to the new cell. */
  lemma LinksLast(s: State, t: Thread)
    requires Inv(s) && t in s.calls && s.calls[t].ELink?
    ensures CallNext(s, t).Some? && Inv(CallNext(s, t).value)
  {
    var n := s.calls[t].n;
    PendingCell(s, t, n);
    TailOutside(s, t);
    AppendCell(s.heap, s.head, s.chain, n);
    LinkKeepsCells(s, t, n);
    LinkKeepsLocks(s, t, n);
    LinkHistory(s, t, n);
    CallAsks(s, t);
    NobodyCounts(s, t);
    hide Linked, DataOf, Cells, Locks, TailIs, Asked, Counted, SleepsWell, CallNext, Holds, Pending, InHand;
  }

  lemma LinkHistory(s: State, t: Thread, n: nat)
    requires t in s.calls && s.calls[t] == ELink(n) && n in s.heap && s.tail.Some? && s.tail.value in s.heap
    ensures CallNext(s, t).Some?
    ensures var next := CallNext(s, t).value;
      && next.heap == s.heap[s.tail.value := s.heap[s.tail.value].(next := Some(n))] && next.head == s.head
      && next.chain == s.chain + [n] && next.transmitted == s.transmitted
      && next.enqueued == s.enqueued + [s.heap[n].data] && InHand(next) == InHand(s)
  {
  }

  lemma LinkKeepsCells(s: State, t: Thread, n: nat)
    requires Cells(s) && t in s.calls && s.calls[t] == ELink(n) && s.tail.Some? && s.tail.value in s.heap && s.tail.value in s.chain
    ensures CallNext(s, t).Some? && Cells(CallNext(s, t).value)
  {
    PendingCell(s, t, n);
    LinkTouches(s, t, n);
    hide CallNext, Holds, Pending;
  }

  lemma LinkTouches(s: State, t: Thread, n: nat)
    requires t in s.calls && s.calls[t] == ELink(n) && n in s.heap && s.tail.Some? && s.tail.value in s.heap
    ensures CallNext(s, t).Some?
    ensures var next := CallNext(s, t).value;
      && next.heap == s.heap[s.tail.value := s.heap[s.tail.value].(next := Some(n))]
      && next.chain == s.chain + [n] && next.calls == s.calls[t := ETail(n)] && next.sender == s.sender
    ensures Pending(ELink(n), n) && forall m :: !Pending(ETail(n), m)
  {
  }

  /** The statements that read or write a cell. */
  predicate TouchesCell(s: State, t: Thread)
    requires t in s.calls
  {
    || s.calls[t].ELink? || (s.calls[t].ETest? && s.tail.None?)
    || (s.calls[t].GCount? && s.calls[t].x.Some?)
  }

  /** The statements that only read or write the tail, the locks and the condition variable. */
  lemma CallLeaves(s: State, t: Thread)
    requires t in s.calls && !TouchesCell(s, t)
    ensures CallNext(s, t).Some?
    ensures var next := CallNext(s, t).value;
      && next.heap == s.heap && next.head == s.head && next.chain == s.chain && next.receiver == s.receiver
      && next.enqueued == s.enqueued && next.transmitted == s.transmitted && next.holdLock == s.holdLock
      && (!s.calls[t].ETail? ==> next.tail == s.tail) && (!s.calls[t].ESignal? ==> next.sender == s.sender)
  {
  }

  lemma CallMoves(s: State, t: Thread)
    requires t in s.calls && CallNext(s, t).Some?
    ensures var next := CallNext(s, t).value;
      forall u :: u != t ==> (u in next.calls <==> u in s.calls) && (u in s.calls ==> next.calls[u] == s.calls[u])
    ensures var next := CallNext(s, t).value;
      forall n :: t in next.calls && Pending(next.calls[t], n) ==> Pending(s.calls[t], n)
  {
  }

  lemma CallTouches(s: State, t: Thread)
    requires t in s.calls && !TouchesCell(s, t)
    ensures CallNext(s, t).Some?
    ensures var next := CallNext(s, t).value;
      && next.heap == s.heap && next.head == s.head && next.chain == s.chain && next.receiver == s.receiver
      && next.enqueued == s.enqueued && next.transmitted == s.transmitted && next.holdLock == s.holdLock
      && (!s.calls[t].ETail? ==> next.tail == s.tail) && (!s.calls[t].ESignal? ==> next.sender == s.sender)
      && (forall u :: u != t ==> (u in next.calls <==> u in s.calls) && (u in s.calls ==> next.calls[u] == s.calls[u]))
      && (forall n :: t in next.calls && Pending(next.calls[t], n) ==> Pending(s.calls[t], n))
  {
    CallLeaves(s, t);
    CallMoves(s, t);
    hide CallNext, TouchesCell, Pending;
  }

  lemma CallKeepsCells(s: State, t: Thread)
    requires Cells(s) && t in s.calls && !TouchesCell(s, t)
    ensures CallNext(s, t).Some? && Cells(CallNext(s, t).value)
  {
    CallTouches(s, t);
    hide Pending;
  }

  lemma CallMovesLock(s: State, t: Thread)
    requires Enabled(s, CallStep(t)) && CallNext(s, t).Some? && (s.sendLock == Some(t) <==> CallInSection(s.calls[t]))
    ensures var next := CallNext(s, t).value;
      && (t in next.calls ==> (next.sendLock == Some(t) <==> CallInSection(next.calls[t])))
      && (next.sendLock == Some(t) ==> t in next.calls)
      && (next.sendLock == s.sendLock || (s.sendLock.None? && next.sendLock == Some(t)) || (s.sendLock == Some(t) && next.sendLock.None?))
      && SenderInSection(next.sender) == SenderInSection(s.sender) && Sending(next.sender) == Sending(s.sender)
  {
  }

  lemma CallKeepsLocks(s: State, t: Thread)
    requires Locks(s) && Enabled(s, CallStep(t)) && !TouchesCell(s, t)
    ensures CallNext(s, t).Some? && Locks(CallNext(s, t).value)
  {
    CallTouches(s, t);
    CallMovesLock(s, t);
    hide CallNext, Enabled, Pending, CallInSection, SenderInSection, Sending, InBurst;
  }

  lemma CallKeepsTests(s: State, t: Thread)
    requires Locks(s) && TailIs(s) && Tested(s) && t in s.calls && !TouchesCell(s, t)
    ensures CallNext(s, t).Some? && Tested(CallNext(s, t).value)
  {
    if s.calls[t].ETest? {
      TailOutside(s, t);
    }
    CallTouches(s, t);
    hide Locks, TailIs, Pending;
  }

  lemma CallWakes(s: State, t: Thread)
    requires Inv(s) && Enabled(s, CallStep(t)) && !TouchesCell(s, t)
    ensures CallNext(s, t).Some? && SleepsWell(CallNext(s, t).value)
  {
    CallTouches(s, t);
    hide Linked, DataOf, Cells, Conserved, Locks, TailIs, Tested;
  }

  lemma OtherCalls(s: State, t: Thread)
    requires Inv(s) && Enabled(s, CallStep(t)) && !TouchesCell(s, t)
    ensures CallNext(s, t).Some? && Inv(CallNext(s, t).value)
  {
    CallTouches(s, t);
    CallKeepsCells(s, t);
    CallKeepsTail(s, t);
    CallKeepsLocks(s, t);
    CallKeepsTests(s, t);
    CallWakes(s, t);
    HandKept(s, t);
    CallAsks(s, t);
    CallCounts(s, t);
    hide Linked, DataOf, Cells, TailIs, Locks, Tested, Asked, Counted, SleepsWell, CallNext, InHand;
  }

  /** A count starts at the head, and ends where nothing follows. */
  lemma CountGoesOn(s: State, t: Thread)
    requires Linked(s.heap, s.head, s.chain) && t in s.calls && !TouchesCell(s, t) && CallNext(s, t).Some?
    requires s.calls[t].GCount? ==> CountsTo(s.calls[t].x, s.calls[t].count, s.chain)
    ensures var next := CallNext(s, t).value; t in next.calls ==> CountIs(next.calls[t], s.chain)
  {
    HeadIs(s);
    hide Linked;
  }

  lemma CallCounts(s: State, t: Thread)
    requires Linked(s.heap, s.head, s.chain) && Counted(s) && t in s.calls && !TouchesCell(s, t)
    ensures CallNext(s, t).Some? && Counted(CallNext(s, t).value)
  {
    CallTouches(s, t);
    CountGoesOn(s, t);
    hide CallNext, Linked, Pending, TouchesCell;
  }

  // A call of queue_send_get_size changes only its own place, and its lock.

  predicate Measuring(at: CallAt) {
    at.GLook? || at.GLock? || at.GCount? || at.GUnlock?
  }

  function MeasureAt(s: State, t: Thread, at: CallAt): State {
    s.(calls := s.calls[t := at])
  }

  lemma MeasureKeepsCells(s: State, t: Thread, at: CallAt)
    requires Cells(s) && Asked(s) && Measuring(at)
    ensures Cells(MeasureAt(s, t, at)) && Asked(MeasureAt(s, t, at))
  {
    assert forall n :: !Pending(at, n);
    hide Pending, Holds, PacketAt;
  }

  lemma MeasureKeepsList(s: State, t: Thread, at: CallAt)
    requires TailIs(s) && Tested(s) && Measuring(at) && (t in s.calls ==> Measuring(s.calls[t]))
    ensures TailIs(MeasureAt(s, t, at)) && Tested(MeasureAt(s, t, at)) && InHand(MeasureAt(s, t, at)) == InHand(s)
  {
  }

  lemma MeasureKeepsLocks(s: State, t: Thread, at: CallAt)
    requires Locks(s) && t != Sender && (t == Receiver ==> s.receiver.RHandler?)
    requires s.sendLock == Some(t) <==> CallInSection(at)
    ensures Locks(MeasureAt(s, t, at))
  {
    hide CallInSection, SenderInSection, Sending, InBurst;
  }

  lemma MeasureSleeps(s: State, t: Thread, at: CallAt)
    requires SleepsWell(s) && Measuring(at) && (t in s.calls ==> Measuring(s.calls[t]))
    ensures SleepsWell(MeasureAt(s, t, at))
  {
    if s.sender.SSleep? && s.chain != [] {
      var u :| u in s.calls && s.calls[u].ESignal?;
      assert MeasureAt(s, t, at).calls[u].ESignal?;
    }
  }

  lemma MeasureKeepsInv(s: State, t: Thread, at: CallAt)
    requires Inv(s) && Measuring(at) && (t in s.calls ==> Measuring(s.calls[t]))
    requires t != Sender && (t == Receiver ==> s.receiver.RHandler?) && (s.sendLock == Some(t) <==> CallInSection(at))
    requires CountIs(at, s.chain)
    ensures Inv(MeasureAt(s, t, at))
  {
    MeasureKeepsCells(s, t, at);
    MeasureKeepsList(s, t, at);
    MeasureKeepsLocks(s, t, at);
    MeasureSleeps(s, t, at);
    hide Locks, Linked, DataOf, TailIs, Cells, Tested, Asked, SleepsWell, InHand, CountIs;
  }

  /** The counting loop passes one cell. */
  lemma CountsCell(s: State, t: Thread)
    requires Inv(s) && t in s.calls && s.calls[t].GCount? && s.calls[t].x.Some?
    ensures CallNext(s, t).Some? && Inv(CallNext(s, t).value)
  {
    assert CountIs(s.calls[t], s.chain);
    assert NextIs(s.heap, s.chain, s.calls[t].count);
    Alone(s, t);
    hide Inv, Locks;
    MeasureKeepsInv(s, t, CallNext(s, t).value.calls[t]);
  }

  lemma MeasureKeeps(s: State, t: Thread)
    requires Inv(s) && Enabled(s, Measure(t))
    ensures Inv(MeasureAt(s, t, GLook))
  {
    assert s.sendLock != Some(t) by {
      hide Linked;
    }
    hide Inv;
    MeasureKeepsInv(s, t, GLook);
  }

  /** A signal moves only a sleeping sender, whose hands are empty. */
  lemma HandKept(s: State, t: Thread)
    requires t in s.calls && !TouchesCell(s, t)
    ensures CallNext(s, t).Some? && InHand(CallNext(s, t).value) == InHand(s)
  {
  }

  lemma CallKeepsTail(s: State, t: Thread)
    requires Inv(s) && Enabled(s, CallStep(t)) && !TouchesCell(s, t)
    ensures CallNext(s, t).Some? && TailIs(CallNext(s, t).value)
  {
    hide Linked, DataOf, Cells, Conserved, SleepsWell;
    if CallInSection(s.calls[t]) {
      Alone(s, t);
    }
  }

  lemma CallKeeps(s: State, t: Thread)
    requires Inv(s) && Enabled(s, CallStep(t))
    ensures CallNext(s, t).Some? && Inv(CallNext(s, t).value)
  {
    hide Inv, CallNext;
    if s.calls[t].ELink? {
      LinksLast(s, t);
    } else if s.calls[t].ETest? && s.tail.None? {
      EntersEmpty(s, t);
    } else if s.calls[t].GCount? && s.calls[t].x.Some? {
      CountsCell(s, t);
    } else {
      OtherCalls(s, t);
    }
  }

  /** Every action of every thread keeps the invariant, and none touches a null or freed cell. */
  lemma StepKeeps(s: State, a: Action)
    requires Inv(s) && Enabled(s, a)
    ensures Do(s, a).Some? && Inv(Do(s, a).value)
  {
    match a
    case SenderStep => SenderKeeps(s);
    case WakeUp => WakeUpKeeps(s);
    case ReceiverStep(yes) => ReceiverKeeps(s, yes);
    case Call(t, n, data) => EnterKeeps(s, t, n, data);
    case Measure(t) => MeasureKeeps(s, t);
    case CallStep(t) => CallKeeps(s, t);
  }

  // ---------- Runs ----------

  /** The state after some actions; None if one of them cannot happen then, or crashes. */
  function Run(s: State, actions: seq<Action>): Option<State>
    decreases |actions|
  {
    if actions == [] then Some(s)
    else if !Enabled(s, actions[0]) || Do(s, actions[0]).None? then None
    else Run(Do(s, actions[0]).value, actions[1..])
  }

  lemma {:induction false} RunKeeps(s: State, actions: seq<Action>)
    requires Inv(s) && Run(s, actions).Some?
    ensures Inv(Run(s, actions).value)
    decreases |actions|
  {
    hide Inv, Do, Enabled;
    if actions != [] {
      StepKeeps(s, actions[0]);
      RunKeeps(Do(s, actions[0]).value, actions[1..]);
    }
  }

  ghost predicate Reachable(s: State) {
    exists actions: seq<Action> :: Run(Init(), actions) == Some(s)
  }

  lemma ReachableInv(s: State)
    requires Reachable(s)
    ensures Inv(s)
  {
    hide Run, Inv, Init;
    var actions: seq<Action> :| Run(Init(), actions) == Some(s);
    InitInv();
    RunKeeps(Init(), actions);
  }

  // ---------- Main results ----------

  /** No interleaving follows a null or freed pointer or frees a cell twice. */
  lemma NeverCrashes(s: State, a: Action)
    requires Reachable(s) && Enabled(s, a)
    ensures Do(s, a).Some?
  {
    hide Inv, Do, Enabled, Reachable;
    ReachableInv(s);
    StepKeeps(s, a);
  }

  /**
   In every interleaving, what has been sent, then the packet in the sender's hand, then
   the list followed by its pointers, is exactly what was enqueued, in that order.
   */
  lemma SentInOrder(s: State)
    requires Reachable(s)
    ensures s.transmitted <= s.enqueued
    ensures s.enqueued == s.transmitted + InHand(s) + DataOf(s.heap, s.chain) && |InHand(s)| <= 1
    ensures Linked(s.heap, s.head, s.chain)
  {
    hide Reachable;
    ReachableInv(s);
  }

  /** The statement that puts a call's cell into the list. */
  predicate Links(s: State, a: Action) {
    a.CallStep? && a.t in s.calls && ((s.calls[a.t].ETest? && s.tail.None?) || s.calls[a.t].ELink?)
  }

  lemma CallEnqueues(s: State, t: Thread)
    requires t in s.calls && CallNext(s, t).Some?
    ensures CallNext(s, t).value.enqueued ==
      s.enqueued + (if Links(s, CallStep(t)) then [PacketAt(s.heap, s.calls[t].n)] else [])
  {
  }

  lemma OthersEnqueueNothing(s: State, a: Action)
    requires Enabled(s, a) && Do(s, a).Some? && !a.CallStep?
    ensures Do(s, a).value.enqueued == s.enqueued
  {
  }

  /** Each call enqueues what it was asked to send, by that one statement and no other. */
  lemma EnqueuesWhatWasAsked(s: State, a: Action)
    requires Reachable(s) && Enabled(s, a)
    ensures Links(s, a) ==> a.t in s.asked
    ensures Do(s, a).Some? && Do(s, a).value.enqueued == s.enqueued + (if Links(s, a) then [s.asked[a.t]] else [])
    ensures a.Call? ==> a.t in Do(s, a).value.asked && Do(s, a).value.asked[a.t] == a.data
  {
    NeverCrashes(s, a);
    ReachableInv(s);
    hide Reachable, Linked, DataOf, TailIs, Conserved, SleepsWell, Tested, Locks, Cells, Enabled, Holds;
    hide SenderNext, ReceiverNext, CallNext;
    if a.CallStep? {
      CallEnqueues(s, a.t);
      assert Links(s, a) ==> Pending(s.calls[a.t], s.calls[a.t].n);
    } else {
      OthersEnqueueNothing(s, a);
    }
  }

  /** While the send mutex is free, head and tail are both null or neither is. */
  lemma HeadNullIffTailNull(s: State)
    requires Reachable(s) && s.sendLock.None?
    ensures s.head.None? <==> s.tail.None?
    ensures s.head.None? <==> s.chain == []
  {
    hide Reachable;
    ReachableInv(s);
  }

  /** The sender sleeps while there is something to send only until a thread that holds the mutex gives its signal. */
  lemma NeverSleepsUnsignalled(s: State)
    requires Reachable(s) && s.sender.SSleep?
    ensures s.sendLock.None? ==> s.head.None?
    ensures s.head.Some? ==> exists t :: t in s.calls && s.calls[t].ESignal? && s.sendLock == Some(t)
  {
    hide Reachable;
    ReachableInv(s);
    if s.chain != [] {
      var t :| t in s.calls && s.calls[t].ESignal?;
      Alone(s, t);
    }
  }

  /** queue_send_get_size returns the number of packets in the list at the moment it decides. */
  lemma SizeIsExact(s: State, t: Thread)
    requires Reachable(s) && t in s.calls
    ensures s.calls[t].GUnlock? ==> s.calls[t].count == |s.chain|
    ensures s.calls[t].GLook? && s.head.None? ==> |s.chain| == 0
  {
    hide Reachable;
    ReachableInv(s);
    HeadIs(s);
  }

  /** Sending never overlaps a burst of receiving. */
  lemma SendingExcludesReceiving(s: State)
    requires Reachable(s)
    ensures !(Sending(s.sender) && InBurst(s.receiver))
  {
    hide Reachable;
    ReachableInv(s);
  }

  // ---------- No deadlock ----------

  predicate AtLock(at: CallAt) {
    at.ELock? || at.GLock?
  }

  /** The next statement of t is to take a lock that is taken. */
  predicate Blocked(s: State, t: Thread) {
    match t
    case Sender =>
      ((s.sender.SLock? || s.sender.SRelock?) && s.sendLock.Some?) || (s.sender.SHold? && s.holdLock.Some?)
    case Receiver =>
      (s.receiver.RLock? && s.holdLock.Some?) || (Receiver in s.calls && AtLock(s.calls[Receiver]) && s.sendLock.Some?)
    case Producer(_) => t in s.calls && AtLock(s.calls[t]) && s.sendLock.Some?
  }

  /** The next statement of t, whatever the radio answers. */
  function NextOf(s: State, t: Thread, yes: bool): Action {
    match t
    case Sender => SenderStep
    case Receiver => if Receiver in s.calls then CallStep(Receiver) else ReceiverStep(yes)
    case Producer(_) => CallStep(t)
  }

  /** Whoever is blocked, a thread that holds a lock can go on. */
  lemma NoDeadlock(s: State, t: Thread, yes: bool) returns (u: Thread)
    requires Reachable(s) && Blocked(s, t)
    ensures u != t && (s.sendLock == Some(u) || s.holdLock == Some(u)) && Enabled(s, NextOf(s, u, yes))
  {
    hide Reachable, Linked, DataOf;
    ReachableInv(s);
    u := if s.sendLock.Some? then s.sendLock.value else s.holdLock.value;
  }

  /** How many statements the holder of the send mutex has left until it unlocks. */
  function SectionLeft(s: State): nat {
    if s.sendLock.None? then 0
    else if s.sendLock.value == Sender then
      (match s.sender
       case STest => 4
       case SPop => 3
       case SFix(_) => 2
       case SUnlock(_) => 1
       case _ => 0)
    else if s.sendLock.value in s.calls then
      (match s.calls[s.sendLock.value]
       case ETest(_) => 4
       case ELink(_) => 3
       case ETail(_) => 2
       case ESignal => 2
       case EUnlock => 1
       case GCount(_, count) => if count < |s.chain| then |s.chain| - count + 2 else 2
       case GUnlock(_) => 1
       case _ => 0)
    else 0
  }

  /** The statements that a thread runs while it holds the send mutex. */
  predicate OwnStatement(s: State, a: Action) {
    (a.SenderStep? && s.sendLock == Some(Sender)) || (a.CallStep? && s.sendLock == Some(a.t))
  }

  lemma SenderSection(s: State)
    requires Locks(s) && Enabled(s, SenderStep) && SenderNext(s).Some? && s.sendLock.Some?
    ensures var next := SenderNext(s).value;
      if s.sendLock == Some(Sender) then 1 <= SectionLeft(s) && SectionLeft(next) < SectionLeft(s)
      else next.sendLock == s.sendLock && SectionLeft(next) == SectionLeft(s)
  {
  }

  lemma CallSection(s: State, t: Thread)
    requires Locks(s) && Counted(s) && Enabled(s, CallStep(t)) && CallNext(s, t).Some? && s.sendLock.Some?
    ensures var next := CallNext(s, t).value;
      if s.sendLock == Some(t) then 1 <= SectionLeft(s) && SectionLeft(next) < SectionLeft(s)
      else next.sendLock == s.sendLock && SectionLeft(next) == SectionLeft(s)
  {
  }

  lemma OtherSection(s: State, a: Action)
    requires Locks(s) && Enabled(s, a) && Do(s, a).Some? && s.sendLock.Some? && !a.SenderStep? && !a.CallStep?
    ensures Do(s, a).value.sendLock == s.sendLock && SectionLeft(Do(s, a).value) == SectionLeft(s)
  {
  }

  /**
   The holder of the send mutex is at most four of its own statements from unlocking, or
   as many more as it has cells to count; others do not delay it.
   */
  lemma SectionEnds(s: State, a: Action)
    requires Reachable(s) && s.sendLock.Some? && Enabled(s, a)
    ensures Do(s, a).Some? && SectionLeft(s) <= 4 + |s.chain|
    ensures if OwnStatement(s, a) then SectionLeft(Do(s, a).value) < SectionLeft(s)
            else Do(s, a).value.sendLock == s.sendLock && SectionLeft(Do(s, a).value) == SectionLeft(s)
  {
    NeverCrashes(s, a);
    hide Reachable, Enabled, Locks, Linked, DataOf, TailIs, Cells, Conserved, Counted, SectionLeft, SenderNext, CallNext, ReceiverNext;
    ReachableInv(s);
    ShortSection(s);
    match a
    case SenderStep => SenderSection(s);
    case CallStep(t) => CallSection(s, t);
    case _ => OtherSection(s, a);
  }

  lemma ShortSection(s: State)
    ensures SectionLeft(s) <= 4 + |s.chain|
  {
  }

  // ---------- The sender alone empties the list ----------

  predicate AtRest(s: State) {
    s.sendLock.None? && s.holdLock.None? && s.sender.SLock?
  }

  /** The state after the sender has taken and sent one packet. */
  function Sent(s: State): State
    requires s.chain != [] && s.chain[0] in s.heap
  {
    var x := s.chain[0];
    s.(heap := s.heap - {x}, head := s.heap[x].next, tail := if s.heap[x].next.None? then None else s.tail,
       chain := s.chain[1..], transmitted := s.transmitted + [s.heap[x].data])
  }

  function Steps(n: nat): (actions: seq<Action>)
    ensures |actions| == n
  {
    seq(n, _ => SenderStep)
  }

  lemma OneStep(s: State, next: State, n: nat)
    requires Enabled(s, SenderStep) && SenderNext(s) == Some(next)
    ensures Run(s, Steps(n + 1)) == Run(next, Steps(n))
  {
    hide Enabled, SenderNext;
    assert Steps(n + 1)[1..] == Steps(n);
  }

  /** The state after the sender has taken a packet out of the list. */
  function Popped(s: State): State
    requires s.chain != [] && s.chain[0] in s.heap
  {
    var x := s.chain[0];
    s.(head := s.heap[x].next, tail := if s.heap[x].next.None? then None else s.tail,
       chain := s.chain[1..], sender := SHold(x))
  }

  lemma PopsOne(s: State, n: nat)
    requires AtRest(s) && s.chain != [] && s.head == Some(s.chain[0]) && s.chain[0] in s.heap
    ensures Run(s, Steps(n + 5)) == Run(Popped(s), Steps(n))
  {
    hide Run;
    var x := s.chain[0];
    var s1 := s.(sendLock := Some(Sender), sender := STest);
    var s2 := s1.(sender := SPop);
    var s3 := s2.(head := s.heap[x].next, sender := SFix(x), chain := s.chain[1..]);
    var s4 := s3.(tail := if s.heap[x].next.None? then None else s.tail, sender := SUnlock(x));
    OneStep(s, s1, n + 4);
    OneStep(s1, s2, n + 3);
    OneStep(s2, s3, n + 2);
    OneStep(s3, s4, n + 1);
    OneStep(s4, Popped(s), n);
  }

  lemma DeliversOne(s: State, x: nat, n: nat)
    requires s.sender == SHold(x) && x in s.heap && s.holdLock.None?
    ensures Run(s, Steps(n + 4))
         == Run(s.(heap := s.heap - {x}, transmitted := s.transmitted + [s.heap[x].data], sender := SLock), Steps(n))
  {
    hide Run;
    var s1 := s.(holdLock := Some(Sender), sender := SSend(x));
    var s2 := s1.(transmitted := s.transmitted + [s.heap[x].data], sender := SDone(x));
    var s3 := s2.(holdLock := None, sender := SFree(x));
    OneStep(s, s1, n + 3);
    OneStep(s1, s2, n + 2);
    OneStep(s2, s3, n + 1);
    OneStep(s3, s3.(heap := s.heap - {x}, sender := SLock), n);
  }

  lemma SendsOne(s: State, n: nat)
    requires AtRest(s) && s.chain != [] && s.head == Some(s.chain[0]) && s.chain[0] in s.heap
    ensures Run(s, Steps(n + 9)) == Run(Sent(s), Steps(n))
  {
    hide Run, Steps;
    PopsOne(s, n + 4);
    DeliversOne(Popped(s), s.chain[0], n);
  }

  lemma RestIsInv(s: State)
    requires Inv(s) && AtRest(s) && s.chain != [] && s.head == Some(s.chain[0]) && s.chain[0] in s.heap
    ensures Inv(Sent(s)) && AtRest(Sent(s))
  {
    hide Inv;
    SendsOne(s, 0);
    NoSteps(Sent(s));
    RunKeeps(s, Steps(9));
  }

  lemma NoSteps(s: State)
    ensures Run(s, Steps(0)) == Some(s)
  {
    assert Steps(0) == [];
  }

  lemma NothingLeft(s: State)
    requires Inv(s) && AtRest(s) && s.chain == []
    ensures s.transmitted == s.enqueued && s.head.None? && s.tail.None?
  {
    hide Linked;
    HeadIs(s);
  }

  /** From rest, nine statements of the sender for each packet send everything that was enqueued. */
  lemma {:induction false} SenderDrains(s: State)
    requires Inv(s) && AtRest(s)
    ensures Run(s, Steps(9 * |s.chain|)).Some?
    ensures var end := Run(s, Steps(9 * |s.chain|)).value;
      end.transmitted == s.enqueued && end.head.None? && end.tail.None? && AtRest(end)
    decreases |s.chain|
  {
    ListIs(s);
    HeadIs(s);
    hide Run, Inv, Steps, AtRest;
    if s.chain == [] {
      NothingLeft(s);
      NoSteps(s);
    } else {
      SendsOne(s, 9 * (|s.chain| - 1));
      RestIsInv(s);
      SenderDrains(Sent(s));
    }
  }

  lemma ListIs(s: State)
    requires Inv(s)
    ensures Linked(s.heap, s.head, s.chain)
  {
  }

  // ---------- The length of the list ----------

  /** The loop of queue_send_get_size, as a loop on a list that nobody changes. */
  method GetSize(heap: map<nat, Cell>, head: Option<nat>, ghost chain: seq<nat>) returns (count: nat)
    requires Linked(heap, head, chain)
    ensures count == |chain|
  {
    count := 0;
    if head.None? {
      return;
    }
    var x := head;
    while x.Some?
      invariant count <= |chain| && x == if count < |chain| then Some(chain[count]) else None
      decreases |chain| - count
    {
      assert NextIs(heap, chain, count);
      x := heap[x.value].next;
      count := count + 1;
    }
  }
}
