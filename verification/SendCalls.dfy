/**
 What calls of queue_send_packet achieve: over any run, each thread's packets are put into
 the list exactly once and in the order of its calls, and a call that is not held up
 needs at most five statements to do it.
 */
module SendCalls {
  import opened Wrappers
  import opened SendQueue

  // ---------- Nothing asked is forgotten ----------

  /** A call of queue_send_packet whose packet is not yet in the list. */
  predicate Waiting(at: CallAt) {
    at.ELock? || at.ETest? || at.ELink?
  }

  predicate WaitsFor(s: State, t: Thread) {
    t in s.calls && Waiting(s.calls[t])
  }

  /** What thread t asked to send, call by call. */
  function AskedBy(actions: seq<Action>, t: Thread): seq<Data> {
    if actions == [] then []
    else (if actions[0].Call? && actions[0].t == t then [actions[0].data] else []) + AskedBy(actions[1..], t)
  }

  /** Who put what into the list, in order. */
  function Log(s: State, actions: seq<Action>): seq<(Thread, Data)>
    requires Run(s, actions).Some?
    decreases |actions|
  {
    if actions == [] then []
    else
      var a := actions[0];
      (if Links(s, a) then [(a.t, PacketAt(s.heap, s.calls[a.t].n))] else []) + Log(Do(s, a).value, actions[1..])
  }

  function By(log: seq<(Thread, Data)>, t: Thread): seq<Data> {
    if log == [] then [] else (if log[0].0 == t then [log[0].1] else []) + By(log[1..], t)
  }

  function DataIn(log: seq<(Thread, Data)>): seq<Data> {
    if log == [] then [] else [log[0].1] + DataIn(log[1..])
  }

  /** What the thread has asked for and not yet got. */
  function Owed(s: State, t: Thread): seq<Data> {
    if WaitsFor(s, t) && t in s.asked then [s.asked[t]] else []
  }

  function Sees(s: State, a: Action): seq<(Thread, Data)> {
    if Links(s, a) then [(a.t, PacketAt(s.heap, s.calls[a.t].n))] else []
  }

  lemma LinkingPacket(s: State, a: Action)
    requires Asked(s) && Links(s, a)
    ensures a.t in s.asked && PacketAt(s.heap, s.calls[a.t].n) == s.asked[a.t] && WaitsFor(s, a.t)
  {
    assert Pending(s.calls[a.t], s.calls[a.t].n);
    hide PacketAt;
  }

  lemma WaitingIsAsked(s: State, t: Thread)
    requires Asked(s) && WaitsFor(s, t)
    ensures t in s.asked
  {
    assert Pending(s.calls[t], s.calls[t].n);
    hide PacketAt;
  }

  lemma CallOwes(s: State, t: Thread, u: Thread)
    requires Asked(s) && t in s.calls && CallNext(s, t).Some? && Asked(CallNext(s, t).value)
    ensures Owed(s, u) == By(Sees(s, CallStep(t)), u) + Owed(CallNext(s, t).value, u)
  {
    CallFrame(s, t);
    CallMoves(s, t);
    if u == t {
      CallStepOwes(s, t);
    } else {
      hide CallNext, PacketAt, Pending;
      SeesOther(s, t, u);
    }
  }

  lemma SeesOther(s: State, t: Thread, u: Thread)
    requires u != t
    ensures By(Sees(s, CallStep(t)), u) == []
  {
    if Links(s, CallStep(t)) {
      assert Sees(s, CallStep(t))[1..] == [];
    }
  }

  lemma CallStepOwes(s: State, t: Thread)
    requires Asked(s) && t in s.calls && CallNext(s, t).Some? && CallNext(s, t).value.asked == s.asked
    ensures Owed(s, t) == By(Sees(s, CallStep(t)), t) + Owed(CallNext(s, t).value, t)
  {
    if Links(s, CallStep(t)) {
      LinkingPacket(s, CallStep(t));
      assert Sees(s, CallStep(t))[1..] == [];
    }
    hide PacketAt, Asked;
  }

  lemma OthersOwe(s: State, a: Action, u: Thread)
    requires Enabled(s, a) && Do(s, a).Some? && !a.CallStep?
    ensures Owed(s, u) + (if a.Call? && a.t == u then [a.data] else []) == Owed(Do(s, a).value, u)
    ensures Sees(s, a) == []
  {
    match a
    case SenderStep => SenderLeavesCalls(s); hide SenderNext;
    case ReceiverStep(yes) => ReceiverTouches(s, yes); hide ReceiverNext;
    case _ =>
  }

  /** One action: what is owed to a thread grows by its call and shrinks by its linking statement. */
  lemma StepOwes(s: State, a: Action, u: Thread)
    requires Inv(s) && Enabled(s, a)
    ensures Do(s, a).Some?
    ensures Owed(s, u) + (if a.Call? && a.t == u then [a.data] else []) == By(Sees(s, a), u) + Owed(Do(s, a).value, u)
  {
    StepKeeps(s, a);
    if a.CallStep? {
      CallOwes(s, a.t, u);
    } else {
      OthersOwe(s, a, u);
      assert By([], u) == [];
    }
    hide *;
  }

  lemma {:induction false} ByAppend(a: seq<(Thread, Data)>, b: seq<(Thread, Data)>, t: Thread)
    ensures By(a + b, t) == By(a, t) + By(b, t)
    decreases |a|
  {
    if a == [] {
      assert a + b == b;
    } else {
      assert (a + b)[1..] == a[1..] + b;
      ByAppend(a[1..], b, t);
    }
  }

  lemma LogStep(s: State, actions: seq<Action>)
    requires actions != [] && Run(s, actions).Some?
    ensures Enabled(s, actions[0]) && Do(s, actions[0]).Some? && Run(Do(s, actions[0]).value, actions[1..]) == Run(s, actions)
    ensures Log(s, actions) == Sees(s, actions[0]) + Log(Do(s, actions[0]).value, actions[1..])
  {
    hide Do, Enabled, Links, PacketAt;
  }

  lemma {:induction false} RunOwes(s: State, actions: seq<Action>, t: Thread)
    requires Inv(s) && Run(s, actions).Some?
    ensures Owed(s, t) + AskedBy(actions, t) == By(Log(s, actions), t) + Owed(Run(s, actions).value, t)
    decreases |actions|
  {
    if actions != [] {
      var a, rest := actions[0], actions[1..];
      LogStep(s, actions);
      hide Inv, Do, Enabled, Owed, Sees, Run, Log;
      StepKeeps(s, a);
      StepOwes(s, a, t);
      RunOwes(Do(s, a).value, rest, t);
      var s1, e := Do(s, a).value, Run(s, actions).value;
      ByAppend(Sees(s, a), Log(s1, rest), t);
      Rejoined(Owed(s, t), if a.Call? && a.t == t then [a.data] else [], By(Sees(s, a), t), Owed(s1, t),
               AskedBy(rest, t), By(Log(s1, rest), t), Owed(e, t));
    }
  }

  lemma Rejoined(a: seq<Data>, x: seq<Data>, b: seq<Data>, c: seq<Data>, y: seq<Data>, d: seq<Data>, e: seq<Data>)
    requires a + x == b + c && c + y == d + e
    ensures a + (x + y) == (b + d) + e
  {
    assert a + (x + y) == (a + x) + y;
    assert (b + c) + y == b + (c + y);
    assert b + (d + e) == (b + d) + e;
  }

  /**
   Main result: over any run, what a thread has put into the list, and then what its
   unfinished call still owes, is what its calls asked to send, each once and in order.
   */
  lemma EachCallEnqueuesOnce(actions: seq<Action>, t: Thread)
    requires Run(Init(), actions).Some?
    ensures var s := Run(Init(), actions).value;
      && (WaitsFor(s, t) ==> t in s.asked)
      && AskedBy(actions, t) == By(Log(Init(), actions), t) + if WaitsFor(s, t) then [s.asked[t]] else []
  {
    InitInv();
    RunOwes(Init(), actions, t);
    RunKeeps(Init(), actions);
    assert Owed(Init(), t) == [];
    var s := Run(Init(), actions).value;
    if WaitsFor(s, t) {
      WaitingIsAsked(s, t);
    }
    hide Inv, Run, Log, Init;
  }

  /** So a thread whose calls have all returned has had every packet put into the list. */
  lemma ReturnedMeansEnqueued(actions: seq<Action>, t: Thread)
    requires Run(Init(), actions).Some? && t !in Run(Init(), actions).value.calls
    ensures By(Log(Init(), actions), t) == AskedBy(actions, t)
  {
    hide Run, Init;
    EachCallEnqueuesOnce(actions, t);
  }

  lemma {:induction false} DataAppend(a: seq<(Thread, Data)>, b: seq<(Thread, Data)>)
    ensures DataIn(a + b) == DataIn(a) + DataIn(b)
    decreases |a|
  {
    if a == [] {
      assert a + b == b;
    } else {
      assert (a + b)[1..] == a[1..] + b;
      DataAppend(a[1..], b);
    }
  }

  lemma StepLogs(s: State, a: Action)
    requires Enabled(s, a) && Do(s, a).Some?
    ensures Do(s, a).value.enqueued == s.enqueued + DataIn(Sees(s, a))
  {
    if a.CallStep? {
      CallEnqueues(s, a.t);
      hide CallNext, PacketAt;
      if Links(s, a) {
        assert Sees(s, a)[1..] == [];
      }
    } else {
      OthersEnqueueNothing(s, a);
    }
  }

  /** The history of what was enqueued is that log. */
  lemma {:induction false} EnqueuedIsLog(s: State, actions: seq<Action>)
    requires Run(s, actions).Some?
    ensures Run(s, actions).value.enqueued == s.enqueued + DataIn(Log(s, actions))
    decreases |actions|
  {
    if actions != [] {
      LogStep(s, actions);
      hide Do, Enabled, Sees, Run, Log;
      StepLogs(s, actions[0]);
      EnqueuedIsLog(Do(s, actions[0]).value, actions[1..]);
      DataAppend(Sees(s, actions[0]), Log(Do(s, actions[0]).value, actions[1..]));
    }
  }

  // ---------- How many packets there are ----------

  function Calls(actions: seq<Action>): nat {
    if actions == [] then 0 else (if actions[0].Call? then 1 else 0) + Calls(actions[1..])
  }

  function WaitingCalls(s: State): set<Thread> {
    set t | t in s.calls && Waiting(s.calls[t])
  }

  lemma CallCountsOne(s: State, t: Thread)
    requires t in s.calls && CallNext(s, t).Some?
    ensures WaitingCalls(CallNext(s, t).value) == WaitingCalls(s) - (if Links(s, CallStep(t)) then {t} else {})
    ensures Links(s, CallStep(t)) ==> t in WaitingCalls(s)
  {
    CallMoves(s, t);
    CallStaysWaiting(s, t);
    hide CallNext, Pending, Links;
  }

  lemma CallStaysWaiting(s: State, t: Thread)
    requires t in s.calls && CallNext(s, t).Some?
    ensures WaitsFor(CallNext(s, t).value, t) <==> WaitsFor(s, t) && !Links(s, CallStep(t))
    ensures Links(s, CallStep(t)) ==> WaitsFor(s, t)
  {
  }

  lemma CallStepCounts(s: State, t: Thread)
    requires t in s.calls && CallNext(s, t).Some?
    ensures var next := CallNext(s, t).value; |WaitingCalls(s)| + |s.enqueued| == |WaitingCalls(next)| + |next.enqueued|
  {
    CallCountsOne(s, t);
    CallEnqueues(s, t);
    hide CallNext, Links, WaitingCalls;
  }

  lemma OtherCounts(s: State, a: Action)
    requires Enabled(s, a) && Do(s, a).Some? && !a.CallStep?
    ensures Do(s, a).value.enqueued == s.enqueued
    ensures WaitingCalls(Do(s, a).value) == WaitingCalls(s) + (if a.Call? then {a.t} else {})
    ensures a.Call? ==> a.t !in WaitingCalls(s)
  {
    match a
    case SenderStep => SenderLeavesCalls(s); hide SenderNext;
    case ReceiverStep(yes) => ReceiverTouches(s, yes); hide ReceiverNext;
    case _ =>
  }

  lemma StepCounts(s: State, a: Action)
    requires Inv(s) && Enabled(s, a)
    ensures Do(s, a).Some?
    ensures |WaitingCalls(s)| + |s.enqueued| + (if a.Call? then 1 else 0) == |WaitingCalls(Do(s, a).value)| + |Do(s, a).value.enqueued|
  {
    StepKeeps(s, a);
    if a.CallStep? {
      CallStepCounts(s, a.t);
    } else {
      OtherCounts(s, a);
    }
    hide *;
  }

  /** Main result: the packets enqueued and the calls that are still to enqueue theirs number as many as the calls made. */
  lemma {:induction false} CallsAreEnqueued(s: State, actions: seq<Action>)
    requires Inv(s) && Run(s, actions).Some?
    ensures var e := Run(s, actions).value;
      |WaitingCalls(s)| + |s.enqueued| + Calls(actions) == |WaitingCalls(e)| + |e.enqueued|
    decreases |actions|
  {
    hide Inv, Do, Enabled, WaitingCalls;
    if actions != [] {
      StepKeeps(s, actions[0]);
      StepCounts(s, actions[0]);
      CallsAreEnqueued(Do(s, actions[0]).value, actions[1..]);
    }
  }

  lemma CallsFromStart(actions: seq<Action>)
    requires Run(Init(), actions).Some?
    ensures var e := Run(Init(), actions).value; |WaitingCalls(e)| + |e.enqueued| == Calls(actions)
  {
    hide Run;
    InitInv();
    CallsAreEnqueued(Init(), actions);
    assert WaitingCalls(Init()) == {};
  }

  // ---------- A call by itself ----------

  function OwnSteps(t: Thread, k: nat): (actions: seq<Action>)
    ensures |actions| == k
  {
    seq(k, _ => CallStep(t))
  }

  lemma OneOwnStep(s: State, next: State, t: Thread, k: nat)
    requires Enabled(s, CallStep(t)) && CallNext(s, t) == Some(next)
    ensures Run(s, OwnSteps(t, k + 1)) == Run(next, OwnSteps(t, k))
  {
    hide Enabled, CallNext;
    assert OwnSteps(t, k + 1)[1..] == OwnSteps(t, k);
  }

  lemma NoOwnSteps(s: State, t: Thread)
    ensures Run(s, OwnSteps(t, 0)) == Some(s)
  {
    assert OwnSteps(t, 0) == [];
  }

  /** The statements a call takes once it has the mutex: four for the first packet of a list, five for others. */
  function Statements(s: State): nat {
    if s.tail.None? then 4 else 5
  }

  lemma FirstPacket(s: State, t: Thread, n: nat)
    requires t in s.calls && s.calls[t] == ELock(n) && s.sendLock.None? && s.tail.None? && n in s.heap
    ensures Run(s, OwnSteps(t, 4)) == Some(s.(tail := Some(n), head := Some(n), calls := s.calls - {t},
      chain := s.chain + [n], enqueued := s.enqueued + [s.heap[n].data],
      sender := if s.sender.SSleep? then SRelock else s.sender))
  {
    hide Run;
    var s1 := s.(sendLock := Some(t), calls := s.calls[t := ETest(n)]);
    var s2 := s1.(tail := Some(n), head := Some(n), calls := s1.calls[t := ESignal],
                  chain := s.chain + [n], enqueued := s.enqueued + [s.heap[n].data]);
    var s3 := s2.(sender := if s.sender.SSleep? then SRelock else s.sender, calls := s2.calls[t := EUnlock]);
    var s4 := s3.(sendLock := None, calls := s3.calls - {t});
    OneOwnStep(s, s1, t, 3);
    OneOwnStep(s1, s2, t, 2);
    OneOwnStep(s2, s3, t, 1);
    OneOwnStep(s3, s4, t, 0);
    NoOwnSteps(s4, t);
    assert s4.calls == s.calls - {t};
  }

  lemma LaterPacket(s: State, t: Thread, n: nat, l: nat)
    requires t in s.calls && s.calls[t] == ELock(n) && s.sendLock.None? && s.tail == Some(l) && l in s.heap && n in s.heap
    ensures Run(s, OwnSteps(t, 5)) == Some(s.(heap := s.heap[l := s.heap[l].(next := Some(n))], tail := Some(n),
      calls := s.calls - {t}, chain := s.chain + [n], enqueued := s.enqueued + [s.heap[n].data]))
  {
    hide Run;
    var s1 := s.(sendLock := Some(t), calls := s.calls[t := ETest(n)]);
    var s2 := s1.(calls := s1.calls[t := ELink(n)]);
    var s3 := s2.(heap := s.heap[l := s.heap[l].(next := Some(n))], calls := s2.calls[t := ETail(n)],
                  chain := s.chain + [n], enqueued := s.enqueued + [s.heap[n].data]);
    var s4 := s3.(tail := Some(n), calls := s3.calls[t := EUnlock]);
    var s5 := s4.(sendLock := None, calls := s4.calls - {t});
    OneOwnStep(s, s1, t, 4);
    OneOwnStep(s1, s2, t, 3);
    OneOwnStep(s2, s3, t, 2);
    OneOwnStep(s3, s4, t, 1);
    OneOwnStep(s4, s5, t, 0);
    NoOwnSteps(s5, t);
    assert s5.calls == s.calls - {t};
  }

  lemma CallThenSteps(s: State, t: Thread, n: nat, data: Data, k: nat)
    requires Enabled(s, Call(t, n, data))
    ensures Run(s, [Call(t, n, data)] + OwnSteps(t, k)) == Run(Entered(s, t, n, data), OwnSteps(t, k))
  {
    hide Enabled, Entered;
    assert ([Call(t, n, data)] + OwnSteps(t, k))[1..] == OwnSteps(t, k);
  }

  lemma TailInHeap(s: State)
    requires Inv(s) && s.sendLock.None? && s.tail.Some?
    ensures s.tail.value in s.heap
  {
    hide DataOf, Conserved, SleepsWell;
    assert NextIs(s.heap, s.chain, |s.chain| - 1);
  }

  /**
   Main result: with the send mutex free, a call and its thread's own next statements, four
   or five, put the packet at the end of the list and return, whatever the others are at.
   */
  lemma SendCompletes(s: State, t: Thread, n: nat, data: Data)
    requires Inv(s) && s.sendLock.None? && Enabled(s, Call(t, n, data))
    ensures var r := Run(s, [Call(t, n, data)] + OwnSteps(t, Statements(s)));
      && r.Some? && Inv(r.value)
      && r.value.enqueued == s.enqueued + [data] && r.value.chain == s.chain + [n] && r.value.calls == s.calls
      && r.value.sendLock.None? && r.value.holdLock == s.holdLock && r.value.transmitted == s.transmitted
      && r.value.sender == if s.sender.SSleep? && s.tail.None? then SRelock else s.sender
  {
    var s0 := Entered(s, t, n, data);
    CallThenSteps(s, t, n, data, Statements(s));
    EnterKeeps(s, t, n, data);
    if s.tail.None? {
      FirstPacket(s0, t, n);
    } else {
      TailInHeap(s);
      LaterPacket(s0, t, n, s.tail.value);
    }
    assert s.calls[t := ELock(n)] - {t} == s.calls;
    hide Run, Inv, OwnSteps;
    RunKeeps(s0, OwnSteps(t, Statements(s)));
  }

  /** Main result: from rest, once the call has returned the sender's own statements send the packet, as the last of all. */
  lemma CallIsSent(s: State, t: Thread, n: nat, data: Data)
    requires Inv(s) && AtRest(s) && Enabled(s, Call(t, n, data))
    ensures var r := Run(s, [Call(t, n, data)] + OwnSteps(t, Statements(s)));
      && r.Some? && Run(r.value, Steps(9 * |r.value.chain|)).Some?
      && Run(r.value, Steps(9 * |r.value.chain|)).value.transmitted == s.enqueued + [data]
  {
    SendCompletes(s, t, n, data);
    hide Run, Inv, OwnSteps, Steps, Enabled;
    SenderDrains(Run(s, [Call(t, n, data)] + OwnSteps(t, Statements(s))).value);
  }

  // ---------- A sleeping sender ----------

  /** With nothing to send, two statements of the sender put it to sleep, and no mutex is held. */
  lemma SleepsWhenEmpty(s: State)
    requires AtRest(s) && s.head.None?
    ensures Run(s, Steps(2)) == Some(s.(sender := SSleep))
    ensures !Enabled(s.(sender := SSleep), SenderStep)
  {
    hide Run;
    var s1 := s.(sendLock := Some(Sender), sender := STest);
    OneStep(s, s1, 1);
    OneStep(s1, s.(sender := SSleep), 0);
    NoSteps(s.(sender := SSleep));
  }

  lemma RelockIsLock(s: State, k: nat)
    requires s.sender == SRelock && s.sendLock.None?
    ensures Run(s, Steps(k + 1)) == Run(s.(sender := SLock), Steps(k + 1))
  {
    hide Run;
    var next := s.(sendLock := Some(Sender), sender := STest);
    OneStep(s, next, k);
    OneStep(s.(sender := SLock), next, k);
  }

  lemma RelockInv(s: State)
    requires Inv(s) && s.sender == SRelock
    ensures Inv(s.(sender := SLock))
  {
    hide Linked, DataOf, Counted, Asked;
    CallsAlone(s, s.(sender := SLock));
  }

  /** Main result: a call wakes a sender that sleeps on the empty list, and its own nine statements then send the packet. */
  lemma SleeperSends(s: State, t: Thread, n: nat, data: Data)
    requires Inv(s) && s.sender == SSleep && s.sendLock.None? && s.holdLock.None? && s.head.None? && Enabled(s, Call(t, n, data))
    ensures var r := Run(s, [Call(t, n, data)] + OwnSteps(t, 4));
      && r.Some? && r.value.sender == SRelock && Run(r.value, Steps(9)).Some?
      && Run(r.value, Steps(9)).value.transmitted == s.enqueued + [data]
  {
    EmptyMeansNoTail(s);
    SendCompletes(s, t, n, data);
    var r := Run(s, [Call(t, n, data)] + OwnSteps(t, 4)).value;
    RelockIsLock(r, 8);
    RelockInv(r);
    assert AtRest(r.(sender := SLock)) && |r.chain| == 1;
    hide Run, Inv, OwnSteps, Steps, Enabled;
    SenderDrains(r.(sender := SLock));
  }

  lemma EmptyMeansNoTail(s: State)
    requires Inv(s) && s.sendLock.None? && s.head.None?
    ensures s.tail.None? && s.chain == []
  {
    hide DataOf, Conserved, SleepsWell;
  }

  // ---------- A measurement by itself ----------

  lemma {:induction false} CountsOn(s: State, t: Thread, count: nat)
    requires Linked(s.heap, s.head, s.chain) && count <= |s.chain| && t in s.calls
    requires s.calls[t] == GCount(if count < |s.chain| then Some(s.chain[count]) else None, count)
    ensures Run(s, OwnSteps(t, |s.chain| - count + 1)) == Some(s.(calls := s.calls[t := GUnlock(|s.chain|)]))
    decreases |s.chain| - count
  {
    hide Run;
    if count < |s.chain| {
      assert NextIs(s.heap, s.chain, count);
      var next := s.(calls := s.calls[t := GCount(s.heap[s.chain[count]].next, count + 1)]);
      OneOwnStep(s, next, t, |s.chain| - count);
      hide Linked;
      CountsOn(next, t, count + 1);
      assert next.calls[t := GUnlock(|s.chain|)] == s.calls[t := GUnlock(|s.chain|)];
    } else {
      OneOwnStep(s, s.(calls := s.calls[t := GUnlock(count)]), t, 0);
      NoOwnSteps(s.(calls := s.calls[t := GUnlock(count)]), t);
    }
  }

  lemma LooksOnly(s: State, t: Thread)
    requires s.head.None? && t !in s.calls
    ensures Run(s.(calls := s.calls[t := GLook]), OwnSteps(t, 1)) == Some(s)
  {
    hide Run;
    var s0 := s.(calls := s.calls[t := GLook]);
    assert s0.calls - {t} == s.calls;
    OneOwnStep(s0, s, t, 0);
    NoOwnSteps(s, t);
  }

  lemma LooksAndCounts(s: State, t: Thread)
    requires Linked(s.heap, s.head, s.chain) && s.chain != [] && s.sendLock.None? && t !in s.calls
    ensures Run(s.(calls := s.calls[t := GLook]), OwnSteps(t, |s.chain| + 3))
         == Some(s.(sendLock := Some(t), calls := s.calls[t := GUnlock(|s.chain|)]))
  {
    HeadIs(s);
    hide Run, Linked;
    var s0 := s.(calls := s.calls[t := GLook]);
    var s1 := s.(calls := s.calls[t := GLock]);
    var s2 := s.(sendLock := Some(t), calls := s.calls[t := GCount(s.head, 0)]);
    assert s0.calls[t := GLock] == s1.calls && s1.calls[t := GCount(s.head, 0)] == s2.calls;
    OneOwnStep(s0, s1, t, |s.chain| + 2);
    OneOwnStep(s1, s2, t, |s.chain| + 1);
    CountsOn(s2, t, 0);
    assert s2.calls[t := GUnlock(|s.chain|)] == s.calls[t := GUnlock(|s.chain|)];
  }

  /**
   Main result: with the send mutex free, a call of queue_send_get_size returns at once on
   an empty list, and otherwise comes to return the length of the list.
   */
  lemma MeasureCompletes(s: State, t: Thread)
    requires Inv(s) && s.sendLock.None? && Enabled(s, Measure(t))
    ensures var s0 := s.(calls := s.calls[t := GLook]);
      if s.chain == [] then Run(s0, OwnSteps(t, 1)) == Some(s)
      else Run(s0, OwnSteps(t, |s.chain| + 3)) == Some(s.(sendLock := Some(t), calls := s.calls[t := GUnlock(|s.chain|)]))
  {
    HeadIs(s);
    hide Run, Linked, DataOf, Conserved, SleepsWell, Locks, Cells, Counted, Asked, TailIs, Tested;
    if s.chain == [] {
      LooksOnly(s, t);
    } else {
      LooksAndCounts(s, t);
    }
  }

  // ---------- A burst of packets ----------

  function Answers(yes: seq<bool>): (actions: seq<Action>)
    ensures |actions| == |yes|
  {
    seq(|yes|, i requires 0 <= i < |yes| => ReceiverStep(yes[i]))
  }

  /** What the radio answers from the first packet of a burst of k on: each is received and another follows, but the last. */
  function BurstOf(k: nat): seq<bool> {
    if k <= 1 then [true, true, false, true] else [true, true, true] + BurstOf(k - 1)
  }

  /** How often the handler runs. */
  function Handlings(s: State, actions: seq<Action>): nat
    requires Run(s, actions).Some?
    decreases |actions|
  {
    if actions == [] then 0
    else (if actions[0].ReceiverStep? && s.receiver.RHandler? then 1 else 0) + Handlings(Do(s, actions[0]).value, actions[1..])
  }

  lemma OneAnswer(s: State, yes: seq<bool>)
    requires yes != [] && Enabled(s, ReceiverStep(yes[0]))
    ensures Run(s, Answers(yes)) == Run(ReceiverNext(s, yes[0]), Answers(yes[1..]))
    ensures Run(s, Answers(yes)).Some? ==>
              Handlings(s, Answers(yes)) == (if s.receiver.RHandler? then 1 else 0) + Handlings(ReceiverNext(s, yes[0]), Answers(yes[1..]))
  {
    hide Enabled, ReceiverNext;
    assert Answers(yes)[1..] == Answers(yes[1..]);
  }

  lemma NoAnswers(s: State)
    ensures Run(s, Answers([])) == Some(s) && Handlings(s, Answers([])) == 0
  {
    assert Answers([]) == [];
  }

  lemma HandlesOne(s: State, rest: seq<bool>)
    requires s.receiver == RRecv && Receiver !in s.calls && s.holdLock == Some(Receiver)
    ensures Run(s, Answers([true, true] + rest)) == Run(s.(receiver := RMore), Answers(rest))
    ensures Run(s, Answers([true, true] + rest)).Some? ==>
              Handlings(s, Answers([true, true] + rest)) == 1 + Handlings(s.(receiver := RMore), Answers(rest))
  {
    hide Run, Handlings, Answers;
    var yes := [true, true] + rest;
    OneAnswer(s, yes);
    assert yes[1..] == [true] + rest;
    OneAnswer(s.(receiver := RHandler), yes[1..]);
    assert yes[1..][1..] == rest;
  }

  /**
   Main result: a burst of k packets is received and handled one by one while the holdoff
   mutex is held, and the receiver then waits again with the mutex free.
   */
  lemma {:induction false} BurstCompletes(s: State, k: nat)
    requires k >= 1 && s.receiver == RRecv && Receiver !in s.calls && s.holdLock == Some(Receiver)
    ensures Run(s, Answers(BurstOf(k))) == Some(s.(receiver := RWait, holdLock := None))
    ensures Handlings(s, Answers(BurstOf(k))) == k
    decreases k
  {
    hide Run, Handlings, Answers;
    var more := s.(receiver := RMore);
    if k == 1 {
      assert BurstOf(1) == [true, true] + [false, true];
      HandlesOne(s, [false, true]);
      OneAnswer(more, [false, true]);
      assert [false, true][1..] == [true] && [true][1..] == [];
      OneAnswer(s.(receiver := RUnlock), [true]);
      NoAnswers(s.(receiver := RWait, holdLock := None));
    } else {
      assert BurstOf(k) == [true, true] + ([true] + BurstOf(k - 1));
      HandlesOne(s, [true] + BurstOf(k - 1));
      OneAnswer(more, [true] + BurstOf(k - 1));
      assert ([true] + BurstOf(k - 1))[1..] == BurstOf(k - 1);
      assert more.(receiver := RRecv) == s;
      BurstCompletes(s, k - 1);
    }
  }
}
