/**
 Greedy routing on locations (radio2/src/node.c, node_route_mfr) and the simulator's
 route test (radio2/src/sim.c, sim_route_test_one).
 */
module Routing {
  import opened Wrappers
  import opened Neigh

  /** The square of the distance between two locations, on unbounded integers. */
  function Dist2(a: Loc, b: Loc): (d: nat) {
    Square(b.x - a.x) + Square(b.y - a.y) + Square(b.z - a.z)
  }

  function Square(x: int): (s: nat) {
    if x < 0 then (-x) * (-x) else x * x
  }

  /** The usual square of a distance: the sum over all three coordinates, the same both ways, zero only from a place to itself. */
  lemma Dist2Is(a: Loc, b: Loc)
    ensures Dist2(a, b) == (a.x - b.x) * (a.x - b.x) + (a.y - b.y) * (a.y - b.y) + (a.z - b.z) * (a.z - b.z)
    ensures Dist2(a, b) == Dist2(b, a) && (Dist2(a, b) == 0 <==> a == b)
  {
    SquareIs(b.x - a.x);
    SquareIs(b.y - a.y);
    SquareIs(b.z - a.z);
    hide Square;
  }

  lemma SquareIs(x: int)
    ensures Square(x) == (-x) * (-x) == x * x && Square(x) == Square(-x) && (Square(x) == 0 <==> x == 0)
  {
    if x != 0 {
      var y := if x < 0 then -x else x;
      assert y * y >= y;
    }
  }

  // ---------- One node's choice ----------

  /** The loop over the neighbours: the destination itself ends it, else the nearest so far is kept. */
  function Choose(ns: seq<Neigh>, destId: nat, destLoc: Loc, maxstrat: int, minDist: nat, best: Option<Neigh>): Option<Neigh> {
    if ns == [] then best else
    var n, rest := ns[0], ns[1..];
    if n.stratum > maxstrat then Choose(rest, destId, destLoc, maxstrat, minDist, best)
    else if n.id == destId then Some(n)
    else
      var d := Dist2(n.loc, destLoc);
      if d < minDist then Choose(rest, destId, destLoc, maxstrat, d, Some(n))
      else Choose(rest, destId, destLoc, maxstrat, minDist, best)
  }

  predicate Eligible(n: Neigh, destId: nat, destLoc: Loc, maxstrat: int, limit: nat) {
    n.stratum <= maxstrat && (n.id == destId || Dist2(n.loc, destLoc) < limit)
  }

  /** n is what node_route_mfr settles on: the destination if it is listed, else a nearest listed node. */
  ghost predicate IsChoice(n: Neigh, ns: seq<Neigh>, destId: nat, destLoc: Loc, maxstrat: int, limit: nat) {
    && n in ns
    && Eligible(n, destId, destLoc, maxstrat, limit)
    && (n.id == destId || forall m :: m in ns && m.stratum <= maxstrat ==>
          m.id != destId && Dist2(n.loc, destLoc) <= Dist2(m.loc, destLoc))
  }

  lemma {:induction false} ChooseKeepsBest(ns: seq<Neigh>, destId: nat, destLoc: Loc, maxstrat: int, minDist: nat, best: Option<Neigh>)
    ensures var r := Choose(ns, destId, destLoc, maxstrat, minDist, best);
            if exists n :: n in ns && Eligible(n, destId, destLoc, maxstrat, minDist)
            then r.Some? && IsChoice(r.value, ns, destId, destLoc, maxstrat, minDist)
            else r == best
    decreases |ns|
  {
    hide Dist2;
    if ns != [] {
      var n, rest := ns[0], ns[1..];
      assert ns == [n] + rest;
      assert forall m :: m in ns <==> m == n || m in rest;
      var d := Dist2(n.loc, destLoc);
      var r := Choose(ns, destId, destLoc, maxstrat, minDist, best);
      if n.stratum > maxstrat {
        assert !Eligible(n, destId, destLoc, maxstrat, minDist);
        ChooseKeepsBest(rest, destId, destLoc, maxstrat, minDist, best);
      } else if n.id == destId {
        assert Eligible(n, destId, destLoc, maxstrat, minDist);
      } else if d < minDist {
        assert Eligible(n, destId, destLoc, maxstrat, minDist);
        ChooseKeepsBest(rest, destId, destLoc, maxstrat, d, Some(n));
        if m :| m in rest && Eligible(m, destId, destLoc, maxstrat, d) {
          assert IsChoice(r.value, rest, destId, destLoc, maxstrat, d);
        } else {
          assert forall m :: m in rest && m.stratum <= maxstrat ==> !Eligible(m, destId, destLoc, maxstrat, d);
        }
        assert IsChoice(r.value, ns, destId, destLoc, maxstrat, minDist);
      } else {
        assert !Eligible(n, destId, destLoc, maxstrat, minDist);
        ChooseKeepsBest(rest, destId, destLoc, maxstrat, minDist, best);
      }
    }
  }

  /** The choice exists exactly when some listed node within maxstrat is the destination or closer to it. */
  lemma ChooseMeaning(ns: seq<Neigh>, loc: Loc, destId: nat, destLoc: Loc, maxstrat: int)
    ensures var limit := Dist2(loc, destLoc);
            match Choose(ns, destId, destLoc, maxstrat, limit, None)
            case None => forall n :: n in ns ==> !Eligible(n, destId, destLoc, maxstrat, limit)
            case Some(n) => IsChoice(n, ns, destId, destLoc, maxstrat, limit)
  {
    ChooseKeepsBest(ns, destId, destLoc, maxstrat, Dist2(loc, destLoc), None);
  }

  lemma ChooseStratum(ns: seq<Neigh>, destId: nat, destLoc: Loc, maxstrat: int, minDist: nat)
    ensures var r := Choose(ns, destId, destLoc, maxstrat, minDist, None);
            r.Some? ==> r.value in ns && r.value.stratum <= maxstrat
  {
    ChooseKeepsBest(ns, destId, destLoc, maxstrat, minDist, None);
  }

  function Levels(maxstrat: int): nat {
    if maxstrat < 0 then 0 else maxstrat + 1
  }

  /** node_route_mfr: None stands for NODE_ID_INVALID. */
  function Route(ns: seq<Neigh>, loc: Loc, destId: nat, destLoc: Loc, maxstrat: int): Option<nat>
    decreases Levels(maxstrat)
  {
    match Choose(ns, destId, destLoc, maxstrat, Dist2(loc, destLoc), None)
    case None => None
    case Some(n) =>
      if n.stratum == 1 then Some(n.id)
      else
        ChooseStratum(ns, destId, destLoc, maxstrat, Dist2(loc, destLoc));
        Route(ns, loc, n.id, n.loc, n.stratum - 1)
  }

  /** A next hop the search may end with: a direct neighbour that is the current target or closer to it. */
  predicate GoodHop(n: Neigh, loc: Loc, targetId: nat, targetLoc: Loc) {
    n.stratum == 1 && (n.id == targetId || Dist2(n.loc, targetLoc) < Dist2(loc, targetLoc))
  }

  /** The target of the last level of the search is the destination or an entry the search went through. */
  ghost predicate EndsAt(ns: seq<Neigh>, loc: Loc, destId: nat, destLoc: Loc, maxstrat: int, hop: nat)
    decreases Levels(maxstrat)
  {
    || (maxstrat >= 1 && exists n :: n in ns && n.id == hop && GoodHop(n, loc, destId, destLoc))
    || (exists n :: n in ns && n.stratum <= maxstrat && Eligible(n, destId, destLoc, maxstrat, Dist2(loc, destLoc))
                    && EndsAt(ns, loc, n.id, n.loc, n.stratum - 1, hop))
  }

  /** Main result for one node: the answer is a listed stratum-1 neighbour that helps towards the last target. */
  lemma {:induction false} RouteEndsAt(ns: seq<Neigh>, loc: Loc, destId: nat, destLoc: Loc, maxstrat: int)
    ensures var r := Route(ns, loc, destId, destLoc, maxstrat);
            r.Some? ==> EndsAt(ns, loc, destId, destLoc, maxstrat, r.value)
    decreases Levels(maxstrat)
  {
    hide Dist2;
    ChooseMeaning(ns, loc, destId, destLoc, maxstrat);
    match Choose(ns, destId, destLoc, maxstrat, Dist2(loc, destLoc), None)
    case None =>
    case Some(n) =>
      if n.stratum == 1 {
        assert GoodHop(n, loc, destId, destLoc);
      } else {
        RouteEndsAt(ns, loc, n.id, n.loc, n.stratum - 1);
      }
  }

  /** Some entry has a given id, location and stratum one. */
  lemma {:induction false} EndsAtNeighbour(ns: seq<Neigh>, loc: Loc, destId: nat, destLoc: Loc, maxstrat: int, hop: nat)
    requires EndsAt(ns, loc, destId, destLoc, maxstrat, hop)
    ensures exists n: Neigh, targetId: nat, targetLoc: Loc ::
              n in ns && n.id == hop && GoodHop(n, loc, targetId, targetLoc)
              && ((targetId, targetLoc) == (destId, destLoc) || exists m :: m in ns && (m.id, m.loc) == (targetId, targetLoc))
    decreases Levels(maxstrat)
  {
    hide GoodHop, Eligible;
    if n :| maxstrat >= 1 && n in ns && n.id == hop && GoodHop(n, loc, destId, destLoc) {
    } else {
      var m :| m in ns && m.stratum <= maxstrat && Eligible(m, destId, destLoc, maxstrat, Dist2(loc, destLoc))
               && EndsAt(ns, loc, m.id, m.loc, m.stratum - 1, hop);
      EndsAtNeighbour(ns, loc, m.id, m.loc, m.stratum - 1, hop);
    }
  }

  /** With strata of at least one, a search limited to direct neighbours fails only for want of a closer one. */
  lemma RouteDirect(ns: seq<Neigh>, loc: Loc, destId: nat, destLoc: Loc)
    requires forall n :: n in ns ==> n.stratum >= 1
    ensures match Route(ns, loc, destId, destLoc, 1)
            case None => forall n :: n in ns ==> !GoodHop(n, loc, destId, destLoc)
            case Some(hop) => exists n :: n in ns && n.id == hop && GoodHop(n, loc, destId, destLoc)
  {
    hide Dist2;
    ChooseMeaning(ns, loc, destId, destLoc, 1);
    match Choose(ns, destId, destLoc, 1, Dist2(loc, destLoc), None)
    case None =>
      forall n | n in ns ensures !GoodHop(n, loc, destId, destLoc) {
        assert !Eligible(n, destId, destLoc, 1, Dist2(loc, destLoc));
      }
    case Some(n) =>
      assert GoodHop(n, loc, destId, destLoc);
  }

  // ---------- The search as a chain of targets ----------

  /** n is the first in the list that node_route_mfr may settle on. */
  ghost predicate IsFirstChoice(n: Neigh, ns: seq<Neigh>, destId: nat, destLoc: Loc, maxstrat: int, limit: nat) {
    exists i :: 0 <= i < |ns| && ns[i] == n && FirstAt(ns, i, destId, destLoc, maxstrat, limit)
  }

  ghost predicate FirstAt(ns: seq<Neigh>, i: nat, destId: nat, destLoc: Loc, maxstrat: int, limit: nat)
    requires i < |ns|
  {
    && IsChoice(ns[i], ns, destId, destLoc, maxstrat, limit)
    && forall j :: 0 <= j < i ==> !IsChoice(ns[j], ns, destId, destLoc, maxstrat, limit)
  }

  /** The search's targets, each the first choice for the one before, end at a direct neighbour. */
  ghost predicate Reaches(ns: seq<Neigh>, loc: Loc, destId: nat, destLoc: Loc, maxstrat: int, hop: nat)
    decreases Levels(maxstrat)
  {
    exists n :: IsFirstChoice(n, ns, destId, destLoc, maxstrat, Dist2(loc, destLoc)) && n.stratum <= maxstrat
                && if n.stratum == 1 then n.id == hop else Reaches(ns, loc, n.id, n.loc, n.stratum - 1, hop)
  }

  /** The search's targets end at one for which no listed node will do. */
  ghost predicate GetsStuck(ns: seq<Neigh>, loc: Loc, destId: nat, destLoc: Loc, maxstrat: int)
    decreases Levels(maxstrat)
  {
    || (forall n :: n in ns ==> !Eligible(n, destId, destLoc, maxstrat, Dist2(loc, destLoc)))
    || exists n :: IsFirstChoice(n, ns, destId, destLoc, maxstrat, Dist2(loc, destLoc)) && n.stratum <= maxstrat
                   && n.stratum != 1 && GetsStuck(ns, loc, n.id, n.loc, n.stratum - 1)
  }

  /** Entries that are skipped leave the choice among the rest as it is. */
  lemma ChoiceSkips(ns: seq<Neigh>, x: Neigh, destId: nat, destLoc: Loc, maxstrat: int, limit: nat)
    requires ns != [] && x in ns[1..] && !Eligible(ns[0], destId, destLoc, maxstrat, limit)
    ensures IsChoice(x, ns, destId, destLoc, maxstrat, limit) <==> IsChoice(x, ns[1..], destId, destLoc, maxstrat, limit)
  {
    hide Dist2;
    assert forall m :: m in ns <==> m == ns[0] || m in ns[1..];
  }

  /** A nearest entry so far gives way exactly to the choice among the nearer ones. */
  lemma ChoiceNarrows(ns: seq<Neigh>, x: Neigh, destId: nat, destLoc: Loc, maxstrat: int, limit: nat)
    requires ns != [] && x in ns[1..] && ns[0].stratum <= maxstrat && ns[0].id != destId && Dist2(ns[0].loc, destLoc) < limit
    requires exists m :: m in ns[1..] && Eligible(m, destId, destLoc, maxstrat, Dist2(ns[0].loc, destLoc))
    ensures IsChoice(x, ns, destId, destLoc, maxstrat, limit)
            <==> IsChoice(x, ns[1..], destId, destLoc, maxstrat, Dist2(ns[0].loc, destLoc))
    ensures !IsChoice(ns[0], ns, destId, destLoc, maxstrat, limit)
  {
    hide Dist2;
    assert forall m :: m in ns <==> m == ns[0] || m in ns[1..];
  }

  lemma FirstLater(ns: seq<Neigh>, n: Neigh, destId: nat, destLoc: Loc, maxstrat: int, limit: nat, narrower: nat)
    requires ns != [] && IsFirstChoice(n, ns[1..], destId, destLoc, maxstrat, narrower)
    requires !IsChoice(ns[0], ns, destId, destLoc, maxstrat, limit)
    requires forall x :: x in ns[1..] ==>
      (IsChoice(x, ns, destId, destLoc, maxstrat, limit) <==> IsChoice(x, ns[1..], destId, destLoc, maxstrat, narrower))
    ensures IsFirstChoice(n, ns, destId, destLoc, maxstrat, limit)
  {
    hide IsChoice;
    var rest := ns[1..];
    var i: nat :| i < |rest| && rest[i] == n && FirstAt(rest, i, destId, destLoc, maxstrat, narrower);
    forall j | 0 <= j < i + 1 ensures !IsChoice(ns[j], ns, destId, destLoc, maxstrat, limit) {
      if j > 0 {
        assert ns[j] == rest[j - 1];
      }
    }
    assert FirstAt(ns, i + 1, destId, destLoc, maxstrat, limit);
  }

  lemma FirstNow(ns: seq<Neigh>, destId: nat, destLoc: Loc, maxstrat: int, limit: nat)
    requires ns != [] && IsChoice(ns[0], ns, destId, destLoc, maxstrat, limit)
    ensures IsFirstChoice(ns[0], ns, destId, destLoc, maxstrat, limit)
  {
    hide IsChoice;
    assert FirstAt(ns, 0, destId, destLoc, maxstrat, limit);
  }

  lemma {:induction false} ChooseIsFirst(ns: seq<Neigh>, destId: nat, destLoc: Loc, maxstrat: int, minDist: nat, best: Option<Neigh>)
    requires exists n :: n in ns && Eligible(n, destId, destLoc, maxstrat, minDist)
    ensures var r := Choose(ns, destId, destLoc, maxstrat, minDist, best);
            r.Some? && IsFirstChoice(r.value, ns, destId, destLoc, maxstrat, minDist)
    decreases |ns|
  {
    hide Dist2, IsChoice, IsFirstChoice, Choose;
    var n, rest := ns[0], ns[1..];
    var d := Dist2(n.loc, destLoc);
    ChooseStep(ns, destId, destLoc, maxstrat, minDist, best);
    ChooseKeepsBest(ns, destId, destLoc, maxstrat, minDist, best);
    var r := Choose(ns, destId, destLoc, maxstrat, minDist, best).value;
    if !Eligible(n, destId, destLoc, maxstrat, minDist) {
      ChooseIsFirst(rest, destId, destLoc, maxstrat, minDist, best);
      NotEligible(ns, destId, destLoc, maxstrat, minDist);
      forall x | x in rest ensures IsChoice(x, ns, destId, destLoc, maxstrat, minDist) <==> IsChoice(x, rest, destId, destLoc, maxstrat, minDist) {
        ChoiceSkips(ns, x, destId, destLoc, maxstrat, minDist);
      }
      FirstLater(ns, r, destId, destLoc, maxstrat, minDist, minDist);
    } else if n.id != destId && exists m :: m in rest && Eligible(m, destId, destLoc, maxstrat, d) {
      ChooseIsFirst(rest, destId, destLoc, maxstrat, d, Some(n));
      forall x | x in rest
        ensures IsChoice(x, ns, destId, destLoc, maxstrat, minDist) <==> IsChoice(x, rest, destId, destLoc, maxstrat, d)
      {
        ChoiceNarrows(ns, x, destId, destLoc, maxstrat, minDist);
      }
      var m :| m in rest && Eligible(m, destId, destLoc, maxstrat, d);
      ChoiceNarrows(ns, m, destId, destLoc, maxstrat, minDist);
      FirstLater(ns, r, destId, destLoc, maxstrat, minDist, d);
    } else {
      if n.id != destId {
        ChooseKeepsBest(rest, destId, destLoc, maxstrat, d, Some(n));
      }
      FirstNow(ns, destId, destLoc, maxstrat, minDist);
    }
  }

  lemma NotEligible(ns: seq<Neigh>, destId: nat, destLoc: Loc, maxstrat: int, limit: nat)
    requires ns != [] && !Eligible(ns[0], destId, destLoc, maxstrat, limit)
    ensures !IsChoice(ns[0], ns, destId, destLoc, maxstrat, limit)
  {
  }

  lemma FirstIsUnique(ns: seq<Neigh>, a: Neigh, b: Neigh, destId: nat, destLoc: Loc, maxstrat: int, limit: nat)
    requires IsFirstChoice(a, ns, destId, destLoc, maxstrat, limit) && IsFirstChoice(b, ns, destId, destLoc, maxstrat, limit)
    ensures a == b
  {
    hide IsChoice;
    var i: nat :| i < |ns| && ns[i] == a && FirstAt(ns, i, destId, destLoc, maxstrat, limit);
    var j: nat :| j < |ns| && ns[j] == b && FirstAt(ns, j, destId, destLoc, maxstrat, limit);
  }

  lemma FirstIsEligible(ns: seq<Neigh>, n: Neigh, destId: nat, destLoc: Loc, maxstrat: int, limit: nat)
    requires IsFirstChoice(n, ns, destId, destLoc, maxstrat, limit)
    ensures n in ns && Eligible(n, destId, destLoc, maxstrat, limit)
  {
  }

  /**
   Main result: for every maxstrat, which answer the search gives, and when it gives none.
   Every list has one chain of targets; it ends at a direct neighbour, or gets stuck.
   */
  lemma {:induction false} RouteIsChain(ns: seq<Neigh>, loc: Loc, destId: nat, destLoc: Loc, maxstrat: int)
    ensures forall hop: nat :: Route(ns, loc, destId, destLoc, maxstrat) == Some(hop) <==> Reaches(ns, loc, destId, destLoc, maxstrat, hop)
    ensures Route(ns, loc, destId, destLoc, maxstrat) == None <==> GetsStuck(ns, loc, destId, destLoc, maxstrat)
    decreases Levels(maxstrat)
  {
    hide Dist2, IsFirstChoice, Eligible;
    var limit := Dist2(loc, destLoc);
    ChooseMeaning(ns, loc, destId, destLoc, maxstrat);
    match Choose(ns, destId, destLoc, maxstrat, limit, None)
    case None =>
      if n :| IsFirstChoice(n, ns, destId, destLoc, maxstrat, limit) {
        FirstIsEligible(ns, n, destId, destLoc, maxstrat, limit);
      }
    case Some(n) =>
      ChooseIsFirst(ns, destId, destLoc, maxstrat, limit, None);
      ChooseStratum(ns, destId, destLoc, maxstrat, limit);
      forall m | IsFirstChoice(m, ns, destId, destLoc, maxstrat, limit) ensures m == n {
        FirstIsUnique(ns, m, n, destId, destLoc, maxstrat, limit);
      }
      if n.stratum != 1 {
        RouteIsChain(ns, loc, n.id, n.loc, n.stratum - 1);
      }
  }

  /** Through a node two strata away: it answers when some direct neighbour is nearer to it than this node is. */
  lemma RouteTwoStrata(ns: seq<Neigh>, loc: Loc, n: Neigh, destLoc: Loc)
    requires forall m :: m in ns ==> m.stratum >= 1
    requires n in ns && n.stratum == 2 && forall m :: m in ns && m.id == n.id ==> m == n
    requires exists h :: h in ns && h.stratum == 1 && Dist2(h.loc, n.loc) < Dist2(loc, n.loc)
    ensures var r := Route(ns, loc, n.id, destLoc, 2);
      r.Some? && exists h :: h in ns && h.id == r.value && h.stratum == 1 && Dist2(h.loc, n.loc) < Dist2(loc, n.loc)
  {
    hide Dist2, Choose;
    ChooseMeaning(ns, loc, n.id, destLoc, 2);
    assert Eligible(n, n.id, destLoc, 2, Dist2(loc, destLoc));
    var c := Choose(ns, n.id, destLoc, 2, Dist2(loc, destLoc), None).value;
    assert c == n;
    RouteDirect(ns, loc, n.id, n.loc);
    var h :| h in ns && h.stratum == 1 && Dist2(h.loc, n.loc) < Dist2(loc, n.loc);
    assert GoodHop(h, loc, n.id, n.loc);
  }

  // ---------- The search as a loop ----------

  lemma ChooseStep(ns: seq<Neigh>, destId: nat, destLoc: Loc, maxstrat: int, minDist: nat, best: Option<Neigh>)
    requires ns != []
    ensures var n := ns[0];
            Choose(ns, destId, destLoc, maxstrat, minDist, best)
            == if n.stratum > maxstrat then Choose(ns[1..], destId, destLoc, maxstrat, minDist, best)
               else if n.id == destId then Some(n)
               else if Dist2(n.loc, destLoc) < minDist then
                 Choose(ns[1..], destId, destLoc, maxstrat, Dist2(n.loc, destLoc), Some(n))
               else Choose(ns[1..], destId, destLoc, maxstrat, minDist, best)
  {
    hide Dist2;
  }

  lemma ChooseNone(destId: nat, destLoc: Loc, maxstrat: int, minDist: nat, best: Option<Neigh>)
    ensures Choose([], destId, destLoc, maxstrat, minDist, best) == best
  {
  }

  /** node_route_mfr's loop: a running minimum over the neighbours. */
  method ChooseNeighbour(table: NeighTable, loc: Loc, destId: nat, destLoc: Loc, maxstrat: int) returns (minNeigh: Option<Neigh>)
    requires table.Valid()
    ensures minNeigh == Choose(Unexpired(table.Contents()), destId, destLoc, maxstrat, Dist2(loc, destLoc), None)
  {
    hide Choose, Unexpired;
    var minDist := Dist2(loc, destLoc);
    minNeigh := None;
    var iter := new NeighIter(table);
    while true
      invariant fresh(iter) && iter.Valid() && iter.table == table
      invariant Choose(Unexpired(table.Contents()), destId, destLoc, maxstrat, Dist2(loc, destLoc), None)
                == Choose(iter.Todo(), destId, destLoc, maxstrat, minDist, minNeigh)
      decreases |iter.Todo()|
    {
      ghost var todo := iter.Todo();
      var n := iter.Next();
      if n.None? {
        ChooseNone(destId, destLoc, maxstrat, minDist, minNeigh);
        break;
      }
      ChooseStep(todo, destId, destLoc, maxstrat, minDist, minNeigh);
      if n.value.stratum <= maxstrat {
        if n.value.id == destId {
          minNeigh := n;
          break;
        }
        var dist := Dist2(n.value.loc, destLoc);
        if dist < minDist {
          minDist := dist;
          minNeigh := n;
        }
      }
    }
  }

  /** node_route_mfr: the loop, and a recursion towards the chosen node on lower strata. */
  method RouteMfr(table: NeighTable, loc: Loc, destId: nat, destLoc: Loc, maxstrat: int) returns (hop: Option<nat>)
    requires table.Valid()
    ensures hop == Route(Unexpired(table.Contents()), loc, destId, destLoc, maxstrat)
    decreases Levels(maxstrat)
  {
    hide Choose;
    var minNeigh := ChooseNeighbour(table, loc, destId, destLoc, maxstrat);
    match minNeigh
    case Some(m) =>
      if m.stratum == 1 {
        return Some(m.id);
      }
      ChooseStratum(Unexpired(table.Contents()), destId, destLoc, maxstrat, Dist2(loc, destLoc));
      hop := RouteMfr(table, loc, m.id, m.loc, m.stratum - 1);
    case None =>
      hop := None;
  }

  // ---------- The route test ----------

  /** What a route test reads of a node: where it is and whom it lists. */
  datatype Site = Site(loc: Loc, ns: seq<Neigh>)

  /** Tables that tell the truth: listed nodes exist, are not the lister, and are where they are listed to be. */
  ghost predicate TrueTables(net: seq<Site>) {
    forall a, n :: 0 <= a < |net| && n in net[a].ns ==>
      n.id < |net| && n.id != a && n.stratum >= 1 && n.loc == net[n.id].loc
  }

  function NextHop(net: seq<Site>, a: nat, dest: nat, maxstrat: int): Option<nat>
    requires a < |net| && dest < |net|
  {
    Route(net[a].ns, net[a].loc, dest, net[dest].loc, maxstrat)
  }

  const MAX_HOPS: nat := 100

  /** sim_route_test_one's loop from its i-th round: the number of hops taken, or 0. */
  function RouteTest(net: seq<Site>, hop: nat, dest: nat, maxstrat: int, i: nat): nat
    requires dest < |net|
    decreases MAX_HOPS - i
  {
    if i >= MAX_HOPS || hop >= |net| then 0 else
    match NextHop(net, hop, dest, maxstrat)
    case None => 0
    case Some(next) => if next == dest then i else RouteTest(net, next, dest, maxstrat, i + 1)
  }

  /** Tables that list only nodes there are; their locations may be out of date. */
  ghost predicate KnownIds(net: seq<Site>) {
    forall a, n :: 0 <= a < |net| && n in net[a].ns ==> n.id < |net|
  }

  /** The same as a loop, for any maxstrat and tables however stale; the source indexes Nodes with the ids it gets. */
  method RouteTestOne(net: seq<Site>, node1: nat, node2: nat, maxstrat: int) returns (hops: nat)
    requires KnownIds(net) && node1 < |net| && node2 < |net|
    ensures hops == RouteTest(net, node1, node2, maxstrat, 1)
  {
    hide Route;
    var hop: nat := node1;
    for i := 1 to MAX_HOPS
      invariant hop < |net|
      invariant RouteTest(net, hop, node2, maxstrat, i) == RouteTest(net, node1, node2, maxstrat, 1)
    {
      var next := NextHop(net, hop, node2, maxstrat);
      if next == Some(node2) {
        return i;
      }
      if next == None {
        return 0;
      }
      NextHopExists(net, hop, node2, maxstrat);
      hop := next.value;
    }
    return 0;
  }

  lemma NextHopExists(net: seq<Site>, a: nat, dest: nat, maxstrat: int)
    requires KnownIds(net) && a < |net| && dest < |net|
    ensures var next := NextHop(net, a, dest, maxstrat);
            next.Some? ==> next.value < |net|
  {
    RouteEndsAt(net[a].ns, net[a].loc, dest, net[dest].loc, maxstrat);
    var next := NextHop(net, a, dest, maxstrat);
    if next.Some? {
      EndsAtNeighbour(net[a].ns, net[a].loc, dest, net[dest].loc, maxstrat, next.value);
    }
  }

  /** Distance to the destination from a node. */
  function Away(net: seq<Site>, a: nat, dest: nat): nat
    requires a < |net| && dest < |net|
  {
    Dist2(net[a].loc, net[dest].loc)
  }

  /** With true tables, each hop limited to direct neighbours goes to a listed one: the destination, or closer to it. */
  lemma HopGetsCloser(net: seq<Site>, a: nat, dest: nat)
    requires TrueTables(net) && a < |net| && dest < |net|
    ensures match NextHop(net, a, dest, 1)
            case None => forall n :: n in net[a].ns && n.stratum == 1 ==>
                           n.id != dest && Away(net, n.id, dest) >= Away(net, a, dest)
            case Some(next) =>
              && next < |net| && next != a
              && (exists n :: n in net[a].ns && n.stratum == 1 && n.id == next)
              && (next != dest ==> Away(net, next, dest) < Away(net, a, dest))
  {
    hide Dist2;
    RouteDirect(net[a].ns, net[a].loc, dest, net[dest].loc);
    match NextHop(net, a, dest, 1)
    case None =>
      forall n | n in net[a].ns && n.stratum == 1
        ensures n.id != dest && Away(net, n.id, dest) >= Away(net, a, dest)
      {
        assert !GoodHop(n, net[a].loc, dest, net[dest].loc);
      }
    case Some(next) =>
      var n :| n in net[a].ns && n.id == next && GoodHop(n, net[a].loc, dest, net[dest].loc);
  }

  /** The walk without a cutoff: how many hops it takes, or None where no neighbour is closer. */
  ghost function Walk(net: seq<Site>, a: nat, dest: nat): Option<nat>
    requires TrueTables(net) && a < |net| && dest < |net|
    decreases Away(net, a, dest)
  {
    HopGetsCloser(net, a, dest);
    match NextHop(net, a, dest, 1)
    case None => None
    case Some(next) =>
      if next == dest then Some(1)
      else match Walk(net, next, dest) case None => None case Some(h) => Some(h + 1)
  }

  /** The nodes of the walk in order, from a on; it ends at the destination or where no neighbour is closer. */
  ghost function Path(net: seq<Site>, a: nat, dest: nat): seq<nat>
    requires TrueTables(net) && a < |net| && dest < |net|
    decreases Away(net, a, dest)
  {
    HopGetsCloser(net, a, dest);
    match NextHop(net, a, dest, 1)
    case None => [a]
    case Some(next) => if next == dest then [a, dest] else [a] + Path(net, next, dest)
  }

  /** After the first node, a path holds only nodes closer than it, or the destination. */
  lemma {:induction false} PathGetsCloser(net: seq<Site>, a: nat, dest: nat, k: nat)
    requires TrueTables(net) && a < |net| && dest < |net| && k < |Path(net, a, dest)|
    ensures Path(net, a, dest)[0] == a && Path(net, a, dest)[k] < |net|
    ensures k > 0 ==> Path(net, a, dest)[k] == dest || Away(net, Path(net, a, dest)[k], dest) < Away(net, a, dest)
    decreases Away(net, a, dest)
  {
    hide Dist2, Route;
    HopGetsCloser(net, a, dest);
    match NextHop(net, a, dest, 1)
    case None =>
    case Some(next) =>
      if next != dest && k > 0 {
        PathGetsCloser(net, next, dest, k - 1);
      }
  }

  /** Main result: no walk, whether it arrives or gets stuck, visits a node twice. */
  lemma {:induction false} PathVisitsOnce(net: seq<Site>, a: nat, dest: nat, i: nat, j: nat)
    requires TrueTables(net) && a < |net| && dest < |net|
    requires i < j < |Path(net, a, dest)|
    ensures Path(net, a, dest)[i] != Path(net, a, dest)[j]
    decreases Away(net, a, dest)
  {
    hide Dist2, Route;
    HopGetsCloser(net, a, dest);
    AwayFromSelf(net, dest);
    PathGetsCloser(net, a, dest, j);
    match NextHop(net, a, dest, 1)
    case None =>
    case Some(next) =>
      if next != dest && i > 0 {
        PathVisitsOnce(net, next, dest, i - 1, j - 1);
      }
  }

  /** The path is what the walk does: it arrives exactly when the walk does, after as many hops. */
  lemma {:induction false} PathIsWalk(net: seq<Site>, a: nat, dest: nat)
    requires TrueTables(net) && a < |net| && dest < |net|
    ensures var path := Path(net, a, dest);
      && path != [] && path[0] == a
      && (forall k :: 0 <= k < |path| - 1 ==> path[k] < |net| && NextHop(net, path[k], dest, 1) == Some(path[k + 1]))
      && match Walk(net, a, dest)
         case Some(h) => |path| == h + 1 && path[h] == dest
         case None => path[|path| - 1] < |net| && NextHop(net, path[|path| - 1], dest, 1) == None
    decreases Away(net, a, dest)
  {
    hide Dist2, Route;
    HopGetsCloser(net, a, dest);
    match NextHop(net, a, dest, 1)
    case None =>
    case Some(next) =>
      if next != dest {
        PathIsWalk(net, next, dest);
      }
  }

  function UpTo(n: nat): set<nat> {
    if n == 0 then {} else UpTo(n - 1) + {n - 1}
  }

  lemma {:induction false} UpToSize(n: nat)
    ensures |UpTo(n)| == n && forall x: nat :: x in UpTo(n) <==> x < n
  {
    if n > 0 {
      UpToSize(n - 1);
    }
  }

  function Members(s: seq<nat>): set<nat> {
    if s == [] then {} else Members(s[..|s| - 1]) + {s[|s| - 1]}
  }

  ghost predicate AllDiffer(s: seq<nat>) {
    forall i, j :: 0 <= i < j < |s| ==> s[i] != s[j]
  }

  lemma FrontDiffers(s: seq<nat>)
    requires s != [] && AllDiffer(s)
    ensures AllDiffer(s[..|s| - 1]) && s[|s| - 1] !in s[..|s| - 1]
  {
  }

  lemma {:induction false} MembersAre(s: seq<nat>)
    requires AllDiffer(s)
    ensures |Members(s)| == |s| && forall x :: x in Members(s) <==> x in s
    decreases |s|
  {
    if s != [] {
      FrontDiffers(s);
      hide AllDiffer;
      MembersAre(s[..|s| - 1]);
      assert s == s[..|s| - 1] + [s[|s| - 1]];
    }
  }

  /** A list without repetition of numbers below n has at most n entries. */
  lemma FewDistinct(s: seq<nat>, n: nat)
    requires forall i, j :: 0 <= i < j < |s| ==> s[i] != s[j]
    requires forall i :: 0 <= i < |s| ==> s[i] < n
    ensures |s| <= n
  {
    UpToSize(n);
    MembersAre(s);
    SubsetSize(Members(s), UpTo(n));
  }

  /** A walk takes fewer hops than there are nodes. */
  lemma WalkIsShort(net: seq<Site>, a: nat, dest: nat)
    requires TrueTables(net) && a < |net| && dest < |net|
    ensures Walk(net, a, dest).Some? ==> Walk(net, a, dest).value < |net|
  {
    hide Walk, Path;
    var path := Path(net, a, dest);
    forall i, j | 0 <= i < j < |path| ensures path[i] != path[j] {
      PathVisitsOnce(net, a, dest, i, j);
    }
    forall k | 0 <= k < |path| ensures path[k] < |net| {
      PathGetsCloser(net, a, dest, k);
    }
    PathIsWalk(net, a, dest);
    FewDistinct(path, |net|);
  }

  lemma AwayFromSelf(net: seq<Site>, a: nat)
    requires a < |net|
    ensures Away(net, a, a) == 0
  {
  }

  lemma {:induction false} RouteTestIsWalk(net: seq<Site>, a: nat, dest: nat, i: nat)
    requires TrueTables(net) && a < |net| && dest < |net| && i <= MAX_HOPS
    ensures RouteTest(net, a, dest, 1, i)
            == match Walk(net, a, dest) case None => 0 case Some(h) => if i + h <= MAX_HOPS then i + h - 1 else 0
    decreases Away(net, a, dest)
  {
    hide Dist2, Route;
    HopGetsCloser(net, a, dest);
    WalkPositive(net, a, dest);
    if i < MAX_HOPS && NextHop(net, a, dest, 1).Some? && NextHop(net, a, dest, 1).value != dest {
      RouteTestIsWalk(net, NextHop(net, a, dest, 1).value, dest, i + 1);
    }
  }

  lemma WalkPositive(net: seq<Site>, a: nat, dest: nat)
    requires TrueTables(net) && a < |net| && dest < |net|
    ensures Walk(net, a, dest).Some? ==> Walk(net, a, dest).value >= 1
  {
  }

  /** Main result: with true tables and at most a hundred nodes, the 99-hop cutoff never decides the test. */
  lemma CutoffNeverDecides(net: seq<Site>, a: nat, dest: nat)
    requires TrueTables(net) && a < |net| <= MAX_HOPS && dest < |net|
    ensures RouteTest(net, a, dest, 1, 1) == match Walk(net, a, dest) case None => 0 case Some(h) => h
  {
    hide Dist2, Route, Walk;
    RouteTestIsWalk(net, a, dest, 1);
    WalkIsShort(net, a, dest);
  }
}
