/**
 The simulator reads its network through the topology index: node i is linked to what an
 iterator on i returns, for i up to the largest id (radio2/src/sim.c).  This ties the two
 models together.
 */
module TopoLinks {
  import Sim
  import Topo

  function Ends(out: seq<Topo.Entry>): (ds: seq<nat>)
    ensures |ds| == |out| && forall i :: 0 <= i < |out| ==> ds[i] == out[i].dst
  {
    seq(|out|, i requires 0 <= i < |out| => out[i].dst)
  }

  /** The destinations an iterator on src returns. */
  function LinksFrom(st: Topo.State, src: nat): seq<nat>
    requires |st.table| == Topo.TABLE_SIZE
  {
    Ends(Topo.Remaining(st.table, src, Topo.Home(src), Topo.TABLE_SIZE))
  }

  /** One node for each id up to the largest. */
  function LinksOf(st: Topo.State): (links: seq<seq<nat>>)
    requires |st.table| == Topo.TABLE_SIZE
    ensures |links| == st.maxId + 1 && forall i :: 0 <= i < |links| ==> links[i] == LinksFrom(st, i)
  {
    seq(st.maxId + 1, i requires 0 <= i => LinksFrom(st, i))
  }

  lemma EndsAreEdges(out: seq<Topo.Entry>, src: nat, edges: map<Topo.Edge, real>, d: nat)
    requires Topo.ListsEdges(out, src, edges)
    ensures d in Ends(out) <==> (src, d) in edges
    ensures forall i, j :: 0 <= i < j < |out| ==> Ends(out)[i] != Ends(out)[j]
  {
    if d in Ends(out) {
      var i :| 0 <= i < |out| && Ends(out)[i] == d;
      assert out[i] in out && Topo.IsEdge(out[i], src, edges);
    }
    if (src, d) in edges {
      var e := Topo.Entry(src, d, edges[(src, d)]);
      assert Topo.IsEdge(e, src, edges);
      var i :| 0 <= i < |out| && out[i] == e;
      assert Ends(out)[i] == d;
    }
  }

  lemma {:induction false} EdgesJoinTwo(entries: seq<Topo.Entry>)
    ensures forall e :: e in Topo.WithEdges(entries) ==> e.0 != e.1
    decreases |entries|
  {
    if entries != [] {
      EdgesJoinTwo(entries[..|entries| - 1]);
    }
  }

  lemma LinkIffEdge(entries: seq<Topo.Entry>, src: nat, d: nat)
    requires Topo.Insertions(entries).Some?
    ensures var st, edges := Topo.Insertions(entries).value, Topo.WithEdges(entries);
      && (d in LinksFrom(st, src) <==> (src, d) in edges)
      && ((src, d) in edges ==> src <= st.maxId && d <= st.maxId && src != d)
  {
    hide Topo.Insertions, Topo.WithEdges, Topo.Remaining, Topo.ListsEdges;
    var st, edges := Topo.Insertions(entries).value, Topo.WithEdges(entries);
    Topo.IterationIsExact(entries, src);
    EndsAreEdges(Topo.Remaining(st.table, src, Topo.Home(src), Topo.TABLE_SIZE), src, edges, d);
    Topo.InsertionsRepresent(entries);
    EdgesJoinTwo(entries);
  }

  /** Main result: the network the simulator runs on is exactly the set of edges inserted, without loops or unknown nodes. */
  lemma LinksAreTheEdges(entries: seq<Topo.Entry>)
    requires Topo.Insertions(entries).Some?
    ensures Sim.LinksOk(LinksOf(Topo.Insertions(entries).value))
    ensures Sim.EdgesOf(LinksOf(Topo.Insertions(entries).value)) == Topo.WithEdges(entries).Keys
  {
    hide Topo.Insertions, Topo.WithEdges, LinksFrom;
    var st, edges := Topo.Insertions(entries).value, Topo.WithEdges(entries);
    var links := LinksOf(st);
    forall i, d | 0 <= i < |links| && d in links[i] ensures d < |links| && d != i && (i, d) in edges {
      LinkIffEdge(entries, i, d);
    }
    forall e | e in edges ensures e in Sim.EdgesOf(links) {
      LinkIffEdge(entries, e.0, e.1);
      assert e.1 in links[e.0];
      var k :| 0 <= k < |links[e.0]| && links[e.0][k] == e.1;
      assert e == (e.0, links[e.0][k]);
    }
  }
}
