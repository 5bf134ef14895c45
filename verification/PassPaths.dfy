/** The paths of a data-flow graph when edges are led through new nodes: what the nodes are, and by
    how much the paths get longer. */
module PassPaths {
  import opened Arithmetic
  import opened Dfg
  import opened Sync

  const PASS := "PASS"

  // A node that passes its operand on.
  predicate IsPass(n: Node, latency: nat) {
    n.operation == PASS && n.opLatency == latency && !n.commutative && !n.HasImm()
  }

  // The same operation, whatever it is connected to.
  predicate SameOp(n: Node, n': Node) {
    n'.operation == n.operation && n'.opLatency == n.opLatency && n'.commutative == n.commutative && n'.immIdx == n.immIdx
  }

  ghost predicate KeepsOps(g: Graph, g': Graph) {
    forall m | m in g.nodes :: m in g'.nodes && SameOp(g.nodes[m], g'.nodes[m])
  }

  // Edge id is led through the new node n.
  ghost predicate EdgeSplit(g: Graph, g': Graph, id: int, n: int, id1: int, id2: int, latency: nat)
    requires id in g.edges
  {
    var e := g.edges[id];
    && n !in g.nodes && n in g'.nodes && IsPass(g'.nodes[n], latency) && KeepsOps(g, g')
    && id1 !in g.edges && id2 !in g.edges && id1 != id2 && id1 in g'.edges && id2 in g'.edges
    && (forall x | x in g.edges && x != id :: x in g'.edges && g'.edges[x] == g.edges[x])
    && g'.edges[id1] == Edge(e.src, e.srcPort, n, 0) && g'.edges[id2] == Edge(n, 0, e.dst, e.dstPort)
  }

  // How often the path crosses one of the edges.
  ghost function Crossings(p: seq<int>, edges: seq<int>): nat {
    if p == [] then 0 else Crossings(p[..|p| - 1], edges) + if p[|p| - 1] in edges then 1 else 0
  }

  ghost function Occurs(p: seq<int>, id: int): nat { multiset(p)[id] }

  lemma OccursMore(p: seq<int>, x: int, id: int)
    ensures Occurs(p + [x], id) == Occurs(p, id) + if x == id then 1 else 0
  {}

  // The latency of a path, that of the wires left out.
  ghost function OpsOn(g: Graph, p: seq<int>, n: int): int
    requires PathTo(g, p, n)
  {
    PathLatency(g, map[], p, n)
  }

  lemma OnePathMore(g: Graph, p: seq<int>, id: int)
    requires id in g.edges && PathTo(g, p, g.edges[id].src) && g.edges[id].dst in g.nodes
    ensures PathTo(g, p + [id], g.edges[id].dst)
    ensures Start(g, p + [id], g.edges[id].dst) == Start(g, p, g.edges[id].src)
    ensures OpsOn(g, p + [id], g.edges[id].dst) == OpsOn(g, p, g.edges[id].src) + OpLat(g, g.edges[id].dst)
  {
    assert (p + [id])[..|p|] == p;
  }

  // p' leads the same way as p, and is longer by what the crossings take.
  ghost predicate Longer(g: Graph, g': Graph, p: seq<int>, p': seq<int>, m: int, more: nat)
    requires PathTo(g, p, m)
  {
    PathTo(g', p', m) && Start(g', p', m) == Start(g, p, m) && OpsOn(g', p', m) == OpsOn(g, p, m) + more
  }

  // The path in the graph with edge id split: as often as it crosses the edge, it gets longer.
  lemma {:induction false} SplitPath(g: Graph, g': Graph, id: int, n: int, id1: int, id2: int, latency: nat, p: seq<int>, m: int)
    returns (p': seq<int>)
    requires id in g.edges && EdgeSplit(g, g', id, n, id1, id2, latency) && PathTo(g, p, m)
    ensures Longer(g, g', p, p', m, Times(Occurs(p, id), latency))
    ensures forall x | x in g.edges && x != id :: Occurs(p', x) == Occurs(p, x)
  {
    assert SameOp(g.nodes[m], g'.nodes[m]);
    if p == [] {
      return [];
    }
    var last, front := p[|p| - 1], p[..|p| - 1];
    var src := g.edges[last].src;
    assert p == front + [last];
    var q := SplitPath(g, g', id, n, id1, id2, latency, front, src);
    OccursMore(front, last, id);
    if last == id {
      p' := q + [id1] + [id2];
      OnePathMore(g', q, id1);
      OnePathMore(g', q + [id1], id2);
      assert Times(Occurs(front, id) + 1, latency) == latency + Times(Occurs(front, id), latency);
    } else {
      p' := q + [last];
      OnePathMore(g', q, last);
    }
    forall x | x in g.edges && x != id
      ensures Occurs(p', x) == Occurs(p, x)
    {
      OccursMore(front, last, x);
      OccursMore(q, last, x);
      OccursMore(q, id1, x);
      OccursMore(q + [id1], id2, x);
    }
  }

  // All paths of g, led through the new nodes of g', with the edges of the list split.
  ghost predicate PathsLonger(g: Graph, g': Graph, latency: nat, split: seq<int>) {
    forall p, m {:trigger PathTo(g, p, m)} | PathTo(g, p, m) :: exists p' :: IsLed(g, g', latency, split, p, p', m)
  }

  ghost predicate IsLed(g: Graph, g': Graph, latency: nat, split: seq<int>, p: seq<int>, p': seq<int>, m: int)
    requires PathTo(g, p, m)
  {
    && Longer(g, g', p, p', m, Times(Crossings(p, split), latency))
    && forall x | x in g.edges && x !in split :: Occurs(p', x) == Occurs(p, x)
  }

  lemma {:induction false} NoCrossings(p: seq<int>)
    ensures Crossings(p, []) == 0
  {
    if p != [] {
      NoCrossings(p[..|p| - 1]);
    }
  }

  lemma {:induction false} CrossingsMore(p: seq<int>, split: seq<int>, id: int)
    requires id !in split
    ensures Crossings(p, split + [id]) == Crossings(p, split) + Occurs(p, id)
  {
    if p != [] {
      var k := |p| - 1;
      CrossingsMore(p[..k], split, id);
      assert p == p[..k] + [p[k]];
      OccursMore(p[..k], p[k], id);
    }
  }

  lemma {:induction false} TimesAdd(j: nat, k: nat, f: nat)
    ensures Times(j + k, f) == Times(j, f) + Times(k, f)
  {
    if j > 0 {
      TimesAdd(j - 1, k, f);
    }
  }

  lemma PathsStart(g: Graph, latency: nat)
    ensures PathsLonger(g, g, latency, [])
  {
    forall p, m | PathTo(g, p, m)
      ensures exists p' :: IsLed(g, g, latency, [], p, p', m)
    {
      NoCrossings(p);
      assert IsLed(g, g, latency, [], p, p, m);
    }
  }

  // One more edge is split.
  lemma PathsMore(g: Graph, g': Graph, g'': Graph, latency: nat, split: seq<int>, id: int, n: int, id1: int, id2: int)
    requires PathsLonger(g, g', latency, split) && id in g.edges && id !in split
    requires id in g'.edges && EdgeSplit(g', g'', id, n, id1, id2, latency)
    requires forall x | x in g.edges && x !in split :: x in g'.edges
    ensures PathsLonger(g, g'', latency, split + [id])
  {
    forall p, m | PathTo(g, p, m)
      ensures exists p'' :: IsLed(g, g'', latency, split + [id], p, p'', m)
    {
      var p' :| IsLed(g, g', latency, split, p, p', m);
      var p'' := SplitPath(g', g'', id, n, id1, id2, latency, p', m);
      CrossingsMore(p, split, id);
      TimesAdd(Crossings(p, split), Occurs(p, id), latency);
      assert IsLed(g, g'', latency, split + [id], p, p'', m);
    }
  }
}
