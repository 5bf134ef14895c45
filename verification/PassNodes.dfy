/** Splitting edges of a data-flow graph by pass-through nodes, so that registers of the array
    take up latency; and what the graph computes, before and after. */
module PassNodes {
  import opened Dfg
  import opened GraphEdit
  import DataFlow
  import Collections
  import opened PassPaths

  // ----- what a graph computes

  // What the node makes of its inputs at each out port. A pass node copies its input 0.
  type Meaning = (int, int, map<int, int>) -> int

  type Valuation = (int, int) -> int

  function Apply(g: Graph, sem: Meaning, n: int, port: int, ins: map<int, int>): int
    requires n in g.nodes
  {
    if g.nodes[n].operation == PASS && port == 0 && 0 in ins then ins[0] else sem(n, port, ins)
  }

  function Ins(g: Graph, v: Valuation, n: int): map<int, int>
    requires n in g.nodes
  {
    map p | p in g.nodes[n].inputs :: v(g.nodes[n].inputs[p].0, g.nodes[n].inputs[p].1)
  }

  ghost predicate ComputesAt(g: Graph, sem: Meaning, v: Valuation, n: int)
    requires n in g.nodes
  {
    forall port :: v(n, port) == Apply(g, sem, n, port, Ins(g, v, n))
  }

  // v gives every out port the value that its node makes.
  ghost predicate Computes(g: Graph, sem: Meaning, v: Valuation) {
    forall n {:trigger ComputesAt(g, sem, v, n)} | n in g.nodes :: ComputesAt(g, sem, v, n)
  }

  ghost predicate AgreeOn(g: Graph, v: Valuation, v': Valuation) {
    forall n, port {:trigger v'(n, port)} | n in g.nodes :: v(n, port) == v'(n, port)
  }

  // All that g' computes is a computation of g, and every computation of g is part of one of g'.
  ghost predicate SameMeaning(g: Graph, g': Graph) {
    && (forall n | n in g.nodes :: n in g'.nodes)
    && (forall sem, v {:trigger Collections.Unfold((sem, v))} | Collections.Unfold((sem, v)) && Computes(g', sem, v) :: Computes(g, sem, v))
    && (forall sem, v {:trigger Collections.Unfold((sem, v))} | Collections.Unfold((sem, v)) && Computes(g, sem, v) :: exists v' :: Computes(g', sem, v') && AgreeOn(g, v, v'))
  }

  lemma SameIns(g: Graph, g': Graph, v: Valuation, v': Valuation, n: int)
    requires n in g.nodes && n in g'.nodes && g'.nodes[n].inputs.Keys == g.nodes[n].inputs.Keys
    requires forall p | p in g.nodes[n].inputs :: v'(g'.nodes[n].inputs[p].0, g'.nodes[n].inputs[p].1) == v(g.nodes[n].inputs[p].0, g.nodes[n].inputs[p].1)
    ensures Ins(g', v', n) == Ins(g, v, n)
  {
    var a, b := Ins(g, v, n), Ins(g', v', n);
    assert a.Keys == b.Keys;
    forall p | p in a.Keys
      ensures p in b && a[p] == b[p]
    {}
    assert a == b;
  }

  // An acyclic graph computes one thing only.
  lemma {:induction false} OneComputation(g: Graph, sem: Meaning, v: Valuation, v': Valuation, rank: int -> nat, n: int)
    requires WellFormed(g) && Ranked(g, rank) && Computes(g, sem, v) && Computes(g, sem, v') && n in g.nodes
    ensures forall port :: v(n, port) == v'(n, port)
    decreases rank(n)
  {
    assert InputsBacked(g, n);
    forall p | p in g.nodes[n].inputs
      ensures v'(g.nodes[n].inputs[p].0, g.nodes[n].inputs[p].1) == v(g.nodes[n].inputs[p].0, g.nodes[n].inputs[p].1)
    {
      assert p in g.nodes[n].inputEdges;
      var id := g.nodes[n].inputEdges[p];
      assert EdgeRegistered(g, id);
      OneComputation(g, sem, v, v', rank, g.edges[id].src);
    }
    SameIns(g, g, v, v', n);
    assert ComputesAt(g, sem, v, n) && ComputesAt(g, sem, v', n);
  }

  // Every old node computes the same in the new graph.
  lemma SameValues(g: Graph, g': Graph, sem: Meaning, v: Valuation, v': Valuation)
    requires WellFormed(g) && Acyclic(g) && SameMeaning(g, g')
    requires Computes(g, sem, v) && Computes(g', sem, v')
    ensures AgreeOn(g, v, v')
  {
    assert Collections.Unfold((sem, v'));
    var rank :| Ranked(g, rank);
    forall n, port | n in g.nodes
      ensures v(n, port) == v'(n, port)
    {
      OneComputation(g, sem, v, v', rank, n);
    }
  }

  // What the node makes of its inputs, and they of theirs.
  ghost function Value(g: Graph, sem: Meaning, rank: int -> nat, n: int, port: int): int
    requires WellFormed(g) && Ranked(g, rank) && n in g.nodes
    decreases rank(n), 1
  {
    Apply(g, sem, n, port, InputValues(g, sem, rank, n))
  }

  ghost function InputValues(g: Graph, sem: Meaning, rank: int -> nat, n: int): map<int, int>
    requires WellFormed(g) && Ranked(g, rank) && n in g.nodes
    decreases rank(n), 0
  {
    map p | p in g.nodes[n].inputs ::
      (InputRanked(g, rank, n, p); Value(g, sem, rank, g.nodes[n].inputs[p].0, g.nodes[n].inputs[p].1))
  }

  lemma InputRanked(g: Graph, rank: int -> nat, n: int, p: int)
    requires WellFormed(g) && Ranked(g, rank) && n in g.nodes && p in g.nodes[n].inputs
    ensures g.nodes[n].inputs[p].0 in g.nodes && rank(g.nodes[n].inputs[p].0) < rank(n)
  {
    assert InputsBacked(g, n);
    assert EdgeRegistered(g, g.nodes[n].inputEdges[p]);
  }

  // An acyclic graph computes something, whatever its operations mean.
  lemma SomeComputation(g: Graph, sem: Meaning) returns (v: Valuation)
    requires WellFormed(g) && Acyclic(g)
    ensures Computes(g, sem, v)
  {
    var rank: int -> nat :| Ranked(g, rank);
    v := (n, port) => if n in g.nodes then Value(g, sem, rank, n, port) else 0;
    forall n | n in g.nodes
      ensures ComputesAt(g, sem, v, n)
    {
      var ins := InputValues(g, sem, rank, n);
      forall p | p in g.nodes[n].inputs
        ensures Ins(g, v, n)[p] == ins[p]
      {
        InputRanked(g, rank, n, p);
      }
      assert Ins(g, v, n) == ins;
    }
  }

  // The old and the new graph have one computation each, and it is the same on the old nodes.
  lemma SameComputation(g: Graph, g': Graph, sem: Meaning) returns (v: Valuation, v': Valuation)
    requires WellFormed(g) && Acyclic(g) && Refines(g, g')
    ensures Computes(g, sem, v) && Computes(g', sem, v') && AgreeOn(g, v, v')
    ensures forall w, n, port | Computes(g, sem, w) && n in g.nodes :: w(n, port) == v(n, port)
    ensures forall w, n, port | Computes(g', sem, w) && n in g'.nodes :: w(n, port) == v'(n, port)
  {
    v := SomeComputation(g, sem);
    v' := SomeComputation(g', sem);
    SameValues(g, g', sem, v, v');
    OneForAll(g, sem, v);
    OneForAll(g', sem, v');
  }

  lemma OneForAll(g: Graph, sem: Meaning, v: Valuation)
    requires WellFormed(g) && Acyclic(g) && Computes(g, sem, v)
    ensures forall w, n, port | Computes(g, sem, w) && n in g.nodes :: w(n, port) == v(n, port)
  {
    var rank: int -> nat :| Ranked(g, rank);
    forall w, n, port | Computes(g, sem, w) && n in g.nodes
      ensures w(n, port) == v(n, port)
    {
      OneComputation(g, sem, v, w, rank, n);
    }
  }

  lemma MeaningReflexive(g: Graph)
    ensures SameMeaning(g, g)
  {}

  lemma MeaningTransitive(g: Graph, g': Graph, g'': Graph)
    requires SameMeaning(g, g') && SameMeaning(g', g'')
    ensures SameMeaning(g, g'')
  {
    forall sem, v | Computes(g'', sem, v)
      ensures Computes(g, sem, v)
    {
      assert Collections.Unfold((sem, v));
    }
    forall sem, v | Computes(g, sem, v)
      ensures exists v'' :: Computes(g'', sem, v'') && AgreeOn(g, v, v'')
    {
      assert Collections.Unfold((sem, v));
      var v' :| Computes(g', sem, v') && AgreeOn(g, v, v');
      assert Collections.Unfold((sem, v'));
      var v'' :| Computes(g'', sem, v'') && AgreeOn(g', v', v'');
      forall n, port | n in g.nodes
        ensures v(n, port) == v''(n, port)
      {
        assert v(n, port) == v'(n, port);
      }
    }
  }

  // ----- splitting one edge

  // g' is g with edge id led through the new node n.
  ghost predicate Split(g: Graph, g': Graph, id: int, n: int, id1: int, id2: int)
    requires id in g.edges
  {
    var e := g.edges[id];
    && n !in g.nodes && id1 !in g.edges && id2 !in g.edges && id1 != id2
    && (forall m :: m in g'.nodes <==> m in g.nodes || m == n)
    && (forall x :: x in g'.edges <==> (x in g.edges && x != id) || x == id1 || x == id2)
    && (forall x | x in g.edges && x != id && x in g'.edges :: g'.edges[x] == g.edges[x])
    && g'.edges[id1] == Edge(e.src, e.srcPort, n, 0) && g'.edges[id2] == Edge(n, 0, e.dst, e.dstPort)
    && g'.nodes[n].operation == PASS && g'.nodes[n].inputs == map[0 := (e.src, e.srcPort)]
    && (forall m {:trigger SplitAt(g, g', e, n, m)} | m in g.nodes :: SplitAt(g, g', e, n, m))
    && g'.ioNodes == g.ioNodes
  }

  ghost predicate SplitAt(g: Graph, g': Graph, e: Edge, n: int, m: int)
    requires m in g.nodes
  {
    && m in g'.nodes && g'.nodes[m].operation == g.nodes[m].operation
    && g'.nodes[m].inputs.Keys == g.nodes[m].inputs.Keys
    && forall p | p in g.nodes[m].inputs ::
         g'.nodes[m].inputs[p] == if m == e.dst && p == e.dstPort then (n, 0) else g.nodes[m].inputs[p]
  }

  lemma SplitForgets(g: Graph, g': Graph, id: int, n: int, id1: int, id2: int, sem: Meaning, v: Valuation)
    requires WellFormed(g) && id in g.edges && Split(g, g', id, n, id1, id2)
    requires Computes(g', sem, v)
    ensures Computes(g, sem, v)
  {
    var e := g.edges[id];
    assert EdgeRegistered(g, id);
    assert ComputesAt(g', sem, v, n);
    assert v(n, 0) == v(e.src, e.srcPort);
    forall m | m in g.nodes
      ensures ComputesAt(g, sem, v, m)
    {
      assert SplitAt(g, g', e, n, m) && ComputesAt(g', sem, v, m);
      SameIns(g, g', v, v, m);
    }
  }

  lemma SplitExtends(g: Graph, g': Graph, id: int, n: int, id1: int, id2: int, sem: Meaning, v: Valuation) returns (v': Valuation)
    requires WellFormed(g) && id in g.edges && Split(g, g', id, n, id1, id2)
    requires Computes(g, sem, v)
    ensures Computes(g', sem, v') && AgreeOn(g, v, v')
  {
    var e := g.edges[id];
    assert EdgeRegistered(g, id);
    var ins := map[0 := v(e.src, e.srcPort)];
    v' := (m, port) => if m == n then (if port == 0 then ins[0] else sem(n, port, ins)) else v(m, port);
    forall m | m in g'.nodes
      ensures ComputesAt(g', sem, v', m)
    {
      if m == n {
        assert Ins(g', v', n).Keys == {0} && Ins(g', v', n)[0] == ins[0];
        assert Ins(g', v', n) == ins;
      } else {
        assert SplitAt(g, g', e, n, m) && ComputesAt(g, sem, v, m);
        assert InputsBacked(g, m);
        forall p | p in g.nodes[m].inputs
          ensures v'(g'.nodes[m].inputs[p].0, g'.nodes[m].inputs[p].1) == v(g.nodes[m].inputs[p].0, g.nodes[m].inputs[p].1)
        {
          InputFrom(g, m, p);
        }
        SameIns(g, g', v, v', m);
      }
    }
  }

  lemma InputFrom(g: Graph, m: int, p: int)
    requires WellFormed(g) && m in g.nodes && p in g.nodes[m].inputs
    ensures g.nodes[m].inputs[p].0 in g.nodes
  {}

  lemma SplitKeepsMeaning(g: Graph, g': Graph, id: int, n: int, id1: int, id2: int)
    requires WellFormed(g) && id in g.edges && Split(g, g', id, n, id1, id2)
    ensures SameMeaning(g, g')
  {
    forall sem, v | Computes(g', sem, v)
      ensures Computes(g, sem, v)
    {
      SplitForgets(g, g', id, n, id1, id2, sem, v);
    }
    forall sem, v | Computes(g, sem, v)
      ensures exists v' :: Computes(g', sem, v') && AgreeOn(g, v, v')
    {
      var v' := SplitExtends(g, g', id, n, id1, id2, sem, v);
    }
  }

  lemma SplitKeepsAcyclic(g: Graph, g': Graph, id: int, n: int, id1: int, id2: int)
    requires WellFormed(g) && id in g.edges && Split(g, g', id, n, id1, id2) && Acyclic(g)
    ensures Acyclic(g')
  {
    var e := g.edges[id];
    var rank: int -> nat :| Ranked(g, rank);
    var rank': int -> nat := m => if m == n then 2 * rank(e.src) + 1 else 2 * rank(m);
    forall x | x in g'.edges
      ensures rank'(g'.edges[x].src) < rank'(g'.edges[x].dst)
    {
      if x in g.edges {
        assert EdgeRegistered(g, x);
      }
      assert EdgeRegistered(g, id);
    }
    assert Ranked(g', rank');
  }

  // ----- splitting as the mapper does it

  // A new pass node; its latency is that of the operation in the operation table.
  function PassNode(latency: nat): Node { Node(PASS, latency, false, -1, map[], map[], map[], map[]) }

  // The four steps: the edge goes, a node comes, and an edge on either side of it.
  function SplitEdge(g: Graph, latency: nat, id: int, n: int, id1: int, id2: int): Graph
    requires id in g.edges && g.edges[id].src in g.nodes && g.edges[id].dst in g.nodes
  {
    var e := g.edges[id];
    AddEdge(AddEdge(AddNode(DelEdge(g, id), n, PassNode(latency)), id1, Edge(e.src, e.srcPort, n, 0)), id2, Edge(n, 0, e.dst, e.dstPort))
  }

  lemma SplitEdgeAt(g: Graph, latency: nat, id: int, n: int, id1: int, id2: int, m: int)
    requires id in g.edges && EdgeRegistered(g, id) && n !in g.nodes && m in g.nodes
    ensures SplitAt(g, SplitEdge(g, latency, id, n, id1, id2), g.edges[id], n, m)
  {
    var e := g.edges[id];
    var g1 := AddNode(DelEdge(g, id), n, PassNode(latency));
    var e1, e2 := Edge(e.src, e.srcPort, n, 0), Edge(n, 0, e.dst, e.dstPort);
    DelEdgeAt(g, id, m);
    AddEdgeAt(g1, id1, e1, m);
    AddEdgeAt(AddEdge(g1, id1, e1), id2, e2, m);
  }

  lemma SplitEdgeNew(g: Graph, latency: nat, id: int, n: int, id1: int, id2: int)
    requires id in g.edges && EdgeRegistered(g, id) && n !in g.nodes
    ensures var g' := SplitEdge(g, latency, id, n, id1, id2);
      n in g'.nodes && g'.nodes[n].operation == PASS && g'.nodes[n].inputs == map[0 := (g.edges[id].src, g.edges[id].srcPort)]
  {}

  lemma SplitEdgeSplits(g: Graph, latency: nat, id: int, n: int, id1: int, id2: int)
    requires id in g.edges && EdgeRegistered(g, id)
    requires n !in g.nodes && id1 !in g.edges && id2 !in g.edges && id1 != id2
    ensures Split(g, SplitEdge(g, latency, id, n, id1, id2), id, n, id1, id2)
  {
    forall m | m in g.nodes
      ensures SplitAt(g, SplitEdge(g, latency, id, n, id1, id2), g.edges[id], n, m)
    {
      SplitEdgeAt(g, latency, id, n, id1, id2, m);
    }
    SplitEdgeNew(g, latency, id, n, id1, id2);
  }

  lemma SplitEdgeOp(g: Graph, latency: nat, id: int, n: int, id1: int, id2: int, m: int)
    requires id in g.edges && EdgeRegistered(g, id) && n !in g.nodes && (m in g.nodes || m == n)
    ensures var g' := SplitEdge(g, latency, id, n, id1, id2);
      m in g'.nodes && if m == n then IsPass(g'.nodes[m], latency) else SameOp(g.nodes[m], g'.nodes[m])
  {}

  lemma SplitEdgePaths(g: Graph, latency: nat, id: int, n: int, id1: int, id2: int)
    requires id in g.edges && EdgeRegistered(g, id)
    requires n !in g.nodes && id1 !in g.edges && id2 !in g.edges && id1 != id2
    ensures EdgeSplit(g, SplitEdge(g, latency, id, n, id1, id2), id, n, id1, id2, latency)
  {
    SplitEdgeSplits(g, latency, id, n, id1, id2);
    SplitEdgeOp(g, latency, id, n, id1, id2, n);
    forall m | m in g.nodes
      ensures m in SplitEdge(g, latency, id, n, id1, id2).nodes
      ensures SameOp(g.nodes[m], SplitEdge(g, latency, id, n, id1, id2).nodes[m])
    {
      SplitEdgeOp(g, latency, id, n, id1, id2, m);
    }
  }

  lemma SplitEdgeCounts(g: Graph, latency: nat, id: int, n: int, id1: int, id2: int)
    requires id in g.edges && EdgeRegistered(g, id) && n !in g.nodes
    ensures |SplitEdge(g, latency, id, n, id1, id2).nodes| == |g.nodes| + 1
  {}

  // g' is as sound as g and computes the same.
  ghost predicate Refines(g: Graph, g': Graph) {
    WellFormed(g') && SameMeaning(g, g') && (Acyclic(g) ==> Acyclic(g'))
  }

  lemma RefinesOn(g: Graph, g': Graph, g'': Graph)
    requires Refines(g, g') && Refines(g', g'')
    ensures Refines(g, g'')
  {
    MeaningTransitive(g, g', g'');
  }

  // g' is g with the edges of the list split by one new pass node each; ids up to the given are taken.
  ghost predicate Grown(g: Graph, g': Graph, split: seq<int>, nodeId: int, edgeId: int) {
    NodesGrown(g, g', |split|, nodeId) && EdgesGrown(g, g', split, edgeId)
  }

  ghost predicate NodesGrown(g: Graph, g': Graph, count: nat, nodeId: int) {
    && g'.ioNodes == g.ioNodes && |g'.nodes| == |g.nodes| + count
    && (forall n | n in g'.nodes :: n <= nodeId)
    && (forall n | n in g.nodes :: n in g'.nodes)
    && (forall n | n in g'.nodes && n !in g.nodes :: g'.nodes[n].operation == PASS)
  }

  ghost predicate EdgesGrown(g: Graph, g': Graph, split: seq<int>, edgeId: int) {
    && (forall e | e in g'.edges :: e <= edgeId) && (forall e | e in g.edges :: e <= edgeId)
    && (forall e | e in g.edges :: e in g'.edges <==> e !in split)
    && (forall e | e in g.edges && e in g'.edges :: g'.edges[e] == g.edges[e])
  }

  lemma NodesGrownMore(g: Graph, g': Graph, g'': Graph, count: nat, nodeId: int, id: int, id1: int, id2: int)
    requires NodesGrown(g, g', count, nodeId) && id in g'.edges
    requires Split(g', g'', id, nodeId + 1, id1, id2) && |g''.nodes| == |g'.nodes| + 1
    ensures NodesGrown(g, g'', count + 1, nodeId + 1)
  {
    forall n | n in g''.nodes && n !in g.nodes
      ensures g''.nodes[n].operation == PASS
    {
      assert n in g'.nodes ==> SplitAt(g', g'', g'.edges[id], nodeId + 1, n);
    }
  }

  lemma EdgesGrownMore(g: Graph, g': Graph, g'': Graph, split: seq<int>, edgeId: int, id: int, n: int)
    requires EdgesGrown(g, g', split, edgeId) && id in g'.edges && id in g.edges
    requires Split(g', g'', id, n, edgeId + 1, edgeId + 2)
    ensures EdgesGrown(g, g'', split + [id], edgeId + 2)
  {}

  lemma RefinesMore(g: Graph, g': Graph, g'': Graph, id: int, n: int, id1: int, id2: int)
    requires Refines(g, g') && id in g'.edges && Split(g', g'', id, n, id1, id2) && WellFormed(g'')
    ensures Refines(g, g'')
  {
    SplitKeepsMeaning(g', g'', id, n, id1, id2);
    MeaningTransitive(g, g', g'');
    if Acyclic(g) {
      SplitKeepsAcyclic(g', g'', id, n, id1, id2);
    }
  }

  // Old nodes keep their operations, new ones pass on in the given latency, and by that much every
  // path gets longer as often as it crosses an edge that is split.
  ghost predicate Lengthens(g: Graph, g': Graph, latency: nat, split: seq<int>) {
    && KeepsOps(g, g') && PathsLonger(g, g', latency, split)
    && forall m | m in g'.nodes && m !in g.nodes :: IsPass(g'.nodes[m], latency)
  }

  lemma LengthensMore(g: Graph, g': Graph, g'': Graph, latency: nat, split: seq<int>, id: int, n: int, id1: int, id2: int)
    requires Lengthens(g, g', latency, split) && id in g.edges && id !in split && id in g'.edges
    requires EdgeSplit(g', g'', id, n, id1, id2, latency) && forall m | m in g''.nodes :: m in g'.nodes || m == n
    requires forall x | x in g.edges && x !in split :: x in g'.edges
    ensures Lengthens(g, g'', latency, split + [id])
  {
    PathsMore(g, g', g'', latency, split, id, n, id1, id2);
    forall m | m in g''.nodes && m !in g.nodes
      ensures IsPass(g''.nodes[m], latency)
    {
      assert m in g'.nodes ==> SameOp(g'.nodes[m], g''.nodes[m]);
    }
    forall m | m in g.nodes
      ensures m in g''.nodes && SameOp(g.nodes[m], g''.nodes[m])
    {
      assert SameOp(g.nodes[m], g'.nodes[m]) && SameOp(g'.nodes[m], g''.nodes[m]);
    }
  }

  // Leads the edge through a new pass node.
  method SplitDfgEdge(dfg: DataFlow.DataFlowGraph, latency: nat, eid: int, nodeId: int, edgeId: int)
    requires WellFormed(dfg.G()) && eid in dfg.edges && nodeId !in dfg.nodes
    requires forall e | e in dfg.edges :: e < edgeId
    modifies dfg`nodes, dfg`edges
    ensures EdgeRegistered(old(dfg.G()), eid)
    ensures dfg.G() == SplitEdge(old(dfg.G()), latency, eid, nodeId, edgeId, edgeId + 1) && WellFormed(dfg.G())
  {
    var e := dfg.edges[eid];
    dfg.DelEdge(eid);
    dfg.AddNode(nodeId, PassNode(latency));
    dfg.AddEdge(edgeId, Edge(e.src, e.srcPort, nodeId, 0));
    dfg.AddEdge(edgeId + 1, Edge(nodeId, 0, e.dst, e.dstPort));
  }

  // ----- which edges are split

  ghost predicate Descending(s: seq<int>, vio: map<int, int>)
    requires Known(s, vio)
  {
    forall i, j | 0 <= i < j < |s| :: vio[s[i]] >= vio[s[j]]
  }

  ghost predicate Known(s: seq<int>, vio: map<int, int>) {
    forall i | 0 <= i < |s| :: s[i] in vio
  }

  // Orders the edges by their violations, the worst first.
  method SortByViolation(s: seq<int>, vio: map<int, int>) returns (t: seq<int>)
    requires Known(s, vio)
    ensures multiset(t) == multiset(s) && Known(t, vio) && Descending(t, vio)
  {
    t := [];
    for i := 0 to |s|
      invariant multiset(t) == multiset(s[..i]) && Known(t, vio) && Descending(t, vio)
    {
      assert s[..i + 1] == s[..i] + [s[i]];
      t := Insert(t, s[i], vio);
    }
    assert s[..|s|] == s;
  }

  method Insert(s: seq<int>, x: int, vio: map<int, int>) returns (t: seq<int>)
    requires Known(s, vio) && Descending(s, vio) && x in vio
    ensures multiset(t) == multiset(s) + multiset{x} && Known(t, vio) && Descending(t, vio)
  {
    var k := |s|;
    while k > 0 && vio[s[k - 1]] < vio[x]
      invariant 0 <= k <= |s| && forall j | k <= j < |s| :: vio[s[j]] < vio[x]
    {
      k := k - 1;
    }
    t := s[..k] + [x] + s[k..];
    InsertedIsSame(s, k, x);
    InsertedIsDescending(s, k, x, vio);
  }

  lemma InsertedIsSame(s: seq<int>, k: nat, x: int)
    requires k <= |s|
    ensures multiset(s[..k] + [x] + s[k..]) == multiset(s) + multiset{x}
  {
    assert s == s[..k] + s[k..];
  }

  lemma InsertedIsDescending(s: seq<int>, k: nat, x: int, vio: map<int, int>)
    requires Known(s, vio) && Descending(s, vio) && x in vio && k <= |s|
    requires forall j | k <= j < |s| :: vio[s[j]] < vio[x]
    requires k > 0 ==> vio[s[k - 1]] >= vio[x]
    ensures Known(s[..k] + [x] + s[k..], vio) && Descending(s[..k] + [x] + s[k..], vio)
  {}

  method MaxOf(s: set<int>) returns (m: int)
    ensures forall x | x in s :: x <= m
  {
    m := 0;
    var todo := s;
    while todo != {}
      invariant todo <= s && forall x | x in s && x !in todo :: x <= m
      decreases |todo|
    {
      var x := Collections.Pick(todo);
      m := if todo == s || x > m then x else m;
      todo := todo - {x};
    }
  }

  // The edges to split are known edges, each listed once.
  ghost predicate EdgesListed(g: Graph, s: seq<int>) {
    Distinct(s) && forall i | 0 <= i < |s| :: s[i] in g.edges
  }

  // Copies dfg to newDfg and splits as many of the violating edges as there are free units, the
  // worst first if not all can be. Fails when there is no free unit.
  method InsertPassDfgNodes(numGpeNodes: int, latency: nat, dfg: DataFlow.DataFlowGraph, vioDfgEdges: seq<int>, vio: map<int, int>,
                            newDfg: DataFlow.DataFlowGraph)
    returns (ok: bool, split: seq<int>)
    requires dfg != newDfg && WellFormed(dfg.G()) && newDfg.nodes == map[] && newDfg.edges == map[]
    requires EdgesListed(dfg.G(), vioDfgEdges) && Known(vioDfgEdges, vio)
    modifies newDfg
    ensures ok <==> |dfg.nodes| - |dfg.ioNodes| < numGpeNodes
    ensures !ok ==> newDfg.G() == old(newDfg.G())
    ensures ok ==> Refines(dfg.G(), newDfg.G()) && newDfg.topoNodes == dfg.topoNodes
    ensures ok ==> Lengthens(dfg.G(), newDfg.G(), latency, split)
    ensures ok ==> |newDfg.nodes| - |newDfg.ioNodes| <= numGpeNodes
    ensures ok ==> exists nodeId, edgeId :: Grown(dfg.G(), newDfg.G(), split, nodeId, edgeId)
    ensures ok ==> forall n, n' | n in dfg.nodes && n' in newDfg.nodes && n' !in dfg.nodes :: n < n'
    ensures ok ==> WorstOf(split, vioDfgEdges, vio, numGpeNodes - (|dfg.nodes| - |dfg.ioNodes|))
  {
    var numAvail := numGpeNodes - (|dfg.nodes| - |dfg.ioNodes|);
    split := [];
    if numAvail <= 0 {
      return false, split;
    }
    newDfg.CopyFrom(dfg);
    var edges := vioDfgEdges;
    if numAvail < |vioDfgEdges| {
      edges := SortByViolation(vioDfgEdges, vio);
      SortedIsListed(dfg.G(), vioDfgEdges, edges);
    }
    ghost var nodeId, maxNodeId, maxEdgeId;
    split, nodeId, maxNodeId, maxEdgeId := SplitFirst(newDfg, latency, edges, numAvail);
    SplittingEnds(dfg.G(), newDfg.G(), latency, split, nodeId, maxNodeId, maxEdgeId);
    FirstAreWorst(edges, vioDfgEdges, vio, |split|, numAvail);
    ok := true;
  }

  // Splits the first of the edges, as many as there is room for.
  method SplitFirst(dfg: DataFlow.DataFlowGraph, latency: nat, edges: seq<int>, room: nat)
    returns (split: seq<int>, ghost nodeId: int, ghost lastNodeId: int, ghost lastEdgeId: int)
    requires WellFormed(dfg.G()) && EdgesListed(dfg.G(), edges)
    modifies dfg`nodes, dfg`edges
    ensures split == edges[..if room < |edges| then room else |edges|]
    ensures Splitting(old(dfg.G()), dfg.G(), latency, split, nodeId, lastNodeId, lastEdgeId)
  {
    var maxNodeId := MaxOf(dfg.nodes.Keys);
    var maxEdgeId := MaxOf(dfg.edges.Keys);
    ghost var g := dfg.G();
    nodeId := maxNodeId;
    NothingSplit(g, latency, maxNodeId, maxEdgeId);
    split := [];
    var n := 0;
    while n < |edges| && n < room
      invariant 0 <= n <= |edges| && n <= room && split == edges[..n]
      invariant Splitting(g, dfg.G(), latency, split, nodeId, maxNodeId, maxEdgeId)
    {
      NotBefore(edges, n);
      SplitNext(dfg, latency, edges[n], maxNodeId, maxEdgeId, g, split, nodeId);
      split := split + [edges[n]];
      maxNodeId, maxEdgeId := maxNodeId + 1, maxEdgeId + 2;
      n := n + 1;
    }
    lastNodeId, lastEdgeId := maxNodeId, maxEdgeId;
  }

  lemma NothingSplit(g: Graph, latency: nat, nodeId: int, edgeId: int)
    requires WellFormed(g) && (forall n | n in g.nodes :: n <= nodeId) && (forall e | e in g.edges :: e <= edgeId)
    ensures Splitting(g, g, latency, [], nodeId, nodeId, edgeId)
  {
    MeaningReflexive(g);
    PathsStart(g, latency);
  }

  lemma SplittingEnds(g: Graph, g': Graph, latency: nat, split: seq<int>, nodeId: int, maxNodeId: int, maxEdgeId: int)
    requires Splitting(g, g', latency, split, nodeId, maxNodeId, maxEdgeId)
    ensures Refines(g, g') && Grown(g, g', split, maxNodeId, maxEdgeId) && Lengthens(g, g', latency, split)
    ensures forall n, n' | n in g.nodes && n' in g'.nodes && n' !in g.nodes :: n < n'
    ensures |g'.nodes| - |g'.ioNodes| == |g.nodes| - |g.ioNodes| + |split|
  {
    assert Collections.Unfold(Collections.TheProgress);
  }

  // In the middle of it; nodeId is the largest node id of the old graph.
  ghost predicate Splitting(g: Graph, g': Graph, latency: nat, split: seq<int>, nodeId: int, maxNodeId: int, maxEdgeId: int) {
    forall k {:trigger Collections.Unfold(k)} | Collections.Unfold(k) && k == Collections.TheProgress ::
      && WellFormed(g) && Refines(g, g') && Grown(g, g', split, maxNodeId, maxEdgeId) && Lengthens(g, g', latency, split)
      && (forall m | m in g'.nodes && m !in g.nodes :: m > nodeId)
      && (forall m | m in g.nodes :: m <= nodeId) && nodeId <= maxNodeId
  }

  method SplitNext(dfg: DataFlow.DataFlowGraph, latency: nat, id: int, maxNodeId: int, maxEdgeId: int, ghost g: Graph, ghost split: seq<int>, ghost nodeId: int)
    requires Splitting(g, dfg.G(), latency, split, nodeId, maxNodeId, maxEdgeId) && id in g.edges && id !in split
    modifies dfg`nodes, dfg`edges
    ensures Splitting(g, dfg.G(), latency, split + [id], nodeId, maxNodeId + 1, maxEdgeId + 2)
  {
    assert Collections.Unfold(Collections.TheProgress);
    ghost var g' := dfg.G();
    SplitDfgEdge(dfg, latency, id, maxNodeId + 1, maxEdgeId + 1);
    SplitKeepsGoing(g, g', latency, split, nodeId, maxNodeId, maxEdgeId, id);
  }

  lemma SplitKeepsGoing(g: Graph, g': Graph, latency: nat, split: seq<int>, nodeId: int, maxNodeId: int, maxEdgeId: int, id: int)
    requires Splitting(g, g', latency, split, nodeId, maxNodeId, maxEdgeId)
    requires id in g.edges && id in g'.edges && EdgeRegistered(g', id) && id !in split
    requires WellFormed(SplitEdge(g', latency, id, maxNodeId + 1, maxEdgeId + 1, maxEdgeId + 2))
    ensures Splitting(g, SplitEdge(g', latency, id, maxNodeId + 1, maxEdgeId + 1, maxEdgeId + 2), latency, split + [id], nodeId, maxNodeId + 1, maxEdgeId + 2)
  {
    assert Collections.Unfold(Collections.TheProgress);
    var g'' := SplitEdge(g', latency, id, maxNodeId + 1, maxEdgeId + 1, maxEdgeId + 2);
    SplitEdgeSplits(g', latency, id, maxNodeId + 1, maxEdgeId + 1, maxEdgeId + 2);
    SplitEdgeCounts(g', latency, id, maxNodeId + 1, maxEdgeId + 1, maxEdgeId + 2);
    SplitEdgePaths(g', latency, id, maxNodeId + 1, maxEdgeId + 1, maxEdgeId + 2);
    SplitGoesOn(g, g', g'', latency, split, nodeId, maxNodeId, maxEdgeId, id);
  }

  lemma LengthensOn(g: Graph, g': Graph, g'': Graph, latency: nat, split: seq<int>, nodeId: int, maxNodeId: int, maxEdgeId: int, id: int)
    requires Splitting(g, g', latency, split, nodeId, maxNodeId, maxEdgeId) && id in g.edges && id in g'.edges && id !in split
    requires EdgeSplit(g', g'', id, maxNodeId + 1, maxEdgeId + 1, maxEdgeId + 2, latency)
    requires forall m | m in g''.nodes :: m in g'.nodes || m == maxNodeId + 1
    ensures Lengthens(g, g'', latency, split + [id])
  {
    assert Lengthens(g, g', latency, split) && forall x | x in g.edges && x !in split :: x in g'.edges by {
      assert Collections.Unfold(Collections.TheProgress);
    }
    LengthensMore(g, g', g'', latency, split, id, maxNodeId + 1, maxEdgeId + 1, maxEdgeId + 2);
  }

  lemma SplitGoesOn(g: Graph, g': Graph, g'': Graph, latency: nat, split: seq<int>, nodeId: int, maxNodeId: int, maxEdgeId: int, id: int)
    requires Splitting(g, g', latency, split, nodeId, maxNodeId, maxEdgeId)
    requires id in g.edges && id in g'.edges && WellFormed(g'') && |g''.nodes| == |g'.nodes| + 1
    requires Split(g', g'', id, maxNodeId + 1, maxEdgeId + 1, maxEdgeId + 2) && id !in split
    requires EdgeSplit(g', g'', id, maxNodeId + 1, maxEdgeId + 1, maxEdgeId + 2, latency)
    ensures Splitting(g, g'', latency, split + [id], nodeId, maxNodeId + 1, maxEdgeId + 2)
  {
    LengthensOn(g, g', g'', latency, split, nodeId, maxNodeId, maxEdgeId, id);
    assert Refines(g, g'') by {
      assert Collections.Unfold(Collections.TheProgress);
      RefinesMore(g, g', g'', id, maxNodeId + 1, maxEdgeId + 1, maxEdgeId + 2);
    }
    assert Grown(g, g'', split + [id], maxNodeId + 1, maxEdgeId + 2) by {
      assert Collections.Unfold(Collections.TheProgress);
      NodesGrownMore(g, g', g'', |split|, maxNodeId, id, maxEdgeId + 1, maxEdgeId + 2);
      EdgesGrownMore(g, g', g'', split, maxEdgeId, id, maxNodeId + 1);
    }
    IdsStayApart(g, g', g'', latency, split, nodeId, maxNodeId, maxEdgeId, id);
  }

  lemma IdsStayApart(g: Graph, g': Graph, g'': Graph, latency: nat, split: seq<int>, nodeId: int, maxNodeId: int, maxEdgeId: int, id: int)
    requires Splitting(g, g', latency, split, nodeId, maxNodeId, maxEdgeId) && id in g'.edges
    requires Split(g', g'', id, maxNodeId + 1, maxEdgeId + 1, maxEdgeId + 2)
    requires Refines(g, g'') && Grown(g, g'', split + [id], maxNodeId + 1, maxEdgeId + 2) && Lengthens(g, g'', latency, split + [id])
    ensures Splitting(g, g'', latency, split + [id], nodeId, maxNodeId + 1, maxEdgeId + 2)
  {
    assert Collections.Unfold(Collections.TheProgress);
  }

  lemma NotBefore(s: seq<int>, n: nat)
    requires Distinct(s) && n < |s|
    ensures s[n] !in s[..n] && s[..n + 1] == s[..n] + [s[n]]
  {}

  lemma SortedIsListed(g: Graph, s: seq<int>, t: seq<int>)
    requires EdgesListed(g, s) && multiset(t) == multiset(s)
    ensures EdgesListed(g, t)
  {
    forall i | 0 <= i < |t|
      ensures t[i] in g.edges
    {
      assert t[i] in multiset(t);
    }
    forall i, j | 0 <= i < j < |t|
      ensures t[i] != t[j]
    {
      if t[i] == t[j] {
        TwiceCounted(t, i, j);
        OnceCounted(s, t[i]);
      }
    }
  }

  lemma TwiceCounted(s: seq<int>, i: nat, j: nat)
    requires i < j < |s| && s[i] == s[j]
    ensures multiset(s)[s[i]] >= 2
  {
    assert s == s[..j] + s[j..];
    assert s[..j][i] == s[i] && s[j..][0] == s[i];
    assert s[i] in multiset(s[..j]) && s[i] in multiset(s[j..]);
  }

  lemma {:induction false} OnceCounted(s: seq<int>, x: int)
    requires Distinct(s)
    ensures multiset(s)[x] <= 1
  {
    if s != [] {
      OnceCounted(s[1..], x);
      assert s == [s[0]] + s[1..];
      assert forall k | 0 <= k < |s[1..]| :: s[1..][k] == s[k + 1] != s[0];
      assert x !in s[1..] ==> multiset(s[1..])[x] == 0;
    }
  }

  // The list holds violating edges, all of them or as many as there is room for, and none that
  // is left out is worse than one that is in.
  ghost predicate WorstOf(split: seq<int>, edges: seq<int>, vio: map<int, int>, room: int)
  {
    && |split| == (if room < |edges| then room else |edges|)
    && (forall e | e in split :: e in edges)
    && (forall e, x | e in split && x in edges && x !in split && e in vio && x in vio :: vio[e] >= vio[x])
  }

  lemma FirstAreWorst(sorted: seq<int>, edges: seq<int>, vio: map<int, int>, n: nat, room: nat)
    requires Known(edges, vio) && multiset(sorted) == multiset(edges)
    requires room < |edges| ==> Known(sorted, vio) && Descending(sorted, vio)
    requires n == if room < |sorted| then room else |sorted|
    ensures WorstOf(sorted[..n], edges, vio, room)
  {
    assert |sorted| == |multiset(sorted)| == |edges|;
    forall e | e in sorted[..n]
      ensures e in edges
    {
      assert e in multiset(sorted);
    }
    forall j | 0 <= j < n
      ensures sorted[j] in sorted[..n]
    {
      assert sorted[..n][j] == sorted[j];
    }
    forall e, x | e in sorted[..n] && x in edges && x !in sorted[..n] && e in vio && x in vio
      ensures vio[e] >= vio[x]
    {
      assert x in multiset(sorted);
      var i :| 0 <= i < n && sorted[i] == e;
      var j :| 0 <= j < |sorted| && sorted[j] == x;
    }
  }
}
