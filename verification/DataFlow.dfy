/** The data-flow graph as an object, with its topological order. */
module DataFlow {
  import opened Dfg
  import opened GraphEdit
  import Collections

  // S holds all the nodes that feed a node of S.
  ghost predicate Closed(g: Graph, S: set<int>) {
    forall n | n in S && n in g.nodes :: FedFrom(g, n, S)
  }

  ghost predicate FedFrom(g: Graph, n: int, S: set<int>)
    requires n in g.nodes
  {
    forall p | p in g.nodes[n].inputs :: g.nodes[n].inputs[p].0 in S
  }

  // The nodes that feed S are nodes of the graph.
  lemma InputsAreNodes(g: Graph, n: int)
    requires WellFormed(g) && n in g.nodes
    ensures FedFrom(g, n, g.nodes.Keys)
  {}

  lemma InputsRankLower(g: Graph, rank: int -> nat, n: int, p: int)
    requires WellFormed(g) && Ranked(g, rank) && n in g.nodes && p in g.nodes[n].inputs
    ensures rank(g.nodes[n].inputs[p].0) < rank(n)
  {}

  // The nodes listed before each position hold all that feeds the node there.
  ghost predicate InputsFirst(g: Graph, order: seq<int>) {
    forall i {:trigger order[i]} | 0 <= i < |order| && order[i] in g.nodes :: FedFrom(g, order[i], Elements(order[..i]))
  }

  ghost function Elements(s: seq<int>): set<int> { set x | x in s }

  // ----- walking the graph depth first

  // onTheWay: the visited nodes that are not listed yet. When acyclic, the ranks show it.
  datatype Walk = Walk(onTheWay: set<int>, acyclic: bool, rank: int -> nat)

  // What is visited is listed, each node once, or on the way.
  ghost predicate Walking(g: Graph, order: seq<int>, visited: set<int>, onTheWay: set<int>) {
    && (forall x :: x in visited <==> x in order || x in onTheWay)
    && (forall x | x in onTheWay :: x !in order)
    && (forall x | x in visited :: x in g.nodes)
    && Distinct(order)
  }

  // From visited to visited' and from listed to order: the nodes gained are in every closed set
  // that holds n, and what feeds a node listed since is visited.
  ghost predicate Walked(g: Graph, n: int, visited: set<int>, visited': set<int>, listed: seq<int>, order: seq<int>) {
    && visited <= visited'
    && |listed| <= |order| && order[..|listed|] == listed
    && (forall S {:trigger Closed(g, S)} | Closed(g, S) && n in S :: Gained(visited, visited', S))
    && FedBehind(g, |listed|, order, visited')
  }

  ghost predicate Gained(visited: set<int>, visited': set<int>, S: set<int>) {
    forall x | x in visited' :: x in visited || x in S
  }

  ghost predicate FedBehind(g: Graph, from: nat, order: seq<int>, S: set<int>) {
    forall i {:trigger order[i]} | from <= i < |order| :: order[i] in g.nodes && FedFrom(g, order[i], S)
  }

  // If the graph is acyclic, the nodes on the way rank above n, and every listed node stands
  // behind its inputs.
  ghost predicate Sorted(g: Graph, order: seq<int>, w: Walk, n: int) {
    w.acyclic ==> Ranked(g, w.rank) && InputsFirst(g, order) && forall x | x in w.onTheWay :: w.rank(x) > w.rank(n)
  }

  lemma SortedBelow(g: Graph, order: seq<int>, w: Walk, n: int, p: int)
    requires WellFormed(g) && Sorted(g, order, w, n) && n in g.nodes && p in g.nodes[n].inputs
    ensures Sorted(g, order, w.(onTheWay := w.onTheWay + {n}), g.nodes[n].inputs[p].0)
  {}

  lemma FewerLeft(all: set<int>, visited: set<int>, visited': set<int>, n: int)
    requires n in all && n !in visited && n in visited' && visited <= visited'
    ensures all - visited' < all - visited
  {}

  lemma WalkedOn(g: Graph, n: int, p: int, v0: set<int>, v1: set<int>, v2: set<int>, s0: seq<int>, s1: seq<int>, s2: seq<int>)
    requires n in g.nodes && p in g.nodes[n].inputs
    requires Walked(g, n, v0, v1, s0, s1) && Walked(g, g.nodes[n].inputs[p].0, v1, v2, s1, s2)
    ensures Walked(g, n, v0, v2, s0, s2)
  {}

  // Listing n when all that feeds it is visited.
  lemma ListKeeps(g: Graph, n: int, v0: set<int>, v: set<int>, listed: seq<int>, order: seq<int>, w: Walk)
    requires WellFormed(g) && n in g.nodes && n !in w.onTheWay && FedFrom(g, n, v)
    requires Walking(g, order, v, w.onTheWay + {n}) && Walked(g, n, v0, v, listed, order) && Sorted(g, order, w, n)
    ensures Walking(g, order + [n], v, w.onTheWay) && Walked(g, n, v0, v, listed, order + [n]) && Sorted(g, order + [n], w, n)
  {
    ListWalking(g, n, v, order, w);
    ListWalked(g, n, v0, v, listed, order);
    if w.acyclic {
      ListSorted(g, n, v, order, w);
    }
  }

  lemma ListWalking(g: Graph, n: int, v: set<int>, order: seq<int>, w: Walk)
    requires n !in w.onTheWay && Walking(g, order, v, w.onTheWay + {n})
    ensures Walking(g, order + [n], v, w.onTheWay)
  {}

  lemma ListWalked(g: Graph, n: int, v0: set<int>, v: set<int>, listed: seq<int>, order: seq<int>)
    requires n in g.nodes && FedFrom(g, n, v) && Walked(g, n, v0, v, listed, order)
    ensures Walked(g, n, v0, v, listed, order + [n])
  {}

  lemma ListSorted(g: Graph, n: int, v: set<int>, order: seq<int>, w: Walk)
    requires WellFormed(g) && n in g.nodes && FedFrom(g, n, v) && Walking(g, order, v, w.onTheWay + {n})
    requires w.acyclic && Sorted(g, order, w, n)
    ensures InputsFirst(g, order + [n])
  {
    forall i | 0 <= i < |order + [n]| && (order + [n])[i] in g.nodes
      ensures FedFrom(g, (order + [n])[i], Elements((order + [n])[..i]))
    {
      if i < |order| {
        assert (order + [n])[..i] == order[..i] && (order + [n])[i] == order[i];
      } else {
        assert (order + [n])[..i] == order;
        forall p | p in g.nodes[n].inputs
          ensures g.nodes[n].inputs[p].0 in order
        {
          InputsRankLower(g, w.rank, n, p);
        }
      }
    }
  }

  method CopyEntries<K(==), T>(m: map<K, T>, that: map<K, T>) returns (m': map<K, T>)
    ensures m' == m + that
  {
    m' := m;
    var todo := that.Keys;
    assert that - todo == map[] && m + map[] == m;
    while todo != {}
      invariant todo <= that.Keys && m' == m + (that - todo)
      decreases |todo|
    {
      var k := Collections.Pick(todo);
      CopyOne(m, that, todo, k);
      m' := m'[k := that[k]];
      todo := todo - {k};
    }
    assert that - {} == that;
  }

  lemma CopyOne<K, T>(m: map<K, T>, that: map<K, T>, todo: set<K>, k: K)
    requires k in todo && todo <= that.Keys
    ensures (m + (that - todo))[k := that[k]] == m + (that - (todo - {k}))
  {}

  // What was there before shows in the copy, unless the copied map has all of its keys.
  lemma CopiesTakeOver<K, T>(m: map<K, T>, that: map<K, T>)
    ensures m + that == that <==> m.Keys <= that.Keys
  {
    if m.Keys <= that.Keys {
      assert (m + that).Keys == that.Keys;
    }
    if m + that == that {
      assert m.Keys <= (m + that).Keys;
    }
  }

  class DataFlowGraph {
    var nodes: map<int, Node>
    var edges: map<int, Edge>
    var ioNodes: set<int>
    var topoNodes: seq<int>

    function G(): Graph
      reads this`nodes, this`edges, this`ioNodes
    {
      Graph(nodes, edges, ioNodes)
    }

    constructor ()
      ensures G() == Graph(map[], map[], {}) && topoNodes == []
    {
      nodes, edges, ioNodes, topoNodes := map[], map[], {}, [];
    }

    method AddNode(id: int, n: Node)
      requires WellFormed(G()) && id !in nodes && Isolated(n)
      modifies this`nodes
      ensures G() == GraphEdit.AddNode(old(G()), id, n) && WellFormed(G())
    {
      AddNodeKeeps(G(), id, n);
      nodes := nodes[id := n];
    }

    method AddEdge(id: int, e: Edge)
      requires WellFormed(G()) && MayAdd(G(), id, e)
      modifies this`nodes, this`edges
      ensures G() == GraphEdit.AddEdge(old(G()), id, e) && WellFormed(G())
    {
      AddEdgeKeeps(G(), id, e);
      edges := edges[id := e];
      nodes := nodes[e.src := WithOutput(nodes[e.src], e.srcPort, (e.dst, e.dstPort), id)];
      nodes := nodes[e.dst := WithInput(nodes[e.dst], e.dstPort, (e.src, e.srcPort), id)];
    }

    method DelEdge(id: int)
      requires WellFormed(G()) && id in edges
      modifies this`nodes, this`edges
      ensures EdgeRegistered(old(G()), id)
      ensures G() == GraphEdit.DelEdge(old(G()), id) && WellFormed(G())
    {
      DelEdgeKeeps(G(), id);
      var e := edges[id];
      nodes := nodes[e.src := WithoutOutput(nodes[e.src], e.srcPort, (e.dst, e.dstPort), id)];
      nodes := nodes[e.dst := WithoutInput(nodes[e.dst], e.dstPort)];
      edges := edges - {id};
    }

    // Takes over the other graph: its nodes and edges come in addition to those that are there
    // already, and take the place of those with the same ids.
    method CopyFrom(that: DataFlowGraph)
      modifies this
      ensures nodes == old(nodes) + old(that.nodes) && edges == old(edges) + old(that.edges)
      ensures ioNodes == old(that.ioNodes) && topoNodes == old(that.topoNodes)
      ensures G() == old(that.G()) <==> old(nodes.Keys <= that.nodes.Keys && edges.Keys <= that.edges.Keys)
    {
      CopiesTakeOver(nodes, that.nodes);
      CopiesTakeOver(edges, that.edges);
      if this == that {
        return;
      }
      ioNodes, topoNodes := that.ioNodes, that.topoNodes;
      nodes := CopyEntries(nodes, that.nodes);
      edges := CopyEntries(edges, that.edges);
    }

    function GetOutNodes(): set<int>
      requires ioNodes <= nodes.Keys
      reads this
    {
      set n | n in ioNodes && (nodes[n].operation == "OUTPUT" || nodes[n].operation == "STORE")
    }

    // ----- topological order

    // Lists n behind all that feeds it. onTheWay are the nodes whose inputs are being visited.
    method Dfs(n: int, visited: set<int>, ghost w: Walk) returns (visited': set<int>)
      requires WellFormed(G()) && n in nodes && Walking(G(), topoNodes, visited, w.onTheWay) && Sorted(G(), topoNodes, w, n)
      modifies this`topoNodes
      ensures Walking(G(), topoNodes, visited', w.onTheWay) && n in visited'
      ensures Walked(G(), n, visited, visited', old(topoNodes), topoNodes)
      ensures Sorted(G(), topoNodes, w, n)
      decreases nodes.Keys - visited, 0
    {
      ghost var g, listed := G(), topoNodes;
      if n in visited {
        return visited;
      }
      visited' := visited + {n};
      ghost var way := w.(onTheWay := w.onTheWay + {n});
      var todo := nodes[n].inputs.Keys;
      while todo != {}
        invariant todo <= nodes[n].inputs.Keys
        invariant Walking(g, topoNodes, visited', way.onTheWay) && n in visited'
        invariant Walked(g, n, visited, visited', listed, topoNodes)
        invariant forall p | p in nodes[n].inputs && p !in todo :: nodes[n].inputs[p].0 in visited'
        invariant Sorted(g, topoNodes, w, n)
        decreases |todo|
      {
        var p := Collections.Pick(todo);
        FewerLeft(nodes.Keys, visited, visited', n);
        visited' := DfsInput(n, p, visited', w, visited, listed);
        todo := todo - {p};
      }
      ListKeeps(g, n, visited, visited', listed, topoNodes, w);
      topoNodes := topoNodes + [n];
    }

    // Visits the node that feeds in port p of n.
    method DfsInput(n: int, p: int, visited: set<int>, ghost w: Walk, ghost visited0: set<int>, ghost listed: seq<int>)
      returns (visited': set<int>)
      requires WellFormed(G()) && n in nodes && n in visited && n !in visited0 && p in nodes[n].inputs
      requires Walking(G(), topoNodes, visited, w.onTheWay + {n}) && Sorted(G(), topoNodes, w, n)
      requires Walked(G(), n, visited0, visited, listed, topoNodes)
      modifies this`topoNodes
      ensures Walking(G(), topoNodes, visited', w.onTheWay + {n}) && nodes[n].inputs[p].0 in visited'
      ensures visited <= visited'
      ensures Walked(G(), n, visited0, visited', listed, topoNodes)
      ensures Sorted(G(), topoNodes, w, n)
      decreases nodes.Keys - visited, 1
    {
      ghost var order := topoNodes;
      ghost var w' := w.(onTheWay := w.onTheWay + {n});
      InputsAreNodes(G(), n);
      SortedBelow(G(), topoNodes, w, n, p);
      visited' := Dfs(nodes[n].inputs[p].0, visited, w');
      WalkedOn(G(), n, p, visited0, visited, visited', listed, order, topoNodes);
    }

    // Lists the nodes that reach an OUTPUT or STORE node, each once, and, when there is no cycle,
    // behind all that feeds it.
    method TopoSortNodes()
      requires WellFormed(G())
      modifies this`topoNodes
      ensures Distinct(topoNodes)
      ensures forall n :: n in topoNodes <==> Reaches(G(), n, GetOutNodes())
      ensures Acyclic(G()) ==> IsTopological(G(), topoNodes)
    {
      ghost var g := G();
      ghost var w := Walk({}, false, n => 0);
      if Acyclic(g) {
        ghost var rank: int -> nat :| Ranked(g, rank);
        w := Walk({}, true, rank);
      }
      var outs := GetOutNodes();
      topoNodes := [];
      var visited := {};
      var todo := outs;
      while todo != {}
        invariant todo <= outs
        invariant Walking(g, topoNodes, visited, {})
        invariant FedBehind(g, 0, topoNodes, visited)
        invariant forall n | n in outs && n !in todo :: n in visited
        invariant forall S {:trigger Closed(g, S)} | Closed(g, S) && outs <= S :: Gained({}, visited, S)
        invariant w.acyclic ==> InputsFirst(g, topoNodes)
        decreases |todo|
      {
        var n := Collections.Pick(todo);
        ghost var v0, order := visited, topoNodes;
        assert n in outs && n in nodes;
        visited := Dfs(n, visited, w);
        OneMoreOutput(g, outs, n, v0, visited, order, topoNodes);
        todo := todo - {n};
      }
      ListedIsReaching(g, outs, topoNodes, visited);
      if w.acyclic {
        FirstIsTopological(g, topoNodes);
      }
    }
  }

  lemma OneMoreOutput(g: Graph, outs: set<int>, n: int, v0: set<int>, v: set<int>, s0: seq<int>, s: seq<int>)
    requires n in outs && Walked(g, n, v0, v, s0, s) && FedBehind(g, 0, s0, v0)
    requires forall S {:trigger Closed(g, S)} | Closed(g, S) && outs <= S :: Gained({}, v0, S)
    ensures FedBehind(g, 0, s, v)
    ensures forall S {:trigger Closed(g, S)} | Closed(g, S) && outs <= S :: Gained({}, v, S)
  {}

  // ----- what the order lists

  ghost predicate Feeds(g: Graph, n: int, m: int) {
    m in g.nodes && exists p :: p in g.nodes[m].inputs && g.nodes[m].inputs[p].0 == n
  }

  ghost predicate Path(g: Graph, s: seq<int>, n: int, outs: set<int>) {
    && s != [] && s[0] == n && s[|s| - 1] in outs
    && forall i {:trigger FeedsNext(g, s, i)} | 0 <= i < |s| - 1 :: FeedsNext(g, s, i)
  }

  ghost predicate FeedsNext(g: Graph, s: seq<int>, i: int)
    requires 0 <= i < |s| - 1
  {
    Feeds(g, s[i], s[i + 1])
  }

  // n is one of outs, or feeds one through other nodes.
  ghost predicate Reaches(g: Graph, n: int, outs: set<int>) {
    exists s :: Path(g, s, n, outs)
  }

  lemma ReachesMore(g: Graph, n: int, m: int, outs: set<int>)
    requires Feeds(g, n, m) && Reaches(g, m, outs)
    ensures Reaches(g, n, outs)
  {
    var s :| Path(g, s, m, outs);
    var t := [n] + s;
    forall i | 0 <= i < |t| - 1
      ensures FeedsNext(g, t, i)
    {
      assert i > 0 ==> FeedsNext(g, s, i - 1);
    }
    assert Path(g, t, n, outs);
  }

  lemma {:induction false} ClosedHoldsPaths(g: Graph, S: set<int>, s: seq<int>, n: int, outs: set<int>)
    requires Closed(g, S) && outs <= S && outs <= g.nodes.Keys && Path(g, s, n, outs)
    ensures n in S
    decreases |s|
  {
    if |s| > 1 {
      assert FeedsNext(g, s, 0);
      forall i | 0 <= i < |s[1..]| - 1
        ensures FeedsNext(g, s[1..], i)
      {
        assert FeedsNext(g, s, i + 1);
      }
      ClosedHoldsPaths(g, S, s[1..], s[1], outs);
      assert FedFrom(g, s[1], S);
    }
  }

  lemma ListedIsReaching(g: Graph, outs: set<int>, order: seq<int>, visited: set<int>)
    requires WellFormed(g) && outs <= g.nodes.Keys && Walking(g, order, visited, {})
    requires FedBehind(g, 0, order, visited) && forall n | n in outs :: n in visited
    requires forall S {:trigger Closed(g, S)} | Closed(g, S) && outs <= S :: Gained({}, visited, S)
    ensures forall n :: n in order <==> Reaches(g, n, outs)
  {
    var R := set n | n in g.nodes && Reaches(g, n, outs);
    OutsReach(g, outs, R);
    ReachingIsClosed(g, outs, R);
    assert Gained({}, visited, R);
    forall n | Reaches(g, n, outs)
      ensures n in order
    {
      var s :| Path(g, s, n, outs);
      forall m | m in visited && m in g.nodes
        ensures FedFrom(g, m, visited)
      {
        var i :| 0 <= i < |order| && order[i] == m;
      }
      OutsWithin(outs, visited);
      ClosedHoldsPaths(g, visited, s, n, outs);
    }
  }

  lemma OutsWithin(outs: set<int>, visited: set<int>)
    requires forall n | n in outs :: n in visited
    ensures outs <= visited
  {
    assert forall n :: n in outs ==> n in visited;
  }

  lemma OutsReach(g: Graph, outs: set<int>, R: set<int>)
    requires outs <= g.nodes.Keys && R == set n | n in g.nodes && Reaches(g, n, outs)
    ensures outs <= R
  {
    forall n | n in outs
      ensures n in R
    {
      assert Path(g, [n], n, outs);
    }
  }

  lemma ReachingIsClosed(g: Graph, outs: set<int>, R: set<int>)
    requires WellFormed(g) && R == set n | n in g.nodes && Reaches(g, n, outs)
    ensures Closed(g, R)
  {
    forall m, p | m in R && m in g.nodes && p in g.nodes[m].inputs
      ensures g.nodes[m].inputs[p].0 in R
    {
      InputsAreNodes(g, m);
      ReachesMore(g, g.nodes[m].inputs[p].0, m, outs);
    }
  }

  lemma FirstIsTopological(g: Graph, order: seq<int>)
    requires WellFormed(g) && Distinct(order) && InputsFirst(g, order) && forall i | 0 <= i < |order| :: order[i] in g.nodes
    ensures IsTopological(g, order)
  {}

  // The copy of an empty graph, made where there was a node: the node is still there.
  method OldNodeStays(n: Node) returns (copy: DataFlowGraph, empty: DataFlowGraph)
    requires Isolated(n)
    ensures empty.nodes == map[] && copy.nodes.Keys == {1} && copy.G() != empty.G()
  {
    empty := new DataFlowGraph();
    copy := new DataFlowGraph();
    copy.AddNode(1, n);
    copy.CopyFrom(empty);
    assert 1 in copy.nodes;
  }
}
