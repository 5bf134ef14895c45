/** The data-flow graph: nodes, edges and the two adjacency representations that
    every node keeps (neighbour ports and edge ids, on both sides). */
module Dfg {

  datatype Edge = Edge(src: int, srcPort: int, dst: int, dstPort: int)

  datatype Node = Node(
    operation: string,
    opLatency: nat,
    commutative: bool,
    immIdx: int,                          // operand index of the immediate, negative if none
    inputs: map<int, (int, int)>,         // in port -> (node, out port) feeding it
    outputs: map<int, set<(int, int)>>,   // out port -> (node, in port) fed by it
    inputEdges: map<int, int>,            // in port -> edge id
    outputEdges: map<int, set<int>>       // out port -> edge ids
  ) {
    predicate HasImm() { immIdx >= 0 }

    // The number of operands, the immediate included.
    function NumInputs(): nat { if HasImm() then |inputs| + 1 else |inputs| }
  }

  datatype Graph = Graph(nodes: map<int, Node>, edges: map<int, Edge>, ioNodes: set<int>)

  // ----- consistency of the dual adjacency representation

  ghost predicate EdgeRegistered(g: Graph, id: int)
    requires id in g.edges
  {
    var e := g.edges[id];
    && e.src in g.nodes && e.dst in g.nodes
    && e.dstPort in g.nodes[e.dst].inputEdges && g.nodes[e.dst].inputEdges[e.dstPort] == id
    && e.dstPort in g.nodes[e.dst].inputs && g.nodes[e.dst].inputs[e.dstPort] == (e.src, e.srcPort)
    && e.srcPort in g.nodes[e.src].outputEdges && id in g.nodes[e.src].outputEdges[e.srcPort]
    && e.srcPort in g.nodes[e.src].outputs && (e.dst, e.dstPort) in g.nodes[e.src].outputs[e.srcPort]
  }

  ghost predicate InputsBacked(g: Graph, n: int)
    requires n in g.nodes
  {
    && g.nodes[n].inputs.Keys == g.nodes[n].inputEdges.Keys
    && forall p | p in g.nodes[n].inputEdges ::
         var id := g.nodes[n].inputEdges[p];
         id in g.edges && g.edges[id].dst == n && g.edges[id].dstPort == p
  }

  ghost predicate OutputsBacked(g: Graph, n: int)
    requires n in g.nodes
  {
    && (forall p, id | p in g.nodes[n].outputEdges && id in g.nodes[n].outputEdges[p] ::
          id in g.edges && g.edges[id].src == n && g.edges[id].srcPort == p)
    && (forall p, x | p in g.nodes[n].outputs && x in g.nodes[n].outputs[p] ::
          x.0 in g.nodes && x.1 in g.nodes[x.0].inputs && g.nodes[x.0].inputs[x.1] == (n, p))
  }

  // Every edge is listed at both of its ends, and nothing else is listed. In particular
  // at most one edge enters a port.
  ghost predicate WellFormed(g: Graph) {
    && (forall id | id in g.edges :: EdgeRegistered(g, id))
    && (forall n | n in g.nodes :: InputsBacked(g, n) && OutputsBacked(g, n))
    && g.ioNodes <= g.nodes.Keys
  }

  // ----- order

  ghost predicate Distinct<T(!new)>(s: seq<T>) {
    forall i, j | 0 <= i < j < |s| :: s[i] != s[j]
  }

  // Where n stands in the list; its length if n is not listed.
  ghost function Pos(s: seq<int>, n: int): (i: nat)
    ensures if n in s then i < |s| && s[i] == n else i == |s|
  {
    if n in s then
      var i :| 0 <= i < |s| && s[i] == n; i
    else |s|
  }

  lemma PosUnique(s: seq<int>, i: nat)
    requires Distinct(s) && i < |s|
    ensures Pos(s, s[i]) == i
  {}

  ghost predicate Ordered(g: Graph, order: seq<int>, id: int)
    requires id in g.edges
  {
    Pos(order, g.edges[id].src) < Pos(order, g.edges[id].dst)
  }

  // order lists nodes of the graph, each once, and every listed node after the nodes that feed it.
  ghost predicate IsTopological(g: Graph, order: seq<int>) {
    && Distinct(order)
    && (forall i | 0 <= i < |order| :: order[i] in g.nodes)
    && (forall id | id in g.edges && g.edges[id].dst in order :: Ordered(g, order, id))
  }

  ghost predicate Covers(g: Graph, order: seq<int>) {
    forall n | n in g.nodes :: n in order
  }

  // Every edge leads to a higher rank: there is no cycle.
  ghost predicate Ranked(g: Graph, rank: int -> nat) {
    forall e | e in g.edges :: rank(g.edges[e].src) < rank(g.edges[e].dst)
  }

  ghost predicate Acyclic(g: Graph) { exists rank :: Ranked(g, rank) }
}
