/** Adding and removing nodes and edges of a data-flow graph, and what that keeps: the two
    adjacency representations stay consistent. */
module GraphEdit {
  import opened Dfg

  function SetOf<T>(m: map<int, set<T>>, k: int): set<T> {
    if k in m then m[k] else {}
  }

  function WithInput(n: Node, port: int, from: (int, int), id: int): Node {
    n.(inputs := n.inputs[port := from], inputEdges := n.inputEdges[port := id])
  }

  function WithOutput(n: Node, port: int, to: (int, int), id: int): Node {
    n.(outputs := n.outputs[port := SetOf(n.outputs, port) + {to}],
       outputEdges := n.outputEdges[port := SetOf(n.outputEdges, port) + {id}])
  }

  function WithoutInput(n: Node, port: int): Node {
    n.(inputs := n.inputs - {port}, inputEdges := n.inputEdges - {port})
  }

  function WithoutOutput(n: Node, port: int, to: (int, int), id: int): Node {
    n.(outputs := n.outputs[port := SetOf(n.outputs, port) - {to}],
       outputEdges := n.outputEdges[port := SetOf(n.outputEdges, port) - {id}])
  }

  function AddNode(g: Graph, id: int, n: Node): Graph {
    g.(nodes := g.nodes[id := n])
  }

  function AddEdge(g: Graph, id: int, e: Edge): Graph
    requires e.src in g.nodes && e.dst in g.nodes
  {
    var nodes := g.nodes[e.src := WithOutput(g.nodes[e.src], e.srcPort, (e.dst, e.dstPort), id)];
    g.(edges := g.edges[id := e], nodes := nodes[e.dst := WithInput(nodes[e.dst], e.dstPort, (e.src, e.srcPort), id)])
  }

  function DelEdge(g: Graph, id: int): Graph
    requires id in g.edges && g.edges[id].src in g.nodes && g.edges[id].dst in g.nodes
  {
    var e := g.edges[id];
    var nodes := g.nodes[e.src := WithoutOutput(g.nodes[e.src], e.srcPort, (e.dst, e.dstPort), id)];
    g.(edges := g.edges - {id}, nodes := nodes[e.dst := WithoutInput(nodes[e.dst], e.dstPort)])
  }

  // A node without connections.
  predicate Isolated(n: Node) { n.inputs == map[] && n.outputs == map[] && n.inputEdges == map[] && n.outputEdges == map[] }

  lemma AddNodeKeeps(g: Graph, id: int, n: Node)
    requires WellFormed(g) && id !in g.nodes && Isolated(n)
    ensures WellFormed(AddNode(g, id, n))
  {}

  // The edge is new, and so is its end: at most one edge enters a port.
  predicate MayAdd(g: Graph, id: int, e: Edge) {
    && id !in g.edges && e.src in g.nodes && e.dst in g.nodes
    && e.dstPort !in g.nodes[e.dst].inputEdges
  }

  lemma AddEdgeAt(g: Graph, id: int, e: Edge, n: int)
    requires e.src in g.nodes && e.dst in g.nodes && n in g.nodes
    ensures var m, m' := g.nodes[n], AddEdge(g, id, e).nodes[n];
      && m'.inputs == (if n == e.dst then m.inputs[e.dstPort := (e.src, e.srcPort)] else m.inputs)
      && m'.inputEdges == (if n == e.dst then m.inputEdges[e.dstPort := id] else m.inputEdges)
      && m'.outputs == (if n == e.src then m.outputs[e.srcPort := SetOf(m.outputs, e.srcPort) + {(e.dst, e.dstPort)}] else m.outputs)
      && m'.outputEdges == (if n == e.src then m.outputEdges[e.srcPort := SetOf(m.outputEdges, e.srcPort) + {id}] else m.outputEdges)
  {}

  lemma AddEdgeRegisters(g: Graph, id: int, e: Edge, x: int)
    requires MayAdd(g, id, e) && x in AddEdge(g, id, e).edges
    requires x != id ==> EdgeRegistered(g, x)
    ensures EdgeRegistered(AddEdge(g, id, e), x)
  {}

  lemma AddEdgeBacksInputs(g: Graph, id: int, e: Edge, n: int)
    requires MayAdd(g, id, e) && n in g.nodes && InputsBacked(g, n)
    ensures InputsBacked(AddEdge(g, id, e), n)
  {
    AddEdgeAt(g, id, e, n);
  }

  lemma AddEdgeBacksOutputs(g: Graph, id: int, e: Edge, n: int)
    requires MayAdd(g, id, e) && n in g.nodes && OutputsBacked(g, n)
    requires InputsBacked(g, e.dst)
    ensures OutputsBacked(AddEdge(g, id, e), n)
  {
    var g' := AddEdge(g, id, e);
    AddEdgeAt(g, id, e, n);
    forall p, x | p in g'.nodes[n].outputs && x in g'.nodes[n].outputs[p]
      ensures x.0 in g'.nodes && x.1 in g'.nodes[x.0].inputs && g'.nodes[x.0].inputs[x.1] == (n, p)
    {
      if !(n == e.src && p == e.srcPort && x == (e.dst, e.dstPort)) {
        assert x in g.nodes[n].outputs[p];
      }
      AddEdgeAt(g, id, e, x.0);
    }
  }

  lemma AddEdgeKeeps(g: Graph, id: int, e: Edge)
    requires WellFormed(g) && MayAdd(g, id, e)
    ensures WellFormed(AddEdge(g, id, e))
  {
    var g' := AddEdge(g, id, e);
    assert InputsBacked(g, e.dst);
    forall x | x in g'.edges
      ensures EdgeRegistered(g', x)
    {
      AddEdgeRegisters(g, id, e, x);
    }
    forall n | n in g'.nodes
      ensures InputsBacked(g', n) && OutputsBacked(g', n)
    {
      assert InputsBacked(g, n) && OutputsBacked(g, n);
      AddEdgeBacksInputs(g, id, e, n);
      AddEdgeBacksOutputs(g, id, e, n);
    }
  }

  lemma DelEdgeAt(g: Graph, id: int, n: int)
    requires id in g.edges && g.edges[id].src in g.nodes && g.edges[id].dst in g.nodes && n in g.nodes
    ensures var e, m, m' := g.edges[id], g.nodes[n], DelEdge(g, id).nodes[n];
      && m'.inputs == (if n == e.dst then m.inputs - {e.dstPort} else m.inputs)
      && m'.inputEdges == (if n == e.dst then m.inputEdges - {e.dstPort} else m.inputEdges)
      && m'.outputs == (if n == e.src then m.outputs[e.srcPort := SetOf(m.outputs, e.srcPort) - {(e.dst, e.dstPort)}] else m.outputs)
      && m'.outputEdges == (if n == e.src then m.outputEdges[e.srcPort := SetOf(m.outputEdges, e.srcPort) - {id}] else m.outputEdges)
  {}

  lemma DelEdgeRegisters(g: Graph, id: int, x: int)
    requires id in g.edges && EdgeRegistered(g, id) && x in DelEdge(g, id).edges && EdgeRegistered(g, x)
    ensures EdgeRegistered(DelEdge(g, id), x)
  {}

  lemma DelEdgeBacksInputs(g: Graph, id: int, n: int)
    requires id in g.edges && EdgeRegistered(g, id) && n in g.nodes && InputsBacked(g, n)
    ensures InputsBacked(DelEdge(g, id), n)
  {}

  lemma DelEdgeBacksOutputs(g: Graph, id: int, n: int)
    requires id in g.edges && EdgeRegistered(g, id) && n in g.nodes && OutputsBacked(g, n)
    ensures OutputsBacked(DelEdge(g, id), n)
  {
    var g' := DelEdge(g, id);
    DelEdgeAt(g, id, n);
    forall p, x | p in g'.nodes[n].outputs && x in g'.nodes[n].outputs[p]
      ensures x.0 in g'.nodes && x.1 in g'.nodes[x.0].inputs && g'.nodes[x.0].inputs[x.1] == (n, p)
    {
      assert x in g.nodes[n].outputs[p];
      DelEdgeAt(g, id, x.0);
    }
    forall p, x | p in g'.nodes[n].outputEdges && x in g'.nodes[n].outputEdges[p]
      ensures x in g'.edges && g'.edges[x].src == n && g'.edges[x].srcPort == p
    {
      assert x in g.nodes[n].outputEdges[p];
    }
  }

  lemma DelEdgeKeeps(g: Graph, id: int)
    requires WellFormed(g) && id in g.edges
    ensures EdgeRegistered(g, id) && WellFormed(DelEdge(g, id))
  {
    assert EdgeRegistered(g, id);
    var g' := DelEdge(g, id);
    forall x | x in g'.edges
      ensures EdgeRegistered(g', x)
    {
      assert EdgeRegistered(g, x);
      DelEdgeRegisters(g, id, x);
    }
    forall n | n in g'.nodes
      ensures InputsBacked(g', n) && OutputsBacked(g', n)
    {
      assert InputsBacked(g, n) && OutputsBacked(g, n);
      DelEdgeBacksInputs(g, id, n);
      DelEdgeBacksOutputs(g, id, n);
    }
  }
}
