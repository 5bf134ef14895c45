/** Data synchronisation: the latency of every node, and the delay cycles that the
    functional units add so that the operands of a node arrive together. */
module Sync {
  import opened Dfg
  import Adg
  import Collections

  // Delay cycles handed out by one functional unit, in all and per in port of the node on it.
  datatype FuDelay = FuDelay(total: int, used: map<int, int>)

  function At(m: map<int, int>, k: int): int {
    if k in m then m[k] else 0
  }

  function Max(a: int, b: int): int { if a >= b then a else b }

  function Min(a: int, b: int): int { if a <= b then a else b }

  function OpLat(g: Graph, n: int): nat
    requires n in g.nodes
  {
    g.nodes[n].opLatency
  }

  // ----- what the lower bounds are: longest paths

  // p is a sequence of edges that leads, head to tail, to n.
  ghost predicate PathTo(g: Graph, p: seq<int>, n: int) {
    && n in g.nodes
    && (p == [] || (
      var id := p[|p| - 1];
      id in g.edges && g.edges[id].dst == n && PathTo(g, p[..|p| - 1], g.edges[id].src)))
  }

  ghost function Start(g: Graph, p: seq<int>, n: int): (s: int)
    requires PathTo(g, p, n)
    ensures s in g.nodes
  {
    if p == [] then n else Start(g, p[..|p| - 1], g.edges[p[|p| - 1]].src)
  }

  // The operation latencies of the nodes on the path and the wire latencies between them.
  ghost function PathLatency(g: Graph, wire: map<int, int>, p: seq<int>, n: int): int
    requires PathTo(g, p, n)
  {
    if p == [] then OpLat(g, n)
    else
      var id := p[|p| - 1];
      PathLatency(g, wire, p[..|p| - 1], g.edges[id].src) + At(wire, id) + OpLat(g, n)
  }

  // When the operand on edge id arrives.
  function Arrival(g: Graph, wire: map<int, int>, lat: map<int, int>, id: int): int {
    if id in g.edges then At(lat, g.edges[id].src) + At(wire, id) else 0
  }

  // No operand of n arrives later than operands, and some operand arrives just then;
  // without operands it is the start of time.
  ghost predicate IsLastArrival(g: Graph, wire: map<int, int>, lat: map<int, int>, n: int, operands: int)
    requires n in g.nodes
  {
    && operands >= 0
    && (forall p | p in g.nodes[n].inputEdges :: Arrival(g, wire, lat, g.nodes[n].inputEdges[p]) <= operands)
    && if g.nodes[n].inputEdges.Keys == {} then operands == 0
       else exists p :: p in g.nodes[n].inputEdges && Arrival(g, wire, lat, g.nodes[n].inputEdges[p]) == operands
  }

  // n is as late as its operands and its operation demand, and no later.
  ghost predicate NodeBounded(g: Graph, wire: map<int, int>, lat: map<int, int>, n: int)
    requires n in g.nodes
  {
    n in lat && IsLastArrival(g, wire, lat, n, lat[n] - OpLat(g, n))
  }

  ghost predicate IsLowerBound(g: Graph, wire: map<int, int>, lat: map<int, int>) {
    forall n {:trigger NodeBounded(g, wire, lat, n)} | n in g.nodes :: NodeBounded(g, wire, lat, n)
  }

  // The bound of a node stays when the latencies of the node and of its operands stay.
  lemma NodeBoundKept(g: Graph, wire: map<int, int>, before: map<int, int>, after: map<int, int>, n: int)
    requires n in g.nodes && NodeBounded(g, wire, before, n)
    requires n in after && after[n] == before[n]
    requires forall p | p in g.nodes[n].inputEdges ::
        Arrival(g, wire, after, g.nodes[n].inputEdges[p]) == Arrival(g, wire, before, g.nodes[n].inputEdges[p])
    ensures NodeBounded(g, wire, after, n)
  {}

  // The lower bounds are exactly the longest path latencies: no path to a node exceeds its
  // bound, and some path attains it.
  lemma {:induction false} LowerBoundDominates(g: Graph, wire: map<int, int>, lat: map<int, int>, p: seq<int>, n: int)
    requires WellFormed(g) && IsLowerBound(g, wire, lat) && PathTo(g, p, n)
    ensures PathLatency(g, wire, p, n) <= At(lat, n)
  {
    assert NodeBounded(g, wire, lat, n);
    if p != [] {
      var id := p[|p| - 1];
      assert EdgeRegistered(g, id);
      assert g.nodes[n].inputEdges[g.edges[id].dstPort] == id;
      LowerBoundDominates(g, wire, lat, p[..|p| - 1], g.edges[id].src);
    }
  }

  lemma {:induction false} LowerBoundAttained(g: Graph, topo: seq<int>, wire: map<int, int>, lat: map<int, int>, n: int)
    returns (p: seq<int>)
    requires WellFormed(g) && IsTopological(g, topo) && IsLowerBound(g, wire, lat)
    requires n in topo
    ensures PathTo(g, p, n) && PathLatency(g, wire, p, n) == At(lat, n)
    decreases Pos(topo, n)
  {
    p := [];
    if g.nodes[n].inputEdges.Keys == {} {
      NoInputBound(g, wire, lat, n);
    } else {
      var id := TightEdge(g, wire, lat, n);
      assert Ordered(g, topo, id);
      var q := LowerBoundAttained(g, topo, wire, lat, g.edges[id].src);
      PathStep(g, wire, q, id);
      p := q + [id];
    }
  }

  lemma NoInputBound(g: Graph, wire: map<int, int>, lat: map<int, int>, n: int)
    requires IsLowerBound(g, wire, lat) && n in g.nodes && g.nodes[n].inputEdges.Keys == {}
    ensures At(lat, n) == OpLat(g, n)
  {
    assert NodeBounded(g, wire, lat, n);
  }

  lemma TightEdge(g: Graph, wire: map<int, int>, lat: map<int, int>, n: int) returns (id: int)
    requires WellFormed(g) && IsLowerBound(g, wire, lat) && n in g.nodes && g.nodes[n].inputEdges.Keys != {}
    ensures id in g.edges && g.edges[id].dst == n && At(lat, n) == At(lat, g.edges[id].src) + At(wire, id) + OpLat(g, n)
  {
    assert NodeBounded(g, wire, lat, n) && InputsBacked(g, n);
    var port :| port in g.nodes[n].inputEdges && Arrival(g, wire, lat, g.nodes[n].inputEdges[port]) == lat[n] - OpLat(g, n);
    id := g.nodes[n].inputEdges[port];
  }

  // A path goes on along an edge.
  lemma PathStep(g: Graph, wire: map<int, int>, q: seq<int>, id: int)
    requires id in g.edges && g.edges[id].dst in g.nodes && PathTo(g, q, g.edges[id].src)
    ensures PathTo(g, q + [id], g.edges[id].dst)
    ensures PathLatency(g, wire, q + [id], g.edges[id].dst) ==
      PathLatency(g, wire, q, g.edges[id].src) + At(wire, id) + OpLat(g, g.edges[id].dst)
  {
    assert (q + [id])[..|q + [id]| - 1] == q;
  }

  // With every operand on time, a path takes exactly the difference of the latencies at its
  // ends: its length does not depend on the way it takes.
  lemma {:induction false} PathOnTime(g: Graph, total: map<int, int>, lat: map<int, int>, p: seq<int>, n: int)
    requires PathTo(g, p, n)
    requires forall id | id in g.edges && g.edges[id].dst in g.nodes ::
        At(lat, g.edges[id].src) + At(total, id) == At(lat, g.edges[id].dst) - OpLat(g, g.edges[id].dst)
    ensures PathLatency(g, total, p, n) == At(lat, n) - (At(lat, Start(g, p, n)) - OpLat(g, Start(g, p, n)))
  {
    if p != [] {
      PathOnTime(g, total, lat, p[..|p| - 1], g.edges[p[|p| - 1]].src);
    }
  }

  // ----- latency violations

  // The violations of the edges of P, summed up: the list of violated edges, the total, the worst.
  ghost predicate Tally(vio: map<int, int>, P: set<int>, vios: seq<int>, sum: int, worst: int) {
    forall k {:trigger Collections.Unfold(k)} | Collections.Unfold(k) && k == Collections.TheTally :: Counted(vio, P, vios, sum, worst)
  }

  ghost predicate Counted(vio: map<int, int>, P: set<int>, vios: seq<int>, sum: int, worst: int) {
    && (forall id | id in P :: id in vio && vio[id] >= 0)
    && Distinct(vios) && (forall id :: id in vios <==> id in P && vio[id] > 0)
    && sum == Collections.SumOver(vio, P)
    && worst >= 0 && (forall id | id in P :: vio[id] <= worst)
    && (worst == 0 || exists id :: id in P && vio[id] == worst)
  }

  lemma TallyStep(vio: map<int, int>, P: set<int>, vios: seq<int>, sum: int, worst: int, id: int, v: int)
    requires Tally(vio, P, vios, sum, worst) && id !in P && v >= 0
    ensures Tally(vio[id := v], P + {id}, if v > 0 then vios + [id] else vios, sum + v, Max(worst, v))
  {
    assert Collections.Unfold(Collections.TheTally);
    var vio' := vio[id := v];
    Collections.SumOverRemove(vio', P + {id}, id);
    assert P + {id} - {id} == P;
    Collections.SumOverAgree(vio, vio', P);
    if v <= worst && worst > 0 {
      var k :| k in P && vio[k] == worst;
      assert vio'[k] == worst;
    }
  }

  // The total is zero just when no edge is violated.
  lemma TallyZero(vio: map<int, int>, P: set<int>, vios: seq<int>, sum: int, worst: int)
    requires Tally(vio, P, vios, sum, worst)
    ensures sum == 0 <==> vios == []
    ensures sum == 0 <==> forall id | id in P :: At(vio, id) == 0
    ensures sum == 0 <==> worst == 0
  {
    assert Collections.Unfold(Collections.TheTally);
    if vios != [] {
      var id := vios[0];
      assert id in vios;
      Collections.SumOverRemove(vio, P, id);
      Collections.SumOverGrows(vio, {}, P - {id});
    } else {
      forall id | id in P
        ensures vio[id] == 0
      {
        assert id !in vios;
      }
      ZeroSum(vio, P);
    }
  }

  lemma TallyNonNeg(vio: map<int, int>, P: set<int>, vios: seq<int>, sum: int, worst: int)
    requires Tally(vio, P, vios, sum, worst)
    ensures sum >= 0 && Distinct(vios) && forall id :: id in vios <==> id in P && id in vio && vio[id] > 0
  {
    assert Collections.Unfold(Collections.TheTally);
    Collections.SumOverGrows(vio, P, P);
  }

  lemma {:induction false} ZeroSum(m: map<int, int>, ks: set<int>)
    requires forall k | k in ks :: k in m && m[k] == 0
    ensures Collections.SumOver(m, ks) == 0
  {
    if k :| k in ks {
      Collections.SumOverRemove(m, ks, k);
      ZeroSum(m, ks - {k});
    }
  }
}
