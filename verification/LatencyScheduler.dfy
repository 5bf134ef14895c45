/** The synchronisation pass of the mapper, run on a placed and routed graph. */
module LatencyScheduler {
  import opened Dfg
  import opened Sync
  import opened Arithmetic
  import Adg
  import Collections

  // Number of registered interconnect outputs on a route.
  function RegisteredHops(adg: Adg.Array, links: seq<Adg.Link>): (h: nat) {
    if links == [] then 0
    else
      var last := links[|links| - 1];
      RegisteredHops(adg, links[..|links| - 1]) +
      if last.node in adg.nodes && adg.nodes[last.node].Gib? && adg.nodes[last.node].OutReged(last.dstPort) then 1 else 0
  }

  function Without(s: seq<int>, x: int): (r: seq<int>)
    ensures forall y :: y in r <==> y in s && y != x
  {
    if s == [] then []
    else if s[0] == x then Without(s[1..], x)
    else [s[0]] + Without(s[1..], x)
  }

  function Reversed(s: seq<int>): (r: seq<int>)
    ensures |r| == |s| && forall k | 0 <= k < |s| :: r[k] == s[|s| - 1 - k]
  {
    if s == [] then [] else Reversed(s[1..]) + [s[0]]
  }

  // The part of the state that scheduling works on.
  datatype Timing = Timing(lat: map<int, int>, inLat: map<int, int>, fu: map<int, FuDelay>)

  const NEVER := 0x3fff_ffff

  class Scheduler {
    const adg: Adg.Array
    const g: Graph
    const topo: seq<int>
    const place: map<int, int>              // the unit each node is mapped to
    const links: map<int, seq<Adg.Link>>    // the route of each edge

    var edgeLat: map<int, int>              // wire latency of an edge
    var edgeDelay: map<int, int>            // delay cycles an edge needs
    var edgeVio: map<int, int>              // delay cycles an edge needs and does not get
    var nodeLat: map<int, int>              // latency at the output of a node
    var nodeMaxLat: map<int, int>           // latency at the inputs of a node
    var nodeMinLat: map<int, int>           // earliest latency its spare delay allows at the inputs
    var fuDelay: map<int, FuDelay>          // by unit
    var vioEdges: seq<int>
    var maxLat: int
    var maxLatNodeId: int
    var totalViolation: int
    var maxViolation: int
    ghost var asap: map<int, int>           // the lower bounds

    constructor (adg: Adg.Array, g: Graph, topo: seq<int>, place: map<int, int>, links: map<int, seq<Adg.Link>>)
      ensures this.adg == adg && this.g == g && this.topo == topo && this.place == place && this.links == links
    {
      this.adg, this.g, this.topo, this.place, this.links := adg, g, topo, place, links;
    }

    predicate Placed() {
      forall n | n in g.nodes :: n in place && place[n] in adg.nodes && adg.nodes[place[n]].Fu?
    }

    ghost predicate OneEach() {
      forall n, m | n in g.nodes && m in g.nodes && n != m :: n in place && m in place && place[n] != place[m]
    }

    // What the pass takes for granted: a placed and routed acyclic graph, whose topological
    // order lists every node, with one unit per node.
    ghost predicate Ready() {
      && Placed() && OneEach() && links.Keys == g.edges.Keys
      && topo != [] && (forall k | 0 <= k < |topo| :: topo[k] in g.nodes)
      && (forall k {:trigger Collections.Unfold(k)} | Collections.Unfold(k) && k == Collections.TheGraph :: Sound())
    }

    ghost predicate Sound() {
      WellFormed(g) && IsTopological(g, topo) && Covers(g, topo)
    }

    lemma Opened()
      requires Ready()
      ensures Sound()
    {
      assert Collections.Unfold(Collections.TheGraph);
    }

    // The delay cycles the unit of n has to give: none without a second operand.
    function Capacity(n: int): nat
      requires Placed() && n in g.nodes
    {
      var fu := adg.nodes[place[n]];
      if fu.numOperands < 2 then 0 else fu.maxDelay
    }

    // Delay cycles on offer for one more operand of n: an equal share of what is left.
    function AvailDelay(fus: map<int, FuDelay>, n: int): int
      requires Placed() && n in g.nodes
    {
      var fu := adg.nodes[place[n]];
      var numOp := |g.nodes[n].inputs|;
      if fu.numOperands < 2 || numOp == 0 then 0
      else if place[n] in fus then
        var d := fus[place[n]];
        Quot(fu.maxDelay - d.total, Max(numOp - |d.used|, 1))
      else Quot(fu.maxDelay, numOp)
    }

    lemma AvailWithinBudget(t: Timing, n: int)
      requires Placed() && n in g.nodes && BudgetOk(t, n)
      ensures 0 <= AvailDelay(t.fu, n) <= Capacity(n) - Used(t.fu, n).total
    {
      var fu := adg.nodes[place[n]];
      var numOp := |g.nodes[n].inputs|;
      if fu.numOperands >= 2 && numOp > 0 {
        if place[n] in t.fu {
          var d := t.fu[place[n]];
          QuotBounds(fu.maxDelay - d.total, Max(numOp - |d.used|, 1));
        } else {
          QuotBounds(fu.maxDelay, numOp);
        }
      }
    }

    // What is on offer for one more operand is the greatest share that all operands without one
    // can have of what is left.
    lemma OfferIsShare(t: Timing, n: int)
      requires Placed() && n in g.nodes && adg.nodes[place[n]].numOperands >= 2
      requires |Used(t.fu, n).used| < |g.nodes[n].inputs| && Used(t.fu, n).total <= adg.nodes[place[n]].maxDelay
      ensures var s, k, left := AvailDelay(t.fu, n), |g.nodes[n].inputs| - |Used(t.fu, n).used|,
                                adg.nodes[place[n]].maxDelay - Used(t.fu, n).total;
        s == left / k && s >= 0 && s * k <= left < (s + 1) * k
    {
      var d := Used(t.fu, n);
      EqualShare(adg.nodes[place[n]].maxDelay - d.total, |g.nodes[n].inputs| - |d.used|);
    }

    // Without delay units, nothing is.
    lemma NoOffer(t: Timing, n: int)
      requires Placed() && n in g.nodes && adg.nodes[place[n]].numOperands < 2
      ensures AvailDelay(t.fu, n) == 0
    {}

    method CalEdgeRouteLat()
      requires Ready()
      modifies `edgeLat
      ensures WiresExact() && WiresKnown()
    {
      Opened();
      var todo := links.Keys;
      while todo != {}
        invariant todo <= links.Keys
        invariant forall id | id in links && id !in todo :: id in edgeLat && edgeLat[id] == RegisteredHops(adg, links[id])
        decreases |todo|
      {
        var id := Collections.Pick(todo);
        var lat := 0;
        for i := 0 to |links[id]|
          invariant lat == RegisteredHops(adg, links[id][..i])
        {
          var link := links[id][i];
          assert links[id][..i + 1][..i] == links[id][..i];
          if link.node in adg.nodes && adg.nodes[link.node].Gib? {
            var reged := adg.nodes[link.node].OutReged(link.dstPort);
            lat := lat + if reged then 1 else 0;
          }
        }
        assert links[id][..|links[id]|] == links[id];
        edgeLat := edgeLat[id := lat];
        todo := todo - {id};
      }
    }

    // ----- the lower bounds

    ghost predicate WiresKnown()
      reads this`edgeLat
    {
      forall id | id in g.edges :: At(edgeLat, id) >= 0
    }

    // The first i nodes of the order have their bounds.
    ghost predicate BoundedUpTo(wire: map<int, int>, lat: map<int, int>, i: nat)
      requires i <= |topo| && forall k | 0 <= k < |topo| :: topo[k] in g.nodes
    {
      forall k {:trigger NodeBounded(g, wire, lat, topo[k])} | 0 <= k < i :: NodeBounded(g, wire, lat, topo[k])
    }

    // When the operands of the i-th node of the order are all there, by the bounds of their nodes.
    method OperandLat(i: nat) returns (lat: int)
      requires Ready() && WiresKnown() && i < |topo| && BoundedUpTo(edgeLat, nodeLat, i)
      ensures IsLastArrival(g, edgeLat, nodeLat, topo[i], lat)
    {
      Opened();
      var node := g.nodes[topo[i]];
      assert InputsBacked(g, topo[i]);
      lat := 0;
      var ports := node.inputEdges.Keys;
      while ports != {}
        invariant ports <= node.inputEdges.Keys
        invariant 0 <= lat
        invariant forall p | p in node.inputEdges && p !in ports :: Arrival(g, edgeLat, nodeLat, node.inputEdges[p]) <= lat
        invariant if ports == node.inputEdges.Keys then lat == 0
                  else exists p :: p in node.inputEdges && Arrival(g, edgeLat, nodeLat, node.inputEdges[p]) == lat
        decreases |ports|
      {
        var p := Collections.Pick(ports);
        var id := node.inputEdges[p];
        SourceBounded(edgeLat, nodeLat, i, p);
        lat := Max(lat, At(nodeLat, g.edges[id].src) + At(edgeLat, id));
        ports := ports - {p};
        assert Arrival(g, edgeLat, nodeLat, node.inputEdges[p]) == At(nodeLat, g.edges[id].src) + At(edgeLat, id);
      }
    }

    // The operands of the i-th node come from earlier nodes, which are bounded.
    lemma SourceBounded(wire: map<int, int>, lat: map<int, int>, i: nat, p: int)
      requires Ready() && i < |topo| && BoundedUpTo(wire, lat, i) && p in g.nodes[topo[i]].inputEdges
      ensures var id := g.nodes[topo[i]].inputEdges[p];
              && id in g.edges && g.edges[id].src in lat && lat[g.edges[id].src] >= 0
              && Pos(topo, g.edges[id].src) < i && g.edges[id].src != topo[i]
    {
      Opened();
      var id := g.nodes[topo[i]].inputEdges[p];
      assert InputsBacked(g, topo[i]);
      assert EdgeRegistered(g, id);
      assert Ordered(g, topo, id);
      PosUnique(topo, i);
      assert NodeBounded(g, wire, lat, topo[Pos(topo, g.edges[id].src)]);
    }

    method BoundNode(i: nat) returns (lat: int)
      requires Ready() && WiresKnown() && i < |topo| && BoundedUpTo(edgeLat, nodeLat, i)
      modifies `nodeLat
      ensures nodeLat == old(nodeLat)[topo[i] := lat] && lat >= 0
      ensures BoundedUpTo(edgeLat, nodeLat, i + 1)
      ensures forall k | 0 <= k < i :: topo[k] != topo[i]
    {
      Opened();
      var operands := OperandLat(i);
      lat := operands + g.nodes[topo[i]].opLatency;
      BoundKept(edgeLat, nodeLat, i, lat);
      nodeLat := nodeLat[topo[i] := lat];
    }

    method LatencyBound()
      requires Ready() && WiresKnown()
      modifies `nodeLat, `maxLat, `maxLatNodeId
      ensures IsLowerBound(g, edgeLat, nodeLat)
      ensures forall n | n in g.nodes :: n in nodeLat && nodeLat[n] <= maxLat
      ensures maxLatNodeId in g.nodes && At(nodeLat, maxLatNodeId) == maxLat
    {
      var maxLatDfg := 0;
      var last := 0;       // where the node of the greatest latency so far stands
      for i := 0 to |topo|
        invariant BoundedUpTo(edgeLat, nodeLat, i)
        invariant forall k | 0 <= k < i :: topo[k] in nodeLat && nodeLat[topo[k]] <= maxLatDfg
        invariant if i == 0 then maxLatDfg == 0 else 0 <= last < i && topo[last] in nodeLat && nodeLat[topo[last]] == maxLatDfg
      {
        var lat := BoundNode(i);
        if lat >= maxLatDfg {
          maxLatDfg := lat;
          last := i;
        }
      }
      maxLat := maxLatDfg;
      maxLatNodeId := topo[last];
      AllBounded(edgeLat, nodeLat);
    }

    // Once every node of the order is bounded, the whole graph is.
    lemma AllBounded(wire: map<int, int>, lat: map<int, int>)
      requires Ready() && BoundedUpTo(wire, lat, |topo|)
      ensures IsLowerBound(g, wire, lat)
      ensures forall n | n in g.nodes :: n in topo
    {
      Opened();
      forall n | n in g.nodes
        ensures n in topo && NodeBounded(g, wire, lat, n)
      {
        assert NodeBounded(g, wire, lat, topo[Pos(topo, n)]);
      }
    }

    // Setting the latency of the i-th node leaves the earlier nodes bounded and bounds that node.
    lemma BoundKept(wire: map<int, int>, before: map<int, int>, i: nat, late: int)
      requires Ready() && i < |topo| && BoundedUpTo(wire, before, i)
      requires IsLastArrival(g, wire, before, topo[i], late - OpLat(g, topo[i]))
      ensures BoundedUpTo(wire, before[topo[i] := late], i + 1)
    {
      Opened();
      var after := before[topo[i] := late];
      forall k | 0 <= k < i + 1
        ensures NodeBounded(g, wire, after, topo[k])
      {
        forall p | p in g.nodes[topo[k]].inputEdges
          ensures var id := g.nodes[topo[k]].inputEdges[p]; Arrival(g, wire, after, id) == Arrival(g, wire, before, id)
        {
          SourceBounded(wire, before, k, p);
          PosUnique(topo, i);
        }
        if k < i {
          assert NodeBounded(g, wire, before, topo[k]);
          NodeBoundKept(g, wire, before, after, topo[k]);
        }
      }
    }

    // ----- the state of the scheduling pass, and the invariant that every step keeps

    ghost function Now(): Timing
      reads this`nodeLat, this`nodeMaxLat, this`fuDelay
    {
      Timing(nodeLat, nodeMaxLat, fuDelay)
    }

    ghost function Used(fus: map<int, FuDelay>, n: int): FuDelay
      requires n in place
    {
      if place[n] in fus then fus[place[n]] else FuDelay(0, map[])
    }

    // Cycles by which the operand on edge id is early, as things stand.
    ghost function GapIn(wire: map<int, int>, t: Timing, id: int): int
      requires id in g.edges
    {
      At(t.inLat, g.edges[id].dst) - At(wire, id) - At(t.lat, g.edges[id].src)
    }

    ghost predicate BudgetOk(t: Timing, n: int)
      requires Placed() && n in g.nodes
    {
      var d := Used(t.fu, n);
      && d.total == Collections.Sum(d.used)
      && 0 <= d.total <= Capacity(n)
      && forall p | p in d.used :: d.used[p] >= 0
    }

    // A charged edge has both its ends scheduled and is charged no more than it needs.
    ghost predicate ChargesOk(wire: map<int, int>, t: Timing, S: set<int>, n: int)
      requires Placed() && n in g.nodes
    {
      var d := Used(t.fu, n);
      forall p | p in d.used && p in g.nodes[n].inputEdges ::
        var id := g.nodes[n].inputEdges[p];
        id in g.edges && g.edges[id].dst == n && g.edges[id].src in S && d.used[p] <= GapIn(wire, t, id)
    }

    // S: the nodes whose latency is fixed; done: those whose input latency is recorded as well.
    ghost predicate Inv(wire: map<int, int>, low: map<int, int>, top: int, t: Timing, S: set<int>, done: set<int>)
      requires Placed()
    {
      && done <= S <= g.nodes.Keys
      && (forall n | n in g.nodes :: n in t.lat)
      && (forall k {:trigger Collections.Unfold(k)} | Collections.Unfold(k) && k == Collections.TheBudgets :: Kept(wire, low, top, t, S, done))
    }

    ghost predicate Kept(wire: map<int, int>, low: map<int, int>, top: int, t: Timing, S: set<int>, done: set<int>)
      requires Placed() && done <= S <= g.nodes.Keys
      requires forall n | n in g.nodes :: n in t.lat
    {
      LatenciesKept(wire, low, top, t, S, done) && BudgetsKept(wire, t, S, done) && SharesKept(wire, t, done)
    }

    ghost predicate LatenciesKept(wire: map<int, int>, low: map<int, int>, top: int, t: Timing, S: set<int>, done: set<int>)
      requires done <= S <= g.nodes.Keys
      requires forall n | n in g.nodes :: n in t.lat
    {
      && (forall n | n in g.nodes :: n in low && low[n] <= t.lat[n] <= top)
      && (forall n | n in g.nodes && n !in S :: t.lat[n] == low[n])
      && (forall n | n in done :: At(t.inLat, n) == t.lat[n] - OpLat(g, n))
      && (forall id | id in g.edges && g.edges[id].dst in done :: GapIn(wire, t, id) >= 0)
      && (forall id | id in g.edges && g.edges[id].dst !in done :: At(t.lat, g.edges[id].src) == At(low, g.edges[id].src))
    }

    ghost predicate BudgetsKept(wire: map<int, int>, t: Timing, S: set<int>, done: set<int>)
      requires Placed() && done <= S <= g.nodes.Keys
    {
      && (forall n | n in g.nodes && n !in done :: place[n] !in t.fu)
      && (forall n | n in done :: BudgetOk(t, n) && ChargesOk(wire, t, S, n))
    }

    ghost predicate SharesKept(wire: map<int, int>, t: Timing, done: set<int>)
      requires Placed() && done <= g.nodes.Keys
    {
      forall n | n in done :: SharedOut(wire, t, n)
    }

    // Whatever all operands of n could have alike, every operand charged has got that much, or what
    // it needs; and so much is left for each of the others.
    ghost predicate SharedOut(wire: map<int, int>, t: Timing, n: int)
      requires Placed() && n in g.nodes
    {
      && PortsOnly(t, n)
      && forall f {:trigger AllCanHave(n, f)} | AllCanHave(n, f) :: HaveShare(wire, t, n, f) && ShareIsLeft(t, n, f)
    }

    // Only operands of n are charged.
    ghost predicate PortsOnly(t: Timing, n: int)
      requires Placed() && n in g.nodes
    {
      |g.nodes[n].inputEdges| == 0 || Used(t.fu, n).used.Keys <= g.nodes[n].inputEdges.Keys
    }

    // The delay cycles of the unit of n are enough for f each.
    ghost predicate AllCanHave(n: int, f: nat)
      requires Placed() && n in g.nodes
    {
      && |g.nodes[n].inputs| == |g.nodes[n].inputEdges| > 0
      && adg.nodes[place[n]].numOperands >= 2 && Times(|g.nodes[n].inputEdges|, f) <= adg.nodes[place[n]].maxDelay
    }

    ghost predicate HaveShare(wire: map<int, int>, t: Timing, n: int, f: nat)
      requires Placed() && n in g.nodes
    {
      forall p | p in Used(t.fu, n).used && p in g.nodes[n].inputEdges && g.nodes[n].inputEdges[p] in g.edges ::
        Used(t.fu, n).used[p] >= Min(GapIn(wire, t, g.nodes[n].inputEdges[p]), f)
    }

    ghost predicate ShareIsLeft(t: Timing, n: int, f: nat)
      requires Placed() && n in g.nodes
    {
      var ports, d := |g.nodes[n].inputEdges|, Used(t.fu, n);
      |d.used| <= ports && d.total + Times(ports - |d.used|, f) <= adg.nodes[place[n]].maxDelay
    }

    lemma SameShares(wire: map<int, int>, t: Timing, t': Timing, n: int)
      requires Placed() && n in g.nodes && SharedOut(wire, t, n) && Used(t'.fu, n) == Used(t.fu, n)
      requires forall p | p in Used(t.fu, n).used && p in g.nodes[n].inputEdges && g.nodes[n].inputEdges[p] in g.edges ::
          GapIn(wire, t', g.nodes[n].inputEdges[p]) == GapIn(wire, t, g.nodes[n].inputEdges[p])
      ensures SharedOut(wire, t', n)
    {
      forall f | AllCanHave(n, f)
        ensures HaveShare(wire, t', n, f) && ShareIsLeft(t', n, f)
      {
        assert HaveShare(wire, t, n, f) && ShareIsLeft(t, n, f);
        SameShare(wire, t, t', n, f);
      }
    }

    lemma SameShare(wire: map<int, int>, t: Timing, t': Timing, n: int, f: nat)
      requires Placed() && n in g.nodes && HaveShare(wire, t, n, f) && ShareIsLeft(t, n, f) && Used(t'.fu, n) == Used(t.fu, n)
      requires forall p | p in Used(t.fu, n).used && p in g.nodes[n].inputEdges && g.nodes[n].inputEdges[p] in g.edges ::
          GapIn(wire, t', g.nodes[n].inputEdges[p]) == GapIn(wire, t, g.nodes[n].inputEdges[p])
      ensures HaveShare(wire, t', n, f) && ShareIsLeft(t', n, f)
    {}

    // Charging edge id, which enters port p of n and whose ends are scheduled.
    ghost function Charge(wire: map<int, int>, t: Timing, n: int, id: int): Timing
      requires Placed() && n in g.nodes && id in g.edges
    {
      var d := Used(t.fu, n);
      var cycles := Min(GapIn(wire, t, id), AvailDelay(t.fu, n));
      t.(fu := t.fu[place[n] := FuDelay(d.total + cycles, d.used[g.edges[id].dstPort := cycles])])
    }

    // The ends of an edge, and its entry at the node it enters.
    ghost predicate Enters(id: int, n: int) {
      && id in g.edges && g.edges[id].dst == n && n in g.nodes && g.edges[id].src in g.nodes
      && g.edges[id].dstPort in g.nodes[n].inputEdges && g.nodes[n].inputEdges[g.edges[id].dstPort] == id
      && g.edges[id].src != n
    }

    lemma EdgeEnters(id: int)
      requires Ready() && id in g.edges
      ensures Enters(id, g.edges[id].dst)
    {
      Opened();
      assert EdgeRegistered(g, id);
      assert Ordered(g, topo, id);
    }

    lemma PortEnters(n: int, p: int)
      requires Ready() && n in g.nodes && p in g.nodes[n].inputEdges
      ensures Enters(g.nodes[n].inputEdges[p], n) && g.edges[g.nodes[n].inputEdges[p]].dstPort == p
    {
      Opened();
      assert InputsBacked(g, n);
      EdgeEnters(g.nodes[n].inputEdges[p]);
    }

    lemma ChargeKeeps(wire: map<int, int>, low: map<int, int>, top: int, t: Timing, S: set<int>, n: int, id: int)
      requires Placed() && OneEach() && Inv(wire, low, top, t, S, S)
      requires n in S && Enters(id, n) && g.edges[id].src in S
      requires g.edges[id].dstPort !in Used(t.fu, n).used
      ensures Inv(wire, low, top, Charge(wire, t, n, id), S, S)
    {
      assert Collections.Unfold(Collections.TheBudgets);
      assert BudgetsKept(wire, Charge(wire, t, n, id), S, S) by {
        ChargeBudgets(wire, t, S, n, id);
      }
      assert LatenciesKept(wire, low, top, Charge(wire, t, n, id), S, S) by {
        ChargeLatencies(wire, low, top, t, S, n, id);
      }
      assert SharesKept(wire, Charge(wire, t, n, id), S) by {
        ChargeShares(wire, t, S, n, id);
      }
    }

    lemma ChargeLatencies(wire: map<int, int>, low: map<int, int>, top: int, t: Timing, S: set<int>, n: int, id: int)
      requires Placed() && S <= g.nodes.Keys && (forall m | m in g.nodes :: m in t.lat) && LatenciesKept(wire, low, top, t, S, S)
      requires n in g.nodes && id in g.edges
      ensures LatenciesKept(wire, low, top, Charge(wire, t, n, id), S, S)
    {
      forall x | x in g.edges
        ensures GapIn(wire, Charge(wire, t, n, id), x) == GapIn(wire, t, x)
      {}
    }

    lemma ChargeShares(wire: map<int, int>, t: Timing, S: set<int>, n: int, id: int)
      requires Placed() && OneEach() && S <= g.nodes.Keys && n in S && Enters(id, n) && SharesKept(wire, t, S)
      requires g.edges[id].dstPort !in Used(t.fu, n).used
      ensures SharesKept(wire, Charge(wire, t, n, id), S)
    {
      var t' := Charge(wire, t, n, id);
      forall m | m in S
        ensures SharedOut(wire, t', m)
      {
        assert SharedOut(wire, t, m);
        if m == n {
          ChargeShare(wire, t, n, id);
        } else {
          SameShares(wire, t, t', m);
        }
      }
    }

    lemma ChargeShare(wire: map<int, int>, t: Timing, n: int, id: int)
      requires Placed() && Enters(id, n) && SharedOut(wire, t, n) && g.edges[id].dstPort !in Used(t.fu, n).used
      ensures SharedOut(wire, Charge(wire, t, n, id), n)
    {
      var d, t', cycles := Used(t.fu, n), Charge(wire, t, n, id), Min(GapIn(wire, t, id), AvailDelay(t.fu, n));
      var used' := d.used[g.edges[id].dstPort := cycles];
      OneMore(g.nodes[n].inputEdges, d.used, used', g.edges[id].dstPort, cycles);
      assert Used(t'.fu, n) == FuDelay(d.total + cycles, used');
      forall f | AllCanHave(n, f)
        ensures HaveShare(wire, t', n, f) && ShareIsLeft(t', n, f)
      {
        assert HaveShare(wire, t, n, f) && ShareIsLeft(t, n, f);
        ShareEnough(t, n, f, cycles);
        MoreHaveShare(wire, t, t', n, id, f, cycles);
      }
    }

    lemma MoreHaveShare(wire: map<int, int>, t: Timing, t': Timing, n: int, id: int, f: nat, cycles: int)
      requires Placed() && Enters(id, n) && HaveShare(wire, t, n, f) && t'.lat == t.lat && t'.inLat == t.inLat
      requires Used(t'.fu, n).used == Used(t.fu, n).used[g.edges[id].dstPort := cycles] && cycles >= Min(GapIn(wire, t, id), f)
      ensures HaveShare(wire, t', n, f)
    {}

    // What is on offer is at least the share, and leaves enough for the others.
    lemma ShareEnough(t: Timing, n: int, f: nat, cycles: int)
      requires Placed() && n in g.nodes && AllCanHave(n, f) && ShareIsLeft(t, n, f)
      requires |Used(t.fu, n).used| < |g.nodes[n].inputEdges| && cycles <= AvailDelay(t.fu, n)
      ensures AvailDelay(t.fu, n) >= f
      ensures var k := |g.nodes[n].inputEdges| - |Used(t.fu, n).used|;
        Used(t.fu, n).total + cycles + Times(k - 1, f) <= adg.nodes[place[n]].maxDelay
    {
      var left, k := adg.nodes[place[n]].maxDelay - Used(t.fu, n).total, |g.nodes[n].inputEdges| - |Used(t.fu, n).used|;
      assert |g.nodes[n].inputs| == |g.nodes[n].inputs.Keys|;
      OfferIsShare(t, n);
      TimesIsProduct(k, f);
      TimesIsProduct(k - 1, f);
      ShareLeft(left, k, f, cycles);
    }

    static lemma OnePort<P, T>(ports: map<P, T>, p: P)
      requires p in ports
      ensures |ports| > 0
    {
      assert |ports.Keys| == |ports.Keys - {p}| + 1;
    }

    static lemma OneMore<P, T, U>(ports: map<P, U>, used: map<P, T>, used': map<P, T>, p: P, v: T)
      requires |ports| == 0 || used.Keys <= ports.Keys
      requires p in ports && p !in used && used' == used[p := v]
      ensures |used| < |ports| && |used'| == |used| + 1 && used'.Keys <= ports.Keys
    {
      OnePort(ports, p);
      Collections.Smaller(used.Keys, ports.Keys - {p});
      assert used'.Keys == used.Keys + {p};
      assert |used.Keys + {p}| == |used.Keys| + 1;
    }

    lemma ChargeBudgets(wire: map<int, int>, t: Timing, S: set<int>, n: int, id: int)
      requires Placed() && OneEach() && S <= g.nodes.Keys && n in S && Enters(id, n) && g.edges[id].src in S
      requires BudgetsKept(wire, t, S, S)
      requires g.edges[id].dstPort !in Used(t.fu, n).used && GapIn(wire, t, id) >= 0
      ensures BudgetsKept(wire, Charge(wire, t, n, id), S, S)
    {
      var t' := Charge(wire, t, n, id);
      assert BudgetOk(t, n) && ChargesOk(wire, t, S, n);
      ChargeAt(wire, t, S, n, id);
      forall m | m in S
        ensures BudgetOk(t', m) && ChargesOk(wire, t', S, m)
      {
        assert BudgetOk(t, m) && ChargesOk(wire, t, S, m);
        assert m != n ==> Used(t'.fu, m) == Used(t.fu, m);
      }
    }

    lemma ChargeAt(wire: map<int, int>, t: Timing, S: set<int>, n: int, id: int)
      requires Placed() && Enters(id, n) && g.edges[id].src in S
      requires BudgetOk(t, n) && ChargesOk(wire, t, S, n) && GapIn(wire, t, id) >= 0
      requires g.edges[id].dstPort !in Used(t.fu, n).used
      ensures BudgetOk(Charge(wire, t, n, id), n) && ChargesOk(wire, Charge(wire, t, n, id), S, n)
    {
      var cycles := Min(GapIn(wire, t, id), AvailDelay(t.fu, n));
      AvailWithinBudget(t, n);
      Collections.SumExtend(Used(t.fu, n).used, g.edges[id].dstPort, cycles);
    }

    // Fixing the latency of n at target, once everything n feeds is scheduled.
    ghost function Fix(t: Timing, n: int, target: int): Timing
      requires n in g.nodes
    {
      t.(lat := t.lat[n := target], inLat := t.inLat[n := target - OpLat(g, n)])
    }

    lemma FixKeeps(wire: map<int, int>, low: map<int, int>, top: int, t: Timing, S: set<int>, n: int, target: int)
      requires Placed() && OneEach() && Inv(wire, low, top, t, S, S)
      requires n in g.nodes && n !in S && At(low, n) <= target <= top
      requires forall id | id in g.edges && g.edges[id].src == n ::
          g.edges[id].dst in S && target <= At(t.inLat, g.edges[id].dst) - At(wire, id)
      requires forall id | id in g.edges && g.edges[id].dst == n ::
          && g.edges[id].src != n
          && At(low, g.edges[id].src) + At(wire, id) + OpLat(g, n) <= At(low, n)
      ensures Inv(wire, low, top, Fix(t, n, target), S + {n}, S + {n})
    {
      assert Collections.Unfold(Collections.TheBudgets);
      assert BudgetsKept(wire, Fix(t, n, target), S + {n}, S + {n}) by {
        FixBudgets(wire, t, S, n, target);
      }
      assert LatenciesKept(wire, low, top, Fix(t, n, target), S + {n}, S + {n}) by {
        FixLatencies(wire, low, top, t, S, n, target);
      }
      assert SharesKept(wire, Fix(t, n, target), S + {n}) by {
        FixShares(wire, t, S, n, target);
      }
    }

    lemma FixShares(wire: map<int, int>, t: Timing, S: set<int>, n: int, target: int)
      requires Placed() && OneEach() && n in g.nodes && n !in S && S <= g.nodes.Keys
      requires BudgetsKept(wire, t, S, S) && SharesKept(wire, t, S)
      ensures SharesKept(wire, Fix(t, n, target), S + {n})
    {
      var t' := Fix(t, n, target);
      forall m | m in S + {n}
        ensures SharedOut(wire, t', m)
      {
        if m == n {
          NothingShared(wire, t', n);
        } else {
          assert SharedOut(wire, t, m) && ChargesOk(wire, t, S, m);
          SameShares(wire, t, t', m);
        }
      }
    }

    lemma NothingShared(wire: map<int, int>, t: Timing, n: int)
      requires Placed() && n in g.nodes && (Used(t.fu, n).total == 0)
      requires PortsOnly(t, n) && (|g.nodes[n].inputEdges| == 0 || |Used(t.fu, n).used| <= |g.nodes[n].inputEdges|)
      requires forall p | p in Used(t.fu, n).used && p in g.nodes[n].inputEdges && g.nodes[n].inputEdges[p] in g.edges ::
          Used(t.fu, n).used[p] >= GapIn(wire, t, g.nodes[n].inputEdges[p])
      ensures SharedOut(wire, t, n)
    {
      forall f | AllCanHave(n, f)
        ensures HaveShare(wire, t, n, f) && ShareIsLeft(t, n, f)
      {
        var k := |g.nodes[n].inputEdges|;
        TimesGrows(k - |Used(t.fu, n).used|, k, f);
      }
    }

    lemma FixLatencies(wire: map<int, int>, low: map<int, int>, top: int, t: Timing, S: set<int>, n: int, target: int)
      requires S <= g.nodes.Keys && (forall m | m in g.nodes :: m in t.lat) && LatenciesKept(wire, low, top, t, S, S)
      requires n in g.nodes && n !in S && At(low, n) <= target <= top
      requires forall id | id in g.edges && g.edges[id].src == n ::
          g.edges[id].dst in S && target <= At(t.inLat, g.edges[id].dst) - At(wire, id)
      requires forall id | id in g.edges && g.edges[id].dst == n ::
          && g.edges[id].src != n
          && At(low, g.edges[id].src) + At(wire, id) + OpLat(g, n) <= At(low, n)
      ensures LatenciesKept(wire, low, top, Fix(t, n, target), S + {n}, S + {n})
    {
      forall id | id in g.edges && g.edges[id].dst in S + {n}
        ensures GapIn(wire, Fix(t, n, target), id) >= 0
      {
        assert g.edges[id].dst != n ==> GapIn(wire, t, id) >= 0;
      }
    }

    lemma FixBudgets(wire: map<int, int>, t: Timing, S: set<int>, n: int, target: int)
      requires Placed() && OneEach() && n in g.nodes && n !in S && S <= g.nodes.Keys && BudgetsKept(wire, t, S, S)
      ensures BudgetsKept(wire, Fix(t, n, target), S + {n}, S + {n})
    {}

    lemma LowerBoundAcross(wire: map<int, int>, low: map<int, int>, id: int)
      requires Ready() && IsLowerBound(g, wire, low) && id in g.edges
      ensures g.edges[id].src in g.nodes && g.edges[id].dst in g.nodes && g.edges[id].src != g.edges[id].dst
      ensures At(low, g.edges[id].src) + At(wire, id) + OpLat(g, g.edges[id].dst) <= At(low, g.edges[id].dst)
    {
      Opened();
      var dst := g.edges[id].dst;
      assert EdgeRegistered(g, id);
      assert NodeBounded(g, wire, low, dst);
      assert Arrival(g, wire, low, g.nodes[dst].inputEdges[g.edges[id].dstPort]) <= low[dst] - OpLat(g, dst);
      assert Ordered(g, topo, id);
    }

    // Recording a node of the critical path: it is charged nothing, on the one port p.
    ghost function Record(t: Timing, n: int, p: int): Timing
      requires Placed() && n in g.nodes
    {
      t.(inLat := t.inLat[n := At(t.lat, n) - OpLat(g, n)], fu := t.fu[place[n] := FuDelay(0, map[p := 0])])
    }

    // The operand on port p arrives just in time, and S' holds the node it comes from.
    ghost predicate JustInTime(wire: map<int, int>, t: Timing, S': set<int>, n: int, p: int)
      requires n in g.nodes
    {
      && (p in g.nodes[n].inputEdges || g.nodes[n].inputEdges.Keys == {})
      && (p in g.nodes[n].inputEdges ==>
            var id := g.nodes[n].inputEdges[p];
            && id in g.edges && g.edges[id].dst == n && g.edges[id].src != n && g.edges[id].src in S'
            && Arrival(g, wire, t.lat, id) == At(t.lat, n) - OpLat(g, n))
    }

    lemma RecordKeeps(wire: map<int, int>, low: map<int, int>, top: int, t: Timing, S: set<int>, S': set<int>, n: int, p: int)
      requires Placed() && OneEach() && n in S && S <= S' <= g.nodes.Keys
      requires Inv(wire, low, top, t, S, S - {n})
      requires forall m | m in S' - S :: t.lat[m] == At(low, m)
      requires JustInTime(wire, t, S', n, p)
      requires forall id | id in g.edges && g.edges[id].dst == n ::
          At(low, g.edges[id].src) + At(wire, id) + OpLat(g, n) <= At(low, n)
      ensures Inv(wire, low, top, Record(t, n, p), S', S)
    {
      assert Collections.Unfold(Collections.TheBudgets);
      assert BudgetsKept(wire, Record(t, n, p), S', S) by {
        RecordBudgets(wire, t, S, S', n, p);
      }
      assert LatenciesKept(wire, low, top, Record(t, n, p), S', S) by {
        RecordLatencies(wire, low, top, t, S, S', n, p);
      }
      assert SharesKept(wire, Record(t, n, p), S) by {
        RecordShares(wire, t, S, S', n, p);
      }
    }

    lemma RecordShares(wire: map<int, int>, t: Timing, S: set<int>, S': set<int>, n: int, p: int)
      requires Placed() && OneEach() && n in S && S <= S' <= g.nodes.Keys
      requires BudgetsKept(wire, t, S, S - {n}) && SharesKept(wire, t, S - {n})
      requires JustInTime(wire, t, S', n, p)
      ensures SharesKept(wire, Record(t, n, p), S)
    {
      var t' := Record(t, n, p);
      forall m | m in S
        ensures SharedOut(wire, t', m)
      {
        if m == n {
          RecordShare(wire, t, S', n, p);
        } else {
          assert SharedOut(wire, t, m) && ChargesOk(wire, t, S, m);
          SameShares(wire, t, t', m);
        }
      }
    }

    lemma RecordShare(wire: map<int, int>, t: Timing, S': set<int>, n: int, p: int)
      requires Placed() && n in g.nodes && JustInTime(wire, t, S', n, p)
      ensures SharedOut(wire, Record(t, n, p), n)
    {
      var t' := Record(t, n, p);
      assert Used(t'.fu, n) == FuDelay(0, map[p := 0]);
      assert |map[p := 0]| == 1;
      if p in g.nodes[n].inputEdges {
        OnePort(g.nodes[n].inputEdges, p);
      }
      NothingShared(wire, t', n);
    }

    lemma RecordLatencies(wire: map<int, int>, low: map<int, int>, top: int, t: Timing, S: set<int>, S': set<int>, n: int, p: int)
      requires Placed() && n in S && S <= S' <= g.nodes.Keys && (forall m | m in g.nodes :: m in t.lat)
      requires LatenciesKept(wire, low, top, t, S, S - {n})
      requires forall m | m in S' - S :: t.lat[m] == At(low, m)
      requires JustInTime(wire, t, S', n, p)
      requires forall id | id in g.edges && g.edges[id].dst == n ::
          At(low, g.edges[id].src) + At(wire, id) + OpLat(g, n) <= At(low, n)
      ensures LatenciesKept(wire, low, top, Record(t, n, p), S', S)
    {
      forall id | id in g.edges && g.edges[id].dst in S
        ensures GapIn(wire, Record(t, n, p), id) >= 0
      {
        assert g.edges[id].dst != n ==> GapIn(wire, t, id) >= 0;
      }
    }

    lemma RecordBudgets(wire: map<int, int>, t: Timing, S: set<int>, S': set<int>, n: int, p: int)
      requires Placed() && OneEach() && n in S && S <= S' <= g.nodes.Keys && BudgetsKept(wire, t, S, S - {n})
      requires JustInTime(wire, t, S', n, p)
      ensures BudgetsKept(wire, Record(t, n, p), S', S)
    {
      var t' := Record(t, n, p);
      forall m | m in S
        ensures BudgetOk(t', m) && ChargesOk(wire, t', S', m)
      {
        if m == n {
          Collections.SumExtend(map[], p, 0);
          assert map[][p := 0] == map[p := 0];
          assert Used(t'.fu, n) == FuDelay(0, map[p := 0]);
        } else {
          assert BudgetOk(t, m) && ChargesOk(wire, t, S, m);
          assert Used(t'.fu, m) == Used(t.fu, m);
        }
      }
    }

    // ----- the earliest latencies that nodes can wait for

    // What is on offer at the nodes of S shows in their earliest latencies.
    ghost predicate MinKnown(S: set<int>)
      requires Placed()
      reads this`nodeMinLat, this`nodeMaxLat, this`fuDelay
    {
      Offered(nodeMinLat, nodeMaxLat, fuDelay, S)
    }

    ghost predicate Offered(mins: map<int, int>, maxs: map<int, int>, fus: map<int, FuDelay>, S: set<int>)
      requires Placed()
    {
      forall k {:trigger Collections.Unfold(k)} | Collections.Unfold(k) && k == Collections.TheOffers ::
        forall n | n in S && n in g.nodes :: At(mins, n) == Max(At(maxs, n) - AvailDelay(fus, n), 0)
    }

    // Only the unit f has got charges.
    static ghost predicate SameElsewhere(before: map<int, FuDelay>, after: map<int, FuDelay>, f: int) {
      forall k {:trigger Collections.Unfold(k)} | Collections.Unfold(k) && k == Collections.TheOffers ::
        forall x | x != f :: (x in before <==> x in after) && (x in before ==> after[x] == before[x])
    }

    static lemma OneUnitMore(before: map<int, FuDelay>, after: map<int, FuDelay>, f: int, d: FuDelay)
      requires SameElsewhere(before, after, f)
      ensures SameElsewhere(before, after[f := d], f)
    {
      assert Collections.Unfold(Collections.TheOffers);
    }

    lemma UsedElsewhere(before: map<int, FuDelay>, after: map<int, FuDelay>, n: int)
      requires Placed() && OneEach() && n in g.nodes && SameElsewhere(before, after, place[n])
      ensures forall m | m in g.nodes && m != n :: Used(after, m) == Used(before, m)
    {
      assert Collections.Unfold(Collections.TheOffers);
      forall m | m in g.nodes && m != n
        ensures Used(after, m) == Used(before, m)
      {
        assert place[m] != place[n];
      }
    }

    lemma OffersRefreshed(mins: map<int, int>, mins': map<int, int>, maxs: map<int, int>, maxs': map<int, int>,
                          fus: map<int, FuDelay>, fus': map<int, FuDelay>, S: set<int>, S': set<int>, n: int)
      requires Placed() && OneEach() && n in g.nodes && Offered(mins, maxs, fus, S) && S' <= S + {n}
      requires SameElsewhere(fus, fus', place[n]) && (forall m | m != n :: At(maxs', m) == At(maxs, m))
      requires mins' == mins[n := Max(At(maxs', n) - AvailDelay(fus', n), 0)]
      ensures Offered(mins', maxs', fus', S')
    {
      assert Collections.Unfold(Collections.TheOffers);
      forall m | m in S' && m in g.nodes
        ensures At(mins', m) == Max(At(maxs', m) - AvailDelay(fus', m), 0)
      {
        if m != n {
          assert place[m] != place[n];
        }
      }
    }

    // A node outside S does not matter.
    lemma OffersElsewhere(mins: map<int, int>, maxs: map<int, int>, maxs': map<int, int>, fus: map<int, FuDelay>, S: set<int>, n: int)
      requires Placed() && Offered(mins, maxs, fus, S) && n !in S
      requires forall m | m != n :: At(maxs', m) == At(maxs, m)
      ensures Offered(mins, maxs', fus, S)
    {
      assert Collections.Unfold(Collections.TheOffers);
    }

    // ----- the list of nodes that still await a latency

    ghost predicate Descending(s: seq<int>) {
      forall i, j | 0 <= i < j < |s| :: Pos(topo, s[i]) > Pos(topo, s[j])
    }

    ghost predicate Awaiting(s: seq<int>, S: set<int>) {
      && Descending(s)
      && forall n :: n in s <==> n in g.nodes && n !in S
    }

    lemma {:induction false} WithoutDescends(s: seq<int>, x: int)
      requires Descending(s)
      ensures Descending(Without(s, x))
    {
      if s != [] {
        assert forall i, j | 0 <= i < j < |s[1..]| :: s[1..][i] == s[i + 1] && s[1..][j] == s[j + 1];
        WithoutDescends(s[1..], x);
        forall y | y in Without(s[1..], x)
          ensures Pos(topo, s[0]) > Pos(topo, y)
        {
          assert y in s[1..];
          var k :| 0 <= k < |s[1..]| && s[1..][k] == y;
          assert s[k + 1] == y;
        }
        assert s[0] != x ==> Without(s, x) == [s[0]] + Without(s[1..], x);
      }
    }

    lemma ReversedOrder()
      requires Ready()
      ensures Awaiting(Reversed(topo), {})
    {
      Opened();
      var r := Reversed(topo);
      forall i, j | 0 <= i < j < |r|
        ensures Pos(topo, r[i]) > Pos(topo, r[j])
      {
        PosUnique(topo, |topo| - 1 - i);
        PosUnique(topo, |topo| - 1 - j);
      }
      forall n
        ensures n in r <==> n in g.nodes
      {
        if n in topo {
          assert r[|topo| - 1 - Pos(topo, n)] == n;
        }
        if n in r {
          var k :| 0 <= k < |r| && r[k] == n;
          assert topo[|topo| - 1 - k] == n;
        }
      }
    }

    ghost predicate ArrivesAt(n: int, p: int, lat: int)
      requires n in g.nodes
      reads this`edgeLat, this`nodeLat
    {
      p in g.nodes[n].inputEdges && Arrival(g, edgeLat, nodeLat, g.nodes[n].inputEdges[p]) == lat
    }

    // The first operand found that arrives just in time. There is one, unless n has no operands.
    method TightInput(n: int) returns (found: bool, inPort: int)
      requires Ready() && n in g.nodes && NodeBounded(g, edgeLat, nodeLat, n)
      ensures found ==> ArrivesAt(n, inPort, At(nodeLat, n) - OpLat(g, n))
      ensures !found ==> g.nodes[n].inputEdges.Keys == {}
    {
      found := false;
      inPort := *;
      var inPortLat := nodeLat[n] - g.nodes[n].opLatency;
      var ports := g.nodes[n].inputEdges.Keys;
      while ports != {} && !found
        invariant ports <= g.nodes[n].inputEdges.Keys
        invariant found ==> ArrivesAt(n, inPort, inPortLat)
        invariant !found ==> forall p | p in g.nodes[n].inputEdges && p !in ports :: !ArrivesAt(n, p, inPortLat)
        decreases |ports|
      {
        inPort := Collections.Pick(ports);
        var id := g.nodes[n].inputEdges[inPort];
        PortEnters(n, inPort);
        found := inPortLat == At(nodeLat, g.edges[id].src) + At(edgeLat, id);
        ports := ports - {inPort};
      }
    }

    // An operand of n comes from src, and just in time.
    ghost predicate TightFrom(src: int, n: int)
      reads this`edgeLat, this`nodeLat
    {
      n in g.nodes && exists p :: ArrivesAt(n, p, At(nodeLat, n) - OpLat(g, n)) && SourceOf(n, p) == src
    }

    ghost function SourceOf(n: int, p: int): int
      requires n in g.nodes
    {
      if p in g.nodes[n].inputEdges && g.nodes[n].inputEdges[p] in g.edges then g.edges[g.nodes[n].inputEdges[p]].src else n
    }

    // The path leads back from the node of the greatest latency, without slack.
    ghost predicate Critical(path: seq<int>)
      reads this`edgeLat, this`nodeLat, this`maxLatNodeId
    {
      && path != [] && path[0] == maxLatNodeId
      && forall i | 0 < i < |path| :: TightFrom(path[i], path[i - 1])
    }

    // The path has come to cur, and S holds the nodes on it.
    ghost predicate OnPath(path: seq<int>, S: set<int>, cur: int)
      reads this`edgeLat, this`nodeLat, this`maxLatNodeId
    {
      Critical(path) && path[|path| - 1] == cur && forall n :: n in S <==> n in path
    }

    lemma PathGrows(path: seq<int>, S: set<int>, cur: int, next: int)
      requires OnPath(path, S, cur) && TightFrom(next, cur)
      ensures OnPath(path + [next], S + {next}, next)
    {
      assert forall n :: n in path + [next] <==> n in path || n == next;
    }

    // Fixes the latencies along one path of maximal latency, from its end back to an input.
    method WalkCriticalPath() returns (S: set<int>, unscheduled: seq<int>, ghost path: seq<int>)
      requires Ready() && IsLowerBound(g, edgeLat, nodeLat)
      requires forall n | n in g.nodes :: At(nodeLat, n) <= maxLat
      requires maxLatNodeId in g.nodes && fuDelay == map[]
      modifies `nodeMaxLat, `nodeMinLat, `fuDelay
      ensures Inv(edgeLat, nodeLat, maxLat, Now(), S, S) && MinKnown(S)
      ensures Awaiting(unscheduled, S)
      ensures path != [] && OnPath(path, S, path[|path| - 1])
      ensures path[|path| - 1] in g.nodes && g.nodes[path[|path| - 1]].inputEdges.Keys == {}
    {
      unscheduled := Reversed(topo);
      ReversedOrder();
      var cur := maxLatNodeId;
      var more := true;
      S, path := {cur}, [cur];
      WithoutDescends(unscheduled, cur);
      unscheduled := Without(unscheduled, cur);
      NothingRecorded(edgeLat, nodeLat, maxLat, Now(), cur);
      while more
        invariant Inv(edgeLat, nodeLat, maxLat, Now(), S, if more then S - {cur} else S)
        invariant MinKnown(if more then S - {cur} else S)
        invariant Awaiting(unscheduled, S)
        invariant more ==> cur in S
        invariant forall n | n in S :: Pos(topo, n) >= Pos(topo, cur)
        invariant cur in g.nodes && OnPath(path, S, cur)
        invariant !more ==> g.nodes[cur].inputEdges.Keys == {}
        decreases more, Pos(topo, cur)
      {
        ghost var before, on := cur, S;
        cur, more, S, unscheduled := WalkStep(cur, S, unscheduled);
        if more {
          PathGrows(path, on, before, cur);
          path := path + [cur];
        }
      }
    }

    lemma NothingRecorded(wire: map<int, int>, low: map<int, int>, top: int, t: Timing, n: int)
      requires Ready() && IsLowerBound(g, wire, low) && n in g.nodes
      requires t.fu == map[] && t.lat == low
      requires forall m | m in g.nodes :: At(low, m) <= top
      ensures Inv(wire, low, top, t, {n}, {n} - {n})
    {
      forall m | m in g.nodes
        ensures m in low
      {
        assert NodeBounded(g, wire, low, m);
      }
    }

    method RecordCritical(n: int, inPort: int)
      requires Placed() && n in g.nodes && n in nodeLat
      modifies `nodeMaxLat, `nodeMinLat, `fuDelay
      ensures place[n] !in old(fuDelay) ==> Now() == Record(old(Now()), n, inPort)
      ensures SameElsewhere(old(fuDelay), fuDelay, place[n])
      ensures nodeMaxLat == old(nodeMaxLat)[n := nodeLat[n] - OpLat(g, n)]
      ensures nodeMinLat == old(nodeMinLat)[n := Max(At(nodeMaxLat, n) - AvailDelay(fuDelay, n), 0)]
    {
      var inPortLat := nodeLat[n] - g.nodes[n].opLatency;
      var d := if place[n] in fuDelay then fuDelay[place[n]] else FuDelay(0, map[]);
      fuDelay := fuDelay[place[n] := d.(used := d.used[inPort := 0])];
      nodeMaxLat := nodeMaxLat[n := inPortLat];
      nodeMinLat := nodeMinLat[n := Max(inPortLat - AvailDelay(fuDelay, n), 0)];
    }

    method WalkStep(n: int, S: set<int>, unscheduled: seq<int>) returns (next: int, more: bool, S': set<int>, unscheduled': seq<int>)
      requires Ready() && IsLowerBound(g, edgeLat, nodeLat)
      requires n in S && Inv(edgeLat, nodeLat, maxLat, Now(), S, S - {n})
      requires Awaiting(unscheduled, S) && MinKnown(S - {n})
      requires forall m | m in S :: Pos(topo, m) >= Pos(topo, n)
      modifies `nodeMaxLat, `nodeMinLat, `fuDelay
      ensures Inv(edgeLat, nodeLat, maxLat, Now(), S', if more then S' - {next} else S')
      ensures Awaiting(unscheduled', S') && MinKnown(if more then S' - {next} else S')
      ensures more ==> next in S' && Pos(topo, next) < Pos(topo, n)
      ensures forall m | m in S' :: Pos(topo, m) >= Pos(topo, next)
      ensures if more then next in g.nodes && S' == S + {next} && TightFrom(next, n)
              else next == n && S' == S && g.nodes[n].inputEdges.Keys == {}
    {
      var inPort;
      more, inPort := TightInput(n);
      EdgesInto(edgeLat, nodeLat, n);
      if more {
        next := TightSource(n, inPort);
        S' := S + {next};
        WithoutDescends(unscheduled, next);
        unscheduled' := Without(unscheduled, next);
      } else {
        next, S', unscheduled' := n, S, unscheduled;
      }
      RecordNode(n, inPort, S, S');
      assert more ==> S' - {next} == S;
    }

    method RecordNode(n: int, inPort: int, ghost S: set<int>, ghost S': set<int>)
      requires Placed() && OneEach() && n in S && S <= S' <= g.nodes.Keys
      requires Inv(edgeLat, nodeLat, maxLat, Now(), S, S - {n}) && MinKnown(S - {n})
      requires forall m | m in S' - S :: m in nodeLat
      requires JustInTime(edgeLat, Now(), S', n, inPort)
      requires forall id | id in g.edges && g.edges[id].dst == n ::
          At(nodeLat, g.edges[id].src) + At(edgeLat, id) + OpLat(g, n) <= At(nodeLat, n)
      modifies `nodeMaxLat, `nodeMinLat, `fuDelay
      ensures Inv(edgeLat, nodeLat, maxLat, Now(), S', S) && MinKnown(S)
    {
      RecordKeeps(edgeLat, nodeLat, maxLat, Now(), S, S', n, inPort);
      ghost var fus, mins, maxs := fuDelay, nodeMinLat, nodeMaxLat;
      RecordCritical(n, inPort);
      OffersRefreshed(mins, nodeMinLat, maxs, nodeMaxLat, fus, fuDelay, S - {n}, S, n);
    }

    method TightSource(n: int, inPort: int) returns (src: int)
      requires Ready() && n in g.nodes && ArrivesAt(n, inPort, At(nodeLat, n) - OpLat(g, n))
      ensures src in g.nodes && Pos(topo, src) < Pos(topo, n)
      ensures JustInTime(edgeLat, Now(), {src}, n, inPort) && SourceOf(n, inPort) == src
    {
      Opened();
      var id := g.nodes[n].inputEdges[inPort];
      PortEnters(n, inPort);
      assert Ordered(g, topo, id);
      src := g.edges[id].src;
    }

    lemma EdgesInto(wire: map<int, int>, low: map<int, int>, n: int)
      requires Ready() && IsLowerBound(g, wire, low) && n in g.nodes
      ensures forall id | id in g.edges && g.edges[id].dst == n ::
          g.edges[id].src != n && At(low, g.edges[id].src) + At(wire, id) + OpLat(g, n) <= At(low, n)
    {
      assert NodeBounded(g, wire, low, n);
      forall id | id in g.edges && g.edges[id].dst == n
        ensures At(low, g.edges[id].src) + At(wire, id) + OpLat(g, n) <= low[n] && g.edges[id].src != n
      {
        LowerBoundAcross(wire, low, id);
      }
    }

    // ----- the nodes off the critical path

    function OutEdges(n: int): set<int>
      requires n in g.nodes
    {
      set p, id | p in g.nodes[n].outputEdges && id in g.nodes[n].outputEdges[p] :: id
    }

    lemma OutEdgesExact(n: int)
      requires Ready() && n in g.nodes
      ensures forall id :: id in OutEdges(n) <==> id in g.edges && g.edges[id].src == n
    {
      Opened();
      assert OutputsBacked(g, n);
      forall id | id in g.edges && g.edges[id].src == n
        ensures id in OutEdges(n)
      {
        assert EdgeRegistered(g, id);
      }
    }

    // No node fed by n is too early for an output latency of target.
    ghost predicate Fits(n: int, target: int)
      requires n in g.nodes && OutsKnown(n)
      reads this`edgeLat, this`nodeMaxLat
    {
      forall id | id in OutEdges(n) :: target <= At(nodeMaxLat, g.edges[id].dst) - At(edgeLat, id)
    }

    ghost predicate OutsKnown(n: int)
      requires n in g.nodes
    {
      forall id | id in OutEdges(n) :: id in g.edges
    }

    ghost predicate OutsWithin(n: int, scheduled: set<int>)
      requires n in g.nodes && OutsKnown(n)
    {
      forall id | id in OutEdges(n) :: g.edges[id].dst in scheduled
    }

    // With target, n is no earlier than any node that it feeds can wait for.
    ghost predicate Awaited(n: int, target: int)
      requires n in g.nodes && OutsKnown(n)
      reads this`edgeLat, this`nodeMinLat
    {
      forall id | id in OutEdges(n) :: target >= At(nodeMinLat, g.edges[id].dst) - At(edgeLat, id)
    }

    // A later target would not fit.
    ghost predicate Latest(n: int, target: int)
      requires n in g.nodes && OutsKnown(n)
      reads this`edgeLat, this`nodeMaxLat
    {
      target >= NEVER || exists id :: id in OutEdges(n) && target >= At(nodeMaxLat, g.edges[id].dst) - At(edgeLat, id)
    }

    // Some node that n feeds needs an earlier target for its delay cycles to suffice.
    ghost predicate NotTooLate(n: int, target: int)
      requires n in g.nodes && OutsKnown(n)
      reads this`edgeLat, this`nodeMinLat
    {
      target <= 0 || exists id :: id in OutEdges(n) && target <= At(nodeMinLat, g.edges[id].dst) - At(edgeLat, id)
    }

    // The bounds that the edges of ids put on the latency of the node they leave, and two edges
    // that the bounds come from.
    ghost predicate Weighed(ids: set<int>, scheduled: set<int>, outMax: int, outMin: int, max: int, min: int)
      requires forall id | id in ids :: id in g.edges
      reads this`edgeLat, this`nodeMaxLat, this`nodeMinLat
    {
      && (forall id | id in ids :: g.edges[id].dst in scheduled
            && outMax <= At(nodeMaxLat, g.edges[id].dst) - At(edgeLat, id)
            && outMin >= At(nodeMinLat, g.edges[id].dst) - At(edgeLat, id))
      && (outMax == NEVER || (max in ids && outMax == At(nodeMaxLat, g.edges[max].dst) - At(edgeLat, max)))
      && (outMin == 0 || (min in ids && outMin == At(nodeMinLat, g.edges[min].dst) - At(edgeLat, min)))
    }

    // Looks at the edges that leave n, unless one leads to a node that is not scheduled.
    method OutBounds(n: int, scheduled: set<int>)
      returns (fail: bool, updated: bool, outMax: int, outMin: int, ghost max: int, ghost min: int)
      requires n in g.nodes && OutsKnown(n)
      ensures fail <==> !OutsWithin(n, scheduled)
      ensures !fail ==> Weighed(OutEdges(n), scheduled, outMax, outMin, max, min) && (updated <==> OutEdges(n) != {})
    {
      outMax, outMin, max, min := NEVER, 0, 0, 0;
      updated, fail := false, false;
      var outs := OutEdges(n);
      var todo := outs;
      while todo != {} && !fail
        invariant todo <= outs
        invariant fail ==> !OutsWithin(n, scheduled)
        invariant !fail ==> (updated <==> todo < outs)
        invariant !fail ==> forall id | id in outs && id !in todo ::
            g.edges[id].dst in scheduled
            && outMax <= At(nodeMaxLat, g.edges[id].dst) - At(edgeLat, id)
            && outMin >= At(nodeMinLat, g.edges[id].dst) - At(edgeLat, id)
        invariant outMax == NEVER || (max in outs && outMax == At(nodeMaxLat, g.edges[max].dst) - At(edgeLat, max))
        invariant outMin == 0 || (min in outs && outMin == At(nodeMinLat, g.edges[min].dst) - At(edgeLat, min))
        decreases |todo|
      {
        var id := Collections.Pick(todo);
        var dst := g.edges[id].dst;
        if dst in scheduled {
          max := if At(nodeMaxLat, dst) - At(edgeLat, id) < outMax then id else max;
          min := if At(nodeMinLat, dst) - At(edgeLat, id) > outMin then id else min;
          outMax := Min(outMax, At(nodeMaxLat, dst) - At(edgeLat, id));
          outMin := Max(outMin, At(nodeMinLat, dst) - At(edgeLat, id));
          updated := true;
        } else {
          fail := true;
        }
        todo := todo - {id};
      }
    }

    // fail: some node that n feeds is not scheduled yet. Otherwise target is the latency for n:
    // its lower bound, raised until all nodes it feeds can wait for it, or as far as it fits, and
    // no further.
    method TargetLat(n: int, scheduled: set<int>) returns (fail: bool, target: int)
      requires n in g.nodes && n in nodeLat && OutsKnown(n)
      ensures fail <==> !OutsWithin(n, scheduled)
      ensures !fail ==> nodeLat[n] <= target && (Fits(n, nodeLat[n]) ==> Fits(n, target))
      ensures OutEdges(n) == {} ==> target == nodeLat[n]
      ensures !fail && OutEdges(n) != {} ==> Awaited(n, target) || Latest(n, target)
      ensures !fail ==> target == nodeLat[n] || NotTooLate(n, target)
    {
      var updated, outMax, outMin;
      ghost var max, min;
      fail, updated, outMax, outMin, max, min := OutBounds(n, scheduled);
      target := nodeLat[n];
      if !fail && updated {
        target := Max(target, Min(outMax, outMin));
      }
    }

    method RefreshMinLat(n: int)
      requires Placed() && n in g.nodes
      modifies `nodeMinLat
      ensures nodeMinLat == old(nodeMinLat)[n := Max(At(nodeMaxLat, n) - AvailDelay(fuDelay, n), 0)]
    {
      nodeMinLat := nodeMinLat[n := Max(At(nodeMaxLat, n) - AvailDelay(fuDelay, n), 0)];
    }

    // Charges edge id, which enters a port of n.
    method ChargeEdge(n: int, id: int)
      requires Placed() && n in g.nodes && id in g.edges && g.edges[id].dst == n
      modifies `fuDelay
      ensures Now() == Charge(edgeLat, old(Now()), n, id)
    {
      var delayRequired := At(nodeMaxLat, n) - At(edgeLat, id) - At(nodeLat, g.edges[id].src);
      var delayUsed := Min(delayRequired, AvailDelay(fuDelay, n));
      var d := if place[n] in fuDelay then fuDelay[place[n]] else FuDelay(0, map[]);
      fuDelay := fuDelay[place[n] := FuDelay(d.total + delayUsed, d.used[g.edges[id].dstPort := delayUsed])];
    }

    // The operands of n that come from nodes of S have been charged.
    ghost predicate InputsCharged(n: int, S: set<int>)
      requires Placed() && n in g.nodes
      reads this`fuDelay
    {
      forall p | p in g.nodes[n].inputEdges && g.nodes[n].inputEdges[p] in g.edges && g.edges[g.nodes[n].inputEdges[p]].src in S ::
        p in Used(fuDelay, n).used
    }

    // The edges of ids have been charged.
    ghost predicate OutputsCharged(fus: map<int, FuDelay>, ids: set<int>)
      requires Placed()
    {
      forall id | id in ids :: IsCharged(fus, id)
    }

    ghost predicate IsCharged(fus: map<int, FuDelay>, id: int)
      requires Placed()
    {
      id in g.edges && g.edges[id].dst in g.nodes && g.edges[id].dstPort in Used(fus, g.edges[id].dst).used
    }

    // Charges the operands of n that come from nodes scheduled before n.
    method ChargeInputs(n: int, ghost low: map<int, int>, S: set<int>)
      requires Ready() && n in S && Inv(edgeLat, low, maxLat, Now(), S, S)
      requires Used(fuDelay, n).used == map[] && MinKnown(S - {n})
      modifies `fuDelay, `nodeMinLat
      ensures Inv(edgeLat, low, maxLat, Now(), S, S) && InputsCharged(n, S) && MinKnown(S)
      ensures SameElsewhere(old(fuDelay), fuDelay, place[n])
    {
      var ports := g.nodes[n].inputEdges.Keys;
      while ports != {}
        invariant ports <= g.nodes[n].inputEdges.Keys
        invariant Inv(edgeLat, low, maxLat, Now(), S, S)
        invariant forall p | p in ports :: p !in Used(fuDelay, n).used
        invariant forall p | p in g.nodes[n].inputEdges && p !in ports && g.nodes[n].inputEdges[p] in g.edges
            && g.edges[g.nodes[n].inputEdges[p]].src in S :: p in Used(fuDelay, n).used
        invariant SameElsewhere(old(fuDelay), fuDelay, place[n]) && nodeMinLat == old(nodeMinLat)
        decreases |ports|
      {
        var p := Collections.Pick(ports);
        var id := g.nodes[n].inputEdges[p];
        PortEnters(n, p);
        if g.edges[id].src in S {
          ChargeInput(n, id, low, S, old(fuDelay));
        }
        ports := ports - {p};
      }
      ghost var mins := nodeMinLat;
      RefreshMinLat(n);
      OffersRefreshed(mins, nodeMinLat, nodeMaxLat, nodeMaxLat, old(fuDelay), fuDelay, S - {n}, S, n);
    }

    // Charges one of them; before are the charges at the start.
    method ChargeInput(n: int, id: int, ghost low: map<int, int>, ghost S: set<int>, ghost before: map<int, FuDelay>)
      requires Placed() && OneEach() && n in S && Inv(edgeLat, low, maxLat, Now(), S, S)
      requires Enters(id, n) && g.edges[id].src in S && g.edges[id].dstPort !in Used(fuDelay, n).used
      requires SameElsewhere(before, fuDelay, place[n])
      modifies `fuDelay
      ensures Inv(edgeLat, low, maxLat, Now(), S, S) && SameElsewhere(before, fuDelay, place[n])
      ensures forall p :: p in Used(fuDelay, n).used <==> p in Used(old(fuDelay), n).used || p == g.edges[id].dstPort
    {
      ChargeKeeps(edgeLat, low, maxLat, Now(), S, n, id);
      ghost var fu := Charge(edgeLat, Now(), n, id).fu;
      OneUnitMore(before, fuDelay, place[n], fu[place[n]]);
      ChargeEdge(n, id);
    }

    ghost predicate Uncharged(fus: map<int, FuDelay>, ids: set<int>)
      requires Placed()
    {
      forall id | id in ids :: id in g.edges && Enters(id, g.edges[id].dst)
          && g.edges[id].dstPort !in Used(fus, g.edges[id].dst).used
    }

    // Charges the operands that n provides, at the nodes it feeds.
    method ChargeOutputs(n: int, ghost low: map<int, int>, ghost S: set<int>)
      requires Placed() && OneEach() && n in S && Inv(edgeLat, low, maxLat, Now(), S, S)
      requires Uncharged(fuDelay, OutEdges(n)) && OutsWithin(n, S)
      requires forall id | id in OutEdges(n) :: g.edges[id].src == n
      requires MinKnown(S)
      modifies `fuDelay, `nodeMinLat
      ensures Inv(edgeLat, low, maxLat, Now(), S, S) && MinKnown(S)
      ensures OutputsCharged(fuDelay, OutEdges(n)) && Used(fuDelay, n) == Used(old(fuDelay), n)
    {
      var todo := OutEdges(n);
      while todo != {}
        invariant todo <= OutEdges(n)
        invariant Inv(edgeLat, low, maxLat, Now(), S, S) && MinKnown(S)
        invariant Uncharged(fuDelay, todo)
        invariant OutputsCharged(fuDelay, OutEdges(n) - todo) && Used(fuDelay, n) == Used(old(fuDelay), n)
        decreases |todo|
      {
        var id := Collections.Pick(todo);
        ChargeOutput(n, id, low, S, todo, OutEdges(n) - todo);
        assert OutEdges(n) - todo + {id} == OutEdges(n) - (todo - {id});
        todo := todo - {id};
      }
    }

    method ChargeOutput(n: int, id: int, ghost low: map<int, int>, ghost S: set<int>, ghost todo: set<int>, ghost charged: set<int>)
      requires Placed() && OneEach() && n in S && Inv(edgeLat, low, maxLat, Now(), S, S)
      requires id in todo && Uncharged(fuDelay, todo) && OutputsCharged(fuDelay, charged)
      requires id in g.edges && g.edges[id].src == n && g.edges[id].dst in S && MinKnown(S)
      modifies `fuDelay, `nodeMinLat
      ensures Inv(edgeLat, low, maxLat, Now(), S, S) && MinKnown(S)
      ensures Uncharged(fuDelay, todo - {id}) && OutputsCharged(fuDelay, charged + {id})
      ensures Used(fuDelay, n) == Used(old(fuDelay), n)
    {
      OutputStep(n, id, low, S, todo, charged);
      ChargeAndOffer(g.edges[id].dst, id, S);
    }

    // Charges edge id at n, which offers what is left to the nodes that feed it.
    method ChargeAndOffer(n: int, id: int, ghost S: set<int>)
      requires Placed() && OneEach() && n in g.nodes && id in g.edges && g.edges[id].dst == n && MinKnown(S)
      modifies `fuDelay, `nodeMinLat
      ensures Now() == Charge(edgeLat, old(Now()), n, id) && MinKnown(S)
    {
      ghost var fus, mins := fuDelay, nodeMinLat;
      ChargeEdge(n, id);
      RefreshMinLat(n);
      OffersRefreshed(mins, nodeMinLat, nodeMaxLat, nodeMaxLat, fus, fuDelay, S, S, n);
    }

    lemma OutputStep(n: int, id: int, low: map<int, int>, S: set<int>, todo: set<int>, charged: set<int>)
      requires Placed() && OneEach() && n in S && Inv(edgeLat, low, maxLat, Now(), S, S)
      requires id in todo && Uncharged(fuDelay, todo) && OutputsCharged(fuDelay, charged)
      requires id in g.edges && g.edges[id].src == n && g.edges[id].dst in S
      ensures var t := Charge(edgeLat, Now(), g.edges[id].dst, id);
        && Inv(edgeLat, low, maxLat, t, S, S) && Uncharged(t.fu, todo - {id}) && OutputsCharged(t.fu, charged + {id})
        && Used(t.fu, n) == Used(fuDelay, n)
    {
      ChargeKeeps(edgeLat, low, maxLat, Now(), S, g.edges[id].dst, id);
      ChargedOnce(Now(), todo, id);
      MoreCharged(Now(), n, charged, id);
    }

    // A charge for one edge leaves the other charges, and those at the node it comes from.
    lemma MoreCharged(t: Timing, n: int, ids: set<int>, id: int)
      requires Placed() && OneEach() && id in g.edges && Enters(id, g.edges[id].dst) && g.edges[id].src == n
      requires OutputsCharged(t.fu, ids)
      ensures OutputsCharged(Charge(edgeLat, t, g.edges[id].dst, id).fu, ids + {id})
      ensures Used(Charge(edgeLat, t, g.edges[id].dst, id).fu, n) == Used(t.fu, n)
    {
      var fu := Charge(edgeLat, t, g.edges[id].dst, id).fu;
      forall x | x in ids + {id}
        ensures IsCharged(fu, x)
      {
        assert x != id ==> IsCharged(t.fu, x);
      }
    }

    // No other edge enters the port that edge id enters.
    lemma ChargedOnce(t: Timing, todo: set<int>, id: int)
      requires Placed() && OneEach() && Uncharged(t.fu, todo) && id in todo
      ensures Uncharged(Charge(edgeLat, t, g.edges[id].dst, id).fu, todo - {id})
    {}

    // In any scheduled state n can keep its latency, and whatever fits is below the maximum.
    lemma FitsWithinTop(low: map<int, int>, S: set<int>, n: int, target: int)
      requires Placed() && n in g.nodes && OutsKnown(n) && OutsWithin(n, S)
      requires Inv(edgeLat, low, maxLat, Now(), S, S)
      requires WiresKnown()
      requires forall id | id in OutEdges(n) :: g.edges[id].src == n
      ensures Fits(n, nodeLat[n])
      ensures Fits(n, target) && OutEdges(n) != {} ==> target <= maxLat
    {
      assert Collections.Unfold(Collections.TheBudgets);
      forall id | id in OutEdges(n)
        ensures nodeLat[n] <= At(nodeMaxLat, g.edges[id].dst) - At(edgeLat, id) <= maxLat
      {
        assert GapIn(edgeLat, Now(), id) >= 0;
      }
    }

    // Schedules n, unless a node it feeds still awaits its latency.
    method ScheduleNode(n: int, ghost low: map<int, int>, S: set<int>) returns (fail: bool)
      requires Ready() && WiresKnown() && IsLowerBound(g, edgeLat, low)
      requires n in g.nodes && n !in S && Inv(edgeLat, low, maxLat, Now(), S, S)
      requires OutsKnown(n) && MinKnown(S)
      modifies `nodeLat, `nodeMaxLat, `nodeMinLat, `fuDelay
      ensures fail <==> !OutsWithin(n, S)
      ensures if fail then Now() == old(Now()) else Inv(edgeLat, low, maxLat, Now(), S + {n}, S + {n})
      ensures MinKnown(if fail then S else S + {n})
      ensures !fail ==> Paced(old(nodeMaxLat), old(fuDelay), n, At(old(nodeLat), n), At(nodeLat, n))
      ensures !fail ==> InputsCharged(n, S + {n}) && OutputsCharged(fuDelay, OutEdges(n))
    {
      var target;
      fail, target := ChooseTarget(n, low, S);
      if !fail {
        Settle(n, target, low, S + {n});
      }
    }

    // With the target, n may be scheduled.
    method ChooseTarget(n: int, ghost low: map<int, int>, S: set<int>) returns (fail: bool, target: int)
      requires Ready() && WiresKnown() && IsLowerBound(g, edgeLat, low)
      requires n in g.nodes && n !in S && Inv(edgeLat, low, maxLat, Now(), S, S)
      requires OutsKnown(n) && MinKnown(S)
      ensures fail <==> !OutsWithin(n, S)
      ensures !fail ==> Inv(edgeLat, low, maxLat, Fix(Now(), n, target), S + {n}, S + {n})
      ensures !fail ==> Used(fuDelay, n).used == map[] && Uncharged(fuDelay, OutEdges(n)) && MinKnown(S + {n} - {n})
      ensures !fail ==> Paced(nodeMaxLat, fuDelay, n, At(nodeLat, n), target)
    {
      fail, target := TargetLat(n, S);
      if !fail {
        MayFix(low, S, n, target);
      }
    }

    // How early the operand on edge id is if the node it leaves has the latency target.
    ghost function Early(maxs: map<int, int>, id: int, target: int): int
      requires id in g.edges
      reads this`edgeLat
    {
      At(maxs, g.edges[id].dst) - At(edgeLat, id) - target
    }

    // The latency target of n: with it, every node that n feeds has cycles enough on offer for the
    // operand from n, unless n cannot be later; and if it is later than it has to be, then some
    // operand needs all that is on offer to it.
    ghost predicate Paced(maxs: map<int, int>, fus: map<int, FuDelay>, n: int, lat: int, target: int)
      requires Placed() && n in g.nodes && OutsKnown(n)
      reads this`edgeLat
    {
      && (OutEdges(n) != {} ==> AllCanWait(maxs, fus, n, target) || AtLimit(maxs, n, target))
      && (target == lat || NeedsWait(maxs, fus, n, target))
    }

    ghost predicate AllCanWait(maxs: map<int, int>, fus: map<int, FuDelay>, n: int, target: int)
      requires Placed() && n in g.nodes && OutsKnown(n)
      reads this`edgeLat
    {
      forall id | id in OutEdges(n) && g.edges[id].dst in g.nodes :: Early(maxs, id, target) <= AvailDelay(fus, g.edges[id].dst)
    }

    ghost predicate AtLimit(maxs: map<int, int>, n: int, target: int)
      requires n in g.nodes && OutsKnown(n)
      reads this`edgeLat
    {
      target >= NEVER || exists id :: id in OutEdges(n) && Early(maxs, id, target) <= 0
    }

    ghost predicate NeedsWait(maxs: map<int, int>, fus: map<int, FuDelay>, n: int, target: int)
      requires Placed() && n in g.nodes && OutsKnown(n)
      reads this`edgeLat
    {
      target <= 0 || exists id {:trigger id in OutEdges(n)} ::
        id in OutEdges(n) && g.edges[id].dst in g.nodes
        && Early(maxs, id, target) >= Min(AvailDelay(fus, g.edges[id].dst), At(maxs, g.edges[id].dst))
    }

    lemma TargetPaced(S: set<int>, n: int, target: int)
      requires Placed() && n in g.nodes && n in nodeLat && OutsKnown(n) && OutsWithin(n, S) && MinKnown(S) && S <= g.nodes.Keys
      requires OutEdges(n) != {} ==> Awaited(n, target) || Latest(n, target)
      requires target == nodeLat[n] || NotTooLate(n, target)
      ensures Paced(nodeMaxLat, fuDelay, n, nodeLat[n], target)
    {
      assert Collections.Unfold(Collections.TheOffers);
      forall id | id in OutEdges(n)
        ensures At(nodeMinLat, g.edges[id].dst) == Max(At(nodeMaxLat, g.edges[id].dst) - AvailDelay(fuDelay, g.edges[id].dst), 0)
      {
        assert g.edges[id].dst in S;
      }
    }

    lemma MayFix(low: map<int, int>, S: set<int>, n: int, target: int)
      requires Ready() && WiresKnown() && IsLowerBound(g, edgeLat, low)
      requires n in g.nodes && n !in S && Inv(edgeLat, low, maxLat, Now(), S, S)
      requires OutsKnown(n) && OutsWithin(n, S) && MinKnown(S)
      requires nodeLat[n] <= target && (Fits(n, nodeLat[n]) ==> Fits(n, target))
      requires OutEdges(n) == {} ==> target == nodeLat[n]
      requires OutEdges(n) != {} ==> Awaited(n, target) || Latest(n, target)
      requires target == nodeLat[n] || NotTooLate(n, target)
      ensures Inv(edgeLat, low, maxLat, Fix(Now(), n, target), S + {n}, S + {n})
      ensures Used(fuDelay, n).used == map[] && Uncharged(fuDelay, OutEdges(n)) && MinKnown(S + {n} - {n})
      ensures Paced(nodeMaxLat, fuDelay, n, At(nodeLat, n), target)
    {
      FixApplies(low, S, n, target);
      TargetPaced(S, n, target);
      assert S + {n} - {n} == S;
    }

    // Gives n its latency and shares out the delay cycles that this decides.
    method Settle(n: int, target: int, ghost low: map<int, int>, S: set<int>)
      requires Ready() && n in S && S <= g.nodes.Keys && OutsKnown(n) && OutsWithin(n, S)
      requires Inv(edgeLat, low, maxLat, Fix(Now(), n, target), S, S)
      requires Used(fuDelay, n).used == map[] && Uncharged(fuDelay, OutEdges(n)) && MinKnown(S - {n})
      modifies `nodeLat, `nodeMaxLat, `nodeMinLat, `fuDelay
      ensures Inv(edgeLat, low, maxLat, Now(), S, S) && MinKnown(S)
      ensures nodeLat == old(nodeLat)[n := target] && InputsCharged(n, S) && OutputsCharged(fuDelay, OutEdges(n))
    {
      OffersElsewhere(nodeMinLat, nodeMaxLat, Fix(Now(), n, target).inLat, fuDelay, S - {n}, n);
      FixNode(n, target);
      ChargeNode(n, low, S);
    }

    method FixNode(n: int, target: int)
      requires n in g.nodes
      modifies `nodeLat, `nodeMaxLat
      ensures Now() == Fix(old(Now()), n, target)
    {
      nodeLat := nodeLat[n := target];
      nodeMaxLat := nodeMaxLat[n := target - g.nodes[n].opLatency];
    }

    lemma FixApplies(low: map<int, int>, S: set<int>, n: int, target: int)
      requires Ready() && WiresKnown() && IsLowerBound(g, edgeLat, low)
      requires n in g.nodes && n !in S && Inv(edgeLat, low, maxLat, Now(), S, S)
      requires OutsKnown(n) && OutsWithin(n, S)
      requires nodeLat[n] <= target && (Fits(n, nodeLat[n]) ==> Fits(n, target))
      requires OutEdges(n) == {} ==> target == nodeLat[n]
      ensures Inv(edgeLat, low, maxLat, Fix(Now(), n, target), S + {n}, S + {n})
      ensures Used(fuDelay, n).used == map[]
      ensures Uncharged(fuDelay, OutEdges(n))
    {
      assert Collections.Unfold(Collections.TheBudgets);
      OutEdgesExact(n);
      FitsWithinTop(low, S, n, target);
      EdgesInto(edgeLat, low, n);
      FixKeeps(edgeLat, low, maxLat, Now(), S, n, target);
      NotYetCharged(low, S, n);
    }

    lemma NotYetCharged(low: map<int, int>, S: set<int>, n: int)
      requires Ready() && n in g.nodes && n !in S && Inv(edgeLat, low, maxLat, Now(), S, S)
      requires OutsKnown(n) && OutsWithin(n, S)
      ensures Uncharged(fuDelay, OutEdges(n))
    {
      assert Collections.Unfold(Collections.TheBudgets);
      Opened();
      OutEdgesExact(n);
      forall id | id in OutEdges(n)
        ensures Enters(id, g.edges[id].dst) && g.edges[id].dstPort !in Used(fuDelay, g.edges[id].dst).used
      {
        EdgeEnters(id);
        assert ChargesOk(edgeLat, Now(), S, g.edges[id].dst);
      }
    }

    method ChargeNode(n: int, ghost low: map<int, int>, S: set<int>)
      requires Ready() && n in S && Inv(edgeLat, low, maxLat, Now(), S, S)
      requires Used(fuDelay, n).used == map[]
      requires Uncharged(fuDelay, OutEdges(n)) && OutsWithin(n, S) && MinKnown(S - {n})
      modifies `fuDelay, `nodeMinLat
      ensures Inv(edgeLat, low, maxLat, Now(), S, S) && MinKnown(S)
      ensures InputsCharged(n, S) && OutputsCharged(fuDelay, OutEdges(n))
    {
      OutEdgesExact(n);
      ghost var t := Now();
      ChargeInputs(n, low, S);
      UsedElsewhere(t.fu, fuDelay, n);
      assert Uncharged(fuDelay, OutEdges(n)) by {
        forall id | id in OutEdges(n)
          ensures Used(fuDelay, g.edges[id].dst) == Used(t.fu, g.edges[id].dst)
        {
          assert Enters(id, g.edges[id].dst);
        }
      }
      ChargeOutputs(n, low, S);
    }

    // The first node of the list feeds scheduled nodes only.
    lemma HeadReady(unscheduled: seq<int>, S: set<int>)
      requires Ready() && Awaiting(unscheduled, S) && unscheduled != []
      ensures unscheduled[0] in g.nodes && unscheduled[0] !in S
      ensures OutsKnown(unscheduled[0]) && OutsWithin(unscheduled[0], S)
      ensures Awaiting(unscheduled[1..], S + {unscheduled[0]})
    {
      Opened();
      var n := unscheduled[0];
      assert n in unscheduled;
      OutEdgesExact(n);
      forall id | id in OutEdges(n)
        ensures g.edges[id].dst in S
      {
        EdgeEnters(id);
        assert Ordered(g, topo, id);
      }
      TailAwaits(unscheduled, S);
    }

    lemma TailAwaits(unscheduled: seq<int>, S: set<int>)
      requires Awaiting(unscheduled, S) && unscheduled != []
      ensures Awaiting(unscheduled[1..], S + {unscheduled[0]})
    {}

    // Schedules every node off the critical path. The inner loop never skips a node, so that
    // one sweep over the list empties it; order are the nodes as they are scheduled.
    method ScheduleRest(ghost low: map<int, int>, S: set<int>, awaiting: seq<int>)
      returns (ghost sweeps: nat, ghost order: seq<int>)
      requires Ready() && WiresKnown() && IsLowerBound(g, edgeLat, low)
      requires Inv(edgeLat, low, maxLat, Now(), S, S) && Awaiting(awaiting, S) && MinKnown(S)
      modifies `nodeLat, `nodeMaxLat, `nodeMinLat, `fuDelay
      ensures Inv(edgeLat, low, maxLat, Now(), g.nodes.Keys, g.nodes.Keys)
      ensures sweeps <= 1 && order == awaiting
    {
      var scheduled, unscheduled := S, awaiting;
      sweeps, order := 0, [];
      while unscheduled != []
        invariant Scheduling(low, scheduled, unscheduled)
        invariant order + unscheduled == awaiting
        invariant sweeps == if order == [] then 0 else 1
        invariant order == [] || unscheduled == []
        decreases |unscheduled|
      {
        var i := 0;
        sweeps := sweeps + 1;
        while i < |unscheduled|
          invariant i == 0
          invariant Scheduling(low, scheduled, unscheduled)
          invariant order + unscheduled == awaiting
          decreases |unscheduled|
        {
          order := order + unscheduled[..1];
          i, scheduled, unscheduled := Visit(low, i, scheduled, unscheduled);
        }
      }
      assert Collections.Unfold(Collections.TheProgress);
      NoneAwaited(scheduled);
    }

    // The nodes of S are scheduled, and the list awaits it.
    ghost predicate Scheduling(low: map<int, int>, S: set<int>, unscheduled: seq<int>)
      requires Placed()
      reads this
    {
      forall k {:trigger Collections.Unfold(k)} | Collections.Unfold(k) && k == Collections.TheProgress ::
        Inv(edgeLat, low, maxLat, Now(), S, S) && Awaiting(unscheduled, S) && MinKnown(S)
    }

    lemma NoneAwaited(S: set<int>)
      requires Awaiting([], S) && S <= g.nodes.Keys
      ensures S == g.nodes.Keys
    {
      forall n | n in g.nodes
        ensures n in S
      {
        assert n !in [];
      }
    }

    method Visit(ghost low: map<int, int>, i: nat, S: set<int>, unscheduled: seq<int>)
      returns (i': int, S': set<int>, unscheduled': seq<int>)
      requires Ready() && WiresKnown() && IsLowerBound(g, edgeLat, low)
      requires Scheduling(low, S, unscheduled) && i == 0 < |unscheduled|
      modifies `nodeLat, `nodeMaxLat, `nodeMinLat, `fuDelay
      ensures i' == 0 && unscheduled' == unscheduled[1..]
      ensures Scheduling(low, S', unscheduled')
    {
      assert Collections.Unfold(Collections.TheProgress);
      HeadReady(unscheduled, S);
      i', S', unscheduled' := i, S, unscheduled;
      var fail := ScheduleNode(unscheduled[i], low, S);
      if fail {
        i' := i + 1;
      } else {
        S' := S + {unscheduled[i]};
        unscheduled' := unscheduled[..i] + unscheduled[i + 1..];
        assert unscheduled' == unscheduled[1..];
      }
    }

    // ----- violations

    // Edge id has got its delay cycles, and what it lacks is recorded.
    ghost predicate Settled(id: int)
      requires Placed()
      reads this`fuDelay, this`nodeLat, this`nodeMaxLat, this`edgeLat, this`edgeDelay, this`edgeVio
    {
      && id in g.edges && g.edges[id].dst in g.nodes
      && var used := Used(fuDelay, g.edges[id].dst).used;
      && g.edges[id].dstPort in used && 0 <= used[g.edges[id].dstPort]
      && id in edgeDelay && edgeDelay[id] == GapIn(edgeLat, Now(), id)
      && id in edgeVio && edgeVio[id] == edgeDelay[id] - used[g.edges[id].dstPort] && edgeVio[id] >= 0
    }

    ghost predicate Grows(before: map<int, FuDelay>, after: map<int, FuDelay>)
      requires Placed()
    {
      forall m, p | m in g.nodes && p in Used(before, m).used ::
        p in Used(after, m).used && Used(after, m).used[p] == Used(before, m).used[p]
    }

    lemma AssignedWithinGap(low: map<int, int>, id: int)
      requires Placed() && Inv(edgeLat, low, maxLat, Now(), g.nodes.Keys, g.nodes.Keys)
      requires id in g.edges && Enters(id, g.edges[id].dst)
      requires g.edges[id].dstPort in Used(fuDelay, g.edges[id].dst).used
      ensures 0 <= Used(fuDelay, g.edges[id].dst).used[g.edges[id].dstPort] <= GapIn(edgeLat, Now(), id)
    {
      assert Collections.Unfold(Collections.TheBudgets);
      assert BudgetOk(Now(), g.edges[id].dst) && ChargesOk(edgeLat, Now(), g.nodes.Keys, g.edges[id].dst);
    }

    // The delay cycles on edge id, handed out now if that has not happened yet.
    method AssignDelay(n: int, id: int, ghost low: map<int, int>) returns (assignedDelay: int)
      requires Placed() && OneEach() && Enters(id, n)
      requires Inv(edgeLat, low, maxLat, Now(), g.nodes.Keys, g.nodes.Keys)
      modifies `fuDelay, `nodeMinLat
      ensures Inv(edgeLat, low, maxLat, Now(), g.nodes.Keys, g.nodes.Keys)
      ensures g.edges[id].dstPort in Used(fuDelay, n).used && assignedDelay == Used(fuDelay, n).used[g.edges[id].dstPort]
      ensures Grows(old(fuDelay), fuDelay)
      ensures if g.edges[id].dstPort in Used(old(fuDelay), n).used then fuDelay == old(fuDelay)
              else Now() == Charge(edgeLat, old(Now()), n, id)
    {
      var d := if place[n] in fuDelay then fuDelay[place[n]] else FuDelay(0, map[]);
      if g.edges[id].dstPort !in d.used {
        ChargeKeeps(edgeLat, low, maxLat, Now(), g.nodes.Keys, n, id);
        ChargeGrows(Now(), n, id);
        ChargeEdge(n, id);
        assignedDelay := fuDelay[place[n]].used[g.edges[id].dstPort];
        RefreshMinLat(n);
      } else {
        assignedDelay := d.used[g.edges[id].dstPort];
      }
    }

    // Settles edge id. The assertion is the one the program makes at run time.
    method SettleEdge(n: int, id: int, ghost low: map<int, int>) returns (vio: int)
      requires Placed() && OneEach() && Enters(id, n)
      requires Inv(edgeLat, low, maxLat, Now(), g.nodes.Keys, g.nodes.Keys)
      modifies `fuDelay, `nodeMinLat, `edgeDelay, `edgeVio
      ensures Inv(edgeLat, low, maxLat, Now(), g.nodes.Keys, g.nodes.Keys)
      ensures Settled(id) && Grows(old(fuDelay), fuDelay)
      ensures edgeVio == old(edgeVio)[id := vio] && edgeDelay == old(edgeDelay)[id := GapIn(edgeLat, Now(), id)]
    {
      var requiredDelay := At(nodeMaxLat, n) - At(nodeLat, g.edges[id].src) - At(edgeLat, id);
      edgeDelay := edgeDelay[id := requiredDelay];
      var assignedDelay := AssignDelay(n, id, low);
      AssignedWithinGap(low, id);
      assert assignedDelay <= requiredDelay && assignedDelay >= 0;
      vio := if assignedDelay < requiredDelay then requiredDelay - assignedDelay else 0;
      edgeVio := edgeVio[id := vio];
    }

    lemma ChargeGrows(t: Timing, n: int, id: int)
      requires Placed() && OneEach() && n in g.nodes && id in g.edges
      requires g.edges[id].dstPort !in Used(t.fu, n).used
      ensures Grows(t.fu, Charge(edgeLat, t, n, id).fu)
    {}

    ghost predicate AllSettled(P: set<int>)
      requires Placed()
      reads this`fuDelay, this`nodeLat, this`nodeMaxLat, this`edgeLat, this`edgeDelay, this`edgeVio
    {
      forall id | id in P :: Settled(id)
    }

    method CountEdge(n: int, id: int, ghost low: map<int, int>, ghost P: set<int>, sum: int, worst: int)
      returns (sum': int, worst': int)
      requires Placed() && OneEach() && Enters(id, n) && id !in P
      requires Inv(edgeLat, low, maxLat, Now(), g.nodes.Keys, g.nodes.Keys)
      requires AllSettled(P) && Tally(edgeVio, P, vioEdges, sum, worst)
      modifies `fuDelay, `nodeMinLat, `edgeDelay, `edgeVio, `vioEdges
      ensures Inv(edgeLat, low, maxLat, Now(), g.nodes.Keys, g.nodes.Keys)
      ensures AllSettled(P + {id}) && Tally(edgeVio, P + {id}, vioEdges, sum', worst')
    {
      ghost var vioBefore := edgeVio;
      var vio := SettleEdge(n, id, low);
      TallyStep(vioBefore, P, vioEdges, sum, worst, id, vio);
      if vio > 0 {
        vioEdges := vioEdges + [id];
      }
      sum', worst' := sum + vio, Max(worst, vio);
    }

    // P holds the edges into the first i nodes of the order, and those into the next on ports not in rest.
    ghost predicate Reached(P: set<int>, i: nat, rest: set<int>) {
      && P <= g.edges.Keys
      && (forall id | id in g.edges :: id in P <==>
            (Pos(topo, g.edges[id].dst) < i || (Pos(topo, g.edges[id].dst) == i && g.edges[id].dstPort !in rest)))
    }

    // P holds the edges into the first i nodes of the order.
    ghost predicate Before(P: set<int>, i: nat) {
      && P <= g.edges.Keys
      && forall id | id in g.edges :: id in P <==> Pos(topo, g.edges[id].dst) < i
    }

    // Settles the edges into the i-th node of the order.
    method SettleNode(i: nat, ghost low: map<int, int>, ghost P: set<int>, sum: int, worst: int)
      returns (sum': int, worst': int, ghost P': set<int>)
      requires Ready() && i < |topo|
      requires Inv(edgeLat, low, maxLat, Now(), g.nodes.Keys, g.nodes.Keys)
      requires AllSettled(P) && Tally(edgeVio, P, vioEdges, sum, worst)
      requires Before(P, i)
      modifies `fuDelay, `nodeMinLat, `edgeDelay, `edgeVio, `vioEdges
      ensures Inv(edgeLat, low, maxLat, Now(), g.nodes.Keys, g.nodes.Keys)
      ensures AllSettled(P') && Tally(edgeVio, P', vioEdges, sum', worst')
      ensures Before(P', i + 1)
    {
      var n := topo[i];
      sum', worst', P' := sum, worst, P;
      var ports := g.nodes[n].inputEdges.Keys;
      ReachedFirst(P, i);
      while ports != {}
        invariant ports <= g.nodes[n].inputEdges.Keys
        invariant Inv(edgeLat, low, maxLat, Now(), g.nodes.Keys, g.nodes.Keys)
        invariant AllSettled(P') && Tally(edgeVio, P', vioEdges, sum', worst')
        invariant Reached(P', i, ports)
        decreases |ports|
      {
        var p := Collections.Pick(ports);
        var id := g.nodes[n].inputEdges[p];
        PortEnters(n, p);
        ReachedStep(P', i, ports, p);
        sum', worst' := CountEdge(n, id, low, P', sum', worst');
        P' := P' + {id};
        ports := ports - {p};
      }
    }

    lemma ReachedStep(P: set<int>, i: nat, ports: set<int>, p: int)
      requires Ready() && i < |topo| && Reached(P, i, ports)
      requires p in ports && p in g.nodes[topo[i]].inputEdges
      ensures g.nodes[topo[i]].inputEdges[p] !in P
      ensures Reached(P + {g.nodes[topo[i]].inputEdges[p]}, i, ports - {p})
    {
      Opened();
      PosUnique(topo, i);
      PortEnters(topo[i], p);
      forall id | id in g.edges && Pos(topo, g.edges[id].dst) == i && g.edges[id].dstPort == p
        ensures id == g.nodes[topo[i]].inputEdges[p]
      {
        EdgeEnters(id);
      }
    }

    lemma ReachedFirst(P: set<int>, i: nat)
      requires Ready() && i < |topo| && Before(P, i)
      ensures Reached(P, i, g.nodes[topo[i]].inputEdges.Keys)
    {
      Opened();
      forall id | id in g.edges && Pos(topo, g.edges[id].dst) == i
        ensures g.edges[id].dstPort in g.nodes[topo[i]].inputEdges
      {
        EdgeEnters(id);
      }
    }

    lemma BeforeAll(P: set<int>)
      requires Ready() && Before(P, |topo|)
      ensures P == g.edges.Keys
    {
      Opened();
      forall id | id in g.edges
        ensures id in P
      {
        EdgeEnters(id);
        assert g.edges[id].dst in topo;
      }
    }

    // Hands out the remaining delay cycles and records what every edge still lacks.
    method CalEdgeLatVio(ghost low: map<int, int>)
      requires Ready() && Inv(edgeLat, low, maxLat, Now(), g.nodes.Keys, g.nodes.Keys)
      modifies `fuDelay, `nodeMinLat, `edgeDelay, `edgeVio, `vioEdges, `totalViolation, `maxViolation
      ensures Inv(edgeLat, low, maxLat, Now(), g.nodes.Keys, g.nodes.Keys)
      ensures AllSettled(g.edges.Keys)
      ensures Tally(edgeVio, g.edges.Keys, vioEdges, totalViolation, maxViolation)
    {
      var dfgSumVio, dfgMaxVio := SettleAll(low);
      ghost var wire, top, t := edgeLat, maxLat, Now();
      totalViolation, maxViolation := dfgSumVio, dfgMaxVio;
      assert edgeLat == wire && maxLat == top && Now() == t;
      assert Inv(wire, low, top, t, g.nodes.Keys, g.nodes.Keys);
    }

    method SettleAll(ghost low: map<int, int>) returns (dfgSumVio: int, dfgMaxVio: int)
      requires Ready() && Inv(edgeLat, low, maxLat, Now(), g.nodes.Keys, g.nodes.Keys)
      modifies `fuDelay, `nodeMinLat, `edgeDelay, `edgeVio, `vioEdges
      ensures Inv(edgeLat, low, maxLat, Now(), g.nodes.Keys, g.nodes.Keys)
      ensures AllSettled(g.edges.Keys)
      ensures Tally(edgeVio, g.edges.Keys, vioEdges, dfgSumVio, dfgMaxVio)
    {
      vioEdges := [];
      dfgSumVio, dfgMaxVio := 0, 0;
      ghost var P := {};
      for i := 0 to |topo|
        invariant Inv(edgeLat, low, maxLat, Now(), g.nodes.Keys, g.nodes.Keys)
        invariant AllSettled(P) && Tally(edgeVio, P, vioEdges, dfgSumVio, dfgMaxVio)
        invariant Before(P, i)
      {
        dfgSumVio, dfgMaxVio, P := SettleNode(i, low, P, dfgSumVio, dfgMaxVio);
      }
      BeforeAll(P);
    }

    // ----- the pass as a whole

    // The cycles that the hardware adds to edge id.
    ghost function Assigned(id: int): int
      requires Placed()
      reads this`fuDelay
    {
      if id in g.edges && g.edges[id].dst in g.nodes
      then At(Used(fuDelay, g.edges[id].dst).used, g.edges[id].dstPort) else 0
    }

    // Every operand arrives just when the node that consumes it starts.
    ghost predicate Synchronised()
      requires Placed()
      reads this`fuDelay, this`nodeLat, this`edgeLat
    {
      forall id | id in g.edges && g.edges[id].dst in g.nodes ::
        At(nodeLat, g.edges[id].src) + At(edgeLat, id) + Assigned(id) == At(nodeLat, g.edges[id].dst) - OpLat(g, g.edges[id].dst)
    }

    // The cycles added to the operands of n.
    ghost function OperandDelays(n: int): map<int, int>
      requires Placed() && n in g.nodes
      reads this`fuDelay
    {
      map p | p in g.nodes[n].inputEdges :: Assigned(g.nodes[n].inputEdges[p])
    }

    ghost predicate WiresExact()
      reads this`edgeLat
    {
      forall id | id in links :: id in edgeLat && edgeLat[id] == RegisteredHops(adg, links[id])
    }

    // No node is earlier than its lower bound, and none later than the largest bound.
    ghost predicate LatenciesBounded(low: map<int, int>)
      reads this`nodeLat, this`maxLat
    {
      forall n | n in g.nodes :: At(low, n) <= At(nodeLat, n) <= maxLat
    }

    // What edge id needs, what it gets and what it lacks.
    ghost predicate GapRecorded(id: int)
      requires Placed()
      reads this`fuDelay, this`nodeLat, this`edgeLat, this`edgeDelay, this`edgeVio
    {
      && id in g.edges && g.edges[id].dst in g.nodes && var e := g.edges[id];
      && At(edgeDelay, id) == At(nodeLat, e.dst) - OpLat(g, e.dst) - At(edgeLat, id) - At(nodeLat, e.src)
      && 0 <= Assigned(id) <= At(edgeDelay, id)
      && At(edgeVio, id) == At(edgeDelay, id) - Assigned(id)
    }

    ghost predicate GapsRecorded()
      requires Placed()
      reads this`fuDelay, this`nodeLat, this`edgeLat, this`edgeDelay, this`edgeVio
    {
      forall id | id in g.edges :: GapRecorded(id)
    }

    // The delay cycles of the operands of a node stay within what its unit has to give.
    ghost predicate WithinCapacity()
      requires Placed()
      reads this`fuDelay
    {
      forall n | n in g.nodes :: Collections.Sum(OperandDelays(n)) <= Capacity(n)
    }

    // The delay cycles of the unit of n are enough for f for each of its operands.
    ghost predicate EnoughFor(n: int, f: nat)
      requires Placed()
    {
      n in g.nodes && adg.nodes[place[n]].numOperands >= 2 && f * |g.nodes[n].inputs| <= adg.nodes[place[n]].maxDelay
    }

    // Every operand gets the cycles that it needs, or as many as all operands of its node can have.
    ghost predicate SharesGiven()
      requires Placed()
      reads this`fuDelay, this`edgeDelay
    {
      forall id, f: nat {:trigger Assigned(id), EnoughFor(g.edges[id].dst, f)}
        | id in g.edges && EnoughFor(g.edges[id].dst, f) :: Assigned(id) >= Min(At(edgeDelay, id), f)
    }

    // An edge that needs no more than that has no violation.
    ghost predicate NoShortage()
      requires Placed()
      reads this`edgeDelay, this`edgeVio
    {
      forall id | id in g.edges && At(edgeDelay, id) >= 0 && EnoughFor(g.edges[id].dst, At(edgeDelay, id)) :: At(edgeVio, id) == 0
    }

    method LatencySchedule() returns (ghost sweeps: nat)
      requires Ready()
      modifies this
      ensures WiresExact()
      ensures IsLowerBound(g, edgeLat, asap) && LatenciesBounded(asap)
      ensures GapsRecorded() && WithinCapacity() && SharesGiven() && NoShortage()
      ensures Tally(edgeVio, g.edges.Keys, vioEdges, totalViolation, maxViolation)
      ensures totalViolation == 0 <==> Synchronised()
      ensures sweeps <= 1
    {
      CalLowerBounds();
      ghost var path, order;
      var S, unscheduled;
      S, unscheduled, path := WalkCriticalPath();
      sweeps, order := ScheduleRest(asap, S, unscheduled);
      CalEdgeLatVio(asap);
      Wrapup(asap);
    }

    method CalLowerBounds()
      requires Ready()
      modifies this
      ensures WiresExact() && WiresKnown() && fuDelay == map[] && asap == nodeLat
      ensures IsLowerBound(g, edgeLat, asap)
      ensures forall n | n in g.nodes :: At(nodeLat, n) <= maxLat
      ensures maxLatNodeId in g.nodes && At(nodeLat, maxLatNodeId) == maxLat
    {
      fuDelay := map[];
      CalEdgeRouteLat();
      LatencyBound();
      asap := nodeLat;
    }

    lemma Wrapup(low: map<int, int>)
      requires Ready() && Inv(edgeLat, low, maxLat, Now(), g.nodes.Keys, g.nodes.Keys)
      requires AllSettled(g.edges.Keys)
      requires Tally(edgeVio, g.edges.Keys, vioEdges, totalViolation, maxViolation)
      ensures LatenciesBounded(low) && GapsRecorded() && WithinCapacity() && SharesGiven() && NoShortage()
      ensures totalViolation == 0 <==> Synchronised()
    {
      AllRecorded(low);
      AllWithin(low);
      AllShared(low);
      NoneShort();
      TallyZero(edgeVio, g.edges.Keys, vioEdges, totalViolation, maxViolation);
      ZeroMeansSynchronised();
    }

    lemma AllRecorded(low: map<int, int>)
      requires Ready() && Inv(edgeLat, low, maxLat, Now(), g.nodes.Keys, g.nodes.Keys) && AllSettled(g.edges.Keys)
      ensures LatenciesBounded(low) && GapsRecorded()
    {
      assert Collections.Unfold(Collections.TheBudgets);
      forall id | id in g.edges
        ensures GapRecorded(id)
      {
        assert Settled(id);
      }
    }

    lemma AllWithin(low: map<int, int>)
      requires Ready() && Inv(edgeLat, low, maxLat, Now(), g.nodes.Keys, g.nodes.Keys) && AllSettled(g.edges.Keys)
      ensures WithinCapacity()
    {
      assert Collections.Unfold(Collections.TheBudgets);
      forall n | n in g.nodes
        ensures Collections.Sum(OperandDelays(n)) <= Capacity(n)
      {
        DelaysWithinCapacity(n);
      }
    }

    lemma NoneShort()
      requires Placed() && GapsRecorded() && SharesGiven()
      ensures NoShortage()
    {
      forall id | id in g.edges && At(edgeDelay, id) >= 0 && EnoughFor(g.edges[id].dst, At(edgeDelay, id))
        ensures At(edgeVio, id) == 0
      {
        assert GapRecorded(id) && Assigned(id) >= Min(At(edgeDelay, id), At(edgeDelay, id));
      }
    }

    lemma AllShared(low: map<int, int>)
      requires Ready() && Inv(edgeLat, low, maxLat, Now(), g.nodes.Keys, g.nodes.Keys) && AllSettled(g.edges.Keys)
      ensures SharesGiven()
    {
      assert SharesKept(edgeLat, Now(), g.nodes.Keys) by {
        assert Collections.Unfold(Collections.TheBudgets);
      }
      forall id, f: nat | id in g.edges && EnoughFor(g.edges[id].dst, f)
        ensures Assigned(id) >= Min(At(edgeDelay, id), f)
      {
        var n := g.edges[id].dst;
        EdgeEnters(id);
        InputsMatch(n);
        TimesIsProduct(|g.nodes[n].inputs|, f);
        assert f * |g.nodes[n].inputs| == |g.nodes[n].inputs| * f;
        assert SharedOut(edgeLat, Now(), n) && Settled(id);
        OnePort(g.nodes[n].inputEdges, g.edges[id].dstPort);
        assert AllCanHave(n, f) && HaveShare(edgeLat, Now(), n, f);
      }
    }

    lemma InputsMatch(n: int)
      requires Ready() && n in g.nodes
      ensures |g.nodes[n].inputs| == |g.nodes[n].inputEdges|
    {
      Opened();
      assert InputsBacked(g, n);
      assert |g.nodes[n].inputs.Keys| == |g.nodes[n].inputEdges.Keys|;
    }

    lemma ZeroMeansSynchronised()
      requires Placed() && GapsRecorded()
      ensures Synchronised() <==> forall id | id in g.edges :: At(edgeVio, id) == 0
    {}

    lemma DelaysWithinCapacity(n: int)
      requires Ready() && AllSettled(g.edges.Keys) && n in g.nodes && BudgetOk(Now(), n)
      ensures Collections.Sum(OperandDelays(n)) <= Capacity(n)
    {
      var used := Used(fuDelay, n).used;
      forall p | p in g.nodes[n].inputEdges
        ensures p in used && OperandDelays(n)[p] == used[p]
      {
        PortEnters(n, p);
        assert Settled(g.nodes[n].inputEdges[p]);
      }
      Collections.SumPart(OperandDelays(n), used);
    }

    // The latency of every edge, wire registers and delay cycles together.
    ghost function Delayed(): map<int, int>
      requires Placed()
      reads this`fuDelay, this`edgeLat
    {
      map id | id in g.edges :: At(edgeLat, id) + Assigned(id)
    }

    // Synchronised data: all paths between two nodes take the same number of cycles.
    lemma ReconvergentPathsBalance(p: seq<int>, q: seq<int>, n: int)
      requires Placed() && Synchronised()
      requires PathTo(g, p, n) && PathTo(g, q, n) && Start(g, p, n) == Start(g, q, n)
      ensures PathLatency(g, Delayed(), p, n) == PathLatency(g, Delayed(), q, n)
    {
      var total := Delayed();
      forall id | id in g.edges && g.edges[id].dst in g.nodes
        ensures At(nodeLat, g.edges[id].src) + At(total, id) == At(nodeLat, g.edges[id].dst) - OpLat(g, g.edges[id].dst)
      {
        assert At(total, id) == At(edgeLat, id) + Assigned(id);
      }
      PathOnTime(g, total, nodeLat, p, n);
      PathOnTime(g, total, nodeLat, q, n);
    }
  }
}
