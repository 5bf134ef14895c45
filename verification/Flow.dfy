/** One round of the mapper from end to end: sort the graph, place and route it, synchronise
    it; and what the annealing drivers and the insertion of pass nodes rely on. */
module Flow {
  import opened Dfg
  import Adg
  import Annealing
  import Collections
  import DataFlow
  import LatencyScheduler
  import Mapping
  import PassNodes
  import Routing
  import Runs
  import Sync
  import Tries

  // Every node is an output, or feeds one through other nodes.
  ghost predicate AllUsed(dfg: DataFlow.DataFlowGraph)
    requires dfg.ioNodes <= dfg.nodes.Keys
    reads dfg
  {
    forall n | n in dfg.nodes :: DataFlow.Reaches(dfg.G(), n, dfg.GetOutNodes())
  }

  // The mapping as the synchronisation wants it: every node on a unit of its own, every edge
  // routed, and an order that lists every node behind its inputs.
  lemma SuccessIsReady(m: Mapping.Mapping, s: LatencyScheduler.Scheduler)
    requires m.Valid() && m.Success() && m.g.nodes != map[]
    requires s.adg == m.adg && s.g == m.g && s.place == m.placed && s.links == m.links
    requires WellFormed(m.g) && IsTopological(m.g, s.topo) && Covers(m.g, s.topo)
    ensures s.Ready()
  {
    MappedIsPlaced(m, s);
    assert s.topo != [] by {
      var n := Collections.AnyOf(m.g.nodes.Keys);
      assert n in s.topo;
    }
  }

  lemma MappedIsPlaced(m: Mapping.Mapping, s: LatencyScheduler.Scheduler)
    requires m.Valid() && m.Success()
    requires s.adg == m.adg && s.g == m.g && s.place == m.placed && s.links == m.links
    ensures s.Placed() && s.OneEach() && s.links.Keys == s.g.edges.Keys
  {
    m.SuccessRoutesAll();
    assert forall e :: e in s.links.Keys <==> e in s.g.edges.Keys;
  }

  // ----- what is kept of a round

  // The mapping as the annealing drivers copy and compare it.
  datatype Snapshot = Snapshot(
    g: Graph,
    placed: map<int, int>,
    links: map<int, seq<Adg.Link>>,
    nodeLat: map<int, int>,
    edgeLat: map<int, int>,
    fuDelay: map<int, Sync.FuDelay>,
    vioEdges: seq<int>,
    totalViolation: nat,
    complete: bool,
    depCost: int)

  function ViewOf(x: Snapshot): Runs.View {
    Runs.View(x.totalViolation, |x.vioEdges|, x.complete, x.depCost)
  }

  // Every node is on a unit of its own, and every edge has a whole route.
  ghost predicate PlacedAndRouted(adg: Adg.Array, x: Snapshot) {
    && (forall n | n in x.g.nodes :: n in x.placed && Routing.IsFu(adg, x.placed[n]))
    && (forall n, m | n in x.g.nodes && m in x.g.nodes && n != m :: x.placed[n] != x.placed[m])
    && (forall e | e in x.g.edges :: e in x.links && Routing.IsRoute(Routing.Context(adg, x.g, x.placed), x.g.edges[e], x.links[e]))
  }

  // The delay cycles that edge id gets.
  ghost function DelayOf(x: Snapshot, id: int): int {
    if id in x.g.edges && x.g.edges[id].dst in x.placed && x.placed[x.g.edges[id].dst] in x.fuDelay
    then Sync.At(x.fuDelay[x.placed[x.g.edges[id].dst]].used, x.g.edges[id].dstPort) else 0
  }

  // Every operand arrives just when its node starts.
  ghost predicate InTime(x: Snapshot) {
    forall id | id in x.g.edges && x.g.edges[id].dst in x.g.nodes ::
      Sync.At(x.nodeLat, x.g.edges[id].src) + Sync.At(x.edgeLat, id) + DelayOf(x, id)
      == Sync.At(x.nodeLat, x.g.edges[id].dst) - Sync.OpLat(x.g, x.g.edges[id].dst)
  }

  // What a round leaves when it could place all nodes.
  ghost predicate IsOutcome(adg: Adg.Array, x: Snapshot) {
    && x.complete && PlacedAndRouted(adg, x)
    && (x.totalViolation == 0 <==> InTime(x))
    && (x.totalViolation == 0 <==> x.vioEdges == [])
  }

  // The rounds are those of the mapper: they leave the graph as it is, and an outcome when all
  // nodes are placed. Pass nodes keep what the graph computes.
  ghost predicate RealRounds(adg: Adg.Array, o: Runs.Oracle<Snapshot>) {
    && (forall t, x :: o.round(t, x).1.g == x.g)
    && (forall t, x :: o.round(t, x).0 ==> IsOutcome(adg, o.round(t, x).1))
    && (forall t, x :: o.passNodes(t, x).0 && WellFormed(x.g) ==> PassNodes.Refines(x.g, o.passNodes(t, x).1.g))
  }

  ghost predicate SameProgram(g: Graph, x: Snapshot) { PassNodes.Refines(g, x.g) }

  lemma RoundsKeepProgram(adg: Adg.Array, o: Runs.Oracle<Snapshot>, g: Graph)
    requires RealRounds(adg, o)
    ensures Annealing.MapperSA<Snapshot>.Keeps(o, x => SameProgram(g, x))
  {
    forall t, x | SameProgram(g, x) && o.passNodes(t, x).0
      ensures SameProgram(g, o.passNodes(t, x).1)
    {
      PassNodes.RefinesOn(g, x.g, o.passNodes(t, x).1.g);
    }
  }

  // A round has solved the problem just when it has placed all nodes, and all operands arrive in time.
  lemma SolvesInTime(adg: Adg.Array, t: Tries.Try<Snapshot>, r: Runs.Round<Snapshot>)
    requires RealRounds(adg, t.s.o) && Runs.RunOk(t.s, t.run, t.phases) && t.s.view == ViewOf && r in t.run
    ensures Runs.Solves(t.s, r) <==> r.placed && InTime(r.next)
  {
    var i :| 0 <= i < |t.run| && t.run[i] == r;
    assert Runs.Asked(t.s, i, t.run[i]);
  }

  lemma SucceedsInTime(adg: Adg.Array, k: Tries.Task<Snapshot>, tries: seq<Tries.Try<Snapshot>>, succeed: bool, best: Snapshot)
    requires RealRounds(adg, k.o) && k.view == ViewOf && Tries.Outcome(k, tries, succeed, best)
    ensures succeed <==> exists i, r :: 0 <= i < |tries| && r in tries[i].run && r.placed && InTime(r.next)
  {
    Tries.SucceedsIfAnySolves(k, tries, succeed, best);
    forall i, r | 0 <= i < |tries| && r in tries[i].run
      ensures Runs.Solves(tries[i].s, r) <==> r.placed && InTime(r.next)
    {
      assert Tries.TryOk(k, tries, i, tries[i]);
      SolvesInTime(adg, tries[i], r);
    }
  }

  // The driver over real rounds: it succeeds just when one of its rounds places all nodes with all
  // operands in time. The mapping that it returns is placed and routed as a whole, has the least
  // objective of all that were found, and its graph computes what the given one does.
  method Execute(adg: Adg.Array, empty: Snapshot, o: Runs.Oracle<Snapshot>, maxIters: nat, maxItersNoImprv: nat)
    returns (succeed: bool, best: Snapshot, ghost tries: seq<Tries.Try<Snapshot>>)
    requires RealRounds(adg, o) && WellFormed(empty.g)
    ensures Tries.Outcome(Tries.Task(ViewOf, o, 0, empty, maxIters, maxItersNoImprv), tries, succeed, best)
    ensures succeed <==> exists i, r :: 0 <= i < |tries| && r in tries[i].run && r.placed && InTime(r.next)
    ensures succeed ==> IsOutcome(adg, best) && InTime(best) && PassNodes.Refines(empty.g, best.g)
  {
    var mapper := new Annealing.MapperSA(ViewOf, empty);
    assert mapper.Sound(o);
    ghost var keep := (x: Snapshot) => SameProgram(empty.g, x);
    RoundsKeepProgram(adg, o, empty.g);
    PassNodes.MeaningReflexive(empty.g);
    succeed, tries := mapper.PnrSyncOpt(maxIters, empty, maxItersNoImprv, o, keep);
    best := mapper.mapping;
    SucceedsInTime(adg, Tries.Task(ViewOf, o, 0, empty, maxIters, maxItersNoImprv), tries, succeed, best);
    assert succeed ==> keep(best);
  }

  // Synchronisation leaves a sound view: the sum is zero just when no edge is listed, and what
  // is listed are edges of the graph, each once.
  lemma ScheduledIsSound(m: Mapping.Mapping, s: LatencyScheduler.Scheduler)
    requires Sync.Tally(s.edgeVio, s.g.edges.Keys, s.vioEdges, s.totalViolation, s.maxViolation) && s.g == m.g && m.Success()
    ensures s.totalViolation >= 0
    ensures s.totalViolation == 0 <==> s.vioEdges == []
    ensures PassNodes.EdgesListed(m.g, s.vioEdges) && PassNodes.Known(s.vioEdges, s.edgeVio)
  {
    Sync.TallyZero(s.edgeVio, s.g.edges.Keys, s.vioEdges, s.totalViolation, s.maxViolation);
    Sync.TallyNonNeg(s.edgeVio, s.g.edges.Keys, s.vioEdges, s.totalViolation, s.maxViolation);
  }

  // ----- one round

  // The snapshot shows the mapping and the latencies.
  ghost predicate Shows(x: Snapshot, m: Mapping.Mapping, s: LatencyScheduler.Scheduler)
    reads m, s
  {
    && x.g == m.g && x.placed == m.placed && x.links == m.links
    && x.nodeLat == s.nodeLat && x.edgeLat == s.edgeLat && x.fuDelay == s.fuDelay
    && x.vioEdges == s.vioEdges && x.totalViolation == s.totalViolation && x.complete == m.Success()
  }

  lemma MappedIsWhole(m: Mapping.Mapping, x: Snapshot)
    requires m.Valid() && m.Success() && x.g == m.g && x.placed == m.placed && x.links == m.links
    ensures PlacedAndRouted(m.adg, x)
  {
    m.SuccessRoutesAll();
  }

  lemma ShownInTime(m: Mapping.Mapping, s: LatencyScheduler.Scheduler, x: Snapshot)
    requires Shows(x, m, s) && s.g == m.g && s.place == m.placed && s.Placed()
    ensures InTime(x) <==> s.Synchronised()
  {
    forall id | id in x.g.edges && x.g.edges[id].dst in x.g.nodes
      ensures DelayOf(x, id) == s.Assigned(id)
    {}
  }

  // Synchronises a whole mapping, and takes the snapshot.
  method Synchronise(m: Mapping.Mapping, topo: seq<int>) returns (s: LatencyScheduler.Scheduler, x: Snapshot)
    requires m.Valid() && m.Success() && m.g.nodes != map[]
    requires WellFormed(m.g) && IsTopological(m.g, topo) && Covers(m.g, topo)
    ensures fresh(s) && s.g == m.g && s.place == m.placed && s.links == m.links
    ensures s.Placed() && s.WithinCapacity() && s.SharesGiven() && s.NoShortage() && Sync.IsLowerBound(s.g, s.edgeLat, s.asap) && s.LatenciesBounded(s.asap)
    ensures PassNodes.EdgesListed(m.g, s.vioEdges) && PassNodes.Known(s.vioEdges, s.edgeVio)
    ensures Shows(x, m, s) && IsOutcome(m.adg, x)
  {
    s := new LatencyScheduler.Scheduler(m.adg, m.g, topo, m.placed, m.links);
    SuccessIsReady(m, s);
    ghost var sweeps := s.LatencySchedule();
    ScheduledIsSound(m, s);
    x := Snapshot(m.g, m.placed, m.links, s.nodeLat, s.edgeLat, s.fuDelay, s.vioEdges, s.totalViolation, true, 0);
    MappedIsWhole(m, x);
    ShownInTime(m, s, x);
  }

  // Removes some nodes, places and routes all that are not placed in the given order, and
  // synchronises them. When all could be placed, the outcome is one as the drivers rely on; when
  // not, there is a node for which all candidate units are blocked.
  method PnrRound(dfg: DataFlow.DataFlowGraph, m: Mapping.Mapping, chosen: set<int>, order: seq<int>)
    returns (placed: bool, s: LatencyScheduler.Scheduler?, x: Snapshot)
    requires WellFormed(dfg.G()) && Acyclic(dfg.G()) && AllUsed(dfg) && dfg.nodes != map[]
    requires m.Valid() && m.g == dfg.G() && Covers(m.g, order) && forall i | 0 <= i < |order| :: order[i] in m.g.nodes
    modifies m, dfg`topoNodes
    ensures m.Valid() && (placed <==> m.Success()) && (placed ==> s != null && fresh(s))
    ensures !placed ==> exists n :: n in m.g.nodes && n !in m.placed && m.NoPlace(m.Now(), n, m.placed)
    ensures placed ==> s.g == m.g && s.place == m.placed && s.links == m.links
    ensures placed ==> Shows(x, m, s) && IsOutcome(m.adg, x)
    ensures placed ==> s.Placed() && s.WithinCapacity() && s.SharesGiven() && s.NoShortage() && Sync.IsLowerBound(s.g, s.edgeLat, s.asap) && s.LatenciesBounded(s.asap)
    ensures placed ==> PassNodes.EdgesListed(m.g, s.vioEdges) && PassNodes.Known(s.vioEdges, s.edgeVio)
  {
    dfg.TopoSortNodes();
    m.UnmapSome(chosen);
    placed := m.IncrPnR(order);
    if placed {
      s, x := Synchronise(m, dfg.topoNodes);
    } else {
      s, x := null, Snapshot(m.g, m.placed, m.links, map[], map[], map[], [], 0, false, 0);
    }
  }
}
