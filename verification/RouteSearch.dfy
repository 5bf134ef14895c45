/** The router: a breadth-first search from the destination of an edge backwards to its
    source, or to a wire that already carries the same net. */
module RouteSearch {
  import opened Dfg
  import opened Adg
  import opened Routing
  import Collections

  // An out port of a node; port -1 stands for the destination, where the search starts.
  datatype Spot = Spot(node: int, port: int)

  // How a spot was reached: it drives inPort of the node of dst.
  datatype Step = Step(dst: Spot, inPort: int)

  // Route edge e from unit src to one of the in ports range of unit dst.
  datatype Query = Query(c: Context, s: State, e: int, src: int, dst: int, range: set<int>)

  function Root(q: Query): Spot { Spot(q.dst, -1) }

  // ----- what the search explores

  // Only the net of the edge uses the in port.
  predicate InputFree(q: Query, b: int, i: int) {
    forall x | x in PassOf(q.s, b) :: x.srcPort == i ==> SameNet(q.c.g, q.e, x.edge)
  }

  ghost predicate Selectable(q: Query, t: Spot, i: int) {
    if t.port == -1 then t == Root(q) && i in q.range
    else IsGib(q.c.adg, t.node) && i in q.c.adg.nodes[t.node].InsOf(t.port) && InputFree(q, t.node, i)
  }

  // u drives in port i of t, and the edge may come that way.
  ghost predicate Hop(q: Query, t: Spot, i: int, u: Spot) {
    && Selectable(q, t, i)
    && t.node in q.c.adg.nodes && i in q.c.adg.nodes[t.node].inputs
    && q.c.adg.nodes[t.node].inputs[i] == (u.node, u.port)
  }

  predicate AtSource(q: Query, t: Spot)
    requires q.e in q.c.g.edges
  {
    t == Spot(q.src, q.c.g.edges[q.e].srcPort)
  }

  // A box output that carries the net already.
  ghost predicate OnNet(q: Query, t: Spot) {
    IsGib(q.c.adg, t.node) && exists x :: x in PassOf(q.s, t.node) && x.dstPort == t.port && SameNet(q.c.g, q.e, x.edge)
  }

  ghost predicate Goal(q: Query, t: Spot)
    requires q.e in q.c.g.edges
  {
    AtSource(q, t) || OnNet(q, t)
  }

  // A box output that no edge uses.
  ghost predicate Open(q: Query, t: Spot) {
    IsGib(q.c.adg, t.node) && !SomeOut(PassOf(q.s, t.node), t.port)
  }

  // A way back from the destination: every spot but the first and the last is an unused box output.
  ghost predicate Trail(q: Query, spots: seq<Spot>, ins: seq<int>) {
    && |spots| == |ins| + 1 && spots[0] == Root(q)
    && (forall k {:trigger ins[k]} | 0 <= k < |ins| :: Hop(q, spots[k], ins[k], spots[k + 1]))
    && (forall k {:trigger spots[k]} | 0 < k < |ins| :: Open(q, spots[k]))
  }

  ghost predicate GoalTrail(q: Query, spots: seq<Spot>, ins: seq<int>)
    requires q.e in q.c.g.edges
  {
    Trail(q, spots, ins) && ins != [] && Goal(q, spots[|ins|])
  }

  // What the callers of the search see to.
  ghost predicate QueryOk(q: Query) {
    && Inv(q.c, q.s) && q.e in q.c.g.edges && q.e !in q.s.links
    && IsFu(q.c.adg, q.src) && IsFu(q.c.adg, q.dst) && q.src != q.dst
    && (forall i | i in q.range :: i in q.c.adg.nodes[q.dst].inputs)
  }

  // ----- the two tests on the routing state

  // Whether e may pass box b from in port i to out port o.
  method TryPass(q: Query, b: int, i: int, o: int) returns (ok: bool)
    requires QueryOk(q) && IsGib(q.c.adg, b)
    requires i in q.c.adg.nodes[b].InsOf(o) && Open(q, Spot(b, o))
    ensures ok <==> InputFree(q, b, i)
  {
    var gib := q.c.adg.nodes[b];
    assert BoxOk(q.c, q.s, b);
    if b in q.s.attr {
      var pass := q.s.attr[b].pass;
      var routeSrc, routeDst, hasSame := i, o, false;
      for k := 0 to |pass|
        invariant forall j | 0 <= j < k && pass[j].srcPort == i :: SameNet(q.c.g, q.e, pass[j].edge)
        invariant forall j | 0 <= j < k :: pass[j].dstPort != o
        invariant routeSrc == i
        invariant hasSame <==> SomeIn(pass[..k], i)
      {
        var x := pass[k];
        assert x in PassOf(q.s, b);
        if (x.srcPort == i || x.dstPort == o) && !SameNet(q.c.g, q.e, x.edge) {
          return false;
        } else if x.srcPort == i || x.dstPort == o {
          routeSrc, routeDst, hasSame := x.srcPort, x.dstPort, true;
        }
        assert pass[..k + 1] == pass[..k] + [x];
      }
      assert pass[..|pass|] == pass;
      if i !in gib.InsOf(o) {
        return false;
      } else if OutUsed(q.s, b, o) && (!hasSame || routeSrc != i || routeDst != o) {
        return false;
      } else if InUsed(q.s, b, i) && (!hasSame || routeSrc != i) {
        return false;
      }
      return true;
    } else {
      ok := exists out | out in gib.out2ins :: gib.out2ins[out] != {};
    }
  }

  // Edge e0 of the same net passes the box output t.
  ghost predicate CarriedBy(q: Query, t: Spot, e0: int) {
    IsGib(q.c.adg, t.node) && SameNet(q.c.g, q.e, e0) && exists p :: Pass(p, t.port, e0) in PassOf(q.s, t.node)
  }

  datatype Scan = Unused | Conflict | Same(edge: int)

  // Who uses out port o of box b: no edge, one of another net, or one of the same net.
  method ScanOutput(q: Query, t: Spot) returns (r: Scan)
    requires QueryOk(q) && IsGib(q.c.adg, t.node)
    ensures r.Unused? ==> Open(q, t)
    ensures r.Conflict? ==> !Open(q, t) && !OnNet(q, t)
    ensures r.Same? ==> OnNet(q, t) && CarriedBy(q, t, r.edge)
  {
    assert BoxOk(q.c, q.s, t.node);
    r := Unused;
    if OutUsed(q.s, t.node, t.port) {
      var pass := q.s.attr[t.node].pass;
      for k := 0 to |pass|
        invariant forall j | 0 <= j < k :: pass[j].dstPort != t.port
      {
        var x := pass[k];
        assert x in PassOf(q.s, t.node);
        if x.dstPort == t.port && !SameNet(q.c.g, q.e, x.edge) {
          return Conflict;
        } else if x.dstPort == t.port {
          assert Pass(x.srcPort, t.port, x.edge) == x;
          return Same(x.edge);
        }
      }
    }
  }

  // ----- the search

  // Every spot on an input of the array: what the search can visit.
  ghost function AllSpots(adg: Array): set<Spot> {
    set n, i | n in adg.nodes && i in adg.nodes[n].inputs ::
      Spot(adg.nodes[n].inputs[i].0, adg.nodes[n].inputs[i].1)
  }

  // Every visited spot is an unused box output, one step further from the root than the spot
  // it was reached from.
  ghost predicate Tree(q: Query, visited: map<Spot, Step>, dist: map<Spot, nat>) {
    && dist.Keys == visited.Keys + {Root(q)} && Root(q) !in visited && dist[Root(q)] == 0
    && visited.Keys <= AllSpots(q.c.adg)
    && forall t {:trigger Linked(q, visited, dist, t)} | t in visited :: Linked(q, visited, dist, t)
  }

  ghost predicate Linked(q: Query, visited: map<Spot, Step>, dist: map<Spot, nat>, t: Spot)
    requires t in visited
  {
    && Open(q, t) && t in dist && visited[t].dst in dist && dist[t] == dist[visited[t].dst] + 1
    && Hop(q, visited[t].dst, visited[t].inPort, t)
  }

  lemma TreeGrows(q: Query, visited: map<Spot, Step>, dist: map<Spot, nat>, t: Spot, i: int, u: Spot)
    requires IsFu(q.c.adg, q.dst) && Tree(q, visited, dist) && t in dist && Open(q, u) && Hop(q, t, i, u)
    requires u !in visited && u in AllSpots(q.c.adg)
    ensures Tree(q, visited[u := Step(t, i)], dist[u := dist[t] + 1])
  {
    assert u != Root(q);
    var visited', dist' := visited[u := Step(t, i)], dist[u := dist[t] + 1];
    forall w | w in visited'
      ensures Linked(q, visited', dist', w)
    {
      assert w != u ==> Linked(q, visited, dist, w);
    }
  }

  // What drives port i of t is no goal, and is visited if the edge can go on there.
  ghost predicate ExpandedAt(q: Query, dist: map<Spot, nat>, t: Spot, i: int)
    requires q.e in q.c.g.edges && t in dist
  {
    forall u {:trigger Hop(q, t, i, u)} | Hop(q, t, i, u) :: !Goal(q, u) && (Open(q, u) ==> u in dist && dist[u] <= dist[t] + 1)
  }

  ghost predicate Expanded(q: Query, dist: map<Spot, nat>, t: Spot)
    requires q.e in q.c.g.edges && t in dist
  {
    forall i :: ExpandedAt(q, dist, t, i)
  }

  // The queue holds visited spots in order of distance, over at most two layers from d on.
  ghost predicate Queued(dist: map<Spot, nat>, queue: seq<Spot>, d: nat) {
    && (forall k | 0 <= k < |queue| :: queue[k] in dist && d <= dist[queue[k]] <= d + 1)
    && (forall j, k | 0 <= j < k < |queue| :: dist[queue[j]] <= dist[queue[k]])
  }

  // Spots neither queued nor in hand are expanded, and lie no further than d.
  ghost predicate Settled(q: Query, dist: map<Spot, nat>, queue: seq<Spot>, hand: set<Spot>, d: nat)
    requires q.e in q.c.g.edges
  {
    forall t | t in dist && t !in queue && t !in hand :: Expanded(q, dist, t) && dist[t] <= d
  }

  lemma Growing(q: Query, dist: map<Spot, nat>, t: Spot, u: Spot, d: nat, i: int)
    requires q.e in q.c.g.edges && t in dist && u !in dist && ExpandedAt(q, dist, t, i)
    ensures ExpandedAt(q, dist[u := d], t, i)
  {}

  lemma SettledGrows(q: Query, dist: map<Spot, nat>, queue: seq<Spot>, hand: set<Spot>, d: nat, u: Spot)
    requires q.e in q.c.g.edges && u !in dist && Settled(q, dist, queue, hand, d)
    ensures Settled(q, dist[u := d + 1], queue + [u], hand, d)
  {
    var dist' := dist[u := d + 1];
    assert u in queue + [u];
    forall t | t in dist' && t !in queue + [u] && t !in hand
      ensures Expanded(q, dist', t) && dist'[t] <= d
    {
      assert t in dist && t !in queue;
      assert Expanded(q, dist, t);
      forall i
        ensures ExpandedAt(q, dist', t, i)
      {
        assert ExpandedAt(q, dist, t, i);
        Growing(q, dist, t, u, d + 1, i);
      }
    }
  }

  // The in ports through which the edge may come to t.
  method Candidates(q: Query, t: Spot) returns (ports: set<int>)
    requires QueryOk(q) && (t == Root(q) || Open(q, t)) && (t.port == -1 ==> t == Root(q))
    ensures forall i :: i in ports <==> Selectable(q, t, i)
  {
    if t.port == -1 {
      ports := q.range;
    } else {
      ports := {};
      var gib := q.c.adg.nodes[t.node];
      var todo := gib.InsOf(t.port);
      while todo != {}
        invariant todo <= gib.InsOf(t.port)
        invariant forall i :: i in ports <==> i in gib.InsOf(t.port) && i !in todo && InputFree(q, t.node, i)
        decreases |todo|
      {
        var i := Collections.Pick(todo);
        var ok := TryPass(q, t.node, i, t.port);
        if ok {
          ports := ports + {i};
        }
        todo := todo - {i};
      }
    }
  }

  datatype Verdict = Skip | Push | Stop(same: Option<int>)

  // What to do with a spot that has not been visited: the source or a wire of the net ends the
  // search, an unused box output is queued, anything else is passed over.
  method Judge(q: Query, u: Spot) returns (v: Verdict)
    requires QueryOk(q) && u.node in q.c.adg.nodes
    ensures v.Stop? <==> Goal(q, u)
    ensures v.Push? <==> Open(q, u)
    ensures v.Stop? ==> if v.same.Some? then CarriedBy(q, u, v.same.value) else AtSource(q, u)
  {
    if AtSource(q, u) {
      v := Stop(None);
    } else if u.node == q.src || q.c.adg.nodes[u.node].Fu? {
      v := Skip;
    } else {
      var r := ScanOutput(q, u);
      match r
      case Same(e0) => v := Stop(Some(e0));
      case Conflict => v := Skip;
      case Unused =>
        v := Push;
        assert forall x | x in PassOf(q.s, u.node) :: x.dstPort != u.port;
    }
  }

  // The end of a search: spot u, one hop from t, and the edge of the same net met there.
  datatype End = End(u: Spot, inPort: int, same: Option<int>)

  ghost predicate EndOk(q: Query, t: Spot, end: End)
    requires q.e in q.c.g.edges
  {
    && Hop(q, t, end.inPort, end.u) && Goal(q, end.u)
    && if end.same.Some? then CarriedBy(q, end.u, end.same.value) else AtSource(q, end.u)
  }

  // The state of the search while spot t is in hand.
  ghost predicate InHand(q: Query, visited: map<Spot, Step>, queue: seq<Spot>, dist: map<Spot, nat>, t: Spot)
    requires q.e in q.c.g.edges
  {
    && Tree(q, visited, dist) && t in dist
    && Queued(dist, queue, dist[t]) && Settled(q, dist, queue, {t}, dist[t])
  }

  lemma HopIsInput(q: Query, t: Spot, i: int)
    requires QueryOk(q) && Selectable(q, t, i)
    ensures t.node in q.c.adg.nodes && i in q.c.adg.nodes[t.node].inputs
    ensures q.c.adg.nodes[t.node].inputs[i].0 in q.c.adg.nodes
    ensures Spot(q.c.adg.nodes[t.node].inputs[i].0, q.c.adg.nodes[t.node].inputs[i].1) in AllSpots(q.c.adg)
  {
    if t.port != -1 {
      CrossPorts(q.c.adg, Link(i, t.port, t.node));
    }
    assert NodeOk(q.c.adg, t.node);
  }

  lemma InHandGrows(q: Query, visited: map<Spot, Step>, queue: seq<Spot>, dist: map<Spot, nat>, t: Spot, i: int, u: Spot)
    requires q.e in q.c.g.edges && IsFu(q.c.adg, q.dst)
    requires InHand(q, visited, queue, dist, t) && Open(q, u) && Hop(q, t, i, u)
    requires u !in visited && u in AllSpots(q.c.adg)
    ensures InHand(q, visited[u := Step(t, i)], queue + [u], dist[u := dist[t] + 1], t)
    ensures forall j | ExpandedAt(q, dist, t, j) :: ExpandedAt(q, dist[u := dist[t] + 1], t, j)
  {
    assert u != Root(q) && u !in dist;
    assert Tree(q, visited[u := Step(t, i)], dist[u := dist[t] + 1]) by {
      TreeGrows(q, visited, dist, t, i, u);
    }
    assert Queued(dist[u := dist[t] + 1], queue + [u], dist[t]) by {
      QueueGrows(dist, queue, dist[t], u);
    }
    assert Settled(q, dist[u := dist[t] + 1], queue + [u], {t}, dist[t]) by {
      SettledGrows(q, dist, queue, {t}, dist[t], u);
    }
    ExpandedStays(q, dist, t, u);
  }

  lemma QueueGrows(dist: map<Spot, nat>, queue: seq<Spot>, d: nat, u: Spot)
    requires Queued(dist, queue, d) && u !in dist
    ensures Queued(dist[u := d + 1], queue + [u], d)
  {}

  lemma ExpandedStays(q: Query, dist: map<Spot, nat>, t: Spot, u: Spot)
    requires q.e in q.c.g.edges && t in dist && u !in dist
    ensures forall j | ExpandedAt(q, dist, t, j) :: ExpandedAt(q, dist[u := dist[t] + 1], t, j)
  {
    forall j | ExpandedAt(q, dist, t, j)
      ensures ExpandedAt(q, dist[u := dist[t] + 1], t, j)
    {
      Growing(q, dist, t, u, dist[t] + 1, j);
    }
  }

  lemma OnlyDriver(q: Query, dist: map<Spot, nat>, t: Spot, i: int, u: Spot)
    requires q.e in q.c.g.edges && t in dist && Hop(q, t, i, u) && !Goal(q, u)
    requires Open(q, u) ==> u in dist && dist[u] <= dist[t] + 1
    ensures ExpandedAt(q, dist, t, i)
  {}

  // The spot that drives in port i of t.
  method Follow(q: Query, t: Spot, i: int, visited: map<Spot, Step>, queue: seq<Spot>, ghost dist: map<Spot, nat>)
    returns (found: Option<End>, visited': map<Spot, Step>, queue': seq<Spot>, ghost dist': map<Spot, nat>)
    requires QueryOk(q) && Selectable(q, t, i) && InHand(q, visited, queue, dist, t)
    ensures InHand(q, visited', queue', dist', t) && dist'[t] == dist[t]
    ensures (visited' == visited && queue' == queue) || visited.Keys < visited'.Keys
    ensures found.Some? ==> EndOk(q, t, found.value)
    ensures found.None? ==> ExpandedAt(q, dist', t, i)
    ensures forall j | ExpandedAt(q, dist, t, j) :: ExpandedAt(q, dist', t, j)
  {
    visited', queue', dist', found := visited, queue, dist, None;
    HopIsInput(q, t, i);
    var elem := q.c.adg.nodes[t.node].inputs[i];
    var u := Spot(elem.0, elem.1);
    if u in visited {
      VisitedDistance(q, visited, queue, dist, t, u);
      OnlyDriver(q, dist, t, i, u);
    } else {
      var verdict := Judge(q, u);
      match verdict
      case Stop(same) =>
        found := Some(End(u, i, same));
      case Push =>
        InHandGrows(q, visited, queue, dist, t, i, u);
        visited' := visited[u := Step(t, i)];
        queue' := queue + [u];
        dist' := dist[u := dist[t] + 1];
        OnlyDriver(q, dist', t, i, u);
      case Skip =>
        OnlyDriver(q, dist, t, i, u);
    }
  }

  // A visited spot is no goal and at most one step further than the spot in hand.
  lemma VisitedDistance(q: Query, visited: map<Spot, Step>, queue: seq<Spot>, dist: map<Spot, nat>, t: Spot, u: Spot)
    requires QueryOk(q) && InHand(q, visited, queue, dist, t) && u in visited
    ensures !Goal(q, u) && u in dist && dist[u] <= dist[t] + 1
  {
    assert Linked(q, visited, dist, u);
    if u in queue {
      var k :| 0 <= k < |queue| && queue[k] == u;
    }
  }

  // One spot with everything that drives it.
  method Expand(q: Query, t: Spot, visited: map<Spot, Step>, queue: seq<Spot>, ghost dist: map<Spot, nat>)
    returns (found: Option<End>, visited': map<Spot, Step>, queue': seq<Spot>, ghost dist': map<Spot, nat>)
    requires QueryOk(q) && InHand(q, visited, queue, dist, t)
    ensures InHand(q, visited', queue', dist', t) && dist'[t] == dist[t]
    ensures (visited' == visited && queue' == queue) || visited.Keys < visited'.Keys
    ensures found.Some? ==> EndOk(q, t, found.value)
    ensures found.None? ==> Expanded(q, dist', t)
  {
    visited', queue', dist', found := visited, queue, dist, None;
    PortOfBox(q, visited, dist, t);
    var todo := Candidates(q, t);
    while todo != {} && found.None?
      invariant InHand(q, visited', queue', dist', t) && dist'[t] == dist[t]
      invariant (visited' == visited && queue' == queue) || visited.Keys < visited'.Keys
      invariant forall i | i in todo :: Selectable(q, t, i)
      invariant found.None? ==> forall i | i !in todo :: ExpandedAt(q, dist', t, i)
      invariant found.Some? ==> EndOk(q, t, found.value)
      decreases |todo|
    {
      var i := Collections.Pick(todo);
      found, visited', queue', dist' := Follow(q, t, i, visited', queue', dist');
      todo := todo - {i};
    }
  }

  lemma PortOfBox(q: Query, visited: map<Spot, Step>, dist: map<Spot, nat>, t: Spot)
    requires QueryOk(q) && Tree(q, visited, dist) && t in dist
    ensures t == Root(q) || (Open(q, t) && t.port != -1)
  {
    if t != Root(q) {
      assert Linked(q, visited, dist, t);
      var d := visited[t].dst;
      assert Hop(q, d, visited[t].inPort, t);
      assert NodeOk(q.c.adg, d.node);
    }
  }

  // ----- the search as a whole

  // spots and ins follow the steps recorded while searching, from final back to the root.
  ghost predicate Recorded(visited: map<Spot, Step>, spots: seq<Spot>, ins: seq<int>) {
    && |spots| == |ins| + 1
    && forall k {:trigger ins[k]} | 0 <= k < |ins| :: spots[k + 1] in visited && visited[spots[k + 1]] == Step(spots[k], ins[k])
  }

  // The recorded way from a visited spot back to the root.
  lemma {:induction false} WayBack(q: Query, visited: map<Spot, Step>, dist: map<Spot, nat>, t: Spot)
    returns (spots: seq<Spot>, ins: seq<int>)
    requires Tree(q, visited, dist) && t in dist
    ensures Trail(q, spots, ins) && |ins| == dist[t] && spots[|ins|] == t && Recorded(visited, spots, ins)
    ensures forall k {:trigger spots[k]} | 0 <= k < |spots| :: spots[k] in dist && dist[spots[k]] == k
    ensures ins != [] ==> Open(q, t)
    decreases dist[t]
  {
    if t == Root(q) {
      spots, ins := [t], [];
    } else {
      assert Linked(q, visited, dist, t);
      var spots0, ins0 := WayBack(q, visited, dist, visited[t].dst);
      spots, ins := spots0 + [t], ins0 + [visited[t].inPort];
    }
  }

  // With every spot nearer than d expanded, a trail of goal length at most d is impossible.
  lemma {:induction false} TrailIsVisited(q: Query, dist: map<Spot, nat>, d: nat, spots: seq<Spot>, ins: seq<int>, k: nat)
    requires q.e in q.c.g.edges && Root(q) in dist && dist[Root(q)] == 0
    requires forall t | t in dist && dist[t] < d :: Expanded(q, dist, t)
    requires GoalTrail(q, spots, ins) && k < |ins| && k <= d
    ensures spots[k] in dist && dist[spots[k]] <= k
  {
    if k > 0 {
      TrailIsVisited(q, dist, d, spots, ins, k - 1);
      assert Hop(q, spots[k - 1], ins[k - 1], spots[k - 1 + 1]);
      assert Expanded(q, dist, spots[k - 1]);
      assert ExpandedAt(q, dist, spots[k - 1], ins[k - 1]);
    }
  }

  lemma NoNearerGoal(q: Query, dist: map<Spot, nat>, d: nat, spots: seq<Spot>, ins: seq<int>)
    requires q.e in q.c.g.edges && Root(q) in dist && dist[Root(q)] == 0
    requires forall t | t in dist && dist[t] < d :: Expanded(q, dist, t)
    requires GoalTrail(q, spots, ins)
    ensures |ins| > d
  {
    if |ins| <= d {
      var k := |ins| - 1;
      TrailIsVisited(q, dist, d, spots, ins, k);
      BesideGoal(q, dist, spots, ins);
    }
  }

  lemma BesideGoal(q: Query, dist: map<Spot, nat>, spots: seq<Spot>, ins: seq<int>)
    requires q.e in q.c.g.edges && GoalTrail(q, spots, ins) && spots[|ins| - 1] in dist
    ensures !Expanded(q, dist, spots[|ins| - 1])
  {
    var k := |ins| - 1;
    assert Hop(q, spots[k], ins[k], spots[k + 1]);
    assert !ExpandedAt(q, dist, spots[k], ins[k]);
  }

  // The outcome of a search: a shortest trail to a goal, as recorded, or the certainty that
  // there is none.
  ghost predicate Shortest(q: Query, visited: map<Spot, Step>, final: Spot, spots: seq<Spot>, ins: seq<int>)
    requires q.e in q.c.g.edges
  {
    && GoalTrail(q, spots, ins) && spots[|ins|] == final && Recorded(visited, spots, ins)
    && (forall j, k | 0 <= j < k < |spots| :: spots[j] != spots[k])
    && (forall spots', ins' | GoalTrail(q, spots', ins') :: |ins| <= |ins'|)
  }

  // The last hop, from the spot in hand to the goal, completes a shortest trail.
  lemma LastHop(q: Query, visited: map<Spot, Step>, queue: seq<Spot>, dist: map<Spot, nat>, t: Spot, end: End)
    returns (spots: seq<Spot>, ins: seq<int>)
    requires QueryOk(q) && InHand(q, visited, queue, dist, t) && EndOk(q, t, end)
    ensures Shortest(q, visited[end.u := Step(t, end.inPort)], end.u, spots, ins)
  {
    var spots0, ins0 := WayBack(q, visited, dist, t);
    spots, ins := spots0 + [end.u], ins0 + [end.inPort];
    GoalUnvisited(q, visited, dist, end.u);
    var visited' := visited[end.u := Step(t, end.inPort)];
    forall k {:trigger ins[k]} | 0 <= k < |ins|
      ensures Hop(q, spots[k], ins[k], spots[k + 1])
      ensures spots[k + 1] in visited' && visited'[spots[k + 1]] == Step(spots[k], ins[k])
    {
      if k < |ins0| {
        assert Hop(q, spots0[k], ins0[k], spots0[k + 1]);
        assert spots0[k + 1] in visited;
      }
    }
    forall k | 0 < k < |ins|
      ensures Open(q, spots[k])
    {
      if k == |ins0| {
        assert Open(q, t);
      } else {
        assert Open(q, spots0[k]);
      }
    }
    forall w | w in dist && dist[w] < dist[t]
      ensures Expanded(q, dist, w)
    {
      NearerExpanded(q, queue, dist, t, w);
    }
    forall spots', ins' | GoalTrail(q, spots', ins')
      ensures |ins| <= |ins'|
    {
      NoNearerGoal(q, dist, dist[t], spots', ins');
    }
  }

  lemma NearerExpanded(q: Query, queue: seq<Spot>, dist: map<Spot, nat>, t: Spot, w: Spot)
    requires q.e in q.c.g.edges && t in dist && Queued(dist, queue, dist[t]) && Settled(q, dist, queue, {t}, dist[t])
    requires w in dist && dist[w] < dist[t]
    ensures Expanded(q, dist, w)
  {}

  lemma GoalUnvisited(q: Query, visited: map<Spot, Step>, dist: map<Spot, nat>, u: Spot)
    requires QueryOk(q) && Tree(q, visited, dist) && Goal(q, u)
    ensures u !in dist
  {
    assert u in visited ==> Linked(q, visited, dist, u);
    assert NodeOk(q.c.adg, q.dst);
  }

  lemma Initially(q: Query)
    requires QueryOk(q)
    ensures Tree(q, map[], map[Root(q) := 0]) && Queued(map[Root(q) := 0], [Root(q)], 0)
    ensures Settled(q, map[Root(q) := 0], [Root(q)], {}, 0)
  {}

  // Between two spots: everything visited and not queued is expanded.
  ghost predicate Searching(q: Query, visited: map<Spot, Step>, queue: seq<Spot>, dist: map<Spot, nat>)
    requires q.e in q.c.g.edges
  {
    && Tree(q, visited, dist)
    && if queue == [] then forall t | t in dist :: Expanded(q, dist, t)
       else queue[0] in dist && Queued(dist, queue, dist[queue[0]]) && Settled(q, dist, queue, {}, dist[queue[0]])
  }

  lemma TakeInHand(q: Query, visited: map<Spot, Step>, queue: seq<Spot>, dist: map<Spot, nat>)
    requires q.e in q.c.g.edges && queue != [] && Searching(q, visited, queue, dist)
    ensures InHand(q, visited, queue[1..], dist, queue[0])
  {}

  lemma PutAway(q: Query, visited: map<Spot, Step>, queue: seq<Spot>, dist: map<Spot, nat>, t: Spot)
    requires q.e in q.c.g.edges && InHand(q, visited, queue, dist, t) && Expanded(q, dist, t)
    ensures Searching(q, visited, queue, dist)
  {}

  // A route for the edge: found just when there is one, and then with the fewest hops that
  // are not shared with another edge. final is where the search met the source or the net.
  method Search(q: Query)
    returns (found: bool, visited: map<Spot, Step>, final: Spot, same: Option<int>, ghost spots: seq<Spot>, ghost ins: seq<int>)
    requires QueryOk(q)
    ensures found ==> Shortest(q, visited, final, spots, ins)
    ensures found ==> if same.Some? then CarriedBy(q, final, same.value) else AtSource(q, final)
    ensures !found ==> forall spots', ins' :: !GoalTrail(q, spots', ins')
  {
    visited := map[];
    var queue := [Root(q)];
    ghost var dist: map<Spot, nat> := map[Root(q) := 0];
    found, final, same, spots, ins := false, Root(q), None, [], [];
    Initially(q);
    while queue != []
      invariant Searching(q, visited, queue, dist)
      decreases AllSpots(q.c.adg) - visited.Keys, |queue|
    {
      var t := queue[0];
      TakeInHand(q, visited, queue, dist);
      var end;
      end, visited, queue, dist := Expand(q, t, visited, queue[1..], dist);
      if end.Some? {
        spots, ins := LastHop(q, visited, queue, dist, t, end.value);
        visited := visited[end.value.u := Step(t, end.value.inPort)];
        return true, visited, end.value.u, end.value.same, spots, ins;
      }
      PutAway(q, visited, queue, dist, t);
    }
    forall spots', ins' | GoalTrail(q, spots', ins')
      ensures false
    {
      NoNearerGoal(q, dist, |ins'|, spots', ins');
    }
  }

  // ----- the links of the route that a trail stands for

  ghost function LinkAt(spots: seq<Spot>, ins: seq<int>, k: nat): Link
    requires k < |ins| < |spots|
  {
    Link(ins[k], spots[k].port, spots[k].node)
  }

  // The links from spot k inwards, down to the destination.
  ghost function Inward(spots: seq<Spot>, ins: seq<int>, k: nat): (ls: seq<Link>)
    requires k < |ins| < |spots|
    ensures |ls| == k + 1 && forall i | 0 <= i <= k :: ls[i] == LinkAt(spots, ins, k - i)
  {
    if k == 0 then [LinkAt(spots, ins, 0)] else [LinkAt(spots, ins, k)] + Inward(spots, ins, k - 1)
  }

  // What the trail adds: all of the route when it ends at the source, else the part behind
  // the wire it meets.
  ghost function Added(q: Query, spots: seq<Spot>, ins: seq<int>, same: Option<int>): seq<Link>
    requires 0 < |ins| < |spots|
  {
    var inward := Inward(spots, ins, |ins| - 1);
    if same.None? then [Link(-1, spots[|ins|].port, spots[|ins|].node)] + inward else inward
  }

  // The range of a query holds in ports that the edge may end at and whose operand is idle.
  ghost predicate PortAvailable(c: Context, s: State, e: int, f: int, p: int)
    requires e in c.g.edges
  {
    OperandAllowed(c.g, c.adg, c.g.edges[e], f, p) && OperandIdle(c.adg, s, f, p)
  }

  ghost predicate Aimed(q: Query)
    requires q.e in q.c.g.edges
  {
    var e := q.c.g.edges[q.e];
    && e.src in q.c.place && q.c.place[e.src] == q.src
    && e.dst in q.c.place && q.c.place[e.dst] == q.dst
    && forall p | p in q.range :: PortAvailable(q.c, q.s, q.e, q.dst, p)
  }

  // The part of the route of e0 up to the spot where the trail meets it.
  ghost predicate CutAt(q: Query, prefix: seq<Link>, e0: int, t: Spot) {
    && SharedWith(q.c, q.s, q.e, prefix, e0)
    && prefix != [] && prefix[|prefix| - 1].node == t.node && prefix[|prefix| - 1].dstPort == t.port
  }

  ghost predicate PrefixOk(q: Query, prefix: seq<Link>, spots: seq<Spot>, ins: seq<int>, same: Option<int>)
    requires |ins| < |spots|
  {
    if same.None? then prefix == [] else CutAt(q, prefix, same.value, spots[|ins|])
  }

  lemma InwardFree(q: Query, spots: seq<Spot>, ins: seq<int>, k: nat)
    requires QueryOk(q) && Aimed(q) && Trail(q, spots, ins) && k < |ins|
    ensures k > 0 ==> Crosses(q.c.adg, LinkAt(spots, ins, k)) && LinkFree(q.c, q.s, q.e, LinkAt(spots, ins, k)) && spots[k].port >= 0
    ensures k == 0 ==> LinkAt(spots, ins, k) == Link(ins[0], -1, q.dst) && ins[0] in q.range
  {
    assert Hop(q, spots[k], ins[k], spots[k + 1]);
    if k > 0 {
      assert Open(q, spots[k]);
      assert Hop(q, spots[k - 1], ins[k - 1], spots[k - 1 + 1]);
      assert NodeOk(q.c.adg, spots[k - 1].node);
    }
  }

  lemma AddedIsFresh(q: Query, spots: seq<Spot>, ins: seq<int>, same: Option<int>)
    requires QueryOk(q) && Aimed(q) && Trail(q, spots, ins) && ins != []
    requires forall j, k | 0 <= j < k < |spots| :: spots[j] != spots[k]
    requires same.None? ==> AtSource(q, spots[|ins|])
    ensures FreshOk(q.c, q.s, q.e, Added(q, spots, ins, same))
  {
    var added := Added(q, spots, ins, same);
    var inward := Inward(spots, ins, |ins| - 1);
    InwardFree(q, spots, ins, 0);
    assert inward[|ins| - 1] == LinkAt(spots, ins, 0);
    forall l | l in added
      ensures l in inward || (same.None? && l == Link(-1, spots[|ins|].port, q.src))
    {}
    forall l | l in inward
      ensures exists k :: 0 <= k < |ins| && l == LinkAt(spots, ins, k)
    {
      var i :| 0 <= i < |inward| && inward[i] == l;
      assert l == LinkAt(spots, ins, |ins| - 1 - i);
    }
    forall l | l in added && IsGib(q.c.adg, l.node)
      ensures Crosses(q.c.adg, l) && LinkFree(q.c, q.s, q.e, l)
    {
      var k :| 0 <= k < |ins| && l == LinkAt(spots, ins, k);
      InwardFree(q, spots, ins, k);
    }
    forall l | l in added && IsFu(q.c.adg, l.node)
      ensures l.srcPort == -1 || l == added[|added| - 1]
    {
      if l in inward {
        var k :| 0 <= k < |ins| && l == LinkAt(spots, ins, k);
        InwardFree(q, spots, ins, k);
      }
    }
    forall l, l' | l in added && l' in added && l.node == l'.node && l.dstPort == l'.dstPort
      ensures l == l'
    {
      if l in inward && l' in inward {
        var k :| 0 <= k < |ins| && l == LinkAt(spots, ins, k);
        var k' :| 0 <= k' < |ins| && l' == LinkAt(spots, ins, k');
        assert spots[k] == spots[k'];
      } else {
        SourceApart(q, spots, ins, l);
        SourceApart(q, spots, ins, l');
      }
    }
  }

  // No link inside the trail leaves the source unit.
  lemma SourceApart(q: Query, spots: seq<Spot>, ins: seq<int>, l: Link)
    requires QueryOk(q) && Aimed(q) && Trail(q, spots, ins) && ins != []
    ensures l in Inward(spots, ins, |ins| - 1) ==> l.node != q.src
  {}

  lemma InwardChained(q: Query, spots: seq<Spot>, ins: seq<int>)
    requires Trail(q, spots, ins) && ins != []
    ensures Chained(q.c.adg, Inward(spots, ins, |ins| - 1))
  {}

  lemma ChainedConcat(adg: Array, a: seq<Link>, b: seq<Link>)
    requires Chained(adg, a) && Chained(adg, b)
    requires a != [] && b != [] ==> Drives(adg, a[|a| - 1], b[0])
    ensures Chained(adg, a + b)
  {
    forall i | 0 <= i < |a + b| - 1
      ensures DrivesNext(adg, a + b, i)
    {
      assert i < |a| - 1 ==> DrivesNext(adg, a, i);
      assert i >= |a| ==> DrivesNext(adg, b, i - |a|);
    }
  }

  // The first link of Inward is driven by the last spot of the trail.
  lemma InwardDriven(q: Query, spots: seq<Spot>, ins: seq<int>, l: Link)
    requires Trail(q, spots, ins) && ins != [] && l.node == spots[|ins|].node && l.dstPort == spots[|ins|].port
    ensures Drives(q.c.adg, l, Inward(spots, ins, |ins| - 1)[0])
  {}

  lemma PrefixChained(q: Query, prefix: seq<Link>, e0: int, t: Spot)
    requires QueryOk(q) && Aimed(q) && CutAt(q, prefix, e0, t)
    ensures Chained(q.c.adg, prefix)
    ensures prefix[0] == Link(-1, q.c.g.edges[q.e].srcPort, q.src)
    ensures forall i | 0 < i < |prefix| :: Crosses(q.c.adg, prefix[i])
  {
    assert RouteOf(q.c, q.s, e0);
    var ls := q.s.links[e0];
    forall i | 0 <= i < |prefix| - 1
      ensures DrivesNext(q.c.adg, prefix, i)
    {
      assert DrivesNext(q.c.adg, ls, i);
    }
    forall i | 0 < i < |prefix|
      ensures Crosses(q.c.adg, prefix[i])
    {
      assert Crosses(q.c.adg, ls[i]);
    }
  }

  lemma RouteChained(q: Query, prefix: seq<Link>, spots: seq<Spot>, ins: seq<int>, same: Option<int>)
    requires QueryOk(q) && Aimed(q) && Trail(q, spots, ins) && ins != []
    requires same.None? ==> AtSource(q, spots[|ins|])
    requires PrefixOk(q, prefix, spots, ins, same)
    ensures Chained(q.c.adg, prefix + Added(q, spots, ins, same))
  {
    var inward := Inward(spots, ins, |ins| - 1);
    InwardChained(q, spots, ins);
    if same.None? {
      var start := [Link(-1, spots[|ins|].port, spots[|ins|].node)];
      InwardDriven(q, spots, ins, start[0]);
      ChainedConcat(q.c.adg, start, inward);
      assert prefix + (start + inward) == start + inward;
    } else {
      PrefixChained(q, prefix, same.value, spots[|ins|]);
      InwardDriven(q, spots, ins, prefix[|prefix| - 1]);
      ChainedConcat(q.c.adg, prefix, inward);
    }
  }

  lemma RouteCrosses(q: Query, prefix: seq<Link>, spots: seq<Spot>, ins: seq<int>, same: Option<int>, i: nat)
    requires QueryOk(q) && Aimed(q) && Trail(q, spots, ins) && ins != []
    requires PrefixOk(q, prefix, spots, ins, same)
    requires 0 < i < |prefix + Added(q, spots, ins, same)| - 1
    ensures Crosses(q.c.adg, (prefix + Added(q, spots, ins, same))[i])
  {
    var m := |prefix| + if same.None? then 1 else 0;
    if i < m {
      PrefixChained(q, prefix, same.value, spots[|ins|]);
    } else {
      InwardFree(q, spots, ins, |ins| - 1 - (i - m));
    }
  }

  lemma RouteEnds(q: Query, prefix: seq<Link>, spots: seq<Spot>, ins: seq<int>, same: Option<int>)
    requires QueryOk(q) && Aimed(q) && Trail(q, spots, ins) && ins != []
    requires same.None? ==> AtSource(q, spots[|ins|])
    requires PrefixOk(q, prefix, spots, ins, same)
    ensures var ls := prefix + Added(q, spots, ins, same);
      && |ls| >= 2 && ls[0] == Link(-1, q.c.g.edges[q.e].srcPort, q.src)
      && ls[|ls| - 1] == Link(ins[0], -1, q.dst) && ins[0] in q.range
  {
    InwardFree(q, spots, ins, 0);
    assert Inward(spots, ins, |ins| - 1)[|ins| - 1] == LinkAt(spots, ins, 0);
    if same.Some? {
      PrefixChained(q, prefix, same.value, spots[|ins|]);
    }
  }

  lemma AddedIsRoute(q: Query, prefix: seq<Link>, spots: seq<Spot>, ins: seq<int>, same: Option<int>)
    requires QueryOk(q) && Aimed(q) && Trail(q, spots, ins) && ins != []
    requires same.None? ==> AtSource(q, spots[|ins|])
    requires PrefixOk(q, prefix, spots, ins, same)
    ensures IsRoute(q.c, q.c.g.edges[q.e], prefix + Added(q, spots, ins, same))
  {
    var ls := prefix + Added(q, spots, ins, same);
    RouteChained(q, prefix, spots, ins, same);
    RouteEnds(q, prefix, spots, ins, same);
    forall i | 0 < i < |ls| - 1
      ensures Crosses(q.c.adg, ls[i])
    {
      RouteCrosses(q, prefix, spots, ins, same, i);
    }
  }
}
