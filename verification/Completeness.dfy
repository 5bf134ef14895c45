/** What the search for a route is measured by: an edge is routable if some route of it can be
    added to the present routes so that a sound state results. The search misses none. */
module Completeness {
  import opened Dfg
  import opened Adg
  import opened Routing
  import opened RouteSearch

  ghost predicate Adds(c: Context, s: State, s': State, e: int, ls: seq<Link>)
    requires e in c.g.edges
  {
    IsRoute(c, c.g.edges[e], ls) && s'.links == s.links[e := ls] && Inv(c, s')
  }

  ghost predicate Routable(c: Context, s: State, e: int)
    requires e in c.g.edges
  {
    exists ls, s' :: Adds(c, s, s', e, ls)
  }

  // The query offers every port that is available.
  ghost predicate OffersAll(q: Query)
    requires q.e in q.c.g.edges
  {
    forall p | PortAvailable(q.c, q.s, q.e, q.dst, p) :: p in q.range
  }

  // A query, and a route that answers it in another way.
  ghost predicate Rival(q: Query, s': State, ls: seq<Link>) {
    QueryOk(q) && Aimed(q) && OffersAll(q) && Adds(q.c, q.s, s', q.e, ls)
  }

  // Where link i of the route comes out.
  ghost function SpotAt(ls: seq<Link>, i: nat): Spot
    requires i < |ls|
  {
    Spot(ls[i].node, ls[i].dstPort)
  }

  // What passes a box beside the new route shares its net or none of its ports.
  lemma BesideRoute(q: Query, s': State, ls: seq<Link>, i: nat, x: Pass)
    requires Rival(q, s', ls) && 0 < i < |ls| - 1 && x in PassOf(q.s, ls[i].node)
    ensures x.srcPort == ls[i].srcPort || x.dstPort == ls[i].dstPort ==> SameNet(q.c.g, q.e, x.edge)
  {
    var b := ls[i].node;
    assert Crosses(q.c.adg, ls[i]);
    assert BoxOk(q.c, q.s, b) && BoxOk(q.c, s', b);
    assert ls[i] in s'.links[q.e];
    assert Pass(ls[i].srcPort, ls[i].dstPort, q.e) in PassOf(s', b);
    assert x.edge != q.e && Link(x.srcPort, x.dstPort, b) in s'.links[x.edge];
    assert x in PassOf(s', b);
  }

  // The route arrives at a port that the query offers.
  lemma ArrivalOffered(q: Query, s': State, ls: seq<Link>)
    requires Rival(q, s', ls)
    ensures ls[|ls| - 1].srcPort in q.range
  {
    var p := ls[|ls| - 1].srcPort;
    assert UnitOk(q.c, q.s, q.dst) && UnitOk(q.c, s', q.dst);
    assert ArrivesAt(s', q.e, q.dst, p);
    forall k, p' | 0 <= k < |q.c.adg.nodes[q.dst].operandInputs| && p in q.c.adg.nodes[q.dst].operandInputs[k]
        && p' in q.c.adg.nodes[q.dst].operandInputs[k]
      ensures !InUsed(q.s, q.dst, p')
    {
      assert SameOperand(q.c.adg, q.dst, p', p);
      if InUsed(q.s, q.dst, p') {
        var e' :| ArrivesAt(q.s, e', q.dst, p');
        assert ArrivesAt(s', e', q.dst, p');
      }
    }
    assert PortAvailable(q.c, q.s, q.e, q.dst, p);
  }

  // A wire that the route takes carries the net already or nothing.
  lemma OpenOrOnNet(q: Query, s': State, ls: seq<Link>, i: nat)
    requires Rival(q, s', ls) && 0 < i < |ls| - 1
    ensures OnNet(q, SpotAt(ls, i)) || Open(q, SpotAt(ls, i))
  {
    assert Crosses(q.c.adg, ls[i]);
    if x :| x in PassOf(q.s, ls[i].node) && x.dstPort == ls[i].dstPort {
      BesideRoute(q, s', ls, i, x);
    }
  }

  // The last link of the route that leaves on a wire of the net; all behind it is unused.
  lemma {:induction false} LastOnNet(q: Query, ls: seq<Link>, i: nat) returns (m: nat)
    requires i < |ls| && forall j | 0 < j <= i :: OnNet(q, SpotAt(ls, j)) || Open(q, SpotAt(ls, j))
    ensures m <= i && (m > 0 ==> OnNet(q, SpotAt(ls, m)))
    ensures forall j | m < j <= i :: Open(q, SpotAt(ls, j))
  {
    m := i;
    if i > 0 && !OnNet(q, SpotAt(ls, i)) {
      m := LastOnNet(q, ls, i - 1);
    }
  }

  // Link i + 1 of the route is a hop back to link i.
  lemma RouteHops(q: Query, s': State, ls: seq<Link>, i: nat)
    requires Rival(q, s', ls) && i < |ls| - 1
    ensures Hop(q, SpotAt(ls, i + 1), ls[i + 1].srcPort, SpotAt(ls, i))
  {
    assert DrivesNext(q.c.adg, ls, i);
    if i + 1 == |ls| - 1 {
      ArrivalOffered(q, s', ls);
    } else {
      CrossPorts(q.c.adg, ls[i + 1]);
      forall x | x in PassOf(q.s, ls[i + 1].node) && x.srcPort == ls[i + 1].srcPort
        ensures SameNet(q.c.g, q.e, x.edge)
      {
        BesideRoute(q, s', ls, i + 1, x);
      }
    }
  }

  // The route behind link m, read backwards.
  ghost function SpotsBack(ls: seq<Link>, m: nat): (spots: seq<Spot>)
    requires m < |ls|
    ensures |spots| == |ls| - m && forall k | 0 <= k < |ls| - m :: spots[k] == SpotAt(ls, |ls| - 1 - k)
  {
    seq(|ls| - m, k requires 0 <= k < |ls| - m => SpotAt(ls, |ls| - 1 - k))
  }

  ghost function PortsBack(ls: seq<Link>, m: nat): (ins: seq<int>)
    requires m < |ls|
    ensures |ins| == |ls| - 1 - m && forall k | 0 <= k < |ls| - 1 - m :: ins[k] == ls[|ls| - 1 - k].srcPort
  {
    seq(|ls| - 1 - m, k requires 0 <= k < |ls| - 1 - m => ls[|ls| - 1 - k].srcPort)
  }

  lemma BackIsTrail(q: Query, s': State, ls: seq<Link>, m: nat)
    requires Rival(q, s', ls) && m < |ls| - 1
    requires forall j | m < j < |ls| - 1 :: Open(q, SpotAt(ls, j))
    ensures Trail(q, SpotsBack(ls, m), PortsBack(ls, m))
  {
    var spots, ins := SpotsBack(ls, m), PortsBack(ls, m);
    assert forall k | 0 <= k < |ins| :: Hop(q, spots[k], ins[k], spots[k + 1]) by {
      forall k | 0 <= k < |ins|
        ensures Hop(q, spots[k], ins[k], spots[k + 1])
      {
        RouteHops(q, s', ls, |ls| - 2 - k);
      }
    }
    assert spots[0] == Root(q);
  }

  // Link m is where the route leaves the net for good: it comes out on a wire of the net, or is
  // the first link; all behind it is unused.
  ghost predicate LeavesNet(q: Query, ls: seq<Link>, m: nat) {
    && m < |ls| - 1 && (m > 0 ==> OnNet(q, SpotAt(ls, m)))
    && forall j | m < j < |ls| - 1 :: Open(q, SpotAt(ls, j))
  }

  // Read backwards, the route behind the last wire of the net is a trail.
  lemma RivalIsTrail(q: Query, s': State, ls: seq<Link>) returns (m: nat)
    requires Rival(q, s', ls)
    ensures LeavesNet(q, ls, m) && GoalTrail(q, SpotsBack(ls, m), PortsBack(ls, m))
  {
    forall j | 0 < j <= |ls| - 2
      ensures OnNet(q, SpotAt(ls, j)) || Open(q, SpotAt(ls, j))
    {
      OpenOrOnNet(q, s', ls, j);
    }
    m := LastOnNet(q, ls, |ls| - 2);
    LeftIsTrail(q, s', ls, m);
  }

  lemma LeftIsTrail(q: Query, s': State, ls: seq<Link>, m: nat)
    requires Rival(q, s', ls) && LeavesNet(q, ls, m)
    ensures GoalTrail(q, SpotsBack(ls, m), PortsBack(ls, m))
  {
    BackIsTrail(q, s', ls, m);
    assert Goal(q, SpotAt(ls, m));
  }

  // No route that could be added has fewer than n links behind the net.
  ghost predicate NoneShorter(q: Query, n: nat)
    requires q.e in q.c.g.edges
  {
    forall s', ls, m {:trigger Adds(q.c, q.s, s', q.e, ls), LeavesNet(q, ls, m)}
      | Adds(q.c, q.s, s', q.e, ls) && LeavesNet(q, ls, m) :: n <= |ls| - 1 - m
  }

  // The route has no more links behind the net than any route that could be added.
  ghost predicate LeastOwnPart(q: Query, ls: seq<Link>)
    requires q.e in q.c.g.edges
  {
    exists m :: LeavesNet(q, ls, m) && NoneShorter(q, |ls| - 1 - m)
  }

  // The shortest trail is as short as the own part of any route that could be added.
  lemma ShortestOfAll(q: Query, n: nat)
    requires QueryOk(q) && Aimed(q) && OffersAll(q)
    requires forall spots, ins | GoalTrail(q, spots, ins) :: n <= |ins|
    ensures NoneShorter(q, n)
  {
    forall s', ls, m: nat | Adds(q.c, q.s, s', q.e, ls) && LeavesNet(q, ls, m)
      ensures n <= |ls| - 1 - m
    {
      LeftIsTrail(q, s', ls, m);
    }
  }

  // An edge that can be routed at all has a trail.
  lemma RoutableHasTrail(q: Query)
    requires QueryOk(q) && Aimed(q) && OffersAll(q) && Routable(q.c, q.s, q.e)
    ensures exists spots, ins :: GoalTrail(q, spots, ins)
  {
    var ls, s' :| Adds(q.c, q.s, s', q.e, ls);
    var m := RivalIsTrail(q, s', ls);
  }
}
