/** The mapping of a data-flow graph onto the array: placing nodes on functional units and
    routing the edges between placed nodes. */
module Mapping {
  import opened Dfg
  import opened Adg
  import opened Routing
  import opened RouteSearch
  import opened Completeness
  import Collections

  // One more link of e copied from the route of an edge of the same net: its ports are
  // marked already.
  function Share(s: State, e: int, l: Link): State
    requires e in s.links
  {
    var a := AttrOf(s, l.node);
    State(s.attr[l.node := a.(pass := a.pass + [Pass(l.srcPort, l.dstPort, e)])], s.links[e := s.links[e] + [l]])
  }

  // One more link of e laid out anew: it marks its ports, and is listed where it passes through.
  function Lay(s: State, e: int, l: Link): State
    requires e in s.links
  {
    var a := AttrOf(s, l.node);
    var a' :=
      if l.srcPort == -1 then a.(outUsed := a.outUsed[l.dstPort := true])
      else if l.dstPort == -1 then a.(inUsed := a.inUsed[l.srcPort := true])
      else a.(inUsed := a.inUsed[l.srcPort := true], outUsed := a.outUsed[l.dstPort := true],
              pass := a.pass + [Pass(l.srcPort, l.dstPort, e)]);
    State(s.attr[l.node := a'], s.links[e := s.links[e] + [l]])
  }

  lemma PassesStep(e: int, ls: seq<Link>, l: Link, n: int)
    ensures PassesAt(e, ls + [l], n) == PassesAt(e, ls, n) + if l.node == n then [Pass(l.srcPort, l.dstPort, e)] else []
  {}

  // How one link changes the attributes of a node.
  lemma ShareAt(s: State, e: int, l: Link, n: int)
    requires e in s.links
    ensures AttrOf(Share(s, e, l), n).dfgNode == AttrOf(s, n).dfgNode
    ensures PassOf(Share(s, e, l), n) == PassOf(s, n) + if l.node == n then [Pass(l.srcPort, l.dstPort, e)] else []
    ensures forall p :: InUsed(Share(s, e, l), n, p) == InUsed(s, n, p) && OutUsed(Share(s, e, l), n, p) == OutUsed(s, n, p)
  {}

  lemma LayAt(s: State, e: int, l: Link, n: int)
    requires e in s.links && (l.srcPort != -1 || l.dstPort != -1)
    ensures AttrOf(Lay(s, e, l), n).dfgNode == AttrOf(s, n).dfgNode
    ensures PassOf(Lay(s, e, l), n) ==
        PassOf(s, n) + if l.node == n && l.srcPort != -1 && l.dstPort != -1 then [Pass(l.srcPort, l.dstPort, e)] else []
    ensures forall p :: InUsed(Lay(s, e, l), n, p) <==> InUsed(s, n, p) || (p != -1 && l.node == n && l.srcPort == p)
    ensures forall p :: OutUsed(Lay(s, e, l), n, p) <==> OutUsed(s, n, p) || (p != -1 && l.node == n && l.dstPort == p)
  {}

  lemma CommitStart(s: State, e: int)
    ensures Committed(s, State(s.attr, s.links[e := []]), e, [], [])
  {
    var s' := State(s.attr, s.links[e := []]);
    var none: seq<Link> := [];
    assert none + none == none;
    forall n
      ensures CommittedAt(s, s', e, [], [], n)
    {
      assert AttrOf(s', n) == AttrOf(s, n);
    }
  }

  lemma ShareStep(s0: State, s: State, e: int, prefix: seq<Link>, l: Link)
    requires Committed(s0, s, e, prefix, [])
    ensures Committed(s0, Share(s, e, l), e, prefix + [l], [])
  {
    var s' := Share(s, e, l);
    assert prefix + [] == prefix && prefix + [l] + [] == prefix + [l];
    forall n
      ensures CommittedAt(s0, s', e, prefix + [l], [], n)
    {
      assert CommittedAt(s0, s, e, prefix, [], n);
      ShareStepAt(s0, s, e, prefix, l, n);
    }
  }

  lemma ShareStepAt(s0: State, s: State, e: int, prefix: seq<Link>, l: Link, n: int)
    requires CommittedAt(s0, s, e, prefix, [], n) && e in s.links
    ensures CommittedAt(s0, Share(s, e, l), e, prefix + [l], [], n)
  {
    ShareAt(s, e, l, n);
    var x := PassesAt(e, prefix, n);
    var t := if l.node == n then [Pass(l.srcPort, l.dstPort, e)] else [];
    assert PassesAt(e, prefix + [l], n) == x + t by {
      PassesStep(e, prefix, l, n);
    }
    Regroup(PassOf(s0, n), x, t);
  }

  lemma LayStep(s0: State, s: State, e: int, prefix: seq<Link>, added: seq<Link>, l: Link)
    requires Committed(s0, s, e, prefix, added)
    requires l.srcPort != -1 || l.dstPort != -1
    ensures Committed(s0, Lay(s, e, l), e, prefix, added + [l])
  {
    assert prefix + added + [l] == prefix + (added + [l]);
    forall n
      ensures CommittedAt(s0, Lay(s, e, l), e, prefix, added + [l], n)
    {
      assert CommittedAt(s0, s, e, prefix, added, n);
      LayStepAt(s0, s, e, prefix, added, l, n);
    }
  }

  lemma LayStepAt(s0: State, s: State, e: int, prefix: seq<Link>, added: seq<Link>, l: Link, n: int)
    requires CommittedAt(s0, s, e, prefix, added, n) && e in s.links
    requires l.srcPort != -1 || l.dstPort != -1
    ensures CommittedAt(s0, Lay(s, e, l), e, prefix, added + [l], n)
  {
    LayAt(s, e, l, n);
    LayPasses(s0, s, e, prefix, added, l, n);
    LayPorts(s0, s, e, added, l, n);
  }

  lemma LayPasses(s0: State, s: State, e: int, prefix: seq<Link>, added: seq<Link>, l: Link, n: int)
    requires PassOf(s, n) == PassOf(s0, n) + PassesAt(e, prefix, n) + PassesAt(e, Inner(added), n) && e in s.links
    requires l.srcPort != -1 || l.dstPort != -1
    ensures PassOf(Lay(s, e, l), n) == PassOf(s0, n) + PassesAt(e, prefix, n) + PassesAt(e, Inner(added + [l]), n)
  {
    var x := PassesAt(e, Inner(added), n);
    var t := if l.node == n && l.srcPort != -1 && l.dstPort != -1 then [Pass(l.srcPort, l.dstPort, e)] else [];
    assert PassOf(Lay(s, e, l), n) == PassOf(s, n) + t by {
      LayAt(s, e, l, n);
    }
    assert PassesAt(e, Inner(added + [l]), n) == x + t by {
      InnerPasses(e, added, l, n);
    }
    Regroup(PassOf(s0, n) + PassesAt(e, prefix, n), x, t);
  }

  lemma InnerPasses(e: int, added: seq<Link>, l: Link, n: int)
    ensures PassesAt(e, Inner(added + [l]), n) == PassesAt(e, Inner(added), n) +
      if l.node == n && l.srcPort != -1 && l.dstPort != -1 then [Pass(l.srcPort, l.dstPort, e)] else []
  {}

  lemma Regroup<T>(a: seq<T>, b: seq<T>, c: seq<T>)
    ensures a + b + c == a + (b + c)
  {}

  lemma LayPorts(s0: State, s: State, e: int, added: seq<Link>, l: Link, n: int)
    requires e in s.links && (l.srcPort != -1 || l.dstPort != -1)
    requires forall p :: InUsed(s, n, p) <==> InUsed(s0, n, p) || InGiven(added, n, p)
    requires forall p :: OutUsed(s, n, p) <==> OutUsed(s0, n, p) || OutGiven(added, n, p)
    ensures forall p :: InUsed(Lay(s, e, l), n, p) <==> InUsed(s0, n, p) || InGiven(added + [l], n, p)
    ensures forall p :: OutUsed(Lay(s, e, l), n, p) <==> OutUsed(s0, n, p) || OutGiven(added + [l], n, p)
  {
    LayAt(s, e, l, n);
    forall p
      ensures InUsed(Lay(s, e, l), n, p) <==> InUsed(s0, n, p) || InGiven(added + [l], n, p)
      ensures OutUsed(Lay(s, e, l), n, p) <==> OutUsed(s0, n, p) || OutGiven(added + [l], n, p)
    {
      GivenStep(added, l, n, p);
    }
  }

  lemma GivenStep(added: seq<Link>, l: Link, n: int, p: int)
    ensures InGiven(added + [l], n, p) <==> InGiven(added, n, p) || (p != -1 && l.node == n && l.srcPort == p)
    ensures OutGiven(added + [l], n, p) <==> OutGiven(added, n, p) || (p != -1 && l.node == n && l.dstPort == p)
  {}

  class Mapping {
    const adg: Array
    const g: Graph

    var attr: map<int, NodeAttr>            // by array node
    var links: map<int, seq<Link>>          // by edge
    var placed: map<int, int>               // node -> unit
    var numNodeMapped: int

    ghost function Now(): State
      reads this`attr, this`links
    {
      State(attr, links)
    }

    // ----- routing one edge

    // The question that the router is asked, in the present state.
    function Ask(e: int, src: int, dst: int, range: set<int>, place: map<int, int>): Query
      reads this`attr, this`links
    {
      Query(Context(adg, g, place), State(attr, links), e, src, dst, range)
    }

    // Copies the route of e0 from its start up to the spot where the search met it.
    method ShareRoute(ghost q: Query, e: int, e0: int, final: Spot) returns (ghost prefix: seq<Link>)
      requires QueryOk(q) && q.e == e && CarriedBy(q, final, e0)
      requires Committed(q.s, Now(), e, [], [])
      modifies `attr, `links
      ensures Committed(q.s, Now(), e, prefix, []) && CutAt(q, prefix, e0, final)
    {
      MeetingPoint(q, e0, final);
      prefix := [];
      var i := 0;
      var met := false;
      assert links[e0] == q.s.links[e0] && e0 != e;
      while !met
        invariant 0 <= i < |q.s.links[e0]| && prefix == q.s.links[e0][..i]
        invariant if met then i > 0 && Meets(q.s.links[e0][i - 1], final)
                  else exists j :: i <= j < |q.s.links[e0]| - 1 && Meets(q.s.links[e0][j], final)
        invariant Committed(q.s, Now(), e, prefix, [])
        decreases |q.s.links[e0]| - i
      {
        assert links[e0] == q.s.links[e0];
        var link := links[e0][i];
        ShareStep(q.s, Now(), e, prefix, link);
        ShareLink(e, link);
        prefix := prefix + [link];
        met := link.node == final.node && link.dstPort == final.port;
        i := i + 1;
      }
    }

    static predicate Meets(l: Link, t: Spot) { l.node == t.node && l.dstPort == t.port }

    // The route of e0 passes the spot before it ends.
    static lemma MeetingPoint(q: Query, e0: int, t: Spot)
      requires QueryOk(q) && CarriedBy(q, t, e0)
      ensures e0 in q.s.links && e0 != q.e
      ensures exists j :: 0 <= j < |q.s.links[e0]| - 1 && Meets(q.s.links[e0][j], t)
    {
      assert BoxOk(q.c, q.s, t.node);
      var p :| Pass(p, t.port, e0) in PassOf(q.s, t.node);
      assert Link(p, t.port, t.node) in q.s.links[e0];
      assert RouteOf(q.c, q.s, e0);
      var j :| 0 <= j < |q.s.links[e0]| && q.s.links[e0][j] == Link(p, t.port, t.node);
    }

    method ShareLink(e: int, l: Link)
      requires e in links
      modifies `attr, `links
      ensures Now() == Share(old(Now()), e, l)
    {
      links := links[e := links[e] + [l]];
      var a := if l.node in attr then attr[l.node] else DEFAULT;
      attr := attr[l.node := a.(pass := a.pass + [Pass(l.srcPort, l.dstPort, e)])];
    }

    method MarkIn(n: int, p: int)
      modifies `attr
      ensures attr == old(attr)[n := AttrOf(old(Now()), n).(inUsed := AttrOf(old(Now()), n).inUsed[p := true])]
    {
      var a := if n in attr then attr[n] else DEFAULT;
      attr := attr[n := a.(inUsed := a.inUsed[p := true])];
    }

    method MarkOut(n: int, p: int)
      modifies `attr
      ensures attr == old(attr)[n := AttrOf(old(Now()), n).(outUsed := AttrOf(old(Now()), n).outUsed[p := true])]
    {
      var a := if n in attr then attr[n] else DEFAULT;
      attr := attr[n := a.(outUsed := a.outUsed[p := true])];
    }

    // One link laid out anew, at the source unit, at the destination unit, or between.
    method LayLink(e: int, l: Link, atSource: bool, atDestination: bool)
      requires e in links
      requires atSource <==> l.srcPort == -1
      requires !atSource ==> (atDestination <==> l.dstPort == -1)
      modifies `attr, `links
      ensures Now() == Lay(old(Now()), e, l)
    {
      links := links[e := links[e] + [l]];
      if atSource {
        MarkOut(l.node, l.dstPort);
      } else if atDestination {
        MarkIn(l.node, l.srcPort);
      } else {
        MarkIn(l.node, l.srcPort);
        MarkOut(l.node, l.dstPort);
        attr := attr[l.node := attr[l.node].(pass := attr[l.node].pass + [Pass(l.srcPort, l.dstPort, e)])];
      }
    }

    // The spot before the destination of the trail, the k-th, as it is found in the records.
    static lemma AlongTrail(q: Query, visited: map<Spot, Step>, spots: seq<Spot>, ins: seq<int>, k: nat)
      requires QueryOk(q) && Aimed(q) && Trail(q, spots, ins) && Recorded(visited, spots, ins) && k < |ins|
      ensures spots[k + 1] in visited && visited[spots[k + 1]] == Step(spots[k], ins[k]) && spots[k + 1].port >= 0
      ensures ins[k] >= 0
      ensures k > 0 <==> spots[k].node != q.dst
      ensures k == 0 ==> spots[k].port == -1
    {
      InwardFree(q, spots, ins, k);
      assert ins[k] == ins[k];
      assert Hop(q, spots[k], ins[k], spots[k + 1]);
      assert NodeOk(q.c.adg, spots[k].node);
      if k > 0 {
        CrossPorts(q.c.adg, LinkAt(spots, ins, k));
      }
    }

    // Lays the links of the trail, following the recorded steps from its end to the destination.
    method LayTrail(ghost q: Query, e: int, dst: int, visited: map<Spot, Step>, final: Spot, shared: bool,
                    ghost prefix: seq<Link>, ghost spots: seq<Spot>, ghost ins: seq<int>, ghost same: Option<int>)
      requires QueryOk(q) && Aimed(q) && q.e == e && q.dst == dst && Shortest(q, visited, final, spots, ins)
      requires shared <==> same.Some?
      requires same.None? ==> AtSource(q, final)
      requires Committed(q.s, Now(), e, prefix, [])
      modifies `attr, `links
      ensures Committed(q.s, Now(), e, prefix, Added(q, spots, ins, same))
    {
      ghost var k := |ins| - 1;
      AlongTrail(q, visited, spots, ins, k);
      ghost var start: seq<Link> := [];
      if !shared {
        var l := Link(-1, final.port, final.node);
        LayStep(q.s, Now(), e, prefix, [], l);
        LayLink(e, l, true, false);
        start := [l];
        assert [] + [l] == start;
      }
      assert [] + Inward(spots, ins, |ins| - 1) == Inward(spots, ins, |ins| - 1);
      LayInward(q, e, dst, visited, visited[final].dst, visited[final].inPort, prefix, start, spots, ins);
    }

    // The records hold the trail that is laid.
    static ghost predicate Tracing(q: Query, e: int, dst: int, visited: map<Spot, Step>, spots: seq<Spot>, ins: seq<int>) {
      forall k {:trigger Collections.Unfold(k)} | Collections.Unfold(k) && k == Collections.TheProgress ::
        QueryOk(q) && Aimed(q) && q.e == e && q.dst == dst && Trail(q, spots, ins) && Recorded(visited, spots, ins)
    }

    // The walk along the trail has come to its k-th spot.
    static ghost predicate AtSpot(dst: int, at: Spot, inPort: int, spots: seq<Spot>, ins: seq<int>, k: int) {
      && 0 <= k < |ins| && k < |spots| && at == spots[k] && inPort == ins[k]
      && (k > 0 <==> at.node != dst)
      && (k == 0 ==> at.port == -1 && inPort >= 0)
    }

    // The links of the trail are laid as far as from its end to the k-th spot.
    static ghost predicate LaidFrom(q: Query, s: State, prefix: seq<Link>, start: seq<Link>, spots: seq<Spot>, ins: seq<int>, k: int)
      requires 0 <= k < |ins| < |spots|
    {
      forall i {:trigger Collections.Unfold(i)} | Collections.Unfold(i) && i == Collections.TheProgress ::
        Committed(q.s, s, q.e, prefix, start + Inward(spots, ins, |ins| - 1)[..|ins| - 1 - k])
    }

    static lemma NoneLaid(q: Query, s: State, prefix: seq<Link>, start: seq<Link>, spots: seq<Spot>, ins: seq<int>)
      requires 0 < |ins| < |spots| && Committed(q.s, s, q.e, prefix, start)
      ensures LaidFrom(q, s, prefix, start, spots, ins, |ins| - 1)
    {
      assert start + Inward(spots, ins, |ins| - 1)[..0] == start;
    }

    method LayInward(ghost q: Query, e: int, dst: int, visited: map<Spot, Step>, first: Spot, firstPort: int,
                     ghost prefix: seq<Link>, ghost start: seq<Link>, ghost spots: seq<Spot>, ghost ins: seq<int>)
      requires Tracing(q, e, dst, visited, spots, ins) && |spots| == |ins| + 1
      requires AtSpot(dst, first, firstPort, spots, ins, |ins| - 1)
      requires Committed(q.s, Now(), e, prefix, start) && e == q.e
      modifies `attr, `links
      ensures Committed(q.s, Now(), e, prefix, start + Inward(spots, ins, |ins| - 1))
    {
      ghost var k := |ins| - 1;
      var at, inPort := first, firstPort;
      NoneLaid(q, Now(), prefix, start, spots, ins);
      while at.node != dst
        invariant AtSpot(dst, at, inPort, spots, ins, k)
        invariant LaidFrom(q, Now(), prefix, start, spots, ins, k)
        decreases k
      {
        at, inPort := LayNext(q, e, dst, visited, at, inPort, prefix, start, spots, ins, k);
        k := k - 1;
      }
      LayLast(q, e, at, inPort, prefix, start, spots, ins);
    }

    static lemma InwardStep(start: seq<Link>, spots: seq<Spot>, ins: seq<int>, k: nat)
      requires k < |ins| < |spots|
      ensures var inward := Inward(spots, ins, |ins| - 1);
        start + inward[..|ins| - 1 - k] + [LinkAt(spots, ins, k)] == start + inward[..|ins| - k]
    {}

    method LayLast(ghost q: Query, e: int, at: Spot, inPort: int,
                   ghost prefix: seq<Link>, ghost start: seq<Link>, ghost spots: seq<Spot>, ghost ins: seq<int>)
      requires |spots| == |ins| + 1 && ins != [] && at == spots[0] && inPort == ins[0]
      requires at.port == -1 && inPort >= 0 && e == q.e
      requires LaidFrom(q, Now(), prefix, start, spots, ins, 0)
      modifies `attr, `links
      ensures Committed(q.s, Now(), e, prefix, start + Inward(spots, ins, |ins| - 1))
    {
      assert Collections.Unfold(Collections.TheProgress);
      ghost var inward := Inward(spots, ins, |ins| - 1);
      var l := Link(inPort, at.port, at.node);
      assert inward[..|ins| - 1] + [l] == inward;
      assert start + inward[..|ins| - 1] + [l] == start + inward;
      LayStep(q.s, Now(), e, prefix, start + inward[..|ins| - 1], l);
      LayLink(e, l, false, true);
    }

    method LayNext(ghost q: Query, e: int, dst: int, visited: map<Spot, Step>, at: Spot, inPort: int,
                   ghost prefix: seq<Link>, ghost start: seq<Link>, ghost spots: seq<Spot>, ghost ins: seq<int>, ghost k: nat)
      returns (at': Spot, inPort': int)
      requires Tracing(q, e, dst, visited, spots, ins) && AtSpot(dst, at, inPort, spots, ins, k) && k > 0 && |spots| == |ins| + 1
      requires LaidFrom(q, Now(), prefix, start, spots, ins, k)
      modifies `attr, `links
      ensures AtSpot(dst, at', inPort', spots, ins, k - 1)
      ensures LaidFrom(q, Now(), prefix, start, spots, ins, k - 1)
    {
      NextSpot(q, e, dst, visited, at, inPort, spots, ins, k);
      var l := Link(inPort, at.port, at.node);
      assert LaidFrom(q, Lay(Now(), e, l), prefix, start, spots, ins, k - 1) by {
        NextLaid(q, Now(), l, prefix, start, spots, ins, k);
      }
      LayLink(e, l, false, false);
      inPort' := visited[at].inPort;
      at' := visited[at].dst;
    }

    static lemma NextSpot(q: Query, e: int, dst: int, visited: map<Spot, Step>, at: Spot, inPort: int,
                          spots: seq<Spot>, ins: seq<int>, k: nat)
      requires Tracing(q, e, dst, visited, spots, ins) && AtSpot(dst, at, inPort, spots, ins, k) && k > 0
      ensures e == q.e && inPort >= 0 && at.port >= 0
      ensures at in visited && AtSpot(dst, visited[at].dst, visited[at].inPort, spots, ins, k - 1)
    {
      assert Collections.Unfold(Collections.TheProgress);
      AlongTrail(q, visited, spots, ins, k - 1);
      AlongTrail(q, visited, spots, ins, k);
    }

    static lemma NextLaid(q: Query, s: State, l: Link, prefix: seq<Link>, start: seq<Link>, spots: seq<Spot>, ins: seq<int>, k: nat)
      requires 0 < k < |ins| < |spots| && LaidFrom(q, s, prefix, start, spots, ins, k)
      requires l == LinkAt(spots, ins, k) && l.srcPort >= 0
      ensures q.e in s.links && LaidFrom(q, Lay(s, q.e, l), prefix, start, spots, ins, k - 1)
    {
      assert Collections.Unfold(Collections.TheProgress);
      InwardStep(start, spots, ins, k);
      LayStep(q.s, s, q.e, prefix, start + Inward(spots, ins, |ins| - 1)[..|ins| - 1 - k], l);
    }

    // ----- the in ports that an edge may end at

    // The unit can take the node: it has its operands.
    predicate Hosts(f: int, n: int) {
      && IsFu(adg, f) && n in g.nodes
      && g.nodes[n].NumInputs() <= |adg.nodes[f].operandInputs|
      && forall p | p in g.nodes[n].inputEdges :: 0 <= p < |adg.nodes[f].operandInputs|
    }

    ghost predicate Idle(f: int, k: int)
      requires IsFu(adg, f) && 0 <= k < |adg.nodes[f].operandInputs|
      reads this`attr, this`links
    {
      forall p | p in adg.nodes[f].operandInputs[k] :: !InUsed(Now(), f, p)
    }

    method OperandUsed(f: int, k: int) returns (used: bool)
      requires IsFu(adg, f) && 0 <= k < |adg.nodes[f].operandInputs|
      ensures used <==> !Idle(f, k)
    {
      used := false;
      var todo := adg.nodes[f].operandInputs[k];
      while todo != {} && !used
        invariant todo <= adg.nodes[f].operandInputs[k]
        invariant if used then !Idle(f, k)
                  else forall p | p in adg.nodes[f].operandInputs[k] && p !in todo :: !InUsed(Now(), f, p)
        decreases |todo|
      {
        var p := Collections.Pick(todo);
        used := f in attr && IsSet(attr[f].inUsed, p);
        todo := todo - {p};
      }
    }

    // The operands that edge e may feed.
    function OperandsFor(e: int): seq<int>
      requires e in g.edges && g.edges[e].dst in g.nodes
    {
      var node := g.nodes[g.edges[e].dst];
      if node.commutative then seq(node.NumInputs(), i => i) else [g.edges[e].dstPort]
    }

    method AvailDstPorts(e: int, f: int) returns (range: set<int>)
      requires ArrayOk(adg) && e in g.edges && g.edges[e].dst in g.nodes && Hosts(f, g.edges[e].dst)
      requires g.edges[e].dstPort in g.nodes[g.edges[e].dst].inputEdges
      ensures forall p :: p in range <==> Offered(e, f, p)
    {
      range := {};
      var opIdxs := OperandsFor(e);
      for i := 0 to |opIdxs|
        invariant forall p :: p in range <==> exists j :: 0 <= j < i && OffersPort(opIdxs[j], f, p)
      {
        var used := OperandUsed(f, opIdxs[i]);
        if !used {
          range := range + adg.nodes[f].operandInputs[opIdxs[i]];
        }
        assert forall p :: OffersPort(opIdxs[i], f, p) <==> !used && p in adg.nodes[f].operandInputs[opIdxs[i]];
      }
      forall p
        ensures (exists j :: 0 <= j < |opIdxs| && OffersPort(opIdxs[j], f, p)) <==> Offered(e, f, p)
      {
        OffersAreAvailable(e, f, p);
      }
    }

    ghost predicate OffersPort(k: int, f: int, p: int)
      reads this`attr, this`links
    {
      IsFu(adg, f) && 0 <= k < |adg.nodes[f].operandInputs| && Idle(f, k) && p in adg.nodes[f].operandInputs[k]
    }

    ghost predicate Offered(e: int, f: int, p: int)
      requires e in g.edges
      reads this`attr, this`links
    {
      OperandAllowed(g, adg, g.edges[e], f, p) && OperandIdle(adg, Now(), f, p)
    }

    lemma OffersAreAvailable(e: int, f: int, p: int)
      requires ArrayOk(adg) && e in g.edges && g.edges[e].dst in g.nodes && Hosts(f, g.edges[e].dst)
      requires g.edges[e].dstPort in g.nodes[g.edges[e].dst].inputEdges
      ensures (exists j :: 0 <= j < |OperandsFor(e)| && OffersPort(OperandsFor(e)[j], f, p)) <==> Offered(e, f, p)
    {
      var ops := OperandsFor(e);
      var node := adg.nodes[f];
      assert NodeOk(adg, f);
      if j :| 0 <= j < |ops| && OffersPort(ops[j], f, p) {
        forall k | 0 <= k < |node.operandInputs| && p in node.operandInputs[k]
          ensures k == ops[j]
        {}
      }
      if Offered(e, f, p) {
        if g.nodes[g.edges[e].dst].commutative {
          var k :| 0 <= k < |node.operandInputs| && k < g.nodes[g.edges[e].dst].NumInputs() && p in node.operandInputs[k];
          assert ops[k] == k && OffersPort(ops[k], f, p);
        } else {
          assert OffersPort(ops[0], f, p);
        }
      }
    }

    // ----- routing between two placed nodes

    ghost function OfferedPorts(e: int, f: int): set<int>
      requires e in g.edges && IsFu(adg, f)
      reads this`attr, this`links
    {
      set k, p | 0 <= k < |adg.nodes[f].operandInputs| && p in adg.nodes[f].operandInputs[k] && Offered(e, f, p) :: p
    }

    // An edge may be routed between the two units: the state is sound, the edge is not routed,
    // and place puts its ends there.
    ghost predicate CanAsk(e: int, src: int, dst: int, place: map<int, int>)
      reads this`attr, this`links
    {
      && Inv(Context(adg, g, place), Now())
      && e in g.edges && e !in links && src != dst && IsFu(adg, src)
      && g.edges[e].src in place && place[g.edges[e].src] == src
      && g.edges[e].dst in place && place[g.edges[e].dst] == dst && Hosts(dst, g.edges[e].dst)
      && g.edges[e].dstPort in g.nodes[g.edges[e].dst].inputEdges
    }

    method RouteDfgEdge(e: int, src: int, dst: int, place: map<int, int>) returns (ok: bool)
      requires CanAsk(e, src, dst, place)
      modifies `attr, `links
      ensures Answered(old(Ask(e, src, dst, OfferedPorts(e, dst), place)), Now(), ok)
    {
      var range := AvailDstPorts(e, dst);
      OffersExact(e, dst, range);
      ghost var q := Ask(e, src, dst, range, place);
      assert q == Ask(e, src, dst, OfferedPorts(e, dst), place);
      if range == {} {
        NoPortNoAnswer(e, src, dst, place, q);
        return false;
      }
      ok := RouteDfgEdgeFromDst(e, src, dst, range, place);
    }

    lemma OffersExact(e: int, dst: int, range: set<int>)
      requires e in g.edges && IsFu(adg, dst) && forall p :: p in range <==> Offered(e, dst, p)
      ensures range == OfferedPorts(e, dst)
    {
      forall p
        ensures p in range <==> p in OfferedPorts(e, dst)
      {
        if Offered(e, dst, p) {
          assert IsOperandPort(adg, dst, p);
        }
      }
    }

    lemma NoPortNoAnswer(e: int, src: int, dst: int, place: map<int, int>, q: Query)
      requires CanAsk(e, src, dst, place) && q == Ask(e, src, dst, {}, place) && OfferedPorts(e, dst) == {}
      ensures Answered(q, Now(), false)
    {
      NoPortNoTrail(q);
      assert q == Ask(e, src, dst, OfferedPorts(e, dst), place);
      AskIsOk(e, src, dst, place);
      if Routable(q.c, q.s, q.e) {
        RoutableHasTrail(q);
      }
    }

    static lemma NoPortNoTrail(q: Query)
      requires q.e in q.c.g.edges && q.range == {}
      ensures forall spots, ins :: !GoalTrail(q, spots, ins)
    {
      forall spots, ins
        ensures !GoalTrail(q, spots, ins)
      {
        assert |spots| > 1 && |ins| > 0 ==> !Hop(q, Root(q), ins[0], spots[1]);
      }
    }

    method RouteDfgEdgeFromDst(e: int, src: int, dst: int, range: set<int>, place: map<int, int>) returns (ok: bool)
      requires CanAsk(e, src, dst, place) && range == OfferedPorts(e, dst)
      modifies `attr, `links
      ensures Answered(old(Ask(e, src, dst, range, place)), Now(), ok)
    {
      var q := Ask(e, src, dst, range, place);
      AskIsOk(e, src, dst, place);
      var visited, final, same;
      ghost var spots, ins;
      ok, visited, final, same, spots, ins := Search(q);
      if ok {
        links := links[e := []];
        CommitStart(q.s, e);
        ghost var prefix := [];
        if same.Some? {
          prefix := ShareRoute(q, e, same.value, final);
        }
        LayTrail(q, e, dst, visited, final, same.Some?, prefix, spots, ins, same);
        RoutedKeeps(q, Now(), prefix, spots, ins, same);
        RoutedIsAdded(q, Now(), prefix, spots, ins, same);
        OwnPartIsLeast(q, Now(), prefix, spots, ins, same);
      } else if Routable(q.c, q.s, q.e) {
        RoutableHasTrail(q);
      }
    }

    lemma AskIsOk(e: int, src: int, dst: int, place: map<int, int>)
      requires CanAsk(e, src, dst, place)
      ensures var q := Ask(e, src, dst, OfferedPorts(e, dst), place); QueryOk(q) && Aimed(q) && OffersAll(q)
    {
      assert NodeOk(adg, dst);
      var q := Ask(e, src, dst, OfferedPorts(e, dst), place);
      forall p | PortAvailable(q.c, q.s, e, dst, p)
        ensures p in q.range
      {
        assert Offered(e, dst, p) && IsOperandPort(adg, dst, p);
      }
    }

    // ----- taking a route away

    // Which of the two ports no pass of the list uses. A port of -1 is none.
    static method PortsUnused(nodeEdges: seq<Pass>, l: Link) returns (inUnused: bool, outUnused: bool)
      ensures inUnused <==> l.srcPort != -1 && !SomeIn(nodeEdges, l.srcPort)
      ensures outUnused <==> l.dstPort != -1 && !SomeOut(nodeEdges, l.dstPort)
    {
      inUnused := l.srcPort != -1;
      outUnused := l.dstPort != -1;
      var k := 0;
      while k < |nodeEdges|
        invariant 0 <= k <= |nodeEdges|
        invariant inUnused <==> l.srcPort != -1 && !SomeIn(nodeEdges[..k], l.srcPort)
        invariant outUnused <==> l.dstPort != -1 && !SomeOut(nodeEdges[..k], l.dstPort)
      {
        var x := nodeEdges[k];
        assert nodeEdges[..k + 1] == nodeEdges[..k] + [x];
        assert x in nodeEdges;
        if inUnused && x.srcPort == l.srcPort {
          inUnused := false;
        }
        if outUnused && x.dstPort == l.dstPort {
          outUnused := false;
        }
        if !inUnused && !outUnused {
          SomeMore(nodeEdges, k + 1, l);
          return;
        }
        k := k + 1;
      }
      assert nodeEdges[..|nodeEdges|] == nodeEdges;
    }

    static lemma SomeMore(ps: seq<Pass>, k: nat, l: Link)
      requires k <= |ps|
      ensures SomeIn(ps[..k], l.srcPort) ==> SomeIn(ps, l.srcPort)
      ensures SomeOut(ps[..k], l.dstPort) ==> SomeOut(ps, l.dstPort)
    {}

    // The attributes of a node once edge e no longer takes link l there.
    static function Cleared(a: NodeAttr, e: int, l: Link): NodeAttr {
      var left := Without(a.pass, {e});
      NodeAttr(a.dfgNode, left,
        if l.srcPort != -1 && !SomeIn(left, l.srcPort) then a.inUsed[l.srcPort := false] else a.inUsed,
        if l.dstPort != -1 && !SomeOut(left, l.dstPort) then a.outUsed[l.dstPort := false] else a.outUsed)
    }

    method UnrouteLink(e: int, l: Link)
      modifies `attr
      ensures attr == if l.node in old(attr) then old(attr)[l.node := Cleared(old(attr)[l.node], e, l)] else old(attr)
    {
      if l.node in attr {
        var a := attr[l.node];
        var left := Without(a.pass, {e});
        var inUnused, outUnused := PortsUnused(left, l);
        var inUsed := if inUnused then a.inUsed[l.srcPort := false] else a.inUsed;
        var outUsed := if outUnused then a.outUsed[l.dstPort := false] else a.outUsed;
        attr := attr[l.node := NodeAttr(a.dfgNode, left, inUsed, outUsed)];
      }
    }

    static lemma ClearStep(s: State, s': State, s'': State, e: int, i: nat, j: nat)
      requires e in s.links && i < |s.links[e]| && PartlyUnrouted(s, s', e, i) && j == i + 1
      requires s''.links == s'.links
      requires var l := s.links[e][i];
        s''.attr == if l.node in s'.attr then s'.attr[l.node := Cleared(s'.attr[l.node], e, l)] else s'.attr
      ensures PartlyUnrouted(s, s'', e, j)
    {
      forall n
        ensures PartlyAt(s, s'', e, j, n)
      {
        assert PartlyAt(s, s', e, i, n);
        ClearAt(s, s', s'', e, i, n);
      }
    }

    static lemma ClearAt(s: State, s': State, s'': State, e: int, i: nat, n: int)
      requires e in s.links && i < |s.links[e]| && PartlyAt(s, s', e, i, n)
      requires var l := s.links[e][i];
        AttrOf(s'', n) == if l.node == n && n in s'.attr then Cleared(s'.attr[n], e, l) else AttrOf(s', n)
      ensures PartlyAt(s, s'', e, i + 1, n)
    {
      var l := s.links[e][i];
      var done := s.links[e][..i];
      var left := Without(PassOf(s, n), {e});
      assert s.links[e][..i + 1] == done + [l];
      assert Touches(done + [l], n) <==> Touches(done, n) || l.node == n by {
        assert forall x :: x in done + [l] <==> x in done || x == l;
      }
      assert Without(PassOf(s', n), {e}) == left by {
        WithoutTwice(PassOf(s, n), {e}, {e});
        assert {e} + {e} == {e};
      }
      forall p
        ensures InUsed(s'', n, p) <==> InUsed(s, n, p) && !(InGiven(done + [l], n, p) && !SomeIn(left, p))
        ensures OutUsed(s'', n, p) <==> OutUsed(s, n, p) && !(OutGiven(done + [l], n, p) && !SomeOut(left, p))
      {
        GivenStep(done, l, n, p);
      }
    }

    method UnrouteDfgEdge(e: int, ghost c: Context)
      requires Inv(c, Now())
      modifies `attr, `links
      ensures if e in old(links) then Unrouted(old(Now()), Now(), e) else Now() == old(Now())
      ensures Inv(c, Now())
    {
      if e !in links {
        return;
      }
      ghost var s := Now();
      NothingUnrouted(s, e);
      for i := 0 to |links[e]|
        invariant links == s.links
        invariant PartlyUnrouted(s, Now(), e, i)
      {
        ghost var s' := Now();
        UnrouteLink(e, links[e][i]);
        ClearStep(s, s', Now(), e, i, i + 1);
      }
      WhollyUnrouted(c, s, Now(), e);
      links := links - {e};
      UnroutedKeeps(c, s, Now(), e);
    }

    static lemma NothingUnrouted(s: State, e: int)
      requires e in s.links
      ensures PartlyUnrouted(s, s, e, 0)
    {}

    // ----- placing nodes

    ghost predicate GraphFits() {
      forall k {:trigger Collections.Unfold(k)} | Collections.Unfold(k) && k == Collections.TheGraph :: WellFormed(g) && NoLoops()
    }

    ghost predicate NoLoops() {
      forall e | e in g.edges :: g.edges[e].src != g.edges[e].dst
    }

    // Every placed node has a unit of its own that can take it, and the unit knows the node.
    ghost predicate OwnersOk(s: State, place: map<int, int>) {
      && (forall n | n in place :: Hosts(place[n], n) && AttrOf(s, place[n]).dfgNode == Some(n))
      && (forall a | AttrOf(s, a).dfgNode.Some? ::
            AttrOf(s, a).dfgNode.value in place && place[AttrOf(s, a).dfgNode.value] == a)
    }

    // An edge is routed exactly when both its ends are placed.
    ghost predicate EdgesRouted(s: State, place: map<int, int>) {
      && s.links.Keys <= g.edges.Keys
      && forall e | e in g.edges :: e in s.links <==> g.edges[e].src in place && g.edges[e].dst in place
    }

    ghost predicate Valid()
      reads this`attr, this`links, this`placed, this`numNodeMapped
    {
      && GraphFits() && Inv(Context(adg, g, placed), Now())
      && OwnersOk(Now(), placed) && EdgesRouted(Now(), placed)
      && numNodeMapped == |placed|
    }

    function OutEdges(n: int): set<int>
      requires n in g.nodes
    {
      set p, id | p in g.nodes[n].outputEdges && id in g.nodes[n].outputEdges[p] :: id
    }

    function InEdges(n: int): set<int>
      requires n in g.nodes
    {
      set p | p in g.nodes[n].inputEdges :: g.nodes[n].inputEdges[p]
    }

    lemma EdgesAt(n: int)
      requires GraphFits() && n in g.nodes
      ensures forall e :: e in InEdges(n) <==> e in g.edges && g.edges[e].dst == n
      ensures forall e :: e in OutEdges(n) <==> e in g.edges && g.edges[e].src == n
      ensures InEdges(n) !! OutEdges(n)
    {
      assert Collections.Unfold(Collections.TheGraph);
      assert InputsBacked(g, n) && OutputsBacked(g, n);
      forall e | e in g.edges && (g.edges[e].src == n || g.edges[e].dst == n)
        ensures g.edges[e].src == n ==> e in OutEdges(n)
        ensures g.edges[e].dst == n ==> e in InEdges(n)
      {
        assert EdgeRegistered(g, e);
      }
    }

    lemma InputEdge(n: int, p: int)
      requires GraphFits() && n in g.nodes && p in g.nodes[n].inputEdges
      ensures g.nodes[n].inputEdges[p] in g.edges
      ensures g.edges[g.nodes[n].inputEdges[p]].dst == n && g.edges[g.nodes[n].inputEdges[p]].dstPort == p
    {
      assert Collections.Unfold(Collections.TheGraph);
      assert InputsBacked(g, n);
    }

    lemma PortsMatch(n: int)
      requires GraphFits() && n in g.nodes
      ensures |g.nodes[n].inputEdges| == |g.nodes[n].inputs|
    {
      assert Collections.Unfold(Collections.TheGraph);
      assert InputsBacked(g, n);
      assert |g.nodes[n].inputs.Keys| == |g.nodes[n].inputEdges.Keys|;
    }

    lemma EdgeEnds(e: int)
      requires GraphFits() && e in g.edges
      ensures g.edges[e].src != g.edges[e].dst
      ensures g.edges[e].dst in g.nodes && g.edges[e].dstPort in g.nodes[g.edges[e].dst].inputEdges
    {
      assert Collections.Unfold(Collections.TheGraph);
      assert EdgeRegistered(g, e);
    }

    // In the middle of placing n: the edges of R, all at n, have been routed since state s0.
    ghost predicate Trying(s0: State, n: int, place: map<int, int>, R: set<int>)
      requires n in g.nodes
      reads this`attr, this`links
    {
      forall k {:trigger Collections.Unfold(k)} | Collections.Unfold(k) && k == Collections.TheProgress ::
        && Inv(Context(adg, g, place), Now())
        && Extends(s0, Now(), R) && SameOwners(s0, Now()) && R <= InEdges(n) + OutEdges(n)
    }

    // What placing n at target starts from.
    ghost predicate Starting(s0: State, n: int, target: int, place: map<int, int>)
      reads this`placed
    {
      && GraphFits() && n in g.nodes && n !in placed && Hosts(target, n) && place == placed[n := target]
      && (forall m | m in placed :: Hosts(placed[m], m) && placed[m] != target)
      && (forall e | e in s0.links && e in g.edges :: g.edges[e].src != n && g.edges[e].dst != n)
    }

    ghost predicate OtherEndIn(n: int, e: int, place: map<int, int>) {
      && e in g.edges
      && if g.edges[e].src == n then g.edges[e].dst in place else g.edges[e].dst == n && g.edges[e].src in place
    }

    ghost predicate OtherEndPlaced(n: int, e: int)
      reads this`placed
    {
      OtherEndIn(n, e, placed)
    }

    lemma MayAsk(s0: State, n: int, target: int, place: map<int, int>, R: set<int>, e: int)
      requires Starting(s0, n, target, place) && Trying(s0, n, place, R)
      requires e in g.edges && e !in R
      requires OtherEndPlaced(n, e)
      ensures CanAsk(e, place[g.edges[e].src], place[g.edges[e].dst], place)
    {
      assert Collections.Unfold(Collections.TheProgress);
      EdgeEnds(e);
    }

    lemma Tried(s0: State, s: State, n: int, place: map<int, int>, R: set<int>, e: int, q: Query)
      requires n in g.nodes && Inv(q.c, s) && Extends(s0, s, R) && SameOwners(s0, s) && R <= InEdges(n) + OutEdges(n)
      requires q.s == s && q.e == e && e in g.edges && q.c.g == g && e !in s.links && e in InEdges(n) + OutEdges(n)
      requires RoutedShortest(q, Now())
      ensures Extends(s0, Now(), R + {e}) && SameOwners(s0, Now())
    {
      var prefix, spots, ins, same :| RoutedBy(q, Now(), prefix, spots, ins, same);
      CommitExtends(q.c, s0, s, Now(), R, e, prefix, Added(q, spots, ins, same));
    }

    // With n on target and the edges of R routed, edge e, which n shares with a placed node, cannot
    // be routed.
    ghost predicate BlockedAt(s0: State, n: int, target: int, place: map<int, int>, e: int, s: State, R: set<int>)
      requires n in g.nodes
    {
      var c := Context(adg, g, place[n := target]);
      && e in NeighboursIn(n, place) && R <= NeighboursIn(n, place) && e !in R && e in g.edges
      && Extends(s0, s, R) && Inv(c, s) && !Routable(c, s, e)
    }

    // Some edge at n stands in the way of placing n on target.
    ghost predicate Blocked(s0: State, n: int, target: int, place: map<int, int>)
      requires n in g.nodes
    {
      exists e, s, R :: BlockedAt(s0, n, target, place, e, s, R)
    }

    // Blocked is a matter of routes and passes.
    lemma BlockedAlike(s0: State, s0': State, c: Context, n: int, target: int, place: map<int, int>)
      requires n in g.nodes && Blocked(s0, n, target, place) && SameRouting(c, s0', s0)
      ensures Blocked(s0', n, target, place)
    {
      var e, s, R :| BlockedAt(s0, n, target, place, e, s, R);
      assert BlockedAt(s0', n, target, place, e, s, R);
    }

    // Routes e, one end of which is n.
    method TryEdge(n: int, target: int, place: map<int, int>, e: int, ghost s0: State, ghost R: set<int>)
      returns (ok: bool)
      requires Starting(s0, n, target, place) && Trying(s0, n, place, R)
      requires e in InEdges(n) + OutEdges(n) && e !in R
      requires e in g.edges
      requires OtherEndPlaced(n, e)
      modifies `attr, `links
      ensures Trying(s0, n, place, if ok then R + {e} else R)
      ensures !ok ==> Now() == old(Now()) && !Routable(Context(adg, g, place), Now(), e)
    {
      assert Collections.Unfold(Collections.TheProgress);
      MayAsk(s0, n, target, place, R, e);
      ghost var q := Ask(e, place[g.edges[e].src], place[g.edges[e].dst], OfferedPorts(e, place[g.edges[e].dst]), place);
      ghost var s := Now();
      ok := RouteDfgEdge(e, place[g.edges[e].src], place[g.edges[e].dst], place);
      if ok {
        Tried(s0, s, n, place, R, e, q);
      }
    }

    // The present state shows that n is blocked: e cannot be routed on top of R.
    lemma TriedInVain(s0: State, n: int, target: int, place: map<int, int>, R: set<int>, e: int)
      requires Starting(s0, n, target, place) && Trying(s0, n, place, R)
      requires e in InEdges(n) + OutEdges(n) && e !in R && OtherEndPlaced(n, e) && R <= Neighbouring(n)
      requires !Routable(Context(adg, g, place), Now(), e)
      ensures Blocked(s0, n, target, placed)
    {
      assert Collections.Unfold(Collections.TheProgress);
      assert BlockedAt(s0, n, target, placed, e, Now(), R);
    }

    // The edges of the list that have been looked at and whose other end is placed.
    ghost predicate RoutedAmong(n: int, edges: set<int>, todo: set<int>, R: set<int>)
      reads this`placed
    {
      forall e :: e in R <==> e in edges && e !in todo && OtherEndPlaced(n, e)
    }

    // Routes the edges into n, or out of it, whose other end is placed; stops at the first
    // that cannot be routed. routedEdges lists the routed ones.
    method RouteEdges(n: int, target: int, place: map<int, int>, edges: set<int>, routed: seq<int>, ghost s0: State, ghost R0: set<int>)
      returns (succeed: bool, routedEdges: seq<int>, ghost R: set<int>)
      requires Starting(s0, n, target, place) && Trying(s0, n, place, R0)
      requires edges <= InEdges(n) + OutEdges(n) && edges !! R0
      requires forall e | e in edges :: e in g.edges && (g.edges[e].src == n || g.edges[e].dst == n)
      requires R0 == Listed(routed) && R0 <= Neighbouring(n)
      modifies `attr, `links
      ensures Trying(s0, n, place, R)
      ensures R == Listed(routedEdges) && R <= Neighbouring(n)
      ensures !succeed ==> Blocked(s0, n, target, placed)
      ensures succeed ==> R0 <= R && RoutedAmong(n, edges, {}, R - R0)
    {
      routedEdges, R, succeed := routed, R0, true;
      var todo := edges;
      while todo != {} && succeed
        invariant todo <= edges
        invariant Trying(s0, n, place, R)
        invariant R == Listed(routedEdges) && R <= Neighbouring(n)
        invariant R0 <= R && R !! todo
        invariant !succeed ==> Blocked(s0, n, target, placed)
        invariant succeed ==> RoutedAmong(n, edges, todo, R - R0)
        decreases |todo|
      {
        var e := Collections.Pick(todo);
        ghost var R' := R;
        succeed, routedEdges, R := RouteOne(n, target, place, e, routedEdges, s0, R);
        if succeed {
          OneMoreAmong(n, edges, todo, R' - R0, R - R0, e);
        }
        todo := todo - {e};
      }
    }

    // Routes e if its other end is placed.
    method RouteOne(n: int, target: int, place: map<int, int>, e: int, routed: seq<int>, ghost s0: State, ghost R: set<int>)
      returns (succeed: bool, routedEdges: seq<int>, ghost R': set<int>)
      requires Starting(s0, n, target, place) && Trying(s0, n, place, R)
      requires e in InEdges(n) + OutEdges(n) && e !in R && R == Listed(routed) && R <= Neighbouring(n)
      requires e in g.edges && (g.edges[e].src == n || g.edges[e].dst == n)
      modifies `attr, `links
      ensures Trying(s0, n, place, R') && R' == Listed(routedEdges)
      ensures R' == (if succeed && OtherEndPlaced(n, e) then R + {e} else R) && R' <= Neighbouring(n)
      ensures !succeed ==> Blocked(s0, n, target, placed)
    {
      succeed, routedEdges, R' := true, routed, R;
      var other := if g.edges[e].src == n then g.edges[e].dst else g.edges[e].src;
      if other in placed {
        succeed := TryEdge(n, target, place, e, s0, R);
        if succeed {
          ListedMore(routedEdges, e);
          routedEdges := routedEdges + [e];
          R' := R + {e};
        } else {
          TriedInVain(s0, n, target, place, R, e);
        }
      }
    }

    lemma OneMoreAmong(n: int, edges: set<int>, todo: set<int>, R: set<int>, R': set<int>, e: int)
      requires RoutedAmong(n, edges, todo, R) && e in todo && e in edges
      requires forall x :: x in R' <==> x in R || (x == e && OtherEndPlaced(n, e))
      ensures RoutedAmong(n, edges, todo - {e}, R')
    {}

    // Takes all the routes in the list away again.
    method Rollback(routedEdges: seq<int>, ghost c: Context, ghost s0: State, ghost R: set<int>)
      requires Inv(c, Now()) && Extends(s0, Now(), R) && SameOwners(s0, Now())
      requires R == Listed(routedEdges)
      modifies `attr, `links
      ensures Inv(c, Now()) && Extends(s0, Now(), {}) && SameOwners(s0, Now())
    {
      ghost var left := R;
      assert routedEdges[0..] == routedEdges;
      for i := 0 to |routedEdges|
        invariant Inv(c, Now()) && Extends(s0, Now(), left) && SameOwners(s0, Now())
        invariant left <= Listed(routedEdges[i..])
      {
        ghost var s := Now();
        UnrouteDfgEdge(routedEdges[i], c);
        assert routedEdges[i..] == [routedEdges[i]] + routedEdges[i + 1..];
        if routedEdges[i] in left {
          UnrouteExtends(s0, s, Now(), left, routedEdges[i]);
          left := left - {routedEdges[i]};
        }
      }
      assert routedEdges[|routedEdges|..] == [];
    }

    static ghost function Listed(s: seq<int>): set<int> {
      set e | e in s
    }

    static lemma ListedMore(s: seq<int>, e: int)
      ensures Listed(s + [e]) == Listed(s) + {e}
    {}

    // Places n on the unit without routing.
    method MapDfgNodeNoRoute(n: int, f: int)
      requires n !in placed
      modifies `attr, `placed, `numNodeMapped
      ensures placed == old(placed)[n := f] && numNodeMapped == old(numNodeMapped) + 1
      ensures attr == old(attr)[f := AttrOf(old(Now()), f).(dfgNode := Some(n))]
    {
      placed := placed[n := f];
      var a := if f in attr then attr[f] else DEFAULT;
      attr := attr[f := a.(dfgNode := Some(n))];
      numNodeMapped := numNodeMapped + 1;
    }

    // The edges at n whose other end is placed.
    ghost function Neighbouring(n: int): set<int>
      requires n in g.nodes
      reads this`placed
    {
      NeighboursIn(n, placed)
    }

    ghost function NeighboursIn(n: int, place: map<int, int>): set<int>
      requires n in g.nodes
    {
      set e | e in InEdges(n) + OutEdges(n) && OtherEndIn(n, e, place)
    }

    lemma StartMapping(n: int, target: int, place: map<int, int>)
      requires Valid() && n in g.nodes && n !in placed && place == placed[n := target]
      requires Hosts(target, n) && forall m | m in placed :: placed[m] != target
      ensures Starting(Now(), n, target, place) && Trying(Now(), n, place, {})
      ensures forall e | e in InEdges(n) :: e in g.edges && g.edges[e].dst == n
      ensures forall e | e in OutEdges(n) :: e in g.edges && g.edges[e].src == n
      ensures InEdges(n) !! OutEdges(n)
    {
      EdgesAt(n);
      ExtendsNone(Now());
      PlaceMore(adg, g, placed, Now(), n, target);
    }

    lemma AllNeighbours(n: int, R: set<int>, R': set<int>)
      requires n in g.nodes && R <= R'
      requires RoutedAmong(n, InEdges(n), {}, R) && RoutedAmong(n, OutEdges(n), {}, R' - R)
      ensures R' == Neighbouring(n)
    {
      forall e
        ensures e in R' <==> e in Neighbouring(n)
      {
        assert e in R' <==> e in R || e in R' - R;
      }
    }

    // Nothing is routed any more: the node can be forgotten.
    lemma PlaceBack(n: int, target: int, s0: State)
      requires GraphFits() && n !in placed && Inv(Context(adg, g, placed), s0)
      requires Inv(Context(adg, g, placed[n := target]), Now())
      requires Extends(s0, Now(), {})
      requires forall e | e in s0.links && e in g.edges :: g.edges[e].src != n && g.edges[e].dst != n
      ensures Inv(Context(adg, g, placed), Now()) && SameRouting(Context(adg, g, placed), s0, Now())
    {
      PlaceLess(adg, g, placed[n := target], Now(), n);
      assert placed[n := target] - {n} == placed;
      UndoneIsSame(Context(adg, g, placed), s0, Now());
    }

    // With the edges to all placed neighbours routed, n may count as placed.
    lemma FinishMapping(n: int, target: int, s0: State, place: map<int, int>, R: set<int>)
      requires Starting(s0, n, target, place) && Trying(s0, n, place, R) && R == Neighbouring(n)
      requires EdgesRouted(s0, placed)
      ensures Inv(Context(adg, g, place), State(attr[target := AttrOf(Now(), target).(dfgNode := Some(n))], links))
      ensures EdgesRouted(Now(), place)
    {
      assert Collections.Unfold(Collections.TheProgress);
      OwnerIsApart(Context(adg, g, place), Now(), target, Some(n));
      assert EdgesRouted(Now(), place) by {
        EdgesGain(n, target, s0, R);
      }
    }

    lemma EdgesGain(n: int, target: int, s0: State, R: set<int>)
      requires GraphFits() && n in g.nodes && n !in placed && EdgesRouted(s0, placed)
      requires Extends(s0, Now(), R) && R == Neighbouring(n)
      ensures EdgesRouted(Now(), placed[n := target])
    {
      EdgesAt(n);
      forall e | e in g.edges
        ensures e in links <==> g.edges[e].src in placed[n := target] && g.edges[e].dst in placed[n := target]
      {
        EdgeEnds(e);
        assert e in links <==> e in s0.links || e in R;
      }
    }

    method Occupy(n: int, target: int, ghost s0: State, place: map<int, int>, ghost R: set<int>)
      requires Starting(s0, n, target, place) && Trying(s0, n, place, R) && R == Neighbouring(n)
      requires EdgesRouted(s0, placed) && OwnersOk(s0, placed) && numNodeMapped == |placed|
      modifies `attr, `placed, `numNodeMapped
      ensures Valid() && placed == place && Extends(s0, Now(), R)
    {
      assert Collections.Unfold(Collections.TheProgress);
      FinishMapping(n, target, s0, place, R);
      OwnersGain(s0, Now(), n, target);
      ghost var s := Now();
      ghost var s' := State(attr[target := AttrOf(s, target).(dfgNode := Some(n))], links);
      OwnerOnly(s0, s, s', target, R);
      MapDfgNodeNoRoute(n, target);
      assert Now() == s' && placed == place;
      assert Inv(Context(adg, g, place), s') && OwnersOk(s', place) && EdgesRouted(s', place);
    }

    static lemma OwnerOnly(s0: State, s: State, s': State, a: int, R: set<int>)
      requires Extends(s0, s, R) && s'.links == s.links
      requires exists o :: s'.attr == s.attr[a := AttrOf(s, a).(dfgNode := o)]
      ensures Extends(s0, s', R)
    {}

    lemma OwnersGain(s0: State, s: State, n: int, target: int)
      requires OwnersOk(s0, placed) && SameOwners(s0, s) && n !in placed && Hosts(target, n)
      requires forall m | m in placed :: placed[m] != target
      ensures OwnersOk(State(s.attr[target := AttrOf(s, target).(dfgNode := Some(n))], s.links), placed[n := target])
    {
      var s' := State(s.attr[target := AttrOf(s, target).(dfgNode := Some(n))], s.links);
      forall a
        ensures AttrOf(s', a).dfgNode == if a == target then Some(n) else AttrOf(s0, a).dfgNode
      {}
    }

    lemma NothingMapped(s0: State)
      requires OwnersOk(s0, placed) && EdgesRouted(s0, placed)
      requires SameOwners(s0, Now()) && links == s0.links
      ensures OwnersOk(Now(), placed) && EdgesRouted(Now(), placed)
    {}

    // Places n on the unit target and routes the edges to and from its placed neighbours. Fails
    // only if one of them cannot be routed on top of others; then all is as it was.
    method MapDfgNode(n: int, target: int) returns (ok: bool)
      requires Valid() && n in g.nodes && n !in placed
      requires Hosts(target, n) && forall m | m in placed :: placed[m] != target
      modifies this
      ensures Valid()
      ensures ok ==> placed == old(placed)[n := target] && Extends(old(Now()), Now(), old(Neighbouring(n)))
      ensures !ok ==> placed == old(placed) && SameOwners(old(Now()), Now())
      ensures !ok ==> SameRouting(Context(adg, g, placed), old(Now()), Now())
      ensures !ok ==> Blocked(old(Now()), n, target, placed)
      ensures old(Neighbouring(n)) == {} ==> ok
    {
      ghost var s0 := Now();
      var place := placed[n := target];
      StartMapping(n, target, place);
      ghost var R;
      ok, R := RouteNeighbours(n, target, place, s0);
      if ok {
        Occupy(n, target, s0, place, R);
      } else {
        assert Collections.Unfold(Collections.TheProgress);
        PlaceBack(n, target, s0);
        NothingMapped(s0);
      }
    }

    method RouteNeighbours(n: int, target: int, place: map<int, int>, ghost s0: State) returns (ok: bool, ghost R: set<int>)
      requires Starting(s0, n, target, place) && Trying(s0, n, place, {})
      requires forall e | e in InEdges(n) :: e in g.edges && g.edges[e].dst == n
      requires forall e | e in OutEdges(n) :: e in g.edges && g.edges[e].src == n
      requires InEdges(n) !! OutEdges(n)
      modifies `attr, `links
      ensures Trying(s0, n, place, R)
      ensures R == if ok then Neighbouring(n) else {}
      ensures !ok ==> Blocked(s0, n, target, placed)
    {
      var routedEdges;
      ghost var R';
      R := {};
      ok, routedEdges, R := RouteEdges(n, target, place, InEdges(n), [], s0, R);
      R' := R;
      if ok {
        ok, routedEdges, R' := RouteEdges(n, target, place, OutEdges(n), routedEdges, s0, R);
      }
      if ok {
        AllNeighbours(n, R, R');
        R := R';
      } else {
        assert Collections.Unfold(Collections.TheProgress);
        Rollback(routedEdges, Context(adg, g, place), s0, R');
        R := {};
      }
    }

    // ----- removing nodes

    // Takes the routes of the edges away; s0 is the state before any was taken.
    method UnrouteEdges(edges: set<int>, ghost c: Context, ghost s0: State, ghost R0: set<int>) returns (ghost R: set<int>)
      requires Inv(c, Now()) && Extends(Now(), s0, R0) && SameOwners(s0, Now())
      modifies `attr, `links
      ensures Inv(c, Now()) && Extends(Now(), s0, R) && SameOwners(s0, Now())
      ensures forall e :: e in links <==> e in old(links) && e !in edges
      ensures (forall e | e in edges :: e !in old(links)) ==> Now() == old(Now())
    {
      R := R0;
      var todo := edges;
      while todo != {}
        invariant todo <= edges
        invariant Inv(c, Now()) && Extends(Now(), s0, R) && SameOwners(s0, Now())
        invariant forall e :: e in links <==> e in old(links) && (e !in edges || e in todo)
        invariant (forall e | e in edges :: e !in old(links)) ==> Now() == old(Now())
        decreases |todo|
      {
        var e := Collections.Pick(todo);
        ghost var s := Now();
        UnrouteDfgEdge(e, c);
        if e in s.links {
          UnrouteShrinks(c, s0, s, Now(), R, e);
          R := R + {e};
        }
        todo := todo - {e};
      }
    }

    // Removes n from its unit and forgets all that was recorded about the unit.
    method UnmapDfgNodeNoUnroute(n: int)
      modifies `attr, `placed, `numNodeMapped
      ensures if n !in old(placed) then attr == old(attr) && placed == old(placed) && numNodeMapped == old(numNodeMapped)
              else attr == old(attr) - {old(placed)[n]} && placed == old(placed) - {n} && numNodeMapped == old(numNodeMapped) - 1
    {
      if n in placed {
        attr := attr - {placed[n]};
        placed := placed - {n};
        numNodeMapped := numNodeMapped - 1;
      }
    }

    // Only the edges between n and its placed neighbours were routed at n.
    lemma GoneIsNeighbouring(n: int, s0: State, s: State, R: set<int>)
      requires GraphFits() && n in g.nodes && n in placed && EdgesRouted(s0, placed)
      requires Extends(s, s0, R)
      requires forall e :: e in s.links <==> e in s0.links && e !in InEdges(n) && e !in OutEdges(n)
      ensures R == Neighbouring(n)
    {
      EdgesAt(n);
      forall e
        ensures e in R <==> e in Neighbouring(n)
      {
        assert e in R <==> e in s0.links && e !in s.links;
        if e in g.edges {
          EdgeEnds(e);
        }
      }
    }

    // With nothing routed at n any more, its unit and its place can be forgotten.
    lemma ForgetUnit(n: int, s0: State, s: State, R: set<int>)
      requires GraphFits() && n in placed && OwnersOk(s0, placed) && SameOwners(s0, s)
      requires Inv(Context(adg, g, placed), s) && Extends(s, s0, R)
      requires forall e | e in s.links && e in g.edges :: g.edges[e].src != n && g.edges[e].dst != n
      ensures Inv(Context(adg, g, placed - {n}), State(s.attr - {placed[n]}, s.links))
      ensures Extends(State(s.attr - {placed[n]}, s.links), s0, R)
      ensures OwnersOk(State(s.attr - {placed[n]}, s.links), placed - {n})
    {
      var f := placed[n];
      UnitsApart(s0, n);
      DropUnit(Context(adg, g, placed), s, f);
      assert Inv(Context(adg, g, placed - {n}), State(s.attr - {f}, s.links)) by {
        PlaceLess(adg, g, placed, State(s.attr - {f}, s.links), n);
      }
      OwnersLeft(s0, s, n);
    }

    lemma OwnersLeft(s0: State, s: State, n: int)
      requires n in placed && OwnersOk(s0, placed) && SameOwners(s0, s)
      ensures OwnersOk(State(s.attr - {placed[n]}, s.links), placed - {n})
    {
      var s' := State(s.attr - {placed[n]}, s.links);
      UnitsApart(s0, n);
      forall a
        ensures AttrOf(s', a).dfgNode == if a == placed[n] then None else AttrOf(s0, a).dfgNode
      {}
    }

    // No two nodes share a unit.
    lemma UnitsApart(s: State, n: int)
      requires OwnersOk(s, placed) && n in placed
      ensures forall m | m in placed && m != n :: placed[m] != placed[n]
    {}

    lemma EdgesLeft(n: int, s0: State, s: State)
      requires GraphFits() && n in g.nodes && n in placed && EdgesRouted(s0, placed)
      requires forall e :: e in s.links <==> e in s0.links && e !in InEdges(n) && e !in OutEdges(n)
      ensures EdgesRouted(s, placed - {n})
      ensures forall e | e in s.links && e in g.edges :: g.edges[e].src != n && g.edges[e].dst != n
    {
      EdgesAt(n);
      assert s.links.Keys <= g.edges.Keys by {
        assert forall e :: e in s.links.Keys ==> e in s0.links.Keys;
      }
    }

    // Takes away the routes of all edges at n.
    method UnrouteNode(n: int) returns (ghost R: set<int>)
      requires GraphFits() && n in g.nodes && Inv(Context(adg, g, placed), Now()) && EdgesRouted(Now(), placed)
      modifies `attr, `links
      ensures Inv(Context(adg, g, placed), Now()) && Extends(Now(), old(Now()), R) && SameOwners(old(Now()), Now())
      ensures forall e :: e in links <==> e in old(links) && e !in InEdges(n) && e !in OutEdges(n)
      ensures n !in placed ==> Now() == old(Now())
    {
      ghost var s0, c := Now(), Context(adg, g, placed);
      ExtendsNone(s0);
      EdgesAt(n);
      assert n !in placed ==> forall e | e in InEdges(n) :: e !in links;
      R := UnrouteEdges(InEdges(n), c, s0, {});
      assert n !in placed ==> forall e | e in OutEdges(n) :: e !in links;
      R := UnrouteEdges(OutEdges(n), c, s0, R);
    }

    // Removes n and the routes of its edges. Nothing else changes: putting the routes back
    // would give the old state.
    method UnmapDfgNode(n: int)
      requires Valid() && n in g.nodes
      modifies this
      ensures Valid()
      ensures n in old(placed) ==> placed == old(placed) - {n} && Extends(Now(), old(Now()), old(Neighbouring(n)))
      ensures n !in old(placed) ==> placed == old(placed) && Now() == old(Now())
    {
      ghost var s0 := Now();
      ghost var R := UnrouteNode(n);
      ForgetNode(n, s0, R);
    }

    // Removes n, whose edges are not routed any more.
    method ForgetNode(n: int, ghost s0: State, ghost R: set<int>)
      requires GraphFits() && n in g.nodes && EdgesRouted(s0, placed) && OwnersOk(s0, placed) && numNodeMapped == |placed|
      requires Inv(Context(adg, g, placed), Now()) && Extends(Now(), s0, R) && SameOwners(s0, Now())
      requires forall e :: e in links <==> e in s0.links && e !in InEdges(n) && e !in OutEdges(n)
      requires n !in placed ==> Now() == s0
      modifies this
      ensures Valid()
      ensures n in old(placed) ==> placed == old(placed) - {n} && Extends(Now(), s0, old(Neighbouring(n)))
      ensures n !in old(placed) ==> placed == old(placed) && Now() == s0
    {
      ghost var s, place, ns := Now(), placed, Neighbouring(n);
      if n in placed {
        assert Gone(n, s0, s, placed, ns) by {
          NodeGoes(n, s0, s, R);
        }
        OneLess(placed, n);
      }
      UnmapDfgNodeNoUnroute(n);
      if n in place {
        assert Gone(n, s0, s, place, ns);
        assert Now() == State(s.attr - {place[n]}, s.links);
      }
    }

    // The state s, less the unit of n, is sound; and s0 is that with the routes of ns.
    ghost predicate Gone(n: int, s0: State, s: State, place: map<int, int>, ns: set<int>)
      requires n in place
    {
      var s' := State(s.attr - {place[n]}, s.links);
      && Inv(Context(adg, g, place - {n}), s') && Extends(s', s0, ns)
      && OwnersOk(s', place - {n}) && EdgesRouted(s', place - {n})
    }

    // The state without n and the routes at it is sound.
    lemma NodeGoes(n: int, s0: State, s: State, R: set<int>)
      requires GraphFits() && n in g.nodes && n in placed && EdgesRouted(s0, placed) && OwnersOk(s0, placed)
      requires Inv(Context(adg, g, placed), s) && Extends(s, s0, R) && SameOwners(s0, s)
      requires forall e :: e in s.links <==> e in s0.links && e !in InEdges(n) && e !in OutEdges(n)
      ensures Gone(n, s0, s, placed, Neighbouring(n))
    {
      assert R == Neighbouring(n) by {
        GoneIsNeighbouring(n, s0, s, R);
      }
      EdgesLeft(n, s0, s);
      ForgetUnit(n, s0, s, R);
    }

    static lemma OneLess<K, V>(m: map<K, V>, k: K)
      requires k in m
      ensures |m - {k}| == |m| - 1
    {
      assert (m - {k}).Keys == m.Keys - {k};
      assert |m.Keys - {k}| == |m.Keys| - 1;
    }

    constructor (adg: Array, g: Graph)
      requires ArrayOk(adg) && WellFormed(g) && forall e | e in g.edges :: g.edges[e].src != g.edges[e].dst
      ensures this.adg == adg && this.g == g && placed == map[] && Valid()
    {
      this.adg, this.g := adg, g;
      attr, links, placed, numNodeMapped := map[], map[], map[], 0;
    }

    // Forgets the whole mapping.
    method Reset()
      requires Valid()
      modifies this
      ensures Valid() && placed == map[] && links == map[] && attr == map[]
    {
      assert Collections.Unfold(Collections.TheGraph);
      EmptyIsSound(Context(adg, g, placed), Now());
      attr, links, placed, numNodeMapped := map[], map[], map[], 0;
    }

    static lemma EmptyIsSound(c: Context, s: State)
      requires Inv(c, s)
      ensures Inv(Context(c.adg, c.g, map[]), State(map[], map[]))
    {}

    predicate Success()
      reads this`numNodeMapped
    {
      |g.nodes| == numNodeMapped
    }

    // When the count says that all nodes are mapped, every node has a unit of its own and every
    // edge a whole route between the units of its ends.
    lemma SuccessRoutesAll()
      requires Valid() && Success()
      ensures placed.Keys == g.nodes.Keys
      ensures forall n | n in g.nodes :: Hosts(placed[n], n)
      ensures forall n, m | n in g.nodes && m in g.nodes && n != m :: placed[n] != placed[m]
      ensures forall e | e in g.edges :: e in links && IsRoute(Context(adg, g, placed), g.edges[e], links[e])
    {
      assert forall n | n in placed.Keys :: n in g.nodes.Keys;
      Collections.SubsetOfSize(placed.Keys, g.nodes.Keys);
      forall e | e in g.edges
        ensures e in links && IsRoute(Context(adg, g, placed), g.edges[e], links[e])
      {
        assert Collections.Unfold(Collections.TheGraph);
        assert EdgeRegistered(g, e);
        assert RouteOf(Context(adg, g, placed), Now(), e);
      }
    }

    lemma MappedAllIsSuccess()
      requires Valid() && forall n | n in g.nodes :: n in placed
      ensures Success()
    {
      assert forall n :: n in placed.Keys <==> n in g.nodes.Keys;
      Collections.SameSize(placed.Keys, g.nodes.Keys);
    }

    // The neighbours do not depend on whether n itself is placed.
    lemma SameNeighbours(n: int, place: map<int, int>, f: int)
      requires GraphFits() && n in g.nodes && placed == place[n := f]
      ensures Neighbouring(n) == NeighboursIn(n, place)
    {
      EdgesAt(n);
      forall e
        ensures e in Neighbouring(n) <==> e in NeighboursIn(n, place)
      {
        if e in g.edges {
          EdgeEnds(e);
        }
      }
    }

    static lemma PlacedAndRemoved(place: map<int, int>, n: int, f: int)
      requires n !in place
      ensures place[n := f] - {n} == place
    {}

    // Removing a node that was mapped since state s0 gives that state back.
    method UnmapAgain(n: int, ghost place: map<int, int>, ghost s0: State, ghost R: set<int>)
      requires Valid() && n in g.nodes && n in placed && R == Neighbouring(n)
      requires placed - {n} == place
      requires Inv(Context(adg, g, place), s0) && Extends(s0, Now(), R)
      modifies this
      ensures Valid() && placed == place
      ensures SameRouting(Context(adg, g, place), s0, Now())
    {
      ghost var s1 := Now();
      UnmapDfgNode(n);
      assert Inv(Context(adg, g, place), Now());
      ThereAndBack(Context(adg, g, place), s0, s1, Now(), R);
    }

    // Mapping a node and removing it again gives the old mapping back, whichever of the ports
    // and wires that it took were shared.
    method MapThenUnmap(n: int, target: int)
      requires Valid() && n in g.nodes && n !in placed && Hosts(target, n) && Vacant(target)
      modifies this
      ensures Valid() && placed == old(placed)
      ensures SameRouting(Context(adg, g, placed), old(Now()), Now())
    {
      ghost var place, s0, R := placed, Now(), Neighbouring(n);
      var ok := MapDfgNode(n, target);
      if ok {
        SameNeighbours(n, place, target);
        PlacedAndRemoved(place, n, target);
        UnmapAgain(n, place, s0, R);
      }
    }

    // ----- whole runs

    // The unit is not taken.
    ghost predicate Vacant(f: int)
      reads this`placed
    {
      forall m | m in placed :: placed[m] != f
    }

    predicate IsMappedUnit(f: int)
      reads this`attr
    {
      f in attr && attr[f].dfgNode.Some?
    }

    // Free units that can take n: all of them, or any range of them if there are more.
    method FindCandidates(n: int, range: nat) returns (candidates: seq<int>)
      requires Valid() && n in g.nodes
      ensures |candidates| <= range && Distinct(candidates)
      ensures forall i | 0 <= i < |candidates| :: Hosts(candidates[i], n) && Vacant(candidates[i])
      ensures |candidates| < range ==> forall f | Hosts(f, n) && Vacant(f) :: f in candidates
    {
      candidates := [];
      var todo := adg.nodes.Keys;
      while todo != {} && |candidates| < range
        invariant todo <= adg.nodes.Keys && |candidates| <= range && Distinct(candidates)
        invariant forall i | 0 <= i < |candidates| :: Hosts(candidates[i], n) && Vacant(candidates[i]) && candidates[i] !in todo
        invariant forall f | Hosts(f, n) && Vacant(f) :: f in todo || f in candidates
        decreases |todo|
      {
        var f := Collections.Pick(todo);
        VacantOrMapped(f);
        if Hosts(f, n) && !IsMappedUnit(f) {
          candidates := candidates + [f];
        }
        todo := todo - {f};
      }
    }

    lemma VacantOrMapped(f: int)
      requires Valid()
      ensures Vacant(f) <==> !IsMappedUnit(f)
    {
      if IsMappedUnit(f) {
        var m := AttrOf(Now(), f).dfgNode.value;
        assert m in placed && placed[m] == f;
      }
      forall m | m in placed && placed[m] == f
        ensures IsMappedUnit(f)
      {
        assert AttrOf(Now(), placed[m]).dfgNode == Some(m);
      }
    }

    // The first i of the units are blocked.
    ghost predicate BlockedUpTo(s: State, n: int, place: map<int, int>, cs: seq<int>, i: int)
      requires n in g.nodes
    {
      forall k {:trigger Collections.Unfold(k)} | Collections.Unfold(k) && k == Collections.TheProgress ::
        forall j | 0 <= j < i && j < |cs| :: Blocked(s, n, cs[j], place)
    }

    lemma OneMoreBlocked(s: State, n: int, place: map<int, int>, cs: seq<int>, i: nat)
      requires n in g.nodes && i < |cs| && BlockedUpTo(s, n, place, cs, i) && Blocked(s, n, cs[i], place)
      ensures BlockedUpTo(s, n, place, cs, i + 1)
    {
      assert Collections.Unfold(Collections.TheProgress);
    }

    // Tries one unit, in a state that is routed as s0 is.
    method TryCandidate(n: int, f: int, ghost s0: State) returns (ok: bool)
      requires Valid() && n in g.nodes && n !in placed && Hosts(f, n) && Vacant(f)
      requires SameRouting(Context(adg, g, placed), s0, Now())
      modifies this
      ensures Valid()
      ensures if ok then placed == old(placed)[n := f] else
        placed == old(placed) && SameRouting(Context(adg, g, placed), s0, Now()) && Blocked(s0, n, f, placed)
    {
      ghost var s, c := Now(), Context(adg, g, placed);
      ok := MapDfgNode(n, f);
      if !ok {
        RoutingTransitive(c, s0, s, Now());
        BlockedAlike(s, s0, c, n, f, placed);
      }
    }

    static lemma RoutingTransitive(c: Context, s: State, s': State, s'': State)
      requires SameRouting(c, s, s') && SameRouting(c, s', s'')
      ensures SameRouting(c, s, s'')
    {}

    // Tries the units in turn; returns the index of the one that n is mapped to, or -1.
    method TryCandidates(n: int, candidates: seq<int>) returns (selected: int)
      requires Valid() && n in g.nodes && n !in placed
      requires forall i | 0 <= i < |candidates| :: Hosts(candidates[i], n) && Vacant(candidates[i])
      modifies this
      ensures Valid()
      ensures selected == -1 ==> placed == old(placed) && SameRouting(Context(adg, g, placed), old(Now()), Now())
      ensures selected == -1 ==> BlockedUpTo(old(Now()), n, placed, candidates, |candidates|)
      ensures selected != -1 ==> 0 <= selected < |candidates| && placed == old(placed)[n := candidates[selected]]
      ensures selected != -1 ==> BlockedUpTo(old(Now()), n, old(placed), candidates, selected)
    {
      for i := 0 to |candidates|
        invariant Valid() && placed == old(placed)
        invariant SameRouting(Context(adg, g, placed), old(Now()), Now())
        invariant BlockedUpTo(old(Now()), n, old(placed), candidates, i)
      {
        assert Hosts(candidates[i], n) && Vacant(candidates[i]);
        var ok := TryCandidate(n, candidates[i], old(Now()));
        if ok {
          return i;
        }
        OneMoreBlocked(old(Now()), n, placed, candidates, i);
      }
      return -1;
    }

    // Every free unit that can take n is blocked, or ten of them are.
    ghost predicate NoPlace(s: State, n: int, place: map<int, int>)
      requires n in g.nodes
    {
      exists cs :: AllBlocked(s, n, place, cs)
    }

    ghost predicate AllBlocked(s: State, n: int, place: map<int, int>, cs: seq<int>)
      requires n in g.nodes
    {
      && Distinct(cs) && (forall i | 0 <= i < |cs| :: Hosts(cs[i], n) && Blocked(s, n, cs[i], place))
      && (|cs| >= 10 || forall f | Hosts(f, n) && (forall m | m in place :: place[m] != f) :: f in cs)
    }

    lemma NoPlaceAlike(s: State, s': State, c: Context, n: int, place: map<int, int>)
      requires n in g.nodes && NoPlace(s, n, place) && SameRouting(c, s', s)
      ensures NoPlace(s', n, place)
    {
      var cs :| AllBlocked(s, n, place, cs);
      forall i | 0 <= i < |cs|
        ensures Blocked(s', n, cs[i], place)
      {
        BlockedAlike(s, s', c, n, cs[i], place);
      }
      assert AllBlocked(s', n, place, cs);
    }

    // Maps a node that is not mapped yet, if one of the candidates will do.
    method PlaceNode(n: int) returns (ok: bool)
      requires Valid() && n in g.nodes && n !in placed
      modifies this
      ensures Valid()
      ensures ok ==> n in placed && placed == old(placed)[n := placed[n]]
      ensures !ok ==> placed == old(placed) && SameRouting(Context(adg, g, placed), old(Now()), Now())
      ensures !ok ==> NoPlace(old(Now()), n, placed)
    {
      var candidates := FindCandidates(n, 10);
      assert |candidates| >= 10 || forall f | Hosts(f, n) && (forall m | m in placed :: placed[m] != f) :: f in candidates by {
        forall f | Hosts(f, n) && (forall m | m in placed :: placed[m] != f)
          ensures |candidates| >= 10 || f in candidates
        {
          assert Vacant(f);
        }
      }
      var selected := -1;
      if candidates != [] {
        selected := TryCandidates(n, candidates);
      }
      if selected == -1 {
        assert Collections.Unfold(Collections.TheProgress);
        assert AllBlocked(old(Now()), n, placed, candidates);
      }
      return selected != -1;
    }

    // Maps the nodes that are not mapped yet, in the given order, until one cannot be mapped.
    method IncrPnR(order: seq<int>) returns (ok: bool)
      requires Valid() && forall i | 0 <= i < |order| :: order[i] in g.nodes
      modifies this
      ensures Valid()
      ensures forall n | n in old(placed) :: n in placed && placed[n] == old(placed)[n]
      ensures ok <==> forall i | 0 <= i < |order| :: order[i] in placed
      ensures Covers(g, order) ==> (ok <==> Success())
      ensures !ok ==> exists n :: n in order && n in g.nodes && n !in placed && NoPlace(Now(), n, placed)
    {
      for i := 0 to |order|
        invariant Valid()
        invariant forall n | n in old(placed) :: n in placed && placed[n] == old(placed)[n]
        invariant forall j | 0 <= j < i :: order[j] in placed
      {
        if order[i] !in placed {
          ghost var s := Now();
          var placedNow := PlaceNode(order[i]);
          if !placedNow {
            RoutingSymmetric(Context(adg, g, placed), s, Now());
            NoPlaceAlike(s, Now(), Context(adg, g, placed), order[i], placed);
            LeftIsNoSuccess(order[i]);
            return false;
          }
        }
      }
      if Covers(g, order) {
        MappedAllIsSuccess();
      }
      return true;
    }

    static lemma RoutingSymmetric(c: Context, s: State, s': State)
      requires SameRouting(c, s, s')
      ensures SameRouting(c, s', s)
    {}

    lemma LeftIsNoSuccess(n: int)
      requires Valid() && n in g.nodes && n !in placed
      ensures !Success()
    {
      if Success() {
        SuccessRoutesAll();
      }
    }

    // Removes those of the mapped nodes that are chosen.
    method UnmapSome(chosen: set<int>)
      requires Valid()
      modifies this
      ensures Valid()
      ensures forall n :: n in placed <==> n in old(placed) && (n !in chosen || n !in g.nodes)
      ensures forall n | n in placed :: placed[n] == old(placed)[n]
      ensures forall e | e in links :: e in old(links) && links[e] == old(links)[e]
    {
      var todo := g.nodes.Keys;
      while todo != {}
        invariant todo <= g.nodes.Keys
        invariant Valid()
        invariant forall n :: n in placed <==> n in old(placed) && (n !in chosen || n in todo || n !in g.nodes)
        invariant forall n | n in placed :: placed[n] == old(placed)[n]
        invariant forall e | e in links :: e in old(links) && links[e] == old(links)[e]
        decreases |todo|
      {
        var n := Collections.Pick(todo);
        if n in chosen && n in placed {
          ghost var s := Now();
          UnmapDfgNode(n);
          RoutesStay(Now(), s, n);
        }
        todo := todo - {n};
      }
    }

    // What is routed without n was routed so with it.
    static lemma RoutesStay(s: State, s': State, n: int)
      requires exists R :: Extends(s, s', R)
      ensures forall e | e in s.links :: e in s'.links && s'.links[e] == s.links[e]
    {}
  }

  // The state after the query is answered: the edge has a route whose own part, behind the
  // wire it shares, is as short as can be.
  ghost predicate RoutedBy(q: Query, s': State, prefix: seq<Link>, spots: seq<Spot>, ins: seq<int>, same: Option<int>)
    requires q.e in q.c.g.edges
  {
    && GoalTrail(q, spots, ins)
    && (forall spots', ins' | GoalTrail(q, spots', ins') :: |ins| <= |ins'|)
    && PrefixOk(q, prefix, spots, ins, same)
    && var added := Added(q, spots, ins, same);
      && IsRoute(q.c, q.c.g.edges[q.e], prefix + added)
      && Shared(q.c, q.s, q.e, prefix) && FreshOk(q.c, q.s, q.e, added)
      && Committed(q.s, s', q.e, prefix, added)
  }

  // The edge is routed if it can be, and then with as few links of its own as any route that could
  // be added; the state stays sound, and stays as it is if the edge cannot be routed.
  ghost predicate Answered(q: Query, s': State, ok: bool) {
    && q.e in q.c.g.edges && Inv(q.c, s')
    && (ok <==> Routable(q.c, q.s, q.e))
    && (ok <==> exists spots, ins :: GoalTrail(q, spots, ins))
    && if ok then RoutedShortest(q, s') else s' == q.s
  }

  ghost predicate RoutedShortest(q: Query, s': State)
    requires q.e in q.c.g.edges
  {
    && (exists prefix, spots, ins, same :: RoutedBy(q, s', prefix, spots, ins, same))
    && q.e in s'.links && LeastOwnPart(q, s'.links[q.e])
  }

  lemma RoutedKeeps(q: Query, s': State, prefix: seq<Link>, spots: seq<Spot>, ins: seq<int>, same: Option<int>)
    requires QueryOk(q) && Aimed(q) && GoalTrail(q, spots, ins)
    requires forall spots', ins' | GoalTrail(q, spots', ins') :: |ins| <= |ins'|
    requires forall j, k | 0 <= j < k < |spots| :: spots[j] != spots[k]
    requires same.None? ==> AtSource(q, spots[|ins|])
    requires PrefixOk(q, prefix, spots, ins, same)
    requires Committed(q.s, s', q.e, prefix, Added(q, spots, ins, same))
    ensures RoutedBy(q, s', prefix, spots, ins, same) && Inv(q.c, s')
  {
    AddedIsFresh(q, spots, ins, same);
    AddedIsRoute(q, prefix, spots, ins, same);
    assert same.Some? ==> SharedWith(q.c, q.s, q.e, prefix, same.value);
    CommittedKeeps(q.c, q.s, s', q.e, prefix, Added(q, spots, ins, same));
  }

  lemma RoutedIsAdded(q: Query, s': State, prefix: seq<Link>, spots: seq<Spot>, ins: seq<int>, same: Option<int>)
    requires q.e in q.c.g.edges && RoutedBy(q, s', prefix, spots, ins, same) && Inv(q.c, s')
    ensures Routable(q.c, q.s, q.e)
  {
    assert Adds(q.c, q.s, s', q.e, prefix + Added(q, spots, ins, same));
  }

  // What the route has of its own is what it adds behind the spot where the trail ends.
  lemma OwnPartIsLeast(q: Query, s': State, prefix: seq<Link>, spots: seq<Spot>, ins: seq<int>, same: Option<int>)
    requires QueryOk(q) && Aimed(q) && OffersAll(q) && RoutedBy(q, s', prefix, spots, ins, same)
    ensures q.e in s'.links && LeastOwnPart(q, s'.links[q.e])
  {
    var ls := prefix + Added(q, spots, ins, same);
    var m := |ls| - 1 - |ins|;
    assert NoneShorter(q, |ins|) by {
      ShortestOfAll(q, |ins|);
    }
    assert LeavesNet(q, ls, m) by {
      AddedLeavesNet(q, prefix, spots, ins, same);
    }
  }

  lemma AddedLeavesNet(q: Query, prefix: seq<Link>, spots: seq<Spot>, ins: seq<int>, same: Option<int>)
    requires QueryOk(q) && Aimed(q) && GoalTrail(q, spots, ins) && PrefixOk(q, prefix, spots, ins, same)
    ensures var ls := prefix + Added(q, spots, ins, same);
      |ls| - 1 - |ins| >= 0 && LeavesNet(q, ls, |ls| - 1 - |ins|)
  {
    var ls := prefix + Added(q, spots, ins, same);
    var m := |ls| - 1 - |ins|;
    forall j | m < j < |ls| - 1
      ensures Open(q, SpotAt(ls, j))
    {
      var k := |ls| - 1 - j;
      assert ls[j] == LinkAt(spots, ins, k);
      assert Open(q, spots[k]);
    }
    if m > 0 {
      assert same.Some? && ls[m] == prefix[m];
      PrefixChained(q, prefix, same.value, spots[|ins|]);
      assert Crosses(q.c.adg, prefix[m]);
    }
  }

  // Mapping a node and then removing it, or the reverse, gives the old routing back.
  lemma ThereAndBack(c: Context, s0: State, s1: State, s2: State, R: set<int>)
    requires Inv(c, s0) && Inv(c, s2)
    requires Extends(s0, s1, R) && Extends(s2, s1, R)
    ensures SameRouting(c, s0, s2)
  {
    forall n
      ensures Without(PassOf(s2, n), {}) == PassOf(s0, n)
    {
      WithoutNone(PassOf(s2, n), {});
    }
    assert s2.links.Keys == s0.links.Keys + {} by {
      assert forall e :: e in s0.links.Keys <==> e in s1.links.Keys && e !in R;
      assert forall e :: e in s2.links.Keys <==> e in s1.links.Keys && e !in R;
    }
    UndoneIsSame(c, s0, s2);
  }
}
