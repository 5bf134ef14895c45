/** The routing state of the mapper: which edges pass which interconnect box, which ports
    are marked used, and the route of every edge; and the invariant that ties them together. */
module Routing {
  import opened Dfg
  import opened Adg
  import opened Collections

  // An edge passing a node, and the ports it uses there.
  datatype Pass = Pass(srcPort: int, dstPort: int, edge: int)

  datatype Option<T> = None | Some(value: T)

  datatype NodeAttr = NodeAttr(
    dfgNode: Option<int>,
    pass: seq<Pass>,
    inUsed: map<int, bool>,
    outUsed: map<int, bool>)

  const DEFAULT := NodeAttr(None, [], map[], map[])

  // attr: by array node; links: the route of each routed edge
  datatype State = State(attr: map<int, NodeAttr>, links: map<int, seq<Link>>)

  // What is fixed while edges are routed.
  datatype Context = Context(adg: Array, g: Graph, place: map<int, int>)

  function AttrOf(s: State, n: int): NodeAttr {
    if n in s.attr then s.attr[n] else DEFAULT
  }

  function PassOf(s: State, n: int): seq<Pass> { AttrOf(s, n).pass }

  function IsSet(m: map<int, bool>, p: int): bool { p in m && m[p] }

  predicate InUsed(s: State, n: int, p: int) { IsSet(AttrOf(s, n).inUsed, p) }

  predicate OutUsed(s: State, n: int, p: int) { IsSet(AttrOf(s, n).outUsed, p) }

  // ----- the array

  predicate IsGib(adg: Array, n: int) { n in adg.nodes && adg.nodes[n].Gib? }

  predicate IsFu(adg: Array, n: int) { n in adg.nodes && adg.nodes[n].Fu? }

  // Ports are numbered from zero; a selectable or an operand port is an input that some node
  // drives; and an input belongs to one operand.
  ghost predicate NodeOk(adg: Array, n: int)
    requires n in adg.nodes
  {
    var node := adg.nodes[n];
    && (forall p | p in node.inputs :: p >= 0 && node.inputs[p].0 in adg.nodes && node.inputs[p].1 >= 0)
    && (node.Gib? ==> forall o | o in node.out2ins :: o >= 0 && node.out2ins[o] <= node.inputs.Keys)
    && (node.Fu? ==>
          && (forall k | 0 <= k < |node.operandInputs| :: node.operandInputs[k] <= node.inputs.Keys)
          && (forall k, k' | 0 <= k < k' < |node.operandInputs| :: node.operandInputs[k] !! node.operandInputs[k']))
  }

  ghost predicate ArrayOk(adg: Array) {
    forall n {:trigger NodeOk(adg, n)} | n in adg.nodes :: NodeOk(adg, n)
  }

  // ----- routes

  // The output of link a drives the input of link b.
  predicate Drives(adg: Array, a: Link, b: Link) {
    b.node in adg.nodes && b.srcPort in adg.nodes[b.node].inputs && adg.nodes[b.node].inputs[b.srcPort] == (a.node, a.dstPort)
  }

  // A link through an interconnect box that can connect the two ports.
  predicate Crosses(adg: Array, l: Link) {
    IsGib(adg, l.node) && l.srcPort in adg.nodes[l.node].InsOf(l.dstPort)
  }

  predicate IsOperandPort(adg: Array, f: int, p: int) {
    IsFu(adg, f) && exists k | 0 <= k < |adg.nodes[f].operandInputs| :: p in adg.nodes[f].operandInputs[k]
  }

  // The operand that edge e feeds: its own, unless the operation is commutative.
  predicate OperandAllowed(g: Graph, adg: Array, e: Edge, f: int, p: int) {
    && IsFu(adg, f) && e.dst in g.nodes
    && if g.nodes[e.dst].commutative
       then exists k | 0 <= k < |adg.nodes[f].operandInputs| :: k < g.nodes[e.dst].NumInputs() && p in adg.nodes[f].operandInputs[k]
       else 0 <= e.dstPort < |adg.nodes[f].operandInputs| && p in adg.nodes[f].operandInputs[e.dstPort]
  }

  ghost predicate Chained(adg: Array, ls: seq<Link>) {
    forall i {:trigger DrivesNext(adg, ls, i)} | 0 <= i < |ls| - 1 :: DrivesNext(adg, ls, i)
  }

  predicate DrivesNext(adg: Array, ls: seq<Link>, i: int)
    requires 0 <= i < |ls| - 1
  {
    Drives(adg, ls[i], ls[i + 1])
  }

  // ls leads from the output of the unit that e's source is placed on, through interconnect
  // boxes, to an allowed operand port of the unit that e's destination is placed on.
  ghost predicate IsRoute(c: Context, e: Edge, ls: seq<Link>) {
    && |ls| >= 2
    && e.src in c.place && e.dst in c.place && IsFu(c.adg, c.place[e.src]) && IsFu(c.adg, c.place[e.dst])
    && ls[0] == Link(-1, e.srcPort, c.place[e.src])
    && ls[|ls| - 1].dstPort == -1 && ls[|ls| - 1].node == c.place[e.dst]
    && OperandAllowed(c.g, c.adg, e, c.place[e.dst], ls[|ls| - 1].srcPort)
    && (forall i | 0 < i < |ls| - 1 :: Crosses(c.adg, ls[i]))
    && Chained(c.adg, ls)
  }

  // ----- the invariant

  predicate SameNet(g: Graph, e: int, e': int) {
    && e in g.edges && e' in g.edges
    && g.edges[e].src == g.edges[e'].src && g.edges[e].srcPort == g.edges[e'].srcPort
  }

  predicate SomeIn(ps: seq<Pass>, p: int) { exists x | x in ps :: x.srcPort == p }

  predicate SomeOut(ps: seq<Pass>, p: int) { exists x | x in ps :: x.dstPort == p }

  // What goes through an interconnect box: exactly the links of the routes; a port is marked
  // used just when a route uses it; a port carries one net; and an output has one input.
  ghost predicate BoxOk(c: Context, s: State, b: int) {
    && (forall x | x in PassOf(s, b) :: x.edge in s.links && Link(x.srcPort, x.dstPort, b) in s.links[x.edge])
    && (forall e, l | e in s.links && l in s.links[e] && l.node == b :: Pass(l.srcPort, l.dstPort, e) in PassOf(s, b))
    && (forall p :: InUsed(s, b, p) <==> SomeIn(PassOf(s, b), p))
    && (forall p :: OutUsed(s, b, p) <==> SomeOut(PassOf(s, b), p))
    && Exclusive(c.g, PassOf(s, b))
  }

  ghost predicate Exclusive(g: Graph, ps: seq<Pass>) {
    forall x, y | x in ps && y in ps ::
      && (x.srcPort == y.srcPort || x.dstPort == y.dstPort ==> SameNet(g, x.edge, y.edge))
      && (x.dstPort == y.dstPort ==> x.srcPort == y.srcPort)
  }

  ghost predicate ArrivesAt(s: State, e: int, f: int, p: int) {
    e in s.links && s.links[e] != [] && s.links[e][|s.links[e]| - 1] == Link(p, -1, f)
  }

  // An in port of a unit is marked used just when a route ends there; no two routes feed one
  // operand; and only routes that start at the unit are listed at it.
  ghost predicate UnitOk(c: Context, s: State, f: int) {
    && (forall p :: InUsed(s, f, p) <==> exists e :: ArrivesAt(s, e, f, p))
    && (forall e, e', p, p' | ArrivesAt(s, e, f, p) && ArrivesAt(s, e', f, p') && e != e' :: !SameOperand(c.adg, f, p, p'))
    && (forall x | x in PassOf(s, f) :: x.srcPort == -1 && x.edge in s.links
          && x.edge in c.g.edges && c.g.edges[x.edge].src in c.place && c.place[c.g.edges[x.edge].src] == f)
  }

  ghost predicate SameOperand(adg: Array, f: int, p: int, p': int) {
    IsFu(adg, f) && exists k | 0 <= k < |adg.nodes[f].operandInputs| ::
      p in adg.nodes[f].operandInputs[k] && p' in adg.nodes[f].operandInputs[k]
  }

  ghost predicate RouteOf(c: Context, s: State, e: int)
    requires e in s.links
  {
    e in c.g.edges && IsRoute(c, c.g.edges[e], s.links[e])
  }

  ghost predicate Inv(c: Context, s: State) {
    && ArrayOk(c.adg)
    && (forall n, x | x in PassOf(s, n) :: x.edge in s.links && Link(x.srcPort, x.dstPort, n) in s.links[x.edge])
    && (forall e {:trigger RouteOf(c, s, e)} | e in s.links :: RouteOf(c, s, e))
    && (forall b {:trigger BoxOk(c, s, b)} | IsGib(c.adg, b) :: BoxOk(c, s, b))
    && (forall f {:trigger UnitOk(c, s, f)} | IsFu(c.adg, f) :: UnitOk(c, s, f))
  }

  // ----- taking a route away

  // The passes of the edges outside R.
  function Without(ps: seq<Pass>, R: set<int>): (r: seq<Pass>)
    ensures forall x :: x in r <==> x in ps && x.edge !in R
  {
    if ps == [] then []
    else
      var r := Without(ps[..|ps| - 1], R);
      var x := ps[|ps| - 1];
      assert ps == ps[..|ps| - 1] + [x];
      if x.edge in R then r else r + [x]
  }

  ghost predicate InGiven(ls: seq<Link>, n: int, p: int) {
    p != -1 && exists l | l in ls :: l.node == n && l.srcPort == p
  }

  ghost predicate OutGiven(ls: seq<Link>, n: int, p: int) {
    p != -1 && exists l | l in ls :: l.node == n && l.dstPort == p
  }

  // s' is s without the route of e: its passes are gone, and a port that it used is free again
  // unless another edge passes there.
  ghost predicate Unrouted(s: State, s': State, e: int)
    requires e in s.links
  {
    && s'.links == s.links - {e}
    && (forall n :: AttrOf(s', n).dfgNode == AttrOf(s, n).dfgNode)
    && (forall n :: PassOf(s', n) == Without(PassOf(s, n), {e}))
    && (forall n, p :: InUsed(s', n, p) <==>
          InUsed(s, n, p) && !(InGiven(s.links[e], n, p) && !SomeIn(Without(PassOf(s, n), {e}), p)))
    && (forall n, p :: OutUsed(s', n, p) <==>
          OutUsed(s, n, p) && !(OutGiven(s.links[e], n, p) && !SomeOut(Without(PassOf(s, n), {e}), p)))
  }

  lemma UnroutedKeeps(c: Context, s: State, s': State, e: int)
    requires Inv(c, s) && e in s.links && Unrouted(s, s', e)
    ensures Inv(c, s')
  {
    forall id | id in s'.links
      ensures RouteOf(c, s', id)
    {
      assert RouteOf(c, s, id);
    }
    forall b | IsGib(c.adg, b)
      ensures BoxOk(c, s', b)
    {
      UnroutedBox(c, s, s', e, b);
    }
    forall f | IsFu(c.adg, f)
      ensures UnitOk(c, s', f)
    {
      UnroutedUnit(c, s, s', e, f);
    }
  }

  // The ports of a link through a box are real ports.
  lemma CrossingPorts(c: Context, s: State, e: int, l: Link)
    requires Inv(c, s) && e in s.links && l in s.links[e] && IsGib(c.adg, l.node)
    ensures l.srcPort >= 0 && l.dstPort >= 0 && Crosses(c.adg, l)
  {
    assert RouteOf(c, s, e);
    var i :| 0 <= i < |s.links[e]| && s.links[e][i] == l;
    CrossPorts(c.adg, l);
  }

  lemma CrossPorts(adg: Array, l: Link)
    requires ArrayOk(adg) && Crosses(adg, l)
    ensures l.srcPort >= 0 && l.dstPort >= 0 && l.srcPort in adg.nodes[l.node].inputs
  {
    assert NodeOk(adg, l.node);
    assert l.dstPort in adg.nodes[l.node].out2ins && l.srcPort in adg.nodes[l.node].out2ins[l.dstPort];
  }

  lemma UnroutedBox(c: Context, s: State, s': State, e: int, b: int)
    requires Inv(c, s) && e in s.links && Unrouted(s, s', e) && IsGib(c.adg, b)
    ensures BoxOk(c, s', b)
  {
    assert BoxOk(c, s, b);
    forall x | x in PassOf(s, b)
      ensures x.srcPort != -1 && x.dstPort != -1
    {
      CrossingPorts(c, s, x.edge, Link(x.srcPort, x.dstPort, b));
    }
    forall p
      ensures InUsed(s', b, p) <==> SomeIn(PassOf(s', b), p)
      ensures OutUsed(s', b, p) <==> SomeOut(PassOf(s', b), p)
    {}
  }

  lemma UnroutedUnit(c: Context, s: State, s': State, e: int, f: int)
    requires Inv(c, s) && e in s.links && Unrouted(s, s', e) && IsFu(c.adg, f)
    ensures UnitOk(c, s', f)
  {
    assert UnitOk(c, s, f);
    forall p
      ensures InUsed(s', f, p) <==> exists e' :: ArrivesAt(s', e', f, p)
    {
      UnroutedPort(c, s, s', e, f, p);
    }
    forall e1, e2, p, p' | ArrivesAt(s', e1, f, p) && ArrivesAt(s', e2, f, p') && e1 != e2
      ensures !SameOperand(c.adg, f, p, p')
    {
      assert ArrivesAt(s, e1, f, p) && ArrivesAt(s, e2, f, p');
    }
  }

  // A link of a route that uses an in port of a unit is the last one.
  lemma UnitLinkIsLast(c: Context, s: State, e: int, l: Link)
    requires e in s.links && RouteOf(c, s, e) && l in s.links[e] && IsFu(c.adg, l.node) && l.srcPort != -1
    ensures ArrivesAt(s, e, l.node, l.srcPort)
  {
    var i :| 0 <= i < |s.links[e]| && s.links[e][i] == l;
    UnitEndsRoute(c, c.g.edges[e], s.links[e], i);
  }

  lemma UnitEndsRoute(c: Context, e: Edge, ls: seq<Link>, i: nat)
    requires IsRoute(c, e, ls) && i < |ls| && IsFu(c.adg, ls[i].node) && ls[i].srcPort != -1
    ensures i == |ls| - 1 && ls[i].dstPort == -1
  {
    assert 0 < i < |ls| - 1 ==> Crosses(c.adg, ls[i]);
  }

  lemma ArrivalPort(c: Context, s: State, e: int, f: int, p: int)
    requires Inv(c, s) && ArrivesAt(s, e, f, p)
    ensures IsFu(c.adg, f) && p >= 0 && IsOperandPort(c.adg, f, p) && SameOperand(c.adg, f, p, p)
    ensures e in c.g.edges && c.g.edges[e].dst in c.place && c.place[c.g.edges[e].dst] == f
  {
    assert RouteOf(c, s, e);
    OperandPort(c.adg, f, p);
  }

  lemma OperandPort(adg: Array, f: int, p: int)
    requires ArrayOk(adg) && IsOperandPort(adg, f, p)
    ensures p >= 0 && p in adg.nodes[f].inputs && SameOperand(adg, f, p, p)
  {
    assert NodeOk(adg, f);
    var k :| 0 <= k < |adg.nodes[f].operandInputs| && p in adg.nodes[f].operandInputs[k];
    assert p in adg.nodes[f].inputs;
  }

  lemma UnroutedPort(c: Context, s: State, s': State, e: int, f: int, p: int)
    requires Inv(c, s) && e in s.links && Unrouted(s, s', e) && IsFu(c.adg, f)
    ensures InUsed(s', f, p) <==> exists e' :: ArrivesAt(s', e', f, p)
  {
    assert UnitOk(c, s, f);
    if InUsed(s', f, p) {
      var e1 :| ArrivesAt(s, e1, f, p);
      ArrivalPort(c, s, e1, f, p);
      assert Link(p, -1, f) in s.links[e1];
      assert InGiven(s.links[e1], f, p);
      assert ArrivesAt(s', e1, f, p);
    }
    if e1 :| ArrivesAt(s', e1, f, p) {
      assert ArrivesAt(s, e1, f, p);
      ArrivalPort(c, s, e1, f, p);
      if InGiven(s.links[e], f, p) {
        var l :| l in s.links[e] && l.node == f && l.srcPort == p;
        assert RouteOf(c, s, e);
        UnitLinkIsLast(c, s, e, l);
      }
    }
  }

  // ----- adding a route

  // The passes of e at node n that the links ls make.
  function PassesAt(e: int, ls: seq<Link>, n: int): (r: seq<Pass>)
    ensures forall x :: x in r <==> x.edge == e && Link(x.srcPort, x.dstPort, n) in ls
  {
    if ls == [] then []
    else
      var l := ls[|ls| - 1];
      var r := PassesAt(e, ls[..|ls| - 1], n);
      assert ls == ls[..|ls| - 1] + [l];
      if l.node == n then r + [Pass(l.srcPort, l.dstPort, e)] else r
  }

  // The links that go through a node, without the two at the ends of a route.
  function Inner(ls: seq<Link>): (r: seq<Link>)
    ensures forall l :: l in r <==> l in ls && l.srcPort != -1 && l.dstPort != -1
  {
    if ls == [] then []
    else
      var l := ls[|ls| - 1];
      var r := Inner(ls[..|ls| - 1]);
      assert ls == ls[..|ls| - 1] + [l];
      if l.srcPort != -1 && l.dstPort != -1 then r + [l] else r
  }

  // s' is s with the route prefix + added for e. The prefix is shared with another edge, so
  // that its ports are marked already; only added marks ports.
  ghost predicate Committed(s: State, s': State, e: int, prefix: seq<Link>, added: seq<Link>) {
    && s'.links == s.links[e := prefix + added]
    && forall n {:trigger CommittedAt(s, s', e, prefix, added, n)} {:trigger PassOf(s', n)} {:trigger AttrOf(s', n)} ::
         CommittedAt(s, s', e, prefix, added, n)
  }

  ghost predicate CommittedAt(s: State, s': State, e: int, prefix: seq<Link>, added: seq<Link>, n: int) {
    && AttrOf(s', n).dfgNode == AttrOf(s, n).dfgNode
    && PassOf(s', n) == PassOf(s, n) + PassesAt(e, prefix, n) + PassesAt(e, Inner(added), n)
    && (forall p :: InUsed(s', n, p) <==> InUsed(s, n, p) || InGiven(added, n, p))
    && (forall p :: OutUsed(s', n, p) <==> OutUsed(s, n, p) || OutGiven(added, n, p))
  }

  // The prefix comes from the route of another edge of the same net, cut before its end.
  ghost predicate Shared(c: Context, s: State, e: int, prefix: seq<Link>) {
    prefix == [] || exists e0 :: SharedWith(c, s, e, prefix, e0)
  }

  ghost predicate SharedWith(c: Context, s: State, e: int, prefix: seq<Link>, e0: int) {
    e0 in s.links && SameNet(c.g, e, e0) && |prefix| < |s.links[e0]| && prefix == s.links[e0][..|prefix|]
  }

  // The box link l of a new route takes an output that no route uses, from an input that at
  // most the same net uses.
  ghost predicate LinkFree(c: Context, s: State, e: int, l: Link) {
    && (forall x | x in PassOf(s, l.node) :: x.dstPort != l.dstPort)
    && (forall x | x in PassOf(s, l.node) && x.srcPort == l.srcPort :: SameNet(c.g, e, x.edge))
  }

  ghost predicate FreshOk(c: Context, s: State, e: int, added: seq<Link>) {
    && added != [] && added[|added| - 1].dstPort == -1
    && (forall l | l in added && IsGib(c.adg, l.node) :: Crosses(c.adg, l) && LinkFree(c, s, e, l))
    && (forall l, l' | l in added && l' in added && l.node == l'.node && l.dstPort == l'.dstPort :: l == l')
    && (forall l | l in added && IsFu(c.adg, l.node) :: l.srcPort == -1 || l == added[|added| - 1])
    && OperandIdle(c.adg, s, added[|added| - 1].node, added[|added| - 1].srcPort)
  }

  // No in port of the operand that port belongs to is in use.
  ghost predicate OperandIdle(adg: Array, s: State, f: int, port: int) {
    IsFu(adg, f) && forall k | 0 <= k < |adg.nodes[f].operandInputs| && port in adg.nodes[f].operandInputs[k] ::
      forall p | p in adg.nodes[f].operandInputs[k] :: !InUsed(s, f, p)
  }

  lemma CommittedKeeps(c: Context, s: State, s': State, e: int, prefix: seq<Link>, added: seq<Link>)
    requires Inv(c, s) && e in c.g.edges && e !in s.links
    requires IsRoute(c, c.g.edges[e], prefix + added)
    requires Shared(c, s, e, prefix) && FreshOk(c, s, e, added)
    requires Committed(s, s', e, prefix, added)
    ensures Inv(c, s')
  {
    forall id | id in s'.links
      ensures RouteOf(c, s', id)
    {
      assert id != e ==> RouteOf(c, s, id);
    }
    forall b | IsGib(c.adg, b)
      ensures BoxOk(c, s', b)
    {
      CommittedBox(c, s, s', e, prefix, added, b);
    }
    forall f | IsFu(c.adg, f)
      ensures UnitOk(c, s', f)
    {
      CommittedUnit(c, s, s', e, prefix, added, f);
    }
  }

  // A pass that the prefix makes at a box runs beside a pass of the edge it is shared with.
  lemma PrefixPass(c: Context, s: State, e: int, prefix: seq<Link>, b: int, x: Pass)
    returns (y: Pass)
    requires Inv(c, s) && IsGib(c.adg, b) && Shared(c, s, e, prefix) && x in PassesAt(e, prefix, b)
    ensures y in PassOf(s, b) && y.srcPort == x.srcPort && y.dstPort == x.dstPort && SameNet(c.g, e, y.edge)
  {
    var e0 :| SharedWith(c, s, e, prefix, e0);
    assert Link(x.srcPort, x.dstPort, b) in s.links[e0];
    assert BoxOk(c, s, b);
    y := Pass(x.srcPort, x.dstPort, e0);
  }

  // How a pass at a box came about: it was there, or e takes it by the prefix, or by added.
  ghost predicate Sources(c: Context, s: State, e: int, added: seq<Link>, b: int, x: Pass) {
    || x in PassOf(s, b)
    || (x.edge == e && exists y :: y in PassOf(s, b) && y.srcPort == x.srcPort && y.dstPort == x.dstPort && SameNet(c.g, e, y.edge))
    || (x.edge == e && Link(x.srcPort, x.dstPort, b) in added)
  }

  lemma PassSources(c: Context, s: State, s': State, e: int, prefix: seq<Link>, added: seq<Link>, b: int, x: Pass)
    requires Inv(c, s) && IsGib(c.adg, b) && Shared(c, s, e, prefix) && Committed(s, s', e, prefix, added)
    requires x in PassOf(s', b)
    ensures Sources(c, s, e, added, b, x)
  {
    if x in PassesAt(e, prefix, b) {
      var y := PrefixPass(c, s, e, prefix, b, x);
    }
  }

  lemma PairExclusive(c: Context, s: State, e: int, added: seq<Link>, b: int, x: Pass, y: Pass)
    requires Inv(c, s) && IsGib(c.adg, b) && e in c.g.edges && FreshOk(c, s, e, added)
    requires Sources(c, s, e, added, b, x) && Sources(c, s, e, added, b, y)
    requires x.srcPort == y.srcPort || x.dstPort == y.dstPort
    ensures SameNet(c.g, x.edge, y.edge) && (x.dstPort == y.dstPort ==> x.srcPort == y.srcPort)
  {
    assert BoxOk(c, s, b);
    if x !in PassOf(s, b) && Link(x.srcPort, x.dstPort, b) in added {
      assert LinkFree(c, s, e, Link(x.srcPort, x.dstPort, b));
    }
    if y !in PassOf(s, b) && Link(y.srcPort, y.dstPort, b) in added {
      assert LinkFree(c, s, e, Link(y.srcPort, y.dstPort, b));
    }
  }

  lemma CommittedBox(c: Context, s: State, s': State, e: int, prefix: seq<Link>, added: seq<Link>, b: int)
    requires Inv(c, s) && e in c.g.edges && e !in s.links && IsGib(c.adg, b)
    requires IsRoute(c, c.g.edges[e], prefix + added)
    requires Shared(c, s, e, prefix) && FreshOk(c, s, e, added)
    requires Committed(s, s', e, prefix, added)
    ensures BoxOk(c, s', b)
  {
    assert BoxOk(c, s, b);
    CommittedExclusive(c, s, s', e, prefix, added, b);
    CommittedLinks(c, s, s', e, prefix, added, b);
    forall p
      ensures InUsed(s', b, p) <==> SomeIn(PassOf(s', b), p)
      ensures OutUsed(s', b, p) <==> SomeOut(PassOf(s', b), p)
    {
      CommittedPorts(c, s, s', e, prefix, added, b, p);
    }
  }

  lemma CommittedExclusive(c: Context, s: State, s': State, e: int, prefix: seq<Link>, added: seq<Link>, b: int)
    requires Inv(c, s) && e in c.g.edges && IsGib(c.adg, b)
    requires Shared(c, s, e, prefix) && FreshOk(c, s, e, added) && Committed(s, s', e, prefix, added)
    ensures Exclusive(c.g, PassOf(s', b))
  {
    forall x, y | x in PassOf(s', b) && y in PassOf(s', b) && (x.srcPort == y.srcPort || x.dstPort == y.dstPort)
      ensures SameNet(c.g, x.edge, y.edge) && (x.dstPort == y.dstPort ==> x.srcPort == y.srcPort)
    {
      PassSources(c, s, s', e, prefix, added, b, x);
      PassSources(c, s, s', e, prefix, added, b, y);
      PairExclusive(c, s, e, added, b, x, y);
    }
  }

  // The new route's links in the box, and only those, are new there.
  lemma CommittedLinks(c: Context, s: State, s': State, e: int, prefix: seq<Link>, added: seq<Link>, b: int)
    requires Inv(c, s) && e in c.g.edges && e !in s.links && IsGib(c.adg, b)
    requires IsRoute(c, c.g.edges[e], prefix + added) && FreshOk(c, s, e, added) && Committed(s, s', e, prefix, added)
    ensures forall l | l in added && l.node == b :: l.srcPort >= 0 && l.dstPort >= 0
    ensures forall x | x in PassOf(s', b) :: x.edge in s'.links && Link(x.srcPort, x.dstPort, b) in s'.links[x.edge]
    ensures forall e', l | e' in s'.links && l in s'.links[e'] && l.node == b :: Pass(l.srcPort, l.dstPort, e') in PassOf(s', b)
  {
    assert BoxOk(c, s, b);
    forall l | l in added && l.node == b
      ensures l.srcPort >= 0 && l.dstPort >= 0 && l in Inner(added)
    {
      CrossPorts(c.adg, l);
    }
    forall l | l in prefix + added && l.node == b
      ensures Pass(l.srcPort, l.dstPort, e) in PassOf(s', b)
    {
      assert l in prefix ==> Pass(l.srcPort, l.dstPort, e) in PassesAt(e, prefix, b);
      assert l in added ==> Pass(l.srcPort, l.dstPort, e) in PassesAt(e, Inner(added), b);
    }
  }

  lemma CommittedPorts(c: Context, s: State, s': State, e: int, prefix: seq<Link>, added: seq<Link>, b: int, p: int)
    requires Inv(c, s) && IsGib(c.adg, b) && Shared(c, s, e, prefix)
    requires forall l | l in added && l.node == b :: l.srcPort >= 0 && l.dstPort >= 0
    requires Committed(s, s', e, prefix, added)
    ensures InUsed(s', b, p) <==> SomeIn(PassOf(s', b), p)
    ensures OutUsed(s', b, p) <==> SomeOut(PassOf(s', b), p)
  {
    assert BoxOk(c, s, b);
    if InGiven(added, b, p) {
      var l :| l in added && l.node == b && l.srcPort == p;
      assert Pass(l.srcPort, l.dstPort, e) in PassesAt(e, Inner(added), b);
    }
    if OutGiven(added, b, p) {
      var l :| l in added && l.node == b && l.dstPort == p;
      assert Pass(l.srcPort, l.dstPort, e) in PassesAt(e, Inner(added), b);
    }
    forall x | x in PassOf(s', b)
      ensures InUsed(s', b, x.srcPort) && OutUsed(s', b, x.dstPort)
    {
      if x in PassesAt(e, prefix, b) {
        var y := PrefixPass(c, s, e, prefix, b, x);
      } else if x !in PassOf(s, b) {
        assert Link(x.srcPort, x.dstPort, b) in added;
      }
    }
  }

  // Where routes end after the commit: where they ended before, and at the last link of added.
  lemma ArrivalsAfter(s: State, s': State, e: int, prefix: seq<Link>, added: seq<Link>, f: int)
    requires e !in s.links && added != [] && added[|added| - 1].dstPort == -1
    requires s'.links == s.links[e := prefix + added]
    ensures forall e1, p | e1 != e :: ArrivesAt(s', e1, f, p) <==> ArrivesAt(s, e1, f, p)
    ensures forall p :: ArrivesAt(s', e, f, p) <==> f == added[|added| - 1].node && p == added[|added| - 1].srcPort
    ensures forall p :: !ArrivesAt(s, e, f, p)
  {}

  lemma CommittedUnit(c: Context, s: State, s': State, e: int, prefix: seq<Link>, added: seq<Link>, f: int)
    requires Inv(c, s) && e in c.g.edges && e !in s.links && IsFu(c.adg, f)
    requires IsRoute(c, c.g.edges[e], prefix + added)
    requires Shared(c, s, e, prefix) && FreshOk(c, s, e, added)
    requires Committed(s, s', e, prefix, added)
    ensures UnitOk(c, s', f)
  {
    assert UnitOk(c, s, f);
    forall p
      ensures InUsed(s', f, p) <==> exists e' :: ArrivesAt(s', e', f, p)
    {
      CommittedArrival(c, s, s', e, prefix, added, f, p);
    }
    forall e1, e2, p, p' | ArrivesAt(s', e1, f, p) && ArrivesAt(s', e2, f, p') && e1 != e2
      ensures !SameOperand(c.adg, f, p, p')
    {
      ArrivalsApart(c, s, s', e, prefix, added, f, e1, e2, p, p');
    }
    forall x | x in PassOf(s', f) && x !in PassOf(s, f)
      ensures x.srcPort == -1 && x.edge == e && c.place[c.g.edges[e].src] == f
    {
      UnitPassIsStart(c, s, e, prefix, added, f, x);
    }
  }

  lemma ArrivalsApart(c: Context, s: State, s': State, e: int, prefix: seq<Link>, added: seq<Link>, f: int, e1: int, e2: int, p: int, p': int)
    requires e !in s.links && FreshOk(c, s, e, added) && Committed(s, s', e, prefix, added)
    requires UnitOk(c, s, f)
    requires ArrivesAt(s', e1, f, p) && ArrivesAt(s', e2, f, p') && e1 != e2
    ensures !SameOperand(c.adg, f, p, p')
  {
    ArrivalsAfter(s, s', e, prefix, added, f);
    if e1 == e {
      assert ArrivesAt(s, e2, f, p') && InUsed(s, f, p');
    } else if e2 == e {
      assert ArrivesAt(s, e1, f, p) && InUsed(s, f, p);
    } else {
      assert ArrivesAt(s, e1, f, p) && ArrivesAt(s, e2, f, p');
    }
  }

  lemma CommittedArrival(c: Context, s: State, s': State, e: int, prefix: seq<Link>, added: seq<Link>, f: int, p: int)
    requires Inv(c, s) && e in c.g.edges && e !in s.links && IsFu(c.adg, f)
    requires IsRoute(c, c.g.edges[e], prefix + added) && FreshOk(c, s, e, added)
    requires Committed(s, s', e, prefix, added)
    ensures InUsed(s', f, p) <==> exists e' :: ArrivesAt(s', e', f, p)
  {
    assert UnitOk(c, s, f);
    var last := added[|added| - 1];
    assert (prefix + added)[|prefix + added| - 1] == last;
    ArrivalIsPort(c, e, prefix + added);
    ArrivalsAfter(s, s', e, prefix, added, f);
    UnitPortGiven(c, s, e, added, f, p);
    if InUsed(s, f, p) {
      var e1 :| ArrivesAt(s, e1, f, p);
      assert ArrivesAt(s', e1, f, p);
    } else if InGiven(added, f, p) {
      assert ArrivesAt(s', e, f, p);
    }
  }

  lemma UnitPortGiven(c: Context, s: State, e: int, added: seq<Link>, f: int, p: int)
    requires IsFu(c.adg, f) && FreshOk(c, s, e, added) && added[|added| - 1].srcPort != -1
    ensures InGiven(added, f, p) <==> f == added[|added| - 1].node && p == added[|added| - 1].srcPort
  {}

  lemma ArrivalIsPort(c: Context, e: int, ls: seq<Link>)
    requires ArrayOk(c.adg) && e in c.g.edges && IsRoute(c, c.g.edges[e], ls)
    ensures ls[|ls| - 1].srcPort >= 0
  {
    OperandPort(c.adg, ls[|ls| - 1].node, ls[|ls| - 1].srcPort);
  }

  lemma UnitPassIsStart(c: Context, s: State, e: int, prefix: seq<Link>, added: seq<Link>, f: int, x: Pass)
    requires Inv(c, s) && e in c.g.edges && IsFu(c.adg, f) && IsRoute(c, c.g.edges[e], prefix + added)
    requires FreshOk(c, s, e, added)
    requires x in PassesAt(e, prefix, f) || x in PassesAt(e, Inner(added), f)
    ensures x.srcPort == -1 && x.edge == e && c.place[c.g.edges[e].src] == f
  {
    var ls := prefix + added;
    var l := Link(x.srcPort, x.dstPort, f);
    if l in prefix {
      var i :| 0 <= i < |prefix| && prefix[i] == l;
      assert ls[i] == l && i < |ls| - 1;
    }
  }

  // s' is s with the first i links of the route of e taken away.
  ghost predicate PartlyUnrouted(s: State, s': State, e: int, i: nat)
    requires e in s.links && i <= |s.links[e]|
  {
    && s'.links == s.links
    && forall n {:trigger PartlyAt(s, s', e, i, n)} :: PartlyAt(s, s', e, i, n)
  }

  ghost predicate PartlyAt(s: State, s': State, e: int, i: nat, n: int)
    requires e in s.links && i <= |s.links[e]|
  {
    var left := Without(PassOf(s, n), {e});
    && AttrOf(s', n).dfgNode == AttrOf(s, n).dfgNode
    && PassOf(s', n) == (if Touches(s.links[e][..i], n) then left else PassOf(s, n))
    && (forall p :: InUsed(s', n, p) <==> InUsed(s, n, p) && !(InGiven(s.links[e][..i], n, p) && !SomeIn(left, p)))
    && (forall p :: OutUsed(s', n, p) <==> OutUsed(s, n, p) && !(OutGiven(s.links[e][..i], n, p) && !SomeOut(left, p)))
  }

  predicate Touches(ls: seq<Link>, n: int) { exists l | l in ls :: l.node == n }

  lemma WhollyUnrouted(c: Context, s: State, s': State, e: int)
    requires Inv(c, s) && e in s.links && PartlyUnrouted(s, s', e, |s.links[e]|)
    ensures Unrouted(s, State(s'.attr, s'.links - {e}), e)
  {
    var s'' := State(s'.attr, s'.links - {e});
    assert s.links[e][..|s.links[e]|] == s.links[e];
    forall n
      ensures AttrOf(s'', n) == AttrOf(s', n) && PartlyAt(s, s', e, |s.links[e]|, n)
      ensures PassOf(s'', n) == Without(PassOf(s, n), {e})
    {
      assert PartlyAt(s, s', e, |s.links[e]|, n);
      if !Touches(s.links[e], n) {
        WithoutNone(PassOf(s, n), {e});
      }
    }
  }

  // ----- undoing

  lemma {:induction false} WithoutConcat(ps: seq<Pass>, qs: seq<Pass>, R: set<int>)
    ensures Without(ps + qs, R) == Without(ps, R) + Without(qs, R)
  {
    if qs == [] {
      assert ps + qs == ps;
    } else {
      assert (ps + qs)[..|ps + qs| - 1] == ps + qs[..|qs| - 1];
      WithoutConcat(ps, qs[..|qs| - 1], R);
    }
  }

  lemma {:induction false} WithoutTwice(ps: seq<Pass>, R: set<int>, R': set<int>)
    ensures Without(Without(ps, R), R') == Without(ps, R + R')
  {
    if ps != [] {
      var x := ps[|ps| - 1];
      WithoutTwice(ps[..|ps| - 1], R, R');
      if x.edge !in R {
        WithoutConcat(Without(ps[..|ps| - 1], R), [x], R');
      }
    }
  }

  lemma {:induction false} WithoutNone(ps: seq<Pass>, R: set<int>)
    requires forall x | x in ps :: x.edge !in R
    ensures Without(ps, R) == ps
  {
    if ps != [] {
      assert ps[|ps| - 1] in ps;
      WithoutNone(ps[..|ps| - 1], R);
    }
  }

  lemma {:induction false} WithoutAll(ps: seq<Pass>, R: set<int>)
    requires forall x | x in ps :: x.edge in R
    ensures Without(ps, R) == []
  {
    if ps != [] {
      assert ps[|ps| - 1] in ps;
      WithoutAll(ps[..|ps| - 1], R);
    }
  }

  // s is s0 with routes for the edges of R added.
  ghost predicate Extends(s0: State, s: State, R: set<int>) {
    && R !! s0.links.Keys && s.links.Keys == s0.links.Keys + R
    && SubMap(s0.links, s.links)
    && (forall n :: Without(PassOf(s, n), R) == PassOf(s0, n))
  }

  // Every node has the same owner.
  ghost predicate SameOwners(s: State, s': State) {
    forall n :: AttrOf(s', n).dfgNode == AttrOf(s, n).dfgNode
  }

  lemma ExtendsNone(s: State)
    ensures Extends(s, s, {})
  {
    forall n
      ensures Without(PassOf(s, n), {}) == PassOf(s, n)
    {
      WithoutNone(PassOf(s, n), {});
    }
  }

  lemma CommitExtends(c: Context, s0: State, s: State, s': State, R: set<int>, e: int, prefix: seq<Link>, added: seq<Link>)
    requires Inv(c, s) && Extends(s0, s, R) && e !in s.links && Committed(s, s', e, prefix, added)
    ensures Extends(s0, s', R + {e})
  {
    forall n
      ensures Without(PassOf(s', n), R + {e}) == PassOf(s0, n)
    {
      var p1, p2 := PassesAt(e, prefix, n), PassesAt(e, Inner(added), n);
      WithoutConcat(PassOf(s, n) + p1, p2, R + {e});
      WithoutConcat(PassOf(s, n), p1, R + {e});
      WithoutAll(p1, R + {e});
      WithoutAll(p2, R + {e});
      WithoutTwice(PassOf(s, n), R, {e});
      WithoutNone(PassOf(s0, n), {e});
    }
  }

  lemma UnrouteExtends(s0: State, s: State, s': State, R: set<int>, e: int)
    requires Extends(s0, s, R) && e in R && Unrouted(s, s', e)
    ensures Extends(s0, s', R - {e})
  {
    assert {e} + (R - {e}) == R;
    forall n
      ensures Without(PassOf(s', n), R - {e}) == PassOf(s0, n)
    {
      WithoutTwice(PassOf(s, n), {e}, R - {e});
    }
    assert s'.links.Keys == s0.links.Keys + (R - {e});
  }

  // Taking away one more route: what is left is extended by it, too.
  lemma UnrouteShrinks(c: Context, s0: State, s: State, s': State, R: set<int>, e: int)
    requires Inv(c, s) && Extends(s, s0, R) && e in s.links && Unrouted(s, s', e)
    ensures Extends(s', s0, R + {e})
  {
    forall n
      ensures Without(PassOf(s0, n), R + {e}) == PassOf(s', n)
    {
      WithoutTwice(PassOf(s0, n), R, {e});
    }
    assert s0.links.Keys == s'.links.Keys + (R + {e});
  }

  // ----- changes that the invariant does not see

  lemma PlaceMore(adg: Array, g: Graph, place: map<int, int>, s: State, n: int, f: int)
    requires Inv(Context(adg, g, place), s) && n !in place
    ensures Inv(Context(adg, g, place[n := f]), s)
  {
    var c, c' := Context(adg, g, place), Context(adg, g, place[n := f]);
    forall e | e in s.links
      ensures RouteOf(c', s, e)
    {
      assert RouteOf(c, s, e);
    }
    SameBoxes(c, c', s);
    forall u | IsFu(adg, u)
      ensures UnitOk(c', s, u)
    {
      assert UnitOk(c, s, u);
    }
  }

  lemma PlaceLess(adg: Array, g: Graph, place: map<int, int>, s: State, n: int)
    requires Inv(Context(adg, g, place), s)
    requires forall e | e in s.links && e in g.edges :: g.edges[e].src != n && g.edges[e].dst != n
    ensures Inv(Context(adg, g, place - {n}), s)
  {
    var c, c' := Context(adg, g, place), Context(adg, g, place - {n});
    forall e | e in s.links
      ensures RouteOf(c', s, e)
    {
      assert RouteOf(c, s, e);
    }
    SameBoxes(c, c', s);
    forall u | IsFu(adg, u)
      ensures UnitOk(c', s, u)
    {
      assert UnitOk(c, s, u);
    }
  }

  lemma SameBoxes(c: Context, c': Context, s: State)
    requires Inv(c, s) && c'.adg == c.adg && c'.g == c.g
    ensures forall b {:trigger BoxOk(c', s, b)} | IsGib(c.adg, b) :: BoxOk(c', s, b)
  {
    forall b | IsGib(c.adg, b)
      ensures BoxOk(c', s, b)
    {
      assert BoxOk(c, s, b);
    }
  }

  // The owner of a node is not part of the routing.
  lemma OwnerIsApart(c: Context, s: State, n: int, owner: Option<int>)
    requires Inv(c, s)
    ensures Inv(c, State(s.attr[n := AttrOf(s, n).(dfgNode := owner)], s.links))
  {
    var s' := State(s.attr[n := AttrOf(s, n).(dfgNode := owner)], s.links);
    SameRoutingKeeps(c, s, s');
  }

  lemma SameRoutingKeeps(c: Context, s: State, s': State)
    requires Inv(c, s) && s'.links == s.links
    requires forall n :: PassOf(s', n) == PassOf(s, n)
    requires forall n, p :: InUsed(s', n, p) == InUsed(s, n, p)
    requires forall n, p | IsGib(c.adg, n) :: OutUsed(s', n, p) == OutUsed(s, n, p)
    ensures Inv(c, s')
  {
    forall e | e in s'.links
      ensures RouteOf(c, s', e)
    {
      assert RouteOf(c, s, e);
    }
    forall b | IsGib(c.adg, b)
      ensures BoxOk(c, s', b)
    {
      assert BoxOk(c, s, b);
    }
    forall f | IsFu(c.adg, f)
      ensures UnitOk(c, s', f)
    {
      assert UnitOk(c, s, f);
      assert forall e, p :: ArrivesAt(s', e, f, p) <==> ArrivesAt(s, e, f, p);
    }
  }

  // The attributes of a unit where no route starts or ends can be dropped.
  lemma DropUnit(c: Context, s: State, f: int)
    requires Inv(c, s) && IsFu(c.adg, f)
    requires forall e | e in s.links && e in c.g.edges && c.g.edges[e].src in c.place :: c.place[c.g.edges[e].src] != f
    requires forall e | e in s.links && e in c.g.edges && c.g.edges[e].dst in c.place :: c.place[c.g.edges[e].dst] != f
    ensures Inv(c, State(s.attr - {f}, s.links))
    ensures forall n :: PassOf(State(s.attr - {f}, s.links), n) == PassOf(s, n)
  {
    var s' := State(s.attr - {f}, s.links);
    assert UnitOk(c, s, f);
    forall p
      ensures !InUsed(s, f, p)
    {
      if e :| ArrivesAt(s, e, f, p) {
        ArrivalPort(c, s, e, f, p);
      }
    }
    WithoutAll(PassOf(s, f), {});
    WithoutNone(PassOf(s, f), {});
    SameRoutingKeeps(c, s, s');
  }

  // Equal up to attributes that say nothing: the same routes, the same passes, and the same
  // ports in use at the boxes and at the inputs of the units.
  ghost predicate SameRouting(c: Context, s: State, s': State) {
    && s'.links == s.links
    && (forall n :: PassOf(s', n) == PassOf(s, n))
    && (forall b, p | IsGib(c.adg, b) :: InUsed(s', b, p) == InUsed(s, b, p) && OutUsed(s', b, p) == OutUsed(s, b, p))
    && (forall f, p | IsFu(c.adg, f) :: InUsed(s', f, p) == InUsed(s, f, p))
  }

  // Taking away everything that was added gives the old routing back.
  lemma UndoneIsSame(c: Context, s: State, s': State)
    requires Inv(c, s) && Inv(c, s') && Extends(s, s', {})
    ensures SameRouting(c, s, s')
  {
    forall n
      ensures PassOf(s', n) == PassOf(s, n)
    {
      WithoutNone(PassOf(s', n), {});
    }
    SameMap(s.links, s'.links);
    forall b, p | IsGib(c.adg, b)
      ensures InUsed(s', b, p) == InUsed(s, b, p) && OutUsed(s', b, p) == OutUsed(s, b, p)
    {
      assert BoxOk(c, s, b) && BoxOk(c, s', b);
    }
    forall f, p | IsFu(c.adg, f)
      ensures InUsed(s', f, p) == InUsed(s, f, p)
    {
      assert UnitOk(c, s, f) && UnitOk(c, s', f);
      assert forall e :: ArrivesAt(s', e, f, p) <==> ArrivesAt(s, e, f, p);
    }
  }

  // Routing an edge and unrouting it again changes nothing, whatever it shared.
  lemma RouteThenUnroute(c: Context, s: State, s': State, s'': State, e: int, prefix: seq<Link>, added: seq<Link>)
    requires Inv(c, s) && e in c.g.edges && e !in s.links
    requires IsRoute(c, c.g.edges[e], prefix + added)
    requires Shared(c, s, e, prefix) && FreshOk(c, s, e, added)
    requires Committed(s, s', e, prefix, added) && Unrouted(s', s'', e)
    ensures SameRouting(c, s, s'')
  {
    CommittedKeeps(c, s, s', e, prefix, added);
    UnroutedKeeps(c, s', s'', e);
    ExtendsNone(s);
    CommitExtends(c, s, s, s', {}, e, prefix, added);
    UnrouteExtends(s, s', s'', {} + {e}, e);
    assert {} + {e} - {e} == {};
    UndoneIsSame(c, s, s'');
  }
}
