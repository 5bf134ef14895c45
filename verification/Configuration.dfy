/** The settings of the multiplexers: inside an interconnect box, from the edges that pass it;
    and at a unit, the operand that takes the immediate. */
module Configuration {
  import opened Dfg
  import opened Adg
  import opened Routing
  import Mapping
  import Collections

  // ----- interconnect boxes

  // The inside of a box: the multiplexer behind each out port (none: wired to an in port), the
  // in ports that each multiplexer can select, and where its setting is stored.
  datatype BoxConfig = BoxConfig(muxOf: map<int, int>, muxIns: map<int, map<int, int>>, loc: map<int, int>) {
    predicate Muxed(outPort: int) {
      outPort in muxOf && muxOf[outPort] in muxIns && muxOf[outPort] in loc
    }

    // Every out port has a multiplexer of its own, and every multiplexer a place of its own.
    ghost predicate Ok() {
      && (forall o | o in muxOf :: Muxed(o))
      && (forall o, o' | o in muxOf && o' in muxOf && o != o' :: muxOf[o] != muxOf[o'] && Place(o) != Place(o'))
    }

    function Place(outPort: int): int {
      if Muxed(outPort) then loc[muxOf[outPort]] else -1
    }

    // sel is the first setting that selects the in port for the out port.
    ghost predicate Selects(outPort: int, sel: int, srcPort: int)
      requires Muxed(outPort)
    {
      var ins := muxIns[muxOf[outPort]];
      sel in ins && ins[sel] == srcPort && forall s | s in ins && ins[s] == srcPort :: sel <= s
    }

    // The out port can be connected to the in port.
    predicate CanSelect(outPort: int, srcPort: int)
      requires Muxed(outPort)
    {
      exists sel | sel in muxIns[muxOf[outPort]] :: muxIns[muxOf[outPort]][sel] == srcPort
    }
  }

  // The setting in cfg is right for the pass.
  ghost predicate SetFor(box: BoxConfig, cfg: map<int, int>, x: Pass) {
    box.Muxed(x.dstPort) ==> box.Place(x.dstPort) in cfg && box.Selects(x.dstPort, cfg[box.Place(x.dstPort)], x.srcPort)
  }

  // One input per output, and each can be selected.
  ghost predicate Selectable(box: BoxConfig, passes: seq<Pass>) {
    && (forall x, y | x in passes && y in passes && x.dstPort == y.dstPort :: x.srcPort == y.srcPort)
    && (forall x | x in passes && box.Muxed(x.dstPort) :: box.CanSelect(x.dstPort, x.srcPort))
  }

  method FindInput(ins: map<int, int>, srcPort: int) returns (found: bool, sel: int)
    ensures found <==> exists s | s in ins :: ins[s] == srcPort
    ensures found ==> sel in ins && ins[sel] == srcPort && forall s | s in ins && ins[s] == srcPort :: sel <= s
  {
    found, sel := false, 0;
    var todo := ins.Keys;
    while todo != {}
      invariant todo <= ins.Keys
      invariant forall s, t | s in ins && s !in todo && t in todo :: s < t
      invariant forall s | s in ins && s !in todo :: ins[s] != srcPort
      decreases |todo|
    {
      sel := Collections.PickLeast(todo);
      if ins[sel] == srcPort {
        found := true;
        return;
      }
      todo := todo - {sel};
    }
  }

  // The settings of a box. Each is right for every edge that passes the box, whichever edge is
  // looked at last, and there is none for an output that no edge takes.
  method GetGibCfgData(box: BoxConfig, passEdges: seq<Pass>) returns (cfg: map<int, int>)
    requires box.Ok() && Selectable(box, passEdges)
    ensures forall x | x in passEdges :: SetFor(box, cfg, x)
    ensures forall k :: k in cfg <==> exists x :: x in passEdges && box.Muxed(x.dstPort) && box.Place(x.dstPort) == k
  {
    cfg := map[];
    for i := 0 to |passEdges|
      invariant forall x | x in passEdges[..i] :: SetFor(box, cfg, x)
      invariant forall k :: k in cfg <==> exists x :: x in passEdges[..i] && box.Muxed(x.dstPort) && box.Place(x.dstPort) == k
    {
      var elem := passEdges[i];
      assert passEdges[..i + 1] == passEdges[..i] + [elem];
      assert elem in passEdges;
      ghost var before := cfg;
      if elem.dstPort in box.muxOf {
        var muxId := box.muxOf[elem.dstPort];
        var found, sel := FindInput(box.muxIns[muxId], elem.srcPort);
        if found {
          cfg := cfg[box.loc[muxId] := sel];
        }
        SetOneMore(box, before, cfg, passEdges, i, sel);
      }
      forall k
        ensures k in cfg <==> exists x :: x in passEdges[..i + 1] && box.Muxed(x.dstPort) && box.Place(x.dstPort) == k
      {
        if k in before {
          var x :| x in passEdges[..i] && box.Muxed(x.dstPort) && box.Place(x.dstPort) == k;
          assert x in passEdges[..i + 1];
        }
        assert elem in passEdges[..i + 1];
      }
    }
    assert passEdges[..|passEdges|] == passEdges;
  }

  lemma SetOneMore(box: BoxConfig, cfg: map<int, int>, cfg': map<int, int>, passes: seq<Pass>, i: nat, sel: int)
    requires box.Ok() && Selectable(box, passes) && i < |passes| && box.Muxed(passes[i].dstPort)
    requires forall x | x in passes[..i] :: SetFor(box, cfg, x)
    requires cfg' == cfg[box.Place(passes[i].dstPort) := sel] && box.Selects(passes[i].dstPort, sel, passes[i].srcPort)
    ensures forall x | x in passes[..i] + [passes[i]] :: SetFor(box, cfg', x)
  {}

  // Two orders of the same edges give the same settings.
  lemma OrderDoesNotMatter(box: BoxConfig, ps: seq<Pass>, qs: seq<Pass>, cfg: map<int, int>, cfg': map<int, int>, k: int)
    requires box.Ok() && forall x :: x in ps <==> x in qs
    requires (forall x | x in ps :: SetFor(box, cfg, x)) && (forall x | x in qs :: SetFor(box, cfg', x))
    requires forall c :: c in cfg <==> exists x :: x in ps && box.Muxed(x.dstPort) && box.Place(x.dstPort) == c
    requires forall c :: c in cfg' <==> exists x :: x in qs && box.Muxed(x.dstPort) && box.Place(x.dstPort) == c
    ensures k in cfg <==> k in cfg'
    ensures k in cfg ==> cfg[k] == cfg'[k]
  {}

  // The inside of the box connects what the architecture says can be connected.
  ghost predicate Describes(box: BoxConfig, node: Adg.Node)
    requires node.Gib?
  {
    box.Ok() && forall o | box.Muxed(o) :: forall p | p in node.InsOf(o) :: box.CanSelect(o, p)
  }

  // In every state of the mapping, the edges through a box can all be set at once.
  lemma MappedIsSelectable(c: Context, s: State, b: int, box: BoxConfig)
    requires Inv(c, s) && IsGib(c.adg, b) && Describes(box, c.adg.nodes[b])
    ensures Selectable(box, PassOf(s, b))
  {
    assert BoxOk(c, s, b);
    forall x | x in PassOf(s, b) && box.Muxed(x.dstPort)
      ensures box.CanSelect(x.dstPort, x.srcPort)
    {
      assert RouteOf(c, s, x.edge);
      LinkCrosses(c, c.g.edges[x.edge], s.links[x.edge], Link(x.srcPort, x.dstPort, b));
    }
  }

  lemma LinkCrosses(c: Context, e: Edge, ls: seq<Link>, l: Link)
    requires IsRoute(c, e, ls) && l in ls && IsGib(c.adg, l.node)
    ensures Crosses(c.adg, l)
  {
    var i :| 0 <= i < |ls| && ls[i] == l;
  }

  // ----- units: the operand of the immediate

  // The in ports of the node are the operands but the immediate's.
  predicate OperandsNumbered(node: Dfg.Node) {
    && node.HasImm() && node.immIdx < node.NumInputs()
    && forall p | p in node.inputEdges :: 0 <= p < node.NumInputs() && p != node.immIdx
  }

  ghost predicate EndsAtOperand(m: Mapping.Mapping, f: int, e: int, k: int)
    reads m`links
  {
    && e in m.links && m.links[e] != [] && IsFu(m.adg, f) && 0 <= k < |m.adg.nodes[f].operandInputs|
    && m.links[e][|m.links[e]| - 1].srcPort in m.adg.nodes[f].operandInputs[k]
  }

  // The edge into port p of n ends at operand k.
  ghost predicate EntersOperand(m: Mapping.Mapping, n: int, p: int, k: int)
    reads m`links, m`placed
  {
    && n in m.g.nodes && n in m.placed && p in m.g.nodes[n].inputEdges
    && EndsAtOperand(m, m.placed[n], m.g.nodes[n].inputEdges[p], k)
  }

  method OperandOf(operandInputs: seq<set<int>>, port: int) returns (k: nat)
    requires exists k | 0 <= k < |operandInputs| :: port in operandInputs[k]
    ensures k < |operandInputs| && port in operandInputs[k]
  {
    k := 0;
    while port !in operandInputs[k]
      invariant k < |operandInputs| && exists j :: k <= j < |operandInputs| && port in operandInputs[j]
      decreases |operandInputs| - k
    {
      k := k + 1;
    }
  }

  // The route of an edge into n ends at an operand of n's unit; its own, if they are not
  // commutative; and no other edge's.
  lemma EdgeOperand(m: Mapping.Mapping, n: int, p: int)
    requires m.Valid() && n in m.placed && n in m.g.nodes && p in m.g.nodes[n].inputEdges
    requires m.g.nodes[n].inputEdges[p] in m.links
    ensures var e, f := m.g.nodes[n].inputEdges[p], m.placed[n];
      && e in m.g.edges && IsFu(m.adg, f) && m.links[e] != []
      && ArrivesAt(m.Now(), e, f, m.links[e][|m.links[e]| - 1].srcPort)
      && (exists k | 0 <= k < |m.adg.nodes[f].operandInputs| :: m.links[e][|m.links[e]| - 1].srcPort in m.adg.nodes[f].operandInputs[k])
      && (!m.g.nodes[n].commutative ==> EndsAtOperand(m, f, e, p))
  {
    var e := m.g.nodes[n].inputEdges[p];
    var c := Context(m.adg, m.g, m.placed);
    assert RouteOf(c, m.Now(), e);
    m.InputEdge(n, p);
    var ls := m.links[e];
    assert OperandAllowed(m.g, m.adg, m.g.edges[e], m.placed[n], ls[|ls| - 1].srcPort);
  }

  lemma OperandsApart(m: Mapping.Mapping, f: int, e: int, e': int, k: int, k': int)
    requires m.Valid() && IsFu(m.adg, f) && e != e' && EndsAtOperand(m, f, e, k) && EndsAtOperand(m, f, e', k')
    requires ArrivesAt(m.Now(), e, f, m.links[e][|m.links[e]| - 1].srcPort)
    requires ArrivesAt(m.Now(), e', f, m.links[e'][|m.links[e']| - 1].srcPort)
    ensures k != k'
  {
    assert UnitOk(Context(m.adg, m.g, m.placed), m.Now(), f);
    var p, p' := m.links[e][|m.links[e]| - 1].srcPort, m.links[e'][|m.links[e']| - 1].srcPort;
    assert k == k' ==> SameOperand(m.adg, f, p, p');
  }

  ghost predicate AllRouted(m: Mapping.Mapping, n: int)
    reads m`links
    requires n in m.g.nodes
  {
    forall p | p in m.g.nodes[n].inputEdges :: m.g.nodes[n].inputEdges[p] in m.links
  }

  // The node is mapped and the edges into it are routed. Keeps what that says out of the loop
  // that only passes it on.
  ghost predicate Ready(m: Mapping.Mapping, n: int)
    reads m
  {
    forall k {:trigger Collections.Unfold(k)} | Collections.Unfold(k) && k == Collections.TheGraph :: m.Valid() && n in m.placed && n in m.g.nodes && AllRouted(m, n)
  }

  // The operands that the edges into n end at: as many as there are edges, and the edges' own
  // if they are not commutative.
  method UsedOperands(m: Mapping.Mapping, n: int) returns (used: set<int>)
    requires Ready(m, n) && n in m.placed && n in m.g.nodes
    ensures |used| == |m.g.nodes[n].inputEdges|
    ensures forall k | k in used :: exists p :: EntersOperand(m, n, p, k)
    ensures forall p, k | EntersOperand(m, n, p, k) :: k in used
    ensures !m.g.nodes[n].commutative ==> forall k :: k in used <==> HasPort(m, n, k)
  {
    var node := m.g.nodes[n];
    used := {};
    var todo := node.inputEdges.Keys;
    ghost var operand: map<int, int> := map[];
    NoneCollected(m, n);
    ghost var all: set<int> := node.inputEdges.Keys;
    while todo != {}
      invariant todo <= all && operand.Keys == all - todo
      invariant OperandsFound(m, n, operand) && Collected(used, operand)
      decreases |todo|
    {
      var p := Collections.Pick(todo);
      Collections.MovedOver(all, todo, p);
      used, operand := UseOperand(m, n, p, used, operand);
      todo := todo - {p};
    }
    assert operand.Keys == all;
    AllCollected(m, n, used, operand);
  }

  method UseOperand(m: Mapping.Mapping, n: int, p: int, used: set<int>, ghost operand: map<int, int>)
    returns (used': set<int>, ghost operand': map<int, int>)
    requires Ready(m, n) && n in m.placed && n in m.g.nodes && p in m.g.nodes[n].inputEdges.Keys && p !in operand.Keys
    requires OperandsFound(m, n, operand) && Collected(used, operand)
    ensures OperandsFound(m, n, operand') && Collected(used', operand')
    ensures operand'.Keys == operand.Keys + {p}
  {
    var k := OperandOfEdge(m, n, p, operand);
    used' := used + {k};
    operand' := operand[p := k];
    assert Collected(used', operand') && operand'.Keys == operand.Keys + {p} by {
      CollectMore(used, operand, operand', p, k);
    }
    assert OperandsFound(m, n, operand') by {
      FoundMore(m, n, operand, operand', p, k);
    }
  }

  method OperandOfEdge(m: Mapping.Mapping, n: int, p: int, ghost operand: map<int, int>) returns (k: int)
    requires Ready(m, n) && n in m.placed && n in m.g.nodes
    requires p in m.g.nodes[n].inputEdges && p !in operand && OperandsFound(m, n, operand)
    ensures EntersOperand(m, n, p, k)
    ensures forall q | q in operand :: operand[q] != k
    ensures !m.g.nodes[n].commutative ==> k == p
  {
    assert Collections.Unfold(Collections.TheGraph);
    var e := m.g.nodes[n].inputEdges[p];
    EdgeOperand(m, n, p);
    k := OperandOf(m.adg.nodes[m.placed[n]].operandInputs, m.links[e][|m.links[e]| - 1].srcPort);
    NotYetUsed(m, n, p, k, operand);
  }

  // Where the edges into the ports looked at so far end.
  ghost predicate OperandsFound(m: Mapping.Mapping, n: int, operand: map<int, int>)
    requires n in m.g.nodes && n in m.placed
    reads m`links, m`placed
  {
    && (forall p | p in operand :: p in m.g.nodes[n].inputEdges && EndsAtOperand(m, m.placed[n], m.g.nodes[n].inputEdges[p], operand[p]))
    && (!m.g.nodes[n].commutative ==> forall p | p in operand :: operand[p] == p)
  }

  ghost predicate Collected(used: set<int>, operand: map<int, int>) {
    && |used| == |operand|
    && (forall p | p in operand :: operand[p] in used)
    && (forall k | k in used :: exists p :: p in operand && operand[p] == k)
  }

  lemma NoneCollected(m: Mapping.Mapping, n: int)
    requires n in m.g.nodes && n in m.placed
    ensures Collected({}, map[]) && OperandsFound(m, n, map[])
  {}

  lemma CollectMore(used: set<int>, operand: map<int, int>, operand': map<int, int>, p: int, k: int)
    requires Collected(used, operand) && p !in operand && forall q | q in operand :: operand[q] != k
    requires operand' == operand[p := k]
    ensures Collected(used + {k}, operand') && operand'.Keys == operand.Keys + {p}
  {
    assert k !in used;
    OneMore(used, operand, p, k);
    forall j | j in used + {k}
      ensures exists q :: q in operand' && operand'[q] == j
    {
      PortOfOperand(used, operand, operand', p, k, j);
    }
  }

  lemma OneMore<P, K>(used: set<K>, operand: map<P, K>, p: P, k: K)
    requires k !in used && p !in operand
    ensures |used + {k}| == |used| + 1 && |operand[p := k]| == |operand| + 1
    ensures operand[p := k].Keys == operand.Keys + {p}
  {
    assert |operand.Keys + {p}| == |operand.Keys| + 1;
  }

  lemma PortOfOperand(used: set<int>, operand: map<int, int>, operand': map<int, int>, p: int, k: int, j: int)
    requires Collected(used, operand) && p !in operand && operand' == operand[p := k] && (j in used || j == k)
    ensures exists q :: q in operand' && operand'[q] == j
  {
    if j == k {
      assert operand'[p] == j;
    } else {
      var q :| q in operand && operand[q] == j;
      assert operand'[q] == j;
    }
  }

  lemma FoundMore(m: Mapping.Mapping, n: int, operand: map<int, int>, operand': map<int, int>, p: int, k: int)
    requires operand' == operand[p := k]
    requires n in m.g.nodes && n in m.placed && OperandsFound(m, n, operand) && EntersOperand(m, n, p, k)
    requires !m.g.nodes[n].commutative ==> k == p
    ensures OperandsFound(m, n, operand')
  {}

  lemma AllCollected(m: Mapping.Mapping, n: int, used: set<int>, operand: map<int, int>)
    requires Ready(m, n) && n in m.g.nodes && n in m.placed && OperandsFound(m, n, operand) && Collected(used, operand)
    requires operand.Keys == m.g.nodes[n].inputEdges.Keys
    ensures |used| == |m.g.nodes[n].inputEdges|
    ensures forall k | k in used :: exists p :: EntersOperand(m, n, p, k)
    ensures forall p, k | EntersOperand(m, n, p, k) :: k in used
    ensures !m.g.nodes[n].commutative ==> forall k :: k in used <==> HasPort(m, n, k)
  {
    forall k | k in used
      ensures exists p :: EntersOperand(m, n, p, k)
    {
      var p :| p in operand && operand[p] == k;
      assert EntersOperand(m, n, p, k);
    }
    forall p, k | EntersOperand(m, n, p, k)
      ensures k in used
    {
      EnteredIsCollected(m, n, used, operand, p, k);
    }
    if !m.g.nodes[n].commutative {
      OwnCollected(m, n, used, operand);
    }
  }

  lemma EnteredIsCollected(m: Mapping.Mapping, n: int, used: set<int>, operand: map<int, int>, p: int, k: int)
    requires Ready(m, n) && n in m.g.nodes && n in m.placed && OperandsFound(m, n, operand) && Collected(used, operand)
    requires operand.Keys == m.g.nodes[n].inputEdges.Keys && EntersOperand(m, n, p, k)
    ensures k in used
  {
    assert p in operand.Keys;
    assert Collections.Unfold(Collections.TheGraph);
    OneOperand(m, m.placed[n], m.g.nodes[n].inputEdges[p], k, operand[p]);
  }

  ghost predicate HasPort(m: Mapping.Mapping, n: int, k: int) {
    n in m.g.nodes && k in m.g.nodes[n].inputEdges
  }

  lemma OwnCollected(m: Mapping.Mapping, n: int, used: set<int>, operand: map<int, int>)
    requires n in m.g.nodes && Collected(used, operand) && operand.Keys == m.g.nodes[n].inputEdges.Keys
    requires forall p | p in operand :: operand[p] == p
    ensures forall k :: k in used <==> HasPort(m, n, k)
  {}

  lemma NotYetUsed(m: Mapping.Mapping, n: int, p: int, k: int, operand: map<int, int>)
    requires m.Valid() && n in m.placed && n in m.g.nodes && AllRouted(m, n)
    requires p in m.g.nodes[n].inputEdges && p !in operand && EndsAtOperand(m, m.placed[n], m.g.nodes[n].inputEdges[p], k)
    requires forall q | q in operand :: q in m.g.nodes[n].inputEdges && EndsAtOperand(m, m.placed[n], m.g.nodes[n].inputEdges[q], operand[q])
    ensures forall q | q in operand :: operand[q] != k
    ensures !m.g.nodes[n].commutative ==> k == p
  {
    var f := m.placed[n];
    EdgeOperand(m, n, p);
    forall q | q in operand
      ensures operand[q] != k
    {
      EdgeOperand(m, n, q);
      m.InputEdge(n, p);
      m.InputEdge(n, q);
      OperandsApart(m, f, m.g.nodes[n].inputEdges[p], m.g.nodes[n].inputEdges[q], k, operand[q]);
    }
    if !m.g.nodes[n].commutative && k != p {
      OneOperand(m, f, m.g.nodes[n].inputEdges[p], k, p);
    }
  }

  // No port belongs to two operands.
  lemma OneOperand(m: Mapping.Mapping, f: int, e: int, k: int, k': int)
    requires ArrayOk(m.adg) && EndsAtOperand(m, f, e, k) && EndsAtOperand(m, f, e, k')
    ensures k == k'
  {
    assert NodeOk(m.adg, f);
  }

  // The operand for the immediate. One is always free; and it is the immediate's own, if the
  // operands are not commutative.
  method ImmediateOperand(m: Mapping.Mapping, n: int) returns (i: nat)
    requires m.Valid() && n in m.placed && n in m.g.nodes && AllRouted(m, n)
    requires OperandsNumbered(m.g.nodes[n])
    ensures i < m.g.nodes[n].NumInputs()
    ensures !m.g.nodes[n].commutative ==> i == m.g.nodes[n].immIdx
    ensures forall p :: !EntersOperand(m, n, p, i)
  {
    assert Ready(m, n);
    var used := UsedOperands(m, n);
    i := 0;
    while i < m.g.nodes[n].NumInputs() && i in used
      invariant i <= m.g.nodes[n].NumInputs() && forall k | 0 <= k < i :: k in used
    {
      i := i + 1;
    }
    m.PortsMatch(n);
    FirstAreMany(used, i);
    if !m.g.nodes[n].commutative {
      OneFree(m.g.nodes[n].inputEdges.Keys, m.g.nodes[n].NumInputs(), i, m.g.nodes[n].immIdx);
    }
  }

  lemma {:induction false} FirstAreMany(s: set<int>, n: nat)
    requires forall k | 0 <= k < n :: k in s
    ensures |s| >= n
  {
    if n > 0 {
      FirstAreMany(s - {n - 1}, n - 1);
    }
  }

  lemma {:induction false} NumbersBelow(s: set<int>, n: nat)
    requires forall k | k in s :: 0 <= k < n
    ensures |s| <= n
  {
    if s != {} {
      var k := Collections.AnyOf(s);
      NumbersBelow(s - {n - 1}, n - 1);
    }
  }

  // Of n numbers, all but one are in s.
  lemma OneFree(s: set<int>, n: nat, a: int, b: int)
    requires (forall k | k in s :: 0 <= k < n) && |s| + 1 == n
    requires 0 <= a < n && 0 <= b < n && a !in s && b !in s
    ensures a == b
  {
    NumbersBelow(s + {a} + {b}, n);
  }
}