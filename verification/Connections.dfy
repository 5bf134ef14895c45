/** Distances over the connections themselves: where two nodes are connected more than once, a
    walk may take any of the connections, while the matrix of hops knows the first one only. */
module Connections {
  import opened Adg
  import opened Distance
  import Collections

  // s leads from node to node through boxes, entering s[k + 1] by its port ps[k].
  ghost predicate ConnWalk(adg: Array, s: seq<int>, ps: seq<int>) {
    && |s| == |ps| + 1 && s[0] in adg.nodes
    && (forall k {:trigger ps[k]} | 0 <= k < |ps| :: DrivenBy(adg, s[k + 1], ps[k], s[k]))
    && (forall k | 0 < k < |s| - 1 :: IsBox(adg, s[k]))
  }

  function PortWeight(adg: Array, b: int, p: int): int {
    if b in adg.nodes && p in adg.nodes[b].inputs then LinkWeight(adg, b, p) else 0
  }

  // The weight of the first k connections.
  ghost function ConnWeight(adg: Array, s: seq<int>, ps: seq<int>, k: nat): int
    requires k <= |ps| < |s|
  {
    if k == 0 then 0 else ConnWeight(adg, s, ps, k - 1) + PortWeight(adg, s[k], ps[k - 1])
  }

  // d is the least weight of a walk over connections, or says that there is none lighter than INF.
  ghost predicate IsConnDistance(adg: Array, a: int, b: int, d: int) {
    && (forall s, ps {:trigger ConnWalk(adg, s, ps)} | ConnWalk(adg, s, ps) && Leads(s, a, b) :: d <= ConnWeight(adg, s, ps, |ps|))
    && (d < INF ==> exists s, ps :: ConnWalk(adg, s, ps) && Leads(s, a, b) && ConnWeight(adg, s, ps, |ps|) == d)
  }

  ghost predicate AllConnDistances(adg: Array, ids: seq<int>, m: Matrix)
    requires Square(m, |ids|)
  {
    forall i, j {:trigger m[i][j]} | 0 <= i < |ids| && 0 <= j < |ids| :: IsConnDistance(adg, ids[i], ids[j], m[i][j])
  }

  predicate Registered(adg: Array, b: int, p: int)
    requires b in adg.nodes && p in adg.nodes[b].inputs
  {
    var (a, srcPort) := adg.nodes[b].inputs[p];
    IsBox(adg, a) && adg.nodes[a].OutReged(srcPort)
  }

  // Of the connections from box a to box b, the one at the lowest port is not registered, or all are.
  ghost predicate FirstIsLightest(adg: Array, a: int, b: int)
    requires b in adg.nodes
  {
    || (forall p | FirstOf(adg, a, b, adg.nodes[b].inputs.Keys, p) :: !Registered(adg, b, p))
    || (forall p | DrivenBy(adg, b, p, a) :: Registered(adg, b, p))
  }

  ghost predicate FirstsAreLightest(adg: Array) {
    forall a, b {:trigger FirstIsLightest(adg, a, b)} | IsBox(adg, a) && IsBox(adg, b) && a != b :: FirstIsLightest(adg, a, b)
  }

  // What the two matrices are.
  ghost predicate MatricesOf(adg: Array, ids: seq<int>, h: Matrix, m: Matrix) {
    Lists(adg, ids) && Hops(h, |ids|) && HopsOf(adg, ids, h) && Least(h, Boxes(adg, ids), |ids|, m)
  }

  // ----- if the first connections are the lightest

  lemma HopIsLightest(adg: Array, ids: seq<int>, h: Matrix, i: int, j: int, p: int)
    requires Lists(adg, ids) && HopsOf(adg, ids, h) && FirstsAreLightest(adg)
    requires 0 <= i < |ids| && 0 <= j < |ids| && i != j && DrivenBy(adg, ids[j], p, ids[i])
    ensures h[i][j] <= LinkWeight(adg, ids[j], p)
  {
    var a, b := ids[i], ids[j];
    assert a != b;
    var ports := adg.nodes[b].inputs.Keys;
    assert HopOver(adg, a, b, ports, h[i][j]);
    assert p in ports;
    var q :| q in ports && FirstOf(adg, a, b, ports, q) && h[i][j] == LinkWeight(adg, b, q);
    if IsBox(adg, a) && IsBox(adg, b) {
      assert FirstIsLightest(adg, a, b);
    }
  }

  lemma OneHopMore(h: Matrix, gib: seq<bool>, w: seq<int>, x: int)
    requires Square(h, |h|) && Walk(h, gib, |h|, w) && 0 <= x < |h| && x != w[|w| - 1] && h[w[|w| - 1]][x] < INF
    requires |w| > 1 ==> gib[w[|w| - 1]]
    ensures Walk(h, gib, |h|, w + [x]) && Leads(w + [x], w[0], x)
    ensures Weight(h, w + [x]) == Weight(h, w) + h[w[|w| - 1]][x]
  {
    var u := w + [x];
    forall p | 0 <= p < |u| - 1
      ensures HopAt(h, u, p)
    {
      assert p < |w| - 1 ==> HopAt(h, w, p);
    }
    PartShift(h, w, u, 0, 0, |w| - 1);
  }

  lemma IndexIn(ids: seq<int>, a: int) returns (i: int)
    requires a in ids
    ensures 0 <= i < |ids| && ids[i] == a
  {
    i :| 0 <= i < |ids| && ids[i] == a;
  }

  // A walk of hops along the first k connections, no heavier than they are.
  lemma {:induction false} HopWalkAlong(adg: Array, ids: seq<int>, h: Matrix, s: seq<int>, ps: seq<int>, k: nat) returns (w: seq<int>)
    requires Lists(adg, ids) && Hops(h, |ids|) && HopsOf(adg, ids, h) && FirstsAreLightest(adg)
    requires ConnWalk(adg, s, ps) && k <= |ps|
    ensures Walk(h, Boxes(adg, ids), |ids|, w) && ids[w[0]] == s[0] && ids[w[|w| - 1]] == s[k]
    ensures Weight(h, w) <= ConnWeight(adg, s, ps, k) && |w| <= k + 1
  {
    if k == 0 {
      var i := IndexIn(ids, s[0]);
      w := [i];
    } else {
      w := HopWalkAlong(adg, ids, h, s, ps, k - 1);
      assert DrivenBy(adg, s[k], ps[k - 1], s[k - 1]);
      var last := w[|w| - 1];
      var j := IndexIn(ids, s[k]);
      if last != j {
        HopIsLightest(adg, ids, h, last, j, ps[k - 1]);
        assert |w| > 1 ==> IsBox(adg, s[k - 1]);
        OneHopMore(h, Boxes(adg, ids), w, j);
        w := w + [j];
      }
    }
  }

  // The connections that the hops of a walk stand for.
  lemma {:induction false} ConnWalkAlong(adg: Array, ids: seq<int>, h: Matrix, w: seq<int>, k: nat) returns (s: seq<int>, ps: seq<int>)
    requires Lists(adg, ids) && Hops(h, |ids|) && HopsOf(adg, ids, h) && Walk(h, Boxes(adg, ids), |ids|, w) && k < |w|
    ensures ConnWalk(adg, s, ps) && |ps| == k && forall p | 0 <= p <= k :: s[p] == ids[w[p]]
    ensures ConnWeight(adg, s, ps, k) == Part(h, w, 0, k)
  {
    if k == 0 {
      s, ps := [ids[w[0]]], [];
    } else {
      var s', ps' := ConnWalkAlong(adg, ids, h, w, k - 1);
      var p := HopPort(adg, ids, h, w, k - 1);
      s, ps := s' + [ids[w[k]]], ps' + [p];
      ConnMore(adg, s', ps', ids[w[k]], p);
    }
  }

  lemma HopPort(adg: Array, ids: seq<int>, h: Matrix, w: seq<int>, k: nat) returns (p: int)
    requires Lists(adg, ids) && Hops(h, |ids|) && HopsOf(adg, ids, h) && Walk(h, Boxes(adg, ids), |ids|, w) && k < |w| - 1
    ensures DrivenBy(adg, ids[w[k + 1]], p, ids[w[k]]) && PortWeight(adg, ids[w[k + 1]], p) == h[w[k]][w[k + 1]]
  {
    assert HopAt(h, w, k);
    var a, b := ids[w[k]], ids[w[k + 1]];
    assert a != b;
    assert HopOver(adg, a, b, adg.nodes[b].inputs.Keys, h[w[k]][w[k + 1]]);
    p :| p in adg.nodes[b].inputs.Keys && FirstOf(adg, a, b, adg.nodes[b].inputs.Keys, p) && h[w[k]][w[k + 1]] == LinkWeight(adg, b, p);
  }

  lemma ConnMore(adg: Array, s: seq<int>, ps: seq<int>, b: int, p: int)
    requires ConnWalk(adg, s, ps) && DrivenBy(adg, b, p, s[|ps|]) && (|ps| > 0 ==> IsBox(adg, s[|ps|]))
    ensures ConnWalk(adg, s + [b], ps + [p])
    ensures ConnWeight(adg, s + [b], ps + [p], |ps| + 1) == ConnWeight(adg, s, ps, |ps|) + PortWeight(adg, b, p)
  {
    SameConnWeight(adg, s, ps, s + [b], ps + [p], |ps|);
  }

  lemma {:induction false} SameConnWeight(adg: Array, s: seq<int>, ps: seq<int>, s': seq<int>, ps': seq<int>, k: nat)
    requires k <= |ps| < |s| && k <= |ps'| < |s'|
    requires (forall i | 0 <= i <= k :: s[i] == s'[i]) && (forall i | 0 <= i < k :: ps[i] == ps'[i])
    ensures ConnWeight(adg, s, ps, k) == ConnWeight(adg, s', ps', k)
  {
    if k > 0 {
      SameConnWeight(adg, s, ps, s', ps', k - 1);
    }
  }

  lemma LightestIsExact(adg: Array, ids: seq<int>, h: Matrix, m: Matrix, i: int, j: int)
    requires MatricesOf(adg, ids, h, m) && FirstsAreLightest(adg) && 0 <= i < |ids| && 0 <= j < |ids|
    ensures IsConnDistance(adg, ids[i], ids[j], m[i][j])
  {
    forall s, ps | ConnWalk(adg, s, ps) && Leads(s, ids[i], ids[j])
      ensures m[i][j] <= ConnWeight(adg, s, ps, |ps|)
    {
      var w := HopWalkAlong(adg, ids, h, s, ps, |ps|);
      BoundOf(h, Boxes(adg, ids), |ids|, m, w, i, j);
    }
    assert ReachedAt(h, Boxes(adg, ids), |ids|, m, i, j);
    if m[i][j] < INF {
      var w :| Walk(h, Boxes(adg, ids), |ids|, w) && Leads(w, i, j) && Weight(h, w) == m[i][j];
      var s, ps := ConnWalkAlong(adg, ids, h, w, |w| - 1);
      assert Leads(s, ids[i], ids[j]);
    }
  }

  // ----- if some first connection is not

  // A walk between two nodes weighs as its one hop, or two at least.
  lemma TwoAtLeast(h: Matrix, gib: seq<bool>, k: int, w: seq<int>)
    requires Hops(h, |h|) && Walk(h, gib, k, w) && w[0] != w[|w| - 1] && h[w[0]][w[|w| - 1]] >= 2
    ensures Weight(h, w) >= 2
  {
    var b := |w| - 1;
    assert b > 0 && HopAt(h, w, b - 1);
    if b > 1 {
      assert HopAt(h, w, b - 2);
      PartNonNeg(h, w, 0, b - 2);
      assert Part(h, w, 0, b - 1) == Part(h, w, 0, b - 2) + h[w[b - 2]][w[b - 1]];
      assert Part(h, w, 0, b) == Part(h, w, 0, b - 1) + h[w[b - 1]][w[b]];
    } else {
      assert Part(h, w, 0, 0) == 0;
    }
  }

  lemma HeavyHop(adg: Array, ids: seq<int>, h: Matrix, i: int, j: int)
    requires Lists(adg, ids) && HopsOf(adg, ids, h) && 0 <= i < |ids| && 0 <= j < |ids| && ids[i] != ids[j]
    requires IsBox(adg, ids[i]) && IsBox(adg, ids[j]) && !FirstIsLightest(adg, ids[i], ids[j])
    ensures h[i][j] == 2
  {
    var a, b := ids[i], ids[j];
    var ports := adg.nodes[b].inputs.Keys;
    assert HopOver(adg, a, b, ports, h[i][j]);
    var p :| FirstOf(adg, a, b, ports, p) && Registered(adg, b, p);
    var q :| q in ports && FirstOf(adg, a, b, ports, q) && h[i][j] == LinkWeight(adg, b, q);
    assert p in ports && p == q;
  }

  lemma LightConnection(adg: Array, a: int, b: int) returns (q: int)
    requires IsBox(adg, a) && IsBox(adg, b) && !FirstIsLightest(adg, a, b)
    ensures ConnWalk(adg, [a, b], [q]) && Leads([a, b], a, b) && ConnWeight(adg, [a, b], [q], 1) == 1
  {
    q :| DrivenBy(adg, b, q, a) && !Registered(adg, b, q);
    assert ConnWeight(adg, [a, b], [q], 0) == 0;
  }

  // The matrix says two at least, but another connection is lighter.
  lemma HeavyIsNotExact(adg: Array, ids: seq<int>, h: Matrix, m: Matrix, i: int, j: int)
    requires MatricesOf(adg, ids, h, m) && 0 <= i < |ids| && 0 <= j < |ids| && ids[i] != ids[j]
    requires IsBox(adg, ids[i]) && IsBox(adg, ids[j]) && !FirstIsLightest(adg, ids[i], ids[j])
    ensures m[i][j] >= 2 && !IsConnDistance(adg, ids[i], ids[j], m[i][j])
  {
    HeavyHop(adg, ids, h, i, j);
    assert ReachedAt(h, Boxes(adg, ids), |ids|, m, i, j);
    if m[i][j] < INF {
      var w :| Walk(h, Boxes(adg, ids), |ids|, w) && Leads(w, i, j) && Weight(h, w) == m[i][j];
      TwoAtLeast(h, Boxes(adg, ids), |ids|, w);
    }
    var q := LightConnection(adg, ids[i], ids[j]);
  }

  // The matrix holds the least weights over all connections just when between any two boxes the
  // first connection is not registered, or all are.
  lemma ExactDistances(adg: Array, ids: seq<int>, h: Matrix, m: Matrix)
    requires MatricesOf(adg, ids, h, m)
    ensures AllConnDistances(adg, ids, m) <==> FirstsAreLightest(adg)
  {
    if FirstsAreLightest(adg) {
      forall i, j {:trigger m[i][j]} | 0 <= i < |ids| && 0 <= j < |ids|
        ensures IsConnDistance(adg, ids[i], ids[j], m[i][j])
      {
        LightestIsExact(adg, ids, h, m, i, j);
      }
    } else {
      var a, b :| IsBox(adg, a) && IsBox(adg, b) && a != b && !FirstIsLightest(adg, a, b);
      var i := IndexIn(ids, a);
      var j := IndexIn(ids, b);
      HeavyIsNotExact(adg, ids, h, m, i, j);
    }
  }

  // Then the distances that are recorded are those over all connections, too.
  lemma RecordedIsExact(adg: Array, ids: seq<int>, h: Matrix, m: Matrix, dist: map<(int, int), int>)
    requires MatricesOf(adg, ids, h, m) && FirstsAreLightest(adg)
    requires forall i, j {:trigger m[i][j]} | 0 <= i < |ids| && 0 <= j < |ids| && Recorded(adg, ids[i], ids[j]) ::
      (ids[i], ids[j]) in dist && dist[(ids[i], ids[j])] == m[i][j]
    ensures forall a, b | Recorded(adg, a, b) :: (a, b) in dist && IsConnDistance(adg, a, b, dist[(a, b)])
  {
    ExactDistances(adg, ids, h, m);
    forall a, b | Recorded(adg, a, b)
      ensures (a, b) in dist && IsConnDistance(adg, a, b, dist[(a, b)])
    {
      var i := IndexIn(ids, a);
      var j := IndexIn(ids, b);
      assert IsConnDistance(adg, ids[i], ids[j], m[i][j]);
    }
  }

  const TWO_BOXES := Array(map[
    0 := Gib(map[], map[], map[0 := true, 1 := false]),
    1 := Gib(map[0 := (0, 0), 1 := (0, 1)], map[], map[])])

  lemma TwoBoxHops(h: Matrix)
    requires h == [[0, 2], [INF, 0]]
    ensures HopsOf(TWO_BOXES, [0, 1], h)
    ensures FirstOf(TWO_BOXES, 0, 1, TWO_BOXES.nodes[1].inputs.Keys, 0)
    ensures Registered(TWO_BOXES, 1, 0) && DrivenBy(TWO_BOXES, 1, 1, 0) && !Registered(TWO_BOXES, 1, 1)
  {
    var ports := TWO_BOXES.nodes[1].inputs.Keys;
    assert 0 in ports && FirstOf(TWO_BOXES, 0, 1, ports, 0) && Registered(TWO_BOXES, 1, 0);
  }

  // Two boxes with a registered connection at port 0 and another at port 1: the matrix says 2,
  // though the second connection takes 1.
  lemma TwoBoxesAreFarther() returns (h: Matrix, m: Matrix)
    ensures MatricesOf(TWO_BOXES, [0, 1], h, m)
    ensures m[0][1] == 2 && !IsConnDistance(TWO_BOXES, 0, 1, m[0][1])
    ensures ConnWalk(TWO_BOXES, [0, 1], [1]) && ConnWeight(TWO_BOXES, [0, 1], [1], 1) == 1
  {
    h := [[0, 2], [INF, 0]];
    m := h;
    TwoBoxHops(h);
    HopsAreLeast(h, Boxes(TWO_BOXES, [0, 1]));
    RelaxKeepsLeast(h, Boxes(TWO_BOXES, [0, 1]), 0, h, h);
    RelaxKeepsLeast(h, Boxes(TWO_BOXES, [0, 1]), 1, h, h);
    HeavyIsNotExact(TWO_BOXES, [0, 1], h, m, 0, 1);
    assert ConnWeight(TWO_BOXES, [0, 1], [1], 0) == 0;
  }

  // The same two boxes, with a unit in front and one behind.
  const ROW := Array(map[
    0 := Fu(false, map[], 0, 0, []),
    1 := Gib(map[0 := (0, 0)], map[], map[0 := true, 1 := false]),
    2 := Gib(map[0 := (1, 0), 1 := (1, 1)], map[], map[]),
    3 := Fu(false, map[0 := (2, 0)], 0, 0, [])])

  const ROW_IDS: seq<int> := [0, 1, 2, 3]

  lemma RowHop(i: int, j: int, w: int)
    requires 0 <= i < j < 4 && HopOver(ROW, i, j, ROW.nodes[j].inputs.Keys, w)
    ensures w == if j > i + 1 then INF else if i == 1 then 2 else 1
  {
    assert 0 in ROW.nodes[j].inputs.Keys && DrivenBy(ROW, j, 0, j - 1);
  }

  // No walk is lighter than the levels that it climbs.
  lemma {:induction false} Climbs(h: Matrix, s: seq<int>, level: seq<int>, b: nat)
    requires b < |s| && Ids(s, |level|)
    requires forall i, j {:trigger level[i], level[j]} | 0 <= i < |level| && 0 <= j < |level| :: Hop(h, i, j) >= level[j] - level[i]
    ensures Part(h, s, 0, b) >= level[s[b]] - level[s[0]]
  {
    if b > 0 {
      Climbs(h, s, level, b - 1);
      assert Hop(h, s[b - 1], s[b]) >= level[s[b]] - level[s[b - 1]];
    }
  }

  // What the hops between the four nodes weigh.
  predicate RowHops(h: Matrix) {
    Square(h, 4) && forall i, j | 0 <= i < 4 && 0 <= j < 4 ::
      if i >= j then h[i][j] >= 0 else h[i][j] == if j > i + 1 then INF else if i == 1 then 2 else 1
  }

  lemma HopsOfRow(h: Matrix)
    requires HopsOf(ROW, ROW_IDS, h) && Hops(h, 4)
    ensures RowHops(h)
  {
    forall i, j | 0 <= i < j < 4
      ensures h[i][j] == if j > i + 1 then INF else if i == 1 then 2 else 1
    {
      assert ROW_IDS[i] == i && ROW_IDS[j] == j;
      RowHop(i, j, h[i][j]);
    }
  }

  lemma RowAtLeast(h: Matrix, s: seq<int>)
    requires RowHops(h) && Ids(s, 4) && Leads(s, 0, 3)
    ensures Weight(h, s) >= 4
  {
    Climbs(h, s, [0, 1, 3, 4], |s| - 1);
  }

  lemma RowWalk(h: Matrix)
    requires RowHops(h)
    ensures Walk(h, Boxes(ROW, ROW_IDS), 4, ROW_IDS) && Weight(h, ROW_IDS) == 4
  {
    assert Part(h, ROW_IDS, 0, 0) == 0 && Part(h, ROW_IDS, 0, 1) == 1 && Part(h, ROW_IDS, 0, 2) == 3;
  }

  lemma RowDistance(h: Matrix, m: Matrix)
    requires MatricesOf(ROW, ROW_IDS, h, m)
    ensures m[0][3] == 4
  {
    HopsOfRow(h);
    RowWalk(h);
    assert Leads(ROW_IDS, 0, 3) && m[0][3] <= 4;
    var gib := Boxes(ROW, ROW_IDS);
    assert ReachedAt(h, gib, 4, m, 0, 3);
    var s :| Walk(h, gib, 4, s) && Leads(s, 0, 3) && m[0][3] == Weight(h, s);
    RowAtLeast(h, s);
  }

  // The walk over the connection that is not registered.
  lemma RowConnWalk()
    ensures ConnWalk(ROW, ROW_IDS, [0, 1, 0]) && ConnWeight(ROW, ROW_IDS, [0, 1, 0], 3) == 3
  {
    var ps := [0, 1, 0];
    assert ConnWeight(ROW, ROW_IDS, ps, 0) == 0 && ConnWeight(ROW, ROW_IDS, ps, 1) == 1 && ConnWeight(ROW, ROW_IDS, ps, 2) == 2;
  }

  // The distance recorded between the units is 4, and there is a walk of weight 3.
  method UnitsAreFarther() returns (dist: map<(int, int), int>)
    ensures (0, 3) in dist && dist[(0, 3)] == 4 && !IsConnDistance(ROW, 0, 3, dist[(0, 3)])
    ensures ConnWalk(ROW, ROW_IDS, [0, 1, 0]) && ConnWeight(ROW, ROW_IDS, [0, 1, 0], 3) == 3
  {
    ghost var h, m;
    dist, h, m := CalAdgNodeDist(ROW, ROW_IDS);
    RowDistance(h, m);
    assert Recorded(ROW, ROW_IDS[0], ROW_IDS[3]);
    RowConnWalk();
    assert Leads(ROW_IDS, 0, 3);
  }
}
