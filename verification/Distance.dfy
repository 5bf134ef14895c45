/** Distances between the nodes of the array: the least weight of a way whose inner nodes are
    all interconnect boxes. */
module Distance {
  import opened Adg
  import Collections

  const INF := 0x7fff_ffff

  type Matrix = seq<seq<int>>

  predicate Square(m: Matrix, n: nat) {
    |m| == n && forall i | 0 <= i < n :: |m[i]| == n
  }

  // The weights of single hops: 0 from a node to itself, INF where there is no hop.
  ghost predicate Hops(h: Matrix, n: nat) {
    && Square(h, n)
    && forall i, j | 0 <= i < n && 0 <= j < n :: if i == j then h[i][j] == 0 else h[i][j] == INF || 1 <= h[i][j] <= 2
  }

  predicate Ids(s: seq<int>, n: nat) {
    forall p | 0 <= p < |s| :: 0 <= s[p] < n
  }

  ghost predicate HopAt(h: Matrix, s: seq<int>, p: int)
    requires Square(h, |h|) && Ids(s, |h|) && 0 <= p < |s| - 1
  {
    s[p] != s[p + 1] && h[s[p]][s[p + 1]] < INF
  }

  // s goes from hop to hop, and only box nodes below k lie between its ends.
  ghost predicate Walk(h: Matrix, gib: seq<bool>, k: int, s: seq<int>)
    requires Square(h, |h|)
  {
    && s != [] && |gib| == |h| && Ids(s, |h|)
    && (forall p {:trigger HopAt(h, s, p)} | 0 <= p < |s| - 1 :: HopAt(h, s, p))
    && (forall p | 0 < p < |s| - 1 :: gib[s[p]] && s[p] < k)
  }

  function Hop(h: Matrix, i: int, j: int): int {
    if 0 <= i < |h| && 0 <= j < |h[i]| then h[i][j] else 0
  }

  // The weight of the hops of s from position a to position b.
  ghost function Part(h: Matrix, s: seq<int>, a: nat, b: nat): int
    requires a <= b < |s|
  {
    if a == b then 0 else Part(h, s, a, b - 1) + Hop(h, s[b - 1], s[b])
  }

  ghost function Weight(h: Matrix, s: seq<int>): int {
    if s == [] then 0 else Part(h, s, 0, |s| - 1)
  }

  ghost predicate Leads(s: seq<int>, i: int, j: int) {
    s != [] && s[0] == i && s[|s| - 1] == j
  }

  // No walk is shorter than m says.
  ghost predicate Bounds(h: Matrix, gib: seq<bool>, k: int, m: Matrix)
    requires Square(h, |h|) && Square(m, |h|)
  {
    forall s {:trigger Walk(h, gib, k, s)} | Walk(h, gib, k, s) :: m[s[0]][s[|s| - 1]] <= Weight(h, s)
  }

  // What m says is the weight of a walk.
  ghost predicate Reached(h: Matrix, gib: seq<bool>, k: int, m: Matrix)
    requires Square(h, |h|) && Square(m, |h|)
  {
    forall i, j {:trigger ReachedAt(h, gib, k, m, i, j)} | 0 <= i < |h| && 0 <= j < |h| :: ReachedAt(h, gib, k, m, i, j)
  }

  ghost predicate ReachedAt(h: Matrix, gib: seq<bool>, k: int, m: Matrix, i: int, j: int)
    requires Square(h, |h|) && Square(m, |h|) && 0 <= i < |h| && 0 <= j < |h|
  {
    m[i][j] < INF ==> exists s :: Walk(h, gib, k, s) && Leads(s, i, j) && Weight(h, s) == m[i][j]
  }

  // m holds the least weights of the walks with inner nodes below k.
  ghost predicate Least(h: Matrix, gib: seq<bool>, k: int, m: Matrix)
    requires Square(h, |h|)
  {
    && Square(m, |h|)
    && (forall i, j | 0 <= i < |h| && 0 <= j < |h| :: 0 <= m[i][j] <= INF)
    && (forall i | 0 <= i < |h| :: m[i][i] == 0)
    && Bounds(h, gib, k, m) && Reached(h, gib, k, m)
  }

  // ----- weights

  lemma {:induction false} PartNonNeg(h: Matrix, s: seq<int>, a: nat, b: nat)
    requires Hops(h, |h|) && Ids(s, |h|) && a <= b < |s|
    ensures Part(h, s, a, b) >= 0
  {
    if a < b {
      PartNonNeg(h, s, a, b - 1);
    }
  }

  lemma {:induction false} PartSum(h: Matrix, s: seq<int>, a: nat, b: nat, c: nat)
    requires a <= b <= c < |s|
    ensures Part(h, s, a, c) == Part(h, s, a, b) + Part(h, s, b, c)
  {
    if b < c {
      PartSum(h, s, a, b, c - 1);
    }
  }

  // A part weighs the same wherever it stands.
  lemma {:induction false} PartShift(h: Matrix, s: seq<int>, t: seq<int>, shift: int, a: nat, b: nat)
    requires a <= b < |t| && 0 <= a + shift && b + shift < |s|
    requires forall p | a <= p <= b :: t[p] == s[p + shift]
    ensures Part(h, t, a, b) == Part(h, s, a + shift, b + shift)
  {
    if a < b {
      PartShift(h, s, t, shift, a, b - 1);
    }
  }

  lemma WeightOfPart(h: Matrix, s: seq<int>, t: seq<int>, a: nat, b: nat)
    requires a <= b < |s| && |t| == b - a + 1 && forall p | 0 <= p <= b - a :: t[p] == s[p + a]
    ensures Weight(h, t) == Part(h, s, a, b)
  {
    PartShift(h, s, t, a, 0, b - a);
  }

  lemma WeightJoin(h: Matrix, s: seq<int>, t: seq<int>)
    requires s != [] && t != [] && s[|s| - 1] == t[0]
    ensures Weight(h, s + t[1..]) == Weight(h, s) + Weight(h, t)
  {
    var u := s + t[1..];
    PartSum(h, u, 0, |s| - 1, |u| - 1);
    PartShift(h, s, u, 0, 0, |s| - 1);
    PartShift(h, u, t, |s| - 1, 0, |t| - 1);
  }

  lemma {:induction false} PartSmall(h: Matrix, s: seq<int>, b: nat)
    requires Hops(h, |h|) && Ids(s, |h|) && b < |s|
    requires forall p {:trigger HopAt(h, s, p)} | 0 <= p < |s| - 1 :: HopAt(h, s, p)
    ensures Part(h, s, 0, b) <= 2 * b
  {
    if b > 0 {
      assert HopAt(h, s, b - 1);
      PartSmall(h, s, b - 1);
    }
  }

  // ----- the single hops

  lemma HopsAreLeast(h: Matrix, gib: seq<bool>)
    requires Hops(h, |h|) && |gib| == |h|
    ensures Least(h, gib, 0, h)
  {
    forall s | Walk(h, gib, 0, s)
      ensures h[s[0]][s[|s| - 1]] <= Weight(h, s)
    {
      if |s| == 2 {
        assert Weight(h, s) == Part(h, s, 0, 0) + h[s[0]][s[1]];
      }
    }
    forall i, j | 0 <= i < |h| && 0 <= j < |h|
      ensures ReachedAt(h, gib, 0, h, i, j)
    {
      var s := if i == j then [i] else [i, j];
      assert i != j ==> Weight(h, s) == Part(h, s, 0, 0) + h[i][j];
      if h[i][j] < INF {
        assert Walk(h, gib, 0, s) && Leads(s, i, j);
      }
    }
  }

  // ----- letting one more box lie between

  function Via(ij: int, ik: int, kj: int): int {
    if ik < INF && kj < INF && ij > ik + kj then ik + kj else ij
  }

  ghost predicate Relaxed(m: Matrix, m': Matrix, k: int)
    requires Square(m, |m|) && Square(m', |m|) && 0 <= k < |m|
  {
    forall i, j {:trigger m'[i][j]} | 0 <= i < |m| && 0 <= j < |m| :: m'[i][j] == Via(m[i][j], m[i][k], m[k][j])
  }

  // A part of a walk that meets k only at its ends.
  lemma PartWalk(h: Matrix, gib: seq<bool>, k: int, s: seq<int>, a: nat, b: nat)
    requires Square(h, |h|) && Walk(h, gib, k + 1, s) && a <= b < |s|
    requires forall p | a < p < b :: s[p] != k
    ensures Walk(h, gib, k, s[a..b + 1]) && Leads(s[a..b + 1], s[a], s[b])
  {
    var t := s[a..b + 1];
    forall p | 0 <= p < |t| - 1
      ensures HopAt(h, t, p)
    {
      assert HopAt(h, s, a + p);
    }
    assert forall p | 0 <= p < |t| :: t[p] == s[a + p];
  }

  lemma FirstAndLast(s: seq<int>, lo: nat, hi: nat, k: int) returns (f: nat, l: nat)
    requires lo < hi <= |s| && exists p :: lo <= p < hi && s[p] == k
    ensures lo <= f <= l < hi && s[f] == k && s[l] == k
    ensures forall p | lo <= p < f || l < p < hi :: s[p] != k
  {
    f := lo;
    while s[f] != k
      invariant lo <= f < hi && exists p :: f <= p < hi && s[p] == k
      invariant forall p | lo <= p < f :: s[p] != k
      decreases hi - f
    {
      f := f + 1;
    }
    l := hi - 1;
    while s[l] != k
      invariant f <= l < hi && forall p | l < p < hi :: s[p] != k
      decreases l
    {
      l := l - 1;
    }
  }

  lemma PassingBounds(h: Matrix, gib: seq<bool>, k: nat, m: Matrix, s: seq<int>, f: nat, l: nat)
    requires Hops(h, |h|) && k < |h| && Square(m, |h|) && Bounds(h, gib, k, m)
    requires Walk(h, gib, k + 1, s) && f <= l < |s| && s[f] == k && s[l] == k
    requires (forall p | 0 < p < f :: s[p] != k) && (forall p | l < p < |s| - 1 :: s[p] != k)
    ensures m[s[0]][k] + m[k][s[|s| - 1]] <= Weight(h, s)
  {
    PartBounds(h, gib, k, m, s, 0, f);
    PartBounds(h, gib, k, m, s, l, |s| - 1);
    PartSum(h, s, 0, f, |s| - 1);
    PartSum(h, s, f, l, |s| - 1);
    PartNonNeg(h, s, f, l);
  }

  lemma PartBounds(h: Matrix, gib: seq<bool>, k: nat, m: Matrix, s: seq<int>, a: nat, b: nat)
    requires Square(h, |h|) && Square(m, |h|) && Bounds(h, gib, k, m)
    requires Walk(h, gib, k + 1, s) && a <= b < |s| && forall p | a < p < b :: s[p] != k
    ensures m[s[a]][s[b]] <= Part(h, s, a, b)
  {
    PartWalk(h, gib, k, s, a, b);
    WeightOfPart(h, s, s[a..b + 1], a, b);
    BoundOf(h, gib, k, m, s[a..b + 1], s[a], s[b]);
  }

  lemma BoundOf(h: Matrix, gib: seq<bool>, k: int, m: Matrix, t: seq<int>, i: int, j: int)
    requires Square(h, |h|) && Square(m, |h|) && Bounds(h, gib, k, m) && Walk(h, gib, k, t) && Leads(t, i, j)
    ensures m[i][j] <= Weight(h, t)
  {}

  lemma RelaxedBounds(h: Matrix, gib: seq<bool>, k: nat, m: Matrix, m': Matrix, s: seq<int>)
    requires Hops(h, |h|) && k < |h| && Square(m, |h|) && Bounds(h, gib, k, m)
    requires forall i, j | 0 <= i < |h| && 0 <= j < |h| :: 0 <= m[i][j] <= INF
    requires Square(m', |h|) && Relaxed(m, m', k)
    requires Walk(h, gib, k + 1, s)
    ensures m'[s[0]][s[|s| - 1]] <= Weight(h, s)
  {
    var last := |s| - 1;
    var i, j := s[0], s[last];
    assert m'[i][j] == Via(m[i][j], m[i][k], m[k][j]);
    if exists p :: 1 <= p < last && s[p] == k {
      var f, l := FirstAndLast(s, 1, last, k);
      PassingBounds(h, gib, k, m, s, f, l);
    } else {
      PartWalk(h, gib, k, s, 0, last);
      assert s[0..last + 1] == s;
    }
  }

  lemma JoinWalk(h: Matrix, gib: seq<bool>, k: nat, s: seq<int>, t: seq<int>)
    requires Square(h, |h|) && Walk(h, gib, k, s) && Walk(h, gib, k, t)
    requires k < |h| && gib[k] && s[|s| - 1] == k && t[0] == k
    ensures Walk(h, gib, k + 1, s + t[1..])
  {
    var st := s + t[1..];
    forall p | 0 <= p < |st| - 1
      ensures HopAt(h, st, p)
    {
      if p < |s| - 1 {
        assert HopAt(h, s, p);
      } else {
        assert st[p] == t[p - |s| + 1];
        assert HopAt(h, t, p - |s| + 1);
      }
    }
    forall p | 0 < p < |st| - 1
      ensures gib[st[p]] && st[p] < k + 1
    {
      if p >= |s| - 1 {
        assert st[p] == t[p - |s| + 1];
      }
    }
  }

  lemma RelaxedReached(h: Matrix, gib: seq<bool>, k: nat, m: Matrix, m': Matrix, i: int, j: int)
    requires Hops(h, |h|) && k < |h| == |gib| && gib[k] && Least(h, gib, k, m) && Square(m', |h|) && Relaxed(m, m', k)
    requires 0 <= i < |h| && 0 <= j < |h|
    ensures ReachedAt(h, gib, k + 1, m', i, j)
  {
    assert ReachedAt(h, gib, k, m, i, j) && ReachedAt(h, gib, k, m, i, k) && ReachedAt(h, gib, k, m, k, j);
    if m'[i][j] == INF {
    } else if m'[i][j] == m[i][j] {
      var s :| Walk(h, gib, k, s) && Leads(s, i, j) && Weight(h, s) == m[i][j];
      assert Walk(h, gib, k + 1, s);
    } else {
      var s :| Walk(h, gib, k, s) && Leads(s, i, k) && Weight(h, s) == m[i][k];
      var t :| Walk(h, gib, k, t) && Leads(t, k, j) && Weight(h, t) == m[k][j];
      JoinWalk(h, gib, k, s, t);
      WeightJoin(h, s, t);
      assert Leads(s + t[1..], i, j);
    }
  }

  lemma RelaxKeepsLeast(h: Matrix, gib: seq<bool>, k: nat, m: Matrix, m': Matrix)
    requires Hops(h, |h|) && k < |h| == |gib| && gib[k] && Least(h, gib, k, m)
    requires Square(m', |h|) && Relaxed(m, m', k)
    ensures Least(h, gib, k + 1, m')
  {
    forall i, j | 0 <= i < |h| && 0 <= j < |h|
      ensures 0 <= m'[i][j] <= INF && (i == j ==> m'[i][j] == 0)
    {
      assert m'[i][j] == Via(m[i][j], m[i][k], m[k][j]);
    }
    forall s | Walk(h, gib, k + 1, s)
      ensures m'[s[0]][s[|s| - 1]] <= Weight(h, s)
    {
      RelaxedBounds(h, gib, k, m, m', s);
    }
    forall i, j {:trigger ReachedAt(h, gib, k + 1, m', i, j)} | 0 <= i < |h| && 0 <= j < |h|
      ensures ReachedAt(h, gib, k + 1, m', i, j)
    {
      RelaxedReached(h, gib, k, m, m', i, j);
    }
  }

  // A node that is no box is never passed.
  lemma SkipKeepsLeast(h: Matrix, gib: seq<bool>, k: nat, m: Matrix)
    requires Hops(h, |h|) && k < |h| == |gib| && !gib[k] && Least(h, gib, k, m)
    ensures Least(h, gib, k + 1, m)
  {
    forall s | Walk(h, gib, k + 1, s)
      ensures m[s[0]][s[|s| - 1]] <= Weight(h, s)
    {
      PartWalk(h, gib, k, s, 0, |s| - 1);
      assert s[0..|s| - 1 + 1] == s;
    }
    forall i, j {:trigger ReachedAt(h, gib, k + 1, m, i, j)} | 0 <= i < |h| && 0 <= j < |h|
      ensures ReachedAt(h, gib, k + 1, m, i, j)
    {
      assert ReachedAt(h, gib, k, m, i, j);
      if m[i][j] < INF {
        var s :| Walk(h, gib, k, s) && Leads(s, i, j) && Weight(h, s) == m[i][j];
        assert Walk(h, gib, k + 1, s);
      }
    }
  }

  // ----- INF says that there is no walk

  // A walk without repetition between the ends of s.
  lemma {:induction false} Shorten(h: Matrix, gib: seq<bool>, k: int, s: seq<int>) returns (t: seq<int>)
    requires Square(h, |h|) && Walk(h, gib, k, s)
    ensures Walk(h, gib, k, t) && Leads(t, s[0], s[|s| - 1])
    ensures forall a, b | 0 <= a < b < |t| :: t[a] != t[b]
    decreases |s|
  {
    if a, b :| 0 <= a < b < |s| && s[a] == s[b] {
      var u := s[..a] + s[b..];
      assert forall p | 0 <= p < |u| :: u[p] == if p < a then s[p] else s[p - a + b];
      forall p | 0 <= p < |u| - 1
        ensures HopAt(h, u, p)
      {
        var q := if p < a then p else p - a + b;
        assert HopAt(h, s, q);
      }
      t := Shorten(h, gib, k, u);
    } else {
      t := s;
    }
  }

  lemma {:induction false} Pigeonhole(s: seq<int>, n: nat)
    requires forall a, b | 0 <= a < b < |s| :: s[a] != s[b]
    requires Ids(s, n)
    ensures |s| <= n
  {
    assert s != [] ==> 0 <= s[0] < n;
    if s == [] {
    } else if p :| 0 <= p < |s| && s[p] == n - 1 {
      var t := s[..p] + s[p + 1..];
      forall a, b | 0 <= a < b < |t|
        ensures t[a] != t[b]
      {
        assert t[a] == s[if a < p then a else a + 1];
        assert t[b] == s[if b < p then b else b + 1];
      }
      forall a | 0 <= a < |t|
        ensures 0 <= t[a] < n - 1
      {
        assert t[a] == s[if a < p then a else a + 1];
      }
      Pigeonhole(t, n - 1);
    } else {
      Pigeonhole(s, n - 1);
    }
  }

  // An entry is INF just when no walk leads there, unless the array is too large for the numbers.
  lemma InfMeansNone(h: Matrix, gib: seq<bool>, k: int, m: Matrix, i: int, j: int)
    requires Hops(h, |h|) && Least(h, gib, k, m) && 2 * |h| < INF
    requires 0 <= i < |h| && 0 <= j < |h|
    ensures m[i][j] == INF <==> !exists s :: Walk(h, gib, k, s) && Leads(s, i, j)
    ensures m[i][j] < INF ==> m[i][j] <= 2 * |h|
  {
    assert ReachedAt(h, gib, k, m, i, j);
    if s :| Walk(h, gib, k, s) && Leads(s, i, j) {
      var t := Shorten(h, gib, k, s);
      Pigeonhole(t, |h|);
      PartSmall(h, t, |t| - 1);
    }
  }

  // ----- the loops over the matrix

  ghost function Rows(d: array2<int>): (m: Matrix)
    requires d.Length0 == d.Length1
    reads d
    ensures Square(m, d.Length0)
    ensures forall i, j {:trigger m[i][j]} {:trigger d[i, j]} | 0 <= i < d.Length0 && 0 <= j < d.Length0 :: m[i][j] == d[i, j]
  {
    seq(d.Length0, i requires 0 <= i < d.Length0 reads d =>
      seq(d.Length1, j requires 0 <= j < d.Length1 reads d => d[i, j]))
  }

  // Lets k lie between all pairs of nodes, in place: its own row and column stay as they are.
  method RelaxVia(d: array2<int>, n: nat, k: nat)
    requires d.Length0 == n && d.Length1 == n && k < n && d[k, k] == 0
    requires forall i, j | 0 <= i < n && 0 <= j < n :: 0 <= d[i, j] <= INF
    modifies d
    ensures Relaxed(old(Rows(d)), Rows(d), k)
  {
    for i := 0 to n
      invariant forall a, b {:trigger d[a, b]} | 0 <= a < n && 0 <= b < n ::
        d[a, b] == if a < i then Via(old(d[a, b]), old(d[a, k]), old(d[k, b])) else old(d[a, b])
    {
      for j := 0 to n
        invariant forall a, b {:trigger d[a, b]} | 0 <= a < n && 0 <= b < n ::
          d[a, b] == if a < i || (a == i && b < j) then Via(old(d[a, b]), old(d[a, k]), old(d[k, b])) else old(d[a, b])
      {
        assert d[i, k] == old(d[i, k]) && d[k, j] == old(d[k, j]);
        if d[i, k] < INF && d[k, j] < INF && d[i, j] > d[i, k] + d[k, j] {
          d[i, j] := d[i, k] + d[k, j];
        }
      }
    }
    forall i, j | 0 <= i < n && 0 <= j < n
      ensures Rows(d)[i][j] == Via(old(Rows(d))[i][j], old(Rows(d))[i][k], old(Rows(d))[k][j])
    {
      assert Rows(d)[i][j] == d[i, j];
    }
  }

  method Floyd(d: array2<int>, n: nat, gib: seq<bool>)
    requires d.Length0 == n && d.Length1 == n && |gib| == n && Hops(Rows(d), n)
    modifies d
    ensures Least(old(Rows(d)), gib, n, Rows(d))
  {
    ghost var h := Rows(d);
    HopsAreLeast(h, gib);
    for k := 0 to n
      invariant Least(h, gib, k, Rows(d))
    {
      ghost var m := Rows(d);
      if gib[k] {
        assert d[k, k] == m[k][k];
        forall i, j | 0 <= i < n && 0 <= j < n
          ensures 0 <= d[i, j] <= INF
        {
          assert d[i, j] == m[i][j];
        }
        RelaxVia(d, n, k);
        RelaxKeepsLeast(h, gib, k, m, Rows(d));
      } else {
        SkipKeepsLeast(h, gib, k, m);
      }
    }
  }

  // ----- from the array and back

  ghost predicate Sourced(adg: Array) {
    forall b | b in adg.nodes :: forall p | p in adg.nodes[b].inputs :: adg.nodes[b].inputs[p].0 in adg.nodes
  }

  predicate IsBox(adg: Array, a: int) { a in adg.nodes && adg.nodes[a].Gib? }

  predicate IsIob(adg: Array, a: int) { a in adg.nodes && adg.nodes[a].Fu? && adg.nodes[a].isIob }

  predicate DrivenBy(adg: Array, b: int, p: int, a: int) {
    b in adg.nodes && p in adg.nodes[b].inputs && adg.nodes[b].inputs[p].0 == a
  }

  // A registered output between two boxes takes two cycles.
  function LinkWeight(adg: Array, b: int, p: int): int
    requires b in adg.nodes && p in adg.nodes[b].inputs
  {
    var (a, srcPort) := adg.nodes[b].inputs[p];
    if IsBox(adg, a) && IsBox(adg, b) && adg.nodes[a].OutReged(srcPort) then 2 else 1
  }

  // The hop from a to b weighs as the first of the given ports of b that a drives.
  ghost predicate HopOver(adg: Array, a: int, b: int, ports: set<int>, w: int) {
    if a == b then w == 0
    else
      || (w == INF && forall p | p in ports :: !DrivenBy(adg, b, p, a))
      || exists p :: p in ports && FirstOf(adg, a, b, ports, p) && w == LinkWeight(adg, b, p)
  }

  ghost predicate FirstOf(adg: Array, a: int, b: int, ports: set<int>, p: int) {
    DrivenBy(adg, b, p, a) && forall p' | p' in ports && DrivenBy(adg, b, p', a) :: p <= p'
  }

  ghost predicate HopsOf(adg: Array, ids: seq<int>, h: Matrix) {
    && Square(h, |ids|)
    && forall i, j {:trigger h[i][j]} | 0 <= i < |ids| && 0 <= j < |ids| && ids[j] in adg.nodes ::
         HopOver(adg, ids[i], ids[j], adg.nodes[ids[j]].inputs.Keys, h[i][j])
  }

  lemma OnePortMore(adg: Array, a: int, b: int, ports: set<int>, p: int, w: int)
    requires HopOver(adg, a, b, ports, w) && b in adg.nodes && p in adg.nodes[b].inputs
    requires forall x | x in ports :: x < p
    ensures HopOver(adg, a, b, ports + {p}, if DrivenBy(adg, b, p, a) && w == INF then LinkWeight(adg, b, p) else w)
  {}

  ghost predicate Column(adg: Array, ids: seq<int>, d: array2<int>, t: nat, ports: set<int>)
    requires t < |ids| == d.Length0 == d.Length1
    reads d
  {
    forall i {:trigger d[i, t]} | 0 <= i < |ids| :: HopOver(adg, ids[i], ids[t], ports, d[i, t])
  }

  // Fills in the column of the node ids[t]: the hops that end there.
  method FillColumn(adg: Array, ids: seq<int>, idx: map<int, int>, d: array2<int>, t: nat)
    requires t < |ids| == d.Length0 == d.Length1 && ids[t] in adg.nodes
    requires forall p | p in adg.nodes[ids[t]].inputs :: adg.nodes[ids[t]].inputs[p].0 in idx
    requires forall a | a in idx :: 0 <= idx[a] < |ids| && ids[idx[a]] == a
    requires forall i, j | 0 <= i < j < |ids| :: ids[i] != ids[j]
    requires forall i | 0 <= i < |ids| :: d[i, t] == INF
    modifies d
    ensures forall i, j {:trigger d[i, j]} | 0 <= i < |ids| && 0 <= j < |ids| && j != t :: d[i, j] == old(d[i, j])
    ensures Column(adg, ids, d, t, adg.nodes[ids[t]].inputs.Keys)
  {
    var b := ids[t];
    var node := adg.nodes[b];
    d[t, t] := 0;
    var todo := node.inputs.Keys;
    ghost var ports: set<int> := node.inputs.Keys - todo;
    assert Column(adg, ids, d, t, ports);
    while todo != {}
      invariant todo <= node.inputs.Keys && ports == node.inputs.Keys - todo
      invariant forall x, y | x in ports && y in todo :: x < y
      invariant forall i, j {:trigger d[i, j]} | 0 <= i < |ids| && 0 <= j < |ids| && j != t :: d[i, j] == old(d[i, j])
      invariant Column(adg, ids, d, t, ports)
      decreases |todo|
    {
      var p := Collections.PickLeast(todo);
      FillPort(adg, ids, idx, d, t, p, ports);
      Collections.MovedOver(node.inputs.Keys, todo, p);
      ports := ports + {p};
      todo := todo - {p};
    }
    assert ports == node.inputs.Keys;
  }

  // The entry of port p, unless an earlier port has filled it in.
  method FillPort(adg: Array, ids: seq<int>, idx: map<int, int>, d: array2<int>, t: nat, p: int, ghost ports: set<int>)
    requires t < |ids| == d.Length0 == d.Length1 && ids[t] in adg.nodes && p in adg.nodes[ids[t]].inputs
    requires adg.nodes[ids[t]].inputs[p].0 in idx
    requires forall a | a in idx :: 0 <= idx[a] < |ids| && ids[idx[a]] == a
    requires forall i, j | 0 <= i < j < |ids| :: ids[i] != ids[j]
    requires forall x | x in ports :: x < p
    requires Column(adg, ids, d, t, ports)
    modifies d
    ensures forall i, j {:trigger d[i, j]} | 0 <= i < |ids| && 0 <= j < |ids| && j != t :: d[i, j] == old(d[i, j])
    ensures Column(adg, ids, d, t, ports + {p})
  {
    var a := adg.nodes[ids[t]].inputs[p].0;
    var srcIdx := idx[a];
    if d[srcIdx, t] == INF {
      d[srcIdx, t] := LinkWeight(adg, ids[t], p);
    }
    forall i | 0 <= i < |ids|
      ensures HopOver(adg, ids[i], ids[t], ports + {p}, d[i, t])
    {
      assert i != srcIdx ==> ids[i] != a;
      OnePortMore(adg, ids[i], ids[t], ports, p, old(d[i, t]));
    }
  }

  // ids lists the nodes of the array, each once.
  ghost predicate Lists(adg: Array, ids: seq<int>) {
    && (forall i | 0 <= i < |ids| :: ids[i] in adg.nodes)
    && (forall a | a in adg.nodes :: a in ids)
    && (forall i, j | 0 <= i < j < |ids| :: ids[i] != ids[j])
  }

  function Boxes(adg: Array, ids: seq<int>): seq<bool> {
    seq(|ids|, i requires 0 <= i < |ids| => IsBox(adg, ids[i]))
  }

  method IndexOf(ids: seq<int>) returns (idx: map<int, int>)
    requires forall i, j | 0 <= i < j < |ids| :: ids[i] != ids[j]
    ensures forall i | 0 <= i < |ids| :: ids[i] in idx
    ensures forall a | a in idx :: 0 <= idx[a] < |ids| && ids[idx[a]] == a
  {
    idx := map[];
    for i := 0 to |ids|
      invariant forall j | 0 <= j < i :: ids[j] in idx
      invariant forall a | a in idx :: 0 <= idx[a] < |ids| && ids[idx[a]] == a
    {
      idx := idx[ids[i] := i];
    }
  }

  lemma SourceListed(adg: Array, ids: seq<int>, b: int, p: int)
    requires Sourced(adg) && Lists(adg, ids) && b in adg.nodes && p in adg.nodes[b].inputs
    ensures adg.nodes[b].inputs[p].0 in ids
  {
    var a := adg.nodes[b].inputs[p].0;
    assert a in adg.nodes;
  }

  method FillMatrix(adg: Array, ids: seq<int>) returns (d: array2<int>)
    requires Sourced(adg) && Lists(adg, ids)
    ensures fresh(d) && d.Length0 == |ids| && d.Length1 == |ids|
    ensures HopsOf(adg, ids, Rows(d)) && Hops(Rows(d), |ids|)
  {
    var n := |ids|;
    var idx := IndexOf(ids);
    d := new int[n, n]((i, j) => INF);
    for t := 0 to n
      invariant forall c | 0 <= c < t :: Column(adg, ids, d, c, adg.nodes[ids[c]].inputs.Keys)
      invariant forall i, j {:trigger d[i, j]} | 0 <= i < n && t <= j < n :: d[i, j] == INF
    {
      forall p | p in adg.nodes[ids[t]].inputs
        ensures adg.nodes[ids[t]].inputs[p].0 in idx
      {
        SourceListed(adg, ids, ids[t], p);
      }
      ghost var d0 := Rows(d);
      FillColumn(adg, ids, idx, d, t);
      forall c | 0 <= c < t
        ensures Column(adg, ids, d, c, adg.nodes[ids[c]].inputs.Keys)
      {
        forall i | 0 <= i < n
          ensures d[i, c] == d0[i][c]
        {}
      }
    }
    forall i, j {:trigger Rows(d)[i][j]} | 0 <= i < n && 0 <= j < n
      ensures HopOver(adg, ids[i], ids[j], adg.nodes[ids[j]].inputs.Keys, Rows(d)[i][j])
      ensures if i == j then Rows(d)[i][j] == 0 else Rows(d)[i][j] == INF || 1 <= Rows(d)[i][j] <= 2
    {
      assert Rows(d)[i][j] == d[i, j];
      assert Column(adg, ids, d, j, adg.nodes[ids[j]].inputs.Keys);
    }
  }

  // Two units whose distance is recorded: not both are I/O blocks.
  predicate Recorded(adg: Array, a: int, b: int) {
    && a in adg.nodes && b in adg.nodes && !IsBox(adg, a) && !IsBox(adg, b)
    && !(IsIob(adg, a) && IsIob(adg, b))
  }

  // The distance from unit to unit is the least weight of a walk through boxes only.
  method CalAdgNodeDist(adg: Array, ids: seq<int>) returns (dist: map<(int, int), int>, ghost h: Matrix, ghost m: Matrix)
    requires Sourced(adg) && Lists(adg, ids)
    ensures HopsOf(adg, ids, h) && Hops(h, |ids|) && Least(h, Boxes(adg, ids), |ids|, m)
    ensures forall a, b :: (a, b) in dist <==> Recorded(adg, a, b)
    ensures forall i, j {:trigger m[i][j]} | 0 <= i < |ids| && 0 <= j < |ids| && Recorded(adg, ids[i], ids[j]) ::
      (ids[i], ids[j]) in dist && dist[(ids[i], ids[j])] == m[i][j]
  {
    var d := FillMatrix(adg, ids);
    h := Rows(d);
    Floyd(d, |ids|, Boxes(adg, ids));
    m := Rows(d);
    dist := map[];
    for i := 0 to |ids|
      invariant Rows(d) == m
      invariant forall a, b :: (a, b) in dist <==> Recorded(adg, a, b) && a in ids[..i]
      invariant forall a, b {:trigger m[a][b]} | 0 <= a < i && 0 <= b < |ids| && Recorded(adg, ids[a], ids[b]) ::
        (ids[a], ids[b]) in dist && dist[(ids[a], ids[b])] == m[a][b]
    {
      dist := RecordRow(adg, ids, d, i, dist);
    }
    assert ids[..|ids|] == ids;
  }

  method RecordRow(adg: Array, ids: seq<int>, d: array2<int>, i: nat, dist: map<(int, int), int>) returns (dist': map<(int, int), int>)
    requires Lists(adg, ids) && i < |ids| == d.Length0 == d.Length1
    requires forall b :: (ids[i], b) !in dist
    ensures forall x | x in dist :: x in dist' && dist'[x] == dist[x]
    ensures forall a, b | (a, b) !in dist :: (a, b) in dist' <==> a == ids[i] && Recorded(adg, a, b)
    ensures forall j {:trigger d[i, j]} | 0 <= j < |ids| && Recorded(adg, ids[i], ids[j]) ::
      (ids[i], ids[j]) in dist' && dist'[(ids[i], ids[j])] == d[i, j]
  {
    dist' := dist;
    for j := 0 to |ids|
      invariant forall x | x in dist :: x in dist' && dist'[x] == dist[x]
      invariant forall a, b | (a, b) !in dist :: (a, b) in dist' <==> a == ids[i] && Recorded(adg, a, b) && b in ids[..j]
      invariant forall b {:trigger d[i, b]} | 0 <= b < j && Recorded(adg, ids[i], ids[b]) ::
        (ids[i], ids[b]) in dist' && dist'[(ids[i], ids[b])] == d[i, b]
    {
      assert ids[..j + 1] == ids[..j] + [ids[j]];
      if Recorded(adg, ids[i], ids[j]) {
        dist' := dist'[(ids[i], ids[j]) := d[i, j]];
      }
    }
    assert ids[..|ids|] == ids;
  }
}
