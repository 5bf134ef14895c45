/** Picking a member of a set, and the sum of the values of a finite map. */
module Collections {

  // Says nothing. A predicate "forall k | Unfold(k) && k == TheGraph :: P" keeps P out of the
  // proofs that only pass it on; "assert Unfold(TheGraph)" opens it.
  ghost predicate Unfold<T>(x: T) { true }

  // What is kept so.
  datatype Seal = TheGraph | TheBudgets | TheOffers | TheTally | TheProgress

  // Any member of the set: the order in which sets and maps are walked is left open.
  method Pick<T(==)>(s: set<T>) returns (x: T)
    requires s != {}
    ensures x in s
  {
    x :| x in s;
  }

  lemma MovedOver<T>(all: set<T>, todo: set<T>, x: T)
    requires x in todo && todo <= all
    ensures all - todo + {x} == all - (todo - {x})
  {}

  lemma AnyOf<T>(s: set<T>) returns (x: T)
    requires s != {}
    ensures x in s
  {
    x :| x in s;
  }

  // The walk over a sorted map starts at its least key.
  method PickLeast(s: set<int>) returns (x: int)
    requires s != {}
    ensures x in s && forall y | y in s :: x <= y
  {
    x := Pick(s);
    var todo := s - {x};
    while todo != {}
      invariant x in s && todo <= s && forall y | y in s && y !in todo :: x <= y
      decreases |todo|
    {
      var y := Pick(todo);
      x := if y < x then y else x;
      todo := todo - {y};
    }
  }

  ghost function Sum(m: map<int, int>): int {
    SumOver(m, m.Keys)
  }

  ghost function SumOver(m: map<int, int>, ks: set<int>): int
    requires forall k | k in ks :: k in m
  {
    if k :| k in ks then m[k] + SumOver(m, ks - {k}) else 0
  }

  lemma {:induction false} SumOverRemove(m: map<int, int>, ks: set<int>, k: int)
    requires forall j | j in ks :: j in m
    requires k in ks
    ensures SumOver(m, ks) == m[k] + SumOver(m, ks - {k})
  {
    var c :| c in ks && SumOver(m, ks) == m[c] + SumOver(m, ks - {c});
    if c != k {
      SumOverRemove(m, ks - {c}, k);
      SumOverRemove(m, ks - {k}, c);
      assert ks - {c} - {k} == ks - {k} - {c};
    }
  }

  lemma {:induction false} SumOverAgree(m: map<int, int>, m': map<int, int>, ks: set<int>)
    requires forall k | k in ks :: k in m && k in m' && m[k] == m'[k]
    ensures SumOver(m, ks) == SumOver(m', ks)
  {
    if k :| k in ks {
      SumOverRemove(m, ks, k);
      SumOverRemove(m', ks, k);
      SumOverAgree(m, m', ks - {k});
    }
  }

  lemma SumExtend(m: map<int, int>, k: int, v: int)
    requires k !in m
    ensures Sum(m[k := v]) == Sum(m) + v
  {
    var m' := m[k := v];
    SumOverRemove(m', m'.Keys, k);
    assert m'.Keys - {k} == m.Keys;
    SumOverAgree(m', m, m.Keys);
  }

  lemma {:induction false} SumOverGrows(m: map<int, int>, small: set<int>, large: set<int>)
    requires small <= large
    requires forall k | k in large :: k in m && m[k] >= 0
    ensures 0 <= SumOver(m, small) <= SumOver(m, large)
    decreases large
  {
    if k :| k in small {
      SumOverRemove(m, small, k);
      SumOverRemove(m, large, k);
      SumOverGrows(m, small - {k}, large - {k});
    } else if k :| k in large {
      SumOverRemove(m, large, k);
      SumOverGrows(m, small, large - {k});
    }
  }

  // A map that holds no negative value dominates every part of it.
  lemma SumPart(part: map<int, int>, m: map<int, int>)
    requires forall k | k in part :: k in m && m[k] == part[k]
    requires forall k | k in m :: m[k] >= 0
    ensures 0 <= Sum(part) <= Sum(m)
  {
    SumOverAgree(part, m, part.Keys);
    SumOverGrows(m, part.Keys, m.Keys);
  }

  lemma SameSize<T>(s: set<T>, t: set<T>)
    requires s <= t && t <= s
    ensures |s| == |t|
  {
    assert s == t;
  }

  lemma {:induction false} SubsetOfSize<T>(s: set<T>, t: set<T>)
    requires s <= t && |s| == |t|
    ensures s == t
  {
    if x :| x in t && x !in s {
      Smaller(s, t - {x});
    }
  }

  lemma {:induction false} Smaller<T>(s: set<T>, t: set<T>)
    requires s <= t
    ensures |s| <= |t|
  {
    if x :| x in s {
      Smaller(s - {x}, t - {x});
    }
  }

  ghost predicate SubMap<K(!new), V>(m: map<K, V>, m': map<K, V>) {
    forall k | k in m :: k in m' && m'[k] == m[k]
  }

  lemma SameMap<K(!new), V>(m: map<K, V>, m': map<K, V>)
    requires m'.Keys == m.Keys + {} && SubMap(m, m')
    ensures m == m'
  {}
}
