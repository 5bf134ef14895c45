/** What the optimising driver does with the first one: it calls it again and again, and keeps the
    best of the mappings that it finds. */
module Tries {
  import Collections
  import opened Runs

  // A call of the first driver: its setting, its run, its answer, the mapping it leaves, and the
  // objective of that, if it has succeeded.
  datatype Try<!M> = Try(s: Setting<M>, run: seq<Round<M>>, phases: seq<Phase<M>>, res: int, found: M, obj: real)

  // What the optimising driver is called with.
  datatype Task<!M> = Task(view: M -> View, o: Oracle<M>, clock0: nat, empty0: M, maxIters: nat, maxItersNoImprv: nat)

  // The objective of a mapping; the first one sets the scale.
  function ObjFunc<M>(view: M -> View, o: Oracle<M>, m: M, init: bool): real {
    if init then (if view(m).depCost == 0 then 0.4 else 1.0) else o.objective(m)
  }

  // One of the first i tries has succeeded.
  ghost predicate Won<M(!new)>(tries: seq<Try<M>>, i: nat)
    requires i <= |tries|
  {
    exists j :: 0 <= j < i && tries[j].res == 1
  }

  // The time before the i-th try, and the empty mapping that it begins with: pass nodes stay.
  function ClockAt<M>(k: Task<M>, tries: seq<Try<M>>, i: nat): nat
    requires i <= |tries|
  {
    if i == 0 then k.clock0 else tries[i - 1].s.clock0 + |tries[i - 1].run|
  }

  function EmptyAt<M>(k: Task<M>, tries: seq<Try<M>>, i: nat): M
    requires i <= |tries|
  {
    if i == 0 then k.empty0
    else var p := tries[i - 1].phases; if p == [] then k.empty0 else p[|p| - 1].empty
  }

  // Pass nodes and restarts are for the time before the first success only.
  ghost function SettingAt<M(!new)>(k: Task<M>, tries: seq<Try<M>>, i: nat): Setting<M>
    requires i <= |tries|
  {
    var won := Won(tries, i);
    Setting(k.view, k.o, ClockAt(k, tries, i), Limits(2000, if won then 0 else 30, !won, k.maxItersNoImprv), EmptyAt(k, tries, i))
  }

  // The i-th try answers for its setting.
  ghost predicate TryOk<M(!new)>(k: Task<M>, tries: seq<Try<M>>, i: nat, t: Try<M>)
    requires i <= |tries|
  {
    && t.s == SettingAt(k, tries, i) && Answer(t.s, t.run, t.phases, t.res, t.found)
    && (t.res == 1 ==> t.obj == ObjFunc(k.view, k.o, t.found, !Won(tries, i)))
  }

  ghost predicate Tried<M(!new)>(k: Task<M>, tries: seq<Try<M>>) {
    forall i {:trigger TryOk(k, tries, i, tries[i])} | 0 <= i < |tries| :: TryOk(k, tries, i, tries[i])
  }

  // The i-th try is better than all successes before.
  ghost predicate Better<M(!new)>(tries: seq<Try<M>>, i: nat)
    requires i < |tries|
  {
    tries[i].res == 1 && forall j | 0 <= j < i && tries[j].res == 1 :: tries[i].obj < tries[j].obj
  }

  // The i-th try is the last: the graph cannot grow, or 31 tries have not found a better mapping.
  ghost predicate Ends<M(!new)>(tries: seq<Try<M>>, i: nat)
    requires i < |tries|
  {
    || tries[i].res == -1
    || (tries[i].res == 1 && i >= 30 && forall j | i - 30 <= j <= i :: !Better(tries, j))
  }

  // The best is the first of those with the least objective.
  ghost predicate Best<M(!new)>(tries: seq<Try<M>>, b: nat, m: M, obj: real) {
    && b < |tries| && Better(tries, b) && tries[b].found == m && tries[b].obj == obj
    && forall j | 0 <= j < |tries| && tries[j].res == 1 :: obj <= tries[j].obj
  }

  // The tries go on till one is the last, and the driver returns the best of what they find.
  ghost predicate Outcome<M(!new)>(k: Task<M>, tries: seq<Try<M>>, succeed: bool, m: M) {
    && Tried(k, tries) && |tries| <= k.maxIters
    && (forall i | 0 <= i < |tries| - 1 :: !Ends(tries, i))
    && (|tries| == k.maxIters || (tries != [] && Ends(tries, |tries| - 1)))
    && (succeed <==> Won(tries, |tries|))
    && if succeed then exists b, obj :: Best(tries, b, m, obj) else m == k.empty0
  }

  // The driver succeeds just when a round of one of its tries solves the problem.
  lemma SucceedsIfAnySolves<M(!new)>(k: Task<M>, tries: seq<Try<M>>, succeed: bool, m: M)
    requires Outcome(k, tries, succeed, m)
    ensures succeed <==> exists i, r :: 0 <= i < |tries| && r in tries[i].run && Solves(tries[i].s, r)
  {
    forall i | 0 <= i < |tries|
      ensures tries[i].res == 1 <==> exists r :: r in tries[i].run && Solves(tries[i].s, r)
    {
      var t := tries[i];
      assert TryOk(k, tries, i, t);
      SucceedsIfSolved(t.s, t.run, t.phases, t.res, t.found);
      if r :| r in t.run && Solves(t.s, r) {
        var j :| 0 <= j < |t.run| && t.run[j] == r;
        assert Solves(t.s, t.run[j]);
      }
    }
  }

  // If there is time for a round and the first one solves the problem, the driver succeeds.
  lemma FirstTrySucceeds<M(!new)>(k: Task<M>, tries: seq<Try<M>>, succeed: bool, m: M)
    requires Outcome(k, tries, succeed, m)
    requires k.maxIters > 0 && !k.o.late(k.clock0) && k.o.round(k.clock0 + 1, k.empty0).0
    requires k.view(k.o.round(k.clock0 + 1, k.empty0).1).totalViolation == 0
    ensures succeed && tries[0].found == k.o.round(k.clock0 + 1, k.empty0).1
  {
    assert tries != [];
    var t := tries[0];
    assert TryOk(k, tries, 0, t);
    FirstRoundSolves(t.s, t.run, t.phases, t.res, t.found);
  }

  // ----- tries that go on

  lemma WonStays<M(!new)>(tries: seq<Try<M>>, t: Try<M>, i: nat)
    requires i <= |tries|
    ensures Won(tries + [t], i) == Won(tries, i)
  {
    var tries' := tries + [t];
    assert forall j | 0 <= j < i :: tries'[j] == tries[j];
  }

  lemma TryAdded<M(!new)>(k: Task<M>, tries: seq<Try<M>>, t: Try<M>)
    requires Tried(k, tries) && TryOk(k, tries, |tries|, t)
    ensures Tried(k, tries + [t]) && Won(tries + [t], |tries| + 1) == (Won(tries, |tries|) || t.res == 1)
  {
    var tries' := tries + [t];
    forall i | 0 <= i < |tries'|
      ensures TryOk(k, tries', i, tries'[i])
    {
      WonStays(tries, t, i);
      if i < |tries| {
        assert TryOk(k, tries, i, tries[i]);
      }
      assert i > 0 ==> tries'[i - 1] == tries[i - 1];
    }
    WonStays(tries, t, |tries|);
    if Won(tries, |tries|) {
      var j :| 0 <= j < |tries| && tries[j].res == 1;
      assert tries'[j].res == 1;
    }
    assert tries'[|tries|] == t;
  }

  lemma SameTries<M(!new)>(tries: seq<Try<M>>, t: Try<M>)
    ensures forall i | 0 <= i < |tries| :: Better(tries + [t], i) == Better(tries, i) && Ends(tries + [t], i) == Ends(tries, i)
  {
    var tries' := tries + [t];
    forall i | 0 <= i < |tries|
      ensures Better(tries', i) == Better(tries, i)
    {
      assert forall j | 0 <= j <= i :: tries'[j] == tries[j];
    }
    forall i | 0 <= i < |tries|
      ensures Ends(tries', i) == Ends(tries, i)
    {
      assert tries'[i] == tries[i];
    }
  }

  // No try since the last improvement, if there was one, is better.
  ghost predicate Since<M(!new)>(tries: seq<Try<M>>, last: nat) {
    && (Won(tries, |tries|) ==> last < |tries| && Better(tries, last))
    && forall j | last < j < |tries| :: !Better(tries, j)
  }

  // What the driver keeps in mind: whether it has succeeded, the best mapping so far and its
  // objective, and when it was found. The objective of the first success is below the 10.0 that
  // it starts with.
  datatype Finding<M> = Finding(succeed: bool, m: M, least: real, last: nat)

  ghost predicate Remembers<M(!new)>(k: Task<M>, tries: seq<Try<M>>, f: Finding<M>) {
    && Tried(k, tries) && (f.succeed <==> Won(tries, |tries|)) && Since(tries, f.last)
    && if f.succeed then Best(tries, f.last, f.m, f.least) else f.m == k.empty0 && f.least == 10.0 && f.last == 0
  }

  // The same, kept closed.
  ghost predicate Minds<M(!new)>(k: Task<M>, tries: seq<Try<M>>, f: Finding<M>) {
    && (f.succeed <==> Won(tries, |tries|))
    && forall q {:trigger Collections.Unfold(q)} | Collections.Unfold(q) && q == Collections.TheProgress :: Remembers(k, tries, f)
  }

  // None of the first n tries is the last.
  ghost predicate GoesOn<M(!new)>(tries: seq<Try<M>>, n: nat)
    requires n <= |tries|
  {
    forall q {:trigger Collections.Unfold(q)} | Collections.Unfold(q) && q == Collections.TheProgress ::
      forall i | 0 <= i < n :: !Ends(tries, i)
  }

  lemma NoTries<M(!new)>(k: Task<M>)
    ensures Minds(k, [], Finding(false, k.empty0, 10.0, 0)) && GoesOn<M>([], 0)
  {}

  function After<M>(f: Finding<M>, t: Try<M>, iter: nat): Finding<M> {
    if t.res != 1 then f else if t.obj < f.least then Finding(true, t.found, t.obj, iter) else f.(succeed := true)
  }

  lemma TryMinded<M(!new)>(k: Task<M>, tries: seq<Try<M>>, t: Try<M>, f: Finding<M>)
    requires Minds(k, tries, f) && GoesOn(tries, |tries|) && TryOk(k, tries, |tries|, t)
    ensures Minds(k, tries + [t], After(f, t, |tries|)) && GoesOn(tries + [t], |tries|)
    ensures t.res == 1 ==> (Ends(tries + [t], |tries|) <==> |tries| - After(f, t, |tries|).last > 30)
    ensures t.res == 0 ==> !Ends(tries + [t], |tries|)
  {
    assert Collections.Unfold(Collections.TheProgress);
    TryAdded(k, tries, t);
    SameTries(tries, t);
    var tries' := tries + [t];
    assert tries'[|tries|] == t && forall j | 0 <= j < |tries| :: tries'[j] == tries[j];
    assert Remembers(k, tries', After(f, t, |tries|));
  }

  lemma OneMore<M(!new)>(tries: seq<Try<M>>, n: nat)
    requires n < |tries| && GoesOn(tries, n) && !Ends(tries, n)
    ensures GoesOn(tries, n + 1)
  {
    assert Collections.Unfold(Collections.TheProgress);
  }

  lemma Stops<M(!new)>(k: Task<M>, tries: seq<Try<M>>, f: Finding<M>)
    requires Minds(k, tries, f) && |tries| <= k.maxIters
    requires (GoesOn(tries, |tries|) && |tries| == k.maxIters) || (tries != [] && Ends(tries, |tries| - 1) && GoesOn(tries, |tries| - 1))
    ensures Outcome(k, tries, f.succeed, f.m)
  {
    assert Collections.Unfold(Collections.TheProgress);
  }
}
