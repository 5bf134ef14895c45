/** The simulated-annealing drivers of the mapper: which of the mappings they meet they keep.
    Random choices and time-outs are answers of an oracle, about which nothing is assumed. */
module Annealing {
  import opened Runs
  import Tries

  const MAX_TEMP := 100

  // Some difference below zero is always accepted.
  predicate Metropolis(less: bool, lucky: bool) { less || lucky }

  function AnnealFunc(temp: nat): nat { temp * 9 / 10 }

  class MapperSA<M(!new)> {
    const view: M -> View
    var mapping: M
    var clock: nat      // counts the random steps

    constructor (view: M -> View, mapping: M)
      ensures this.view == view && this.mapping == mapping && clock == 0
    {
      this.view, this.mapping, clock := view, mapping, 0;
    }

    // A round that places all nodes leaves a complete mapping; a violating edge has a positive
    // violation, so that the sum is zero just when there is none.
    ghost predicate Sound(o: Oracle<M>) {
      forall t, m :: o.round(t, m).0 ==> SoundView(view(o.round(t, m).1))
    }

    // Some round has placed all nodes and left m.
    static ghost predicate Reached(o: Oracle<M>, m: M) {
      exists t, m0 :: o.round(t, m0).0 && o.round(t, m0).1 == m
    }

    // Rounds and the insertion of pass nodes keep what keep says of a mapping.
    static ghost predicate Keeps(o: Oracle<M>, keep: M -> bool) {
      && (forall t, m :: keep(m) ==> keep(o.round(t, m).1))
      && (forall t, m :: keep(m) && o.passNodes(t, m).0 ==> keep(o.passNodes(t, m).1))
    }

    predicate Synchronised(m: M) { view(m).complete && view(m).totalViolation == 0 }

    // The phase has ended: restarts with the empty mapping, or, after enough restarts, with that of
    // a graph with pass nodes for a least violated mapping. The driver stops if there is none.
    method NextPhase(lim: Limits, restarts0: nat, empty0: M, lastAcceptMapping: M, update: bool, o: Oracle<M>, ghost keep: M -> bool,
                     ghost s: Setting<M>, ghost run: seq<Round<M>>, ghost phases: seq<Phase<M>>, ghost k: Memory<M>)
      returns (goOn: bool, answer: int, restarts: nat, empty: M, ghost p: Phase<M>)
      requires s.lim == lim && s.o == o && clock == s.clock0 + |run|
      requires Judged(s, run, phases, k) && SeesEnd(s, run, k) && |run| <= lim.maxIters
      requires k.restarts == restarts0 && k.empty == empty0 && k.accepted == lastAcceptMapping && k.update == update && k.best == mapping
      requires Keeps(o, keep) && keep(empty0) && keep(mapping) && keep(lastAcceptMapping)
      modifies this`mapping
      ensures keep(empty) && keep(mapping)
      ensures goOn ==> Starts(s, run, phases + [p], Memory(restarts, empty, empty, MAX_INT, false, MAX_INT, mapping, |run| - 1), empty)
      ensures !goOn ==> Answer(s, run, phases, answer, mapping) && empty == empty0 && answer != 1
    {
      goOn, answer, restarts, empty := true, 0, restarts0, empty0;
      if restarts < lim.restartIters {
        restarts := restarts + 1;
      } else if !lim.modifyDfg {
        goOn := false;
      } else {
        var (inserted, grown) := o.passNodes(clock, if update then mapping else lastAcceptMapping);
        if inserted {
          restarts, empty, mapping := 0, grown, grown;
        } else {
          goOn, answer := false, -1;
        }
      }
      p := Phase(restarts, empty);
      if goOn {
        NewPhase(s, run, phases, k, p, mapping);
      } else {
        StopsExhausted(s, run, phases, k);
      }
    }

    // Places, routes and synchronises until there is no violation. Returns 1 with a mapping
    // without violation; 0 when the rounds or the time are up or the graph must not grow; -1 when
    // pass nodes cannot be inserted. Until it succeeds it keeps the least violating mapping since
    // the last restart.
    method PnrSync(lim: Limits, temp0: nat, empty0: M, o: Oracle<M>, ghost keep: M -> bool)
      returns (succeed: int, empty: M, ghost run: seq<Round<M>>, ghost phases: seq<Phase<M>>)
      requires Sound(o) && Keeps(o, keep) && keep(empty0) && keep(mapping)
      modifies this
      ensures Answer(Setting(view, o, old(clock), lim, empty0), run, phases, succeed, mapping)
      ensures clock == old(clock) + |run| && empty == phases[|phases| - 1].empty
      ensures keep(empty) && keep(mapping)
      ensures succeed == 1 ==> Synchronised(mapping) && Reached(o, mapping)
    {
      ghost var s := Setting(view, o, clock, lim, empty0);
      succeed, empty := 0, empty0;
      var oldVio: nat, minVio: nat, restarts: nat := MAX_INT, MAX_INT, 0;
      var temp, update, lastImprvIter := temp0, false, 0;
      var curMapping, lastAcceptMapping := empty, empty;
      run, phases := [], [Phase(0, empty0)];
      FirstStart(s, mapping);
      ghost var k := Memory(0, empty0, empty0, MAX_INT, false, MAX_INT, mapping, 0);
      var iter := 0;
      while iter < lim.maxIters
        invariant iter == |run| <= lim.maxIters && clock == s.clock0 + iter && succeed == 0
        invariant k == Memory(restarts, empty, lastAcceptMapping, oldVio, update, minVio, mapping, lastImprvIter)
        invariant Starts(s, run, phases, k, curMapping)
        invariant keep(empty) && keep(mapping) && keep(curMapping) && keep(lastAcceptMapping)
      {
        if o.late(clock) {
          Stops(s, run, phases, k);
          return;
        }
        clock := clock + 1;
        var (placed, next) := o.round(clock, curMapping);
        ghost var before, r := run, Round(curMapping, placed, next, |phases| - 1);
        run := before + [r];
        curMapping := next;
        iter := iter + 1;
        if !placed {
          MindsSame(s, before, phases, k, r);
          SamePhase(s, run, phases, k, curMapping);
          continue;
        }
        var newVio := Product(view(curMapping));
        ZeroProduct(view(curMapping));
        if newVio == 0 {
          StopsSolved(s, before, phases, k, r);
          assert Reached(o, next);
          mapping := curMapping;
          return 1, empty, run, phases;
        }
        if Metropolis(newVio < oldVio, o.lucky(clock)) {
          MindsMore(s, before, phases, k, r);
          if newVio < minVio {
            minVio := newVio;
            mapping := curMapping;
            lastImprvIter := iter - 1;
            temp := AnnealFunc(temp);
            update := true;
          }
          lastAcceptMapping := curMapping;
          oldVio := newVio;
        } else {
          MindsSame(s, before, phases, k, r);
          curMapping := lastAcceptMapping;
        }
        k := Memory(restarts, empty, lastAcceptMapping, oldVio, update, minVio, mapping, lastImprvIter);
        if iter - 1 - lastImprvIter <= lim.maxItersNoImprv {
          SamePhase(s, run, phases, k, curMapping);
          continue;
        }
        var goOn, answer;
        ghost var p;
        goOn, answer, restarts, empty, p := NextPhase(lim, restarts, empty, lastAcceptMapping, update, o, keep, s, run, phases, k);
        if !goOn {
          return answer, empty, run, phases;
        }
        phases := phases + [p];
        curMapping, lastAcceptMapping := empty, empty;
        lastImprvIter, temp, oldVio, minVio, update := iter - 1, temp0, MAX_INT, MAX_INT, false;
        k := Memory(restarts, empty, empty, MAX_INT, false, MAX_INT, mapping, lastImprvIter);
      }
      Stops(s, run, phases, k);
    }

    // A try has succeeded with a mapping without violation.
    ghost predicate Sane(o: Oracle<M>, keep: M -> bool, t: Tries.Try<M>) {
      t.res == 1 ==> Synchronised(t.found) && Reached(o, t.found) && keep(t.found)
    }

    // One more try, and the objective of the mapping that it leaves.
    method NextTry(ghost k: Tries.Task<M>, ghost tries: seq<Tries.Try<M>>, ghost f: Tries.Finding<M>, pnrRestartIters: nat,
                   succeed: bool, temp: nat, empty0: M, maxItersNoImprv: nat, o: Oracle<M>, ghost keep: M -> bool)
      returns (res: int, empty: M, newObj: real, ghost t: Tries.Try<M>)
      requires Sound(o) && Keeps(o, keep) && keep(empty0) && keep(mapping)
      requires k.view == view && k.o == o && k.maxItersNoImprv == maxItersNoImprv && f.succeed == succeed
      requires Tries.Minds(k, tries, f) && Tries.GoesOn(tries, |tries|)
      requires clock == Tries.ClockAt(k, tries, |tries|) && empty0 == Tries.EmptyAt(k, tries, |tries|)
      requires pnrRestartIters == if succeed then 0 else 30
      modifies this
      ensures Tries.Minds(k, tries + [t], Tries.After(f, t, |tries|)) && Tries.GoesOn(tries + [t], |tries|)
      ensures clock == Tries.ClockAt(k, tries + [t], |tries| + 1) && empty == Tries.EmptyAt(k, tries + [t], |tries| + 1)
      ensures t.res == res && t.found == mapping && t.obj == newObj && Sane(o, keep, t)
      ensures keep(empty) && keep(mapping)
      ensures res == 0 || res == 1 || res == -1
      ensures Tries.Ends(tries + [t], |tries|) <==> res == -1 || (res == 1 && |tries| - Tries.After(f, t, |tries|).last > 30)
    {
      ghost var s := Tries.SettingAt(k, tries, |tries|);
      ghost var run, phases;
      res, empty, run, phases := PnrSync(Limits(2000, pnrRestartIters, !succeed, maxItersNoImprv), temp, empty0, o, keep);
      newObj := if res == 1 then Tries.ObjFunc(view, o, mapping, !succeed) else 0.0;
      t := Tries.Try(s, run, phases, res, mapping, newObj);
      Tries.TryMinded(k, tries, t, f);
    }

    // Calls the first driver again and again, and keeps the best mapping that it finds. When it
    // returns true, the mapping has no violation, and the least objective of all that were found.
    method PnrSyncOpt(maxIters: nat, empty0: M, maxItersNoImprv: nat, o: Oracle<M>, ghost keep: M -> bool)
      returns (succeed: bool, ghost tries: seq<Tries.Try<M>>)
      requires Sound(o) && Keeps(o, keep) && keep(empty0) && keep(mapping)
      modifies this
      ensures Tries.Outcome(Tries.Task(view, o, old(clock), empty0, maxIters, maxItersNoImprv), tries, succeed, mapping)
      ensures forall i | 0 <= i < |tries| :: Sane(o, keep, tries[i])
      ensures succeed ==> Synchronised(mapping) && Reached(o, mapping) && keep(mapping)
    {
      ghost var k := Tries.Task(view, o, clock, empty0, maxIters, maxItersNoImprv);
      var temp: nat, pnrRestartIters: nat := MAX_TEMP, 30;
      var lastImprvIter, lastRestartIter := 0, 0;
      var oldObj, least := 10.0, 10.0;
      var empty, bestMapping, lastAcceptMapping, initObj := empty0, empty0, empty0, true;
      succeed, tries := false, [];
      Tries.NoTries(k);
      ghost var f := Tries.Finding(false, empty0, 10.0, 0);
      for iter := 0 to maxIters
        invariant |tries| == iter && clock == Tries.ClockAt(k, tries, iter) && empty == Tries.EmptyAt(k, tries, iter)
        invariant f == Tries.Finding(succeed, bestMapping, least, lastImprvIter) && Tries.Minds(k, tries, f)
        invariant Tries.GoesOn(tries, iter)
        invariant forall i | 0 <= i < iter :: Sane(o, keep, tries[i])
        invariant (initObj <==> !succeed) && pnrRestartIters == (if succeed then 0 else 30) && least <= oldObj
        invariant keep(empty) && keep(mapping) && keep(bestMapping) && keep(lastAcceptMapping)
      {
        var res, newObj;
        ghost var t;
        res, empty, newObj, t := NextTry(k, tries, f, pnrRestartIters, succeed, temp, empty, maxItersNoImprv, o, keep);
        tries, f := tries + [t], Tries.After(f, t, iter);
        if res == 0 {
          Tries.OneMore(tries, iter);
          continue;
        } else if res == -1 {
          break;
        }
        succeed := true;
        pnrRestartIters := 0;
        if Metropolis(newObj < oldObj, o.lucky(clock)) {
          if newObj < least {
            least := newObj;
            bestMapping := mapping;
            lastImprvIter, lastRestartIter := iter, iter;
            if !initObj {
              temp := AnnealFunc(temp);
            }
          }
          lastAcceptMapping := mapping;
          oldObj := newObj;
        } else {
          mapping := lastAcceptMapping;
        }
        initObj := false;
        if iter - lastImprvIter > 30 {
          break;
        }
        Tries.OneMore(tries, iter);
        if iter - lastRestartIter > 10 {
          mapping := bestMapping;
          lastRestartIter := iter;
        }
      }
      Tries.Stops(k, tries, f);
      mapping := bestMapping;
    }
  }
}
