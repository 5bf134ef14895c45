/** Runs of the annealing driver: the rounds that it asks for, one after the other, what each starts
    from, and when there are no more. */
module Runs {
  import Collections

  const MAX_INT := 0x7fff_ffff

  // What is read of a mapping: the latency violation summed over its edges, the number of
  // violating edges, whether all nodes are mapped, and the cost of its I/O dependences.
  datatype View = View(totalViolation: nat, numVioEdges: nat, complete: bool, depCost: int)

  // The outcomes of the random steps. round: one removal and replacement of nodes, followed by
  // synchronisation if all nodes could be placed; lucky: a worse solution is accepted;
  // late: the time is up; passNodes: an empty mapping of the graph with pass nodes, if any
  // could be inserted; objective: of a mapping, relative to the first.
  datatype Oracle<!M> = Oracle(
    round: (nat, M) -> (bool, M),
    lucky: nat -> bool,
    late: nat -> bool,
    passNodes: (nat, M) -> (bool, M),
    objective: M -> real)

  predicate SoundView(v: View) {
    v.complete && (v.totalViolation == 0 <==> v.numVioEdges == 0)
  }

  function Product(v: View): nat { v.totalViolation * v.numVioEdges }

  lemma ZeroProduct(v: View)
    requires SoundView(v)
    ensures Product(v) == 0 <==> v.totalViolation == 0
  {
    if v.totalViolation > 0 && v.numVioEdges > 0 {
      assert v.totalViolation * v.numVioEdges > 0;
    }
  }

  // A round as it was asked for: the mapping it started from, the answer, and its phase. A phase
  // lasts to the next restart.
  datatype Round<M> = Round(start: M, placed: bool, next: M, phase: nat)

  // How many restarts there were with this graph, and its empty mapping.
  datatype Phase<M> = Phase(restarts: nat, empty: M)

  // What a driver is called with.
  datatype Limits = Limits(maxIters: nat, restartIters: nat, modifyDfg: bool, maxItersNoImprv: nat)

  // The setting of a run: how mappings are seen, the oracle, and the time at the start.
  datatype Setting<!M> = Setting(view: M -> View, o: Oracle<M>, clock0: nat, lim: Limits, empty0: M)

  function Vio<M(!new)>(s: Setting<M>, r: Round<M>): nat { Product(s.view(r.next)) }

  // The oracle has answered the i-th round so, and the time was not up.
  ghost predicate Asked<M(!new)>(s: Setting<M>, i: nat, r: Round<M>) {
    !s.o.late(s.clock0 + i) && s.o.round(s.clock0 + i + 1, r.start) == (r.placed, r.next)
  }

  // The round has placed all nodes, and no edge is violated.
  ghost predicate Solves<M(!new)>(s: Setting<M>, r: Round<M>) { r.placed && s.view(r.next).totalViolation == 0 }

  // The i-th round is less violated than any before it in its phase.
  ghost predicate Improves<M(!new)>(s: Setting<M>, run: seq<Round<M>>, i: int)
    requires 0 <= i < |run|
  {
    && run[i].placed && Vio(s, run[i]) < MAX_INT
    && forall j | 0 <= j < i && run[j].phase == run[i].phase && run[j].placed :: Vio(s, run[i]) < Vio(s, run[j])
  }

  // Neither the i-th round nor the last maxItersNoImprv rounds before, all of one phase, have improved.
  ghost predicate Stalled<M(!new)>(s: Setting<M>, run: seq<Round<M>>, i: int)
    requires 0 <= i < |run|
  {
    && i > s.lim.maxItersNoImprv
    && forall j | i - s.lim.maxItersNoImprv <= j <= i :: run[j].phase == run[i].phase && !Improves(s, run, j)
  }

  // After the i-th round the phase ends. This is looked at only when all nodes are placed.
  ghost predicate PhaseEnds<M(!new)>(s: Setting<M>, run: seq<Round<M>>, i: int)
    requires 0 <= i < |run|
  {
    run[i].placed && Stalled(s, run, i)
  }

  // The last of the first i rounds that was accepted, if it is of this phase, or -1. Accepted is
  // what is less violated than what was accepted before it, or lucky.
  ghost function Kept<M(!new)>(s: Setting<M>, run: seq<Round<M>>, phase: nat, i: nat): (k: int)
    requires i <= |run|
    ensures -1 <= k < i && (k >= 0 ==> run[k].phase == phase && run[k].placed)
  {
    if i == 0 || run[i - 1].phase != phase then -1
    else
      var k := Kept(s, run, phase, i - 1);
      if run[i - 1].placed && (Vio(s, run[i - 1]) < KeptVio(s, run, k) || s.o.lucky(s.clock0 + i)) then i - 1 else k
  }

  ghost function KeptVio<M(!new)>(s: Setting<M>, run: seq<Round<M>>, k: int): nat
    requires k < |run|
  {
    if k < 0 then MAX_INT else Vio(s, run[k])
  }

  function KeptMapping<M>(run: seq<Round<M>>, empty: M, k: int): M
    requires k < |run|
  {
    if k < 0 then empty else run[k].next
  }

  // The i-th round is started with this mapping, in this phase: what is not accepted is undone.
  ghost predicate StartOk<M(!new)>(s: Setting<M>, run: seq<Round<M>>, phases: seq<Phase<M>>, i: int, start: M, phase: nat)
    requires 0 <= i <= |run|
  {
    && phase < |phases|
    && if i == 0 then phase == 0 && start == s.empty0
       else if PhaseEnds(s, run, i - 1) then phase == run[i - 1].phase + 1 && start == phases[phase].empty
       else
         && phase == run[i - 1].phase
         && start == if run[i - 1].placed then KeptMapping(run, phases[phase].empty, Kept(s, run, phase, i)) else run[i - 1].next
  }

  // m is a least violated mapping of the phase, unless all of them are as bad as can be.
  ghost predicate LeastOf<M(!new)>(s: Setting<M>, run: seq<Round<M>>, phase: nat, m: M) {
    || (exists w :: LeastAt(s, run, phase, m, w))
    || forall j | 0 <= j < |run| && run[j].phase == phase && run[j].placed :: Vio(s, run[j]) >= MAX_INT
  }

  ghost predicate LeastAt<M(!new)>(s: Setting<M>, run: seq<Round<M>>, phase: nat, m: M, w: int) {
    && 0 <= w < |run| && run[w].phase == phase && run[w].placed && run[w].next == m
    && forall j | 0 <= j < |run| && run[j].phase == phase && run[j].placed :: Vio(s, run[w]) <= Vio(s, run[j])
  }

  // The first phase has the empty mapping given; a restart keeps it; and when there were enough
  // restarts, pass nodes are inserted for a least violated mapping of the last phase.
  ghost predicate PhaseOk<M(!new)>(s: Setting<M>, run: seq<Round<M>>, phases: seq<Phase<M>>, k: int)
    requires 0 <= k < |phases|
  {
    if k == 0 then phases[0] == Phase(0, s.empty0)
    else if phases[k - 1].restarts < s.lim.restartIters then phases[k] == Phase(phases[k - 1].restarts + 1, phases[k - 1].empty)
    else
      && s.lim.modifyDfg && phases[k].restarts == 0
      && exists t, m :: LeastOf(s, run, k - 1, m) && s.o.passNodes(t, m) == (true, phases[k].empty)
  }

  ghost predicate RunOk<M(!new)>(s: Setting<M>, run: seq<Round<M>>, phases: seq<Phase<M>>) {
    && phases != []
    && (forall i {:trigger Asked(s, i, run[i])} | 0 <= i < |run| :: Asked(s, i, run[i]))
    && (forall i {:trigger StartOk(s, run, phases, i, run[i].start, run[i].phase)} | 0 <= i < |run| ::
          StartOk(s, run, phases, i, run[i].start, run[i].phase))
    && (forall k {:trigger PhaseOk(s, run, phases, k)} | 0 <= k < |phases| :: PhaseOk(s, run, phases, k))
  }

  // No more is asked for: the rounds or the time are up, or the last phase has ended and the
  // graph may not grow.
  ghost predicate GivenUp<M(!new)>(s: Setting<M>, run: seq<Round<M>>, phases: seq<Phase<M>>) {
    || |run| == s.lim.maxIters || s.o.late(s.clock0 + |run|)
    || (!s.lim.modifyDfg && Exhausted(s, run, phases))
  }

  // The last phase of the graph has ended.
  ghost predicate Exhausted<M(!new)>(s: Setting<M>, run: seq<Round<M>>, phases: seq<Phase<M>>) {
    && run != [] && PhaseEnds(s, run, |run| - 1) && run[|run| - 1].phase == |phases| - 1
    && phases != [] && phases[|phases| - 1].restarts >= s.lim.restartIters
  }

  // No pass node could be inserted.
  ghost predicate Refused<M(!new)>(s: Setting<M>, run: seq<Round<M>>, phases: seq<Phase<M>>) {
    && Exhausted(s, run, phases) && s.lim.modifyDfg
    && var k, t := |phases| - 1, s.clock0 + |run|;
      exists m :: RefusedFor(s, run, k, t, m)
  }

  ghost predicate RefusedFor<M(!new)>(s: Setting<M>, run: seq<Round<M>>, phase: nat, t: nat, m: M) {
    LeastOf(s, run, phase, m) && !s.o.passNodes(t, m).0
  }

  // The answer of the driver: 1 just when the last round has solved the problem, and no other has;
  // -1 when the graph cannot grow; 0 when nothing more may be asked for.
  ghost predicate Answer<M(!new)>(s: Setting<M>, run: seq<Round<M>>, phases: seq<Phase<M>>, succeed: int, mapping: M) {
    && |run| <= s.lim.maxIters && RunOk(s, run, phases)
    && (forall i | 0 <= i < |run| - 1 :: !Solves(s, run[i]))
    && (succeed == 1 <==> run != [] && Solves(s, run[|run| - 1]))
    && (succeed == 1 ==> mapping == run[|run| - 1].next)
    && (succeed != 1 ==> LeastOf(s, run, |phases| - 1, mapping))
    && (succeed == 0 || succeed == 1 || succeed == -1)
    && (succeed == 0 ==> GivenUp(s, run, phases)) && (succeed == -1 ==> Refused(s, run, phases))
  }

  // The driver succeeds just when one of the rounds that it asks for solves the problem.
  lemma SucceedsIfSolved<M(!new)>(s: Setting<M>, run: seq<Round<M>>, phases: seq<Phase<M>>, succeed: int, mapping: M)
    requires Answer(s, run, phases, succeed, mapping)
    ensures succeed == 1 <==> exists i :: 0 <= i < |run| && Solves(s, run[i])
  {}

  // If there is time for a round and the first one solves the problem, the driver succeeds with it.
  lemma FirstRoundSolves<M(!new)>(s: Setting<M>, run: seq<Round<M>>, phases: seq<Phase<M>>, succeed: int, mapping: M)
    requires Answer(s, run, phases, succeed, mapping)
    requires s.lim.maxIters > 0 && !s.o.late(s.clock0) && s.o.round(s.clock0 + 1, s.empty0).0
    requires s.view(s.o.round(s.clock0 + 1, s.empty0).1).totalViolation == 0
    ensures succeed == 1 && mapping == s.o.round(s.clock0 + 1, s.empty0).1
  {
    assert run != [];
    assert Asked(s, 0, run[0]) && StartOk(s, run, phases, 0, run[0].start, run[0].phase);
    assert Solves(s, run[0]);
  }

  // ----- runs that go on

  lemma SameBefore<M(!new)>(s: Setting<M>, run: seq<Round<M>>, r: Round<M>)
    ensures forall i | 0 <= i < |run| :: Improves(s, run + [r], i) == Improves(s, run, i)
    ensures forall i | 0 <= i < |run| :: Stalled(s, run + [r], i) == Stalled(s, run, i)
  {
    var run' := run + [r];
    forall i | 0 <= i < |run|
      ensures Improves(s, run', i) == Improves(s, run, i)
    {
      assert forall j | 0 <= j <= i :: run'[j] == run[j];
    }
    forall i | 0 <= i < |run|
      ensures Stalled(s, run', i) == Stalled(s, run, i)
    {
      assert forall j | 0 <= j <= i :: run'[j] == run[j];
    }
  }

  lemma {:induction false} KeptStays<M(!new)>(s: Setting<M>, run: seq<Round<M>>, run': seq<Round<M>>, phase: nat, i: nat)
    requires i <= |run| <= |run'| && run'[..|run|] == run
    ensures Kept(s, run', phase, i) == Kept(s, run, phase, i)
  {
    if i > 0 {
      KeptStays(s, run, run', phase, i - 1);
      assert forall j | 0 <= j < i :: run'[j] == run[j];
    }
  }

  lemma StartStays<M(!new)>(s: Setting<M>, run: seq<Round<M>>, run': seq<Round<M>>, phases: seq<Phase<M>>, phases': seq<Phase<M>>,
                      i: nat, start: M, phase: nat)
    requires i <= |run| <= |run'| && run'[..|run|] == run && |phases| <= |phases'| && phases'[..|phases|] == phases
    requires forall j | 0 <= j < |run| :: Stalled(s, run', j) == Stalled(s, run, j)
    requires StartOk(s, run, phases, i, start, phase)
    ensures StartOk(s, run', phases', i, start, phase)
  {
    assert forall j | 0 <= j < |run| :: run'[j] == run[j];
    assert phases'[phase] == phases[phase];
    KeptStays(s, run, run', phase, i);
  }

  // Earlier phases are over.
  lemma LeastStays<M(!new)>(s: Setting<M>, run: seq<Round<M>>, r: Round<M>, phase: nat, m: M)
    requires LeastOf(s, run, phase, m) && r.phase != phase
    ensures LeastOf(s, run + [r], phase, m)
  {
    if w :| LeastAt(s, run, phase, m, w) {
      assert LeastAt(s, run + [r], phase, m, w);
    }
  }

  lemma PhaseStays<M(!new)>(s: Setting<M>, run: seq<Round<M>>, r: Round<M>, phases: seq<Phase<M>>, k: int)
    requires 0 <= k < |phases| && PhaseOk(s, run, phases, k) && r.phase >= k
    ensures PhaseOk(s, run + [r], phases, k)
  {
    if k > 0 && phases[k - 1].restarts >= s.lim.restartIters {
      var t, m :| LeastOf(s, run, k - 1, m) && s.o.passNodes(t, m) == (true, phases[k].empty);
      LeastStays(s, run, r, k - 1, m);
    }
  }

  // One more round, started as it has to be.
  lemma RoundAdded<M(!new)>(s: Setting<M>, run: seq<Round<M>>, phases: seq<Phase<M>>, r: Round<M>)
    requires RunOk(s, run, phases) && Asked(s, |run|, r) && r.phase == |phases| - 1
    requires StartOk(s, run, phases, |run|, r.start, r.phase)
    ensures RunOk(s, run + [r], phases)
  {
    var run' := run + [r];
    SameBefore(s, run, r);
    forall i | 0 <= i < |run'|
      ensures Asked(s, i, run'[i]) && StartOk(s, run', phases, i, run'[i].start, run'[i].phase)
    {
      if i < |run| {
        assert run'[i] == run[i] && Asked(s, i, run[i]) && StartOk(s, run, phases, i, run[i].start, run[i].phase);
      }
      StartStays(s, run, run', phases, phases, i, run'[i].start, run'[i].phase);
    }
    forall k | 0 <= k < |phases|
      ensures PhaseOk(s, run', phases, k)
    {
      PhaseStays(s, run, r, phases, k);
    }
  }

  // One more phase.
  lemma PhaseAdded<M(!new)>(s: Setting<M>, run: seq<Round<M>>, phases: seq<Phase<M>>, p: Phase<M>)
    requires RunOk(s, run, phases) && PhaseOk(s, run, phases + [p], |phases|)
    ensures RunOk(s, run, phases + [p])
  {
    forall i | 0 <= i < |run|
      ensures StartOk(s, run, phases + [p], i, run[i].start, run[i].phase)
    {
      assert StartOk(s, run, phases, i, run[i].start, run[i].phase);
      StartStays(s, run, run, phases, phases + [p], i, run[i].start, run[i].phase);
    }
    forall k | 0 <= k < |phases|
      ensures PhaseOk(s, run, phases + [p], k)
    {
      assert PhaseOk(s, run, phases, k);
    }
  }

  // ----- what the driver keeps in mind

  // The last improvement, or where the phase began: no round since has improved.
  ghost predicate Since<M(!new)>(s: Setting<M>, run: seq<Round<M>>, phase: nat, last: int) {
    && 0 <= last && (last == 0 || (last < |run| && (run[last].phase != phase || Improves(s, run, last))))
    && forall j | last < j < |run| :: run[j].phase == phase && !Improves(s, run, j)
  }

  lemma StalledSince<M(!new)>(s: Setting<M>, run: seq<Round<M>>, phase: nat, last: int)
    requires run != [] && run[|run| - 1].phase == phase && Since(s, run, phase, last)
    ensures |run| - 1 - last > s.lim.maxItersNoImprv <==> Stalled(s, run, |run| - 1)
  {}

  lemma SinceMore<M(!new)>(s: Setting<M>, run: seq<Round<M>>, r: Round<M>, phase: nat, last: int)
    requires Since(s, run, phase, last) && r.phase == phase
    ensures Since(s, run + [r], phase, if Improves(s, run + [r], |run|) then |run| else last)
  {
    SameBefore(s, run, r);
  }

  // The least violation of the phase so far, and a mapping that has it.
  ghost predicate Best<M(!new)>(s: Setting<M>, run: seq<Round<M>>, phase: nat, update: bool, minVio: nat, m: M) {
    && minVio <= MAX_INT
    && (forall j | 0 <= j < |run| && run[j].phase == phase && run[j].placed :: minVio <= Vio(s, run[j]))
    && if update then minVio < MAX_INT && exists w :: BestAt(s, run, phase, minVio, m, w) else minVio == MAX_INT
  }

  ghost predicate BestAt<M(!new)>(s: Setting<M>, run: seq<Round<M>>, phase: nat, minVio: nat, m: M, w: int) {
    0 <= w < |run| && run[w].phase == phase && run[w].placed && run[w].next == m && Vio(s, run[w]) == minVio
  }

  lemma BestIsLeast<M(!new)>(s: Setting<M>, run: seq<Round<M>>, phase: nat, update: bool, minVio: nat, m: M, m': M)
    requires Best(s, run, phase, update, minVio, m) && (update ==> m' == m)
    ensures LeastOf(s, run, phase, m')
  {
    if update {
      var w :| BestAt(s, run, phase, minVio, m, w);
      assert LeastAt(s, run, phase, m', w);
    }
  }

  lemma BestMore<M(!new)>(s: Setting<M>, run: seq<Round<M>>, r: Round<M>, phase: nat, update: bool, minVio: nat, m: M)
    requires Best(s, run, phase, update, minVio, m) && r.phase == phase
    ensures r.placed ==> (Improves(s, run + [r], |run|) <==> Vio(s, r) < minVio)
    ensures if r.placed && Vio(s, r) < minVio then Best(s, run + [r], phase, true, Vio(s, r), r.next)
            else Best(s, run + [r], phase, update, minVio, m)
  {
    var run' := run + [r];
    if update {
      var w :| BestAt(s, run, phase, minVio, m, w);
      assert BestAt(s, run', phase, minVio, m, w);
    }
    if r.placed && Vio(s, r) < minVio {
      assert BestAt(s, run', phase, Vio(s, r), r.next, |run|);
    }
  }

  // The mapping accepted last in the phase, and its violation.
  ghost predicate Accepted<M(!new)>(s: Setting<M>, run: seq<Round<M>>, phase: nat, empty: M, m: M, vio: nat) {
    var k := Kept(s, run, phase, |run|);
    m == KeptMapping(run, empty, k) && vio == KeptVio(s, run, k)
  }

  lemma AcceptedMore<M(!new)>(s: Setting<M>, run: seq<Round<M>>, r: Round<M>, phase: nat, empty: M, m: M, vio: nat)
    requires Accepted(s, run, phase, empty, m, vio) && r.phase == phase
    ensures if r.placed && (Vio(s, r) < vio || s.o.lucky(s.clock0 + |run| + 1)) then Accepted(s, run + [r], phase, empty, r.next, Vio(s, r))
            else Accepted(s, run + [r], phase, empty, m, vio)
  {
    KeptStays(s, run, run + [r], phase, |run|);
  }

  // The variables of the driver: the restarts so far, the empty mapping, the mapping accepted last
  // and its violation, whether there was an improvement, the least violation and its mapping, and
  // the round of the last improvement.
  datatype Memory<M> = Memory(restarts: nat, empty: M, accepted: M, oldVio: nat, update: bool, minVio: nat, best: M, last: int)

  ghost predicate Remembers<M(!new)>(s: Setting<M>, run: seq<Round<M>>, phases: seq<Phase<M>>, k: Memory<M>) {
    && RunOk(s, run, phases) && (forall i | 0 <= i < |run| :: !Solves(s, run[i]))
    && k.restarts <= s.lim.restartIters
    && Accepted(s, run, |phases| - 1, k.empty, k.accepted, k.oldVio) && k.minVio <= k.oldVio
    && Best(s, run, |phases| - 1, k.update, k.minVio, k.best) && Since(s, run, |phases| - 1, k.last)
  }

  // The same, kept closed.
  ghost predicate Minds<M(!new)>(s: Setting<M>, run: seq<Round<M>>, phases: seq<Phase<M>>, k: Memory<M>) {
    && phases != [] && phases[|phases| - 1] == Phase(k.restarts, k.empty)
    && forall q {:trigger Collections.Unfold(q)} | Collections.Unfold(q) && q == Collections.TheProgress :: Remembers(s, run, phases, k)
  }

  // After a round of the last phase.
  ghost predicate Judged<M(!new)>(s: Setting<M>, run: seq<Round<M>>, phases: seq<Phase<M>>, k: Memory<M>) {
    Minds(s, run, phases, k) && run != [] && run[|run| - 1].phase == |phases| - 1
  }

  // Before the next round, which is started with this mapping.
  ghost predicate Starts<M(!new)>(s: Setting<M>, run: seq<Round<M>>, phases: seq<Phase<M>>, k: Memory<M>, start: M) {
    && Minds(s, run, phases, k)
    && forall q {:trigger Collections.Unfold(q)} | Collections.Unfold(q) && q == Collections.TheProgress ::
         StartOk(s, run, phases, |run|, start, |phases| - 1)
  }

  // The next round of the last phase.
  ghost predicate Follows<M(!new)>(s: Setting<M>, run: seq<Round<M>>, phases: seq<Phase<M>>, k: Memory<M>, r: Round<M>) {
    Starts(s, run, phases, k, r.start) && Asked(s, |run|, r) && r.phase == |phases| - 1
  }

  lemma FirstStart<M(!new)>(s: Setting<M>, m: M)
    ensures Starts(s, [], [Phase(0, s.empty0)], Memory(0, s.empty0, s.empty0, MAX_INT, false, MAX_INT, m, 0), s.empty0)
  {
    var run: seq<Round<M>> := [];
    assert PhaseOk(s, run, [Phase(0, s.empty0)], 0);
  }

  lemma Opened<M(!new)>(s: Setting<M>, run: seq<Round<M>>, phases: seq<Phase<M>>, k: Memory<M>, r: Round<M>)
    requires Follows(s, run, phases, k, r)
    ensures Remembers(s, run, phases, k) && StartOk(s, run, phases, |run|, r.start, r.phase) && RunOk(s, run + [r], phases)
  {
    assert Collections.Unfold(Collections.TheProgress);
    RoundAdded(s, run, phases, r);
  }

  // A round that is not accepted, or has not placed all nodes, changes none of it.
  lemma MindsSame<M(!new)>(s: Setting<M>, run: seq<Round<M>>, phases: seq<Phase<M>>, k: Memory<M>, r: Round<M>)
    requires Follows(s, run, phases, k, r) && !Solves(s, r)
    requires r.placed ==> Vio(s, r) >= k.oldVio && !s.o.lucky(s.clock0 + |run| + 1)
    ensures Judged(s, run + [r], phases, k)
  {
    Opened(s, run, phases, k, r);
    AcceptedMore(s, run, r, |phases| - 1, k.empty, k.accepted, k.oldVio);
    BestMore(s, run, r, |phases| - 1, k.update, k.minVio, k.best);
    SinceMore(s, run, r, |phases| - 1, k.last);
    assert Remembers(s, run + [r], phases, k);
  }

  // A round that is accepted is what the driver goes on with; the best one so far is kept.
  function Accepting<M>(k: Memory<M>, next: M, vio: nat, iter: nat): Memory<M> {
    var k' := k.(accepted := next, oldVio := vio);
    if vio < k.minVio then k'.(update := true, minVio := vio, best := next, last := iter) else k'
  }

  lemma MindsMore<M(!new)>(s: Setting<M>, run: seq<Round<M>>, phases: seq<Phase<M>>, k: Memory<M>, r: Round<M>)
    requires Follows(s, run, phases, k, r) && !Solves(s, r) && r.placed
    requires Vio(s, r) < k.oldVio || s.o.lucky(s.clock0 + |run| + 1)
    ensures Judged(s, run + [r], phases, Accepting(k, r.next, Vio(s, r), |run|))
  {
    Opened(s, run, phases, k, r);
    AcceptedMore(s, run, r, |phases| - 1, k.empty, k.accepted, k.oldVio);
    BestMore(s, run, r, |phases| - 1, k.update, k.minVio, k.best);
    SinceMore(s, run, r, |phases| - 1, k.last);
    assert Remembers(s, run + [r], phases, Accepting(k, r.next, Vio(s, r), |run|));
  }

  // The driver looks for an end of the phase when all nodes are placed,
  ghost predicate SeesEnd<M(!new)>(s: Setting<M>, run: seq<Round<M>>, k: Memory<M>)
    requires run != []
  {
    run[|run| - 1].placed && |run| - 1 - k.last > s.lim.maxItersNoImprv
  }

  // and sees it.
  lemma EndIsSeen<M(!new)>(s: Setting<M>, run: seq<Round<M>>, phases: seq<Phase<M>>, k: Memory<M>)
    requires Judged(s, run, phases, k)
    ensures PhaseEnds(s, run, |run| - 1) <==> SeesEnd(s, run, k)
  {
    assert Collections.Unfold(Collections.TheProgress);
    StalledSince(s, run, |phases| - 1, k.last);
  }

  // The phase goes on.
  lemma SamePhase<M(!new)>(s: Setting<M>, run: seq<Round<M>>, phases: seq<Phase<M>>, k: Memory<M>, start: M)
    requires Judged(s, run, phases, k) && !SeesEnd(s, run, k)
    requires start == if run[|run| - 1].placed then k.accepted else run[|run| - 1].next
    ensures Starts(s, run, phases, k, start)
  {
    EndIsSeen(s, run, phases, k);
    assert Collections.Unfold(Collections.TheProgress);
  }

  // A new phase begins with an empty mapping, and with nothing in mind.
  lemma NewPhase<M(!new)>(s: Setting<M>, run: seq<Round<M>>, phases: seq<Phase<M>>, k: Memory<M>, p: Phase<M>, m: M)
    requires Judged(s, run, phases, k) && SeesEnd(s, run, k)
    requires if k.restarts < s.lim.restartIters then p == Phase(k.restarts + 1, k.empty)
      else s.lim.modifyDfg && p.restarts == 0
           && s.o.passNodes(s.clock0 + |run|, if k.update then k.best else k.accepted) == (true, p.empty)
    ensures Starts(s, run, phases + [p], Memory(p.restarts, p.empty, p.empty, MAX_INT, false, MAX_INT, m, |run| - 1), p.empty)
  {
    EndIsSeen(s, run, phases, k);
    assert Collections.Unfold(Collections.TheProgress);
    var worst := if k.update then k.best else k.accepted;
    BestIsLeast(s, run, |phases| - 1, k.update, k.minVio, k.best, worst);
    assert (phases + [p])[|phases| - 1] == phases[|phases| - 1];
    assert PhaseOk(s, run, phases + [p], |phases|);
    PhaseAdded(s, run, phases, p);
    forall j | 0 <= j < |run|
      ensures run[j].phase < |phases|
    {
      assert StartOk(s, run, phases, j, run[j].start, run[j].phase);
    }
    assert Remembers(s, run, phases + [p], Memory(p.restarts, p.empty, p.empty, MAX_INT, false, MAX_INT, m, |run| - 1));
  }

  // The driver stops: without having solved the problem,
  lemma Stops<M(!new)>(s: Setting<M>, run: seq<Round<M>>, phases: seq<Phase<M>>, k: Memory<M>)
    requires Minds(s, run, phases, k) && |run| <= s.lim.maxIters
    requires |run| == s.lim.maxIters || s.o.late(s.clock0 + |run|)
    ensures Answer(s, run, phases, 0, k.best)
  {
    assert Collections.Unfold(Collections.TheProgress);
    BestIsLeast(s, run, |phases| - 1, k.update, k.minVio, k.best, k.best);
  }

  // or since it cannot go on with a greater graph,
  lemma StopsExhausted<M(!new)>(s: Setting<M>, run: seq<Round<M>>, phases: seq<Phase<M>>, k: Memory<M>)
    requires Judged(s, run, phases, k) && |run| <= s.lim.maxIters && SeesEnd(s, run, k)
    requires k.restarts >= s.lim.restartIters
    requires !s.lim.modifyDfg || !s.o.passNodes(s.clock0 + |run|, if k.update then k.best else k.accepted).0
    ensures Answer(s, run, phases, if s.lim.modifyDfg then -1 else 0, k.best)
  {
    EndIsSeen(s, run, phases, k);
    assert Collections.Unfold(Collections.TheProgress);
    BestIsLeast(s, run, |phases| - 1, k.update, k.minVio, k.best, k.best);
    var worst := if k.update then k.best else k.accepted;
    BestIsLeast(s, run, |phases| - 1, k.update, k.minVio, k.best, worst);
    var phase, t := |phases| - 1, s.clock0 + |run|;
    assert s.lim.modifyDfg ==> RefusedFor(s, run, phase, t, worst);
  }

  // or with the last round.
  lemma StopsSolved<M(!new)>(s: Setting<M>, run: seq<Round<M>>, phases: seq<Phase<M>>, k: Memory<M>, r: Round<M>)
    requires Follows(s, run, phases, k, r) && Solves(s, r) && |run| < s.lim.maxIters
    ensures Answer(s, run + [r], phases, 1, r.next)
  {
    Opened(s, run, phases, k, r);
  }
}
