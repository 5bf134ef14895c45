/** What the tasks of a run keep in the banks of the scratchpad, and when. Accesses of
    different tasks to a bank are ordered by the hardware and by the dependence codes. */
module Scratchpad {

  // Dependences of a load command on the last task or the one before it, and of an execution
  // on the last task.
  const LD_DEP_ST_LAST_TASK := 1
  const LD_DEP_EX_LAST_TASK := 2
  const LD_DEP_ST_LAST_SEC_TASK := 3
  const EX_DEP_ST_LAST_TASK := 1

  datatype Region = Region(start: int, end: int)

  // No byte lies in both.
  predicate Apart(a: Region, b: Region) {
    a.start >= a.end || b.start >= b.end || a.end <= b.start || b.end <= a.start
  }

  // What one task does in a bank: it keeps loaded data there, or data to be stored.
  datatype Use = Use(isStore: bool, region: Region, dep: int)

  datatype Record = Record(uses: map<int, Use>, exDep: int, cfg: Region, cfgDep: int)

  const NO_TASK := Record(map[], 0, Region(0, 0), 0)

  // A run is the sequence of its tasks.
  function TaskAt(h: seq<Record>, t: int): Record {
    if 0 <= t < |h| then h[t] else NO_TASK
  }

  predicate LoadsIn(r: Record, b: int) { b in r.uses && !r.uses[b].isStore }

  predicate StoresIn(r: Record, b: int) { b in r.uses && r.uses[b].isStore }

  // ----- what the scheduler decides for one task

  // The use u of bank b, made after the tasks r2 and then r1, conflicts with neither or names
  // a dependence. A load that conflicts with a store of r2 may instead depend on r1.
  ghost predicate Guarded(r2: Record, r1: Record, u: Use, b: int, exDep: int) {
    if u.isStore then
      StoresIn(r1, b) ==> Apart(u.region, r1.uses[b].region) || exDep == EX_DEP_ST_LAST_TASK
    else
      && (LoadsIn(r1, b) ==> Apart(u.region, r1.uses[b].region) || u.dep == LD_DEP_EX_LAST_TASK)
      && (StoresIn(r1, b) ==> u.dep == LD_DEP_ST_LAST_TASK)
      && (StoresIn(r2, b) ==>
            || u.dep == LD_DEP_ST_LAST_SEC_TASK
            || (LoadsIn(r1, b) && u.dep == LD_DEP_EX_LAST_TASK)
            || StoresIn(r1, b))
  }

  ghost predicate TaskGuarded(r2: Record, r1: Record, r: Record) {
    && (forall b | b in r.uses :: Guarded(r2, r1, r.uses[b], b, r.exDep))
    && (Apart(r.cfg, r1.cfg) || r.cfgDep == LD_DEP_EX_LAST_TASK)
  }

  ghost predicate Scheduled(h: seq<Record>) {
    forall t {:trigger GuardedAt(h, t)} | 0 <= t < |h| :: GuardedAt(h, t)
  }

  ghost predicate GuardedAt(h: seq<Record>, t: int) {
    TaskGuarded(TaskAt(h, t - 2), TaskAt(h, t - 1), TaskAt(h, t))
  }

  // ----- when things happen

  datatype Span = Span(start: int, finish: int)

  datatype Timing = Timing(
    load: (int, int) -> Span,     // task, bank
    store: (int, int) -> Span,
    exe: int -> Span,             // task
    loadCfg: int -> Span,
    config: int -> Span)

  predicate Before(a: Span, b: Span) { a.finish <= b.start }

  ghost predicate Lasting(T: Timing) {
    && (forall t, b :: T.load(t, b).start <= T.load(t, b).finish)
    && (forall t, b :: T.store(t, b).start <= T.store(t, b).finish)
    && (forall t :: T.exe(t).start <= T.exe(t).finish)
    && (forall t :: T.loadCfg(t).start <= T.loadCfg(t).finish)
    && (forall t :: T.config(t).start <= T.config(t).finish)
  }

  predicate LoadsAt(h: seq<Record>, t: int, b: int) { LoadsIn(TaskAt(h, t), b) }

  predicate StoresAt(h: seq<Record>, t: int, b: int) { StoresIn(TaskAt(h, t), b) }

  // Executions are in order, and so are stores; an execution waits for the loads and for the
  // configuration of its own task, and a store for the execution.
  ghost predicate InOrder(h: seq<Record>, T: Timing) {
    && (forall t, t' | 0 <= t < t' < |h| :: Before(T.exe(t), T.exe(t')))
    && (forall t, t', b, b' | t < t' && StoresAt(h, t, b) && StoresAt(h, t', b') :: Before(T.store(t, b), T.store(t', b')))
    && (forall t, b | LoadsAt(h, t, b) :: Before(T.load(t, b), T.exe(t)))
    && (forall t, b | StoresAt(h, t, b) :: Before(T.exe(t), T.store(t, b)))
    && (forall t :: Before(T.loadCfg(t), T.config(t)) && Before(T.config(t), T.exe(t)))
  }

  // The work of the task before the last that no dependence code speaks about is done, and so
  // is all work of the tasks before.
  ghost predicate OlderDone(h: seq<Record>, T: Timing) {
    && (forall t, t', b | 0 <= t <= t' - 2 && LoadsAt(h, t', b) :: Before(T.exe(t), T.load(t', b)))
    && (forall t, t', b | t <= t' - 2 && t' < |h| && StoresAt(h, t, b) :: Before(T.store(t, b), T.exe(t')))
    && (forall t, t', b, b' | t <= t' - 3 && StoresAt(h, t, b) && LoadsAt(h, t', b') :: Before(T.store(t, b), T.load(t', b')))
    && (forall t, t' | 0 <= t <= t' - 2 && t' < |h| :: Before(T.exe(t), T.loadCfg(t')))
  }

  ghost predicate StoresDone(h: seq<Record>, T: Timing, t: int, next: Span) {
    forall b | StoresAt(h, t, b) :: Before(T.store(t, b), next)
  }

  // The dependence codes are obeyed. Depending on the execution of the last task, a load of data
  // waits until it is over, and a load of a configuration until it has begun.
  ghost predicate LoadWaits(h: seq<Record>, T: Timing, t: int, b: int)
    requires LoadsAt(h, t, b)
  {
    var dep := h[t].uses[b].dep;
    && (dep == LD_DEP_ST_LAST_TASK ==> StoresDone(h, T, t - 1, T.load(t, b)))
    && (dep == LD_DEP_EX_LAST_TASK && t > 0 ==> Before(T.exe(t - 1), T.load(t, b)))
    && (dep == LD_DEP_ST_LAST_SEC_TASK ==> StoresDone(h, T, t - 2, T.load(t, b)))
  }

  ghost predicate DependencesObeyed(h: seq<Record>, T: Timing) {
    && (forall t, b {:trigger LoadWaits(h, T, t, b)} | LoadsAt(h, t, b) :: LoadWaits(h, T, t, b))
    && (forall t | 0 < t < |h| && h[t].exDep == EX_DEP_ST_LAST_TASK :: StoresDone(h, T, t - 1, T.exe(t)))
    && (forall t | 0 < t < |h| && h[t].cfgDep == LD_DEP_EX_LAST_TASK :: T.exe(t - 1).start <= T.loadCfg(t).start)
  }

  // ----- the data of a task is left alone while it is needed

  // From the start of the load to the end of the execution that reads the data; or from the
  // start of the execution that writes the data until it is stored.
  function Window(h: seq<Record>, T: Timing, t: int, b: int): Span
    requires b in TaskAt(h, t).uses
  {
    if LoadsAt(h, t, b) then Span(T.load(t, b).start, T.exe(t).finish)
    else Span(T.exe(t).start, T.store(t, b).finish)
  }

  ghost predicate Behaves(h: seq<Record>, T: Timing) {
    Lasting(T) && InOrder(h, T) && OlderDone(h, T) && DependencesObeyed(h, T)
  }

  // Two uses of a bank conflict when their regions meet, and a load conflicts with an earlier
  // store wherever it is in the bank.
  predicate Conflict(u: Use, u': Use) {
    !Apart(u.region, u'.region) || (u.isStore && !u'.isStore)
  }

  // A load after a store of the task before the last, in one bank. The store is over when the
  // load starts, by the dependence of the load itself or by that of the last task's load.
  lemma LoadAfterOlderStore(h: seq<Record>, T: Timing, t: int, b: int)
    requires Scheduled(h) && Behaves(h, T)
    requires StoresAt(h, t - 2, b) && LoadsAt(h, t, b)
    ensures Before(T.store(t - 2, b), T.load(t, b))
  {
    assert GuardedAt(h, t) && GuardedAt(h, t - 1);
    assert LoadWaits(h, T, t, b);
    if StoresAt(h, t - 1, b) {
      assert Before(T.store(t - 2, b), T.store(t - 1, b));
    } else if LoadsAt(h, t - 1, b) {
      assert LoadWaits(h, T, t - 1, b);
      assert h[t - 1].uses[b].dep == LD_DEP_ST_LAST_TASK;
    }
  }

  lemma LoadAfterStore(h: seq<Record>, T: Timing, t: int, t': int, b: int)
    requires Scheduled(h) && Behaves(h, T) && t < t'
    requires StoresAt(h, t, b) && LoadsAt(h, t', b)
    ensures Before(T.store(t, b), T.load(t', b))
  {
    assert LoadWaits(h, T, t', b);
    if t == t' - 1 {
      assert GuardedAt(h, t');
    } else if t == t' - 2 {
      LoadAfterOlderStore(h, T, t', b);
    }
  }

  lemma LoadAfterLoad(h: seq<Record>, T: Timing, t: int, t': int, b: int)
    requires Scheduled(h) && Behaves(h, T) && t < t'
    requires LoadsAt(h, t, b) && LoadsAt(h, t', b) && !Apart(h[t].uses[b].region, h[t'].uses[b].region)
    ensures Before(T.exe(t), T.load(t', b))
  {
    assert LoadWaits(h, T, t', b);
    if t == t' - 1 {
      assert GuardedAt(h, t');
    }
  }

  lemma StoreAfterStore(h: seq<Record>, T: Timing, t: int, t': int, b: int)
    requires Scheduled(h) && Behaves(h, T) && t < t'
    requires StoresAt(h, t, b) && StoresAt(h, t', b) && !Apart(h[t].uses[b].region, h[t'].uses[b].region)
    ensures Before(T.store(t, b), T.exe(t'))
  {
    if t == t' - 1 {
      assert GuardedAt(h, t');
    }
  }

  // In every run of tasks, however long, conflicting uses of a bank come one after the other:
  // no task overwrites data that is still to be read or stored, or disturbs a bank that is
  // still being stored from.
  lemma HazardFree(h: seq<Record>, T: Timing, t: int, t': int, b: int)
    requires Scheduled(h) && Behaves(h, T) && 0 <= t < t' < |h|
    requires b in h[t].uses && b in h[t'].uses && Conflict(h[t].uses[b], h[t'].uses[b])
    ensures Before(Window(h, T, t, b), Window(h, T, t', b))
  {
    assert LoadsAt(h, t, b) || StoresAt(h, t, b);
    assert LoadsAt(h, t', b) || StoresAt(h, t', b);
    if StoresAt(h, t, b) {
      if LoadsAt(h, t', b) {
        LoadAfterStore(h, T, t, t', b);
      } else {
        StoreAfterStore(h, T, t, t', b);
      }
    } else if LoadsAt(h, t', b) {
      LoadAfterLoad(h, T, t, t', b);
    }
  }

  // The same for the configurations of the tasks: one is read before its place is loaded again,
  // since no execution begins before its configuration has been read.
  lemma ConfigurationsApart(h: seq<Record>, T: Timing, t: int, t': int)
    requires Scheduled(h) && Behaves(h, T) && 0 <= t < t' < |h|
    requires !Apart(h[t].cfg, h[t'].cfg)
    ensures Before(T.config(t), T.loadCfg(t'))
  {
    assert GuardedAt(h, t');
  }

  // One task after the other: configuration, loads, execution, stores.
  const SEQUENTIAL := Timing(
    (t: int, b: int) => Span(8 * t + 2, 8 * t + 3),
    (t: int, b: int) => Span(8 * t + 4, 8 * t + 5),
    (t: int) => Span(8 * t + 3, 8 * t + 4),
    (t: int) => Span(8 * t, 8 * t + 1),
    (t: int) => Span(8 * t + 1, 8 * t + 2))

  lemma SequentialInOrder(h: seq<Record>)
    ensures Lasting(SEQUENTIAL) && InOrder(h, SEQUENTIAL)
  {}

  lemma SequentialOlderDone(h: seq<Record>)
    ensures OlderDone(h, SEQUENTIAL)
  {}

  lemma SequentialObeys(h: seq<Record>)
    ensures DependencesObeyed(h, SEQUENTIAL)
  {}

  // The hypotheses can be met, whatever the tasks are.
  lemma BehavesInSequence(h: seq<Record>)
    ensures Behaves(h, SEQUENTIAL)
  {
    SequentialInOrder(h);
    SequentialOlderDone(h);
    SequentialObeys(h);
  }

  // Without the dependence codes, conflicting uses may meet: the codes are needed.
  lemma CodesAreNeeded() returns (h: seq<Record>, T: Timing)
    ensures |h| == 2 && 0 in h[0].uses && 0 in h[1].uses && Conflict(h[0].uses[0], h[1].uses[0])
    ensures Lasting(T) && InOrder(h, T) && OlderDone(h, T) && !Before(Window(h, T, 0, 0), Window(h, T, 1, 0))
  {
    var r := Record(map[0 := Use(false, Region(0, 8), 0)], 0, Region(0, 0), 0);
    h := [r, r];
    T := Timing((t, b) => Span(t, t), (t, b) => Span(8 * t, 8 * t), t => Span(8 * t + 4, 8 * t + 5),
                t => Span(8 * t, 8 * t), t => Span(8 * t, 8 * t));
  }
}
