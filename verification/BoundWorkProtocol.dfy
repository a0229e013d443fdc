/** Spawners, recovery sweeps, cancellers and workers interleaving over one row and the engine.
    A database transaction is one step, an engine call is another, and a process may crash between them. */
module BoundWorkProtocol {
  import opened Basics
  import opened BoundWork

  type Pid = nat

  datatype Phase =
    | Spawning                        // read a pending, unbound row; about to call the engine
    | Binding(task: TaskId)           // the engine answered; about to bind
    | Owing(task: TaskId)             // committed against a cancelled row; must cancel the task
    | Finished
    | Crashed(owed: Option<TaskId>)

  // `debtors` records every process that ever came to owe an engine cancel.
  datatype System = System(
    row: Row,
    engineTask: Option<TaskId>,       // what the engine holds under the row's idempotency key
    nextTask: TaskId,
    engineCancelled: set<TaskId>,
    phases: map<Pid, Phase>,
    debtors: set<Pid>)

  datatype Step =
    | SpawnRead(pid: Pid)
    | EngineSpawn(pid: Pid)
    | EngineSpawnReplyLost(pid: Pid)
    | BindTransaction(pid: Pid)
    | CancelTransaction(pid: Pid, now: Time)
    | EngineCancel(pid: Pid)
    | Crash(pid: Pid)
    | Worker(op: Operation)

  function Initially(maxAttempts: int): System {
    System(NewRow(maxAttempts), None, 0, {}, map[], {})
  }

  predicate InPhase(s: System, pid: Pid, phase: Phase) {
    pid in s.phases && s.phases[pid] == phase
  }

  function Goto(s: System, pid: Pid, phase: Phase): System {
    s.(phases := s.phases[pid := phase], debtors := if phase.Owing? then s.debtors + {pid} else s.debtors)
  }

  // Idempotent by key: the first spawn creates the task, every later one returns it.
  function Spawned(s: System): System
    ensures Spawned(s).engineTask.Some?
  {
    if s.engineTask.Some? then s else s.(engineTask := Some(s.nextTask), nextTask := s.nextTask + 1)
  }

  // A step that is not enabled changes nothing.
  function Next(s: System, step: Step): System {
    match step
    case SpawnRead(pid) =>
      if pid in s.phases then s
      else if s.row.taskId.Some? || s.row.state != Pending then Goto(s, pid, Finished)
      else Goto(s, pid, Spawning)
    case EngineSpawn(pid) =>
      if InPhase(s, pid, Spawning) then Goto(Spawned(s), pid, Binding(Spawned(s).engineTask.value)) else s
    case EngineSpawnReplyLost(pid) =>
      if InPhase(s, pid, Spawning) then Goto(Spawned(s), pid, Finished) else s
    case BindTransaction(pid) =>
      if pid in s.phases && s.phases[pid].Binding? then
        var task := s.phases[pid].task;
        var (row', reply) := Apply(s.row, BindTask(task));
        Goto(s.(row := row'), pid, if reply.Bound? && reply.cancellationPending then Owing(task) else Finished)
      else s
    case CancelTransaction(pid, now) =>
      if pid in s.phases then s
      else
        var (row', reply) := Apply(s.row, Cancel(now));
        Goto(s.(row := row'), pid,
             if reply.CancelReply? && reply.cancelled && reply.task.Some? then Owing(reply.task.value) else Finished)
    case EngineCancel(pid) =>
      if pid in s.phases && s.phases[pid].Owing? then
        Goto(s.(engineCancelled := s.engineCancelled + {s.phases[pid].task}), pid, Finished)
      else s
    case Crash(pid) =>
      if pid !in s.phases || s.phases[pid].Finished? || s.phases[pid].Crashed? then s
      else Goto(s, pid, Crashed(if s.phases[pid].Owing? then Some(s.phases[pid].task) else None))
    case Worker(op) =>
      if op.BeginAttempt? || op.Succeed? || op.Fail? then s.(row := Apply(s.row, op).0) else s
  }

  function Run(maxAttempts: int, steps: seq<Step>): System {
    if steps == [] then Initially(maxAttempts) else Next(Run(maxAttempts, steps[..|steps| - 1]), steps[|steps| - 1])
  }

  // The task a process has in hand is the one task the engine holds.
  ghost predicate TaskAgrees(s: System, phase: Phase) {
    match phase
    case Binding(t) => s.engineTask == Some(t)
    case Owing(t) => s.engineTask == Some(t) && s.row.state == Cancelled && s.row.taskId == Some(t)
    case Crashed(Some(t)) => s.engineTask == Some(t)
    case _ => true
  }

  ghost predicate Paid(s: System, pid: Pid) {
    InPhase(s, pid, Finished) && s.engineTask.Some? && s.engineTask.value in s.engineCancelled
  }

  // A debtor still owes the cancel, has delivered it, or crashed owing it.
  ghost predicate DebtorAccounted(s: System, pid: Pid) {
    pid in s.phases && (s.phases[pid].Owing? || Paid(s, pid) || LostDebt(s, pid))
  }

  predicate LostDebt(s: System, pid: Pid) {
    pid in s.phases && s.phases[pid].Crashed? && s.phases[pid].owed.Some?
  }

  ghost predicate Invariant(s: System) {
    && Consistent(s.row)
    && (s.row.taskId.Some? ==> s.row.taskId == s.engineTask)
    && (s.engineTask.Some? ==> s.engineTask.value < s.nextTask)
    && (forall pid :: pid in s.phases ==> TaskAgrees(s, s.phases[pid]))
    && (forall pid :: pid in s.phases && s.phases[pid].Owing? ==> pid in s.debtors)
    && (forall pid :: pid in s.debtors ==> DebtorAccounted(s, pid))
    && (s.row.state == Cancelled && s.row.taskId.Some? ==> s.debtors != {})
    && (s.engineCancelled != {} ==> exists pid :: pid in s.debtors && Paid(s, pid))
    && (forall t :: t in s.engineCancelled ==> s.row.state == Cancelled && s.row.taskId == Some(t))
  }

  lemma {:induction false} NextKeepsInvariant(s: System, step: Step)
    requires Invariant(s)
    ensures Invariant(Next(s, step))
    ensures s.row.taskId.Some? ==> Next(s, step).row.taskId == s.row.taskId
  {
    match step {
      case BindTransaction(pid) =>
        if pid in s.phases && s.phases[pid].Binding? { BindKeepsInvariant(s, pid); }
      case CancelTransaction(pid, now) =>
        if pid !in s.phases { CancelKeepsInvariant(s, pid, now); }
      case EngineCancel(pid) =>
        if pid in s.phases && s.phases[pid].Owing? { PayKeepsInvariant(s, pid); }
      case Worker(op) =>
        WorkerKeepsInvariant(s, op);
      case _ =>
        MoveKeepsInvariant(s, step);
    }
  }

  lemma {:induction false} MoveKeepsInvariant(s: System, step: Step)
    requires Invariant(s)
    requires step.SpawnRead? || step.EngineSpawn? || step.EngineSpawnReplyLost? || step.Crash?
    ensures Invariant(Next(s, step)) && Next(s, step).row == s.row
  {
    var s' := Next(s, step);
    if s' != s {
      assert s'.debtors == s.debtors && s'.engineCancelled == s.engineCancelled;
      forall pid | pid in s.debtors && Paid(s, pid) ensures Paid(s', pid) {}
      forall pid | pid in s'.phases ensures TaskAgrees(s', s'.phases[pid]) {
        if pid in s.phases { assert TaskAgrees(s, s.phases[pid]); }
      }
      forall pid | pid in s.debtors ensures DebtorAccounted(s', pid) {
        assert DebtorAccounted(s, pid);
      }
    }
  }

  lemma {:induction false} BindKeepsInvariant(s: System, pid: Pid)
    requires Invariant(s) && pid in s.phases && s.phases[pid].Binding?
    ensures
      var s' := Next(s, BindTransaction(pid));
      Invariant(s') && (s.row.taskId.Some? ==> s'.row.taskId == s.row.taskId)
  {
    var s' := Next(s, BindTransaction(pid));
    assert TaskAgrees(s, s.phases[pid]);
    assert pid in s.debtors ==> DebtorAccounted(s, pid);
    forall p | p in s.debtors && Paid(s, p) ensures Paid(s', p) {}
    forall p | p in s'.phases ensures TaskAgrees(s', s'.phases[p]) {
      if p != pid { assert TaskAgrees(s, s.phases[p]); }
    }
    forall p | p in s'.debtors ensures DebtorAccounted(s', p) {
      if p != pid { assert DebtorAccounted(s, p); }
    }
    if s'.row.state == Cancelled && s'.row.taskId.Some? {
      assert pid in s'.debtors;
    }
  }

  lemma {:induction false} CancelKeepsInvariant(s: System, pid: Pid, now: Time)
    requires Invariant(s) && pid !in s.phases
    ensures
      var s' := Next(s, CancelTransaction(pid, now));
      Invariant(s') && s'.row.taskId == s.row.taskId
  {
    var s' := Next(s, CancelTransaction(pid, now));
    assert pid in s.debtors ==> DebtorAccounted(s, pid);
    forall p | p in s.debtors && Paid(s, p) ensures Paid(s', p) {}
    forall p | p in s'.phases ensures TaskAgrees(s', s'.phases[p]) {
      if p != pid { assert TaskAgrees(s, s.phases[p]); }
    }
    forall p | p in s'.debtors ensures DebtorAccounted(s', p) {
      if p != pid { assert DebtorAccounted(s, p); }
    }
    if s.row.state != Cancelled && s'.row.state == Cancelled && s'.row.taskId.Some? {
      assert pid in s'.debtors;
    }
  }

  lemma {:induction false} PayKeepsInvariant(s: System, pid: Pid)
    requires Invariant(s) && pid in s.phases && s.phases[pid].Owing?
    ensures
      var s' := Next(s, EngineCancel(pid));
      Invariant(s') && s'.row == s.row
  {
    var s' := Next(s, EngineCancel(pid));
    assert TaskAgrees(s, s.phases[pid]);
    assert pid in s'.debtors && Paid(s', pid);
    forall p | p in s.debtors && Paid(s, p) ensures Paid(s', p) {}
    forall p | p in s'.phases ensures TaskAgrees(s', s'.phases[p]) {
      if p != pid { assert TaskAgrees(s, s.phases[p]); }
    }
    forall p | p in s'.debtors ensures DebtorAccounted(s', p) {
      assert DebtorAccounted(s, p);
    }
  }

  lemma {:induction false} WorkerKeepsInvariant(s: System, op: Operation)
    requires Invariant(s)
    ensures Invariant(Next(s, Worker(op))) && Next(s, Worker(op)).row.taskId == s.row.taskId
  {
    var s' := Next(s, Worker(op));
    forall p | p in s.debtors && Paid(s, p) ensures Paid(s', p) {}
    forall p | p in s'.phases ensures TaskAgrees(s', s'.phases[p]) {
      assert TaskAgrees(s, s.phases[p]);
    }
    forall p | p in s'.debtors ensures DebtorAccounted(s', p) {
      assert DebtorAccounted(s, p);
    }
  }

  lemma {:induction false} RunKeepsInvariant(maxAttempts: int, steps: seq<Step>)
    ensures Invariant(Run(maxAttempts, steps))
  {
    if steps != [] {
      RunKeepsInvariant(maxAttempts, steps[..|steps| - 1]);
      NextKeepsInvariant(Run(maxAttempts, steps[..|steps| - 1]), steps[|steps| - 1]);
    }
  }

  // ---------- what every interleaving keeps ----------

  // The engine has cancelled the row's task, or a live process is about to.
  ghost predicate CancelDelivered(s: System) {
    && s.row.taskId.Some?
    && (s.row.taskId.value in s.engineCancelled || exists pid :: InPhase(s, pid, Owing(s.row.taskId.value)))
  }

  // A cancelled, bound row has its engine cancel delivered or owed by a live process
  // exactly when not every process that came to owe it crashed before delivering.
  lemma {:induction false} CancelOwedUnlessAllCrashed(maxAttempts: int, steps: seq<Step>)
    requires Run(maxAttempts, steps).row.state == Cancelled && Run(maxAttempts, steps).row.taskId.Some?
    ensures
      var s := Run(maxAttempts, steps);
      && s.debtors != {}
      && (CancelDelivered(s) <==> exists pid :: pid in s.debtors && !LostDebt(s, pid))
  {
    RunKeepsInvariant(maxAttempts, steps);
    var s := Run(maxAttempts, steps);
    if pid :| pid in s.debtors && !LostDebt(s, pid) {
      assert DebtorAccounted(s, pid);
      if s.phases[pid].Owing? {
        assert TaskAgrees(s, s.phases[pid]);
        assert InPhase(s, pid, Owing(s.row.taskId.value));
      }
    }
    if CancelDelivered(s) {
      if s.row.taskId.value in s.engineCancelled {
        var pid :| pid in s.debtors && Paid(s, pid);
        assert !LostDebt(s, pid);
      } else {
        var pid :| InPhase(s, pid, Owing(s.row.taskId.value));
        assert !LostDebt(s, pid);
      }
    }
  }

  // A cancel always takes effect: it leaves the row terminal, an open one cancelled, and whoever cancelled a bound one
  // owes the engine's cancel.
  lemma {:induction false} CancelTakesEffect(s: System, pid: Pid, now: Time)
    requires pid !in s.phases
    ensures
      var s' := Next(s, CancelTransaction(pid, now));
      && IsTerminal(s'.row.state)
      && (IsTerminal(s.row.state) ==> s'.row == s.row)
      && (!IsTerminal(s.row.state) ==>
            && s'.row == s.row.(state := Cancelled, finishedAt := Some(now))
            && (s.row.taskId.Some? ==> pid in s'.debtors && InPhase(s', pid, Owing(s.row.taskId.value))))
  {
  }

  // And whoever owes it delivers it by one engine call.
  lemma {:induction false} OwedCancelIsDelivered(s: System, pid: Pid, task: TaskId)
    requires InPhase(s, pid, Owing(task))
    ensures task in Next(s, EngineCancel(pid)).engineCancelled
  {
  }

  // The engine is only ever told to cancel the task of a row that is cancelled.
  lemma {:induction false} OnlyCancelledWorkIsStopped(maxAttempts: int, steps: seq<Step>)
    ensures
      var s := Run(maxAttempts, steps);
      forall t :: t in s.engineCancelled ==> s.row.state == Cancelled && s.row.taskId == Some(t)
  {
    RunKeepsInvariant(maxAttempts, steps);
  }

  lemma {:induction false} NextKeepsTask(s: System, step: Step)
    requires Invariant(s) && s.row.taskId.Some?
    ensures Next(s, step).row.taskId == s.row.taskId == Next(s, step).engineTask
  {
    NextKeepsInvariant(s, step);
  }

  // Once bound, a row keeps its one task, and it is the task the engine holds for it.
  lemma {:induction false} OneTaskForever(maxAttempts: int, steps: seq<Step>, more: seq<Step>)
    requires Run(maxAttempts, steps).row.taskId.Some?
    ensures
      var s, s' := Run(maxAttempts, steps), Run(maxAttempts, steps + more);
      s'.row.taskId == s.row.taskId == s'.engineTask
    decreases |more|
  {
    if more == [] {
      assert steps + more == steps;
      RunKeepsInvariant(maxAttempts, steps);
    } else {
      var fewer, last := more[..|more| - 1], more[|more| - 1];
      OneTaskForever(maxAttempts, steps, fewer);
      RunKeepsInvariant(maxAttempts, steps + fewer);
      assert steps + more == steps + fewer + [last];
      NextKeepsTask(Run(maxAttempts, steps + fewer), last);
      RunMore(maxAttempts, steps + fewer, last);
    }
  }

  // No spawner is ever told that the row belongs to another task.
  lemma {:induction false} BindingNeverMeetsAnotherTask(maxAttempts: int, steps: seq<Step>, pid: Pid)
    requires
      var s := Run(maxAttempts, steps);
      pid in s.phases && s.phases[pid].Binding? && s.row.taskId.Some?
    ensures
      var s := Run(maxAttempts, steps);
      Apply(s.row, BindTask(s.phases[pid].task)).1.Bound?
  {
    RunKeepsInvariant(maxAttempts, steps);
    var s := Run(maxAttempts, steps);
    assert TaskAgrees(s, s.phases[pid]);
  }

  const BOUND_RUN: seq<Step> := [SpawnRead(0), EngineSpawn(0), BindTransaction(0)]

  lemma {:induction false} BoundRunReaches()
    ensures Run(3, BOUND_RUN) == System(NewRow(3).(taskId := Some(0)), Some(0), 1, {}, map[0 := Finished], {})
  {
    RunMore(3, [], SpawnRead(0));
    RunMore(3, [SpawnRead(0)], EngineSpawn(0));
    RunMore(3, [SpawnRead(0), EngineSpawn(0)], BindTransaction(0));
    var s1 := System(NewRow(3), None, 0, {}, map[0 := Spawning], {});
    var s2 := System(NewRow(3), Some(0), 1, {}, map[0 := Binding(0)], {});
    assert Run(3, [SpawnRead(0)]) == s1;
    assert Next(s1, EngineSpawn(0)) == s2;
    assert Run(3, [SpawnRead(0), EngineSpawn(0)]) == s2;
  }

  // The ordinary run: spawned, bound, attempted, done.
  lemma {:induction false} WorkSucceeds(value: string, now: Time)
    ensures
      var s := Run(3, BOUND_RUN + [Worker(BeginAttempt(now))] + [Worker(Succeed(Assigns(value), now))]);
      && s.row.state == Succeeded && s.row.result == Some(value)
      && s.row.taskId == s.engineTask && |s.engineCancelled| == 0
  {
    BoundRunReaches();
    RunMore(3, BOUND_RUN, Worker(BeginAttempt(now)));
    RunMore(3, BOUND_RUN + [Worker(BeginAttempt(now))], Worker(Succeed(Assigns(value), now)));
  }

  // A canceller that crashes after its commit: the row says cancelled, the engine never hears of it.
  lemma {:induction false} CrashStrandsTheCancel(now: Time)
    ensures
      var s := Run(3, BOUND_RUN + [CancelTransaction(1, now)] + [Crash(1)]);
      s.row.state == Cancelled && s.row.taskId == Some(0) && !CancelDelivered(s)
  {
    BoundRunReaches();
    RunMore(3, BOUND_RUN, CancelTransaction(1, now));
    RunMore(3, BOUND_RUN + [CancelTransaction(1, now)], Crash(1));
    var s := Run(3, BOUND_RUN + [CancelTransaction(1, now)] + [Crash(1)]);
    assert s.phases == map[0 := Finished, 1 := Crashed(Some(0))];
  }

  lemma {:induction false} RunMore(maxAttempts: int, steps: seq<Step>, step: Step)
    ensures Run(maxAttempts, steps + [step]) == Next(Run(maxAttempts, steps), step)
  {
    assert (steps + [step])[..|steps + [step]| - 1] == steps;
  }

  // No process is left that could still deliver the cancel.
  ghost predicate Stranded(s: System) {
    && s.row.state == Cancelled && s.row.taskId.Some?
    && s.row.taskId.value !in s.engineCancelled
    && forall pid :: pid in s.phases ==> s.phases[pid].Finished? || s.phases[pid].Crashed?
  }

  // Repeated cancels and recovery sweeps do not repair a stranded cancel.
  lemma {:induction false} StrandedForGood(maxAttempts: int, steps: seq<Step>, more: seq<Step>)
    requires Stranded(Run(maxAttempts, steps))
    ensures Stranded(Run(maxAttempts, steps + more))
    decreases |more|
  {
    if more == [] {
      assert steps + more == steps;
    } else {
      var fewer := more[..|more| - 1];
      StrandedForGood(maxAttempts, steps, fewer);
      assert (steps + more)[..|steps + more| - 1] == steps + fewer;
    }
  }
}
