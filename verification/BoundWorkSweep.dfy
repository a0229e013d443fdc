/** Spawning one row, and the recovery sweep over many, as the steps of the protocol they perform
    while other processes act in between. */
module BoundWorkSweep {
  import opened Basics
  import opened BoundWork
  import opened BoundWorkProtocol

  // What may go wrong for the spawning process, and ends it there.
  datatype Fault = NoFault | EngineNotReached | SpawnReplyLost | BindFailed | CancelFailed

  // What other processes do to the row between this one's steps.
  datatype Around = Around(beforeSpawn: seq<Step>, beforeBind: seq<Step>, beforeCancel: seq<Step>, fault: Fault)

  // The task that was returned, the conflict that was raised, or another error.
  datatype Outcome = TaskReturned(task: TaskId) | ConflictRaised | OtherError

  function Steps(s: System, steps: seq<Step>): System {
    if steps == [] then s else Next(Steps(s, steps[..|steps| - 1]), steps[|steps| - 1])
  }

  predicate IsOf(step: Step, pid: Pid) {
    match step
    case Worker(_) => false
    case _ => step.pid == pid
  }

  ghost predicate Foreign(steps: seq<Step>, pid: Pid) {
    forall i :: 0 <= i < |steps| ==> !IsOf(steps[i], pid)
  }

  ghost predicate ForeignAround(around: Around, pid: Pid) {
    Foreign(around.beforeSpawn, pid) && Foreign(around.beforeBind, pid) && Foreign(around.beforeCancel, pid)
  }

  // A step of another process leaves this one where it is.
  lemma {:induction false} OtherStepKeeps(s: System, step: Step, pid: Pid)
    requires Invariant(s) && !IsOf(step, pid)
    ensures
      var s' := Next(s, step);
      && Invariant(s') && (s.row.taskId.Some? ==> s'.row.taskId == s.row.taskId)
      && (pid in s'.phases <==> pid in s.phases) && (pid in s.phases ==> s'.phases[pid] == s.phases[pid])
  {
    NextKeepsInvariant(s, step);
  }

  lemma {:induction false} OthersKeep(s: System, steps: seq<Step>, pid: Pid)
    requires Invariant(s) && Foreign(steps, pid)
    ensures
      var s' := Steps(s, steps);
      && Invariant(s') && (s.row.taskId.Some? ==> s'.row.taskId == s.row.taskId)
      && (pid in s'.phases <==> pid in s.phases) && (pid in s.phases ==> s'.phases[pid] == s.phases[pid])
  {
    if steps != [] {
      var n := |steps| - 1;
      assert forall i :: 0 <= i < n ==> steps[..n][i] == steps[i];
      OthersKeep(s, steps[..n], pid);
      OtherStepKeeps(Steps(s, steps[..n]), steps[n], pid);
    }
  }

  // s is where some run of protocol steps from s0 leads.
  ghost predicate Reaches(s0: System, s: System) {
    exists steps :: s == Steps(s0, steps)
  }

  lemma {:induction false} StepsConcat(s: System, a: seq<Step>, b: seq<Step>)
    ensures Steps(s, a + b) == Steps(Steps(s, a), b)
    decreases |b|
  {
    if b == [] {
      assert a + b == a;
    } else {
      StepsConcat(s, a, b[..|b| - 1]);
      assert (a + b)[..|a + b| - 1] == a + b[..|b| - 1];
    }
  }

  lemma {:induction false} ReachesFurther(s0: System, s: System, more: seq<Step>)
    requires Reaches(s0, s)
    ensures Reaches(s0, Steps(s, more))
  {
    var steps :| s == Steps(s0, steps);
    StepsConcat(s0, steps, more);
  }

  // One step of this process.
  lemma {:induction false} OwnStep(s0: System, s: System, step: Step)
    requires Reaches(s0, s) && Invariant(s)
    ensures Reaches(s0, Next(s, step)) && Invariant(Next(s, step))
  {
    assert [step][..0] == [];
    assert Steps(s, []) == s;
    ReachesFurther(s0, s, [step]);
    NextKeepsInvariant(s, step);
  }

  predicate IsUnbound(s: System) {
    s.row.taskId.None? && s.row.state == Pending
  }

  // What one spawn achieves, whatever happens around it.
  ghost predicate SpawnResult(s0: System, pid: Pid, around: Around, s: System, outcome: Outcome) {
    && Reaches(s0, s) && Invariant(s) && pid in s.phases
    // a conflict means that the row was cancelled before anything was bound to it
    && (outcome == ConflictRaised <==> s0.row.taskId.None? && s0.row.state == Cancelled)
    // a task is returned only if the row is bound to it, and this process owes nothing
    && (outcome.TaskReturned? ==>
          s.row.taskId == Some(outcome.task) && s.engineTask == Some(outcome.task) && s.phases[pid] == Finished)
    // another error needs a fault, and a fault up to the binding is always one
    && (outcome == OtherError ==> IsUnbound(s0) && around.fault != NoFault)
    && (IsUnbound(s0) && around.fault in {EngineNotReached, SpawnReplyLost, BindFailed} ==> outcome == OtherError)
    // a failed cancel leaves the row bound and cancelled, and its cancel lost with this process
    && (outcome == OtherError && around.fault == CancelFailed ==>
          s.row.state == Cancelled && s.row.taskId.Some? && LostDebt(s, pid))
  }

  // The read, the engine's spawn, the binding and, against a cancelled row, the engine's cancel.
  method SpawnBound(s0: System, pid: Pid, around: Around) returns (s: System, outcome: Outcome)
    requires Invariant(s0) && pid !in s0.phases && ForeignAround(around, pid)
    ensures SpawnResult(s0, pid, around, s, outcome)
  {
    assert Reaches(s0, s0) by { assert Steps(s0, []) == s0; }
    OwnStep(s0, s0, SpawnRead(pid));
    ReadDecides(s0, pid);
    s := Next(s0, SpawnRead(pid));
    if s0.row.taskId.Some? {
      return s, TaskReturned(s0.row.taskId.value);
    }
    if s0.row.state != Pending {
      return s, ConflictRaised;
    }
    s, outcome := CallEngine(s0, s, pid, around);
  }

  // From the read of a pending, unbound row on.
  method CallEngine(s0: System, read: System, pid: Pid, around: Around) returns (s: System, outcome: Outcome)
    requires IsUnbound(s0) && Invariant(read) && Reaches(s0, read)
    requires InPhase(read, pid, Spawning) && ForeignAround(around, pid)
    ensures SpawnResult(s0, pid, around, s, outcome)
  {
    OthersKeep(read, around.beforeSpawn, pid);
    ReachesFurther(s0, read, around.beforeSpawn);
    s := Steps(read, around.beforeSpawn);
    assert InPhase(s, pid, Spawning);
    if around.fault == EngineNotReached || around.fault == SpawnReplyLost {
      var step := if around.fault == EngineNotReached then Crash(pid) else EngineSpawnReplyLost(pid);
      OwnStep(s0, s, step);
      FaultEnds(s0, s, step, pid, around);
      return Next(s, step), OtherError;
    }
    OwnStep(s0, s, EngineSpawn(pid));
    EngineAnswers(s, pid);
    s := Next(s, EngineSpawn(pid));
    s, outcome := BindAnswered(s0, s, pid, around);
  }

  lemma {:induction false} EngineAnswers(s: System, pid: Pid)
    requires InPhase(s, pid, Spawning)
    ensures pid in Next(s, EngineSpawn(pid)).phases && Next(s, EngineSpawn(pid)).phases[pid].Binding?
  {
  }

  // A fault up to the binding is an error of the spawn.
  lemma {:induction false} FaultEnds(s0: System, s: System, step: Step, pid: Pid, around: Around)
    requires IsUnbound(s0) && pid in s.phases && step in {Crash(pid), EngineSpawnReplyLost(pid)}
    requires Reaches(s0, Next(s, step)) && Invariant(Next(s, step))
    requires around.fault in {EngineNotReached, SpawnReplyLost, BindFailed}
    ensures SpawnResult(s0, pid, around, Next(s, step), OtherError)
  {
  }

  lemma {:induction false} ReadDecides(s: System, pid: Pid)
    requires Invariant(s) && pid !in s.phases
    ensures
      var s' := Next(s, SpawnRead(pid));
      && s'.row == s.row && s'.engineTask == s.engineTask
      && InPhase(s', pid, if IsUnbound(s) then Spawning else Finished)
      && (s.row.taskId.None? && s.row.state != Pending ==> s.row.state == Cancelled)
  {
  }

  // From the engine's answer on.
  method BindAnswered(s0: System, answered: System, pid: Pid, around: Around) returns (s: System, outcome: Outcome)
    requires IsUnbound(s0) && Invariant(answered) && Reaches(s0, answered)
    requires pid in answered.phases && answered.phases[pid].Binding? && ForeignAround(around, pid)
    requires around.fault !in {EngineNotReached, SpawnReplyLost}
    ensures SpawnResult(s0, pid, around, s, outcome)
  {
    OthersKeep(answered, around.beforeBind, pid);
    ReachesFurther(s0, answered, around.beforeBind);
    s := Steps(answered, around.beforeBind);
    if around.fault == BindFailed {
      OwnStep(s0, s, Crash(pid));
      FaultEnds(s0, s, Crash(pid), pid, around);
      return Next(s, Crash(pid)), OtherError;
    }
    var task := s.phases[pid].task;
    BindingBinds(s, pid);
    OwnStep(s0, s, BindTransaction(pid));
    s := Next(s, BindTransaction(pid));
    if s.phases[pid] == Finished {
      return s, TaskReturned(task);
    }
    s, outcome := CancelOwed(s0, s, pid, task, around);
  }

  // Against a cancelled row: the engine's cancel.
  method CancelOwed(s0: System, owing: System, pid: Pid, task: TaskId, around: Around)
    returns (s: System, outcome: Outcome)
    requires IsUnbound(s0) && Invariant(owing) && Reaches(s0, owing) && ForeignAround(around, pid)
    requires InPhase(owing, pid, Owing(task)) && around.fault in {NoFault, CancelFailed}
    ensures SpawnResult(s0, pid, around, s, outcome)
  {
    OthersKeep(owing, around.beforeCancel, pid);
    ReachesFurther(s0, owing, around.beforeCancel);
    s := Steps(owing, around.beforeCancel);
    OwedEnds(s, pid, task);
    if around.fault == CancelFailed {
      OwnStep(s0, s, Crash(pid));
      return Next(s, Crash(pid)), OtherError;
    }
    OwnStep(s0, s, EngineCancel(pid));
    return Next(s, EngineCancel(pid)), TaskReturned(task);
  }

  // A debt ends by the engine's cancel, or by a crash that loses it; the row stays cancelled and bound.
  lemma {:induction false} OwedEnds(s: System, pid: Pid, task: TaskId)
    requires Invariant(s) && InPhase(s, pid, Owing(task))
    ensures s.row.state == Cancelled && s.row.taskId == Some(task) && s.engineTask == Some(task)
    ensures
      var paid := Next(s, EngineCancel(pid));
      paid.row == s.row && paid.engineTask == s.engineTask && InPhase(paid, pid, Finished)
    ensures
      var lost := Next(s, Crash(pid));
      lost.row == s.row && InPhase(lost, pid, Crashed(Some(task)))
  {
    assert TaskAgrees(s, s.phases[pid]);
  }

  // A process with an engine task in hand always gets the row bound to it, and owes a cancel if the row is cancelled.
  lemma {:induction false} BindingBinds(s: System, pid: Pid)
    requires Invariant(s) && pid in s.phases && s.phases[pid].Binding?
    ensures
      var task, s' := s.phases[pid].task, Next(s, BindTransaction(pid));
      && s'.row.taskId == Some(task) && s'.engineTask == Some(task)
      && pid in s'.phases && s'.phases[pid] == if s.row.state == Cancelled then Owing(task) else Finished
  {
    assert TaskAgrees(s, s.phases[pid]);
  }

  // A scanned row as its spawn finds it, and what happens around that spawn.
  datatype Scanned = Scanned(system: System, around: Around)

  ghost predicate Ascending(places: seq<nat>) {
    forall i, j :: 0 <= i < j < |places| ==> places[i] < places[j]
  }

  ghost function BoundPlaces(outcomes: seq<Outcome>): set<nat> {
    set i | 0 <= i < |outcomes| && outcomes[i].TaskReturned?
  }

  ghost predicate Results(rows: seq<Scanned>, pid: Pid, after: seq<System>, outcomes: seq<Outcome>) {
    && |after| == |outcomes| <= |rows|
    && forall i :: 0 <= i < |after| ==> SpawnResult(rows[i].system, pid, rows[i].around, after[i], outcomes[i])
  }

  // The places, in order, of the rows whose spawn failed with another error than a conflict.
  ghost predicate ReportedFailures(outcomes: seq<Outcome>, failures: seq<nat>) {
    Ascending(failures) && forall i :: i in failures <==> 0 <= i < |outcomes| && outcomes[i] == OtherError
  }

  // The sweep repeats the producer's spawn for each row it scanned. It counts the rows that end bound, passes over
  // those that were cancelled first, and reports the other failures.
  method SpawnUnbound(rows: seq<Scanned>, pid: Pid)
    returns (after: seq<System>, outcomes: seq<Outcome>, spawned: nat, failures: seq<nat>)
    requires forall i :: 0 <= i < |rows| ==>
               Invariant(rows[i].system) && pid !in rows[i].system.phases && ForeignAround(rows[i].around, pid)
    ensures |after| == |rows| && Results(rows, pid, after, outcomes)
    ensures spawned == |BoundPlaces(outcomes)| && ReportedFailures(outcomes, failures)
  {
    after, outcomes, spawned, failures := [], [], 0, [];
    for i := 0 to |rows|
      invariant |after| == i && Results(rows, pid, after, outcomes)
      invariant spawned == |BoundPlaces(outcomes)| && ReportedFailures(outcomes, failures)
    {
      var s, outcome := SpawnBound(rows[i].system, pid, rows[i].around);
      PlacesGrow(outcomes, outcome);
      FailuresGrow(outcomes, failures, outcome);
      ResultsGrow(rows, pid, after, outcomes, s, outcome);
      match outcome {
        case TaskReturned(_) => spawned := spawned + 1;
        case ConflictRaised =>
        case OtherError => failures := failures + [i];
      }
      after, outcomes := after + [s], outcomes + [outcome];
    }
  }

  lemma {:induction false} PlacesGrow(outcomes: seq<Outcome>, outcome: Outcome)
    ensures |BoundPlaces(outcomes + [outcome])| == |BoundPlaces(outcomes)| + if outcome.TaskReturned? then 1 else 0
  {
    var n := |outcomes|;
    assert n !in BoundPlaces(outcomes);
    assert BoundPlaces(outcomes + [outcome]) == BoundPlaces(outcomes) + if outcome.TaskReturned? then {n} else {};
  }

  lemma {:induction false} FailuresGrow(outcomes: seq<Outcome>, failures: seq<nat>, outcome: Outcome)
    requires ReportedFailures(outcomes, failures)
    ensures ReportedFailures(outcomes + [outcome], if outcome == OtherError then failures + [|outcomes|] else failures)
  {
    assert forall k :: 0 <= k < |failures| ==> failures[k] in failures;
  }

  lemma {:induction false} ResultsGrow(
      rows: seq<Scanned>, pid: Pid, after: seq<System>, outcomes: seq<Outcome>, s: System, outcome: Outcome)
    requires Results(rows, pid, after, outcomes) && |after| < |rows|
    requires var row := rows[|after|]; SpawnResult(row.system, pid, row.around, s, outcome)
    ensures Results(rows, pid, after + [s], outcomes + [outcome])
  {
  }
}
