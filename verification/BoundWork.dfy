/** Lifecycle of one product row whose work is executed by an engine task. */
module BoundWork {
  import opened Basics

  type TaskId = nat
  type Time = int

  datatype DurableState = Pending | Running | Succeeded | Failed | Cancelled

  // `result` stands for the product fields that a result projection assigns.
  datatype Row = Row(
    state: DurableState,
    taskId: Option<TaskId>,
    attempts: nat,
    maxAttempts: int,
    startedAt: Option<Time>,
    finishedAt: Option<Time>,
    lastError: Option<string>,
    result: Option<string>)

  datatype Recovery = Retry | Terminal

  datatype Projection = Absent | Assigns(result: string) | Raises

  // One locked transaction on the row.
  datatype Operation =
    | BeginAttempt(now: Time)
    | BindTask(task: TaskId)
    | Succeed(projection: Projection, now: Time)
    | Fail(error: string, recovery: Recovery, now: Time)
    | Cancel(now: Time)

  datatype Reply =
    | Current(state: DurableState)
    | Bound(first: bool, cancellationPending: bool)
    | CancelReply(cancelled: bool, task: Option<TaskId>)
    | BindingPending
    | Conflict
    | ProjectionRaised

  const FAILURE_SUMMARY_MAX_CHARACTERS := 2000

  function NewRow(maxAttempts: int): Row {
    Row(Pending, None, 0, maxAttempts, None, None, None, None)
  }

  predicate IsTerminal(state: DurableState) {
    state == Succeeded || state == Failed || state == Cancelled
  }

  function Apply(row: Row, op: Operation): (Row, Reply) {
    match op
    case BeginAttempt(now) =>
      if IsTerminal(row.state) then (row, Current(row.state))
      else if row.taskId.None? then (row, BindingPending)
      else
        (row.(state := Running, attempts := row.attempts + 1,
              startedAt := if row.startedAt.Some? then row.startedAt else Some(now)), Current(Running))
    case BindTask(task) =>
      if row.taskId.Some? then
        if row.taskId != Some(task) then (row, Conflict) else (row, Bound(false, row.state == Cancelled))
      else if row.state != Pending && row.state != Cancelled then (row, Conflict)
      else (row.(taskId := Some(task)), Bound(true, row.state == Cancelled))
    case Succeed(projection, now) =>
      if row.state != Running then (row, Current(row.state))
      else if projection == Raises then (row, ProjectionRaised)
      else
        (row.(state := Succeeded, lastError := None, finishedAt := Some(now),
              result := if projection.Assigns? then Some(projection.result) else row.result), Current(Succeeded))
    case Fail(error, recovery, now) =>
      if IsTerminal(row.state) then (row, Current(row.state))
      else if row.state != Running then (row, Conflict)
      else
        var exhausted := recovery == Terminal || row.attempts >= row.maxAttempts;
        var state' := if exhausted then Failed else Pending;
        (row.(state := state', lastError := Some(Summary(error)),
              finishedAt := if exhausted then Some(now) else row.finishedAt), Current(state'))
    case Cancel(now) =>
      if IsTerminal(row.state) then (row, CancelReply(false, row.taskId))
      else (row.(state := Cancelled, finishedAt := Some(now)), CancelReply(true, row.taskId))
  }

  function Summary(error: string): string {
    if |error| <= FAILURE_SUMMARY_MAX_CHARACTERS then error else error[..FAILURE_SUMMARY_MAX_CHARACTERS]
  }

  // ---------- the row object ----------

  class WorkRow {
    var state: DurableState
    var taskId: Option<TaskId>
    var attempts: nat
    const maxAttempts: int
    var startedAt: Option<Time>
    var finishedAt: Option<Time>
    var lastError: Option<string>
    var result: Option<string>

    function Model(): Row
      reads this
    {
      Row(state, taskId, attempts, maxAttempts, startedAt, finishedAt, lastError, result)
    }

    constructor (maxAttempts: int)
      ensures Model() == NewRow(maxAttempts)
    {
      this.maxAttempts := maxAttempts;
      state, taskId, attempts := Pending, None, 0;
      startedAt, finishedAt, lastError, result := None, None, None, None;
    }

    method Begin(now: Time) returns (reply: Reply)
      modifies this
      ensures (Model(), reply) == Apply(old(Model()), BeginAttempt(now))
    {
      if IsTerminal(state) {
        return Current(state);
      }
      if taskId.None? {
        return BindingPending;
      }
      state := Running;
      attempts := attempts + 1;
      if startedAt.None? {
        startedAt := Some(now);
      }
      return Current(state);
    }

    method Bind(task: TaskId) returns (reply: Reply)
      modifies this
      ensures (Model(), reply) == Apply(old(Model()), BindTask(task))
    {
      if taskId.Some? {
        if taskId.value != task {
          return Conflict;
        }
        return Bound(false, state == Cancelled);
      }
      if state != Pending && state != Cancelled {
        return Conflict;
      }
      taskId := Some(task);
      return Bound(true, state == Cancelled);
    }

    method RecordSuccess(projection: Projection, now: Time) returns (reply: Reply)
      modifies this
      ensures (Model(), reply) == Apply(old(Model()), Succeed(projection, now))
    {
      if state != Running {
        return Current(state);
      }
      match projection {
        case Raises => return ProjectionRaised;
        case Assigns(value) => result := Some(value);
        case Absent =>
      }
      state := Succeeded;
      lastError := None;
      finishedAt := Some(now);
      return Current(state);
    }

    method RecordFailure(error: string, recovery: Recovery, now: Time) returns (reply: Reply)
      modifies this
      ensures (Model(), reply) == Apply(old(Model()), Fail(error, recovery, now))
    {
      if IsTerminal(state) {
        return Current(state);
      }
      if state != Running {
        return Conflict;
      }
      var exhausted := recovery == Terminal || attempts >= maxAttempts;
      state := if exhausted then Failed else Pending;
      lastError := Some(Summary(error));
      if exhausted {
        finishedAt := Some(now);
      }
      return Current(state);
    }

    method RecordCancel(now: Time) returns (reply: Reply)
      modifies this
      ensures (Model(), reply) == Apply(old(Model()), Cancel(now))
    {
      if IsTerminal(state) {
        return CancelReply(false, taskId);
      }
      state := Cancelled;
      finishedAt := Some(now);
      return CancelReply(true, taskId);
    }
  }

  // ---------- every run of the lifecycle ----------

  function RowAfter(maxAttempts: int, ops: seq<Operation>): Row {
    if ops == [] then NewRow(maxAttempts) else Apply(RowAfter(maxAttempts, ops[..|ops| - 1]), ops[|ops| - 1]).0
  }

  predicate IsRetry(row: Row, op: Operation) {
    op.Fail? && row.state == Running && Apply(row, op).0.state == Pending
  }

  predicate RunsProjection(row: Row, op: Operation) {
    op.Succeed? && op.projection.Assigns? && row.state == Running
  }

  // How many failures put the row back to pending, and how many projections were applied.
  function Retries(maxAttempts: int, ops: seq<Operation>): nat {
    if ops == [] then 0
    else
      var earlier, op := ops[..|ops| - 1], ops[|ops| - 1];
      Retries(maxAttempts, earlier) + if IsRetry(RowAfter(maxAttempts, earlier), op) then 1 else 0
  }

  function Projections(maxAttempts: int, ops: seq<Operation>): nat {
    if ops == [] then 0
    else
      var earlier, op := ops[..|ops| - 1], ops[|ops| - 1];
      Projections(maxAttempts, earlier) + if RunsProjection(RowAfter(maxAttempts, earlier), op) then 1 else 0
  }

  ghost predicate Consistent(row: Row) {
    && (row.finishedAt.Some? <==> IsTerminal(row.state))
    && (row.state in {Running, Succeeded, Failed} ==> row.taskId.Some? && row.attempts > 0 && row.startedAt.Some?)
    && (row.result.Some? ==> row.state == Succeeded)
  }

  lemma {:induction false} LifecycleInvariant(maxAttempts: int, ops: seq<Operation>)
    ensures
      var row := RowAfter(maxAttempts, ops);
      var retries, projections := Retries(maxAttempts, ops), Projections(maxAttempts, ops);
      && Consistent(row) && row.maxAttempts == maxAttempts
      && projections == (if row.result.Some? then 1 else 0)
      && (retries == 0 || retries < maxAttempts)
      && retries + (if row.state == Running then 1 else 0) <= row.attempts
  {
    if ops != [] {
      LifecycleInvariant(maxAttempts, ops[..|ops| - 1]);
    }
  }

  lemma {:induction false} RowAfterMore(maxAttempts: int, ops: seq<Operation>, op: Operation)
    ensures RowAfter(maxAttempts, ops + [op]) == Apply(RowAfter(maxAttempts, ops), op).0
  {
    assert (ops + [op])[..|ops + [op]| - 1] == ops;
  }

  // A failure puts the row back exactly when it asks for a retry and the budget is not used up.
  lemma {:induction false} RetriedExactly(row: Row, op: Operation)
    ensures IsRetry(row, op) <==>
              op.Fail? && op.recovery == Retry && row.state == Running && row.attempts < row.maxAttempts
    ensures op.Fail? && row.state == Running ==>
              var row' := Apply(row, op).0;
              row'.lastError == Some(Summary(op.error)) && (row'.state == Failed <==> !IsRetry(row, op))
  {
  }

  // What no later operation can undo: a terminal outcome, a binding, the time of the first attempt.
  ghost predicate Keeps(row: Row, row': Row) {
    && (IsTerminal(row.state) ==>
          row' == row.(taskId := row'.taskId) && (row.state != Cancelled ==> row' == row))
    && (row.taskId.Some? ==> row'.taskId == row.taskId)
    && (row.startedAt.Some? ==> row'.startedAt == row.startedAt)
    && row.attempts <= row'.attempts
  }

  lemma {:induction false} ApplyKeeps(row: Row, row': Row, op: Operation)
    requires Consistent(row) && Keeps(row, row')
    ensures Keeps(row, Apply(row', op).0)
  {
  }

  // A run keeps what was settled at any point of it.
  lemma {:induction false} SettledForGood(maxAttempts: int, ops: seq<Operation>, more: seq<Operation>)
    ensures Keeps(RowAfter(maxAttempts, ops), RowAfter(maxAttempts, ops + more))
    decreases |more|
  {
    if more == [] {
      assert ops + more == ops;
    } else {
      var fewer := more[..|more| - 1];
      SettledForGood(maxAttempts, ops, fewer);
      LifecycleInvariant(maxAttempts, ops);
      RowAfterMore(maxAttempts, ops + fewer, more[|more| - 1]);
      ApplyKeeps(RowAfter(maxAttempts, ops), RowAfter(maxAttempts, ops + fewer), more[|more| - 1]);
      assert ops + more == ops + fewer + [more[|more| - 1]];
    }
  }

  ghost predicate BeginIsHarmless(row: Row) {
    IsTerminal(row.state) || row.taskId.None? || row.attempts < row.maxAttempts
  }

  ghost predicate BeginsAreHarmless(maxAttempts: int, ops: seq<Operation>) {
    ops == [] ||
    var earlier, op := ops[..|ops| - 1], ops[|ops| - 1];
    BeginsAreHarmless(maxAttempts, earlier) && (op.BeginAttempt? ==> BeginIsHarmless(RowAfter(maxAttempts, earlier)))
  }

  // A run stays within its budget if and only if every attempt was begun with budget left, or on a row that is
  // terminal or not bound.
  lemma {:induction false} AttemptsWithinBudget(maxAttempts: nat, ops: seq<Operation>)
    ensures RowAfter(maxAttempts, ops).attempts <= maxAttempts <==> BeginsAreHarmless(maxAttempts, ops)
  {
    if ops != [] {
      var earlier := ops[..|ops| - 1];
      AttemptsWithinBudget(maxAttempts, earlier);
      LifecycleInvariant(maxAttempts, earlier);
      BeginWithinBudget(RowAfter(maxAttempts, earlier), ops[|ops| - 1]);
    }
  }

  lemma {:induction false} BeginWithinBudget(row: Row, op: Operation)
    ensures Apply(row, op).0.attempts <= row.maxAttempts <==>
              row.attempts <= row.maxAttempts && (op.BeginAttempt? ==> BeginIsHarmless(row))
  {
  }

  // Beginning an attempt never consults the budget: attempts can pass any bound.
  lemma {:induction false} AttemptsUnbounded(maxAttempts: int, task: TaskId, n: nat)
    ensures
      var row := RowAfter(maxAttempts, [BindTask(task)] + seq(n, _ => BeginAttempt(0)));
      row.attempts == n && !IsTerminal(row.state) && row.taskId.Some?
  {
    var ops := [BindTask(task)] + seq(n, _ => BeginAttempt(0));
    if n == 0 {
      assert ops == [BindTask(task)];
      assert ops[..|ops| - 1] == [];
    } else {
      AttemptsUnbounded(maxAttempts, task, n - 1);
      assert ops[..|ops| - 1] == [BindTask(task)] + seq(n - 1, _ => BeginAttempt(0));
    }
  }
}
