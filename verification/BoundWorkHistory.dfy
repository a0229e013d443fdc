/** What the history of a row's operations says about the row: which operation decided its outcome, its binding, its
    attempts, and what each reply told the caller. */
module BoundWorkHistory {
  import opened Basics
  import opened BoundWork

  // ---------- the outcome ----------

  // The terminal state an operation gives an open row: any cancel, a success or a final failure of a running one.
  function EndOf(row: Row, op: Operation): Option<DurableState> {
    if op.Cancel? then Some(Cancelled)
    else if op.Succeed? && row.state == Running && op.projection != Raises then Some(Succeeded)
    else if op.Fail? && row.state == Running && (op.recovery == Terminal || row.attempts >= row.maxAttempts)
    then Some(Failed)
    else None
  }

  ghost predicate NoneEnds(maxAttempts: int, ops: seq<Operation>) {
    ops == [] ||
    var earlier := ops[..|ops| - 1];
    NoneEnds(maxAttempts, earlier) && EndOf(RowAfter(maxAttempts, earlier), ops[|ops| - 1]).None?
  }

  // The k-th operation is the first that ends the row.
  ghost predicate Decides(maxAttempts: int, ops: seq<Operation>, k: nat) {
    && k < |ops| && NoneEnds(maxAttempts, ops[..k])
    && EndOf(RowAfter(maxAttempts, ops[..k]), ops[k]).Some?
  }

  // What the deciding operation records, on the row it found.
  ghost predicate Recorded(row: Row, before: Row, op: Operation) {
    match op
    case Cancel(now) =>
      && row.state == Cancelled && row.finishedAt == Some(now)
      && row.lastError == before.lastError && row.result == before.result
    case Succeed(projection, now) =>
      && row.state == Succeeded && row.finishedAt == Some(now) && row.lastError == None
      && row.result == (if projection.Assigns? then Some(projection.result) else before.result)
    case Fail(error, _, now) =>
      && row.state == Failed && row.finishedAt == Some(now)
      && row.lastError == Some(Summary(error)) && row.result == before.result
    case _ => false
  }

  lemma {:induction false} EndTakesEffect(row: Row, op: Operation)
    requires !IsTerminal(row.state)
    ensures
      var row' := Apply(row, op).0;
      if EndOf(row, op).None? then !IsTerminal(row'.state) && row'.finishedAt == row.finishedAt
      else Recorded(row', row, op) && row'.state == EndOf(row, op).value
  {
  }

  lemma {:induction false} RecordedStays(row: Row, before: Row, op: Operation, later: Operation)
    requires Recorded(row, before, op)
    ensures Recorded(Apply(row, later).0, before, op)
  {
  }

  // Over every run the row is open exactly as long as no operation has ended it.
  lemma {:induction false} OpenUntilEnded(maxAttempts: int, ops: seq<Operation>)
    ensures !IsTerminal(RowAfter(maxAttempts, ops).state) <==> NoneEnds(maxAttempts, ops)
  {
    if ops != [] {
      var earlier, op := ops[..|ops| - 1], ops[|ops| - 1];
      var before := RowAfter(maxAttempts, earlier);
      OpenUntilEnded(maxAttempts, earlier);
      if IsTerminal(before.state) {
        TerminalStays(before, op);
      } else {
        EndTakesEffect(before, op);
      }
    }
  }

  // The first operation that ends the row decides its outcome for good. So the row is cancelled if and only if a
  // cancel came before any success or final failure.
  lemma {:induction false} FirstEndDecides(maxAttempts: int, ops: seq<Operation>, k: nat)
    requires Decides(maxAttempts, ops, k)
    ensures Recorded(RowAfter(maxAttempts, ops), RowAfter(maxAttempts, ops[..k]), ops[k])
  {
    var n := |ops| - 1;
    if k < n {
      assert ops[..n][..k] == ops[..k];
      FirstEndDecides(maxAttempts, ops[..n], k);
      RecordedStays(RowAfter(maxAttempts, ops[..n]), RowAfter(maxAttempts, ops[..k]), ops[k], ops[n]);
    } else {
      OpenUntilEnded(maxAttempts, ops[..n]);
      EndTakesEffect(RowAfter(maxAttempts, ops[..n]), ops[n]);
    }
  }

  // Some operation decides every row that is not open.
  lemma {:induction false} EndedRowWasDecided(maxAttempts: int, ops: seq<Operation>) returns (k: nat)
    requires IsTerminal(RowAfter(maxAttempts, ops).state)
    ensures Decides(maxAttempts, ops, k)
  {
    var n := |ops| - 1;
    OpenUntilEnded(maxAttempts, ops);
    OpenUntilEnded(maxAttempts, ops[..n]);
    if IsTerminal(RowAfter(maxAttempts, ops[..n]).state) {
      k := EndedRowWasDecided(maxAttempts, ops[..n]);
      assert ops[..n][..k] == ops[..k];
    } else {
      k := n;
    }
  }

  lemma {:induction false} TerminalStays(row: Row, op: Operation)
    requires IsTerminal(row.state)
    ensures Apply(row, op).0.state == row.state
  {
  }

  // ---------- binding and attempts ----------

  function FirstBinding(ops: seq<Operation>): Option<TaskId> {
    if ops == [] then None
    else
      var earlier := FirstBinding(ops[..|ops| - 1]);
      if earlier.None? && ops[|ops| - 1].BindTask? then Some(ops[|ops| - 1].task) else earlier
  }

  // A row is bound to the first task anyone binds to it.
  lemma {:induction false} FirstBindingWins(maxAttempts: int, ops: seq<Operation>)
    ensures RowAfter(maxAttempts, ops).taskId == FirstBinding(ops)
  {
    if ops != [] {
      FirstBindingWins(maxAttempts, ops[..|ops| - 1]);
      LifecycleInvariant(maxAttempts, ops[..|ops| - 1]);
    }
  }

  predicate StartsAttempt(row: Row, op: Operation) {
    op.BeginAttempt? && !IsTerminal(row.state) && row.taskId.Some?
  }

  // The times at which attempts began.
  function Attempts(maxAttempts: int, ops: seq<Operation>): seq<Time> {
    if ops == [] then []
    else
      var earlier, op := ops[..|ops| - 1], ops[|ops| - 1];
      Attempts(maxAttempts, earlier) + if StartsAttempt(RowAfter(maxAttempts, earlier), op) then [op.now] else []
  }

  // The row counts every attempt begun on it while it was bound and open, and keeps the time of the first.
  lemma {:induction false} AttemptsAreCounted(maxAttempts: int, ops: seq<Operation>)
    ensures
      var row, attempts := RowAfter(maxAttempts, ops), Attempts(maxAttempts, ops);
      && row.attempts == |attempts|
      && row.startedAt == if attempts == [] then None else Some(attempts[0])
  {
    if ops != [] {
      AttemptsAreCounted(maxAttempts, ops[..|ops| - 1]);
    }
  }

  // An open row is running from the beginning of an attempt until that attempt ends or is put back.
  lemma {:induction false} RunningExactly(row: Row, op: Operation)
    requires EndOf(row, op).None? || IsTerminal(row.state)
    ensures Apply(row, op).0.state == Running <==>
              StartsAttempt(row, op) || (row.state == Running && !IsRetry(row, op))
    ensures !IsTerminal(row.state) ==> !IsTerminal(Apply(row, op).0.state)
  {
  }

  // ---------- replies ----------

  // A reply tells the caller what has become of the row.
  lemma {:induction false} RepliesTellEffects(row: Row, op: Operation)
    requires Consistent(row)
    ensures
      var (row', reply) := Apply(row, op);
      match reply
      case Current(state) => (op.BeginAttempt? || op.Succeed? || op.Fail?) && state == row'.state
      case Bound(first, cancellationPending) =>
        && op.BindTask? && row'.taskId == Some(op.task)
        && (first <==> row.taskId.None?) && (cancellationPending <==> row'.state == Cancelled)
      case CancelReply(cancelled, task) =>
        && op.Cancel? && task == row'.taskId && IsTerminal(row'.state)
        && (cancelled <==> !IsTerminal(row.state))
      case BindingPending => op.BeginAttempt? && row' == row && row.taskId.None? && !IsTerminal(row.state)
      case Conflict =>
        && row' == row
        && ((op.BindTask? && row.taskId.Some? && row.taskId != Some(op.task)) || (op.Fail? && row.state == Pending))
      case ProjectionRaised => op.Succeed? && op.projection == Raises && row.state == Running && row' == row
  {
  }

  lemma {:induction false} SummaryKeepsTheStart(error: string)
    ensures Summary(error) <= error
    ensures |Summary(error)| == if |error| < FAILURE_SUMMARY_MAX_CHARACTERS then |error|
              else FAILURE_SUMMARY_MAX_CHARACTERS
  {
  }
}
