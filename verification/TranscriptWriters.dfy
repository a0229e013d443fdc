/** Several writers of one transcript: an append locks the run's row until its transaction ends, so it waits for the
    writer before it and sees what that writer committed. */
module TranscriptWriters {
  import opened Basics
  import opened Transcript
  import opened TranscriptRuns

  type Pid = nat

  // The committed rows, which all see, and for each open transaction the rows it has added, which only it sees.
  datatype Shared = Shared(committed: seq<Row>, open: map<Pid, seq<Row>>, nextId: RowId)

  datatype Action =
    | Append(pid: Pid, host: Host, payload: Payload)
    | Commit(pid: Pid)
    | Abort(pid: Pid)   // an error or a crash ends the transaction

  // What a writer reads and adds to.
  function View(s: Shared, pid: Pid): Db {
    Db(s.committed, s.committed + if pid in s.open then s.open[pid] else [], s.nextId)
  }

  // An open transaction keeps the run's row locked.
  predicate Waits(s: Shared, pid: Pid) {
    exists other :: other in s.open && other != pid
  }

  // A payload that is not admitted, or a run that is gone, is refused before anything is locked.
  predicate Locks(host: Host, payload: Payload) {
    host.admits(payload) && host.ownerAvailable
  }

  // A step that has to wait, or is not that writer's to make, changes nothing.
  function Step(s: Shared, a: Action): Shared {
    match a
    case Append(pid, host, payload) =>
      if !Locks(host, payload) || Waits(s, pid) then s
      else
        var (db, row) := Transcript.Append(View(s, pid), host, payload);
        var own := if pid in s.open then s.open[pid] else [];
        var added := if row.Ok? && db.nextId != s.nextId then [row.value] else [];
        Shared(s.committed, s.open[pid := own + added], db.nextId)
    case Commit(pid) => if pid in s.open then Shared(s.committed + s.open[pid], s.open - {pid}, s.nextId) else s
    case Abort(pid) => s.(open := s.open - {pid})
  }

  function Run(s: Shared, actions: seq<Action>): Shared
    decreases |actions|
  {
    if actions == [] then s else Run(Step(s, actions[0]), actions[1..])
  }

  const INITIALLY := Shared([], map[], 0)

  // At most one transaction is open, and with its rows the transcript is sound.
  ghost predicate Invariant(s: Shared) {
    && (forall p, q :: p in s.open && q in s.open ==> p == q)
    && (forall pid :: Sound(View(s, pid)))
  }

  lemma {:induction false} StepKeeps(s: Shared, a: Action)
    requires Invariant(s)
    ensures Invariant(Step(s, a)) && s.committed <= Step(s, a).committed
  {
    var s' := Step(s, a);
    match a {
      case Append(pid, host, payload) =>
        if Locks(host, payload) && !Waits(s, pid) {
          AppendIsSeenByItsWriter(s, pid, host, payload);
          OthersSeeCommitted(s', pid);
        }
      case Commit(pid) =>
        if pid in s.open {
          assert View(s', pid).working == View(s, pid).working;
          assert Sound(View(s', pid)) by { assert Sound(View(s, pid)); }
          OthersSeeCommitted(s', pid);
        }
      case Abort(pid) =>
        if pid in s.open {
          assert View(s', pid).working == s.committed;
          PrefixSound(View(s, pid), View(s', pid));
          OthersSeeCommitted(s', pid);
        } else {
          assert s.open - {pid} == s.open;
        }
    }
  }

  // A writer that need not wait has its append made on what it sees.
  lemma {:induction false} AppendIsSeenByItsWriter(s: Shared, pid: Pid, host: Host, payload: Payload)
    requires Sound(View(s, pid)) && Locks(host, payload) && !Waits(s, pid)
    ensures
      var s' := Step(s, Append(pid, host, payload));
      && View(s', pid) == Transcript.Append(View(s, pid), host, payload).0 && Sound(View(s', pid))
      && pid in s'.open && s'.committed == s.committed && (forall p :: p in s'.open ==> p == pid)
  {
    AppendKeepsSound(View(s, pid), host, payload);
    AppendIsAdded(s, pid, host, payload);
  }

  lemma {:induction false} AppendIsAdded(s: Shared, pid: Pid, host: Host, payload: Payload)
    requires Locks(host, payload) && !Waits(s, pid)
    ensures
      var s' := Step(s, Append(pid, host, payload));
      && View(s', pid) == Transcript.Append(View(s, pid), host, payload).0
      && pid in s'.open && s'.committed == s.committed && (forall p :: p in s'.open ==> p == pid)
  {
    var (db, row) := Transcript.Append(View(s, pid), host, payload);
    var own := if pid in s.open then s.open[pid] else [];
    if row.Ok? && db.nextId != s.nextId {
      assert (s.committed + own) + [row.value] == s.committed + (own + [row.value]);
    } else {
      assert own + [] == own;
    }
  }

  lemma {:induction false} PrefixSound(db: Db, db': Db)
    requires Sound(db) && db'.working == db.committed == db'.committed && db'.nextId == db.nextId
    ensures Sound(db')
  {
    PrefixWellFormed(db.working, db.committed);
    assert forall i :: 0 <= i < |db'.working| ==> db'.working[i] == db.working[i];
  }

  // With no other transaction open, whoever has none sees the committed rows.
  lemma {:induction false} OthersSeeCommitted(s: Shared, pid: Pid)
    requires Sound(View(s, pid)) && forall other :: other in s.open ==> other == pid
    ensures forall other :: Sound(View(s, other))
  {
    forall other ensures Sound(View(s, other)) {
      if other != pid {
        assert View(s, other).working == s.committed;
        PrefixSound(View(s, pid), View(s, other));
      }
    }
  }

  lemma {:induction false} RunKeeps(s: Shared, actions: seq<Action>)
    requires Invariant(s)
    ensures Invariant(Run(s, actions)) && s.committed <= Run(s, actions).committed
    decreases |actions|
  {
    if actions != [] {
      StepKeeps(s, actions[0]);
      RunKeeps(Step(s, actions[0]), actions[1..]);
    }
  }

  lemma {:induction false} InitiallySound()
    ensures Invariant(INITIALLY)
  {
    forall pid ensures Sound(View(INITIALLY, pid)) {
      assert View(INITIALLY, pid).working == [];
    }
  }

  // Under every interleaving of writers, commits and aborts the committed rows have one row per identity, numbers
  // 1..n, and each result after its call; a committed row stays.
  lemma {:induction false} WritersKeepOneRowPerIdentity(actions: seq<Action>, more: seq<Action>)
    ensures
      var s, s' := Run(INITIALLY, actions), Run(Run(INITIALLY, actions), more);
      WellFormed(s.committed) && s.committed <= s'.committed
  {
    InitiallySound();
    RunKeeps(INITIALLY, actions);
    var s := Run(INITIALLY, actions);
    RunKeeps(s, more);
    assert Sound(View(s, 0));
    PrefixWellFormed(View(s, 0).working, s.committed);
  }

  // What one writer committed, a retry by any writer finds: the same row and no second one.
  lemma {:induction false} RetryFindsCommittedRow(
      actions: seq<Action>, more: seq<Action>, pid: Pid, host: Host, payload: Payload, row: Row)
    requires row in Run(INITIALLY, actions).committed && row.payload == payload && Locks(host, payload)
    ensures
      var db := View(Run(Run(INITIALLY, actions), more), pid);
      Transcript.Append(db, host, payload) == (db, Ok(row))
  {
    InitiallySound();
    RunKeeps(INITIALLY, actions);
    RunKeeps(Run(INITIALLY, actions), more);
    var db := View(Run(Run(INITIALLY, actions), more), pid);
    assert Sound(db);
    var i :| 0 <= i < |db.working| && db.working[i] == row;
    assert RowDecodes(db.working[i]);
    if payload.ResultPayload? {
      assert CallBefore(db.working, i);
    }
    SecondAppend(db, host, payload, row);
  }

  // A writer that need not wait gets its append made, and its commit shows the row to all.
  lemma {:induction false} CommittedRowIsSeen(s: Shared, pid: Pid, host: Host, payload: Payload)
    requires Invariant(s) && Locks(host, payload) && !Waits(s, pid)
    requires Transcript.Append(View(s, pid), host, payload).1.Ok?
    ensures
      var s' := Step(Step(s, Append(pid, host, payload)), Commit(pid));
      Transcript.Append(View(s, pid), host, payload).1.value in s'.committed && !Waits(s', pid)
  {
    AppendKeepsSound(View(s, pid), host, payload);
    AppendIsSeenByItsWriter(s, pid, host, payload);
  }

  // Why the lock is needed: two writers that both looked before either committed would insert the identity twice.
  lemma {:induction false} LookupWithoutLockDuplicates(db: Db, host: Host, payload: Payload)
    requires Sound(db) && Locks(host, payload)
    requires payload.ResultPayload? ==> HasRow(db.working, CallKind, CorrelationOf(payload))
    requires !HasRow(db.working, KindOf(payload), CorrelationOf(payload))
    ensures
      var (first, row) := Transcript.Append(db, host, payload);
      var (second, row') := Transcript.Append(db.(nextId := first.nextId), host, payload);
      && row.Ok? && row'.Ok? && row.value.id != row'.value.id
      && !OneRowPerIdentity(db.working + [row.value] + [row'.value])
  {
    assert Find(db.working, KindOf(payload), CorrelationOf(payload)).None?;
    assert payload.ResultPayload? ==> Find(db.working, CallKind, CorrelationOf(payload)).Some?;
    var n, rows := |db.working|, db.working + [Transcript.Append(db, host, payload).1.value];
    var twice := rows + [Transcript.Append(db.(nextId := db.nextId + 1), host, payload).1.value];
    assert twice[n].kind == twice[n + 1].kind && twice[n].correlation == twice[n + 1].correlation;
  }
}
