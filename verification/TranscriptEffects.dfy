/** What recording leaves in a transcript: which rows, in which order, and what the bridge then knows. */
module TranscriptEffects {
  import opened Basics
  import opened Transcript
  import opened TranscriptRuns

  // ---------- one response ----------

  // What a response asks to record: its text, if it has any, and its first n calls.
  function Asked(response: Response, calls: seq<ToolCall>, n: nat): (payloads: seq<Payload>)
    requires n <= |calls|
  {
    (if response.text == "" then [] else [AssistantText(response.text, response.id)])
    + seq(n, i requires 0 <= i < n => CallPayload(calls[i], response.id))
  }

  function PayloadsOf(rows: seq<Row>): (payloads: seq<Payload>) {
    seq(|rows|, i requires 0 <= i < |rows| => rows[i].payload)
  }

  predicate Same(p: Payload, q: Payload) {
    KindOf(p) == KindOf(q) && CorrelationOf(p) == CorrelationOf(q)
  }

  ghost predicate Known(payloads: seq<Payload>, p: Payload) {
    exists i :: 0 <= i < |payloads| && Same(payloads[i], p)
  }

  // The transcript after these payloads: each joins it unless its identity is there already.
  ghost function Joined(recorded: seq<Payload>, asked: seq<Payload>): seq<Payload> {
    if asked == [] then recorded
    else
      var earlier, p := Joined(recorded, asked[..|asked| - 1]), asked[|asked| - 1];
      if Known(earlier, p) then earlier else earlier + [p]
  }

  // Nothing recorded, nor asked earlier, has the identity of an asked payload with other content.
  ghost predicate Recordable(recorded: seq<Payload>, asked: seq<Payload>, host: Host) {
    && (forall p :: p in asked ==> host.admits(p) && host.ownerAvailable)
    && (forall p, q :: p in asked && q in recorded && Same(p, q) ==> p == q)
    && (forall p, q :: p in asked && q in asked && Same(p, q) ==> p == q)
  }

  lemma {:induction false} SameIsIdentity(rows: seq<Row>, i: nat, p: Payload)
    requires AllDecode(rows) && i < |rows|
    ensures Same(rows[i].payload, p) <==> SameIdentity(rows[i], p)
  {
    assert RowDecodes(rows[i]);
  }

  lemma {:induction false} AppendJoins(db: Db, host: Host, p: Payload)
    requires Sound(db) && !p.ResultPayload?
    ensures
      var (db', row) := Append(db, host, p);
      && Sound(db') && db'.committed == db.committed
      && (row.Ok? <==> host.admits(p) && host.ownerAvailable
                       && forall q :: q in PayloadsOf(db.working) && Same(q, p) ==> q == p)
      && (row.Ok? ==> PayloadsOf(db'.working) == Joined(PayloadsOf(db.working), [p]))
      && (row.Err? ==> db' == db)
  {
    var (db', row) := Append(db, host, p);
    AppendKeepsSound(db, host, p);
    AppendSucceedsExactly(db, host, p);
    var payloads := PayloadsOf(db.working);
    forall i | 0 <= i < |db.working| ensures Same(db.working[i].payload, p) <==> SameIdentity(db.working[i], p) {
      SameIsIdentity(db.working, i, p);
    }
    assert forall i :: 0 <= i < |db.working| ==> payloads[i] == db.working[i].payload;
    if forall q :: q in payloads && Same(q, p) ==> q == p {
      forall i | 0 <= i < |db.working| && SameIdentity(db.working[i], p) ensures db.working[i].payload == p {
        assert payloads[i] in payloads;
      }
    }
    if row.Ok? {
      AppendAddsOnce(db, host, p);
    }
  }

  lemma {:induction false} AppendAddsOnce(db: Db, host: Host, p: Payload)
    requires Sound(db) && Append(db, host, p).1.Ok?
    ensures PayloadsOf(Append(db, host, p).0.working) == Joined(PayloadsOf(db.working), [p])
  {
    var payloads, db' := PayloadsOf(db.working), Append(db, host, p).0;
    JoinedLast(payloads, [], p);
    assert [] + [p] == [p] && Joined(payloads, []) == payloads;
    var found := Find(db.working, KindOf(p), CorrelationOf(p));
    if found.Some? {
      var i :| 0 <= i < |db.working| && db.working[i] == found.value;
      SameIsIdentity(db.working, i, p);
      assert Same(payloads[i], p);
    } else {
      forall i | 0 <= i < |payloads| ensures !Same(payloads[i], p) {
        SameIsIdentity(db.working, i, p);
      }
      assert PayloadsOf(db'.working) == payloads + [p];
    }
  }

  lemma {:induction false} JoinedMembers(recorded: seq<Payload>, asked: seq<Payload>, host: Host)
    requires Recordable(recorded, asked, host)
    ensures forall p :: p in Joined(recorded, asked) <==> p in recorded || p in asked
    ensures recorded <= Joined(recorded, asked)
  {
    if asked != [] {
      var n := |asked| - 1;
      var earlier, last := asked[..n], asked[n];
      assert asked == earlier + [last];
      RecordablePrefix(recorded, earlier, last, host);
      JoinedMembers(recorded, earlier, host);
      var joined := Joined(recorded, earlier);
      if Known(joined, last) {
        var i :| 0 <= i < |joined| && Same(joined[i], last);
        assert joined[i] in joined;
        assert Same(last, joined[i]);
      }
    }
  }

  // What a recordable sequence may be followed by.
  ghost predicate Fits(joined: seq<Payload>, p: Payload, host: Host) {
    host.admits(p) && host.ownerAvailable && forall q :: q in joined && Same(q, p) ==> q == p
  }

  lemma {:induction false} RecordableLast(recorded: seq<Payload>, earlier: seq<Payload>, last: Payload, host: Host)
    requires Recordable(recorded, earlier, host)
    ensures Recordable(recorded, earlier + [last], host) <==> Fits(Joined(recorded, earlier), last, host)
  {
    JoinedMembers(recorded, earlier, host);
    assert (earlier + [last])[|earlier|] == last;
    if Recordable(recorded, earlier + [last], host) {
      assert last in earlier + [last] && host.admits(last) && host.ownerAvailable;
      forall q | q in Joined(recorded, earlier) && Same(q, last) ensures q == last {
        assert Same(last, q);
      }
    }
    if Fits(Joined(recorded, earlier), last, host) {
      FitsMeansRecordable(recorded, earlier, last, host);
    }
  }

  lemma {:induction false} FitsMeansRecordable(recorded: seq<Payload>, earlier: seq<Payload>, last: Payload, host: Host)
    requires Recordable(recorded, earlier, host)
    requires host.admits(last) && host.ownerAvailable
    requires forall q :: (q in recorded || q in earlier) && Same(q, last) ==> q == last
    ensures Recordable(recorded, earlier + [last], host)
  {
    forall p, q | p in earlier + [last] && (q in recorded || q in earlier + [last]) && Same(p, q) ensures p == q {
      assert Same(q, p);
    }
  }

  lemma {:induction false} RecordablePrefix(recorded: seq<Payload>, earlier: seq<Payload>, last: Payload, host: Host)
    requires Recordable(recorded, earlier + [last], host)
    ensures Recordable(recorded, earlier, host)
  {
    var asked := earlier + [last];
    forall p | p in earlier ensures p in asked {}
    forall p | p in earlier ensures host.admits(p) && host.ownerAvailable {
      assert p in asked;
    }
    forall p, q | p in earlier && (q in recorded || q in earlier) && Same(p, q) ensures p == q {
      assert p in asked && (q in recorded || q in asked);
    }
  }

  // A response has been taken down up to a point of what it asks for.
  ghost predicate TakenDown(db: Db, db': Db, asked: seq<Payload>, host: Host, ok: bool) {
    && Sound(db') && db'.committed == db.committed
    && (ok <==> Recordable(PayloadsOf(db.working), asked, host))
    && (ok ==> PayloadsOf(db'.working) == Joined(PayloadsOf(db.working), asked))
  }

  lemma {:induction false} TakenDownNext(db: Db, db1: Db, earlier: seq<Payload>, last: Payload, host: Host)
    requires !last.ResultPayload? && TakenDown(db, db1, earlier, host, true)
    ensures
      var (db2, row) := Append(db1, host, last);
      TakenDown(db, db2, earlier + [last], host, row.Ok?)
  {
    var recorded := PayloadsOf(db.working);
    var joined := Joined(recorded, earlier);
    AppendJoins(db1, host, last);
    RecordableLast(recorded, earlier, last, host);
    JoinedLast(recorded, earlier, last);
    if Recordable(recorded, earlier + [last], host) {
      assert forall q :: q in joined && Same(q, last) ==> q == last;
    }
  }

  lemma {:induction false} TakenDownStops(db: Db, db1: Db, earlier: seq<Payload>, last: Payload, host: Host)
    requires TakenDown(db, db1, earlier, host, false)
    ensures TakenDown(db, db1, earlier + [last], host, false)
  {
    if Recordable(PayloadsOf(db.working), earlier + [last], host) {
      RecordablePrefix(PayloadsOf(db.working), earlier, last, host);
    }
  }

  lemma {:induction false} JoinedLast(recorded: seq<Payload>, earlier: seq<Payload>, last: Payload)
    ensures Joined(Joined(recorded, earlier), [last]) == Joined(recorded, earlier + [last])
  {
    assert [last][..0] == [];
    assert (earlier + [last])[..|earlier|] == earlier;
    assert Joined(Joined(recorded, earlier), []) == Joined(recorded, earlier);
  }

  lemma {:induction false} TextTakenDown(db: Db, host: Host, response: Response, calls: seq<ToolCall>)
    requires Sound(db)
    ensures
      var (db1, error) := AppendText(db, host, response);
      TakenDown(db, db1, Asked(response, calls, 0), host, error.None?)
  {
    var asked := Asked(response, calls, 0);
    if response.text == "" {
      assert asked == [];
    } else {
      assert asked == [] + [AssistantText(response.text, response.id)];
      TakenDownNext(db, db, [], AssistantText(response.text, response.id), host);
    }
  }

  lemma {:induction false} AskedNext(response: Response, calls: seq<ToolCall>, n: nat)
    requires 0 < n <= |calls|
    ensures Asked(response, calls, n) == Asked(response, calls, n - 1) + [CallPayload(calls[n - 1], response.id)]
  {
  }

  ghost function IdsOfFirst(calls: seq<ToolCall>, n: nat): set<string>
    requires n <= |calls|
  {
    set i | 0 <= i < n :: calls[i].id
  }

  lemma {:induction false} IdsNext(calls: seq<ToolCall>, n: nat)
    requires 0 < n <= |calls|
    ensures IdsOfFirst(calls, n) == IdsOfFirst(calls, n - 1) + {calls[n - 1].id}
  {
  }

  lemma {:induction false} CallsTakenDown(db: Db, host: Host, response: Response, calls: seq<ToolCall>, n: nat)
    requires Sound(db) && n <= |calls| && AppendText(db, host, response).1.None?
    ensures
      var (db2, ids) := AppendCalls(AppendText(db, host, response).0, host, response.id, calls, n);
      && TakenDown(db, db2, Asked(response, calls, n), host, ids.Ok?)
      && (ids.Ok? ==> ids.value.Keys == IdsOfFirst(calls, n))
  {
    if n == 0 {
      TextTakenDown(db, host, response, calls);
    } else {
      var start := AppendText(db, host, response).0;
      var (db1, ids) := AppendCalls(start, host, response.id, calls, n - 1);
      CallsTakenDown(db, host, response, calls, n - 1);
      CallTakenDown(db, db1, ids, host, response, calls, n);
    }
  }

  lemma {:induction false} CallTakenDown(
      db: Db, db1: Db, ids: Result<map<string, RowId>>, host: Host, response: Response, calls: seq<ToolCall>, n: nat)
    requires 0 < n <= |calls| && TakenDown(db, db1, Asked(response, calls, n - 1), host, ids.Ok?)
    requires ids.Ok? ==> ids.value.Keys == IdsOfFirst(calls, n - 1)
    ensures
      var call := calls[n - 1];
      var (db2, row) := Append(db1, host, CallPayload(call, response.id));
      && (ids.Err? ==> TakenDown(db, db1, Asked(response, calls, n), host, false))
      && (ids.Ok? ==>
            && TakenDown(db, db2, Asked(response, calls, n), host, row.Ok?)
            && (row.Ok? ==> ids.value[call.id := row.value.id].Keys == IdsOfFirst(calls, n)))
  {
    var earlier, last := Asked(response, calls, n - 1), CallPayload(calls[n - 1], response.id);
    AskedNext(response, calls, n);
    IdsNext(calls, n);
    if ids.Ok? {
      TakenDownNext(db, db1, earlier, last, host);
    } else {
      TakenDownStops(db, db1, earlier, last, host);
    }
  }

  // A response is recorded exactly if all that it asks for is admitted and contradicts neither the transcript nor
  // itself. Then its text and every one of its calls are committed, in order and once, with nothing else; and the
  // identities returned are those of its calls.
  lemma {:induction false} ResponseRecordedExactly(db: Db, host: Host, response: Response, calls: seq<ToolCall>)
    requires Sound(db)
    ensures
      var (db', ids) := RecordModelResponse(db, host, response, calls);
      var recorded, asked := PayloadsOf(db.working), Asked(response, calls, |calls|);
      && (ids.Ok? <==> Recordable(recorded, asked, host))
      && (ids.Ok? ==>
            && PayloadsOf(db'.committed) == Joined(recorded, asked)
            && (forall p :: p in asked ==> p in PayloadsOf(db'.committed))
            && ids.value.Keys == IdsOfFirst(calls, |calls|))
      && (ids.Err? ==> db'.committed == db.committed)
  {
    var recorded, asked := PayloadsOf(db.working), Asked(response, calls, |calls|);
    TextTakenDown(db, host, response, calls);
    if AppendText(db, host, response).1.None? {
      CallsTakenDown(db, host, response, calls, |calls|);
      if Recordable(recorded, asked, host) {
        JoinedMembers(recorded, asked, host);
      }
    } else {
      var text := Asked(response, calls, 0);
      assert forall p :: p in text ==> p in asked;
      assert Recordable(recorded, asked, host) ==> Recordable(recorded, text, host);
    }
  }

  // ---------- a model turn ----------

  lemma {:induction false} NewCallsJoin(a: seq<ToolCall>, b: seq<ToolCall>, known: map<string, RowId>)
    ensures NewCalls(a + b, known) == NewCalls(a, known) + NewCalls(b, known)
    decreases |a|
  {
    if a == [] {
      assert a + b == b;
    } else {
      assert (a + b)[1..] == a[1..] + b;
      NewCallsJoin(a[1..], b, known);
    }
  }

  // The calls of unknown identity, and no others.
  lemma {:induction false} NewCallsExactly(calls: seq<ToolCall>, known: map<string, RowId>)
    ensures forall c :: c in NewCalls(calls, known) <==> c in calls && c.id !in known
  {
    if calls != [] {
      assert calls == [calls[0]] + calls[1..];
      NewCallsExactly(calls[1..], known);
    }
  }

  // After a turn whose response could be recorded the bridge knows every call of it, by the identity of its committed
  // row; a turn that could not be recorded changes neither the committed rows nor what the bridge knows.
  lemma {:induction false} TurnIsRemembered(actions: seq<Action>, response: Response, calls: seq<ToolCall>, host: Host)
    requires var s := Run(EMPTY, actions); s.bridge.Some? && s.bridge.value.pendingCalls == []
    ensures
      var s := Run(EMPTY, actions);
      var s' := Step(s, ModelTurn(response, calls, host));
      var unseen := NewCalls(calls, s.bridge.value.commandIds);
      && s'.bridge.Some?
      && if unseen == [] then s' == s
         else if Recordable(PayloadsOf(s.db.working), Asked(response, unseen, |unseen|), host) then
           var ids := s'.bridge.value.commandIds;
           && Agrees(s.bridge.value.commandIds, ids)
           && forall i :: 0 <= i < |calls| ==>
                calls[i].id in ids && calls[i].id in CommandIds(s'.db.committed)
                && ids[calls[i].id] == CommandIds(s'.db.committed)[calls[i].id]
         else s'.db.committed == s.db.committed && s'.bridge == s.bridge
  {
    RunKeeps(EMPTY, actions);
    var s := Run(EMPTY, actions);
    var a := ModelTurn(response, calls, host);
    var known := s.bridge.value.commandIds;
    var unseen := NewCalls(calls, known);
    StepKeeps(s, a);
    if unseen != [] {
      ResponseRecordedExactly(s.db, host, response, unseen);
      RecordResponseAdvances(s.db, host, response, unseen);
      AdvancesKeepsBridge(s.db, RecordModelResponse(s.db, host, response, unseen).0, known);
      NewCallsExactly(calls, known);
      var ids := RecordModelResponse(s.db, host, response, unseen).1;
      if ids.Ok? {
        forall i | 0 <= i < |calls| ensures calls[i].id in known || calls[i].id in ids.value {
          if calls[i].id !in known {
            assert calls[i] in unseen;
            var j :| 0 <= j < |unseen| && unseen[j] == calls[i];
          }
        }
      }
    }
  }

  // A crash forgets what was not committed, and the bridge with it.
  lemma {:induction false} CrashForgets(s: System)
    ensures Step(s, Crash) == System(Db(s.db.committed, s.db.committed, s.db.nextId), None)
  {
  }

  lemma {:induction false} ToolDoneResolves(s: System, call: ToolCall, result: ToolResult, host: Host)
    requires Invariant(s) && s.bridge.Some? && Append(s.db, host, ResultPayload(result)).1.Ok?
    requires result.toolCallId == call.id && !IsPause(result)
    ensures call.id in Resolved(Step(s, ToolDone(call, result, host)).db.committed)
  {
    var (db, row) := Append(s.db, host, ResultPayload(result));
    AppendedIsThere(s.db, host, ResultPayload(result));
    ResultRowResolves(db.working, row.value);
    RecordedIsCommitted(s.db, host, call, result);
  }

  lemma {:induction false} AppendedIsThere(db: Db, host: Host, p: Payload)
    requires Sound(db) && Append(db, host, p).1.Ok?
    ensures
      var (db', row) := Append(db, host, p);
      row.value in db'.working && row.value.kind == KindOf(p) && row.value.correlation == CorrelationOf(p)
  {
    AppendKeepsSound(db, host, p);
  }

  lemma {:induction false} RecordedIsCommitted(db: Db, host: Host, call: ToolCall, result: ToolResult)
    requires result.toolCallId == call.id && !IsPause(result) && Append(db, host, ResultPayload(result)).1.Ok?
    ensures RecordToolResult(db, host, call, result).0 == Commit(Append(db, host, ResultPayload(result)).0)
  {
  }

  lemma {:induction false} ResultRowResolves(rows: seq<Row>, row: Row)
    requires row in rows && row.kind == ResultKind
    ensures row.correlation in Resolved(rows)
  {
    var i :| 0 <= i < |rows| && rows[i] == row;
  }

  lemma {:induction false} ResolvedIsNotReemitted(s: System, callId: string)
    requires Invariant(s) && callId in Resolved(s.db.committed)
    ensures Step(s, Restart).bridge.Some? && !IsPendingCall(Step(s, Restart).bridge.value.pendingCalls, callId)
  {
    var rows := s.db.committed;
    PrefixWellFormed(s.db.working, rows);
    ReplayIs(rows);
    if IsPendingCall(Replay(rows).value.pendingCalls, callId) {
      OnlyUnresolvedArePending(rows, callId);
    }
  }

  // A tool that is done, and not paused, is no longer waited for: its result is committed, and no restart re-emits it.
  lemma {:induction false} DoneCallIsResolved(
      actions: seq<Action>, more: seq<Action>, call: ToolCall, result: ToolResult, host: Host)
    requires var s := Run(EMPTY, actions); s.bridge.Some? && Append(s.db, host, ResultPayload(result)).1.Ok?
    requires result.toolCallId == call.id && !IsPause(result)
    ensures
      var s' := Run(Step(Run(EMPTY, actions), ToolDone(call, result, host)), more);
      && call.id in Resolved(s'.db.committed)
      && Step(s', Restart).bridge.Some?
      && !IsPendingCall(Step(s', Restart).bridge.value.pendingCalls, call.id)
  {
    var s, a := Run(EMPTY, actions), ToolDone(call, result, host);
    RunKeeps(EMPTY, actions);
    StepKeeps(s, a);
    ToolDoneResolves(s, call, result, host);
    RunKeeps(Step(s, a), more);
    var s' := Run(Step(s, a), more);
    ResolvedPrefix(Step(s, a).db.committed, s'.db.committed);
    ResolvedIsNotReemitted(s', call.id);
  }

  // After a restart, exactly the committed calls without a result wait to be re-emitted, each with its identity.
  lemma {:induction false} RestartReemits(actions: seq<Action>, row: Row)
    requires row in Run(EMPTY, actions).db.committed && row.payload.CallPayload?
    ensures
      var s := Run(EMPTY, actions);
      var s' := Step(s, Restart);
      && s'.bridge.Some?
      && (IsPendingCall(s'.bridge.value.pendingCalls, row.payload.call.id) <==>
            row.payload.call.id !in Resolved(s.db.committed))
      && row.payload.call.id in s'.bridge.value.commandIds
      && s'.bridge.value.commandIds[row.payload.call.id] == row.id
  {
    RunKeeps(EMPTY, actions);
    var s := Run(EMPTY, actions);
    var rows := s.db.committed;
    PrefixWellFormed(s.db.working, rows);
    ReplayIs(rows);
    CommandIdsAre(rows);
    var i :| 0 <= i < |rows| && rows[i] == row;
    assert RowDecodes(rows[i]);
    ReplayPlaces(rows, i);
    assert RowPlaced(rows, Replay(rows).value, i);
    if IsPendingCall(Replay(rows).value.pendingCalls, row.payload.call.id) {
      OnlyUnresolvedArePending(rows, row.payload.call.id);
    }
  }

  lemma {:induction false} OnlyUnresolvedArePending(rows: seq<Row>, callId: string)
    requires WellFormed(rows) && Replay(rows).Ok? && IsPendingCall(Replay(rows).value.pendingCalls, callId)
    ensures callId !in Resolved(rows)
  {
    ReplayIs(rows);
    var pending := PendingRows(rows, Resolved(rows));
    PendingRowsAt(rows, Resolved(rows), |rows|);
    assert rows[..|rows|] == rows;
    var k :| 0 <= k < |pending| && pending[k].payload.call.id == callId;
    assert pending[k] in pending;
    var i :| 0 <= i < |rows| && rows[i] == pending[k];
    assert RowDecodes(rows[i]);
  }

  // ---------- one result, and replay ----------

  // A result is recorded exactly if it names the call it completes, is no pause, and can be appended.
  lemma {:induction false} ResultRecordedExactly(db: Db, host: Host, call: ToolCall, result: ToolResult)
    requires Sound(db)
    ensures
      var (db', reply) := RecordToolResult(db, host, call, result);
      var paused := true in {result.executionPaused, result.approvalRequest, result.inputRequest,
          result.executionFailed};
      var appended := Append(db, host, ResultPayload(result)).1;
      && (result.toolCallId != call.id ==> reply == Err(ResultMismatch) && db' == db)
      && (result.toolCallId == call.id && paused ==> reply == Ok(None) && db' == db)
      && (result.toolCallId == call.id && !paused && appended.Ok? ==>
            && reply == Ok(Some(appended.value)) && ResultPayload(result) in PayloadsOf(db'.committed))
      && (result.toolCallId == call.id && !paused && appended.Err? ==> reply == Err(appended.error) && db' == db)
  {
    AppendKeepsSound(db, host, ResultPayload(result));
    var (db', row) := Append(db, host, ResultPayload(result));
    if row.Ok? {
      var i :| 0 <= i < |db'.working| && db'.working[i] == row.value;
      assert PayloadsOf(db'.working)[i] == ResultPayload(result);
    }
  }

  // Replay fails exactly on rows that no writer leaves: a result without its call, or a row that does not decode.
  lemma {:induction false} ReplayFailsExactly(rows: seq<Row>)
    ensures Replay(rows) == Err(OrphanResult) <==>
              exists j :: 0 <= j < |rows| && rows[j].kind == ResultKind && !HasRow(rows, CallKind, rows[j].correlation)
    ensures Replay(rows).Ok? <==>
              && (forall j :: 0 <= j < |rows| && rows[j].kind == ResultKind ==>
                    HasRow(rows, CallKind, rows[j].correlation))
              && AllDecode(rows)
  {
    forall c ensures c in Recorded(rows) <==> HasRow(rows, CallKind, c) {}
    assert forall j :: 0 <= j < |rows| && rows[j].kind == ResultKind ==> rows[j].correlation in Resolved(rows);
  }
}
