/** Replay of a transcript, and runs with crashes, pauses and re-emitted calls. */
module TranscriptRuns {
  import opened Basics
  import opened Transcript

  // ---------- replay splits the rows ----------

  function PendingCount(rows: seq<Row>, resolved: set<string>, n: nat): (c: nat)
    requires n <= |rows|
    ensures c <= n
  {
    if n == 0 then 0 else PendingCount(rows, resolved, n - 1) + if IsPending(rows[n - 1], resolved) then 1 else 0
  }

  lemma {:induction false} PendingCountGrows(rows: seq<Row>, resolved: set<string>, i: nat, j: nat)
    requires i <= j <= |rows|
    ensures
      var c := PendingCount(rows, resolved, i);
      c <= PendingCount(rows, resolved, j) <= c + (j - i)
    decreases j
  {
    if i < j {
      PendingCountGrows(rows, resolved, i, j - 1);
    }
  }

  lemma {:induction false} PendingRowsAt(rows: seq<Row>, resolved: set<string>, n: nat)
    requires n <= |rows|
    ensures
      var pending := PendingRows(rows[..n], resolved);
      && |pending| == PendingCount(rows, resolved, n)
      && (forall i :: 0 <= i < n && IsPending(rows[i], resolved) ==>
            PendingCount(rows, resolved, i) < |pending| && pending[PendingCount(rows, resolved, i)] == rows[i])
      && (forall r :: r in pending ==> r in rows && IsPending(r, resolved))
  {
    if n > 0 {
      assert rows[..n][..n - 1] == rows[..n - 1];
      PendingRowsAt(rows, resolved, n - 1);
    } else {
      assert rows[..n] == [];
    }
  }

  lemma {:induction false} MessageAt(rows: seq<Row>, resolved: set<string>, pendingIds: set<RowId>, n: nat, i: nat)
    requires i < n <= |rows| || i == n == 0
    requires forall i :: 0 <= i < |rows| ==> (rows[i].id in pendingIds <==> IsPending(rows[i], resolved))
    ensures |Messages(rows[..n], pendingIds)| == n - PendingCount(rows, resolved, n)
    ensures i < n && !IsPending(rows[i], resolved) ==>
              && 0 <= i - PendingCount(rows, resolved, i) < |Messages(rows[..n], pendingIds)|
              && Messages(rows[..n], pendingIds)[i - PendingCount(rows, resolved, i)] == MessageOf(rows[i])
  {
    if n > 0 {
      assert rows[..n][..n - 1] == rows[..n - 1];
      assert rows[..n][n - 1] == rows[n - 1];
      MessageAt(rows, resolved, pendingIds, n - 1, if i < n - 1 then i else if n == 1 then 0 else n - 2);
    } else {
      assert rows[..n] == [];
    }
  }

  // The row that the k-th message was made from.
  lemma {:induction false} MessageSource(rows: seq<Row>, resolved: set<string>, n: nat, k: nat) returns (i: nat)
    requires n <= |rows| && k < n - PendingCount(rows, resolved, n)
    ensures i < n && !IsPending(rows[i], resolved) && k == i - PendingCount(rows, resolved, i)
  {
    if k == n - 1 - PendingCount(rows, resolved, n - 1) {
      i := n - 1;
    } else {
      i := MessageSource(rows, resolved, n - 1, k);
    }
  }

  function IdsOf(rows: seq<Row>): set<RowId> {
    set i | 0 <= i < |rows| :: rows[i].id
  }

  lemma {:induction false} PendingIdsExact(rows: seq<Row>, resolved: set<string>)
    requires UniqueIds(rows)
    ensures forall i :: 0 <= i < |rows| ==>
              (rows[i].id in IdsOf(PendingRows(rows, resolved)) <==> IsPending(rows[i], resolved))
  {
    PendingRowsAt(rows, resolved, |rows|);
    assert rows[..|rows|] == rows;
    var pending := PendingRows(rows, resolved);
    forall i | 0 <= i < |rows| ensures rows[i].id in IdsOf(pending) <==> IsPending(rows[i], resolved) {
      if rows[i].id in IdsOf(pending) {
        var k :| 0 <= k < |pending| && pending[k].id == rows[i].id;
        assert pending[k] in pending;
        SameIdSameRow(rows, i, pending[k]);
      }
      if IsPending(rows[i], resolved) {
        assert pending[PendingCount(rows, resolved, i)] == rows[i];
      }
    }
  }

  lemma {:induction false} SameIdSameRow(rows: seq<Row>, i: nat, row: Row)
    requires UniqueIds(rows) && i < |rows| && row in rows && row.id == rows[i].id
    ensures row == rows[i]
  {
    var j :| 0 <= j < |rows| && rows[j] == row;
  }

  lemma {:induction false} NoOrphans(rows: seq<Row>)
    requires ResultsFollowCalls(rows)
    ensures Resolved(rows) <= Recorded(rows)
  {
    forall c | c in Resolved(rows) ensures c in Recorded(rows) {
      var j :| 0 <= j < |rows| && rows[j].kind == ResultKind && rows[j].correlation == c;
      assert CallBefore(rows, j);
    }
  }

  lemma {:induction false} ReplayIs(rows: seq<Row>)
    requires ResultsFollowCalls(rows) && AllDecode(rows)
    ensures
      var pending := PendingRows(rows, Resolved(rows));
      && (forall i :: 0 <= i < |pending| ==> pending[i].payload.CallPayload?)
      && Replay(rows) == Ok(Replayed(Messages(rows, IdsOf(pending)), CallsOf(pending), CommandIds(rows)))
  {
    NoOrphans(rows);
    PendingRowsDecode(rows, Resolved(rows));
  }

  // The messages of a replay that does not fail.
  function MessagesOf(rows: seq<Row>): seq<Message> {
    Messages(rows, IdsOf(PendingRows(rows, Resolved(rows))))
  }

  lemma {:induction false} MessagePlace(rows: seq<Row>, j: nat)
    requires UniqueIds(rows) && j < |rows|
    ensures |MessagesOf(rows)| == |rows| - PendingCount(rows, Resolved(rows), |rows|)
    ensures !IsPending(rows[j], Resolved(rows)) ==>
              var m := j - PendingCount(rows, Resolved(rows), j);
              0 <= m < |MessagesOf(rows)| && MessagesOf(rows)[m] == MessageOf(rows[j])
  {
    PendingIdsExact(rows, Resolved(rows));
    MessageAt(rows, Resolved(rows), IdsOf(PendingRows(rows, Resolved(rows))), |rows|, j);
    assert rows[..|rows|] == rows;
  }

  // Where the i-th row goes: its place among the pending calls, or among the messages.
  ghost predicate RowPlaced(rows: seq<Row>, r: Replayed, i: nat)
    requires i < |rows|
  {
    var p := PendingCount(rows, Resolved(rows), i);
    if IsPending(rows[i], Resolved(rows))
    then p < |r.pendingCalls| && rows[i].payload.CallPayload? && r.pendingCalls[p] == rows[i].payload.call
    else 0 <= i - p < |r.messages| && Tells(r.messages[i - p], rows[i])
  }

  // A message says what its row holds, under the row's id.
  ghost predicate Tells(m: Message, row: Row) {
    && m.id == row.id
    && match m
       case TextMessage(_, text) => row.payload.AssistantText? && row.payload.text == text
       case CallMessage(_, call) => row.payload.CallPayload? && row.payload.call == call
       case ResultMessage(_, result) => row.payload == ResultPayload(result)
  }

  lemma {:induction false} ReplayPlaces(rows: seq<Row>, i: nat)
    requires WellFormed(rows) && i < |rows|
    ensures Replay(rows).Ok? && RowPlaced(rows, Replay(rows).value, i)
    ensures |Replay(rows).value.messages| == |rows| - PendingCount(rows, Resolved(rows), |rows|)
    ensures |Replay(rows).value.pendingCalls| == PendingCount(rows, Resolved(rows), |rows|)
  {
    ReplayIs(rows);
    PendingRowsAt(rows, Resolved(rows), |rows|);
    MessagePlace(rows, i);
    assert rows[..|rows|] == rows;
    assert RowDecodes(rows[i]);
  }

  // Replaying a well-formed transcript never fails, and splits the rows, in order, into the
  // calls without a result and one message for every other row.
  lemma {:induction false} ReplaySplits(rows: seq<Row>)
    requires WellFormed(rows)
    ensures Replay(rows).Ok?
    ensures |Replay(rows).value.messages| + |Replay(rows).value.pendingCalls| == |rows|
    ensures forall i :: 0 <= i < |rows| ==> RowPlaced(rows, Replay(rows).value, i)
  {
    ReplayIs(rows);
    forall i | 0 <= i < |rows| ensures RowPlaced(rows, Replay(rows).value, i) {
      ReplayPlaces(rows, i);
    }
    if |rows| > 0 {
      ReplayPlaces(rows, 0);
    }
  }

  lemma {:induction false} MessageRow(rows: seq<Row>, k: nat) returns (i: nat)
    requires UniqueIds(rows) && k < |MessagesOf(rows)|
    ensures i < |rows| && !IsPending(rows[i], Resolved(rows)) && k == i - PendingCount(rows, Resolved(rows), i)
    ensures MessagesOf(rows)[k] == MessageOf(rows[i])
  {
    assert rows != [];
    MessagePlace(rows, 0);
    i := MessageSource(rows, Resolved(rows), |rows|, k);
    MessagePlace(rows, i);
  }

  lemma {:induction false} ResultMessageOf(rows: seq<Row>, i: nat, k: nat) returns (m: nat)
    requires WellFormed(rows) && i < |rows| && rows[i].payload.CallPayload?
    requires !IsPending(rows[i], Resolved(rows)) && k == i - PendingCount(rows, Resolved(rows), i)
    ensures k < m < |MessagesOf(rows)| && MessagesOf(rows)[m].ResultMessage?
    ensures MessagesOf(rows)[m].result.toolCallId == rows[i].payload.call.id
  {
    var j := ResultRowOf(rows, i);
    m := MessageAfter(rows, i, j);
  }

  lemma {:induction false} MessageAfter(rows: seq<Row>, i: nat, j: nat) returns (m: nat)
    requires UniqueIds(rows) && i < j < |rows|
    requires !IsPending(rows[i], Resolved(rows)) && !IsPending(rows[j], Resolved(rows))
    ensures i - PendingCount(rows, Resolved(rows), i) < m < |MessagesOf(rows)|
    ensures MessagesOf(rows)[m] == MessageOf(rows[j])
  {
    MessagePlace(rows, j);
    LaterPlace(rows, Resolved(rows), i, j);
    m := j - PendingCount(rows, Resolved(rows), j);
  }

  lemma {:induction false} LaterPlace(rows: seq<Row>, resolved: set<string>, i: nat, j: nat)
    requires i < j < |rows| && !IsPending(rows[i], resolved)
    ensures i - PendingCount(rows, resolved, i) < j - PendingCount(rows, resolved, j)
  {
    PendingCountGrows(rows, resolved, i + 1, j);
  }

  // Every replayed call message is followed by the message with its result.
  lemma {:induction false} CallsAreFollowedByResults(rows: seq<Row>, k: nat) returns (m: nat)
    requires WellFormed(rows) && Replay(rows).Ok?
    requires k < |Replay(rows).value.messages| && Replay(rows).value.messages[k].CallMessage?
    ensures
      var messages := Replay(rows).value.messages;
      k < m < |messages| && messages[m].ResultMessage? && messages[m].result.toolCallId == messages[k].call.id
  {
    ReplayIs(rows);
    var i := MessageRow(rows, k);
    m := ResultMessageOf(rows, i, k);
  }

  lemma {:induction false} ResultRowOf(rows: seq<Row>, i: nat) returns (j: nat)
    requires WellFormed(rows) && i < |rows|
    requires rows[i].payload.CallPayload? && !IsPending(rows[i], Resolved(rows))
    ensures
      && i < j < |rows| && rows[j].payload.ResultPayload?
      && rows[j].payload.result.toolCallId == rows[i].payload.call.id
      && !IsPending(rows[j], Resolved(rows))
  {
    assert RowDecodes(rows[i]);
    j :| 0 <= j < |rows| && rows[j].kind == ResultKind && rows[j].correlation == rows[i].correlation;
    assert RowDecodes(rows[j]);
    assert CallBefore(rows, j);
  }

  // ---------- command identities ----------

  lemma {:induction false} CommandIdsAre(rows: seq<Row>)
    requires WellFormed(rows)
    ensures forall i :: 0 <= i < |rows| && rows[i].kind == CallKind ==>
              rows[i].correlation in CommandIds(rows) && CommandIds(rows)[rows[i].correlation] == rows[i].id
    ensures forall c :: c in CommandIds(rows) ==>
              exists i :: 0 <= i < |rows| && rows[i].kind == CallKind && rows[i].correlation == c
  {
    if rows != [] {
      var n := |rows| - 1;
      var earlier := rows[..n];
      PrefixWellFormed(rows, earlier);
      CommandIdsAre(earlier);
      assert RowDecodes(rows[n]);
      forall c | c in CommandIds(rows)
        ensures exists i :: 0 <= i < |rows| && rows[i].kind == CallKind && rows[i].correlation == c
      {
        if c in CommandIds(earlier) {
          var i :| 0 <= i < n && earlier[i].kind == CallKind && earlier[i].correlation == c;
          assert rows[i].correlation == c;
        } else {
          assert rows[n].correlation == c;
        }
      }
      forall i | 0 <= i < |rows| && rows[i].kind == CallKind
        ensures rows[i].correlation in CommandIds(rows) && CommandIds(rows)[rows[i].correlation] == rows[i].id
      {
        CallKeepsIdentity(rows, i);
      }
    }
  }

  // The last row takes no identity that an earlier call has.
  lemma {:induction false} CallKeepsIdentity(rows: seq<Row>, i: nat)
    requires i < |rows| && OneRowPerIdentity(rows) && AllDecode(rows) && rows[i].kind == CallKind
    requires
      var earlier := rows[..|rows| - 1];
      var ids := CommandIds(earlier);
      i < |earlier| ==> earlier[i].correlation in ids && ids[earlier[i].correlation] == earlier[i].id
    ensures rows[i].correlation in CommandIds(rows) && CommandIds(rows)[rows[i].correlation] == rows[i].id
  {
    var n := |rows| - 1;
    assert RowDecodes(rows[n]);
    if i < n {
      assert rows[..n][i] == rows[i];
    }
  }

  ghost predicate Agrees(ids: map<string, RowId>, all: map<string, RowId>) {
    forall c :: c in ids ==> c in all && all[c] == ids[c]
  }

  lemma {:induction false} IdentitiesPersist(rows: seq<Row>, more: seq<Row>)
    requires WellFormed(more) && rows <= more
    ensures Agrees(CommandIds(rows), CommandIds(more))
  {
    PrefixWellFormed(more, rows);
    CommandIdsAre(rows);
    CommandIdsAre(more);
    forall c | c in CommandIds(rows) ensures c in CommandIds(more) && CommandIds(more)[c] == CommandIds(rows)[c] {
      var i :| 0 <= i < |rows| && rows[i].kind == CallKind && rows[i].correlation == c;
      assert more[i] == rows[i];
    }
  }

  // ---------- runs ----------

  // The bridge's known identities and the model wrapper's calls still to re-emit.
  datatype Bridge = Bridge(commandIds: map<string, RowId>, pendingCalls: seq<ToolCall>)

  datatype System = System(db: Db, bridge: Option<Bridge>)

  datatype Action =
    | Restart
    | ModelTurn(response: Response, calls: seq<ToolCall>, host: Host)
    | ReplayTurn(host: Host)
    | ToolDone(call: ToolCall, result: ToolResult, host: Host)
    | Crash

  const REPLAY_RESPONSE := Response("agent-run-replay", "")

  function Rollback(db: Db): Db {
    db.(working := db.committed)
  }

  function NewCalls(calls: seq<ToolCall>, known: map<string, RowId>): seq<ToolCall> {
    if calls == [] then []
    else (if calls[0].id in known then [] else [calls[0]]) + NewCalls(calls[1..], known)
  }

  function AfterModelResponse(db: Db, bridge: Bridge, host: Host, response: Response, calls: seq<ToolCall>): System {
    var unseen := NewCalls(calls, bridge.commandIds);
    if unseen == [] then System(db, Some(bridge))
    else
      var (db', ids) := RecordModelResponse(db, host, response, unseen);
      System(db', Some(if ids.Ok? then bridge.(commandIds := bridge.commandIds + ids.value) else bridge))
  }

  function Step(s: System, a: Action): System {
    match a
    case Crash => System(Rollback(s.db), None)
    case Restart =>
      var replay := Replay(s.db.committed);
      var bridge := if replay.Ok? then Some(Bridge(replay.value.commandIds, replay.value.pendingCalls)) else None;
      System(Rollback(s.db), bridge)
    case ModelTurn(response, calls, host) =>
      if s.bridge.Some? && s.bridge.value.pendingCalls == []
      then AfterModelResponse(s.db, s.bridge.value, host, response, calls) else s
    case ReplayTurn(host) =>
      if s.bridge.Some? && s.bridge.value.pendingCalls != []
      then AfterModelResponse(s.db, s.bridge.value.(pendingCalls := []), host, REPLAY_RESPONSE,
          s.bridge.value.pendingCalls) else s
    case ToolDone(call, result, host) =>
      if s.bridge.Some? then s.(db := RecordToolResult(s.db, host, call, result).0) else s
  }

  function Run(s: System, actions: seq<Action>): System
    decreases |actions|
  {
    if actions == [] then s else Run(Step(s, actions[0]), actions[1..])
  }

  const EMPTY := System(Db([], [], 0), None)

  ghost predicate Invariant(s: System) {
    && Sound(s.db)
    && (s.bridge.Some? ==>
          && Agrees(s.bridge.value.commandIds, CommandIds(s.db.committed))
          && forall i :: 0 <= i < |s.bridge.value.pendingCalls| ==>
                s.bridge.value.pendingCalls[i].id in s.bridge.value.commandIds)
  }

  lemma {:induction false} AppendCallsKeepsSound(db: Db, host: Host, responseId: string, calls: seq<ToolCall>, n: nat)
    requires Sound(db) && n <= |calls|
    ensures
      var (db', ids) := AppendCalls(db, host, responseId, calls, n);
      CallsAppended(db, db', ids)
  {
    if n > 0 {
      AppendCallsKeepsSound(db, host, responseId, calls, n - 1);
      var (db1, ids) := AppendCalls(db, host, responseId, calls, n - 1);
      if ids.Ok? {
        var payload := CallPayload(calls[n - 1], responseId);
        AppendKeepsSound(db1, host, payload);
        var (db2, row) := Append(db1, host, payload);
        CallAppended(db, db1, ids.value, calls[n - 1], responseId, db2, row);
      }
    }
  }

  ghost predicate CallsAppended(db: Db, db': Db, ids: Result<map<string, RowId>>) {
    && Sound(db') && db'.committed == db.committed && db.working <= db'.working
    && (ids.Ok? ==> Agrees(ids.value, CommandIds(db'.working)))
    && Resolved(db'.working) == Resolved(db.working)
  }

  lemma {:induction false} CallAppended(
      db: Db, db1: Db, ids: map<string, RowId>, call: ToolCall, responseId: string, db2: Db, row: Result<Row>)
    requires CallsAppended(db, db1, Ok(ids)) && Appended(db1, CallPayload(call, responseId), db2, row)
    ensures CallsAppended(db, db2, if row.Err? then Err(row.error) else Ok(ids[call.id := row.value.id]))
  {
    AppendResolves(db1, CallPayload(call, responseId), db2, row);
    IdentitiesPersist(db1.working, db2.working);
    if row.Ok? {
      RowGivesIdentity(db2.working, row.value);
      assert row.value.correlation == call.id;
    }
  }

  lemma {:induction false} RowGivesIdentity(rows: seq<Row>, row: Row)
    requires WellFormed(rows) && row in rows && row.kind == CallKind
    ensures row.correlation in CommandIds(rows) && CommandIds(rows)[row.correlation] == row.id
  {
    CommandIdsAre(rows);
    var i :| 0 <= i < |rows| && rows[i] == row;
  }

  lemma {:induction false} AppendResolves(db: Db, payload: Payload, db': Db, row: Result<Row>)
    requires Sound(db) && Appended(db, payload, db', row)
    ensures Resolved(db.working) <= Resolved(db'.working)
    ensures forall c :: c in Resolved(db'.working) && c !in Resolved(db.working) ==>
              payload.ResultPayload? && payload.result.toolCallId == c
  {
    var n := |db.working|;
    assert forall i :: 0 <= i < n ==> db'.working[i] == db.working[i];
    forall c | c in Resolved(db.working) ensures c in Resolved(db'.working) {
      var i :| 0 <= i < n && db.working[i].kind == ResultKind && db.working[i].correlation == c;
      assert db'.working[i] == db.working[i];
    }
    forall c | c in Resolved(db'.working) && c !in Resolved(db.working)
      ensures payload.ResultPayload? && payload.result.toolCallId == c
    {
      var i :| 0 <= i < |db'.working| && db'.working[i].kind == ResultKind && db'.working[i].correlation == c;
      assert i == n;
      assert RowDecodes(db'.working[i]);
    }
  }

  // What every transaction on the transcript does: it only adds rows, and commits all of them or none.
  ghost predicate Advances(db: Db, db': Db) {
    && Sound(db') && db.working <= db'.working
    && (db'.committed == db.committed || db'.committed == db'.working)
  }

  lemma {:induction false} TextAppended(db: Db, host: Host, response: Response)
    requires Sound(db)
    ensures CallsAppended(db, AppendText(db, host, response).0, Ok(map[]))
  {
    if response.text != "" {
      var payload := AssistantText(response.text, response.id);
      AppendKeepsSound(db, host, payload);
      var (db', row) := Append(db, host, payload);
      AppendResolves(db, payload, db', row);
    }
  }

  lemma {:induction false} RecordResponseAdvances(db: Db, host: Host, response: Response, calls: seq<ToolCall>)
    requires Sound(db)
    ensures
      var (db', ids) := RecordModelResponse(db, host, response, calls);
      && Advances(db, db') && Resolved(db'.working) == Resolved(db.working)
      && (ids.Err? ==> db'.committed == db.committed)
      && (ids.Ok? ==> db'.committed == db'.working && Agrees(ids.value, CommandIds(db'.committed)))
  {
    TextAppended(db, host, response);
    var (db1, error) := AppendText(db, host, response);
    if error.None? {
      AppendCallsKeepsSound(db1, host, response.id, calls, |calls|);
    }
  }

  lemma {:induction false} RecordResultAdvances(db: Db, host: Host, call: ToolCall, result: ToolResult)
    requires Sound(db)
    ensures
      var db' := RecordToolResult(db, host, call, result).0;
      && Advances(db, db')
      && (IsPause(result) ==> db' == db)
      && (RecordToolResult(db, host, call, result).1.Err? ==> db' == db)
      && (RecordToolResult(db, host, call, result).1.Ok? && !IsPause(result) ==>
            exists i :: 0 <= i < |db'.committed| && db'.committed[i].payload == ResultPayload(result))
      && (forall c :: c in Resolved(db'.working) && c !in Resolved(db.working) ==> c == call.id)
  {
    var payload := ResultPayload(result);
    AppendKeepsSound(db, host, payload);
    var (db', row) := Append(db, host, payload);
    AppendResolves(db, payload, db', row);
  }

  lemma {:induction false} NewCallsAreNew(calls: seq<ToolCall>, known: map<string, RowId>)
    ensures NewCalls(calls, known) == [] <==> forall i :: 0 <= i < |calls| ==> calls[i].id in known
  {
    if calls != [] {
      NewCallsAreNew(calls[1..], known);
      if NewCalls(calls, known) == [] {
        forall i | 0 <= i < |calls| ensures calls[i].id in known {
          if i > 0 {
            assert calls[i] == calls[1..][i - 1];
          }
        }
      } else if calls[0].id in known {
        var i :| 0 <= i < |calls[1..]| && calls[1..][i].id !in known;
        assert calls[i + 1].id !in known;
      }
    }
  }

  lemma {:induction false} AdvancesKeepsBridge(db: Db, db': Db, ids: map<string, RowId>)
    requires Sound(db) && Advances(db, db') && Agrees(ids, CommandIds(db.committed))
    ensures Agrees(ids, CommandIds(db'.committed))
  {
    PrefixWellFormed(db'.working, db'.committed);
    IdentitiesPersist(db.committed, db'.committed);
  }

  lemma {:induction false} AfterResponseKeeps(
      db: Db, bridge: Bridge, host: Host, response: Response, calls: seq<ToolCall>)
    requires Invariant(System(db, Some(bridge)))
    ensures
      var s' := AfterModelResponse(db, bridge, host, response, calls);
      && Invariant(s') && Advances(db, s'.db) && Resolved(s'.db.working) == Resolved(db.working)
      && s'.bridge.Some? && s'.bridge.value.pendingCalls == bridge.pendingCalls
  {
    var unseen := NewCalls(calls, bridge.commandIds);
    if unseen != [] {
      RecordResponseAdvances(db, host, response, unseen);
      AdvancesKeepsBridge(db, RecordModelResponse(db, host, response, unseen).0, bridge.commandIds);
    }
  }

  lemma {:induction false} RestartKeeps(db: Db)
    requires Sound(db)
    ensures Replay(db.committed).Ok? && Invariant(Step(System(db, None), Restart))
  {
    var rows := db.committed;
    PrefixWellFormed(db.working, rows);
    ReplayIs(rows);
    var pending := PendingRows(rows, Resolved(rows));
    forall k | 0 <= k < |pending| ensures pending[k].payload.call.id in CommandIds(rows) {
      PendingIsRecorded(rows, k);
    }
  }

  lemma {:induction false} PendingIsRecorded(rows: seq<Row>, k: nat)
    requires WellFormed(rows) && k < |PendingRows(rows, Resolved(rows))|
    ensures
      var row := PendingRows(rows, Resolved(rows))[k];
      row.payload.CallPayload? && row.payload.call.id in CommandIds(rows)
  {
    var row := PendingRows(rows, Resolved(rows))[k];
    PendingRowsAt(rows, Resolved(rows), |rows|);
    assert rows[..|rows|] == rows;
    assert row in PendingRows(rows, Resolved(rows));
    var i :| 0 <= i < |rows| && rows[i] == row;
    assert RowDecodes(rows[i]);
    RowGivesIdentity(rows, row);
  }

  // Every step keeps the transcript sound and only ever adds to what is committed.
  lemma {:induction false} StepKeeps(s: System, a: Action)
    requires Invariant(s)
    ensures Invariant(Step(s, a)) && s.db.committed <= Step(s, a).db.committed
    ensures a != Crash && a != Restart ==> s.db.working <= Step(s, a).db.working
  {
    match a {
      case Crash => PrefixWellFormed(s.db.working, s.db.committed);
      case Restart => RestartKeeps(s.db);
      case ModelTurn(response, calls, host) =>
        if s.bridge.Some? && s.bridge.value.pendingCalls == [] {
          AfterResponseKeeps(s.db, s.bridge.value, host, response, calls);
        }
      case ReplayTurn(host) =>
        if s.bridge.Some? && s.bridge.value.pendingCalls != [] {
          AfterResponseKeeps(s.db, s.bridge.value.(pendingCalls := []), host, REPLAY_RESPONSE,
              s.bridge.value.pendingCalls);
        }
      case ToolDone(call, result, host) =>
        if s.bridge.Some? {
          RecordResultAdvances(s.db, host, call, result);
          AdvancesKeepsBridge(s.db, RecordToolResult(s.db, host, call, result).0, s.bridge.value.commandIds);
        }
    }
  }

  lemma {:induction false} RunKeeps(s: System, actions: seq<Action>)
    requires Invariant(s)
    ensures Invariant(Run(s, actions)) && s.db.committed <= Run(s, actions).db.committed
    decreases |actions|
  {
    if actions != [] {
      StepKeeps(s, actions[0]);
      RunKeeps(Step(s, actions[0]), actions[1..]);
    }
  }

  // ---------- main results ----------

  // In every run, with crashes anywhere, the committed rows are well formed, so replay never fails.
  lemma {:induction false} ReplayNeverFails(actions: seq<Action>)
    ensures
      var rows := Run(EMPTY, actions).db.committed;
      WellFormed(rows) && Replay(rows).Ok?
  {
    RunKeeps(EMPTY, actions);
    var db := Run(EMPTY, actions).db;
    PrefixWellFormed(db.working, db.committed);
    ReplaySplits(db.committed);
  }

  // A call keeps, through any later run, the one identity it was first committed with;
  // every bridge that knows the call knows it by that identity.
  lemma {:induction false} IdentityNeverChanges(actions: seq<Action>, more: seq<Action>)
    ensures
      var before, after := Run(EMPTY, actions), Run(Run(EMPTY, actions), more);
      && Agrees(CommandIds(before.db.committed), CommandIds(after.db.committed))
      && (after.bridge.Some? ==> Agrees(after.bridge.value.commandIds, CommandIds(after.db.committed)))
  {
    RunKeeps(EMPTY, actions);
    var before := Run(EMPTY, actions);
    RunKeeps(before, more);
    var after := Run(before, more);
    PrefixWellFormed(after.db.working, after.db.committed);
    IdentitiesPersist(before.db.committed, after.db.committed);
  }

  // Re-emitting the pending calls after a restart finds all of them recorded: nothing is appended.
  lemma {:induction false} ReemissionAppendsNothing(actions: seq<Action>, host: Host)
    ensures
      var s := Run(EMPTY, actions);
      && Step(s, ReplayTurn(host)).db == s.db
      && (s.bridge.Some? ==> Step(s, ReplayTurn(host)).bridge == Some(s.bridge.value.(pendingCalls := [])))
      && (s.bridge.Some? ==>
            var calls := s.bridge.value.pendingCalls;
            forall i :: 0 <= i < |calls| ==> calls[i].id in s.bridge.value.commandIds)
  {
    RunKeeps(EMPTY, actions);
    var s := Run(EMPTY, actions);
    if s.bridge.Some? {
      NewCallsAreNew(s.bridge.value.pendingCalls, s.bridge.value.commandIds);
    }
  }

  ghost predicate OnlyPauses(actions: seq<Action>, callId: string) {
    forall i :: 0 <= i < |actions| && actions[i].ToolDone? && actions[i].call.id == callId ==>
        IsPause(actions[i].result)
  }

  lemma {:induction false} StepResolves(s: System, a: Action, callId: string)
    requires Invariant(s) && callId !in Resolved(s.db.working)
    requires a.ToolDone? && a.call.id == callId ==> IsPause(a.result)
    ensures callId !in Resolved(Step(s, a).db.working)
  {
    match a {
      case ModelTurn(response, calls, host) =>
        if s.bridge.Some? && s.bridge.value.pendingCalls == [] {
          AfterResponseKeeps(s.db, s.bridge.value, host, response, calls);
        }
      case ReplayTurn(host) =>
        if s.bridge.Some? && s.bridge.value.pendingCalls != [] {
          AfterResponseKeeps(s.db, s.bridge.value.(pendingCalls := []), host, REPLAY_RESPONSE,
              s.bridge.value.pendingCalls);
        }
      case ToolDone(call, result, host) => RecordResultAdvances(s.db, host, call, result);
      case _ => ResolvedPrefix(s.db.committed, s.db.working);
    }
  }

  lemma {:induction false} ResolvedPrefix(rows: seq<Row>, more: seq<Row>)
    requires rows <= more
    ensures Resolved(rows) <= Resolved(more)
  {
    forall c | c in Resolved(rows) ensures c in Resolved(more) {
      var i :| 0 <= i < |rows| && rows[i].kind == ResultKind && rows[i].correlation == c;
      assert more[i] == rows[i];
    }
  }

  lemma {:induction false} PausesResolveNothing(s: System, actions: seq<Action>, callId: string)
    requires Invariant(s) && callId !in Resolved(s.db.working) && OnlyPauses(actions, callId)
    ensures callId !in Resolved(Run(s, actions).db.working)
    decreases |actions|
  {
    if actions != [] {
      StepKeeps(s, actions[0]);
      StepResolves(s, actions[0], callId);
      forall i | 0 <= i < |actions[1..]| && actions[1..][i].ToolDone? && actions[1..][i].call.id == callId
        ensures IsPause(actions[1..][i].result)
      {
        assert actions[i + 1] == actions[1..][i];
      }
      PausesResolveNothing(Step(s, actions[0]), actions[1..], callId);
    }
  }

  ghost predicate IsPendingCall(calls: seq<ToolCall>, callId: string) {
    exists k :: 0 <= k < |calls| && calls[k].id == callId
  }

  // A committed call that only ever pauses is still among the pending calls of the next replay.
  lemma {:induction false} PausedCallStaysPending(actions: seq<Action>, more: seq<Action>, callId: string)
    requires callId in CommandIds(Run(EMPTY, actions).db.committed)
    requires callId !in Resolved(Run(EMPTY, actions).db.working) && OnlyPauses(more, callId)
    ensures
      var rows := Run(Run(EMPTY, actions), more).db.committed;
      Replay(rows).Ok? && IsPendingCall(Replay(rows).value.pendingCalls, callId)
  {
    RunKeeps(EMPTY, actions);
    var before := Run(EMPTY, actions);
    RunKeeps(before, more);
    PausesResolveNothing(before, more, callId);
    var db := Run(before, more).db;
    ResolvedPrefix(db.committed, db.working);
    PrefixWellFormed(db.working, db.committed);
    UnresolvedIsPending(before.db.committed, db.committed, callId);
  }

  lemma {:induction false} UnresolvedIsPending(earlier: seq<Row>, rows: seq<Row>, callId: string)
    requires WellFormed(rows) && earlier <= rows
    requires callId in CommandIds(earlier) && callId !in Resolved(rows)
    ensures Replay(rows).Ok? && IsPendingCall(Replay(rows).value.pendingCalls, callId)
  {
    PrefixWellFormed(rows, earlier);
    CommandIdsAre(earlier);
    var i :| 0 <= i < |earlier| && earlier[i].kind == CallKind && earlier[i].correlation == callId;
    assert rows[i] == earlier[i];
    ReplayPlaces(rows, i);
    assert RowDecodes(rows[i]);
    assert RowPlaced(rows, Replay(rows).value, i);
  }

  // A second, different result for a call is refused; repeating the same one adds nothing.
  lemma {:induction false} SecondResult(db: Db, host: Host, call: ToolCall, result: ToolResult, recorded: Row)
    requires Sound(db) && recorded in db.working && recorded.kind == ResultKind && recorded.correlation == call.id
    requires result.toolCallId == call.id && !IsPause(result)
    requires host.ownerAvailable && host.admits(ResultPayload(result))
    ensures
      var (db', reply) := RecordToolResult(db, host, call, result);
      && db'.working == db.working
      && (recorded.payload == ResultPayload(result) ==> reply == Ok(Some(recorded)))
      && (recorded.payload != ResultPayload(result) ==> reply == Err(DifferentContent))
  {
    var j :| 0 <= j < |db.working| && db.working[j] == recorded;
    assert CallBefore(db.working, j);
    SecondAppend(db, host, ResultPayload(result), recorded);
  }

  lemma {:induction false} SecondAppend(db: Db, host: Host, payload: Payload, recorded: Row)
    requires OneRowPerIdentity(db.working) && recorded in db.working && SameIdentity(recorded, payload)
    requires host.ownerAvailable && host.admits(payload)
    requires payload.ResultPayload? ==> HasRow(db.working, CallKind, CorrelationOf(payload))
    ensures
      var reply := if recorded.payload == payload then Ok(recorded) else Err(DifferentContent);
      Append(db, host, payload) == (db, reply)
  {
    FindIs(db.working, recorded);
    assert payload.ResultPayload? ==> Find(db.working, CallKind, CorrelationOf(payload)).Some?;
  }

  lemma {:induction false} FindIs(rows: seq<Row>, row: Row)
    requires OneRowPerIdentity(rows) && row in rows
    ensures Find(rows, row.kind, row.correlation) == Some(row)
  {
    var j :| 0 <= j < |rows| && rows[j] == row;
    var found := Find(rows, row.kind, row.correlation);
    var k :| 0 <= k < |rows| && rows[k] == found.value;
  }
}
