/** The append-only transcript of one agent run: identities are idempotent, and replay after a
    crash rebuilds the messages and the calls that still wait for a result. */
module Transcript {
  import opened Basics

  type RowId = nat

  datatype ToolCall = ToolCall(id: string, name: string, arguments: string)

  // The four metadata flags that mark a pause rather than a completion.
  datatype ToolResult = ToolResult(
    toolCallId: string,
    content: string,
    executionPaused: bool,
    approvalRequest: bool,
    inputRequest: bool,
    executionFailed: bool)

  // `text` is the response's text blocks joined.
  datatype Response = Response(id: string, text: string)

  datatype Payload =
    | AssistantText(text: string, responseId: string)
    | CallPayload(call: ToolCall, responseId: string)
    | ResultPayload(result: ToolResult)

  datatype Kind = TextKind | CallKind | ResultKind

  datatype Row = Row(id: RowId, sequence: nat, kind: Kind, correlation: string, payload: Payload)

  datatype Error =
    | Unsafe | OwnerUnavailable | NoPersistedCall | DifferentContent | ResultMismatch | OrphanResult | InvalidRow

  datatype Result<T> = Ok(value: T) | Err(error: Error)

  // The rows other transactions see, the rows of the open transaction, and the next fresh row id.
  datatype Db = Db(committed: seq<Row>, working: seq<Row>, nextId: RowId)

  function KindOf(payload: Payload): Kind {
    match payload
    case AssistantText(_, _) => TextKind
    case CallPayload(_, _) => CallKind
    case ResultPayload(_) => ResultKind
  }

  // The digest is treated as injective, so the digested text stands for it.
  function CorrelationOf(payload: Payload): string {
    match payload
    case AssistantText(_, responseId) => responseId + ":text"
    case CallPayload(call, _) => call.id
    case ResultPayload(result) => result.toolCallId
  }

  predicate IsPause(result: ToolResult) {
    result.executionPaused || result.approvalRequest || result.inputRequest || result.executionFailed
  }

  // ---------- appending ----------

  function Find(rows: seq<Row>, kind: Kind, correlation: string): (found: Option<Row>)
    ensures found.Some? ==> found.value in rows && found.value.kind == kind && found.value.correlation == correlation
    ensures found.None? ==> forall i :: 0 <= i < |rows| ==> rows[i].kind != kind || rows[i].correlation != correlation
  {
    if rows == [] then None
    else if rows[0].kind == kind && rows[0].correlation == correlation then Some(rows[0])
    else Find(rows[1..], kind, correlation)
  }

  function MaxSequence(rows: seq<Row>): nat {
    if rows == [] then 0
    else
      var rest := MaxSequence(rows[..|rows| - 1]);
      if rows[|rows| - 1].sequence > rest then rows[|rows| - 1].sequence else rest
  }

  // What the surroundings decide: which payloads are JSON-safe and small enough, and whether the run exists.
  datatype Host = Host(admits: Payload -> bool, ownerAvailable: bool)

  function Append(db: Db, host: Host, payload: Payload): (Db, Result<Row>) {
    var kind, correlation := KindOf(payload), CorrelationOf(payload);
    if !host.admits(payload) then (db, Err(Unsafe))
    else if !host.ownerAvailable then (db, Err(OwnerUnavailable))
    else if payload.ResultPayload? && Find(db.working, CallKind, correlation).None? then (db, Err(NoPersistedCall))
    else
      var existing := Find(db.working, kind, correlation);
      if existing.Some? then
        if existing.value.payload != payload then (db, Err(DifferentContent)) else (db, Ok(existing.value))
      else
        var row := Row(db.nextId, MaxSequence(db.working) + 1, kind, correlation, payload);
        (db.(working := db.working + [row], nextId := db.nextId + 1), Ok(row))
  }

  // Appends the first n calls; an error stops the rest and leaves the earlier ones uncommitted.
  function AppendCalls(
      db: Db, host: Host, responseId: string, calls: seq<ToolCall>, n: nat): (Db, Result<map<string, RowId>>)
    requires n <= |calls|
  {
    if n == 0 then (db, Ok(map[]))
    else
      var (db1, ids) := AppendCalls(db, host, responseId, calls, n - 1);
      if ids.Err? then (db1, ids)
      else
        var (db2, row) := Append(db1, host, CallPayload(calls[n - 1], responseId));
        (db2, if row.Err? then Err(row.error) else Ok(ids.value[calls[n - 1].id := row.value.id]))
  }

  function Commit(db: Db): Db {
    db.(committed := db.working)
  }

  function AppendText(db: Db, host: Host, response: Response): (Db, Option<Error>) {
    if response.text == "" then (db, None)
    else
      var (db', row) := Append(db, host, AssistantText(response.text, response.id));
      (db', if row.Err? then Some(row.error) else None)
  }

  function RecordModelResponse(
      db: Db, host: Host, response: Response, calls: seq<ToolCall>): (Db, Result<map<string, RowId>>) {
    var (db1, error) := AppendText(db, host, response);
    if error.Some? then (db1, Err(error.value))
    else
      var (db2, ids) := AppendCalls(db1, host, response.id, calls, |calls|);
      if ids.Err? then (db2, ids) else (Commit(db2), ids)
  }

  function RecordToolResult(db: Db, host: Host, call: ToolCall, result: ToolResult): (Db, Result<Option<Row>>) {
    if result.toolCallId != call.id then (db, Err(ResultMismatch))
    else if IsPause(result) then (db, Ok(None))
    else
      var (db1, row) := Append(db, host, ResultPayload(result));
      if row.Err? then (db1, Err(row.error)) else (Commit(db1), Ok(Some(row.value)))
  }

  // ---------- replay ----------

  datatype Message =
    | TextMessage(id: RowId, text: string)
    | CallMessage(id: RowId, call: ToolCall)
    | ResultMessage(id: RowId, result: ToolResult)

  datatype Replayed = Replayed(messages: seq<Message>, pendingCalls: seq<ToolCall>, commandIds: map<string, RowId>)

  predicate RowDecodes(row: Row) {
    row.kind == KindOf(row.payload) && row.correlation == CorrelationOf(row.payload)
  }

  function MessageOf(row: Row): Message {
    match row.payload
    case AssistantText(text, _) => TextMessage(row.id, text)
    case CallPayload(call, _) => CallMessage(row.id, call)
    case ResultPayload(result) => ResultMessage(row.id, result)
  }

  function Resolved(rows: seq<Row>): set<string> {
    set i | 0 <= i < |rows| && rows[i].kind == ResultKind :: rows[i].correlation
  }

  function Recorded(rows: seq<Row>): set<string> {
    set i | 0 <= i < |rows| && rows[i].kind == CallKind :: rows[i].correlation
  }

  predicate IsPending(row: Row, resolved: set<string>) {
    row.kind == CallKind && row.correlation !in resolved
  }

  function PendingRows(rows: seq<Row>, resolved: set<string>): seq<Row> {
    if rows == [] then []
    else
      var n := |rows| - 1;
      PendingRows(rows[..n], resolved) + if IsPending(rows[n], resolved) then [rows[n]] else []
  }

  function Messages(rows: seq<Row>, pendingIds: set<RowId>): seq<Message> {
    if rows == [] then []
    else
      var n := |rows| - 1;
      Messages(rows[..n], pendingIds) + if rows[n].id in pendingIds then [] else [MessageOf(rows[n])]
  }

  function CallsOf(rows: seq<Row>): seq<ToolCall>
    requires forall i :: 0 <= i < |rows| ==> rows[i].payload.CallPayload?
  {
    seq(|rows|, i requires 0 <= i < |rows| => rows[i].payload.call)
  }

  function CommandIds(rows: seq<Row>): map<string, RowId> {
    if rows == [] then map[]
    else
      var n := |rows| - 1;
      var earlier := CommandIds(rows[..n]);
      if rows[n].kind == CallKind && rows[n].payload.CallPayload?
      then earlier[rows[n].payload.call.id := rows[n].id] else earlier
  }

  function Replay(rows: seq<Row>): Result<Replayed> {
    var resolved := Resolved(rows);
    if !(resolved <= Recorded(rows)) then Err(OrphanResult)
    else if exists i :: 0 <= i < |rows| && !RowDecodes(rows[i]) then Err(InvalidRow)
    else
      var pending := PendingRows(rows, resolved);
      PendingRowsDecode(rows, resolved);
      var pendingIds := set i | 0 <= i < |pending| :: pending[i].id;
      Ok(Replayed(Messages(rows, pendingIds), CallsOf(pending), CommandIds(rows)))
  }

  lemma {:induction false} PendingRowsDecode(rows: seq<Row>, resolved: set<string>)
    requires forall i :: 0 <= i < |rows| ==> RowDecodes(rows[i])
    ensures forall i :: 0 <= i < |PendingRows(rows, resolved)| ==> PendingRows(rows, resolved)[i].payload.CallPayload?
  {
    if rows != [] {
      PendingRowsDecode(rows[..|rows| - 1], resolved);
    }
  }

  // ---------- what every reachable transcript looks like ----------

  ghost predicate CallBefore(rows: seq<Row>, j: nat)
    requires j < |rows|
  {
    exists i :: 0 <= i < j && rows[i].kind == CallKind && rows[i].correlation == rows[j].correlation
  }

  ghost predicate Numbered(rows: seq<Row>) {
    forall i :: 0 <= i < |rows| ==> rows[i].sequence == i + 1
  }

  ghost predicate AllDecode(rows: seq<Row>) {
    forall i :: 0 <= i < |rows| ==> RowDecodes(rows[i])
  }

  ghost predicate UniqueIds(rows: seq<Row>) {
    forall i, j :: 0 <= i < j < |rows| ==> rows[i].id != rows[j].id
  }

  ghost predicate OneRowPerIdentity(rows: seq<Row>) {
    forall i, j :: 0 <= i < j < |rows| && rows[i].kind == rows[j].kind ==> rows[i].correlation != rows[j].correlation
  }

  ghost predicate ResultsFollowCalls(rows: seq<Row>) {
    forall j :: 0 <= j < |rows| && rows[j].kind == ResultKind ==> CallBefore(rows, j)
  }

  ghost predicate WellFormed(rows: seq<Row>) {
    Numbered(rows) && AllDecode(rows) && UniqueIds(rows) && OneRowPerIdentity(rows) && ResultsFollowCalls(rows)
  }

  ghost predicate Sound(db: Db) {
    && db.committed <= db.working
    && WellFormed(db.working)
    && forall i :: 0 <= i < |db.working| ==> db.working[i].id < db.nextId
  }

  lemma {:induction false} MaxSequenceIsLength(rows: seq<Row>)
    requires forall i :: 0 <= i < |rows| ==> rows[i].sequence == i + 1
    ensures MaxSequence(rows) == |rows|
  {
    if rows != [] {
      MaxSequenceIsLength(rows[..|rows| - 1]);
    }
  }

  lemma {:induction false} PrefixWellFormed(rows: seq<Row>, prefix: seq<Row>)
    requires WellFormed(rows) && prefix <= rows
    ensures WellFormed(prefix)
  {
    forall j | 0 <= j < |prefix| && prefix[j].kind == ResultKind ensures CallBefore(prefix, j) {
      assert rows[j] == prefix[j];
      assert CallBefore(rows, j);
      var i :| 0 <= i < j && rows[i].kind == CallKind && rows[i].correlation == rows[j].correlation;
      assert prefix[i] == rows[i];
    }
  }

  lemma {:induction false} ExtendWellFormed(rows: seq<Row>, row: Row)
    requires WellFormed(rows) && row.sequence == |rows| + 1 && RowDecodes(row)
    requires forall i :: 0 <= i < |rows| ==> rows[i].id != row.id
    requires forall i :: 0 <= i < |rows| ==> rows[i].kind != row.kind || rows[i].correlation != row.correlation
    requires row.kind == ResultKind ==> Find(rows, CallKind, row.correlation).Some?
    ensures WellFormed(rows + [row])
  {
    var rows', n := rows + [row], |rows|;
    assert forall i :: 0 <= i < n ==> rows'[i] == rows[i];
    forall j | 0 <= j < |rows'| && rows'[j].kind == ResultKind ensures CallBefore(rows', j) {
      if j < n {
        assert CallBefore(rows, j);
        var i :| 0 <= i < j && rows[i].kind == CallKind && rows[i].correlation == rows[j].correlation;
        assert rows'[i] == rows[i];
      } else {
        var call := Find(rows, CallKind, row.correlation).value;
        var i :| 0 <= i < n && rows[i] == call;
        assert rows'[i] == call;
      }
    }
  }

  // An append keeps every row it finds and adds at most one, which it can then find again.
  ghost predicate Appended(db: Db, payload: Payload, db': Db, row: Result<Row>) {
    && Sound(db') && db'.committed == db.committed && db.working <= db'.working
    && (row.Err? ==> db' == db)
    && (row.Ok? ==> row.value in db'.working && row.value.payload == payload && row.value.kind == KindOf(payload)
                    && row.value.correlation == CorrelationOf(payload))
    && (db'.working != db.working ==> |db'.working| == |db.working| + 1 && db'.working[|db.working|].payload == payload)
  }

  lemma {:induction false} AppendKeepsSound(db: Db, host: Host, payload: Payload)
    requires Sound(db)
    ensures Appended(db, payload, Append(db, host, payload).0, Append(db, host, payload).1)
  {
    var (db', row) := Append(db, host, payload);
    if row.Ok? {
      if Find(db.working, KindOf(payload), CorrelationOf(payload)).None? {
        MaxSequenceIsLength(db.working);
        ExtendWellFormed(db.working, row.value);
        AddKeepsSound(db, db', row.value);
      } else {
        var i :| 0 <= i < |db.working| && db.working[i] == row.value;
        assert RowDecodes(db.working[i]);
      }
    }
  }

  // An append succeeds exactly when the payload is admitted, a result has its call on record, and no row of
  // this identity holds anything else.
  lemma {:induction false} AppendSucceedsExactly(db: Db, host: Host, payload: Payload)
    requires OneRowPerIdentity(db.working)
    ensures Append(db, host, payload).1.Ok? <==>
              && host.admits(payload) && host.ownerAvailable
              && (payload.ResultPayload? ==> HasRow(db.working, CallKind, CorrelationOf(payload)))
              && forall i :: 0 <= i < |db.working| && SameIdentity(db.working[i], payload) ==>
                    db.working[i].payload == payload
  {
    var found := Find(db.working, KindOf(payload), CorrelationOf(payload));
    if found.Some? {
      var k :| 0 <= k < |db.working| && db.working[k] == found.value;
    }
    var call := Find(db.working, CallKind, CorrelationOf(payload));
    if call.Some? {
      var c :| 0 <= c < |db.working| && db.working[c] == call.value;
    }
  }

  ghost predicate HasRow(rows: seq<Row>, kind: Kind, correlation: string) {
    exists i :: 0 <= i < |rows| && rows[i].kind == kind && rows[i].correlation == correlation
  }

  ghost predicate SameIdentity(row: Row, payload: Payload) {
    row.kind == KindOf(payload) && row.correlation == CorrelationOf(payload)
  }

  lemma {:induction false} AddKeepsSound(db: Db, db': Db, row: Row)
    requires Sound(db) && WellFormed(db.working + [row]) && row.id == db.nextId
    requires db' == db.(working := db.working + [row], nextId := db.nextId + 1)
    ensures Sound(db') && db.working <= db'.working && row in db'.working && db'.working[|db.working|] == row
  {
    assert db'.working[|db.working|] == row;
  }
}
