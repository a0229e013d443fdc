/** The transcript, its bridge and the model wrapper as objects that update their fields. */
module TranscriptObjects {
  import opened Basics
  import opened Transcript
  import opened TranscriptRuns

  class AgentRunTranscript {
    var committed: seq<Row>
    var working: seq<Row>
    var nextId: RowId

    function Model(): Db
      reads this
    {
      Db(committed, working, nextId)
    }

    constructor ()
      ensures Model() == EMPTY.db
    {
      committed, working, nextId := [], [], 0;
    }

    method AppendRow(host: Host, payload: Payload) returns (row: Result<Row>)
      modifies this
      ensures (Model(), row) == Append(old(Model()), host, payload)
    {
      if !host.admits(payload) {
        return Err(Unsafe);
      }
      if !host.ownerAvailable {
        return Err(OwnerUnavailable);
      }
      var kind, correlation := KindOf(payload), CorrelationOf(payload);
      if payload.ResultPayload? && Find(working, CallKind, correlation).None? {
        return Err(NoPersistedCall);
      }
      var existing := Find(working, kind, correlation);
      if existing.Some? {
        if existing.value.payload != payload {
          return Err(DifferentContent);
        }
        return Ok(existing.value);
      }
      var added := Row(nextId, MaxSequence(working) + 1, kind, correlation, payload);
      working := working + [added];
      nextId := nextId + 1;
      return Ok(added);
    }

    method RecordResponse(host: Host, response: Response, calls: seq<ToolCall>)
      returns (ids: Result<map<string, RowId>>)
      modifies this
      ensures (Model(), ids) == RecordModelResponse(old(Model()), host, response, calls)
    {
      if response.text != "" {
        var row := AppendRow(host, AssistantText(response.text, response.id));
        if row.Err? {
          return Err(row.error);
        }
      }
      ids := AppendToolCalls(host, response.id, calls);
      if ids.Ok? {
        committed := working;
      }
    }

    method AppendToolCalls(host: Host, responseId: string, calls: seq<ToolCall>)
      returns (ids: Result<map<string, RowId>>)
      modifies this
      ensures (Model(), ids) == AppendCalls(old(Model()), host, responseId, calls, |calls|)
    {
      ghost var start := Model();
      var commandIds: map<string, RowId> := map[];
      for i := 0 to |calls|
        invariant (Model(), Ok(commandIds)) == AppendCalls(start, host, responseId, calls, i)
      {
        AppendCallsNext(start, host, responseId, calls, i, Model(), commandIds);
        var row := AppendRow(host, CallPayload(calls[i], responseId));
        if row.Err? {
          AppendCallsStops(start, host, responseId, calls, i + 1, |calls|);
          return Err(row.error);
        }
        commandIds := commandIds[calls[i].id := row.value.id];
      }
      return Ok(commandIds);
    }

    method RecordResult(host: Host, call: ToolCall, result: ToolResult) returns (reply: Result<Option<Row>>)
      modifies this
      ensures (Model(), reply) == RecordToolResult(old(Model()), host, call, result)
    {
      if result.toolCallId != call.id {
        return Err(ResultMismatch);
      }
      if IsPause(result) {
        return Ok(None);
      }
      var row := AppendRow(host, ResultPayload(result));
      if row.Err? {
        return Err(row.error);
      }
      committed := working;
      return Ok(Some(row.value));
    }
  }

  lemma {:induction false} AppendCallsNext(
      db: Db, host: Host, responseId: string, calls: seq<ToolCall>, n: nat, reached: Db, ids: map<string, RowId>)
    requires n < |calls| && AppendCalls(db, host, responseId, calls, n) == (reached, Ok(ids))
    ensures
      var (db', row) := Append(reached, host, CallPayload(calls[n], responseId));
      AppendCalls(db, host, responseId, calls, n + 1) ==
        (db', if row.Err? then Err(row.error) else Ok(ids[calls[n].id := row.value.id]))
  {
  }

  lemma {:induction false} AppendCallsStops(
      db: Db, host: Host, responseId: string, calls: seq<ToolCall>, n: nat, m: nat)
    requires n <= m <= |calls| && AppendCalls(db, host, responseId, calls, n).1.Err?
    ensures AppendCalls(db, host, responseId, calls, m) == AppendCalls(db, host, responseId, calls, n)
    decreases m
  {
    if n < m {
      AppendCallsStops(db, host, responseId, calls, n, m - 1);
    }
  }

  class PendingToolCallsModel {
    var pendingCalls: seq<ToolCall>

    constructor (calls: seq<ToolCall>)
      ensures pendingCalls == calls
    {
      pendingCalls := calls;
    }

    // Pending calls are re-emitted once; after that the delegate answers.
    method Generate(delegateResponse: Response, delegateCalls: seq<ToolCall>)
      returns (response: Response, calls: seq<ToolCall>)
      modifies this
      ensures pendingCalls == []
      ensures old(pendingCalls) != [] ==> response == REPLAY_RESPONSE && calls == old(pendingCalls)
      ensures old(pendingCalls) == [] ==> response == delegateResponse && calls == delegateCalls
    {
      if pendingCalls != [] {
        response, calls := REPLAY_RESPONSE, pendingCalls;
        pendingCalls := [];
      } else {
        response, calls := delegateResponse, delegateCalls;
      }
    }
  }

  class AgentRunTranscriptBridge {
    const transcript: AgentRunTranscript
    const model: PendingToolCallsModel
    var commandIds: map<string, RowId>

    function Model(): System
      reads this, transcript, model
    {
      System(transcript.Model(), Some(Bridge(commandIds, model.pendingCalls)))
    }

    constructor (transcript: AgentRunTranscript, replayed: Replayed)
      ensures this.transcript == transcript && fresh(model)
      ensures Model() == System(transcript.Model(), Some(Bridge(replayed.commandIds, replayed.pendingCalls)))
    {
      this.transcript := transcript;
      commandIds := replayed.commandIds;
      model := new PendingToolCallsModel(replayed.pendingCalls);
    }

    method AfterResponse(host: Host, response: Response, calls: seq<ToolCall>)
      modifies this, transcript
      ensures
        var bridge := old(Bridge(commandIds, model.pendingCalls));
        Model() == AfterModelResponse(old(transcript.Model()), bridge, host, response, calls)
    {
      var newToolCalls := NewCalls(calls, commandIds);
      if newToolCalls == [] {
        return;
      }
      var ids := transcript.RecordResponse(host, response, newToolCalls);
      if ids.Ok? {
        commandIds := commandIds + ids.value;
      }
    }

    // One model turn: the wrapper's pending calls first, then the delegate's.
    method Turn(host: Host, delegateResponse: Response, delegateCalls: seq<ToolCall>)
      modifies this, transcript, model
      ensures
        var before := old(Model());
        var delegated := ModelTurn(delegateResponse, delegateCalls, host);
        Model() == Step(before, if before.bridge.value.pendingCalls == [] then delegated else ReplayTurn(host))
    {
      var response, calls := model.Generate(delegateResponse, delegateCalls);
      AfterResponse(host, response, calls);
    }

    method AfterToolResult(host: Host, call: ToolCall, result: ToolResult)
      modifies transcript
      ensures Model() == Step(old(Model()), ToolDone(call, result, host))
    {
      var _ := transcript.RecordResult(host, call, result);
    }
  }
}
