/** Exchange of a widget invitation for one session and conversation: the server's locked
    transaction, and the browser's stored pending exchange. */
module Invitation {
  import opened Basics

  type Token = string    // a token's digest is injective, so the token stands for it
  type RequestId = nat
  type ContactId = nat
  type SessionId = nat
  type ConversationId = nat
  type Time = int

  datatype Consumption = Consumption(requestId: RequestId, sessionId: SessionId, conversationId: ConversationId)

  datatype Invite = Invite(contact: ContactId, expiresAt: Time, consumed: Option<Consumption>)

  datatype Session = Session(invitation: Token, contact: ContactId, expiresAt: Time, deleted: bool)

  datatype Conversation = Conversation(invitation: Token)

  datatype Server = Server(
    invitations: map<Token, Invite>,
    sessions: map<SessionId, Session>,
    conversations: map<ConversationId, Conversation>,
    nextId: nat)

  datatype Reply = Granted(sessionId: SessionId, conversationId: ConversationId) | Unavailable

  // What one call finds around it: the clock, and the answers of the services it composes.
  datatype Surroundings = Surroundings(
    now: Time,
    contactExists: bool,
    agentResolves: bool,
    sessionExpiresAt: Time,
    conversationReadable: bool)

  // ---------- the server ----------

  function LoadExisting(server: Server, invite: Invite, consumption: Consumption, around: Surroundings): Reply {
    if consumption.sessionId !in server.sessions then Unavailable
    else
      var session := server.sessions[consumption.sessionId];
      if session.deleted || session.contact != invite.contact || session.expiresAt <= around.now then Unavailable
      else if !around.conversationReadable then Unavailable
      else Granted(consumption.sessionId, consumption.conversationId)
  }

  // One transaction under the invitation's row lock; an error leaves nothing behind.
  function Exchange(server: Server, token: Token, requestId: RequestId, around: Surroundings): (Server, Reply) {
    if token !in server.invitations then (server, Unavailable)
    else
      var invite := server.invitations[token];
      if invite.consumed.Some? then
        if invite.consumed.value.requestId != requestId then (server, Unavailable)
        else (server, LoadExisting(server, invite, invite.consumed.value, around))
      else if invite.expiresAt <= around.now || !around.contactExists || !around.agentResolves
      then (server, Unavailable)
      else
        var sessionId, conversationId := server.nextId, server.nextId + 1;
        (Server(
           server.invitations[token := invite.(consumed := Some(Consumption(requestId, sessionId, conversationId)))],
           server.sessions[sessionId := Session(token, invite.contact, around.sessionExpiresAt, false)],
           server.conversations[conversationId := Conversation(token)],
           server.nextId + 2),
         Granted(sessionId, conversationId))
  }

  class InvitationServer {
    var invitations: map<Token, Invite>
    var sessions: map<SessionId, Session>
    var conversations: map<ConversationId, Conversation>
    var nextId: nat

    function Model(): Server
      reads this
    {
      Server(invitations, sessions, conversations, nextId)
    }

    constructor (issued: map<Token, Invite>)
      ensures Model() == Server(issued, map[], map[], 0)
    {
      invitations, sessions, conversations, nextId := issued, map[], map[], 0;
    }

    method ExchangeInvitation(token: Token, requestId: RequestId, around: Surroundings) returns (reply: Reply)
      modifies this
      ensures (Model(), reply) == Exchange(old(Model()), token, requestId, around)
    {
      if token !in invitations {
        return Unavailable;
      }
      var invite := invitations[token];
      if invite.consumed.Some? {
        if invite.consumed.value.requestId != requestId {
          return Unavailable;
        }
        return LoadExisting(Model(), invite, invite.consumed.value, around);
      }
      if invite.expiresAt <= around.now || !around.contactExists || !around.agentResolves {
        return Unavailable;
      }
      var sessionId := CreateSession(token, invite.contact, around.sessionExpiresAt);
      var conversationId := StartConversation(token);
      invitations := invitations[token := invite.(consumed := Some(Consumption(requestId, sessionId, conversationId)))];
      return Granted(sessionId, conversationId);
    }

    method CreateSession(token: Token, contact: ContactId, expiresAt: Time) returns (id: SessionId)
      modifies this`sessions, this`nextId
      ensures id == old(nextId) && nextId == id + 1
      ensures sessions == old(sessions)[id := Session(token, contact, expiresAt, false)]
    {
      id := nextId;
      nextId := nextId + 1;
      sessions := sessions[id := Session(token, contact, expiresAt, false)];
    }

    method StartConversation(token: Token) returns (id: ConversationId)
      modifies this`conversations, this`nextId
      ensures id == old(nextId) && nextId == id + 1
      ensures conversations == old(conversations)[id := Conversation(token)]
    {
      id := nextId;
      nextId := nextId + 1;
      conversations := conversations[id := Conversation(token)];
    }
  }

  // ---------- the browser ----------

  datatype Pending = Pending(token: Token, requestId: RequestId)

  datatype Phase = Loaded | Waiting(token: Token, requestId: RequestId) | Settled

  // The tab's session storage (pending exchange, session), the token still in its URL, and the page's progress.
  datatype Browser = Browser(pending: Option<Pending>, session: Option<Reply>, url: Option<Token>, phase: Phase)

  // What came back for the request that is in flight.
  datatype Answer = NetworkFailure | NotOk | Unparsable | Replied(reply: Reply)

  function ChosenId(pending: Option<Pending>, token: Token, newId: RequestId): RequestId {
    if pending.Some? && pending.value.token == token then pending.value.requestId else newId
  }

  // Which operations of session storage succeed. A failed write or removal is passed over; a failed read counts as
  // nothing stored, and the entry is removed if it can be.
  datatype Storage = Storage(readable: bool, writable: bool, removable: bool)

  const MIN_TOKEN_CHARACTERS := 32
  const MAX_TOKEN_CHARACTERS := 512

  predicate FitsLength(token: Token) {
    MIN_TOKEN_CHARACTERS <= |token| <= MAX_TOKEN_CHARACTERS
  }

  function Removed(pending: Option<Pending>, storage: Storage): Option<Pending> {
    if storage.removable then None else pending
  }

  // The page up to its request. An empty token counts as none; one that does not fit is dropped from the URL.
  function Begin(b: Browser, newId: RequestId, storage: Storage): Browser {
    if b.url.None? || b.url.value == "" || b.phase != Loaded then b
    else if !FitsLength(b.url.value) then b.(url := None, phase := Settled)
    else
      var token := b.url.value;
      var kept := if storage.readable then b.pending else Removed(b.pending, storage);
      var requestId := ChosenId(if storage.readable then b.pending else None, token, newId);
      b.(pending := if storage.writable then Some(Pending(token, requestId))
          else kept, phase := Waiting(token, requestId))
  }

  function Finish(b: Browser, answer: Answer, storage: Storage): Browser {
    if !b.phase.Waiting? then b
    else if answer.NetworkFailure? then b.(phase := Settled)
    else
      var granted := answer.Replied? && answer.reply.Granted?;
      b.(session := if granted && storage.writable then Some(answer.reply) else b.session,
         pending := Removed(b.pending, storage), url := None, phase := Settled)
  }

  class WidgetPage {
    var pending: Option<Pending>
    var session: Option<Reply>
    var url: Option<Token>
    var phase: Phase

    function Model(): Browser
      reads this
    {
      Browser(pending, session, url, phase)
    }

    // A page load finds what the tab's storage and URL hold.
    constructor (pending: Option<Pending>, session: Option<Reply>, url: Option<Token>)
      ensures Model() == Browser(pending, session, url, Loaded)
    {
      this.pending, this.session, this.url, phase := pending, session, url, Loaded;
    }

    method BeginExchange(newId: RequestId, storage: Storage)
      modifies this
      ensures Model() == Begin(old(Model()), newId, storage)
    {
      if url.None? || url.value == "" || phase != Loaded {
        return;
      }
      var token := url.value;
      if |token| < MIN_TOKEN_CHARACTERS || |token| > MAX_TOKEN_CHARACTERS {
        url := None;
        phase := Settled;
        return;
      }
      var stored := ReadPending(storage);
      var requestId := newId;
      if stored.Some? && stored.value.token == token {
        requestId := stored.value.requestId;
      }
      if storage.writable {
        pending := Some(Pending(token, requestId));
      }
      phase := Waiting(token, requestId);
    }

    method ReadPending(storage: Storage) returns (stored: Option<Pending>)
      modifies this`pending
      ensures storage.readable ==> stored == old(pending) && pending == old(pending)
      ensures !storage.readable ==> stored == None && pending == Removed(old(pending), storage)
    {
      if storage.readable {
        return pending;
      }
      RemovePending(storage);
      return None;
    }

    method RemovePending(storage: Storage)
      modifies this`pending
      ensures pending == Removed(old(pending), storage)
    {
      if storage.removable {
        pending := None;
      }
    }

    method FinishExchange(answer: Answer, storage: Storage)
      modifies this
      ensures Model() == Finish(old(Model()), answer, storage)
    {
      if !phase.Waiting? {
        return;
      }
      phase := Settled;
      if answer.NetworkFailure? {
        return;
      }
      if answer.Replied? && answer.reply.Granted? && storage.writable {
        session := Some(answer.reply);
      }
      RemovePending(storage);
      url := None;
    }
  }
}
