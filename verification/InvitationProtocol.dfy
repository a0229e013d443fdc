/** Browsers and the server exchanging invitations over a network that loses, repeats and delays messages. */
module InvitationProtocol {
  import opened Basics
  import opened Invitation

  type BrowserId = nat

  datatype Request = Request(token: Token, requestId: RequestId)

  datatype Answered = Answered(request: Request, reply: Reply)

  // Requests once sent may be delivered any number of times; replies once made may arrive or be lost.
  datatype System = System(
    server: Server,
    browsers: map<BrowserId, Browser>,
    nextRequestId: RequestId,
    sent: set<Request>,
    replies: set<Answered>)

  datatype Action =
    | Open(b: BrowserId, token: Token)                 // follow an invitation link in a tab
    | Reload(b: BrowserId)
    | DuplicateTab(b: BrowserId, copy: BrowserId)      // session storage is copied with the tab
    | Send(b: BrowserId, storage: Storage)
    | Deliver(request: Request, around: Surroundings)
    | Answer(b: BrowserId, reply: Reply, storage: Storage)
    | NoAnswer(b: BrowserId)                           // the fetch failed, or the reply was lost
    | BadAnswer(b: BrowserId, answer: Answer, storage: Storage)  // a response that is not this server's reply
    | ExpireSession(id: SessionId)

  function Initially(issued: map<Token, Invite>): System {
    System(Server(map t | t in issued :: issued[t].(consumed := None), map[], map[], 0), map[], 0, {}, {})
  }

  function BrowserOf(s: System, b: BrowserId): Browser {
    if b in s.browsers then s.browsers[b] else Browser(None, None, None, Settled)
  }

  function Step(s: System, a: Action): System {
    match a
    case Open(b, token) => s.(browsers := s.browsers[b := BrowserOf(s, b).(url := Some(token), phase := Loaded)])
    case Reload(b) => s.(browsers := s.browsers[b := BrowserOf(s, b).(phase := Loaded)])
    case DuplicateTab(b, copy) =>
      if copy in s.browsers then s else s.(browsers := s.browsers[copy := BrowserOf(s, b).(phase := Loaded)])
    case Send(b, storage) =>
      var begun := Begin(BrowserOf(s, b), s.nextRequestId, storage);
      if !BrowserOf(s, b).phase.Loaded? then s
      else if !begun.phase.Waiting? then s.(browsers := s.browsers[b := begun])
      else
        s.(browsers := s.browsers[b := begun], nextRequestId := s.nextRequestId + 1,
           sent := s.sent + {Request(begun.phase.token, begun.phase.requestId)})
    case Deliver(request, around) =>
      if request in s.sent then
        var (server, reply) := Exchange(s.server, request.token, request.requestId, around);
        s.(server := server, replies := s.replies + {Answered(request, reply)})
      else s
    case Answer(b, reply, storage) =>
      var browser := BrowserOf(s, b);
      if browser.phase.Waiting?
        && Answered(Request(browser.phase.token, browser.phase.requestId), reply) in s.replies
      then
        s.(browsers := s.browsers[b := Finish(browser, Replied(reply), storage)])
      else s
    case NoAnswer(b) =>
      s.(browsers := s.browsers[b := Finish(BrowserOf(s, b), NetworkFailure, Storage(true, true, true))])
    case BadAnswer(b, answer, storage) =>
      if answer.NotOk? || answer.Unparsable?
      then s.(browsers := s.browsers[b := Finish(BrowserOf(s, b), answer, storage)]) else s
    case ExpireSession(id) =>
      if id in s.server.sessions
      then s.(server := s.server.(sessions := s.server.sessions[id := s.server.sessions[id].(deleted := true)])) else s
  }

  function Run(s: System, actions: seq<Action>): System
    decreases |actions|
  {
    if actions == [] then s else Run(Step(s, actions[0]), actions[1..])
  }

  // ---------- the invariant ----------

  ghost predicate ConsumedBy(server: Server, token: Token, c: Consumption) {
    token in server.invitations && server.invitations[token].consumed == Some(c)
  }

  // Sessions and conversations exist only as some invitation's consumption.
  ghost predicate ServerSound(server: Server) {
    && (forall id :: id in server.sessions ==>
          && server.sessions[id].invitation in server.invitations
          && server.invitations[server.sessions[id].invitation].consumed.Some?
          && server.invitations[server.sessions[id].invitation].consumed.value.sessionId == id
          && server.sessions[id].contact == server.invitations[server.sessions[id].invitation].contact)
    && (forall id :: id in server.conversations ==>
          && server.conversations[id].invitation in server.invitations
          && server.invitations[server.conversations[id].invitation].consumed.Some?
          && server.invitations[server.conversations[id].invitation].consumed.value.conversationId == id)
    && (forall t :: t in server.invitations && server.invitations[t].consumed.Some? ==>
          && server.invitations[t].consumed.value.sessionId in server.sessions
          && server.sessions[server.invitations[t].consumed.value.sessionId].invitation == t
          && server.invitations[t].consumed.value.conversationId in server.conversations
          && server.conversations[server.invitations[t].consumed.value.conversationId].invitation == t)
    && (forall id :: id in server.sessions || id in server.conversations ==> id < server.nextId)
  }

  // A granted reply names the consumption of its invitation, and answers the request that consumed it.
  ghost predicate ReplyTrue(server: Server, a: Answered) {
    a.reply.Granted? ==>
      ConsumedBy(server, a.request.token, Consumption(a.request.requestId, a.reply.sessionId, a.reply.conversationId))
  }

  // A session held by a browser is the session of some consumed invitation.
  ghost predicate Holds(server: Server, reply: Reply) {
    reply.Granted? && exists t, r :: ConsumedBy(server, t, Consumption(r, reply.sessionId, reply.conversationId))
  }

  ghost predicate Invariant(s: System) {
    && ServerSound(s.server)
    && (forall a :: a in s.replies ==> ReplyTrue(s.server, a))
    && (forall b :: b in s.browsers && s.browsers[b].session.Some? ==> Holds(s.server, s.browsers[b].session.value))
  }

  // No step changes a consumption once it is recorded.
  ghost predicate Extends(server: Server, server': Server) {
    forall t, c {:trigger ConsumedBy(server, t, c)} :: ConsumedBy(server, t, c) ==> ConsumedBy(server', t, c)
  }

  lemma {:induction false} ExchangeSound(server: Server, token: Token, requestId: RequestId, around: Surroundings)
    requires ServerSound(server)
    ensures
      var (server', reply) := Exchange(server, token, requestId, around);
      ServerSound(server') && Extends(server, server') && ReplyTrue(server', Answered(Request(token, requestId), reply))
  {
  }

  lemma {:induction false} StepKeeps(s: System, a: Action)
    requires Invariant(s)
    ensures Invariant(Step(s, a)) && Extends(s.server, Step(s, a).server)
  {
    var s' := Step(s, a);
    if a.Deliver? {
      ExchangeSound(s.server, a.request.token, a.request.requestId, a.around);
    }
    assert Extends(s.server, s'.server);
    forall x | x in s.replies ensures ReplyTrue(s'.server, x) {
      assert ReplyTrue(s.server, x);
    }
    forall b | b in s'.browsers && s'.browsers[b].session.Some? ensures Holds(s'.server, s'.browsers[b].session.value) {
      if a.Answer? && b == a.b && s' != s && s'.browsers[b].session != BrowserOf(s, b).session {
        var phase := BrowserOf(s, b).phase;
        assert ReplyTrue(s.server, Answered(Request(phase.token, phase.requestId), a.reply));
      } else {
        var origin := if a.DuplicateTab? && s' != s && b == a.copy then a.b else b;
        assert s'.browsers[b].session == BrowserOf(s, origin).session;
        var reply := s'.browsers[b].session.value;
        var t, r :| ConsumedBy(s.server, t, Consumption(r, reply.sessionId, reply.conversationId));
        assert ConsumedBy(s'.server, t, Consumption(r, reply.sessionId, reply.conversationId));
      }
    }
  }

  lemma {:induction false} RunKeeps(s: System, actions: seq<Action>)
    requires Invariant(s)
    ensures Invariant(Run(s, actions)) && Extends(s.server, Run(s, actions).server)
    decreases |actions|
  {
    if actions != [] {
      StepKeeps(s, actions[0]);
      RunKeeps(Step(s, actions[0]), actions[1..]);
    }
  }

  // ---------- main results ----------

  ghost predicate SessionFor(server: Server, id: SessionId, token: Token) {
    id in server.sessions && server.sessions[id].invitation == token
  }

  ghost predicate ConversationFor(server: Server, id: ConversationId, token: Token) {
    id in server.conversations && server.conversations[id].invitation == token
  }

  ghost predicate GrantFor(s: System, a: Answered, token: Token) {
    a in s.replies && a.reply.Granted? && a.request.token == token
  }

  // Whatever is lost, repeated or reloaded, an invitation yields at most one session and one conversation;
  // every granted reply names them, and answers the one request identity that consumed the invitation.
  lemma {:induction false} OneSessionPerInvitation(issued: map<Token, Invite>, actions: seq<Action>, token: Token)
    ensures
      var s := Run(Initially(issued), actions);
      && (forall i, j :: SessionFor(s.server, i, token) && SessionFor(s.server, j, token) ==> i == j)
      && (forall i, j :: ConversationFor(s.server, i, token) && ConversationFor(s.server, j, token) ==> i == j)
      && (forall a, a' :: GrantFor(s, a, token) && GrantFor(s, a', token) ==> a == a')
  {
    RunKeeps(Initially(issued), actions);
    var s := Run(Initially(issued), actions);
    forall a, a' | GrantFor(s, a, token) && GrantFor(s, a', token) ensures a == a' {
      assert ReplyTrue(s.server, a) && ReplyTrue(s.server, a');
    }
  }

  // Once one request was granted, no later run grants the invitation to another request, or another session.
  lemma {:induction false} GrantsAreFinal(
      issued: map<Token, Invite>, actions: seq<Action>, more: seq<Action>, a: Answered)
    requires a in Run(Initially(issued), actions).replies && a.reply.Granted?
    ensures
      var s' := Run(Run(Initially(issued), actions), more);
      && ConsumedBy(s'.server, a.request.token,
            Consumption(a.request.requestId, a.reply.sessionId, a.reply.conversationId))
      && forall a' :: GrantFor(s', a', a.request.token) ==> a' == a
  {
    var s := Run(Initially(issued), actions);
    RunKeeps(Initially(issued), actions);
    RunKeeps(s, more);
    var s' := Run(s, more);
    assert ReplyTrue(s.server, a);
    forall a' | GrantFor(s', a', a.request.token) ensures a' == a {
      assert ReplyTrue(s'.server, a');
    }
  }

  ghost predicate SessionLive(server: Server, id: SessionId, contact: ContactId) {
    id in server.sessions && !server.sessions[id].deleted && server.sessions[id].contact == contact
  }

  // An exchange is granted exactly to the first request of a live invitation, or to the consuming request while
  // its session lives; what is granted exists, and a refusal or a replay changes nothing.
  lemma {:induction false} GrantedExactly(server: Server, token: Token, requestId: RequestId, around: Surroundings)
    requires ServerSound(server)
    ensures
      var (server', reply) := Exchange(server, token, requestId, around);
      && (reply.Granted? <==>
            token in server.invitations
            && var invite := server.invitations[token];
            match invite.consumed
            case None => around.now < invite.expiresAt && around.contactExists && around.agentResolves
            case Some(c) =>
              c.requestId == requestId && SessionLive(server, c.sessionId, invite.contact)
              && around.now < server.sessions[c.sessionId].expiresAt && around.conversationReadable)
      && (reply.Granted? ==>
            && SessionFor(server', reply.sessionId, token) && ConversationFor(server', reply.conversationId, token)
            && SessionLive(server', reply.sessionId, server.invitations[token].contact)
            && (server.invitations[token].consumed.None? ==>
                  server'.sessions[reply.sessionId].expiresAt == around.sessionExpiresAt))
      && (server' == server <==> reply.Unavailable? || server.invitations[token].consumed.Some?)
  {
    ExchangeSound(server, token, requestId, around);
  }

  // A stored entry has been sent, and ids are handed out once.
  ghost predicate IdsSound(s: System) {
    && (forall r :: r in s.sent ==> r.requestId < s.nextRequestId && FitsLength(r.token))
    && (forall r, r' :: r in s.sent && r' in s.sent && r.requestId == r'.requestId ==> r.token == r'.token)
    && (forall b :: b in s.browsers && s.browsers[b].pending.Some? ==>
          Request(s.browsers[b].pending.value.token, s.browsers[b].pending.value.requestId) in s.sent)
  }

  lemma {:induction false} StepKeepsIds(s: System, a: Action)
    requires IdsSound(s)
    ensures IdsSound(Step(s, a)) && s.sent <= Step(s, a).sent
  {
  }

  // An invitation is only consumed by a request that was sent.
  ghost predicate ConsumersSent(s: System) {
    forall t, c :: ConsumedBy(s.server, t, c) ==> Request(t, c.requestId) in s.sent
  }

  lemma {:induction false} StepKeepsConsumers(s: System, a: Action)
    requires ConsumersSent(s)
    ensures ConsumersSent(Step(s, a))
  {
    forall t, c | ConsumedBy(Step(s, a).server, t, c) ensures Request(t, c.requestId) in Step(s, a).sent {
      if !ConsumedBy(s.server, t, c) {
        assert a.Deliver?;
      }
    }
  }

  // In every run a request identity stands for one invitation: retries reuse it, another invitation never does.
  lemma {:induction false} IdentityNamesOneInvitation(issued: map<Token, Invite>, actions: seq<Action>)
    ensures
      var s := Run(Initially(issued), actions);
      forall r, r' :: r in s.sent && r' in s.sent && r.requestId == r'.requestId ==> r.token == r'.token
  {
    RunKeepsIds(Initially(issued), actions);
  }

  lemma {:induction false} RunKeepsIds(s: System, actions: seq<Action>)
    requires IdsSound(s) && ConsumersSent(s)
    ensures IdsSound(Run(s, actions)) && ConsumersSent(Run(s, actions)) && s.sent <= Run(s, actions).sent
    decreases |actions|
  {
    if actions != [] {
      StepKeepsIds(s, actions[0]);
      StepKeepsConsumers(s, actions[0]);
      RunKeepsIds(Step(s, actions[0]), actions[1..]);
    }
  }

  // The actions that leave a tab's entry for `token` in place: it hears no HTTP response that it can act on, and
  // exchanges nothing else.
  ghost predicate KeepsEntry(s: System, actions: seq<Action>, b: BrowserId, token: Token)
    decreases |actions|
  {
    actions == [] ||
    (match actions[0] {
       case Answer(b', _, storage) => b' != b || !storage.removable
       case BadAnswer(b', _, storage) => b' != b || !storage.removable
       case Send(b', storage) => b' != b || (BrowserOf(s, b).url == Some(token) && storage.readable)
       case _ => true
     } && KeepsEntry(Step(s, actions[0]), actions[1..], b, token))
  }

  lemma {:induction false} EntryKept(s: System, actions: seq<Action>, b: BrowserId, entry: Pending)
    requires b in s.browsers && s.browsers[b].pending == Some(entry) && KeepsEntry(s, actions, b, entry.token)
    ensures b in Run(s, actions).browsers && Run(s, actions).browsers[b].pending == Some(entry)
    decreases |actions|
  {
    if actions != [] {
      EntryKept(Step(s, actions[0]), actions[1..], b, entry);
    }
  }

  // A tab that stored its identity and heard no response retries with that identity; if the server
  // consumed the invitation for it, the retry is granted the very session the lost reply named.
  lemma {:induction false} RetryRecoversLostReply(
      issued: map<Token, Invite>, before: seq<Action>, more: seq<Action>, b: BrowserId, entry: Pending, c: Consumption,
      around: Surroundings, storage: Storage)
    requires storage.readable && storage.writable
    requires
      var s := Run(Initially(issued), before);
      && b in s.browsers && s.browsers[b].pending == Some(entry)
      && KeepsEntry(s, more, b, entry.token)
    requires
      var s' := Run(Run(Initially(issued), before), more);
      && ConsumedBy(s'.server, entry.token, c) && c.requestId == entry.requestId
      && s'.browsers.Keys >= {b} && s'.browsers[b].url == Some(entry.token) && s'.browsers[b].phase == Loaded
      && around.conversationReadable
      && c.sessionId in s'.server.sessions && !s'.server.sessions[c.sessionId].deleted
      && s'.server.sessions[c.sessionId].expiresAt > around.now
    ensures
      var s' := Run(Run(Initially(issued), before), more);
      var retry := Request(entry.token, entry.requestId);
      var s1 := Step(s', Send(b, storage));
      var s2 := Step(s1, Deliver(retry, around));
      var s3 := Step(s2, Answer(b, Granted(c.sessionId, c.conversationId), storage));
      && retry in s1.sent && s2.server == s'.server
      && s3.browsers[b].session == Some(Granted(c.sessionId, c.conversationId))
  {
    var s := Run(Initially(issued), before);
    EntryKept(s, more, b, entry);
    RunKeeps(Initially(issued), before);
    RunKeeps(s, more);
    RunKeepsIds(Initially(issued), before);
    RunKeepsIds(s, more);
    var s' := Run(s, more);
    SendChooses(s', b, entry.token, c, storage);
    ReplayGrants(s'.server, entry.token, c, around);
    GrantArrives(Step(s', Send(b, storage)), b, Request(entry.token, entry.requestId), c, around, storage);
  }

  // A tab that has a fitting token and has not sent it yet sends it, and stores what it sends if storage accepts it.
  lemma {:induction false} SendStores(s: System, b: BrowserId, token: Token, storage: Storage)
    requires b in s.browsers && s.browsers[b].url == Some(token) && s.browsers[b].phase == Loaded && FitsLength(token)
    ensures
      var s1 := Step(s, Send(b, storage));
      && b in s1.browsers && s1.browsers[b].phase.Waiting?
      && var request := Request(token, s1.browsers[b].phase.requestId);
      && s1.browsers[b].phase == Waiting(token, request.requestId) && request in s1.sent
      && (storage.writable ==> s1.browsers[b].pending == Some(Pending(token, request.requestId)))
      && (!storage.writable ==>
            s1.browsers[b].pending == if !storage.readable && storage.removable then None else s.browsers[b].pending)
      && s1.browsers[b].url == Some(token)
  {
  }

  // Without a token a page exchanges nothing; a token of the wrong length is dropped from the URL unsent.
  lemma {:induction false} UnfitIsNotSent(s: System, b: BrowserId, storage: Storage)
    requires b in s.browsers && s.browsers[b].phase == Loaded
    requires s.browsers[b].url.None? || !(32 <= |s.browsers[b].url.value| <= 512)
    ensures
      var s1, browser := Step(s, Send(b, storage)), s.browsers[b];
      && s1.sent == s.sent && s1.server == s.server && b in s1.browsers
      && s1.browsers[b] ==
           if browser.url.None? || browser.url == Some("") then browser else browser.(url := None, phase := Settled)
  {
  }

  // The lost reply, from the first request on: what the tab stored when it sent lets it ask again as the consumer.
  lemma {:induction false} StoredRequestIsAskedAgain(
      s: System, b: BrowserId, token: Token, more: seq<Action>, storage: Storage, again: Storage)
    requires b in s.browsers && s.browsers[b].url == Some(token) && s.browsers[b].phase == Loaded && FitsLength(token)
    requires storage.writable && again.readable
    requires
      var s1 := Step(s, Send(b, storage));
      && KeepsEntry(s1, more, b, token) && b in Run(s1, more).browsers
      && Run(s1, more).browsers[b].url == Some(token) && Run(s1, more).browsers[b].phase == Loaded
    ensures
      var s1 := Step(s, Send(b, storage));
      var s2 := Step(Run(s1, more), Send(b, again));
      b in s2.browsers && s2.browsers[b].phase == s1.browsers[b].phase
  {
    SendStores(s, b, token, storage);
    var s1 := Step(s, Send(b, storage));
    EntryKept(s1, more, b, s1.browsers[b].pending.value);
  }

  // Any response ends the exchange and drops the token from the URL, and the entry if storage allows; the session it
  // grants is stored if storage allows. A network failure keeps all of them.
  lemma {:induction false} ResponsesEnd(b: Browser, answer: Answer, storage: Storage)
    requires b.phase.Waiting?
    ensures
      var b' := Finish(b, answer, storage);
      && b'.phase == Settled
      && (answer == NetworkFailure ==> b' == b.(phase := Settled))
      && (answer != NetworkFailure ==> b'.url == None && b'.pending == if storage.removable then None else b.pending)
      && (answer.Replied? && answer.reply.Granted? && storage.writable ==> b'.session == Some(answer.reply))
      && (!(answer.Replied? && answer.reply.Granted?) || !storage.writable ==> b'.session == b.session)
  {
  }

  // A tab asks for a consumed invitation as its consumer exactly if it can read an entry that says so.
  lemma {:induction false} SendChooses(s: System, b: BrowserId, token: Token, c: Consumption, storage: Storage)
    requires IdsSound(s) && ConsumersSent(s) && ConsumedBy(s.server, token, c)
    requires b in s.browsers && s.browsers[b].url == Some(token) && s.browsers[b].phase == Loaded
    ensures
      var s1 := Step(s, Send(b, storage));
      && s1.server == s.server && b in s1.browsers && s1.browsers[b].phase.Waiting?
      && var request := Request(token, s1.browsers[b].phase.requestId);
      && s1.browsers[b].phase == Waiting(token, request.requestId) && request in s1.sent
      && (request.requestId == c.requestId <==>
            storage.readable && s.browsers[b].pending == Some(Pending(token, c.requestId)))
  {
    assert Request(token, c.requestId) in s.sent;
  }

  lemma {:induction false} ReplayGrants(server: Server, token: Token, c: Consumption, around: Surroundings)
    requires ServerSound(server) && ConsumedBy(server, token, c) && around.conversationReadable
    requires c.sessionId in server.sessions && !server.sessions[c.sessionId].deleted
    requires server.sessions[c.sessionId].expiresAt > around.now
    ensures Exchange(server, token, c.requestId, around) == (server, Granted(c.sessionId, c.conversationId))
  {
  }

  lemma {:induction false} GrantArrives(
      s: System, b: BrowserId, request: Request, c: Consumption, around: Surroundings, storage: Storage)
    requires b in s.browsers && s.browsers[b].phase == Waiting(request.token, request.requestId) && storage.writable
    requires request in s.sent
    requires Exchange(s.server, request.token, request.requestId, around) == (s.server,
              Granted(c.sessionId, c.conversationId))
    ensures
      var s2 := Step(s, Deliver(request, around));
      var s3 := Step(s2, Answer(b, Granted(c.sessionId, c.conversationId), storage));
      && s2.server == s.server
      && b in s3.browsers && s3.browsers[b].session == Some(Granted(c.sessionId, c.conversationId))
  {
  }

  // What a tab's request for a consumed invitation meets, whenever it is delivered: it is granted, and then the very
  // session and conversation of the consumption, if and only if the tab could read its entry, the entry is the
  // consuming request, and the session still lives.
  lemma {:induction false} RetryGrantedExactly(
      issued: map<Token, Invite>, before: seq<Action>, more: seq<Action>, b: BrowserId, token: Token, c: Consumption,
      around: Surroundings, storage: Storage)
    requires
      var s := Run(Initially(issued), before);
      && ConsumedBy(s.server, token, c)
      && b in s.browsers && s.browsers[b].url == Some(token) && s.browsers[b].phase == Loaded
    ensures
      var s := Run(Initially(issued), before);
      var s1 := Step(s, Send(b, storage));
      var server := Run(s1, more).server;
      && s1.browsers[b].phase.Waiting?
      && var request := Request(token, s1.browsers[b].phase.requestId);
      && s1.browsers[b].phase == Waiting(token, request.requestId) && request in Run(s1, more).sent
      && token in server.invitations
      && var reply := Exchange(server, token, request.requestId, around).1;
      && (reply.Granted? <==>
            && storage.readable && s.browsers[b].pending == Some(Pending(token, c.requestId))
            && SessionLive(server, c.sessionId, server.invitations[token].contact)
            && around.now < server.sessions[c.sessionId].expiresAt && around.conversationReadable)
      && (reply.Granted? ==> reply == Granted(c.sessionId, c.conversationId))
  {
    var s := Run(Initially(issued), before);
    var s1 := Step(s, Send(b, storage));
    RunKeeps(Initially(issued), before);
    RunKeepsIds(Initially(issued), before);
    StepKeeps(s, Send(b, storage));
    StepKeepsIds(s, Send(b, storage));
    StepKeepsConsumers(s, Send(b, storage));
    SendChooses(s, b, token, c, storage);
    RunKeeps(s1, more);
    RunKeepsIds(s1, more);
    assert ConsumedBy(Run(s1, more).server, token, c);
    ReplayExactly(Run(s1, more).server, token, c, s1.browsers[b].phase.requestId, around);
  }

  lemma {:induction false} ReplayExactly(
      server: Server, token: Token, c: Consumption, requestId: RequestId, around: Surroundings)
    requires ServerSound(server) && ConsumedBy(server, token, c)
    ensures
      var reply := Exchange(server, token, requestId, around).1;
      && (reply.Granted? <==>
            && requestId == c.requestId && SessionLive(server, c.sessionId, server.invitations[token].contact)
            && around.now < server.sessions[c.sessionId].expiresAt && around.conversationReadable)
      && (reply.Granted? ==> reply == Granted(c.sessionId, c.conversationId))
  {
  }

  // The entry dropped: a foreign response, then the link followed again. The new identity is refused.
  lemma {:induction false} DroppedEntryIsRefused(
      issued: map<Token, Invite>, before: seq<Action>, b: BrowserId, token: Token, c: Consumption, around: Surroundings)
    requires
      var s := Run(Initially(issued), before);
      b in s.browsers && s.browsers[b].phase == Waiting(token, c.requestId) && ConsumedBy(s.server, token, c)
    ensures
      var s, storage := Run(Initially(issued), before), Storage(true, true, true);
      var s1 := Step(s, BadAnswer(b, NotOk, storage));
      var s2 := Step(Step(s1, Open(b, token)), Send(b, storage));
      && s1.browsers[b].pending == None
      && s2.browsers[b].phase == Waiting(token, s.nextRequestId)
      && Exchange(s2.server, token, s.nextRequestId, around) == (s2.server, Unavailable)
  {
    RunKeepsIds(Initially(issued), before);
    assert Request(token, c.requestId) in Run(Initially(issued), before).sent;
  }
}
