/** Tabs that share a copied user session probe each other over a broadcast channel;
    a tab that an older holder claims against releases its copy. */
module TabElection {
  import opened Basics

  type Session = nat
  type Nonce = nat

  // A tab's start time and id; the id is unique.
  datatype TabKey = TabKey(startedAt: int, id: nat)

  predicate Older(a: TabKey, b: TabKey) {
    a.startedAt < b.startedAt || (a.startedAt == b.startedAt && a.id < b.id)
  }

  datatype Message =
    | ProbeMessage(nonce: Nonce, session: Session, from: TabKey)
    | ClaimMessage(nonce: Nonce, session: Session, from: TabKey)

  datatype Probe = Probe(nonce: Nonce, session: Session, claimedByOlderTab: bool)

  datatype Tab = Tab(session: Option<Session>, probe: Option<Probe>)

  // ---------- the handlers ----------

  // A holder answers a probe for its own session.
  function Answer(me: TabKey, tab: Tab, message: Message): Option<Message> {
    if message.ProbeMessage? && tab.session == Some(message.session)
    then Some(ClaimMessage(message.nonce, message.session, me)) else None
  }

  predicate IsForProbe(message: Message, tab: Tab) {
    && tab.probe.Some? && message.ClaimMessage?
    && message.nonce == tab.probe.value.nonce && message.session == tab.probe.value.session
  }

  function Claimed(me: TabKey, tab: Tab, message: Message): Tab {
    if IsForProbe(message, tab)
    then
      var claimed := tab.probe.value.claimedByOlderTab || Older(message.from, me);
      tab.(probe := Some(tab.probe.value.(claimedByOlderTab := claimed)))
    else tab
  }

  function ProbeStarted(tab: Tab, nonce: Nonce): Tab {
    if tab.session.Some? && tab.probe.None? then tab.(probe := Some(Probe(nonce, tab.session.value, false))) else tab
  }

  // The window has passed: release the copy if an older tab claimed it and it is still the same session.
  function ProbeEnded(tab: Tab): Tab {
    if tab.probe.None? then tab
    else
      var released := tab.probe.value.claimedByOlderTab && tab.session == Some(tab.probe.value.session);
      Tab(if released then None else tab.session, None)
  }

  class ConnectionTab {
    const me: TabKey
    var userSessionId: Option<Session>
    var probe: Option<Probe>

    function Model(): Tab
      reads this
    {
      Tab(userSessionId, probe)
    }

    constructor (me: TabKey, restored: Option<Session>)
      ensures this.me == me && Model() == Tab(restored, None)
    {
      this.me, userSessionId, probe := me, restored, None;
    }

    method OnProbe(message: Message) returns (reply: Option<Message>)
      ensures reply == Answer(me, Model(), message)
    {
      if !message.ProbeMessage? || userSessionId.None? || message.session != userSessionId.value {
        return None;
      }
      return Some(ClaimMessage(message.nonce, message.session, me));
    }

    method OnClaim(message: Message)
      modifies this`probe
      ensures Model() == Claimed(me, old(Model()), message)
    {
      if probe.None? || !message.ClaimMessage?
        || message.nonce != probe.value.nonce || message.session != probe.value.session
      {
        return;
      }
      if Older(message.from, me) {
        probe := Some(probe.value.(claimedByOlderTab := true));
      }
    }

    method StartProbe(nonce: Nonce) returns (sent: Option<Message>)
      requires probe.None?
      modifies this`probe
      ensures Model() == ProbeStarted(old(Model()), nonce)
      ensures sent == if userSessionId.Some? then Some(ProbeMessage(nonce, userSessionId.value, me)) else None
    {
      if userSessionId.None? {
        return None;
      }
      probe := Some(Probe(nonce, userSessionId.value, false));
      return Some(ProbeMessage(nonce, userSessionId.value, me));
    }

    method EndProbe()
      modifies this
      ensures Model() == ProbeEnded(old(Model()))
    {
      if probe.None? {
        return;
      }
      if probe.value.claimedByOlderTab && userSessionId == Some(probe.value.session) {
        userSessionId := None;
      }
      probe := None;
    }
  }

  // ---------- tabs and channel together ----------

  // Messages once posted may reach any other tab, at any time, or never. `everHeld`, `heard` and
  // `probed` record who ever held a session, which claims reached their probe, and who has probed.
  datatype System = System(
    tabs: map<TabKey, Tab>,
    channel: set<Message>,
    nextNonce: Nonce,
    everHeld: set<(Session, TabKey)>,
    heard: set<(Nonce, TabKey)>,
    probed: set<TabKey>)

  datatype Action =
    | Hold(tab: TabKey, session: Session)   // restored from storage, or assigned by the server
    | Drop(tab: TabKey)                     // the user session ends
    | Close(tab: TabKey)
    | Start(tab: TabKey)
    | DeliverProbe(message: Message, to: TabKey)
    | DeliverClaim(message: Message, to: TabKey)
    | End(tab: TabKey)

  function Step(s: System, a: Action): System {
    match a
    case Hold(t, session) =>
      s.(tabs := s.tabs[t := Tab(Some(session), if t in s.tabs then s.tabs[t].probe else None)],
         everHeld := s.everHeld + {(session, t)})
    case Drop(t) => if t in s.tabs then s.(tabs := s.tabs[t := s.tabs[t].(session := None)]) else s
    case Close(t) => s.(tabs := s.tabs - {t})
    case Start(t) =>
      if t in s.tabs && s.tabs[t].session.Some? && s.tabs[t].probe.None? then
        s.(tabs := s.tabs[t := ProbeStarted(s.tabs[t], s.nextNonce)],
           channel := s.channel + {ProbeMessage(s.nextNonce, s.tabs[t].session.value, t)},
           nextNonce := s.nextNonce + 1)
      else s
    case DeliverProbe(m, to) =>
      if m in s.channel && to in s.tabs && to != m.from && Answer(to, s.tabs[to], m).Some?
      then s.(channel := s.channel + {Answer(to, s.tabs[to], m).value}) else s
    case DeliverClaim(m, to) =>
      if m in s.channel && to in s.tabs && to != m.from && IsForProbe(m, s.tabs[to]) then
        s.(tabs := s.tabs[to := Claimed(to, s.tabs[to], m)], heard := s.heard + {(m.nonce, m.from)})
      else s
    case End(t) =>
      if t in s.tabs && s.tabs[t].probe.Some?
      then s.(tabs := s.tabs[t := ProbeEnded(s.tabs[t])], probed := s.probed + {t}) else s
  }

  function Run(s: System, actions: seq<Action>): System
    decreases |actions|
  {
    if actions == [] then s else Run(Step(s, actions[0]), actions[1..])
  }

  const EMPTY := System(map[], {}, 0, {}, {}, {})

  ghost predicate ClaimIsGenuine(s: System, m: Message) {
    m.ClaimMessage? ==> (m.session, m.from) in s.everHeld
  }

  ghost predicate OlderEverHeld(s: System, session: Session, t: TabKey) {
    exists o :: (session, o) in s.everHeld && Older(o, t)
  }

  ghost predicate ProbeIsTrue(s: System, t: TabKey)
    requires t in s.tabs
  {
    s.tabs[t].probe.Some? ==>
      var p := s.tabs[t].probe.value;
      && p.nonce < s.nextNonce
      && (p.claimedByOlderTab ==> OlderEverHeld(s, p.session, t))
      && (forall q :: (p.nonce, q) in s.heard && Older(q, t) ==> p.claimedByOlderTab)
  }

  ghost predicate ChannelGenuine(s: System) {
    forall m :: m in s.channel ==> ClaimIsGenuine(s, m)
  }

  ghost predicate ProbesTrue(s: System) {
    forall t :: t in s.tabs ==> ProbeIsTrue(s, t)
  }

  ghost predicate NoncesDiffer(s: System) {
    && (forall t, u :: t in s.tabs && u in s.tabs && t != u && s.tabs[t].probe.Some? && s.tabs[u].probe.Some? ==>
          s.tabs[t].probe.value.nonce != s.tabs[u].probe.value.nonce)
    && (forall h :: h in s.heard ==> h.0 < s.nextNonce)
  }

  ghost predicate HoldersRecorded(s: System) {
    forall t :: t in s.tabs && s.tabs[t].session.Some? ==> (s.tabs[t].session.value, t) in s.everHeld
  }

  ghost predicate Invariant(s: System) {
    ChannelGenuine(s) && ProbesTrue(s) && NoncesDiffer(s) && HoldersRecorded(s)
  }

  lemma {:induction false} StepKeepsChannel(s: System, a: Action)
    requires ChannelGenuine(s) && HoldersRecorded(s)
    ensures ChannelGenuine(Step(s, a)) && HoldersRecorded(Step(s, a)) && s.everHeld <= Step(s, a).everHeld
  {
    var s' := Step(s, a);
    forall m | m in s'.channel ensures ClaimIsGenuine(s', m) {
      if m in s.channel {
        assert ClaimIsGenuine(s, m);
      }
    }
  }

  lemma {:induction false} StepKeepsNonces(s: System, a: Action)
    requires ProbesTrue(s) && NoncesDiffer(s)
    ensures NoncesDiffer(Step(s, a))
  {
    forall t | t in s.tabs && s.tabs[t].probe.Some? ensures s.tabs[t].probe.value.nonce < s.nextNonce {
      assert ProbeIsTrue(s, t);
    }
    NoncesStayDifferent(s, a);
  }

  lemma {:induction false} NoncesStayDifferent(s: System, a: Action)
    requires NoncesDiffer(s)
    requires forall t :: t in s.tabs && s.tabs[t].probe.Some? ==> s.tabs[t].probe.value.nonce < s.nextNonce
    ensures NoncesDiffer(Step(s, a))
  {
    if a.Start? {
      StartKeepsNonces(s, a.tab);
    }
  }

  lemma {:induction false} StartKeepsNonces(s: System, t: TabKey)
    requires NoncesDiffer(s)
    requires forall u :: u in s.tabs && s.tabs[u].probe.Some? ==> s.tabs[u].probe.value.nonce < s.nextNonce
    ensures NoncesDiffer(Step(s, Start(t)))
  {
  }

  lemma {:induction false} StepKeepsProbe(s: System, a: Action, t: TabKey)
    requires Invariant(s) && t in Step(s, a).tabs && s.everHeld <= Step(s, a).everHeld
    ensures ProbeIsTrue(Step(s, a), t)
  {
    var s' := Step(s, a);
    if t in s.tabs && s.tabs[t].probe.Some? {
      assert ProbeIsTrue(s, t);
      var session := s.tabs[t].probe.value.session;
      if OlderEverHeld(s, session, t) {
        var o :| (session, o) in s.everHeld && Older(o, t);
        assert (session, o) in s'.everHeld;
      }
      if a.DeliverClaim? && a.message in s.channel {
        assert ClaimIsGenuine(s, a.message);
      }
    }
  }

  lemma {:induction false} StepKeeps(s: System, a: Action)
    requires Invariant(s)
    ensures Invariant(Step(s, a)) && s.everHeld <= Step(s, a).everHeld
  {
    StepKeepsChannel(s, a);
    StepKeepsNonces(s, a);
    forall t | t in Step(s, a).tabs ensures ProbeIsTrue(Step(s, a), t) {
      StepKeepsProbe(s, a, t);
    }
  }

  lemma {:induction false} RunKeeps(s: System, actions: seq<Action>)
    requires Invariant(s)
    ensures Invariant(Run(s, actions))
    decreases |actions|
  {
    if actions != [] {
      StepKeeps(s, actions[0]);
      RunKeeps(Step(s, actions[0]), actions[1..]);
    }
  }

  // Whatever the delays and losses, ending a probe never takes the session from the oldest of all
  // the tabs that ever held it.
  lemma {:induction false} OldestNeverReleases(actions: seq<Action>, t: TabKey)
    ensures
      var s := Run(EMPTY, actions);
      t in s.tabs && s.tabs[t].session.Some? && !OlderEverHeld(s, s.tabs[t].session.value, t) ==>
        Step(s, End(t)).tabs[t].session == s.tabs[t].session
  {
    RunKeeps(EMPTY, actions);
    var s := Run(EMPTY, actions);
    if t in s.tabs {
      assert ProbeIsTrue(s, t);
    }
  }

  // ---------- one holder remains ----------

  ghost predicate Holds(s: System, t: TabKey, session: Session) {
    t in s.tabs && s.tabs[t].session == Some(session)
  }

  // Tabs may join, probe again and hear claims in any order, and holders stay. A probe for the session ends only
  // when the oldest tab's claim has reached it, if it was posted no earlier than nonce `from`.
  ghost predicate Timely(s: System, a: Action, session: Session, oldest: TabKey, from: Nonce) {
    match a
    case Hold(t, _) => t in s.tabs ==> s.tabs[t] == Tab(None, None)
    case Drop(_) => false
    case Close(_) => false
    case End(t) => t != oldest && Probing(s, t, session, from) ==> (s.tabs[t].probe.value.nonce, oldest) in s.heard
    case _ => true
  }

  ghost predicate Probing(s: System, t: TabKey, session: Session, from: Nonce) {
    && t in s.tabs && s.tabs[t].probe.Some?
    && s.tabs[t].probe.value.session == session && s.tabs[t].probe.value.nonce >= from
  }

  ghost predicate TimelyRun(s: System, actions: seq<Action>, session: Session, oldest: TabKey, from: Nonce)
    decreases |actions|
  {
    actions == [] ||
    (&& Timely(s, actions[0], session, oldest, from)
     && TimelyRun(Step(s, actions[0]), actions[1..], session, oldest, from))
  }

  // A probe that was posted earlier may still have heard an older claim.
  ghost predicate EndsItsTurn(s: System, t: TabKey, session: Session, from: Nonce) {
    Probing(s, t, session, 0) && (Probing(s, t, session, from) || s.tabs[t].probe.value.claimedByOlderTab)
  }

  // The reference: who waits for its turn. A tab that takes the session waits until it has ended a probe.
  ghost function Waiting(
      s: System, actions: seq<Action>, session: Session, from: Nonce, waiting: set<TabKey>): set<TabKey>
    decreases |actions|
  {
    if actions == [] then waiting
    else Waiting(Step(s, actions[0]), actions[1..], session, from, WaitingNext(s, actions[0], session, from, waiting))
  }

  ghost function WaitingNext(s: System, a: Action, session: Session, from: Nonce, waiting: set<TabKey>): set<TabKey> {
    match a
    case Hold(t, x) => if x == session then waiting + {t} else waiting
    case End(t) => if EndsItsTurn(s, t, session, from) then waiting - {t} else waiting
    case _ => waiting
  }

  ghost function OtherHolders(s: System, session: Session, oldest: TabKey): set<TabKey> {
    set t | t in s.tabs && Holds(s, t, session) && t != oldest
  }

  // No tab that ever held the session by the end is older.
  ghost predicate IsOldest(s: System, session: Session, oldest: TabKey) {
    forall q :: (session, q) in s.everHeld ==> !Older(q, oldest)
  }

  // The oldest tab and the waiting ones hold the session, and no other.
  ghost predicate Reigns(s: System, session: Session, oldest: TabKey, waiting: set<TabKey>) {
    && Invariant(s) && oldest !in waiting
    && forall t :: Holds(s, t, session) <==> t == oldest || t in waiting
  }

  lemma {:induction false} OlderIsTotal(a: TabKey, b: TabKey)
    ensures a == b || Older(a, b) || Older(b, a)
    ensures a.startedAt < b.startedAt || (a.startedAt == b.startedAt && a.id < b.id) ==> Older(a, b)
  {
  }

  lemma {:induction false} ReignsStep(
      s: System, a: Action, session: Session, oldest: TabKey, from: Nonce, waiting: set<TabKey>)
    requires Reigns(s, session, oldest, waiting) && Timely(s, a, session, oldest, from)
    requires IsOldest(Step(s, a), session, oldest)
    ensures Reigns(Step(s, a), session, oldest, WaitingNext(s, a, session, from, waiting))
  {
    StepKeeps(s, a);
    assert Holds(s, oldest, session);
    if a.End? && a.tab in s.tabs && s.tabs[a.tab].probe.Some? {
      EndedTurn(s, a.tab, session, oldest, from);
    } else {
      OthersKeepSessions(s, a, session);
    }
  }

  // What a tab holds when no probe ends, or when another tab's does.
  lemma {:induction false} OthersKeepSessions(s: System, a: Action, session: Session)
    requires a.Hold? && a.tab in s.tabs ==> s.tabs[a.tab] == Tab(None, None)
    requires !a.Drop? && !a.Close?
    ensures forall t :: !(a.End? && t == a.tab) ==>
              (Holds(Step(s, a), t, session) <==> Holds(s, t, session) || a == Hold(t, session))
    ensures a.End? && !(a.tab in s.tabs && s.tabs[a.tab].probe.Some?) ==> Step(s, a) == s
  {
  }

  // At the end of its probe the oldest tab keeps the session, and a tab whose turn it was gives it up.
  lemma {:induction false} EndedTurn(s: System, t: TabKey, session: Session, oldest: TabKey, from: Nonce)
    requires Invariant(s) && Holds(s, oldest, session) && IsOldest(s, session, oldest)
    requires Timely(s, End(t), session, oldest, from) && t in s.tabs && s.tabs[t].probe.Some?
    ensures t == oldest ==> Holds(Step(s, End(t)), t, session)
    ensures t != oldest ==>
              (Holds(Step(s, End(t)), t, session) <==> Holds(s, t, session) && !EndsItsTurn(s, t, session, from))
    ensures forall u :: u != t ==> (Holds(Step(s, End(t)), u, session) <==> Holds(s, u, session))
  {
    assert ProbeIsTrue(s, t);
    OlderIsTotal(oldest, t);
    if t != oldest && Holds(s, t, session) {
      assert (session, t) in s.everHeld;
    }
  }

  lemma {:induction false} HoldersOnlyJoin(s: System, actions: seq<Action>)
    requires Invariant(s)
    ensures s.everHeld <= Run(s, actions).everHeld
    decreases |actions|
  {
    if actions != [] {
      StepKeeps(s, actions[0]);
      HoldersOnlyJoin(Step(s, actions[0]), actions[1..]);
    }
  }

  lemma {:induction false} ReignsRun(
      s: System, actions: seq<Action>, session: Session, oldest: TabKey, from: Nonce, waiting: set<TabKey>)
    requires Reigns(s, session, oldest, waiting) && TimelyRun(s, actions, session, oldest, from)
    requires IsOldest(Run(s, actions), session, oldest)
    ensures Reigns(Run(s, actions), session, oldest, Waiting(s, actions, session, from, waiting))
    decreases |actions|
  {
    if actions != [] {
      var s' := Step(s, actions[0]);
      StepKeeps(s, actions[0]);
      HoldersOnlyJoin(s', actions[1..]);
      ReignsStep(s, actions[0], session, oldest, from, waiting);
      ReignsRun(s', actions[1..], session, oldest, from, WaitingNext(s, actions[0], session, from, waiting));
    }
  }

  // From any reachable state in which the oldest tab holds the session: whoever joins, and however often tabs probe,
  // it and the tabs that have not had their turn since are the holders.
  lemma {:induction false} HoldersAreOldestAndWaiting(
      before: seq<Action>, actions: seq<Action>, session: Session, oldest: TabKey, from: Nonce)
    requires
      var s := Run(EMPTY, before);
      && Holds(s, oldest, session) && TimelyRun(s, actions, session, oldest, from)
      && IsOldest(Run(s, actions), session, oldest)
    ensures
      var s := Run(EMPTY, before);
      forall t :: Holds(Run(s, actions), t, session) <==>
        t == oldest || t in Waiting(s, actions, session, from, OtherHolders(s, session, oldest))
  {
    RunKeeps(EMPTY, before);
    var s := Run(EMPTY, before);
    ReignsRun(s, actions, session, oldest, from, OtherHolders(s, session, oldest));
  }

  // ---------- a claim needs no more than two deliveries ----------

  // A tab that holds a session and has no probe open posts one.
  lemma {:induction false} ProbeIsPosted(s: System, t: TabKey, session: Session)
    requires Holds(s, t, session) && s.tabs[t].probe.None?
    ensures
      var s' := Step(s, Start(t));
      && ProbeMessage(s.nextNonce, session, t) in s'.channel
      && s'.tabs[t].probe == Some(Probe(s.nextNonce, session, false)) && Holds(s', t, session)
  {
  }

  // A holder that another tab's probe reaches posts its claim, whatever it is doing itself.
  lemma {:induction false} HolderClaims(s: System, o: TabKey, t: TabKey, nonce: Nonce, session: Session)
    requires Holds(s, o, session) && o != t && ProbeMessage(nonce, session, t) in s.channel
    ensures ClaimMessage(nonce, session, o) in Step(s, DeliverProbe(ProbeMessage(nonce, session, t), o)).channel
  {
  }

  // A claim that reaches the tab whose probe it answers is heard.
  lemma {:induction false} ClaimIsHeard(s: System, o: TabKey, t: TabKey, nonce: Nonce, session: Session)
    requires ClaimMessage(nonce, session, o) in s.channel && o != t
    requires Probing(s, t, session, 0) && s.tabs[t].probe.value.nonce == nonce
    ensures
      var s' := Step(s, DeliverClaim(ClaimMessage(nonce, session, o), t));
      && (nonce, o) in s'.heard && Probing(s', t, session, 0) && s'.tabs[t].probe.value.nonce == nonce
      && (Older(o, t) ==> s'.tabs[t].probe.value.claimedByOlderTab)
      && (Holds(s', t, session) <==> Holds(s, t, session))
  {
  }

  // The round trip: when a probe reaches an older holder and its claim the prober, the end of the probe takes the
  // session.
  lemma {:induction false} RoundTripReleases(s: System, o: TabKey, t: TabKey, nonce: Nonce, session: Session)
    requires Holds(s, o, session) && Holds(s, t, session) && Older(o, t)
    requires ProbeMessage(nonce, session, t) in s.channel
    requires Probing(s, t, session, 0) && s.tabs[t].probe.value.nonce == nonce
    ensures
      var asked := Step(s, DeliverProbe(ProbeMessage(nonce, session, t), o));
      var told := Step(asked, DeliverClaim(ClaimMessage(nonce, session, o), t));
      (nonce, o) in told.heard && !Holds(Step(told, End(t)), t, session)
  {
    HolderClaims(s, o, t, nonce, session);
    ClaimIsHeard(Step(s, DeliverProbe(ProbeMessage(nonce, session, t), o)), o, t, nonce, session);
  }

  // An open probe's message has been posted.
  ghost predicate ProbesPosted(s: System) {
    forall t :: t in s.tabs && s.tabs[t].probe.Some? ==>
      ProbeMessage(s.tabs[t].probe.value.nonce, s.tabs[t].probe.value.session, t) in s.channel
  }

  lemma {:induction false} StepKeepsPosted(s: System, a: Action)
    requires ProbesPosted(s)
    ensures ProbesPosted(Step(s, a)) && s.channel <= Step(s, a).channel && s.heard <= Step(s, a).heard
  {
  }

  lemma {:induction false} RunKeepsPosted(s: System, actions: seq<Action>)
    requires ProbesPosted(s)
    ensures ProbesPosted(Run(s, actions))
    decreases |actions|
  {
    if actions != [] {
      StepKeepsPosted(s, actions[0]);
      RunKeepsPosted(Step(s, actions[0]), actions[1..]);
    }
  }

  // What deliveries alone say, with no look at messages or flags: whose open probe has reached the oldest tab, and
  // which of these have then been reached by its claim.
  datatype Deliveries = Deliveries(asked: set<Nonce>, told: set<Nonce>)

  ghost function Delivered(s: System, a: Action, session: Session, oldest: TabKey, d: Deliveries): Deliveries {
    match a
    case DeliverProbe(m, to) =>
      if to == oldest && m.ProbeMessage? && m.session == session && m.from != oldest &&
          IsOpen(s, m.from, m.nonce, session)
      then d.(asked := d.asked + {m.nonce}) else d
    case DeliverClaim(m, to) =>
      if m == ClaimMessage(m.nonce, session, oldest) && to != oldest && IsOpen(s, to, m.nonce, session) &&
          m.nonce in d.asked
      then d.(told := d.told + {m.nonce}) else d
    case _ => d
  }

  ghost predicate IsOpen(s: System, t: TabKey, nonce: Nonce, session: Session) {
    Probing(s, t, session, 0) && s.tabs[t].probe.value.nonce == nonce
  }

  // Tabs join and stay, and a probe posted since `from` ends only after it has reached the oldest tab and the claim
  // has come back.
  ghost predicate InTime(s: System, a: Action, session: Session, oldest: TabKey, from: Nonce, d: Deliveries) {
    match a
    case Hold(t, _) => t in s.tabs ==> s.tabs[t] == Tab(None, None)
    case Drop(_) => false
    case Close(_) => false
    case End(t) => t != oldest && Probing(s, t, session, from) ==> s.tabs[t].probe.value.nonce in d.told
    case _ => true
  }

  ghost predicate InTimeRun(
      s: System, actions: seq<Action>, session: Session, oldest: TabKey, from: Nonce, d: Deliveries)
    decreases |actions|
  {
    actions == [] ||
    (&& InTime(s, actions[0], session, oldest, from, d)
     && InTimeRun(Step(s, actions[0]), actions[1..], session, oldest, from,
           Delivered(s, actions[0], session, oldest, d)))
  }

  ghost predicate Accounted(s: System, session: Session, oldest: TabKey, d: Deliveries) {
    && (forall n :: n in d.asked ==> ClaimMessage(n, session, oldest) in s.channel)
    && (forall n :: n in d.told ==> (n, oldest) in s.heard)
  }

  lemma {:induction false} DeliveriesAreAccounted(
      s: System, a: Action, session: Session, oldest: TabKey, d: Deliveries)
    requires ProbesPosted(s) && Holds(s, oldest, session) && Accounted(s, session, oldest, d)
    ensures Accounted(Step(s, a), session, oldest, Delivered(s, a, session, oldest, d))
  {
    StepKeepsPosted(s, a);
    match a {
      case DeliverProbe(m, to) =>
        if to == oldest && m.ProbeMessage? && m.session == session && m.from != oldest
           && IsOpen(s, m.from, m.nonce, session)
        {
          HolderClaims(s, oldest, m.from, m.nonce, session);
        }
      case DeliverClaim(m, to) =>
        if m == ClaimMessage(m.nonce, session, oldest) && to != oldest && IsOpen(s, to, m.nonce, session)
           && m.nonce in d.asked
        {
          ClaimIsHeard(s, oldest, to, m.nonce, session);
        }
      case _ =>
    }
  }

  // Deliveries in time are all the election needs: every claim is then heard in time.
  lemma {:induction false} DeliveriesMakeTimely(
      s: System, actions: seq<Action>, session: Session, oldest: TabKey, from: Nonce, waiting: set<TabKey>,
          d: Deliveries)
    requires Reigns(s, session, oldest, waiting) && ProbesPosted(s) && Accounted(s, session, oldest, d)
    requires InTimeRun(s, actions, session, oldest, from, d) && IsOldest(Run(s, actions), session, oldest)
    ensures TimelyRun(s, actions, session, oldest, from)
    decreases |actions|
  {
    if actions != [] {
      var a, s' := actions[0], Step(s, actions[0]);
      assert Timely(s, a, session, oldest, from);
      StepKeeps(s, a);
      StepKeepsPosted(s, a);
      HoldersOnlyJoin(s', actions[1..]);
      assert Holds(s, oldest, session);
      DeliveriesAreAccounted(s, a, session, oldest, d);
      ReignsStep(s, a, session, oldest, from, waiting);
      DeliveriesMakeTimely(s', actions[1..], session, oldest, from, WaitingNext(s, a, session, from, waiting),
                           Delivered(s, a, session, oldest, d));
    }
  }

  // So the holders are the oldest tab and those waiting for their turn whenever probes and claims are delivered in
  // time.
  lemma {:induction false} DeliveriesElectTheOldest(
      before: seq<Action>, actions: seq<Action>, session: Session, oldest: TabKey, from: Nonce)
    requires
      var s := Run(EMPTY, before);
      && Holds(s, oldest, session) && InTimeRun(s, actions, session, oldest, from, Deliveries({}, {}))
      && IsOldest(Run(s, actions), session, oldest)
    ensures
      var s := Run(EMPTY, before);
      && TimelyRun(s, actions, session, oldest, from)
      && forall t :: Holds(Run(s, actions), t, session) <==>
           t == oldest || t in Waiting(s, actions, session, from, OtherHolders(s, session, oldest))
  {
    RunKeeps(EMPTY, before);
    RunKeepsPosted(EMPTY, before);
    var s := Run(EMPTY, before);
    DeliveriesMakeTimely(s, actions, session, oldest, from, OtherHolders(s, session, oldest), Deliveries({}, {}));
    HoldersAreOldestAndWaiting(before, actions, session, oldest, from);
  }

  // ---------- one probe a tab ----------

  // A tab takes a session once, when it opens, and probes once.
  ghost predicate Orderly(s: System, a: Action) {
    match a
    case Hold(t, _) => t !in s.tabs && t !in s.probed
    case Start(t) => t !in s.probed
    case _ => true
  }

  ghost predicate OrderlyRun(s: System, actions: seq<Action>)
    decreases |actions|
  {
    actions == [] || (Orderly(s, actions[0]) && OrderlyRun(Step(s, actions[0]), actions[1..]))
  }

  ghost predicate ProbesOnce(s: System) {
    forall t :: t in s.tabs && s.tabs[t].probe.Some? ==>
      t !in s.probed && (s.tabs[t].session.Some? ==> s.tabs[t].session.value == s.tabs[t].probe.value.session)
  }

  lemma {:induction false} OrderlyStep(s: System, a: Action)
    requires ProbesOnce(s) && Orderly(s, a)
    ensures ProbesOnce(Step(s, a)) && s.probed <= Step(s, a).probed
  {
  }

  lemma {:induction false} OrderlyKeeps(s: System, actions: seq<Action>)
    requires ProbesOnce(s) && OrderlyRun(s, actions)
    ensures ProbesOnce(Run(s, actions))
    decreases |actions|
  {
    if actions != [] {
      OrderlyStep(s, actions[0]);
      OrderlyKeeps(Step(s, actions[0]), actions[1..]);
    }
  }

  // Another holder ends a probe that heard no older claim: one posted before nonce `from`.
  ghost predicate EndsUnheard(s: System, a: Action, session: Session, oldest: TabKey, from: Nonce) {
    && a.End? && a.tab != oldest && Holds(s, a.tab, session)
    && Probing(s, a.tab, session, 0) && !EndsItsTurn(s, a.tab, session, from)
  }

  ghost predicate NoneEndsUnheard(s: System, actions: seq<Action>, session: Session, oldest: TabKey, from: Nonce)
    decreases |actions|
  {
    actions == [] ||
    (&& !EndsUnheard(s, actions[0], session, oldest, from)
     && NoneEndsUnheard(Step(s, actions[0]), actions[1..], session, oldest, from))
  }

  // A waiting tab that has probed waits for ever.
  ghost predicate Stuck(s: System, waiting: set<TabKey>) {
    exists t :: t in waiting && t in s.probed
  }

  lemma {:induction false} StuckStep(
      s: System, a: Action, session: Session, oldest: TabKey, from: Nonce, waiting: set<TabKey>)
    requires Reigns(s, session, oldest, waiting) && ProbesOnce(s) && Orderly(s, a)
    ensures Stuck(Step(s, a), WaitingNext(s, a, session, from, waiting)) <==>
              Stuck(s, waiting) || EndsUnheard(s, a, session, oldest, from)
  {
    var s', next := Step(s, a), WaitingNext(s, a, session, from, waiting);
    forall t ensures t in next && t in s'.probed <==>
        (t in waiting && t in s.probed) || (EndsUnheard(s, a, session, oldest, from) && t == a.tab)
    {
      if a.End? && t == a.tab && t in waiting {
        assert Holds(s, t, session);
      }
    }
    if EndsUnheard(s, a, session, oldest, from) {
      assert a.tab in next && a.tab in s'.probed;
    }
    if t :| t in waiting && t in s.probed {
      assert t in next && t in s'.probed;
    }
  }

  lemma {:induction false} StuckRun(
      s: System, actions: seq<Action>, session: Session, oldest: TabKey, from: Nonce, waiting: set<TabKey>)
    requires Reigns(s, session, oldest, waiting) && TimelyRun(s, actions, session, oldest, from)
    requires ProbesOnce(s) && OrderlyRun(s, actions) && IsOldest(Run(s, actions), session, oldest)
    ensures Stuck(Run(s, actions), Waiting(s, actions, session, from, waiting)) <==>
              Stuck(s, waiting) || !NoneEndsUnheard(s, actions, session, oldest, from)
    decreases |actions|
  {
    if actions != [] {
      var a, s' := actions[0], Step(s, actions[0]);
      StepKeeps(s, a);
      HoldersOnlyJoin(s', actions[1..]);
      ReignsStep(s, a, session, oldest, from, waiting);
      OrderlyStep(s, a);
      StuckStep(s, a, session, oldest, from, waiting);
      StuckRun(s', actions[1..], session, oldest, from, WaitingNext(s, a, session, from, waiting));
    }
  }

  ghost predicate OnlyHolder(s: System, session: Session, oldest: TabKey) {
    forall t :: Holds(s, t, session) ==> t == oldest
  }

  ghost predicate NoOtherProbed(s: System, session: Session, oldest: TabKey) {
    forall t :: t in s.probed && Holds(s, t, session) ==> t == oldest
  }

  // The life of tabs that probe once each, from no tab at all, through a time at which the oldest tab holds the session
  // to one at which all other holders have probed. Claims from nonce `from` on arrive in time.
  ghost predicate WholeLife(
      before: seq<Action>, after: seq<Action>, session: Session, oldest: TabKey, from: Nonce)
  {
    var s := Run(EMPTY, before);
    && OrderlyRun(EMPTY, before) && OrderlyRun(s, after)
    && Holds(s, oldest, session) && TimelyRun(s, after, session, oldest, from)
    && IsOldest(Run(s, after), session, oldest)
    && forall t :: t != oldest && Holds(Run(s, after), t, session) ==> t in Run(s, after).probed
  }

  lemma {:induction false} OnlyHolderExactly(
      before: seq<Action>, after: seq<Action>, session: Session, oldest: TabKey, from: Nonce)
    requires WholeLife(before, after, session, oldest, from)
    ensures
      var s := Run(EMPTY, before);
      && Holds(Run(s, after), oldest, session)
      && (OnlyHolder(Run(s, after), session, oldest) <==>
            NoOtherProbed(s, session, oldest) && NoneEndsUnheard(s, after, session, oldest, from))
  {
    RunKeeps(EMPTY, before);
    OrderlyKeeps(EMPTY, before);
    var s := Run(EMPTY, before);
    var waiting := OtherHolders(s, session, oldest);
    ReignsRun(s, after, session, oldest, from, waiting);
    StuckRun(s, after, session, oldest, from, waiting);
    StuckMeansHolds(s, session, oldest, waiting);
    var s', waiting' := Run(s, after), Waiting(s, after, session, from, waiting);
    StuckMeansHolds(s', session, oldest, waiting');
    assert NoOtherProbed(s', session, oldest) <==> OnlyHolder(s', session, oldest);
  }

  lemma {:induction false} StuckMeansHolds(s: System, session: Session, oldest: TabKey, waiting: set<TabKey>)
    requires forall t :: Holds(s, t, session) <==> t == oldest || t in waiting
    requires oldest !in waiting
    ensures Stuck(s, waiting) <==> !NoOtherProbed(s, session, oldest)
  {
    if t :| t in waiting && t in s.probed {
      assert Holds(s, t, session) && t != oldest;
    }
  }

  // When every probe posted since the oldest tab took the session hears its claim in time, and all holders have
  // probed, it is the only one if and only if, when it took the session, no other holder had already probed, and none
  // ended unheard a probe it had posted before.
  lemma {:induction false} ExactlyOneHolderRemains(
      before: seq<Action>, after: seq<Action>, session: Session, oldest: TabKey)
    requires WholeLife(before, after, session, oldest, Run(EMPTY, before).nextNonce)
    ensures
      var s := Run(EMPTY, before);
      && Holds(Run(s, after), oldest, session)
      && (OnlyHolder(Run(s, after), session, oldest) <==>
            NoOtherProbed(s, session, oldest) && NoneEndsUnheard(s, after, session, oldest, s.nextNonce))
  {
    OnlyHolderExactly(before, after, session, oldest, Run(EMPTY, before).nextNonce);
  }

  // If the probes that were open at that time hear the claim as well, the first condition alone decides.
  lemma {:induction false} OneHolderIfAllHear(
      before: seq<Action>, after: seq<Action>, session: Session, oldest: TabKey)
    requires WholeLife(before, after, session, oldest, 0)
    ensures
      var s := Run(EMPTY, before);
      OnlyHolder(Run(s, after), session, oldest) <==> NoOtherProbed(s, session, oldest)
  {
    var s := Run(EMPTY, before);
    OnlyHolderExactly(before, after, session, oldest, 0);
    AllAreHeard(s, after, session, oldest);
  }

  lemma {:induction false} AllAreHeard(s: System, actions: seq<Action>, session: Session, oldest: TabKey)
    ensures NoneEndsUnheard(s, actions, session, oldest, 0)
    decreases |actions|
  {
    if actions != [] {
      AllAreHeard(Step(s, actions[0]), actions[1..], session, oldest);
    }
  }

  // A probe that is open when an older tab takes the session, and reached that tab before it had it: no claim is late,
  // the younger had not finished probing, and both keep the session.
  lemma {:induction false} OpenProbeLeavesTwoHolders()
    ensures
      var elder, young := TabKey(0, 0), TabKey(1, 1);
      var before, after := [Hold(young, 7), Start(young), Hold(elder, 7)], [End(young), Start(elder), End(elder)];
      var s := Run(EMPTY, before);
      && WholeLife(before, after, 7, elder, s.nextNonce)
      && NoOtherProbed(s, 7, elder) && !OnlyHolder(Run(s, after), 7, elder)
  {
    var elder, young := TabKey(0, 0), TabKey(1, 1);
    var s1 := Step(EMPTY, Hold(young, 7));
    var s2 := Step(s1, Start(young));
    var s := Step(s2, Hold(elder, 7));
    RunThree(EMPTY, Hold(young, 7), Start(young), Hold(elder, 7), 7, elder, 0);
    assert s.tabs == map[young := Tab(Some(7), Some(Probe(0, 7, false))), elder := Tab(Some(7), None)];
    var s4 := Step(s, End(young));
    var s5 := Step(s4, Start(elder));
    var s6 := Step(s5, End(elder));
    assert s4.tabs == map[young := Tab(Some(7), None), elder := Tab(Some(7), None)];
    assert s6.tabs == map[young := Tab(Some(7), None), elder := Tab(Some(7), None)];
    RunThree(s, End(young), Start(elder), End(elder), 7, elder, s.nextNonce);
    assert Holds(s6, young, 7) && young != elder;
  }

  lemma {:induction false} RunThree(
      s: System, a: Action, b: Action, c: Action, session: Session, oldest: TabKey, from: Nonce)
    ensures Run(s, [a, b, c]) == Step(Step(Step(s, a), b), c)
    ensures OrderlyRun(s, [a, b, c]) <==> Orderly(s, a) && Orderly(Step(s, a), b) && Orderly(Step(Step(s, a), b), c)
    ensures TimelyRun(s, [a, b, c], session, oldest, from) <==>
              && Timely(s, a, session, oldest, from) && Timely(Step(s, a), b, session, oldest, from)
              && Timely(Step(Step(s, a), b), c, session, oldest, from)
  {
    assert [a, b, c][1..] == [b, c] && [b, c][1..] == [c] && [c][1..] == [];
    var s1 := Step(s, a);
    assert Run(s1, [b, c]) == Run(Step(s1, b), [c]) == Step(Step(s1, b), c);
    assert OrderlyRun(Step(s1, b), [c]) <==> Orderly(Step(s1, b), c);
    assert OrderlyRun(s1, [b, c]) <==> Orderly(s1, b) && OrderlyRun(Step(s1, b), [c]);
    assert TimelyRun(Step(s1, b), [c], session, oldest, from) <==> Timely(Step(s1, b), c, session, oldest, from);
    assert TimelyRun(s1, [b, c], session, oldest, from) <==>
           Timely(s1, b, session, oldest, from) && TimelyRun(Step(s1, b), [c], session, oldest, from);
  }

  // The whole run of a tab that restores the session after a younger holder has finished probing: every claim is
  // heard in time, and both keep the session.
  lemma {:induction false} LateOlderTabLeavesTwoHolders()
    ensures
      var elder, young := TabKey(0, 0), TabKey(1, 1);
      var s := Run(EMPTY, [Hold(young, 7), Start(young), End(young), Hold(elder, 7)]);
      var after := [Start(elder), DeliverProbe(ProbeMessage(1, 7, elder), young),
                    DeliverClaim(ClaimMessage(1, 7, young), elder), End(elder)];
      && TimelyRun(s, after, 7, elder, 0) && Run(s, after).probed == {elder, young}
      && Holds(Run(s, after), elder, 7) && Holds(Run(s, after), young, 7)
  {
    var elder, young := TabKey(0, 0), TabKey(1, 1);
    var s0 := Step(Step(Step(Step(EMPTY, Hold(young, 7)), Start(young)), End(young)), Hold(elder, 7));
    YoungProbesAlone();
    RunFour(EMPTY, Hold(young, 7), Start(young), End(young), Hold(elder, 7));
    var a1, a2 := DeliverProbe(ProbeMessage(1, 7, elder), young), DeliverClaim(ClaimMessage(1, 7, young), elder);
    ElderHearsOnlyYounger(s0);
    RunFour(s0, Start(elder), a1, a2, End(elder));
    TimelyFour(s0, Start(elder), a1, a2, End(elder), 7, elder);
  }

  lemma {:induction false} RunFour(s: System, a: Action, b: Action, c: Action, d: Action)
    ensures Run(s, [a, b, c, d]) == Step(Step(Step(Step(s, a), b), c), d)
  {
    assert [a, b, c, d][1..] == [b, c, d] && [b, c, d][1..] == [c, d];
    assert Run(s, [a, b, c, d]) == Run(Step(Step(s, a), b), [c, d]);
    assert [c, d][1..] == [d] && [d][1..] == [];
    assert Run(Step(Step(Step(s, a), b), c), [d]) == Step(Step(Step(Step(s, a), b), c), d);
  }

  lemma {:induction false} TimelyFour(
      s: System, a: Action, b: Action, c: Action, d: Action, session: Session, oldest: TabKey)
    requires Timely(s, a, session, oldest, 0) && Timely(Step(s, a), b, session, oldest, 0)
    requires Timely(Step(Step(s, a), b), c, session, oldest, 0)
    requires Timely(Step(Step(Step(s, a), b), c), d, session, oldest, 0)
    ensures TimelyRun(s, [a, b, c, d], session, oldest, 0)
  {
    assert [c, d][1..] == [d] && [d][1..] == [];
    assert TimelyRun(Step(Step(s, a), b), [c, d], session, oldest, 0);
    assert [a, b, c, d][1..] == [b, c, d] && [b, c, d][1..] == [c, d];
  }

  lemma {:induction false} ElderHearsOnlyYounger(s: System)
    requires s.tabs == map[TabKey(1, 1) := Tab(Some(7), None), TabKey(0, 0) := Tab(Some(7), None)]
    requires s.nextNonce == 1 && s.probed == {TabKey(1, 1)}
    ensures
      var elder, young := TabKey(0, 0), TabKey(1, 1);
      var s0 := Step(s, Start(elder));
      var s1 := Step(s0, DeliverProbe(ProbeMessage(1, 7, elder), young));
      var s2 := Step(s1, DeliverClaim(ClaimMessage(1, 7, young), elder));
      var s3 := Step(s2, End(elder));
      s3.probed == {elder, young} && Holds(s3, elder, 7) && Holds(s3, young, 7)
  {
    var elder := TabKey(0, 0);
    assert Step(s, Start(elder)).tabs == s.tabs[elder := Tab(Some(7), Some(Probe(1, 7, false)))];
  }

  lemma {:induction false} YoungProbesAlone()
    ensures
      var young := TabKey(1, 1);
      var s := Step(Step(Step(EMPTY, Hold(young, 7)), Start(young)), End(young));
      s.tabs == map[young := Tab(Some(7), None)] && s.nextNonce == 1 && s.probed == {young}
  {
  }
}
