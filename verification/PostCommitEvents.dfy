/** Model of post-commit event batches: each open transaction or savepoint owns a batch,
    and the map of batches is shown to be a flat log that savepoint rollback truncates. */
module PostCommitEvents {
  import opened Basics

  // A session transaction; equality stands for object identity, as ids are never reused.
  datatype Txn = Root(id: nat) | Savepoint(id: nat, parent: Txn)

  // The id tells two registrations of equal events apart.
  datatype Event = Event(id: nat, name: string)

  datatype Action = Register(event: Event) | BeginNested | Commit | Rollback

  datatype State = State(current: Option<Txn>, nextId: nat, batches: map<Txn, seq<Event>>, emitted: seq<Event>)

  // ---------- the operations ----------

  predicate Descends(candidate: Txn, ancestor: Txn) {
    candidate == ancestor || (candidate.Savepoint? && Descends(candidate.parent, ancestor))
  }

  function Batch(batches: map<Txn, seq<Event>>, t: Txn): seq<Event> {
    if t in batches then batches[t] else []
  }

  // The session begins its root transaction on first use.
  function Begun(s: State): State {
    if s.current.Some? then s else s.(current := Some(Root(s.nextId)), nextId := s.nextId + 1)
  }

  function RegisterEvent(s: State, e: Event): State {
    var s := Begun(s);
    s.(batches := s.batches[s.current.value := Batch(s.batches, s.current.value) + [e]])
  }

  function NestedBegun(s: State): State {
    var s := Begun(s);
    s.(current := Some(Savepoint(s.nextId, s.current.value)), nextId := s.nextId + 1)
  }

  function AfterCommit(s: State): State {
    if s.current.None? then s
    else
      var t := s.current.value;
      var batch, others := Batch(s.batches, t), s.batches - {t};
      if t.Savepoint? then s.(batches := others[t.parent := Batch(others, t.parent) + batch])
      else s.(batches := map[], emitted := s.emitted + batch)
  }

  function AfterTransactionEnd(batches: map<Txn, seq<Event>>, ended: Txn): map<Txn, seq<Event>> {
    map owner | owner in batches && !Descends(owner, ended) :: batches[owner]
  }

  function Ended(s: State): State
    requires s.current.Some?
  {
    var t := s.current.value;
    s.(batches := AfterTransactionEnd(s.batches, t), current := if t.Savepoint? then Some(t.parent) else None)
  }

  function Step(s: State, a: Action): State {
    match a
    case Register(e) => RegisterEvent(s, e)
    case BeginNested => NestedBegun(s)
    case Commit => Ended(AfterCommit(Begun(s)))
    case Rollback => if s.current.None? then s else Ended(s)
  }

  const FRESH := State(None, 0, map[], [])

  // ---------- the reference: a flat log ----------

  // marks[d] is the length of the log when the d-th open savepoint began.
  datatype Log = Log(open: bool, log: seq<Event>, marks: seq<nat>, emitted: seq<Event>)

  ghost predicate ValidLog(l: Log) {
    && (forall d :: 0 <= d < |l.marks| ==> l.marks[d] <= |l.log|)
    && (forall d, e :: 0 <= d < e < |l.marks| ==> l.marks[d] <= l.marks[e])
  }

  function LogStep(l: Log, a: Action): Log
    requires l.marks == [] || l.marks[|l.marks| - 1] <= |l.log|
  {
    match a
    case Register(e) => l.(open := true, log := l.log + [e])
    case BeginNested => l.(open := true, marks := l.marks + [|l.log|])
    case Commit =>
      if l.marks == [] then Log(false, [], [], l.emitted + l.log)
      else l.(marks := l.marks[..|l.marks| - 1])
    case Rollback =>
      if l.marks == [] then Log(false, [], [], l.emitted)
      else l.(log := l.log[..l.marks[|l.marks| - 1]], marks := l.marks[..|l.marks| - 1])
  }

  // ---------- refinement ----------

  ghost function Flat(batches: map<Txn, seq<Event>>, t: Txn): seq<Event> {
    if t.Root? then Batch(batches, t) else Flat(batches, t.parent) + Batch(batches, t)
  }

  ghost function Marks(batches: map<Txn, seq<Event>>, t: Txn): seq<nat> {
    if t.Root? then [] else Marks(batches, t.parent) + [|Flat(batches, t.parent)|]
  }

  ghost function Abstract(s: State): Log {
    if s.current.None? then Log(false, [], [], s.emitted)
    else Log(true, Flat(s.batches, s.current.value), Marks(s.batches, s.current.value), s.emitted)
  }

  // Only open scopes own a batch.
  ghost predicate Valid(s: State) {
    if s.current.None? then s.batches == map[]
    else forall owner :: owner in s.batches ==> Descends(s.current.value, owner)
  }

  lemma {:induction false} DescendsOrder(a: Txn, b: Txn, c: Txn)
    requires Descends(a, b) && Descends(b, c)
    ensures Descends(a, c)
  {
    if a != b {
      DescendsOrder(a.parent, b, c);
    }
  }

  ghost function Height(t: Txn): nat {
    if t.Root? then 0 else Height(t.parent) + 1
  }

  lemma {:induction false} AncestorsAreLower(a: Txn, b: Txn)
    requires Descends(a, b)
    ensures Height(b) <= Height(a)
    ensures a != b ==> Height(b) < Height(a)
  {
    if a != b {
      AncestorsAreLower(a.parent, b);
    }
  }

  lemma {:induction false} NoMutualDescent(a: Txn, b: Txn)
    requires Descends(a, b) && Descends(b, a)
    ensures a == b
  {
    AncestorsAreLower(a, b);
    AncestorsAreLower(b, a);
  }

  // Batches of scopes that t is not inside do not matter to t.
  lemma {:induction false} FlatFrame(b: map<Txn, seq<Event>>, b': map<Txn, seq<Event>>, t: Txn)
    requires forall o :: Descends(t, o) ==> Batch(b, o) == Batch(b', o)
    ensures Flat(b, t) == Flat(b', t) && Marks(b, t) == Marks(b', t)
  {
    assert Descends(t, t);
    if t.Savepoint? {
      forall o | Descends(t.parent, o) ensures Batch(b, o) == Batch(b', o) {
        assert Descends(t, o);
      }
      FlatFrame(b, b', t.parent);
    }
  }

  lemma {:induction false} MarksValid(b: map<Txn, seq<Event>>, t: Txn)
    ensures ValidLog(Log(true, Flat(b, t), Marks(b, t), []))
  {
    if t.Savepoint? {
      MarksValid(b, t.parent);
    }
  }

  lemma {:induction false} AbstractValid(s: State)
    ensures ValidLog(Abstract(s))
  {
    if s.current.Some? {
      MarksValid(s.batches, s.current.value);
    }
  }

  lemma {:induction false} CommitRefines(s: State)
    requires Valid(s) && s.current.Some?
    ensures
      var s' := Ended(AfterCommit(s));
      ValidLog(Abstract(s)) && Valid(s') && Abstract(s') == LogStep(Abstract(s), Commit)
  {
    AbstractValid(s);
    if s.current.value.Savepoint? {
      SavepointCommitKeepsBatches(s);
      SavepointCommitRefines(s);
    }
  }

  // After a savepoint's commit its parent owns both batches, and no other open scope's batch changed.
  lemma {:induction false} SavepointCommitKeepsBatches(s: State)
    requires Valid(s) && s.current.Some? && s.current.value.Savepoint?
    ensures
      var t, s' := s.current.value, Ended(AfterCommit(s));
      && Valid(s')
      && Batch(s'.batches, t.parent) == Batch(s.batches, t.parent) + Batch(s.batches, t)
      && forall o :: Descends(t.parent, o) && o != t.parent ==> Batch(s'.batches, o) == Batch(s.batches, o)
  {
    var t := s.current.value;
    var p, s' := t.parent, Ended(AfterCommit(s));
    forall o | Descends(p, o) ensures !Descends(o, t) {
      if Descends(o, t) {
        DescendsOrder(p, o, t);
        NoMutualDescent(t, p);
      }
    }
    forall owner | owner in s'.batches ensures Descends(p, owner) {
      if owner != p { assert Descends(t, owner); }
    }
  }

  lemma {:induction false} SavepointCommitRefines(s: State)
    requires Valid(s) && s.current.Some? && s.current.value.Savepoint?
    requires
      var t, s' := s.current.value, Ended(AfterCommit(s));
      && Batch(s'.batches, t.parent) == Batch(s.batches, t.parent) + Batch(s.batches, t)
      && forall o :: Descends(t.parent, o) && o != t.parent ==> Batch(s'.batches, o) == Batch(s.batches, o)
    ensures ValidLog(Abstract(s)) && Abstract(Ended(AfterCommit(s))) == LogStep(Abstract(s), Commit)
  {
    AbstractValid(s);
    var t, s' := s.current.value, Ended(AfterCommit(s));
    var b, b', p := s.batches, s'.batches, t.parent;
    AbovePrefix(b, b', p);
    assert Flat(b, t) == Flat(b, p) + Batch(b, t);
    assert Flat(b', p) == Flat(b, p) + Batch(b, t);
    assert Marks(b, t) == Marks(b, p) + [|Flat(b, p)|];
    assert (Marks(b, p) + [|Flat(b, p)|])[..|Marks(b, p)|] == Marks(b, p);
  }

  // Giving a scope more events appends them to what it stands for.
  lemma {:induction false} AbovePrefix(b: map<Txn, seq<Event>>, b': map<Txn, seq<Event>>, p: Txn)
    requires Batch(b, p) <= Batch(b', p)
    requires forall o :: Descends(p, o) && o != p ==> Batch(b', o) == Batch(b, o)
    ensures Flat(b', p) == Flat(b, p) + Batch(b', p)[|Batch(b, p)|..] && Marks(b', p) == Marks(b, p)
  {
    var more := Batch(b', p)[|Batch(b, p)|..];
    assert Batch(b', p) == Batch(b, p) + more;
    if p.Savepoint? {
      forall o | Descends(p.parent, o) ensures Batch(b, o) == Batch(b', o) {
        AncestorsAreLower(p.parent, o);
      }
      FlatFrame(b, b', p.parent);
      AppendAssociates(Flat(b, p.parent), Batch(b, p), more);
    }
  }

  lemma {:induction false} RollbackRefines(s: State)
    requires Valid(s) && s.current.Some?
    ensures
      var s' := Ended(s);
      ValidLog(Abstract(s)) && Valid(s') && Abstract(s') == LogStep(Abstract(s), Rollback)
  {
    AbstractValid(s);
    RollbackKeepsBatches(s);
    if s.current.value.Savepoint? {
      SavepointRollbackRefines(s);
    }
  }

  // After a rollback the scopes that stay open own what they owned.
  lemma {:induction false} RollbackKeepsBatches(s: State)
    requires Valid(s) && s.current.Some?
    ensures
      var t, s' := s.current.value, Ended(s);
      && Valid(s')
      && (t.Savepoint? ==> forall o :: Descends(t.parent, o) ==> Batch(s.batches, o) == Batch(s'.batches, o))
  {
    var t := s.current.value;
    var s' := Ended(s);
    forall owner | owner in s'.batches ensures t.Savepoint? && Descends(t.parent, owner) {
      assert Descends(t, owner);
      assert Descends(t, t);
    }
    if t.Savepoint? {
      forall o | Descends(t.parent, o) ensures !Descends(o, t) {
        AncestorsAreLower(t.parent, o);
        if Descends(o, t) { AncestorsAreLower(o, t); }
      }
    }
  }

  lemma {:induction false} SavepointRollbackRefines(s: State)
    requires Valid(s) && s.current.Some? && s.current.value.Savepoint?
    requires
      var p, s' := s.current.value.parent, Ended(s);
      forall o :: Descends(p, o) ==> Batch(s.batches, o) == Batch(s'.batches, o)
    ensures ValidLog(Abstract(s)) && Abstract(Ended(s)) == LogStep(Abstract(s), Rollback)
  {
    AbstractValid(s);
    var t, b, b' := s.current.value, s.batches, Ended(s).batches;
    var p := t.parent;
    FlatFrame(b, b', p);
    assert Marks(b, t) == Marks(b, p) + [|Flat(b, p)|];
    assert (Marks(b, p) + [|Flat(b, p)|])[..|Marks(b, p)|] == Marks(b, p);
    assert Flat(b, t)[..|Flat(b, p)|] == Flat(b, p);
  }

  lemma {:induction false} OpenRefines(s: State, a: Action)
    requires Valid(s) && (a.Register? || a.BeginNested?)
    ensures ValidLog(Abstract(s)) && Valid(Step(s, a)) && Abstract(Step(s, a)) == LogStep(Abstract(s), a)
  {
    AbstractValid(s);
    var b := Begun(s);
    var t := b.current.value;
    assert Descends(t, t);
    if a.Register? {
      var s' := Step(s, a);
      if t.Savepoint? {
        forall o | Descends(t.parent, o) ensures Batch(b.batches, o) == Batch(s'.batches, o) {
          AncestorsAreLower(t.parent, o);
        }
        FlatFrame(b.batches, s'.batches, t.parent);
      }
    } else {
      var n := Step(s, a).current.value;
      assert n !in b.batches by {
        if n in b.batches { AncestorsAreLower(t, n); }
      }
      assert Flat(b.batches, n) == Flat(b.batches, t) + [] == Flat(b.batches, t);
      assert Marks(b.batches, n) == Marks(b.batches, t) + [|Flat(b.batches, t)|];
      if s.current.None? {
        assert Flat(b.batches, t) == [] && Marks(b.batches, t) == [];
      }
      assert Abstract(Step(s, a)).marks == Marks(b.batches, n);
    }
  }

  // Every step of the batch map is the same step of the flat log.
  lemma {:induction false} StepRefines(s: State, a: Action)
    requires Valid(s)
    ensures ValidLog(Abstract(s)) && Valid(Step(s, a)) && Abstract(Step(s, a)) == LogStep(Abstract(s), a)
  {
    match a {
      case Commit => CommitRefines(Begun(s));
      case Rollback => if s.current.Some? { RollbackRefines(s); }
      case _ => OpenRefines(s, a);
    }
  }

  // ---------- the fate of each registration ----------

  function Run(actions: seq<Action>, t: nat): State
    requires t <= |actions|
  {
    if t == 0 then FRESH else Step(Run(actions, t - 1), actions[t - 1])
  }

  ghost predicate Tagged(actions: seq<Action>) {
    forall i :: 0 <= i < |actions| && actions[i].Register? ==> actions[i].event.id == i
  }

  // How many savepoints are open after t actions.
  function Depth(actions: seq<Action>, t: nat): nat
    requires t <= |actions|
  {
    if t == 0 then 0
    else
      var d := Depth(actions, t - 1);
      match actions[t - 1]
      case Register(_) => d
      case BeginNested => d + 1
      case _ => if d == 0 then 0 else d - 1
  }

  datatype Fate = Held(scope: nat) | Discarded | Published(at: nat)

  // Follows one registration alone: a commit of the scope that holds it hands it to the
  // enclosing scope or publishes it, a rollback of that scope discards it.
  function FateOf(actions: seq<Action>, i: nat, t: nat): Fate
    requires i < t <= |actions|
    decreases t
  {
    if t == i + 1 then Held(Depth(actions, i))
    else
      var f, d := FateOf(actions, i, t - 1), Depth(actions, t - 1);
      if f != Held(d) then f
      else match actions[t - 1]
        case Commit => if d == 0 then Published(t - 1) else Held(d - 1)
        case Rollback => Discarded
        case _ => f
  }

  // Position p of a log with these marks was written in the scope-th open savepoint.
  ghost predicate InScope(marks: seq<nat>, p: nat, scope: nat) {
    && scope <= |marks|
    && (scope > 0 ==> marks[scope - 1] <= p)
    && (scope < |marks| ==> p < marks[scope])
  }

  ghost predicate Ascending(events: seq<Event>) {
    forall p, q :: 0 <= p < q < |events| ==> events[p].id < events[q].id
  }

  ghost predicate PublishedBy(actions: seq<Action>, t: nat, e: Event)
    requires t <= |actions|
  {
    e.id < t && actions[e.id] == Register(e) && FateOf(actions, e.id, t).Published?
  }

  ghost predicate HeldAt(actions: seq<Action>, t: nat, l: Log, p: nat)
    requires t <= |actions| && p < |l.log|
  {
    var i := l.log[p].id;
    && i < t && actions[i] == Register(l.log[p])
    && FateOf(actions, i, t).Held? && InScope(l.marks, p, FateOf(actions, i, t).scope)
  }

  // What the flat log holds after t actions, event by event.
  ghost predicate Accounted(actions: seq<Action>, t: nat, l: Log)
    requires t <= |actions|
  {
    && ValidLog(l) && |l.marks| == Depth(actions, t)
    && Ascending(l.emitted + l.log)
    && (forall p :: 0 <= p < |l.log| ==> HeldAt(actions, t, l, p))
    && (forall p :: 0 <= p < |l.emitted| ==> PublishedBy(actions, t, l.emitted[p]))
    && (forall i :: 0 <= i < t && actions[i].Register? ==>
          actions[i].event in l.log || actions[i].event in l.emitted || FateOf(actions, i, t).Discarded?)
  }

  // A held event in the log follows the step in the same way as its fate does.
  lemma {:induction false} HeldStep(actions: seq<Action>, t: nat, l: Log, p: nat)
    requires t < |actions| && ValidLog(l) && |l.marks| == Depth(actions, t)
    requires p < |l.log| && HeldAt(actions, t, l, p)
    ensures
      var l' := LogStep(l, actions[t]);
      var i := l.log[p].id;
      if p < |l'.log| then l'.log[p] == l.log[p] && HeldAt(actions, t + 1, l', p)
      else if actions[t] == Commit then FateOf(actions, i, t + 1) == Published(t)
      else FateOf(actions, i, t + 1) == Discarded
  {
    var i, d := l.log[p].id, Depth(actions, t);
    assert FateOf(actions, i, t + 1) ==
           if FateOf(actions, i, t) != Held(d) then FateOf(actions, i, t)
           else match actions[t]
             case Commit => if d == 0 then Published(t) else Held(d - 1)
             case Rollback => Discarded
             case _ => FateOf(actions, i, t);
  }

  lemma {:induction false} AccountedStep(actions: seq<Action>, t: nat, l: Log)
    requires Tagged(actions) && t < |actions|
    requires Accounted(actions, t, l)
    requires ValidLog(LogStep(l, actions[t]))
    ensures Accounted(actions, t + 1, LogStep(l, actions[t]))
  {
    var l' := LogStep(l, actions[t]);
    var next := t + 1;
    forall p | 0 <= p < |l'.log| ensures HeldAt(actions, next, l', p) {
      if p < |l.log| {
        HeldStep(actions, t, l, p);
      }
    }
    forall p | 0 <= p < |l.emitted| ensures PublishedBy(actions, t + 1, l.emitted[p]) {
      assert PublishedBy(actions, t, l.emitted[p]);
    }
    forall p | |l.emitted| <= p < |l'.emitted| ensures PublishedBy(actions, t + 1, l'.emitted[p]) {
      assert l'.emitted[p] == l.log[p - |l.emitted|];
      HeldStep(actions, t, l, p - |l.emitted|);
    }
    AscendingStep(actions, t, l);
    forall i | 0 <= i < t + 1 && actions[i].Register?
      ensures actions[i].event in l'.log || actions[i].event in l'.emitted || FateOf(actions, i, t + 1).Discarded?
    {
      RegistrationAccounted(actions, t, l, i);
    }
  }

  lemma {:induction false} RegistrationAccounted(actions: seq<Action>, t: nat, l: Log, i: nat)
    requires Tagged(actions) && i <= t < |actions| && actions[i].Register?
    requires Accounted(actions, t, l)
    ensures
      var l', e := LogStep(l, actions[t]), actions[i].event;
      e in l'.log || e in l'.emitted || FateOf(actions, i, t + 1).Discarded?
  {
    var l', e := LogStep(l, actions[t]), actions[i].event;
    if i == t {
      assert l'.log[|l.log|] == e;
    } else if e in l.emitted {
      var p :| 0 <= p < |l.emitted| && l.emitted[p] == e;
      assert l'.emitted[p] == e;
    } else if e in l.log {
      var p :| 0 <= p < |l.log| && l.log[p] == e;
      LoggedAccounted(actions, t, l, p);
    }
  }

  lemma {:induction false} LoggedAccounted(actions: seq<Action>, t: nat, l: Log, p: nat)
    requires t < |actions| && ValidLog(l) && |l.marks| == Depth(actions, t)
    requires p < |l.log| && HeldAt(actions, t, l, p)
    ensures
      var l', e := LogStep(l, actions[t]), l.log[p];
      e in l'.log || e in l'.emitted || FateOf(actions, e.id, t + 1).Discarded?
  {
    var l' := LogStep(l, actions[t]);
    HeldStep(actions, t, l, p);
    if p < |l'.log| {
      assert l'.log[p] == l.log[p];
    } else if actions[t] == Commit {
      assert l'.emitted[|l.emitted| + p] == l.log[p];
    }
  }

  lemma {:induction false} AscendingStep(actions: seq<Action>, t: nat, l: Log)
    requires Tagged(actions) && t < |actions|
    requires Accounted(actions, t, l)
    ensures Ascending(LogStep(l, actions[t]).emitted + LogStep(l, actions[t]).log)
  {
    var l' := LogStep(l, actions[t]);
    var all, all' := l.emitted + l.log, l'.emitted + l'.log;
    forall p | 0 <= p < |all| ensures all[p].id < t {
      if p < |l.emitted| {
        assert PublishedBy(actions, t, l.emitted[p]);
      } else {
        assert HeldAt(actions, t, l, p - |l.emitted|);
      }
    }
    if actions[t].Register? {
      assert all' == all + [actions[t].event];
    } else {
      assert all' == all[..|all'|];
    }
  }

  lemma {:induction false} RunAccounted(actions: seq<Action>, t: nat)
    requires Tagged(actions) && t <= |actions|
    ensures Valid(Run(actions, t)) && Accounted(actions, t, Abstract(Run(actions, t)))
  {
    if t == 0 {
      assert Run(actions, 0) == FRESH && Abstract(FRESH) == Log(false, [], [], []);
    } else {
      RunAccounted(actions, t - 1);
      RunStepAccounted(actions, t - 1, Run(actions, t - 1));
    }
  }

  lemma {:induction false} RunStepAccounted(actions: seq<Action>, t: nat, s: State)
    requires Tagged(actions) && t < |actions|
    requires Valid(s) && Accounted(actions, t, Abstract(s))
    ensures Valid(Step(s, actions[t])) && Accounted(actions, t + 1, Abstract(Step(s, actions[t])))
  {
    StepRefines(s, actions[t]);
    AbstractValid(Step(s, actions[t]));
    AccountedStep(actions, t, Abstract(s));
  }

  // Over a whole run an event is emitted, once and in registration order, exactly when it was published.
  lemma {:induction false} EmittedExactlyPublished(actions: seq<Action>)
    requires Tagged(actions)
    ensures
      var emitted := Run(actions, |actions|).emitted;
      && Ascending(emitted)
      && (forall e :: e in emitted <==> PublishedBy(actions, |actions|, e))
  {
    var n := |actions|;
    RunAccounted(actions, n);
    var s := Run(actions, n);
    var l := Abstract(s);
    PartsAscend(l.emitted, l.log);
    forall p | 0 <= p < |l.log| ensures !PublishedBy(actions, n, l.log[p]) {
      assert HeldAt(actions, n, l, p);
    }
    forall e | PublishedBy(actions, n, e) ensures e in s.emitted {
      assert actions[e.id].Register?;
    }
  }

  // A root commit emits, in registration order, exactly the events whose every enclosing
  // savepoint has committed since the last root boundary.
  lemma {:induction false} RootCommitEmits(actions: seq<Action>, t: nat)
    requires Tagged(actions) && t < |actions|
    requires actions[t] == Commit && Depth(actions, t) == 0
    ensures
      var before, after := Run(actions, t).emitted, Run(actions, t + 1).emitted;
      && before <= after && Ascending(after[|before|..])
      && forall e :: e in after[|before|..] <==>
           e.id < t && actions[e.id] == Register(e) && FateOf(actions, e.id, t + 1) == Published(t)
  {
    RunAccounted(actions, t);
    var s := Run(actions, t);
    StepRefines(s, Commit);
    assert Run(actions, t + 1).emitted == s.emitted + Abstract(s).log;
    HeldIsEmitted(actions, t, Abstract(s));
  }

  lemma {:induction false} PartsAscend(a: seq<Event>, b: seq<Event>)
    requires Ascending(a + b)
    ensures Ascending(a) && Ascending(b)
  {
    var all := a + b;
    assert a == all[..|a|] && b == all[|a|..];
  }

  // At a root commit the log holds exactly the events that this commit publishes.
  lemma {:induction false} HeldIsEmitted(actions: seq<Action>, t: nat, l: Log)
    requires Tagged(actions) && t < |actions| && actions[t] == Commit && Depth(actions, t) == 0
    requires Accounted(actions, t, l)
    ensures Ascending(l.log)
    ensures forall e :: e in l.log <==>
              e.id < t && actions[e.id] == Register(e) && FateOf(actions, e.id, t + 1) == Published(t)
  {
    PartsAscend(l.emitted, l.log);
    forall e | e in l.log
      ensures e.id < t && actions[e.id] == Register(e) && FateOf(actions, e.id, t + 1) == Published(t)
    {
      var p :| 0 <= p < |l.log| && l.log[p] == e;
      assert HeldAt(actions, t, l, p);
    }
    forall e | e in l.emitted ensures PublishedBy(actions, t, e) && FateOf(actions, e.id, t + 1) != Published(t) {
      PublishedBefore(actions, e.id, t);
    }
    forall e: Event | e.id < t && actions[e.id] == Register(e) && FateOf(actions, e.id, t + 1) == Published(t)
      ensures e in l.log
    {
      assert actions[e.id].Register?;
    }
  }

  lemma {:induction false} PublishedBefore(actions: seq<Action>, i: nat, t: nat)
    requires i < t <= |actions| && FateOf(actions, i, t).Published?
    ensures FateOf(actions, i, t).at < t
    decreases t
  {
    if t > i + 1 && FateOf(actions, i, t - 1).Published? {
      PublishedBefore(actions, i, t - 1);
    }
  }

  // ---------- a whole transaction block ----------

  // The session's own commit and rollback go through every open savepoint to the root.
  function ToRoot(s: State, a: Action): State
    requires s.current.Some? && (a.Commit? || a.Rollback?)
    decreases s.current.value
  {
    var s' := Step(s, a);
    if s'.current.None? then s' else ToRoot(s', a)
  }

  lemma {:induction false} CommitToRoot(s: State)
    requires Valid(s) && s.current.Some?
    ensures ToRoot(s, Commit) == s.(current := None, batches := map[], emitted := s.emitted + Abstract(s).log)
    decreases s.current.value
  {
    StepRefines(s, Commit);
    var s' := Step(s, Commit);
    if s'.current.Some? {
      CommitToRoot(s');
    }
  }

  lemma {:induction false} RollbackToRoot(s: State)
    requires Valid(s) && s.current.Some?
    ensures ToRoot(s, Rollback) == s.(current := None, batches := map[])
    decreases s.current.value
  {
    StepRefines(s, Rollback);
    var s' := Step(s, Rollback);
    if s'.current.Some? {
      RollbackToRoot(s');
    }
  }

  function RunFrom(s: State, actions: seq<Action>): State
    decreases |actions|
  {
    if actions == [] then s else RunFrom(Step(s, actions[0]), actions[1..])
  }

  // The block commits what its body left open, or rolls it back if the body raised.
  function Block(body: seq<Action>, raised: bool): State {
    var left := Begun(RunFrom(FRESH, body));
    ToRoot(left, if raised then Rollback else Commit)
  }

  lemma {:induction false} RunFromValid(s: State, actions: seq<Action>)
    requires Valid(s)
    ensures Valid(RunFrom(s, actions))
    decreases |actions|
  {
    if actions != [] {
      StepRefines(s, actions[0]);
      RunFromValid(Step(s, actions[0]), actions[1..]);
    }
  }

  // A block that raises emits nothing beyond what its body had already committed; one that ends
  // normally also emits the events still held, in the order of registration. Either way no batch is left.
  lemma {:induction false} BlockEmits(body: seq<Action>, raised: bool)
    ensures
      var left := RunFrom(FRESH, body);
      && Block(body, raised).emitted == left.emitted + (if raised then [] else Abstract(left).log)
      && Block(body, raised).batches == map[] && Block(body, raised).current == None
  {
    RunFromValid(FRESH, body);
    var left := RunFrom(FRESH, body);
    if raised {
      RollbackToRoot(Begun(left));
    } else {
      CommitToRoot(Begun(left));
    }
  }

  // ---------- the object ----------

  // A session's transaction stack together with the listener that owns its batches.
  class SessionEvents {
    var current: Option<Txn>
    var nextId: nat
    var batches: map<Txn, seq<Event>>
    var emitted: seq<Event>

    function Model(): State
      reads this
    {
      State(current, nextId, batches, emitted)
    }

    constructor ()
      ensures Model() == FRESH
    {
      current, nextId, batches, emitted := None, 0, map[], [];
    }

    method Begin()
      modifies this
      ensures Model() == Begun(old(Model()))
    {
      if current.None? {
        current := Some(Root(nextId));
        nextId := nextId + 1;
      }
    }

    method BeginNestedTransaction()
      modifies this
      ensures Model() == Step(old(Model()), BeginNested)
    {
      Begin();
      current := Some(Savepoint(nextId, current.value));
      nextId := nextId + 1;
    }

    method RegisterAfterCommit(value: Event)
      modifies this
      ensures Model() == Step(old(Model()), Register(value))
    {
      Begin();
      var transaction := current.value;
      if transaction !in batches {
        batches := batches[transaction := []];
      }
      batches := batches[transaction := batches[transaction] + [value]];
    }

    method CommitListener()
      requires current.Some?
      modifies this`batches, this`emitted
      ensures Model() == AfterCommit(old(Model()))
    {
      var transaction := current.value;
      var batch := Batch(batches, transaction);
      batches := batches - {transaction};
      if transaction.Savepoint? {
        batches := batches[transaction.parent := Batch(batches, transaction.parent) + batch];
        return;
      }
      batches := map[];
      emitted := emitted + batch;
    }

    method DescendsFrom(candidate: Txn, ancestor: Txn) returns (r: bool)
      ensures r == Descends(candidate, ancestor)
    {
      var walk := candidate;
      while walk != ancestor && walk.Savepoint?
        invariant Descends(candidate, ancestor) == Descends(walk, ancestor)
        decreases walk
      {
        walk := walk.parent;
      }
      return walk == ancestor;
    }

    method EndListener(ended: Txn)
      modifies this`batches
      ensures batches == AfterTransactionEnd(old(batches), ended)
    {
      ghost var before := batches;
      var owners := batches.Keys;
      while owners != {}
        invariant owners <= before.Keys
        invariant batches == map o | o in before && (o in owners || !Descends(o, ended)) :: before[o]
        decreases |owners|
      {
        var owner :| owner in owners;
        owners := owners - {owner};
        var inside := DescendsFrom(owner, ended);
        if inside {
          batches := batches - {owner};
        }
      }
    }

    method End()
      requires current.Some?
      modifies this
      ensures Model() == Ended(old(Model()))
    {
      var ended := current.value;
      EndListener(ended);
      current := if ended.Savepoint? then Some(ended.parent) else None;
    }

    method CommitTransaction()
      modifies this
      ensures Model() == Step(old(Model()), Commit)
    {
      Begin();
      CommitListener();
      End();
    }

    method RollbackTransaction()
      modifies this
      ensures Model() == Step(old(Model()), Rollback)
    {
      if current.Some? {
        End();
      }
    }
  }
}
