/** What the store's operations do to the values a caller put there, key by key and over whole runs. */
module ReactiveStoreEffects {
  import opened Basics
  import opened ReactiveStore
  import opened ReactiveStoreRuns

  // ---------- one operation ----------

  // Invalidation touches cached values, pending updates and the scheduled flush, and nothing else.
  ghost predicate SameBase(s: Store, s': Store) {
    s'.state == s.state && s'.computed == s.computed && s'.destroyed == s.destroyed
  }

  lemma {:induction false} InvalidateKeepsBase(s: Store, key: Key, depth: nat)
    requires depth <= MAX_RECURSION_DEPTH + 1
    ensures SameBase(s, Invalidate(s, key, depth))
    decreases MAX_RECURSION_DEPTH + 1 - depth, 0
  {
    if depth <= MAX_RECURSION_DEPTH {
      AlikeRecompute(s, s, key, |s.computed|);
      var readers := Dependents(s.computed, key);
      InvalidateFirstKeepsBase(RecomputeFirst(s, key, |s.computed|), readers, |readers|, depth + 1);
    }
  }

  lemma {:induction false} InvalidateFirstKeepsBase(s: Store, keys: seq<Key>, n: nat, depth: nat)
    requires n <= |keys| && depth <= MAX_RECURSION_DEPTH + 1
    ensures SameBase(s, InvalidateFirst(s, keys, n, depth))
    decreases MAX_RECURSION_DEPTH + 1 - depth, n
  {
    if n > 0 {
      InvalidateFirstKeepsBase(s, keys, n - 1, depth);
      InvalidateKeepsBase(InvalidateFirst(s, keys, n - 1, depth), keys[n - 1], depth);
    }
  }

  // A set stores the value it was given and leaves every other key alone. A computed key, and a destroyed store,
  // cannot be set at all.
  lemma {:induction false} SetStores(s: Store, key: Key, value: Value)
    ensures
      var s' := SetKey(s, key, value);
      && SameBase(s.(state := s'.state), s')
      && (forall k :: k != key ==> (k in s'.state <==> k in s.state) && Lookup(s'.state, k) == Lookup(s.state, k))
      && (if s.destroyed || key in KeysOf(s.computed) then s' == s else Lookup(s'.state, key) == value)
  {
    if !SetIgnored(s, key, value) {
      InvalidateKeepsBase(Assign(s, key, value), key, 0);
    }
  }

  // Registering a key that is new adds it after the others, with its function's value on what can be read then.
  // A key that is taken keeps what it has.
  lemma {:induction false} RegisterTakesEffect(s: Store, c: Computed)
    ensures
      var s' := Register(s, c);
      if c.key in s.state || c.key in KeysOf(s.computed) then s' == s
      else
        && s'.computed == s.computed + [c] && s'.state == s.state && s'.pending == s.pending
        && (c.key !in c.deps ==> Read(s', c.key) == c.fn(map d | d in c.deps :: Read(s, d)))
        && forall k :: k != c.key ==> Read(s', k) == Read(s, k)
  {
    if !RegisterIgnored(s, c) {
      var s' := Register(s, c);
      KeysGrow(s.computed, c);
      if c.key !in c.deps {
        assert Args(s.(computed := s'.computed), c) == map d | d in c.deps :: Read(s, d);
      }
    }
  }

  lemma {:induction false} KeysGrow(computed: seq<Computed>, c: Computed)
    ensures KeysOf(computed + [c]) == KeysOf(computed) + {c.key}
  {
    var longer := computed + [c];
    assert longer[|computed|] == c;
    forall k | k in KeysOf(computed) ensures k in KeysOf(longer) {
      var i :| 0 <= i < |computed| && computed[i].key == k;
      assert longer[i].key == k;
    }
  }

  // An update of a key that already waits takes the place of the earlier one; another goes to the end.
  lemma {:induction false} PutKeepsPlace(pending: seq<Update>, u: Update, i: nat)
    requires DistinctKeys(pending)
    ensures i < |pending| && pending[i].key == u.key ==> Put(pending, u) == pending[i := u]
    ensures (forall j :: 0 <= j < |pending| ==> pending[j].key != u.key) ==> Put(pending, u) == pending + [u]
  {
    if pending != [] && pending[0].key != u.key {
      assert pending == [pending[0]] + pending[1..];
      PutKeepsPlace(pending[1..], u, if i > 0 then i - 1 else |pending|);
    }
  }

  // After a flush nothing waits and none is scheduled, so a second one sends nothing.
  lemma {:induction false} FlushLeavesNothing(s: Store, flush: Action)
    requires flush in {FlushNow, AnimationFrame} && (s.pending != [] ==> s.flushScheduled)
    ensures
      var (s', updates) := Step(s, flush);
      && updates == s.pending && s' == s.(pending := [], flushScheduled := false)
      && Step(s', flush).1 == []
  {
  }

  // A destroyed store keeps its values for good and never notifies anyone again.
  lemma {:induction false} DestroyedIsSilent(s: Store, actions: seq<Action>, flush: Action)
    requires flush in {FlushNow, AnimationFrame}
    ensures
      var s' := Run(Step(s, DestroyStore).0, actions);
      s'.destroyed && s'.state == s.state && s'.pending == [] && Step(s', flush).1 == []
  {
    SilentRun(Destroy(s), actions);
  }

  lemma {:induction false} SilentRun(s: Store, actions: seq<Action>)
    requires s.destroyed && s.pending == []
    ensures
      var s' := Run(s, actions);
      s'.destroyed && s'.state == s.state && s'.pending == []
    decreases |actions|
  {
    if actions != [] {
      SilentRun(Step(s, actions[0]).0, actions[1..]);
    }
  }

  // ---------- whole runs, key by key ----------

  // What a single key goes through: whether it has a plain value, which, whether it is computed.
  datatype Field = Field(present: bool, value: Value, computed: bool, destroyed: bool)

  function FieldStep(f: Field, key: Key, a: Action): Field {
    match a
    case Set(k, value) => if k == key && !f.computed && !f.destroyed && value != f.value
        then f.(present := true, value := value) else f
    case RegisterComputed(c) => if c.key == key && !f.present then f.(computed := true) else f
    case DestroyStore => f.(computed := false, destroyed := true)
    case _ => f
  }

  // Follows one key alone, with no cache, no dependencies and no other key.
  function FieldRun(f: Field, key: Key, actions: seq<Action>): Field
    decreases |actions|
  {
    if actions == [] then f else FieldRun(FieldStep(f, key, actions[0]), key, actions[1..])
  }

  function FieldOf(s: Store, key: Key): Field {
    Field(key in s.state, Lookup(s.state, key), key in KeysOf(s.computed), s.destroyed)
  }

  lemma {:induction false} StepFollowsField(s: Store, key: Key, a: Action)
    ensures FieldOf(Step(s, a).0, key) == FieldStep(FieldOf(s, key), key, a)
  {
    match a {
      case Set(k, value) =>
        SetStores(s, k, value);
        if !SetIgnored(s, k, value) {
          InvalidateKeepsBase(Assign(s, k, value), k, 0);
        }
      case RegisterComputed(c) =>
        RegisterTakesEffect(s, c);
        KeysGrow(s.computed, c);
      case _ =>
    }
  }

  // In every run a plain key holds the last value set for it, whatever happens to the others.
  lemma {:induction false} LastSetIsRead(s: Store, key: Key, actions: seq<Action>)
    ensures FieldOf(Run(s, actions), key) == FieldRun(FieldOf(s, key), key, actions)
    decreases |actions|
  {
    if actions != [] {
      StepFollowsField(s, key, actions[0]);
      LastSetIsRead(Step(s, actions[0]).0, key, actions[1..]);
    }
  }

  // ---------- no notification without a change ----------

  ghost predicate Constant(c: Computed, value: Value) {
    forall args :: c.fn(args) == value
  }

  ghost predicate Unheard(s: Store, key: Key, value: Value) {
    && (forall i :: 0 <= i < |s.computed| && s.computed[i].key == key ==> Constant(s.computed[i], value))
    && Lookup(s.cache, key) == value
    && forall i :: 0 <= i < |s.pending| ==> s.pending[i].key != key
  }

  lemma {:induction false} PutElsewhere(pending: seq<Update>, u: Update, key: Key)
    requires u.key != key && forall i :: 0 <= i < |pending| ==> pending[i].key != key
    ensures forall i :: 0 <= i < |Put(pending, u)| ==> Put(pending, u)[i].key != key
  {
    if pending != [] && pending[0].key != u.key {
      PutElsewhere(pending[1..], u, key);
    }
  }

  lemma {:induction false} RecomputeUnheard(s: Store, n: nat, key: Key, value: Value)
    requires Unheard(s, key, value) && n < |s.computed|
    ensures Unheard(Recompute(s, s.computed[n]), key, value)
  {
    var c := s.computed[n];
    var newValue := c.fn(Args(s.(cache := s.cache - {c.key}), c));
    if c.key == key {
      assert Constant(c, value) && newValue == value;
    } else {
      PutElsewhere(s.pending, Update(c.key, Lookup(s.cache, c.key), newValue), key);
    }
  }

  lemma {:induction false} RecomputeFirstUnheard(s: Store, changed: Key, n: nat, key: Key, value: Value)
    requires Unheard(s, key, value) && n <= |s.computed|
    ensures Unheard(RecomputeFirst(s, changed, n), key, value)
  {
    if n > 0 {
      RecomputeFirstUnheard(s, changed, n - 1, key, value);
      RecomputeUnheard(RecomputeFirst(s, changed, n - 1), n - 1, key, value);
    }
  }

  lemma {:induction false} InvalidateUnheard(s: Store, changed: Key, depth: nat, key: Key, value: Value)
    requires Unheard(s, key, value) && depth <= MAX_RECURSION_DEPTH + 1
    ensures Unheard(Invalidate(s, changed, depth), key, value)
    decreases MAX_RECURSION_DEPTH + 1 - depth, 0
  {
    if depth <= MAX_RECURSION_DEPTH {
      RecomputeFirstUnheard(s, changed, |s.computed|, key, value);
      var readers := Dependents(s.computed, changed);
      InvalidateFirstUnheard(RecomputeFirst(s, changed, |s.computed|), readers, |readers|, depth + 1, key, value);
    }
  }

  lemma {:induction false} InvalidateFirstUnheard(
      s: Store, keys: seq<Key>, n: nat, depth: nat, key: Key, value: Value)
    requires Unheard(s, key, value) && n <= |keys| && depth <= MAX_RECURSION_DEPTH + 1
    ensures Unheard(InvalidateFirst(s, keys, n, depth), key, value)
    decreases MAX_RECURSION_DEPTH + 1 - depth, n
  {
    if n > 0 {
      InvalidateFirstUnheard(s, keys, n - 1, depth, key, value);
      InvalidateUnheard(InvalidateFirst(s, keys, n - 1, depth), keys[n - 1], depth, key, value);
    }
  }

  // Listeners of a computed key whose value never changes hear nothing, however often it is recomputed.
  lemma {:induction false} UnchangedIsNotNotified(s: Store, actions: seq<Action>, key: Key, value: Value)
    requires key in KeysOf(s.computed) && Unheard(s, key, value) && DestroyStore !in actions
    ensures Unheard(Run(s, actions), key, value)
    decreases |actions|
  {
    if actions != [] {
      var a, s' := actions[0], Step(s, actions[0]).0;
      match a {
        case Set(k, v) =>
          if !SetIgnored(s, k, v) {
            var prev := Lookup(s.state, k);
            PutElsewhere(s.pending, Update(k, prev, v), key);
            InvalidateUnheard(Assign(s, k, v), k, 0, key, value);
            InvalidateKeepsBase(Assign(s, k, v), k, 0);
          }
        case RegisterComputed(c) => KeysGrow(s.computed, c);
        case DestroyStore => assert false;
        case _ =>
      }
      UnchangedIsNotNotified(s', actions[1..], key, value);
    }
  }
}
