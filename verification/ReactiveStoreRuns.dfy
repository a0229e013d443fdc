/** Whole runs of the reactive store: coherence, the listeners' mirror, and the depth limit. */
module ReactiveStoreRuns {
  import opened ReactiveStore

  datatype Action =
    | Set(key: Key, value: Value)
    | RegisterComputed(c: Computed)
    | FlushNow
    | AnimationFrame
    | DestroyStore

  function Initial(state: map<Key, Value>): Store {
    Store(state, [], map[], [], false, false)
  }

  // The store after one action, and the notifications it sends.
  function Step(s: Store, a: Action): (Store, seq<Update>) {
    match a
    case Set(key, value) => (SetKey(s, key, value), [])
    case RegisterComputed(c) => (Register(s, c), [])
    case FlushNow => Flush(s)
    case AnimationFrame => FlushChanges(s)
    case DestroyStore => (Destroy(s), [])
  }

  function Run(s: Store, actions: seq<Action>): Store
    decreases |actions|
  {
    if actions == [] then s else Run(Step(s, actions[0]).0, actions[1..])
  }

  // What a caller must see to: dependencies are registered before their readers,
  // and no chain of readers of a key being set is longer than the recursion reaches.
  ghost predicate Admissible(s: Store, actions: seq<Action>)
    decreases |actions|
  {
    actions == [] ||
    (match actions[0] {
       case Set(key, value) => SetIgnored(s, key, value) || ChainsFit(s.computed, key, MAX_RECURSION_DEPTH + 1)
       case RegisterComputed(c) => RegisterIgnored(s, c) || WellOrdered(s.computed + [c])
       case _ => true
     } && Admissible(Step(s, actions[0]).0, actions[1..]))
  }

  lemma {:induction false} RunKeepsCoherent(s: Store, actions: seq<Action>)
    requires Coherent(s) && Admissible(s, actions)
    ensures Coherent(Run(s, actions))
    decreases |actions|
  {
    if actions != [] {
      var s' := Step(s, actions[0]).0;
      match actions[0] {
        case Set(key, value) => SetKeepsCoherent(s, key, value);
        case RegisterComputed(c) => RegisterKeepsCoherent(s, c);
        case DestroyStore =>
        case _ =>
          forall i | 0 <= i < |s'.computed| ensures Settled(s', i) {
            assert Settled(s, i);
            SettledFrame(s, s', i);
          }
      }
      RunKeepsCoherent(s', actions[1..]);
    }
  }

  // After any admissible run, reading any key gives what evaluating it from nothing would give.
  lemma {:induction false} CachedEqualsFromScratch(state: map<Key, Value>, actions: seq<Action>)
    requires Admissible(Initial(state), actions)
    ensures
      var s := Run(Initial(state), actions);
      forall key :: Read(s, key) == FromScratch(s.state, s.computed, key)
  {
    RunKeepsCoherent(Initial(state), actions);
    CoherentMeansFromScratch(Run(Initial(state), actions));
  }

  // ---------- listeners ----------

  // A mirror applies the value carried by each notification, in order.
  function Notified(mirror: map<Key, Value>, updates: seq<Update>): map<Key, Value>
    decreases |updates|
  {
    if updates == [] then mirror else Notified(mirror[updates[0].key := updates[0].value], updates[1..])
  }

  ghost predicate DistinctKeys(updates: seq<Update>) {
    forall i, j :: 0 <= i < j < |updates| ==> updates[i].key != updates[j].key
  }

  // The mirror is the store up to the updates that are still pending.
  ghost predicate Mirrors(mirror: map<Key, Value>, s: Store) {
    && Shape(s) && DistinctKeys(s.pending)
    && (forall i :: 0 <= i < |s.pending| ==> s.pending[i].key in s.state || s.pending[i].key in KeysOf(s.computed))
    && forall key :: Lookup(Notified(mirror, s.pending), key) == Read(s, key)
  }

  // Pending updates are never left without a scheduled flush.
  ghost predicate FlushDue(s: Store) {
    !s.destroyed && (s.pending != [] ==> s.flushScheduled)
  }

  lemma {:induction false} NotifiedSkips(mirror: map<Key, Value>, updates: seq<Update>, key: Key, value: Value)
    requires forall i :: 0 <= i < |updates| ==> updates[i].key != key
    ensures Notified(mirror[key := value], updates) == Notified(mirror, updates)[key := value]
    decreases |updates|
  {
    if updates != [] {
      var u := updates[0];
      assert mirror[key := value][u.key := u.value] == mirror[u.key := u.value][key := value];
      NotifiedSkips(mirror[u.key := u.value], updates[1..], key, value);
    }
  }

  lemma {:induction false} PutIsLastWord(mirror: map<Key, Value>, pending: seq<Update>, u: Update)
    requires DistinctKeys(pending)
    ensures Notified(mirror, Put(pending, u)) == Notified(mirror, pending)[u.key := u.value]
    decreases |pending|
  {
    if pending == [] {
      assert [u][1..] == [];
    } else {
      var first, rest := pending[0], pending[1..];
      if first.key == u.key {
        assert Put(pending, u)[1..] == rest;
        NotifiedSkips(mirror, rest, u.key, u.value);
        NotifiedSkips(mirror, rest, u.key, first.value);
      } else {
        PutIsLastWord(mirror[first.key := first.value], rest, u);
        assert Put(pending, u)[1..] == Put(rest, u);
      }
    }
  }

  lemma {:induction false} PutKeepsKeys(pending: seq<Update>, u: Update)
    requires DistinctKeys(pending)
    ensures DistinctKeys(Put(pending, u))
    ensures forall i :: 0 <= i < |Put(pending, u)| ==>
              || Put(pending, u)[i].key == u.key
              || exists j :: 0 <= j < |pending| && pending[j].key == Put(pending, u)[i].key
  {
    if pending != [] {
      var rest := pending[1..];
      if pending[0].key != u.key {
        PutKeepsKeys(rest, u);
        forall i | 0 <= i < |Put(pending, u)|
          ensures || Put(pending, u)[i].key == u.key
                  || exists j :: 0 <= j < |pending| && pending[j].key == Put(pending, u)[i].key
        {
          if i > 0 && Put(rest, u)[i - 1].key != u.key {
            var j :| 0 <= j < |rest| && rest[j].key == Put(rest, u)[i - 1].key;
            assert pending[j + 1].key == Put(pending, u)[i].key;
          }
        }
      }
    }
  }

  // Noting the new value of a known key, with the cache or the state already updated, keeps the mirror.
  lemma {:induction false} PutKeepsMirror(mirror: map<Key, Value>, s: Store, s': Store, u: Update)
    requires Mirrors(mirror, s) && Shape(s') && s'.pending == Put(s.pending, u)
    requires s'.computed == s.computed && s.state.Keys <= s'.state.Keys
    requires u.key in s'.state || u.key in KeysOf(s.computed)
    requires forall k :: Read(s', k) == if k == u.key then u.value else Read(s, k)
    ensures Mirrors(mirror, s')
  {
    PutKeepsKeys(s.pending, u);
    PutIsLastWord(mirror, s.pending, u);
    forall i | 0 <= i < |s'.pending|
      ensures s'.pending[i].key in s'.state || s'.pending[i].key in KeysOf(s'.computed)
    {
      if s'.pending[i].key != u.key {
        var j :| 0 <= j < |s.pending| && s.pending[j].key == s'.pending[i].key;
      }
    }
    forall key ensures Lookup(Notified(mirror, s'.pending), key) == Read(s', key) {
      assert Lookup(Notified(mirror, s.pending), key) == Read(s, key);
    }
  }

  lemma {:induction false} RecomputeKeepsMirror(mirror: map<Key, Value>, s: Store, c: Computed)
    requires Mirrors(mirror, s) && c.key in KeysOf(s.computed)
    ensures
      var s' := Recompute(s, c);
      Mirrors(mirror, s') && s'.state == s.state && s'.computed == s.computed && s'.destroyed == s.destroyed
  {
    var s' := Recompute(s, c);
    assert s'.cache.Keys == s.cache.Keys;
    var oldValue, newValue := Lookup(s.cache, c.key), Lookup(s'.cache, c.key);
    if oldValue == newValue {
      assert s'.cache == s.cache;
      assert s' == s;
    } else {
      PutKeepsMirror(mirror, s, s', Update(c.key, oldValue, newValue));
    }
  }

  lemma {:induction false} RecomputeFirstKeepsMirror(mirror: map<Key, Value>, s: Store, key: Key, n: nat)
    requires Mirrors(mirror, s) && n <= |s.computed|
    ensures
      var s' := RecomputeFirst(s, key, n);
      Mirrors(mirror, s') && s'.state == s.state && s'.computed == s.computed && s'.destroyed == s.destroyed
  {
    if n > 0 {
      RecomputeFirstKeepsMirror(mirror, s, key, n - 1);
      assert s.computed[n - 1].key in KeysOf(s.computed);
      RecomputeKeepsMirror(mirror, RecomputeFirst(s, key, n - 1), s.computed[n - 1]);
    }
  }

  lemma {:induction false} InvalidateKeepsMirror(mirror: map<Key, Value>, s: Store, key: Key, depth: nat)
    requires Mirrors(mirror, s) && depth <= MAX_RECURSION_DEPTH + 1
    ensures
      var s' := Invalidate(s, key, depth);
      Mirrors(mirror, s') && s'.state == s.state && s'.computed == s.computed && s'.destroyed == s.destroyed
    decreases MAX_RECURSION_DEPTH + 1 - depth, 0
  {
    if depth <= MAX_RECURSION_DEPTH {
      RecomputeFirstKeepsMirror(mirror, s, key, |s.computed|);
      var s1, invalidated := RecomputeFirst(s, key, |s.computed|), Dependents(s.computed, key);
      InvalidateFirstKeepsMirror(mirror, s1, invalidated, |invalidated|, depth + 1);
      var s2 := InvalidateFirst(s1, invalidated, |invalidated|, depth + 1);
      forall k ensures Read(ScheduleFlush(s2), k) == Read(s2, k) {}
    }
  }

  lemma {:induction false} InvalidateFirstKeepsMirror(
      mirror: map<Key, Value>, s: Store, keys: seq<Key>, n: nat, depth: nat)
    requires Mirrors(mirror, s) && n <= |keys| && depth <= MAX_RECURSION_DEPTH + 1
    ensures
      var s' := InvalidateFirst(s, keys, n, depth);
      Mirrors(mirror, s') && s'.state == s.state && s'.computed == s.computed && s'.destroyed == s.destroyed
    decreases MAX_RECURSION_DEPTH + 1 - depth, n
  {
    if n > 0 {
      InvalidateFirstKeepsMirror(mirror, s, keys, n - 1, depth);
      InvalidateKeepsMirror(mirror, InvalidateFirst(s, keys, n - 1, depth), keys[n - 1], depth);
    }
  }

  lemma {:induction false} SetKeepsMirror(mirror: map<Key, Value>, s: Store, key: Key, value: Value)
    requires Mirrors(mirror, s) && FlushDue(s)
    ensures Mirrors(mirror, SetKey(s, key, value)) && FlushDue(SetKey(s, key, value))
  {
    if !SetIgnored(s, key, value) {
      var a := Assign(s, key, value);
      PutKeepsMirror(mirror, s, a, Update(key, Lookup(s.state, key), value));
      InvalidateKeepsMirror(mirror, a, key, 0);
      var s2 := Invalidate(a, key, 0);
      forall k ensures Read(ScheduleFlush(s2), k) == Read(s2, k) {}
    }
  }

  // A listener takes its own copy of a computed key when that key is registered.
  function MirrorStep(mirror: map<Key, Value>, s: Store, a: Action): map<Key, Value> {
    match a
    case RegisterComputed(c) =>
      if RegisterIgnored(s, c) then mirror
      else mirror[c.key := Read(Register(s, c), c.key)]
    case _ => Notified(mirror, Step(s, a).1)
  }

  function MirrorRun(mirror: map<Key, Value>, s: Store, actions: seq<Action>): map<Key, Value>
    decreases |actions|
  {
    if actions == [] then mirror
    else MirrorRun(MirrorStep(mirror, s, actions[0]), Step(s, actions[0]).0, actions[1..])
  }

  lemma {:induction false} RegisterKeepsMirror(mirror: map<Key, Value>, s: Store, c: Computed)
    requires Mirrors(mirror, s) && !RegisterIgnored(s, c)
    ensures Mirrors(mirror[c.key := Read(Register(s, c), c.key)], Register(s, c))
  {
    var s' := Register(s, c);
    var n := |s.computed|;
    assert s'.computed[n] == c;
    forall k ensures k in KeysOf(s'.computed) <==> k in KeysOf(s.computed) || k == c.key {
      if k in KeysOf(s.computed) {
        var i :| 0 <= i < n && s.computed[i].key == k;
        assert s'.computed[i].key == k;
      }
    }
    var v := Read(s', c.key);
    NotifiedSkips(mirror, s.pending, c.key, v);
    forall k ensures Lookup(Notified(mirror[c.key := v], s'.pending), k) == Read(s', k) {
      assert Lookup(Notified(mirror, s.pending), k) == Read(s, k);
    }
  }

  lemma {:induction false} RunKeepsMirror(mirror: map<Key, Value>, s: Store, actions: seq<Action>)
    requires Mirrors(mirror, s) && FlushDue(s) && DestroyStore !in actions
    ensures Mirrors(MirrorRun(mirror, s, actions), Run(s, actions)) && FlushDue(Run(s, actions))
    decreases |actions|
  {
    if actions != [] {
      var a := actions[0];
      var s', mirror' := Step(s, a).0, MirrorStep(mirror, s, a);
      match a {
        case Set(key, value) => SetKeepsMirror(mirror, s, key, value);
        case RegisterComputed(c) =>
          if !RegisterIgnored(s, c) { RegisterKeepsMirror(mirror, s, c); }
        case DestroyStore => assert false;
        case _ =>
          forall k ensures Lookup(Notified(mirror', s'.pending), k) == Read(s', k) {
            assert Lookup(Notified(mirror, s.pending), k) == Read(s, k);
          }
      }
      RunKeepsMirror(mirror', s', actions[1..]);
    }
  }

  // A copy of the store that applies every notification equals the store after each flush.
  lemma {:induction false} MirrorEqualsStoreAfterFlush(state: map<Key, Value>, actions: seq<Action>, flush: Action)
    requires DestroyStore !in actions && flush in {FlushNow, AnimationFrame}
    ensures
      var before := Run(Initial(state), actions);
      var updates := Step(before, flush).1;
      var after := Step(before, flush).0;
      var mirror := Notified(MirrorRun(state, Initial(state), actions), updates);
      && (forall key :: Lookup(mirror, key) == Read(after, key))
      && DistinctKeys(updates)
      && forall i :: 0 <= i < |updates| ==> updates[i].value == Read(after, updates[i].key)
  {
    var s0 := Initial(state);
    assert Mirrors(state, s0) by {
      forall key ensures Lookup(Notified(state, s0.pending), key) == Read(s0, key) {}
    }
    RunKeepsMirror(state, s0, actions);
    var before, held := Run(s0, actions), MirrorRun(state, s0, actions);
    var (after, updates) := Step(before, flush);
    forall key ensures Lookup(Notified(held, updates), key) == Read(after, key) {
      assert Lookup(Notified(held, before.pending), key) == Read(before, key);
    }
    forall i | 0 <= i < |updates| ensures updates[i].value == Read(after, updates[i].key) {
      NotifiedCarries(held, updates, i);
    }
  }

  lemma {:induction false} NotifiedCarries(mirror: map<Key, Value>, updates: seq<Update>, i: nat)
    requires i < |updates| && DistinctKeys(updates)
    ensures Lookup(Notified(mirror, updates), updates[i].key) == updates[i].value
    decreases |updates|
  {
    var u, rest := updates[0], updates[1..];
    if i == 0 {
      NotifiedSkips(mirror, rest, u.key, u.value);
    } else {
      NotifiedCarries(mirror[u.key := u.value], rest, i - 1);
    }
  }

  // ---------- the depth limit ----------

  // A chain: the i-th computed key copies the key before it.
  function ChainKey(i: nat): Key {
    seq(i + 1, _ => 'k')
  }

  function Link(i: nat): Computed {
    Computed(ChainKey(i + 1), {ChainKey(i)}, (m: map<Key, Value>) => Lookup(m, ChainKey(i)))
  }

  function Chain(n: nat): (c: seq<Computed>)
    ensures |c| == n && forall i :: 0 <= i < n ==> c[i] == Link(i)
  {
    seq(n, i requires 0 <= i < n => Link(i))
  }

  lemma {:induction false} ChainKeysDiffer(i: nat, j: nat)
    ensures ChainKey(i) == ChainKey(j) <==> i == j
  {
    assert |ChainKey(i)| == i + 1 && |ChainKey(j)| == j + 1;
  }

  lemma {:induction false} ChainFits(n: nat, d: nat)
    requires d <= n
    ensures ChainsFit(Chain(n), ChainKey(d), n - d)
    decreases n - d
  {
    forall i | 0 <= i < n && ChainKey(d) in Chain(n)[i].deps
      ensures n - d > 0 && ChainsFit(Chain(n), Chain(n)[i].key, n - d - 1)
    {
      ChainKeysDiffer(i, d);
      ChainFits(n, d + 1);
    }
  }

  lemma {:induction false} ChainFitsMore(computed: seq<Computed>, key: Key, n: nat, m: nat)
    requires ChainsFit(computed, key, n) && n <= m
    ensures ChainsFit(computed, key, m)
    decreases n
  {
    forall i | 0 <= i < |computed| && key in computed[i].deps
      ensures m > 0 && ChainsFit(computed, computed[i].key, m - 1)
    {
      ChainFitsMore(computed, computed[i].key, n - 1, m - 1);
    }
  }

  lemma {:induction false} ChainCachesOneValue(s: Store, n: nat, j: nat)
    requires Coherent(s) && s.computed == Chain(n) && 0 < j <= n
    requires ChainKey(0) in s.state
    ensures Lookup(s.cache, ChainKey(j)) == s.state[ChainKey(0)]
  {
    var c := s.computed[j - 1];
    assert c == Link(j - 1) && Settled(s, j - 1);
    assert ChainKey(j - 1) in c.deps;
    if j == 1 {
      assert ChainKey(0) !in s.cache.Keys;
    } else {
      ChainCachesOneValue(s, n, j - 1);
      assert s.computed[j - 2].key == ChainKey(j - 1);
    }
  }

  lemma {:induction false} ChainRecompute(s: Store, n: nat, d: nat, m: nat)
    requires s.computed == Chain(n) && m <= n
    ensures RecomputeFirst(s, ChainKey(d), m) == if d < m then Recompute(s, Link(d)) else s
  {
    if m > 0 {
      ChainRecompute(s, n, d, m - 1);
      OnlyLinkReads(s, n, d, m - 1);
    }
  }

  lemma {:induction false} OnlyLinkReads(s: Store, n: nat, d: nat, i: nat)
    requires s.computed == Chain(n) && i < n
    ensures s.computed[i] == Link(i) && (ChainKey(d) in Link(i).deps <==> i == d)
  {
    ChainKeysDiffer(i, d);
  }

  lemma {:induction false} OneDependent(computed: seq<Computed>, key: Key, d: nat, m: nat)
    requires m <= |computed| && forall i :: 0 <= i < m ==> (key in computed[i].deps <==> i == d)
    ensures DependentsFirst(computed, key, m) == if d < m then [computed[d].key] else []
  {
    if m > 0 {
      OneDependent(computed, key, d, m - 1);
    }
  }

  lemma {:induction false} ChainStep(s: Store, n: nat, d: nat)
    requires Shape(s) && s.computed == Chain(n) && d < n
    ensures
      var s1 := RecomputeFirst(s, ChainKey(d), n);
      && Shape(s1) && s1.computed == s.computed && s1.state == s.state
      && Read(s1, ChainKey(d + 1)) == Read(s, ChainKey(d))
      && forall j: nat :: j != d + 1 ==> Lookup(s1.cache, ChainKey(j)) == Lookup(s.cache, ChainKey(j))
  {
    ChainRecompute(s, n, d, n);
    var c := Link(d);
    assert s.computed[d] == c;
    assert c.key in KeysOf(s.computed);
    ChainKeysDiffer(d + 1, d);
    RecomputeEffect(s, c);
    var s1 := RecomputeFirst(s, ChainKey(d), n);
    assert Args(s1, c)[ChainKey(d)] == Read(s1, ChainKey(d));
    forall j: nat | j != d + 1 ensures Lookup(s1.cache, ChainKey(j)) == Lookup(s.cache, ChainKey(j)) {
      ChainKeysDiffer(d + 1, j);
    }
  }

  lemma {:induction false} ChainUnfold(s: Store, n: nat, d: nat)
    requires s.computed == Chain(n) && d <= MAX_RECURSION_DEPTH
    ensures Invalidate(s, ChainKey(d), d) ==
              ScheduleFlush(if d < n then Invalidate(RecomputeFirst(s, ChainKey(d), n), ChainKey(d + 1), d + 1) else s)
  {
    ChainRecompute(s, n, d, n);
    forall i | 0 <= i < n ensures ChainKey(d) in s.computed[i].deps <==> i == d {
      OnlyLinkReads(s, n, d, i);
    }
    OneDependent(s.computed, ChainKey(d), d, n);
    var s1, keys := RecomputeFirst(s, ChainKey(d), n), Dependents(s.computed, ChainKey(d));
    assert InvalidateFirst(s1, keys, 0, d + 1) == s1;
    if d < n {
      assert keys == [ChainKey(d + 1)];
      assert InvalidateFirst(s1, keys, 1, d + 1) == Invalidate(s1, ChainKey(d + 1), d + 1);
    }
  }

  // s' carries the value of the d-th key of the chain forward, but never past key 101.
  ghost predicate ChainReached(s: Store, s': Store, n: nat, d: nat, j: nat) {
    && s'.computed == s.computed && s'.state == s.state && Shape(s')
    && Lookup(s'.cache, ChainKey(j)) ==
         if d < j <= n && j <= MAX_RECURSION_DEPTH + 1 then Read(s, ChainKey(d)) else Lookup(s.cache, ChainKey(j))
  }

  lemma {:induction false} ChainInvalidate(s: Store, n: nat, d: nat, j: nat)
    requires Shape(s) && s.computed == Chain(n) && d <= MAX_RECURSION_DEPTH + 1
    ensures ChainReached(s, Invalidate(s, ChainKey(d), d), n, d, j)
    decreases MAX_RECURSION_DEPTH + 1 - d
  {
    if d <= MAX_RECURSION_DEPTH {
      ChainUnfold(s, n, d);
      if d < n {
        var s1 := RecomputeFirst(s, ChainKey(d), n);
        ChainStep(s, n, d);
        ChainInvalidate(s1, n, d + 1, j);
        ChainReachedStep(s, s1, Invalidate(s1, ChainKey(d + 1), d + 1), n, d, j);
      }
    }
  }

  lemma {:induction false} ChainReachedStep(s: Store, s1: Store, s2: Store, n: nat, d: nat, j: nat)
    requires s.computed == Chain(n) && d < n && d <= MAX_RECURSION_DEPTH
    requires s1.computed == s.computed && s1.state == s.state
    requires Read(s1, ChainKey(d + 1)) == Read(s, ChainKey(d))
    requires j != d + 1 ==> Lookup(s1.cache, ChainKey(j)) == Lookup(s.cache, ChainKey(j))
    requires ChainReached(s1, s2, n, d + 1, j)
    ensures ChainReached(s, ScheduleFlush(s2), n, d, j)
  {
    assert s.computed[d].key == ChainKey(d + 1);
    assert ChainKey(d + 1) in KeysOf(s1.computed);
  }

  // Somewhere below this call of the invalidation the depth guard turns away a key that has readers.
  ghost predicate GuardDrops(computed: seq<Computed>, key: Key, depth: nat)
    requires depth <= MAX_RECURSION_DEPTH + 1
    decreases MAX_RECURSION_DEPTH + 1 - depth
  {
    if depth > MAX_RECURSION_DEPTH then Dependents(computed, key) != []
    else exists k :: k in Dependents(computed, key) && GuardDrops(computed, k, depth + 1)
  }

  // The guard takes effect on any graph exactly when its chains do not fit. That alone need not leave the store
  // incoherent, since another, shorter path may repair the readers.
  lemma {:induction false} GuardDropsExactly(computed: seq<Computed>, key: Key, depth: nat)
    requires depth <= MAX_RECURSION_DEPTH + 1
    ensures GuardDrops(computed, key, depth) <==> !ChainsFit(computed, key, MAX_RECURSION_DEPTH + 1 - depth)
    decreases MAX_RECURSION_DEPTH + 1 - depth
  {
    DependentsAre(computed, key, |computed|);
    if depth <= MAX_RECURSION_DEPTH {
      forall k | k in Dependents(computed, key)
        ensures GuardDrops(computed, k, depth + 1) <==> !ChainsFit(computed, k, MAX_RECURSION_DEPTH - depth)
      {
        GuardDropsExactly(computed, k, depth + 1);
      }
      forall i | 0 <= i < |computed| && key in computed[i].deps ensures computed[i].key in Dependents(computed, key) {
      }
    } else {
      var readers := Dependents(computed, key);
      assert readers != [] ==> readers[0] in readers;
      forall i | 0 <= i < |computed| && key in computed[i].deps ensures computed[i].key in readers {
      }
    }
  }

  // The invalidation with another depth limit.
  ghost function InvalidateUpTo(s: Store, key: Key, depth: nat, limit: nat): Store
    requires depth <= limit + 1
    decreases limit + 1 - depth, 0
  {
    if depth > limit then s
    else
      var readers := Dependents(s.computed, key);
      ScheduleFlush(InvalidateFirstUpTo(RecomputeFirst(s, key, |s.computed|), readers, |readers|, depth + 1, limit))
  }

  ghost function InvalidateFirstUpTo(s: Store, keys: seq<Key>, n: nat, depth: nat, limit: nat): Store
    requires n <= |keys| && depth <= limit + 1
    decreases limit + 1 - depth, n
  {
    if n == 0 then s
    else InvalidateUpTo(InvalidateFirstUpTo(s, keys, n - 1, depth, limit), keys[n - 1], depth, limit)
  }

  // Two stores that differ at most in whether a flush is scheduled.
  ghost predicate Alike(s: Store, s': Store) {
    s' == s.(flushScheduled := s'.flushScheduled)
  }

  lemma {:induction false} AlikeRecompute(s: Store, s': Store, key: Key, n: nat)
    requires Alike(s, s') && n <= |s.computed|
    ensures Alike(RecomputeFirst(s, key, n), RecomputeFirst(s', key, n))
    ensures RecomputeFirst(s, key, n).destroyed == s.destroyed
  {
    if n > 0 {
      AlikeRecompute(s, s', key, n - 1);
      var p, p', c := RecomputeFirst(s, key, n - 1), RecomputeFirst(s', key, n - 1), s.computed[n - 1];
      assert Args(p.(cache := p.cache - {c.key}), c) == Args(p'.(cache := p'.cache - {c.key}), c);
    }
  }

  lemma {:induction false} NothingToRecompute(s: Store, key: Key, n: nat)
    requires n <= |s.computed| && DependentsFirst(s.computed, key, n) == []
    ensures RecomputeFirst(s, key, n) == s
  {
    if n > 0 {
      NothingToRecompute(s, key, n - 1);
    }
  }

  lemma {:induction false} RaisedLimit(s: Store, s': Store, key: Key, depth: nat, limit: nat)
    requires Alike(s, s') && depth <= MAX_RECURSION_DEPTH + 1 && limit >= MAX_RECURSION_DEPTH
    requires !GuardDrops(s.computed, key, depth)
    ensures Alike(Invalidate(s, key, depth), InvalidateUpTo(s', key, depth, limit))
    ensures Invalidate(s, key, depth).computed == s.computed && Invalidate(s, key, depth).destroyed == s.destroyed
    decreases MAX_RECURSION_DEPTH + 1 - depth, 0
  {
    var readers := Dependents(s.computed, key);
    if depth <= MAX_RECURSION_DEPTH {
      AlikeRecompute(s, s', key, |s.computed|);
      assert forall i :: 0 <= i < |readers| ==> readers[i] in readers;
      RaisedLimitFirst(RecomputeFirst(s, key, |s.computed|), RecomputeFirst(s', key, |s.computed|), readers, |readers|,
                       depth + 1, limit);
    } else {
      NothingToRecompute(s', key, |s.computed|);
    }
  }

  lemma {:induction false} RaisedLimitFirst(s: Store, s': Store, keys: seq<Key>, n: nat, depth: nat, limit: nat)
    requires Alike(s, s') && n <= |keys| && depth <= MAX_RECURSION_DEPTH + 1 && limit >= MAX_RECURSION_DEPTH
    requires forall i :: 0 <= i < n ==> !GuardDrops(s.computed, keys[i], depth)
    ensures Alike(InvalidateFirst(s, keys, n, depth), InvalidateFirstUpTo(s', keys, n, depth, limit))
    ensures
      var done := InvalidateFirst(s, keys, n, depth);
      done.computed == s.computed && done.destroyed == s.destroyed
    decreases MAX_RECURSION_DEPTH + 1 - depth, n
  {
    if n > 0 {
      RaisedLimitFirst(s, s', keys, n - 1, depth, limit);
      RaisedLimit(InvalidateFirst(s, keys, n - 1, depth), InvalidateFirstUpTo(s', keys, n - 1, depth, limit),
                  keys[n - 1], depth, limit);
    }
  }

  // When the guard turns away no key that has readers, it changes nothing: setting a key with any higher limit
  // leaves the same store.
  lemma {:induction false} UndroppedMeansUnlimited(s: Store, key: Key, value: Value, limit: nat)
    requires !SetIgnored(s, key, value) && limit >= MAX_RECURSION_DEPTH
    requires !GuardDrops(s.computed, key, 0)
    ensures SetKey(s, key, value) == ScheduleFlush(InvalidateUpTo(Assign(s, key, value), key, 0, limit))
  {
    var a := Assign(s, key, value);
    RaisedLimit(a, a, key, 0, limit);
  }

  // Setting the key at the head of a chain leaves the store coherent exactly when the chain has at most 101 links.
  lemma {:induction false} ChainLimit(s: Store, n: nat, value: Value)
    requires Coherent(s) && s.computed == Chain(n) && !s.destroyed
    requires ChainKey(0) in s.state && s.state[ChainKey(0)] != value
    ensures Coherent(SetKey(s, ChainKey(0), value)) <==> n <= MAX_RECURSION_DEPTH + 1
  {
    var limit := MAX_RECURSION_DEPTH + 1;
    if n <= limit {
      ChainFits(n, 0);
      ChainFitsMore(s.computed, ChainKey(0), n, limit);
      SetKeepsCoherent(s, ChainKey(0), value);
    } else {
      var a := Assign(s, ChainKey(0), value);
      ChainInvalidate(a, n, 0, limit);
      ChainInvalidate(a, n, 0, limit + 1);
      ChainCachesOneValue(s, n, limit + 1);
      var s' := SetKey(s, ChainKey(0), value);
      assert s'.computed[limit] == Link(limit) && ChainKey(limit) in Link(limit).deps;
      assert s'.computed[limit - 1].key == ChainKey(limit);
      assert !Settled(s', limit);
    }
  }
}
