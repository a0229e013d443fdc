/** Model of the reactive store: cached computed values repaired by recursive
    invalidation, and changes batched until a flush. */
module ReactiveStore {

  type Key = string

  // Deeply equal contents are one value; a key that is missing reads as Undefined.
  datatype Value = Undefined | Data(content: string)

  datatype Update = Update(key: Key, prev: Value, value: Value)

  // A computed property; its function sees the values of its declared dependencies only.
  datatype Computed = Computed(key: Key, deps: set<Key>, fn: map<Key, Value> -> Value)

  datatype Store = Store(
    state: map<Key, Value>,
    computed: seq<Computed>,  // in insertion order
    cache: map<Key, Value>,
    pending: seq<Update>,     // at most one entry a key, in order of first insertion
    flushScheduled: bool,
    destroyed: bool)

  const MAX_RECURSION_DEPTH: nat := 100

  // ---------- the operations, as functions on stores ----------

  function KeysOf(computed: seq<Computed>): set<Key> {
    set i | 0 <= i < |computed| :: computed[i].key
  }

  function Lookup(m: map<Key, Value>, key: Key): Value {
    if key in m then m[key] else Undefined
  }

  function Read(s: Store, key: Key): Value {
    if key in KeysOf(s.computed) then Lookup(s.cache, key) else Lookup(s.state, key)
  }

  function Args(s: Store, c: Computed): map<Key, Value> {
    map d | d in c.deps :: Read(s, d)
  }

  // The insertion-ordered map's `set`: an existing key keeps its place.
  function Put(pending: seq<Update>, u: Update): seq<Update> {
    if pending == [] then [u]
    else if pending[0].key == u.key then [u] + pending[1..]
    else [pending[0]] + Put(pending[1..], u)
  }

  function ScheduleFlush(s: Store): Store {
    if s.destroyed then s else s.(flushScheduled := true)
  }

  // One turn of the invalidation loop: drop the cached value, recompute it, note a change.
  function Recompute(s: Store, c: Computed): Store {
    var oldValue := Lookup(s.cache, c.key);
    var newValue := c.fn(Args(s.(cache := s.cache - {c.key}), c));
    var s' := s.(cache := s.cache[c.key := newValue]);
    if oldValue == newValue then s' else s'.(pending := Put(s.pending, Update(c.key, oldValue, newValue)))
  }

  // The store after the first n entries of the invalidation loop for `key`.
  function RecomputeFirst(s: Store, key: Key, n: nat): Store
    requires n <= |s.computed|
    ensures RecomputeFirst(s, key, n).computed == s.computed
    ensures RecomputeFirst(s, key, n).state == s.state
  {
    if n == 0 then s
    else
      var p := RecomputeFirst(s, key, n - 1);
      if key in s.computed[n - 1].deps then Recompute(p, s.computed[n - 1]) else p
  }

  function DependentsFirst(computed: seq<Computed>, key: Key, n: nat): seq<Key>
    requires n <= |computed|
  {
    if n == 0 then []
    else DependentsFirst(computed, key, n - 1) + if key in computed[n - 1].deps then [computed[n - 1].key] else []
  }

  function Dependents(computed: seq<Computed>, key: Key): seq<Key> {
    DependentsFirst(computed, key, |computed|)
  }

  function Invalidate(s: Store, key: Key, depth: nat): Store
    requires depth <= MAX_RECURSION_DEPTH + 1
    decreases MAX_RECURSION_DEPTH + 1 - depth, 0
  {
    if depth > MAX_RECURSION_DEPTH then s
    else
      var invalidated := Dependents(s.computed, key);
      ScheduleFlush(InvalidateFirst(RecomputeFirst(s, key, |s.computed|), invalidated, |invalidated|, depth + 1))
  }

  function InvalidateFirst(s: Store, keys: seq<Key>, n: nat, depth: nat): Store
    requires n <= |keys| && depth <= MAX_RECURSION_DEPTH + 1
    decreases MAX_RECURSION_DEPTH + 1 - depth, n
  {
    if n == 0 then s else Invalidate(InvalidateFirst(s, keys, n - 1, depth), keys[n - 1], depth)
  }

  function Assign(s: Store, key: Key, value: Value): Store {
    s.(state := s.state[key := value], pending := Put(s.pending, Update(key, Lookup(s.state, key), value)))
  }

  predicate SetIgnored(s: Store, key: Key, value: Value) {
    s.destroyed || key in KeysOf(s.computed) || Lookup(s.state, key) == value
  }

  function SetKey(s: Store, key: Key, value: Value): Store {
    if SetIgnored(s, key, value) then s
    else ScheduleFlush(Invalidate(Assign(s, key, value), key, 0))
  }

  predicate RegisterIgnored(s: Store, c: Computed) {
    c.key in s.state || c.key in KeysOf(s.computed)
  }

  function Register(s: Store, c: Computed): Store {
    if RegisterIgnored(s, c) then s
    else
      var s' := s.(computed := s.computed + [c]);
      s'.(cache := s.cache[c.key := c.fn(Args(s', c))])
  }

  // What the animation frame runs; the second component is what listeners receive, in order.
  function FlushChanges(s: Store): (Store, seq<Update>) {
    (s.(pending := [], flushScheduled := false), s.pending)
  }

  function Flush(s: Store): (Store, seq<Update>) {
    if s.flushScheduled then FlushChanges(s) else (s, [])
  }

  function Destroy(s: Store): Store {
    Store(s.state, [], map[], [], false, true)
  }

  // ---------- coherence ----------

  // Keys are distinct and every computed dependency was registered earlier.
  ghost predicate WellOrdered(computed: seq<Computed>) {
    && (forall i, j :: 0 <= i < j < |computed| ==> computed[i].key != computed[j].key)
    && (forall i, j :: 0 <= i <= j < |computed| ==> computed[j].key !in computed[i].deps)
  }

  ghost predicate Shape(s: Store) {
    && s.cache.Keys == KeysOf(s.computed)
    && s.state.Keys !! s.cache.Keys
  }

  // The i-th computed value agrees with its function on the current values.
  ghost predicate Settled(s: Store, i: nat)
    requires i < |s.computed|
  {
    Lookup(s.cache, s.computed[i].key) == s.computed[i].fn(Args(s, s.computed[i]))
  }

  ghost predicate Coherent(s: Store) {
    && Shape(s)
    && WellOrdered(s.computed)
    && forall i :: 0 <= i < |s.computed| ==> Settled(s, i)
  }

  // No dependency chain that starts at `key` has more than n links.
  ghost predicate ChainsFit(computed: seq<Computed>, key: Key, n: nat)
    decreases n
  {
    forall i :: 0 <= i < |computed| && key in computed[i].deps ==>
      n > 0 && ChainsFit(computed, computed[i].key, n - 1)
  }

  // The reference: evaluate a key with no cache at all.
  ghost function FromScratch(state: map<Key, Value>, computed: seq<Computed>, key: Key): Value
    decreases |computed|
  {
    if computed == [] then Lookup(state, key)
    else
      var c, earlier := computed[|computed| - 1], computed[..|computed| - 1];
      if c.key == key then c.fn(map d | d in c.deps :: FromScratch(state, earlier, d))
      else FromScratch(state, earlier, key)
  }

  // Whether an entry is settled depends on its own cached value and on what its dependencies read as.
  lemma {:induction false} SettledFrame(s: Store, s': Store, i: nat)
    requires s'.computed == s.computed && i < |s.computed|
    requires Lookup(s'.cache, s.computed[i].key) == Lookup(s.cache, s.computed[i].key)
    requires forall d :: d in s.computed[i].deps ==> Read(s', d) == Read(s, d)
    ensures Settled(s', i) == Settled(s, i)
  {
    assert Args(s', s.computed[i]) == Args(s, s.computed[i]);
  }

  lemma {:induction false} RecomputeStep(s: Store, n: nat)
    requires Shape(s) && WellOrdered(s.computed) && n < |s.computed|
    ensures
      var s' := Recompute(s, s.computed[n]);
      && Shape(s') && s'.state == s.state && s'.computed == s.computed
      && s'.destroyed == s.destroyed && s'.flushScheduled == s.flushScheduled
      && Settled(s', n)
      && forall i :: 0 <= i < |s.computed| && i != n && s.computed[n].key !in s.computed[i].deps ==>
           Settled(s', i) == Settled(s, i)
  {
    var c := s.computed[n];
    var s' := Recompute(s, c);
    RecomputeEffect(s, c);
    forall i | 0 <= i < |s.computed| && i != n && c.key !in s.computed[i].deps
      ensures Settled(s', i) == Settled(s, i)
    {
      assert s.computed[i].key != c.key;
      SettledFrame(s, s', i);
    }
  }

  lemma {:induction false} RecomputeEffect(s: Store, c: Computed)
    requires Shape(s) && c.key in KeysOf(s.computed) && c.key !in c.deps
    ensures
      var s' := Recompute(s, c);
      && Shape(s') && s'.state == s.state && s'.computed == s.computed
      && s'.destroyed == s.destroyed && s'.flushScheduled == s.flushScheduled
      && (forall k :: k != c.key ==> Read(s', k) == Read(s, k))
      && (forall k :: k != c.key ==> Lookup(s'.cache, k) == Lookup(s.cache, k))
      && Lookup(s'.cache, c.key) == c.fn(Args(s', c))
  {
    var s' := Recompute(s, c);
    assert s'.cache.Keys == s.cache.Keys;
    assert Args(s.(cache := s.cache - {c.key}), c) == Args(s', c);
  }

  // The entries the loop may leave unsettled once it has passed its first n entries.
  ghost predicate MayLag(s: Store, key: Key, n: nat, i: nat)
    requires n <= |s.computed| && i < |s.computed|
  {
    if key in s.computed[i].deps then i >= n
    else
      || !Settled(s, i)
      || exists j :: 0 <= j < n && key in s.computed[j].deps && s.computed[j].key in s.computed[i].deps
  }

  ghost predicate LagsBehind(s: Store, s': Store, key: Key, n: nat)
    requires n <= |s.computed|
  {
    && Shape(s') && s'.state == s.state && s'.computed == s.computed
    && s'.destroyed == s.destroyed && s'.flushScheduled == s.flushScheduled
    && forall i :: 0 <= i < |s.computed| && !Settled(s', i) ==> MayLag(s, key, n, i)
  }

  lemma {:induction false} RecomputeFirstSettles(s: Store, key: Key, n: nat)
    requires Shape(s) && WellOrdered(s.computed) && n <= |s.computed|
    ensures LagsBehind(s, RecomputeFirst(s, key, n), key, n)
  {
    if n == 0 {
      NothingLagsYet(s, key);
    } else {
      RecomputeFirstSettles(s, key, n - 1);
      SettlesStep(s, RecomputeFirst(s, key, n - 1), RecomputeFirst(s, key, n), key, n);
    }
  }

  lemma {:induction false} NothingLagsYet(s: Store, key: Key)
    requires Shape(s)
    ensures LagsBehind(s, s, key, 0)
  {
  }

  // Passing the n-th entry, from p to s'.
  lemma {:induction false} SettlesStep(s: Store, p: Store, s': Store, key: Key, n: nat)
    requires WellOrdered(s.computed) && 0 < n <= |s.computed|
    requires LagsBehind(s, p, key, n - 1)
    requires s' == if key in s.computed[n - 1].deps then Recompute(p, s.computed[n - 1]) else p
    ensures LagsBehind(s, s', key, n)
  {
    if key in s.computed[n - 1].deps {
      RecomputeStep(p, n - 1);
    }
    forall i | 0 <= i < |s.computed| && !Settled(s', i) ensures MayLag(s, key, n, i) {
      PassedEntry(s, p, s', key, n, i);
    }
  }

  lemma {:induction false} PassedEntry(s: Store, p: Store, s': Store, key: Key, n: nat, i: nat)
    requires WellOrdered(s.computed) && 0 < n <= |s.computed| && i < |s.computed|
    requires Shape(p) && p.computed == s.computed && (!Settled(p, i) ==> MayLag(s, key, n - 1, i))
    requires s' == if key in s.computed[n - 1].deps then Recompute(p, s.computed[n - 1]) else p
    requires s'.computed == s.computed && !Settled(s', i)
    ensures MayLag(s, key, n, i)
  {
    if key in s.computed[n - 1].deps {
      RecomputeStep(p, n - 1);
    }
    LagAfter(s, key, n, i, Settled(p, i));
  }

  lemma {:induction false} LagAfter(s: Store, key: Key, n: nat, i: nat, wasSettled: bool)
    requires WellOrdered(s.computed) && 0 < n <= |s.computed| && i < |s.computed|
    requires !wasSettled ==> MayLag(s, key, n - 1, i)
    requires key in s.computed[n - 1].deps ==>
              s.computed[n - 1].key in s.computed[i].deps || (i != n - 1 && !wasSettled)
    requires key !in s.computed[n - 1].deps ==> !wasSettled
    ensures MayLag(s, key, n, i)
  {
    if key in s.computed[n - 1].deps && s.computed[n - 1].key in s.computed[i].deps {
      assert n <= i;
    }
  }

  lemma {:induction false} DependentsAre(computed: seq<Computed>, key: Key, n: nat)
    requires n <= |computed|
    ensures forall k :: k in DependentsFirst(computed, key, n) <==>
              exists i :: 0 <= i < n && key in computed[i].deps && computed[i].key == k
  {
    if n > 0 {
      DependentsAre(computed, key, n - 1);
    }
  }

  // s' has everything s has settled, and every entry that reads a key in `repaired` as well.
  ghost predicate Repairs(s: Store, s': Store, repaired: set<Key>) {
    && Shape(s') && s'.state == s.state && s'.computed == s.computed && s'.destroyed == s.destroyed
    && forall i :: 0 <= i < |s.computed| && !Settled(s', i) ==> !Settled(s, i) && s.computed[i].deps !! repaired
  }

  // The heart of the repair: invalidating `key` settles every direct dependent of `key` and unsettles nothing.
  lemma {:induction false} InvalidateRepairs(s: Store, key: Key, depth: nat)
    requires depth <= MAX_RECURSION_DEPTH + 1
    requires Shape(s) && WellOrdered(s.computed)
    requires ChainsFit(s.computed, key, MAX_RECURSION_DEPTH + 1 - depth)
    ensures Repairs(s, Invalidate(s, key, depth), {key})
    decreases MAX_RECURSION_DEPTH + 1 - depth, 0
  {
    if depth <= MAX_RECURSION_DEPTH {
      var s1 := RecomputeFirst(s, key, |s.computed|);
      var invalidated := Dependents(s.computed, key);
      RecomputeFirstSettles(s, key, |s.computed|);
      DependentsAre(s.computed, key, |s.computed|);
      InvalidateFirstRepairs(s1, invalidated, |invalidated|, depth + 1);
      CombineRepairs(s, s1, InvalidateFirst(s1, invalidated, |invalidated|, depth + 1), key);
    }
  }

  lemma {:induction false} CombineRepairs(s: Store, s1: Store, s2: Store, key: Key)
    requires LagsBehind(s, s1, key, |s.computed|)
    requires Repairs(s1, s2, set k | k in Dependents(s.computed, key))
    ensures Repairs(s, ScheduleFlush(s2), {key})
  {
    DependentsAre(s.computed, key, |s.computed|);
    var s' := ScheduleFlush(s2);
    forall i | 0 <= i < |s.computed| && !Settled(s', i)
      ensures !Settled(s, i) && s.computed[i].deps !! {key}
    {
      SettledFrame(s2, s', i);
      assert MayLag(s, key, |s.computed|, i);
    }
  }

  lemma {:induction false} InvalidateFirstRepairs(s: Store, keys: seq<Key>, n: nat, depth: nat)
    requires n <= |keys| && 0 < depth <= MAX_RECURSION_DEPTH + 1
    requires Shape(s) && WellOrdered(s.computed)
    requires forall k :: k in keys ==> ChainsFit(s.computed, k, MAX_RECURSION_DEPTH + 1 - depth)
    ensures Repairs(s, InvalidateFirst(s, keys, n, depth), set k | k in keys[..n])
    decreases MAX_RECURSION_DEPTH + 1 - depth, n
  {
    if n > 0 {
      InvalidateFirstRepairs(s, keys, n - 1, depth);
      assert keys[n - 1] in keys;
      InvalidateRepairs(InvalidateFirst(s, keys, n - 1, depth), keys[n - 1], depth);
      assert keys[..n] == keys[..n - 1] + [keys[n - 1]];
    }
  }

  lemma {:induction false} SetKeepsCoherent(s: Store, key: Key, value: Value)
    requires Coherent(s) && (SetIgnored(s, key, value) || ChainsFit(s.computed, key, MAX_RECURSION_DEPTH + 1))
    ensures Coherent(SetKey(s, key, value))
  {
    if !SetIgnored(s, key, value) {
      var a := Assign(s, key, value);
      forall i | 0 <= i < |s.computed| && key !in s.computed[i].deps
        ensures Settled(a, i)
      {
        assert Args(a, s.computed[i]) == Args(s, s.computed[i]);
        assert Settled(s, i);
      }
      InvalidateRepairs(a, key, 0);
      var s2 := Invalidate(a, key, 0);
      var s' := SetKey(s, key, value);
      forall i | 0 <= i < |s.computed|
        ensures Settled(s', i)
      {
        assert Args(s', s.computed[i]) == Args(s2, s.computed[i]);
        assert Settled(s2, i);
      }
    }
  }

  lemma {:induction false} RegisterKeepsCoherent(s: Store, c: Computed)
    requires Coherent(s) && (RegisterIgnored(s, c) || WellOrdered(s.computed + [c]))
    ensures Coherent(Register(s, c))
  {
    if !RegisterIgnored(s, c) {
      var s' := Register(s, c);
      var n := |s.computed|;
      forall k | k in KeysOf(s'.computed) ensures k in KeysOf(s.computed) || k == c.key {}
      forall k | k in KeysOf(s.computed) ensures k in KeysOf(s'.computed) {
        var i :| 0 <= i < n && s.computed[i].key == k;
        assert s'.computed[i].key == k;
      }
      assert s'.computed[n].key == c.key;
      forall i | 0 <= i < |s'.computed|
        ensures Settled(s', i)
      {
        assert (s.computed + [c])[i] == s'.computed[i] && s'.computed[n] == c;
        if i < n {
          assert c.key !in s.computed[i].deps;
          assert Args(s', s.computed[i]) == Args(s, s.computed[i]);
          assert Settled(s, i);
        } else {
          assert Args(s', c) == Args(s.(computed := s.computed + [c]), c);
        }
      }
    }
  }

  lemma {:induction false} CoherentPrefix(s: Store, n: nat, key: Key)
    requires Coherent(s) && n <= |s.computed|
    requires forall j :: n <= j < |s.computed| ==> s.computed[j].key != key
    ensures Read(s, key) == FromScratch(s.state, s.computed[..n], key)
    decreases n
  {
    if n > 0 {
      var c, earlier := s.computed[n - 1], s.computed[..n - 1];
      assert s.computed[..n][..n - 1] == earlier;
      if c.key == key {
        forall d | d in c.deps ensures Read(s, d) == FromScratch(s.state, earlier, d) {
          CoherentPrefix(s, n - 1, d);
        }
        assert Args(s, c) == map d | d in c.deps :: FromScratch(s.state, earlier, d);
        assert Settled(s, n - 1);
        assert key in KeysOf(s.computed);
      } else {
        CoherentPrefix(s, n - 1, key);
      }
    }
  }

  lemma {:induction false} CoherentMeansFromScratch(s: Store)
    requires Coherent(s)
    ensures forall key :: Read(s, key) == FromScratch(s.state, s.computed, key)
  {
    forall key ensures Read(s, key) == FromScratch(s.state, s.computed, key) {
      CoherentPrefix(s, |s.computed|, key);
      assert s.computed[..|s.computed|] == s.computed;
    }
  }
}
