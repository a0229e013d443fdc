/** The store object itself: its fields are updated in place, and each method
    is proved to do what the corresponding function of ReactiveStore says. */
module ReactiveStoreObject {
  import opened ReactiveStore
  import opened ReactiveStoreRuns

  class BaseReactiveStore {
    var state: map<Key, Value>
    var computed: seq<Computed>
    var computedCache: map<Key, Value>
    var pendingUpdates: seq<Update>
    var flushScheduled: bool
    var destroyed: bool

    function Model(): Store
      reads this
    {
      Store(state, computed, computedCache, pendingUpdates, flushScheduled, destroyed)
    }

    constructor (initialState: map<Key, Value>)
      ensures Model() == Initial(initialState)
    {
      state := initialState;
      computed, computedCache, pendingUpdates := [], map[], [];
      flushScheduled, destroyed := false, false;
    }

    // The getter of the i-th computed property: a cached value is returned, a missing one is computed and kept.
    // In a coherent store the dependencies are cached, so their getters only look them up.
    method Getter(i: nat) returns (value: Value)
      requires i < |computed|
      modifies this`computedCache
      ensures computed[i].key in old(computedCache) ==>
                computedCache == old(computedCache) && value == computedCache[computed[i].key]
      ensures computed[i].key !in old(computedCache) ==>
                && value == computed[i].fn(Args(old(Model()), computed[i]))
                && computedCache == old(computedCache)[computed[i].key := value]
    {
      var c := computed[i];
      if c.key !in computedCache {
        value := c.fn(Args(Model(), c));
        computedCache := computedCache[c.key := value];
      }
      value := computedCache[c.key];
    }

    method Get(key: Key) returns (value: Value)
      requires Shape(Model())
      modifies this`computedCache
      ensures value == Read(Model(), key) && Model() == old(Model())
    {
      for i := 0 to |computed|
        invariant Model() == old(Model())
        invariant forall j :: 0 <= j < i ==> computed[j].key != key
      {
        if computed[i].key == key {
          assert key in KeysOf(computed);
          value := Getter(i);
          return;
        }
      }
      value := Lookup(state, key);
    }

    method InvalidateDependent(key: Key, depth: nat)
      requires depth <= MAX_RECURSION_DEPTH + 1
      modifies this
      ensures Model() == Invalidate(old(Model()), key, depth)
      decreases MAX_RECURSION_DEPTH + 1 - depth
    {
      if depth > MAX_RECURSION_DEPTH {
        return;
      }
      ghost var start := Model();
      var invalidated: seq<Key> := [];
      var i := 0;
      while i < |computed|
        invariant 0 <= i <= |computed| && computed == start.computed
        invariant Model() == RecomputeFirst(start, key, i)
        invariant invalidated == DependentsFirst(start.computed, key, i)
      {
        if key in computed[i].deps {
          var computedKey := computed[i].key;
          var oldValue := Lookup(computedCache, computedKey);
          computedCache := computedCache - {computedKey};
          invalidated := invalidated + [computedKey];
          var newValue := Getter(i);
          if oldValue != newValue {
            pendingUpdates := Put(pendingUpdates, Update(computedKey, oldValue, newValue));
          }
          assert computedCache == RecomputeFirst(start, key, i).cache[computedKey := newValue];
        }
        i := i + 1;
      }
      ghost var recomputed := Model();
      var n := 0;
      while n < |invalidated|
        invariant 0 <= n <= |invalidated|
        invariant Model() == InvalidateFirst(recomputed, invalidated, n, depth + 1)
      {
        InvalidateDependent(invalidated[n], depth + 1);
        n := n + 1;
      }
      RequestFlush();
    }

    method RequestFlush()
      modifies this`flushScheduled
      ensures Model() == ScheduleFlush(old(Model()))
    {
      if !destroyed && !flushScheduled {
        flushScheduled := true;
      }
    }

    method Set(key: Key, value: Value)
      modifies this
      ensures Model() == SetKey(old(Model()), key, value)
    {
      if destroyed || key in KeysOf(computed) {
        return;
      }
      var prev := Lookup(state, key);
      if prev == value {
        return;
      }
      state := state[key := value];
      pendingUpdates := Put(pendingUpdates, Update(key, prev, value));
      InvalidateDependent(key, 0);
      RequestFlush();
    }

    method RegisterComputed(c: Computed)
      requires Shape(Model())
      modifies this
      ensures Model() == Register(old(Model()), c)
    {
      if c.key in state || c.key in KeysOf(computed) {
        return;
      }
      computed := computed + [c];
      var initialValue := Getter(|computed| - 1);
    }

    method FlushPending() returns (updates: seq<Update>)
      modifies this
      ensures (Model(), updates) == FlushChanges(old(Model()))
    {
      flushScheduled := false;
      updates := [];
      if pendingUpdates == [] {
        return;
      }
      for i := 0 to |pendingUpdates|
        invariant updates == pendingUpdates[..i] && pendingUpdates == old(pendingUpdates)
        invariant Model() == old(Model()).(flushScheduled := false)
      {
        updates := updates + [pendingUpdates[i]];
      }
      assert pendingUpdates[..|pendingUpdates|] == pendingUpdates;
      pendingUpdates := [];
    }

    method FlushIfScheduled() returns (updates: seq<Update>)
      modifies this
      ensures (Model(), updates) == Flush(old(Model()))
    {
      updates := [];
      if flushScheduled {
        flushScheduled := false;
        updates := FlushPending();
      }
    }

    method Close()
      modifies this
      ensures Model() == Destroy(old(Model()))
    {
      destroyed := true;
      computedCache, computed, pendingUpdates := map[], [], [];
      flushScheduled := false;
    }
  }
}
