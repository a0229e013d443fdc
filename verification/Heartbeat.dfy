/** The claim heartbeat: a worker renews its lease while an operation runs, and validates it once more
    before the result counts. Time is counted in ticks, `scale` of them to a second. */
module Heartbeat {

  const HEARTBEAT_INTERVAL_SECONDS: nat := 30

  function Min(a: int, b: int): int { if a < b then a else b }

  function Max(a: int, b: int): int { if a > b then a else b }

  function IntervalSeconds(claimTimeoutSeconds: nat): (seconds: nat)
    ensures seconds >= 1
  {
    Max(1, Min(HEARTBEAT_INTERVAL_SECONDS, claimTimeoutSeconds / 3))
  }

  // Of the intervals up to the platform's and up to a third of the lease, it is the longest.
  lemma {:induction false} IntervalIsLongest(claimTimeoutSeconds: nat, other: nat)
    requires other <= HEARTBEAT_INTERVAL_SECONDS && 3 * other <= claimTimeoutSeconds
    ensures other <= IntervalSeconds(claimTimeoutSeconds) <= HEARTBEAT_INTERVAL_SECONDS
  {
  }

  // The interval is at most a third of the lease exactly when the lease is at least three seconds.
  lemma {:induction false} IntervalWithinAThird(claimTimeoutSeconds: nat)
    ensures 3 * IntervalSeconds(claimTimeoutSeconds) <= claimTimeoutSeconds <==> claimTimeoutSeconds >= 3
  {
  }

  lemma {:induction false} IntervalTicksWithinAThird(claimTimeoutSeconds: nat, scale: nat)
    requires claimTimeoutSeconds >= 3
    ensures 3 * (IntervalSeconds(claimTimeoutSeconds) * scale) <= claimTimeoutSeconds * scale
  {
    var spare := claimTimeoutSeconds - 3 * IntervalSeconds(claimTimeoutSeconds);
    assert spare >= 0 by { IntervalWithinAThird(claimTimeoutSeconds); }
    assert claimTimeoutSeconds * scale == 3 * (IntervalSeconds(claimTimeoutSeconds) * scale) + spare * scale;
    assert spare * scale >= 0;
  }

  // One heartbeat call: it takes effect somewhere between its start and its end, if it succeeds.
  datatype Attempt = Attempt(start: nat, effect: nat, end: nat, ok: bool)

  // How long the k-th call takes, how far into the call the renewal takes effect, and whether it succeeds.
  datatype Beat = Beat(latency: nat, head: nat, ok: bool)

  // Where the operation ends by itself, and whether by raising.
  datatype Operation = Operation(finish: nat, raises: bool)

  datatype Outcome =
    | InvalidInterval
    | Returned          // the operation's result is handed back
    | ClaimLost         // a renewal failed: no result
    | OperationRaised   // the operation's own error is handed on: no result

  // What a run leaves behind; the operation is running from `start` until `stopped`.
  datatype Trace = Trace(start: nat, stopped: nat, attempts: seq<Attempt>, outcome: Outcome)

  function Last(attempts: seq<Attempt>): Attempt
    requires attempts != []
  {
    attempts[|attempts| - 1]
  }

  // Calls follow one another, each within `interval` of the end of the one before; only the last may fail.
  ghost predicate Scheduled(start: nat, attempts: seq<Attempt>, interval: nat) {
    && (attempts != [] ==> attempts[0].start == start)
    && (forall i :: 0 <= i < |attempts| ==> attempts[i].start <= attempts[i].effect <= attempts[i].end)
    && (forall i :: 0 <= i < |attempts| - 1 ==>
          attempts[i].ok && attempts[i].end <= attempts[i + 1].start <= attempts[i].end + interval)
  }

  // The loop waits for the interval or for the operation's end, whichever is sooner, and for nothing else.
  ghost predicate Spaced(attempts: seq<Attempt>, operation: Operation, interval: nat) {
    forall i :: 0 <= i < |attempts| - 1 ==>
      attempts[i + 1].start == Max(attempts[i].end, Min(attempts[i].end + interval, operation.finish))
  }

  // What the loop promises of its run.
  ghost predicate Sound(t: Trace, operation: Operation, interval: nat) {
    && t.attempts != [] && Scheduled(t.start, t.attempts, interval)
    && t.outcome == (if !Last(t.attempts).ok then ClaimLost else if operation.raises then OperationRaised else Returned)
    && (t.outcome == Returned ==> Last(t.attempts).start >= operation.finish)
    && t.stopped == Min(Max(t.start, operation.finish),
                        if t.outcome == ClaimLost then Last(t.attempts).end else Max(t.start, operation.finish))
    && t.stopped <= Last(t.attempts).end + if Last(t.attempts).ok then interval else 0
  }

  // The calls took the times, and had the outcomes, that `beats` says.
  ghost predicate Follows(attempts: seq<Attempt>, beats: nat -> Beat) {
    forall k :: 0 <= k < |attempts| ==> attempts[k] == Call(attempts[k].start, beats(k))
  }

  function Call(start: nat, beat: Beat): Attempt {
    Attempt(start, start + beat.head, start + beat.latency, beat.ok)
  }

  // The loop's state: every call so far succeeded, and the clock is within an interval of the last one's end.
  ghost predicate Looping(start: nat, attempts: seq<Attempt>, interval: nat, beats: nat -> Beat, now: nat) {
    && Scheduled(start, attempts, interval) && Follows(attempts, beats)
    && (attempts == [] ==> now == start)
    && (attempts != [] ==> Last(attempts).ok && Last(attempts).end <= now <= Last(attempts).end + interval)
  }

  lemma {:induction false} NextCall(start: nat, attempts: seq<Attempt>, interval: nat, beats: nat -> Beat, now: nat)
    requires Looping(start, attempts, interval, beats, now)
    requires beats(|attempts|).head <= beats(|attempts|).latency
    ensures
      var called := attempts + [Call(now, beats(|attempts|))];
      Scheduled(start, called, interval) && Follows(called, beats)
  {
    var called := attempts + [Call(now, beats(|attempts|))];
    forall i | 0 <= i < |called| - 1
      ensures called[i].ok && called[i].end <= called[i + 1].start <= called[i].end + interval
    {
      if i + 1 < |attempts| {
        assert attempts[i + 1] == called[i + 1];
      }
    }
  }

  // The loop from time `now` on, after the calls so far. The operation is not done before the first test, so at least
  // one call is made; after each call the loop waits for the interval or the operation's end.
  function Beating(
      start: nat, now: nat, attempts: seq<Attempt>, operation: Operation, interval: nat, beats: nat -> Beat): Trace
    requires interval > 0
    decreases attempts == [], operation.finish - now
  {
    var call := Call(now, beats(|attempts|));
    if attempts == [] || now < operation.finish then
      if !call.ok then Trace(start, Min(call.end, Max(start, operation.finish)), attempts + [call], ClaimLost)
      else Beating(start, Waited(call.end, operation, interval), attempts + [call], operation, interval, beats)
    else if operation.raises then Trace(start, Max(start, operation.finish), attempts, OperationRaised)
    else Trace(start, Max(start, operation.finish), attempts + [call], if call.ok then Returned else ClaimLost)
  }

  function Waited(now: nat, operation: Operation, interval: nat): nat {
    if now < operation.finish then Min(now + interval, operation.finish) else now
  }

  // A whole run.
  function Beats(start: nat, operation: Operation, interval: nat, beats: nat -> Beat): Trace
    requires interval > 0
  {
    Beating(start, start, [], operation, interval, beats)
  }

  method RunWithHeartbeat(
      heartbeatSeconds: int, intervalSeconds: int, scale: nat, start: nat, operation: Operation, beats: nat -> Beat)
    returns (trace: Trace)
    requires scale > 0
    ensures heartbeatSeconds < 1 || intervalSeconds < 1 ==> trace == Trace(start, start, [], InvalidInterval)
    ensures heartbeatSeconds >= 1 && intervalSeconds >= 1 ==>
              intervalSeconds * scale > 0 && trace == Beats(start, operation, intervalSeconds * scale, beats)
  {
    if heartbeatSeconds < 1 || intervalSeconds < 1 {
      return Trace(start, start, [], InvalidInterval);
    }
    Positive(intervalSeconds, scale);
    var interval: nat := intervalSeconds * scale;
    var now: nat := start;
    var attempts: seq<Attempt> := [];
    while attempts == [] || now < operation.finish
      invariant Beating(start, now, attempts, operation, interval, beats) == Beats(start, operation, interval, beats)
      decreases attempts == [], operation.finish - now
    {
      var call := Call(now, beats(|attempts|));
      attempts := attempts + [call];
      if !call.ok {
        return Trace(start, Min(call.end, Max(start, operation.finish)), attempts, ClaimLost);
      }
      now := call.end;
      if now < operation.finish {
        now := Min(now + interval, operation.finish);
      }
    }
    var stopped := Max(start, operation.finish);
    if operation.raises {
      return Trace(start, stopped, attempts, OperationRaised);
    }
    var call := Call(now, beats(|attempts|));
    return Trace(start, stopped, attempts + [call], if call.ok then Returned else ClaimLost);
  }

  lemma {:induction false} Positive(a: int, b: int)
    requires a >= 1 && b >= 1
    ensures a * b >= 1
  {
  }

  ghost predicate EffectInside(beats: nat -> Beat) {
    forall k: nat :: beats(k).head <= beats(k).latency
  }

  // Every run keeps what the loop promises, and its calls are the ones it was given.
  lemma {:induction false} RunsAreSound(start: nat, operation: Operation, interval: nat, beats: nat -> Beat)
    requires interval > 0 && EffectInside(beats)
    ensures
      var t := Beats(start, operation, interval, beats);
      && t.start == start && Sound(t, operation, interval) && Follows(t.attempts, beats)
      && Spaced(t.attempts, operation, interval)
  {
    BeatingIsSound(start, start, [], operation, interval, beats);
    BeatingIsSpaced(start, start, [], operation, interval, beats);
  }

  lemma {:induction false} BeatingIsSpaced(
      start: nat, now: nat, attempts: seq<Attempt>, operation: Operation, interval: nat, beats: nat -> Beat)
    requires interval > 0 && Spaced(attempts, operation, interval)
    requires attempts != [] ==> now == Waited(Last(attempts).end, operation, interval)
    ensures Spaced(Beating(start, now, attempts, operation, interval, beats).attempts, operation, interval)
    decreases attempts == [], operation.finish - now
  {
    var call := Call(now, beats(|attempts|));
    SpacedNext(attempts, call, operation, interval);
    if (attempts == [] || now < operation.finish) && call.ok {
      BeatingIsSpaced(start, Waited(call.end, operation, interval), attempts + [call], operation, interval, beats);
    }
  }

  lemma {:induction false} SpacedNext(attempts: seq<Attempt>, call: Attempt, operation: Operation, interval: nat)
    requires Spaced(attempts, operation, interval)
    requires attempts != [] ==> call.start == Waited(Last(attempts).end, operation, interval)
    ensures Spaced(attempts + [call], operation, interval)
  {
    var called := attempts + [call];
    forall i | 0 <= i < |called| - 1
      ensures called[i + 1].start == Max(called[i].end, Min(called[i].end + interval, operation.finish))
    {
      if i + 1 < |attempts| {
        assert called[i + 1] == attempts[i + 1];
      }
    }
  }

  lemma {:induction false} BeatingIsSound(
      start: nat, now: nat, attempts: seq<Attempt>, operation: Operation, interval: nat, beats: nat -> Beat)
    requires interval > 0 && EffectInside(beats)
    requires Looping(start, attempts, interval, beats, now)
    requires start <= now
    requires now <= Max(start, operation.finish) || (attempts != [] && now == Last(attempts).end)
    ensures
      var t := Beating(start, now, attempts, operation, interval, beats);
      t.start == start && Sound(t, operation, interval) && Follows(t.attempts, beats)
    decreases attempts == [], operation.finish - now
  {
    var call := Call(now, beats(|attempts|));
    NextCall(start, attempts, interval, beats, now);
    if (attempts == [] || now < operation.finish) && call.ok {
      BeatingIsSound(start, Waited(call.end, operation, interval), attempts + [call], operation, interval, beats);
    } else {
      LastTurnIsSound(start, now, attempts, operation, interval, beats);
    }
  }

  // The turn that ends the loop: a failed call, or the validation after the operation's end.
  lemma {:induction false} LastTurnIsSound(
      start: nat, now: nat, attempts: seq<Attempt>, operation: Operation, interval: nat, beats: nat -> Beat)
    requires interval > 0 && Looping(start, attempts, interval, beats, now) && start <= now
    requires now <= Max(start, operation.finish) || (attempts != [] && now == Last(attempts).end)
    requires
      var called := attempts + [Call(now, beats(|attempts|))];
      Scheduled(start, called, interval) && Follows(called, beats)
    requires !((attempts == [] || now < operation.finish) && Call(now, beats(|attempts|)).ok)
    ensures
      var t := Beating(start, now, attempts, operation, interval, beats);
      t.start == start && Sound(t, operation, interval) && Follows(t.attempts, beats)
  {
    var call := Call(now, beats(|attempts|));
    assert Last(attempts + [call]) == call;
  }

  // ---------- the lease ----------

  // The lease has run out at time x: the first claim and every renewal in effect by then have expired.
  ghost predicate Expired(t: Trace, claimedAt: nat, lease: nat, x: nat) {
    && claimedAt + lease <= x
    && forall i :: 0 <= i < |t.attempts| && t.attempts[i].ok && t.attempts[i].effect <= x ==>
          t.attempts[i].effect + lease <= x
  }

  // Where a call's part of the gap ends: at the renewal, or when its failure is known.
  function Settled(a: Attempt): nat {
    if a.ok then a.effect else a.end
  }

  // Each renewal comes no later than the one before it runs out.
  ghost predicate Renewed(t: Trace, claimedAt: nat, lease: nat, interval: nat) {
    && claimedAt <= t.start
    && (t.attempts != [] ==> Settled(t.attempts[0]) <= claimedAt + lease)
    && (forall i :: 0 <= i < |t.attempts| - 1 ==> Settled(t.attempts[i + 1]) <= t.attempts[i].effect + lease)
    && (t.attempts != [] && Last(t.attempts).ok ==> Last(t.attempts).end + interval <= Last(t.attempts).effect + lease)
  }

  lemma {:induction false} CoveredUpTo(t: Trace, claimedAt: nat, lease: nat, interval: nat, x: nat, n: nat)
    requires Scheduled(t.start, t.attempts, interval) && Renewed(t, claimedAt, lease, interval)
    requires n < |t.attempts| && Expired(t, claimedAt, lease, x)
    ensures x >= Settled(t.attempts[n])
    ensures t.attempts[n].ok ==> x >= t.attempts[n].effect + lease
  {
    if n > 0 {
      CoveredUpTo(t, claimedAt, lease, interval, x, n - 1);
    }
  }

  // Another worker can claim only an expired lease, and by then this worker's operation has stopped.
  lemma {:induction false} NoConcurrentExecution(
      t: Trace, operation: Operation, claimedAt: nat, lease: nat, interval: nat, x: nat)
    requires Sound(t, operation, interval) && Renewed(t, claimedAt, lease, interval)
    requires Expired(t, claimedAt, lease, x)
    ensures x >= t.stopped
  {
    CoveredUpTo(t, claimedAt, lease, interval, x, |t.attempts| - 1);
  }

  // A result is handed back only if a renewal that began after the operation ended succeeded; a failed
  // renewal stops the operation and hands nothing back.
  lemma {:induction false} ResultIsFenced(t: Trace, operation: Operation, interval: nat)
    requires Sound(t, operation, interval)
    ensures t.outcome == Returned ==>
              exists i :: 0 <= i < |t.attempts| && t.attempts[i].ok && t.attempts[i].start >= operation.finish
    ensures (exists i :: 0 <= i < |t.attempts| && !t.attempts[i].ok) ==>
              t.outcome == ClaimLost && t.stopped <= Last(t.attempts).end
  {
    if t.outcome == Returned {
      assert t.attempts[|t.attempts| - 1].ok;
    }
  }

  // The start of one renewal is at most the interval and one latency after the start of the one before.
  lemma {:induction false} GapBetweenRenewals(t: Trace, interval: nat, latency: nat, i: nat)
    requires Scheduled(t.start, t.attempts, interval) && i + 1 < |t.attempts|
    requires t.attempts[i].end - t.attempts[i].start <= latency
    ensures t.attempts[i + 1].start - t.attempts[i].start <= interval + latency
  {
  }

  // Where in its call a renewal takes effect: anywhere, or as the call returns.
  datatype Effect = Anywhere | AtReturn

  // Every call takes at most `latency`.
  ghost predicate Quick(beats: nat -> Beat, latency: nat, effect: Effect) {
    forall k: nat ::
      && beats(k).head <= beats(k).latency <= latency
      && (effect.AtReturn? ==> beats(k).head == beats(k).latency)
  }

  // If the first renewal comes in time, nobody else can hold the claim while this run's operation is running.
  ghost predicate ExcludesOthers(
      claimedAt: nat, start: nat, operation: Operation, interval: nat, beats: nat -> Beat, lease: nat, x: nat)
    requires interval > 0
  {
    var t := Beats(start, operation, interval, beats);
    && claimedAt <= start && t.attempts != [] && Settled(t.attempts[0]) <= claimedAt + lease
    && Expired(t, claimedAt, lease, x) ==>
      x >= t.stopped
  }

  ghost predicate AllRunsExclude(latency: nat, effect: Effect, interval: nat, lease: nat)
    requires interval > 0
  {
    forall claimedAt, start, operation, beats, x | Quick(beats, latency, effect) ::
      ExcludesOthers(claimedAt, start, operation, interval, beats, lease, x)
  }

  // The longest time from one renewal to the next, or to the news that there is none.
  function LongestGap(latency: nat, effect: Effect, interval: nat): nat {
    match effect
    case Anywhere => latency + interval + latency
    case AtReturn => interval + latency
  }

  // Latencies up to a bound keep two workers from ever running the claim's work at once, in every run, if and only if
  // the longest gap between renewals fits the lease.
  lemma {:induction false} ExcludedExactly(latency: nat, effect: Effect, interval: nat, lease: nat)
    requires interval > 0
    ensures AllRunsExclude(latency, effect, interval, lease) <==> LongestGap(latency, effect, interval) <= lease
  {
    if LongestGap(latency, effect, interval) <= lease {
      forall claimedAt, start, operation, beats, x | Quick(beats, latency, effect)
        ensures ExcludesOthers(claimedAt, start, operation, interval, beats, lease, x)
      {
        ShortGapsExclude(latency, effect, claimedAt, start, operation, interval, beats, lease, x);
      }
    } else {
      var beats, finish := LateBeats(latency, effect), latency + interval + latency + 1;
      assert Quick(beats, latency, effect);
      LongGapOverlaps(latency, effect, interval, lease);
      assert !ExcludesOthers(0, 0, Operation(finish, false), interval, beats, lease, lease);
    }
  }

  lemma {:induction false} ShortGapsExclude(
      latency: nat, effect: Effect, claimedAt: nat, start: nat, operation: Operation, interval: nat, beats: nat -> Beat,
      lease: nat, x: nat)
    requires interval > 0 && Quick(beats, latency, effect) && LongestGap(latency, effect, interval) <= lease
    ensures ExcludesOthers(claimedAt, start, operation, interval, beats, lease, x)
  {
    var t := Beats(start, operation, interval, beats);
    RunsAreSound(start, operation, interval, beats);
    if claimedAt <= start && Settled(t.attempts[0]) <= claimedAt + lease && Expired(t, claimedAt, lease, x) {
      forall i | 0 <= i < |t.attempts| - 1 ensures Settled(t.attempts[i + 1]) <= t.attempts[i].effect + lease {
        assert t.attempts[i] == Call(t.attempts[i].start, beats(i));
        assert t.attempts[i + 1] == Call(t.attempts[i + 1].start, beats(i + 1));
      }
      var n := |t.attempts| - 1;
      assert t.attempts[n] == Call(t.attempts[n].start, beats(n));
      NoConcurrentExecution(t, operation, claimedAt, lease, interval, x);
    }
  }

  // A renewal that takes effect as early as it may, then a slow call that fails.
  function LateBeats(latency: nat, effect: Effect): nat -> Beat {
    k => if k > 0 then Beat(latency, if effect.AtReturn? then latency else 0, false)
         else if effect.AtReturn? then Beat(0, 0, true) else Beat(latency, 0, true)
  }

  // The run these beats give: its operation is still running when the lease has run out.
  lemma {:induction false} LongGapOverlaps(latency: nat, effect: Effect, interval: nat, lease: nat)
    requires interval > 0 && LongestGap(latency, effect, interval) > lease
    ensures
      var t := Beats(0, Operation(latency + interval + latency + 1, false), interval, LateBeats(latency, effect));
      && t.attempts != [] && Settled(t.attempts[0]) == 0
      && t.outcome == ClaimLost && t.stopped == LongestGap(latency, effect, interval)
      && Expired(t, 0, lease, lease) && lease < t.stopped
  {
    var operation, beats := Operation(latency + interval + latency + 1, false), LateBeats(latency, effect);
    var first := Call(0, beats(0));
    var second := Call(first.end + interval, beats(1));
    assert Waited(first.end, operation, interval) == first.end + interval;
    assert Beating(0, first.end + interval, [first], operation, interval, beats)
        == Trace(0, second.end, [first] + [second], ClaimLost);
    assert [] + [first] == [first];
    assert Beats(0, operation, interval, beats)
        == Beating(0, first.end + interval, [first], operation, interval, beats);
  }

  // With an interval of a third of the lease, the bound is one third, or two thirds if renewals take effect at return.
  lemma {:induction false} ThirdsAreExact(latency: nat, third: nat)
    requires third > 0
    ensures AllRunsExclude(latency, Anywhere, third, 3 * third) <==> latency <= third
    ensures AllRunsExclude(latency, AtReturn, third, 3 * third) <==> latency <= 2 * third
  {
    ExcludedExactly(latency, Anywhere, third, 3 * third);
    ExcludedExactly(latency, AtReturn, third, 3 * third);
  }

  // The platform's interval, with any lease: the exact bound, and the thirds of the lease as bounds that suffice from
  // three seconds on.
  lemma {:induction false} NoTwoWorkersAtOnce(claimTimeoutSeconds: nat, scale: nat, latency: nat, effect: Effect)
    requires scale > 0
    ensures
      var lease, interval := claimTimeoutSeconds * scale, IntervalSeconds(claimTimeoutSeconds) * scale;
      && interval > 0
      && (AllRunsExclude(latency, effect, interval, lease) <==> LongestGap(latency, effect, interval) <= lease)
      && (claimTimeoutSeconds >= 3 && 3 * latency <= (if effect.AtReturn? then 2 else 1) * lease ==>
            AllRunsExclude(latency, effect, interval, lease))
  {
    var lease, interval := claimTimeoutSeconds * scale, IntervalSeconds(claimTimeoutSeconds) * scale;
    Positive(IntervalSeconds(claimTimeoutSeconds), scale);
    ExcludedExactly(latency, effect, interval, lease);
    if claimTimeoutSeconds >= 3 {
      IntervalTicksWithinAThird(claimTimeoutSeconds, scale);
    }
  }
}
