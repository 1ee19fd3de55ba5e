/** When the idle sweep is not invisible: a bucket deeper than what refills in one idle period. */
module SweepLimit {
  import opened TokenBucket

  /** Some run on a clock that already shows `from` gets a decision that depends on the sweep. */
  ghost predicate Distinguished(limit: Limit, ttl: real, from: real)
    requires ValidLimit(limit)
  {
    exists calls :: Ordered(calls) && NotBefore(calls, from) && Telling(limit, ttl, calls)
  }

  predicate NotBefore(calls: seq<Call>, from: real) {
    forall i :: 0 <= i < |calls| ==> calls[i].time >= from
  }

  ghost predicate Telling(limit: Limit, ttl: real, calls: seq<Call>)
    requires ValidLimit(limit)
  {
    calls != [] && LastDecision(limit, After(ttl), calls) != LastDecision(limit, Never, calls)
  }

  function Swept(limit: Limit, ttl: real, calls: seq<Call>): State
    requires ValidLimit(limit)
  {
    RunState(limit, After(ttl), calls)
  }

  function Kept(limit: Limit, calls: seq<Call>): State
    requires ValidLimit(limit)
  {
    RunState(limit, Never, calls)
  }

  /** What a call for the key at time t finds in the sweeping limiter. */
  function SweptTokens(limit: Limit, ttl: real, calls: seq<Call>, key: Key, t: real): real
    requires ValidLimit(limit)
  {
    Available(limit, Sweep(Swept(limit, ttl, calls), t, ttl), key, t)
  }

  function KeptTokens(limit: Limit, calls: seq<Call>, key: Key, t: real): real
    requires ValidLimit(limit)
  {
    Available(limit, Kept(limit, calls), key, t)
  }

  predicate LaterThan(calls: seq<Call>, t: real, from: real) {
    Ordered(calls) && NotBefore(calls, from) && 0.0 <= from <= t && (calls != [] ==> calls[|calls| - 1].time <= t)
  }

  lemma OneMoreCall(limit: Limit, ttl: Ttl, calls: seq<Call>, call: Call, from: real)
    requires ValidLimit(limit) && LaterThan(calls, call.time, from)
    ensures Ordered(calls + [call]) && LaterThan(calls + [call], call.time, from)
    ensures var next := calls + [call];
            && RunState(limit, ttl, next) == Step(limit, ttl, RunState(limit, ttl, calls), call).0
            && LastDecision(limit, ttl, next) == Step(limit, ttl, RunState(limit, ttl, calls), call).1
  {
    assert (calls + [call])[..|calls|] == calls;
  }

  /** Both limiters spend one token when both have one. */
  lemma SpendBoth(limit: Limit, ttl: real, calls: seq<Call>, key: Key, t: real, from: real)
    requires ValidLimit(limit) && ttl > 0.0 && LaterThan(calls, t, from)
    requires SweptTokens(limit, ttl, calls, key, t) >= 1.0 && KeptTokens(limit, calls, key, t) >= 1.0
    ensures var next := calls + [Call(key, t)];
            && LaterThan(next, t, from)
            && SweptTokens(limit, ttl, next, key, t) == SweptTokens(limit, ttl, calls, key, t) - 1.0
            && KeptTokens(limit, next, key, t) == KeptTokens(limit, calls, key, t) - 1.0
  {
    var call := Call(key, t);
    OneMoreCall(limit, After(ttl), calls, call, from);
    OneMoreCall(limit, Never, calls, call, from);
    RunSane(limit, After(ttl), calls, t);
    RunSane(limit, Never, calls, t);
    SweepSane(limit, Swept(limit, ttl, calls), t, t, ttl);
    SpendHere(limit, Sweep(Swept(limit, ttl, calls), t, ttl), key, t);
    SpendHere(limit, Kept(limit, calls), key, t);
    SweepAgain(limit, ttl, Swept(limit, ttl, calls), key, t);
  }

  lemma SpendHere(limit: Limit, s: State, key: Key, t: real)
    requires ValidLimit(limit) && Sane(limit, s, t) && Available(limit, s, key, t) >= 1.0
    ensures Available(limit, Serve(limit, s, key, t).0, key, t) == Available(limit, s, key, t) - 1.0
  {
    ServeSpends(limit, s, Call(key, t), t, key);
  }

  /** A sweep right after serving a call drops nothing. */
  lemma SweepAgain(limit: Limit, ttl: real, s: State, key: Key, t: real)
    requires ValidLimit(limit) && ttl > 0.0 && Sane(limit, s, t)
    ensures var r := Serve(limit, Sweep(s, t, ttl), key, t).0;
            Available(limit, Sweep(r, t, ttl), key, t) == Available(limit, r, key, t)
  {
  }

  /** Once the sweeping limiter has more tokens, some continuation shows it. */
  lemma {:induction false} MoreTokensShow(limit: Limit, ttl: real, calls: seq<Call>, key: Key, t: real, from: real)
    requires ValidLimit(limit) && ttl > 0.0 && LaterThan(calls, t, from)
    requires 0.0 <= KeptTokens(limit, calls, key, t) < SweptTokens(limit, ttl, calls, key, t)
    ensures Distinguished(limit, ttl, from)
    decreases KeptTokens(limit, calls, key, t).Floor
  {
    var more, less := SweptTokens(limit, ttl, calls, key, t), KeptTokens(limit, calls, key, t);
    if less >= 1.0 {
      SpendBoth(limit, ttl, calls, key, t, from);
      assert (less - 1.0).Floor < less.Floor;
      MoreTokensShow(limit, ttl, calls + [Call(key, t)], key, t, from);
    } else if more >= 1.0 {
      ShowNow(limit, ttl, calls, key, t, from);
    } else {
      var later := t + (1.0 - more) / limit.rps;
      WaitToOne(limit, ttl, calls, key, t, from);
      ShowNow(limit, ttl, calls, key, later, from);
    }
  }

  lemma ShowNow(limit: Limit, ttl: real, calls: seq<Call>, key: Key, t: real, from: real)
    requires ValidLimit(limit) && LaterThan(calls, t, from)
    requires KeptTokens(limit, calls, key, t) < 1.0 <= SweptTokens(limit, ttl, calls, key, t)
    ensures Distinguished(limit, ttl, from)
  {
    var call := Call(key, t);
    OneMoreCall(limit, After(ttl), calls, call, from);
    OneMoreCall(limit, Never, calls, call, from);
    assert Telling(limit, ttl, calls + [call]);
  }

  /** Waiting until the sweeping limiter has a whole token leaves the other one short of it. */
  lemma WaitToOne(limit: Limit, ttl: real, calls: seq<Call>, key: Key, t: real, from: real)
    requires ValidLimit(limit) && ttl > 0.0 && LaterThan(calls, t, from)
    requires 0.0 <= KeptTokens(limit, calls, key, t) < SweptTokens(limit, ttl, calls, key, t) < 1.0
    ensures var later := t + (1.0 - SweptTokens(limit, ttl, calls, key, t)) / limit.rps;
            && later > t && LaterThan(calls, later, from)
            && KeptTokens(limit, calls, key, later) < 1.0 <= SweptTokens(limit, ttl, calls, key, later)
  {
    var more, less := SweptTokens(limit, ttl, calls, key, t), KeptTokens(limit, calls, key, t);
    var wait := WaitTime(limit, more);
    var s := Swept(limit, ttl, calls);
    RunSane(limit, After(ttl), calls, t);
    RunSane(limit, Never, calls, t);
    ShortIsPresent(limit, ttl, s, key, t);
    ShortIsKept(limit, Kept(limit, calls), key, t);
    GrowsTo(limit, s, key, t, wait);
    GrowsTo(limit, Kept(limit, calls), key, t, wait);
    SweepFillsOrKeeps(limit, ttl, s, key, t, t + wait);
  }

  lemma WaitTime(limit: Limit, tokens: real) returns (wait: real)
    requires ValidLimit(limit) && tokens < 1.0
    ensures wait == (1.0 - tokens) / limit.rps && wait > 0.0 && wait * limit.rps == 1.0 - tokens
  {
    wait := (1.0 - tokens) / limit.rps;
    assert wait * limit.rps == 1.0 - tokens;
  }

  lemma ShortIsKept(limit: Limit, s: State, key: Key, t: real)
    requires ValidLimit(limit) && Available(limit, s, key, t) < 1.0
    ensures key in s.buckets
  {
  }

  lemma ShortIsPresent(limit: Limit, ttl: real, s: State, key: Key, t: real)
    requires ValidLimit(limit) && Available(limit, Sweep(s, t, ttl), key, t) < 1.0
    ensures key in s.buckets && Available(limit, s, key, t) == Available(limit, Sweep(s, t, ttl), key, t)
  {
  }

  /** A sweep leaves a bucket alone or makes it count as full. */
  lemma SweepFillsOrKeeps(limit: Limit, ttl: real, s: State, key: Key, t: real, later: real)
    requires ValidLimit(limit)
    ensures var swept := Available(limit, Sweep(s, later, ttl), key, later);
            swept == Available(limit, s, key, later) || swept == limit.burst
  {
  }

  lemma GrowsTo(limit: Limit, s: State, key: Key, t: real, wait: real)
    requires ValidLimit(limit) && Sane(limit, s, t) && key in s.buckets && wait >= 0.0
    ensures Available(limit, s, key, t + wait) == MinReal(limit.burst, Available(limit, s, key, t) + wait * limit.rps)
  {
    var b := s.buckets[key];
    Accrues(limit, wait);
    Accrues(limit, t - b.last);
    assert (t + wait - b.last) * limit.rps == (t - b.last) * limit.rps + wait * limit.rps;
  }

  // ---------- Draining and idling ----------

  /** The only sweep so far came with the first call, at `start`, and both limiters hold x tokens, last used at t. */
  ghost predicate Drained(limit: Limit, ttl: real, calls: seq<Call>, key: Key, t: real, x: real, start: real)
    requires ValidLimit(limit)
  {
    && LaterThan(calls, t, start)
    && key in Swept(limit, ttl, calls).buckets && Swept(limit, ttl, calls).buckets[key] == Bucket(x, t, t)
    && key in Kept(limit, calls).buckets && Kept(limit, calls).buckets[key] == Bucket(x, t, t)
    && Swept(limit, ttl, calls).lastSweep == start
  }

  /** Any clock shows more than ttl since the zero time, so the first call sweeps. */
  lemma FirstCall(limit: Limit, ttl: real, key: Key, start: real)
    requires ValidLimit(limit) && start >= ttl > 0.0
    ensures Drained(limit, ttl, [Call(key, start)], key, start, limit.burst - 1.0, start)
  {
    var call := Call(key, start);
    OneMoreCall(limit, After(ttl), [], call, start);
    OneMoreCall(limit, Never, [], call, start);
    assert [] + [call] == [call];
  }

  lemma ServeDrained(limit: Limit, s: State, key: Key, t: real, x: real, wait: real)
    requires ValidLimit(limit) && key in s.buckets && s.buckets[key] == Bucket(x, t, t) && wait >= 0.0
    requires 1.0 <= x + wait * limit.rps <= limit.burst
    ensures var r := Serve(limit, s, key, t + wait).0;
            key in r.buckets && r.buckets[key] == Bucket(x + wait * limit.rps - 1.0, t + wait, t + wait) && r.lastSweep == s.lastSweep
  {
    if wait == 0.0 {
      assert wait * limit.rps == 0.0;
    }
  }

  lemma DrainMore(limit: Limit, ttl: real, calls: seq<Call>, key: Key, t: real, x: real, wait: real,
          start: real)
    requires ValidLimit(limit) && Drained(limit, ttl, calls, key, t, x, start) && wait >= 0.0 && t + wait < start + ttl
    requires 1.0 <= x + wait * limit.rps <= limit.burst
    ensures Drained(limit, ttl, calls + [Call(key, t + wait)], key, t + wait, x + wait * limit.rps - 1.0, start)
  {
    hide Serve, RunState, LastDecision;
    var call := Call(key, t + wait);
    OneMoreCall(limit, After(ttl), calls, call, start);
    OneMoreCall(limit, Never, calls, call, start);
    ServeDrained(limit, Swept(limit, ttl, calls), key, t, x, wait);
    ServeDrained(limit, Kept(limit, calls), key, t, x, wait);
  }

  /** As many calls as there are whole tokens, all at once. */
  lemma {:induction false} DrainWhole(limit: Limit, ttl: real, key: Key, n: nat, start: real) returns (calls: seq<Call>)
    requires ValidLimit(limit) && start >= ttl > 0.0 && 1 <= n && n as real <= limit.burst
    ensures Drained(limit, ttl, calls, key, start, limit.burst - n as real, start)
  {
    if n == 1 {
      FirstCall(limit, ttl, key, start);
      calls := [Call(key, start)];
    } else {
      calls := DrainWhole(limit, ttl, key, n - 1, start);
      assert limit.burst - (n - 1) as real + 0.0 * limit.rps >= 1.0;
      DrainMore(limit, ttl, calls, key, start, limit.burst - (n - 1) as real, 0.0, start);
      assert start + 0.0 == start;
      calls := calls + [Call(key, start)];
    }
  }

  /** Idling just over ttl gives the sweeping limiter a full bucket, the other one only what has refilled. */
  lemma IdleShows(limit: Limit, ttl: real, calls: seq<Call>, key: Key, t: real, x: real,
          start: real)
    requires ValidLimit(limit) && ttl > 0.0 && Drained(limit, ttl, calls, key, t, x, start) && x >= 0.0
    requires x + limit.rps * ttl < limit.burst
    ensures Distinguished(limit, ttl, start)
  {
    hide RunState, LastDecision, Available, Sweep, Found, Distinguished, Ordered;
    var idle := IdleTime(limit, ttl, x);
    hide ValidLimit;
    var later := t + idle;
    IdleTokens(limit, ttl, Swept(limit, ttl, calls), Kept(limit, calls), key, t, x, idle, start);
    MoreTokensShow(limit, ttl, calls, key, later, start);
  }

  lemma IdleTime(limit: Limit, ttl: real, x: real) returns (idle: real)
    requires ValidLimit(limit) && ttl > 0.0 && x >= 0.0 && x + limit.rps * ttl < limit.burst
    ensures idle > ttl && 0.0 < x + idle * limit.rps < limit.burst
  {
    var gap := limit.burst - x - limit.rps * ttl;
    var extra := gap / (2.0 * limit.rps);
    assert extra * (2.0 * limit.rps) == gap;
    assert extra * limit.rps == gap / 2.0;
    assert extra > 0.0;
    idle := ttl + extra;
    assert idle * limit.rps == limit.rps * ttl + extra * limit.rps;
    assert idle * limit.rps > 0.0;
  }

  lemma IdleTokens(limit: Limit, ttl: real, swept: State, kept: State, key: Key, t: real, x: real,
          idle: real, start: real)
    requires ValidLimit(limit) && ttl > 0.0 && t >= start && idle > ttl && 0.0 < x + idle * limit.rps < limit.burst
    requires key in swept.buckets && swept.buckets[key] == Bucket(x, t, t) && swept.lastSweep == start
    requires key in kept.buckets && kept.buckets[key] == Bucket(x, t, t)
    ensures Available(limit, Sweep(swept, t + idle, ttl), key, t + idle) == limit.burst
    ensures Available(limit, kept, key, t + idle) == x + idle * limit.rps
  {
    var now := t + idle;
    assert now - t == idle;
    assert Refilled(limit, Bucket(x, t, t), now).tokens == MinReal(limit.burst, x + idle * limit.rps);
  }

  /** A deeper bucket than rps * ttl: some run can tell the limiters apart, however late it starts. */
  lemma DeepBucketShows(limit: Limit, ttl: real, start: real)
    requires ValidLimit(limit) && start >= ttl > 0.0 && limit.burst > limit.rps * ttl
    ensures Distinguished(limit, ttl, start)
  {
    hide Drained, Distinguished;
    var n := limit.burst.Floor;
    var calls := DrainWhole(limit, ttl, "", n, start);
    var rest := limit.burst - n as real;
    if rest + limit.rps * ttl < limit.burst {
      IdleShows(limit, ttl, calls, "", start, rest, start);
    } else {
      var wait := TopUpTime(limit, ttl, rest);
      DrainMore(limit, ttl, calls, "", start, rest, wait, start);
      IdleShows(limit, ttl, calls + [Call("", start + wait)], "", start + wait, rest + wait * limit.rps - 1.0, start);
    }
  }

  lemma ProductOrder(rate: real, a: real, b: real)
    requires rate > 0.0 && a <= b
    ensures rate * a <= b * rate
  {
    assert b * rate == rate * a + (b - a) * rate;
  }

  /** Topping up the last fraction of a token takes less than ttl, when refilling it and idling would fill the bucket. */
  lemma TopUpTime(limit: Limit, ttl: real, rest: real) returns (wait: real)
    requires ValidLimit(limit) && rest < 1.0 && rest <= limit.burst - 1.0
    requires limit.rps * ttl < limit.burst <= rest + limit.rps * ttl
    ensures 0.0 < wait < ttl && rest + wait * limit.rps == 1.0
  {
    wait := WaitTime(limit, rest);
    if wait >= ttl {
      ProductOrder(limit.rps, ttl, wait);
      assert false;
    }
  }

  /** Whenever the clock starts, the sweep is invisible in every run exactly when burst is at most rps * ttl. */
  lemma InvisibleIff(limit: Limit, ttl: real, from: real)
    requires ValidLimit(limit) && ttl > 0.0 && from >= 0.0
    ensures Distinguished(limit, ttl, from) <==> limit.burst > limit.rps * ttl
  {
    if limit.burst > limit.rps * ttl {
      DeepBucketShows(limit, ttl, from + ttl);
      var calls :| Ordered(calls) && NotBefore(calls, from + ttl) && Telling(limit, ttl, calls);
      assert NotBefore(calls, from);
    } else {
      forall calls | Ordered(calls) && calls != []
        ensures LastDecision(limit, After(ttl), calls) == LastDecision(limit, Never, calls)
      {
        SweepIsInvisible(limit, ttl, calls, |calls| - 1);
        assert calls[..|calls|] == calls;
      }
    }
  }
}
