/** The token-bucket limiter as a function of its state, with and without the idle sweep.

    Time is a real number of seconds since the zero time, tokens are real numbers. */
module TokenBucket {

  type Key = string

  datatype Limit = Limit(rps: real, burst: real)

  datatype Bucket = Bucket(tokens: real, last: real, seen: real)

  datatype State = State(buckets: map<Key, Bucket>, lastSweep: real)

  datatype Decision = Decision(allowed: bool, remaining: int, retryAfter: real, limit: int)

  datatype Call = Call(key: Key, time: real)

  predicate ValidLimit(limit: Limit) {
    limit.burst >= 1.0 && limit.rps > 0.0
  }

  /** The shape New enforces, whatever it is given. */
  function Clamped(limit: Limit): (r: Limit)
    ensures ValidLimit(r)
    ensures limit.rps > 0.0 ==> r.rps == limit.rps
    ensures limit.burst >= 1.0 ==> r.burst == limit.burst
    ensures limit.rps <= 0.0 ==> r.rps == 1.0
    ensures limit.burst < 1.0 ==> r.burst == 1.0
  {
    Limit(if limit.rps <= 0.0 then 1.0 else limit.rps, if limit.burst < 1.0 then 1.0 else limit.burst)
  }

  function Initial(): State {
    State(map[], 0.0)
  }

  function MinReal(x: real, y: real): real {
    if x <= y then x else y
  }

  /** The bucket at `now`, with what it has earned since it was last touched, up to its depth. */
  function Refilled(limit: Limit, b: Bucket, now: real): Bucket {
    if now - b.last > 0.0 then Bucket(MinReal(limit.burst, b.tokens + (now - b.last) * limit.rps), now, now)
    else Bucket(b.tokens, b.last, now)
  }

  /** The bucket a request at `now` finds, refilled; a new caller starts full. */
  function Found(limit: Limit, s: State, key: Key, now: real): Bucket {
    Refilled(limit, if key in s.buckets then s.buckets[key] else Bucket(limit.burst, now, now), now)
  }

  const NANOS := 1_000_000_000.0

  /** A time in seconds cut down to whole nanoseconds, as the conversion to a duration does. */
  function WholeNanos(seconds: real): real {
    (seconds * NANOS).Floor as real / NANOS
  }

  function Decide(limit: Limit, b: Bucket): Decision
    requires limit.rps != 0.0
  {
    if b.tokens < 1.0 then
      var wait := WholeNanos((1.0 - b.tokens) / limit.rps);
      Decision(false, 0, if wait < 1.0 then 1.0 else wait, limit.burst.Floor)
    else Decision(true, (b.tokens - 1.0).Floor, 0.0, limit.burst.Floor)
  }

  function Spent(b: Bucket): Bucket {
    if b.tokens < 1.0 then b else b.(tokens := b.tokens - 1.0)
  }

  /** One request against the buckets as they are. */
  function Serve(limit: Limit, s: State, key: Key, now: real): (r: (State, Decision))
    requires ValidLimit(limit)
  {
    var b := Found(limit, s, key, now);
    (s.(buckets := s.buckets[key := Spent(b)]), Decide(limit, b))
  }

  /** Drops the buckets not seen for longer than ttl, at most once per ttl. */
  function Sweep(s: State, now: real, ttl: real): State {
    if now - s.lastSweep < ttl then s
    else State(map k | k in s.buckets && now - s.buckets[k].seen <= ttl :: s.buckets[k], now)
  }

  /** One request to the limiter, sweep included. */
  function Allow(limit: Limit, ttl: real, s: State, key: Key, now: real): (State, Decision)
    requires ValidLimit(limit)
  {
    Serve(limit, Sweep(s, now, ttl), key, now)
  }

  // ---------- What a decision promises ----------

  /** The state after k more requests of the key at the same instant. */
  function Repeated(limit: Limit, s: State, key: Key, now: real, k: nat): State
    requires ValidLimit(limit)
  {
    if k == 0 then s else Serve(limit, Repeated(limit, s, key, now, k - 1), key, now).0
  }

  /** What k requests leave of some tokens. */
  function LeftOver(tokens: real, k: nat): real {
    if k == 0 then tokens
    else
      var left := LeftOver(tokens, k - 1);
      if left < 1.0 then left else left - 1.0
  }

  lemma {:induction false} LeftOverIs(tokens: real, k: nat)
    requires tokens >= 0.0
    ensures LeftOver(tokens, k) == tokens - if k <= tokens.Floor then k as real else tokens.Floor as real
  {
    if k > 0 {
      LeftOverIs(tokens, k - 1);
    }
  }

  lemma {:induction false} LeftOverLittle(tokens: real, k: nat)
    requires tokens < 1.0
    ensures LeftOver(tokens, k) == tokens
  {
    if k > 0 {
      LeftOverLittle(tokens, k - 1);
    }
  }

  lemma {:induction false} TokensAfter(limit: Limit, s: State, key: Key, now: real, k: nat)
    requires ValidLimit(limit)
    ensures Found(limit, Repeated(limit, s, key, now, k), key, now).tokens == LeftOver(Found(limit, s, key, now).tokens, k)
  {
    hide Found, Serve;
    if k > 0 {
      TokensAfter(limit, s, key, now, k - 1);
      SpentIsFound(limit, Repeated(limit, s, key, now, k - 1), key, now);
    }
  }

  /** At the same instant a bucket is found as it was left. */
  lemma SpentIsFound(limit: Limit, s: State, key: Key, now: real)
    requires ValidLimit(limit)
    ensures Found(limit, Serve(limit, s, key, now).0, key, now).tokens == Spent(Found(limit, s, key, now)).tokens
  {
  }

  /** remaining is exact: of further requests at the same instant just that many are allowed. */
  lemma RemainingIsExact(limit: Limit, s: State, key: Key, now: real, k: nat)
    requires ValidLimit(limit)
    ensures var (after, decision) := Serve(limit, s, key, now);
            Serve(limit, Repeated(limit, after, key, now, k), key, now).1.allowed <==> k < decision.remaining
  {
    hide Repeated, Found, LeftOver;
    var after := Serve(limit, s, key, now).0;
    var found := Found(limit, s, key, now).tokens;
    SpentIsFound(limit, s, key, now);
    TokensAfter(limit, after, key, now, k);
    if found < 1.0 {
      LeftOverLittle(found, k);
    } else {
      LeftOverIs(found - 1.0, k);
    }
  }

  /** A new caller starts full: its burst, cut down to a whole number, is what it may do at once. */
  lemma NewCallerStartsFull(limit: Limit, s: State, key: Key, now: real)
    requires ValidLimit(limit) && key !in s.buckets
    ensures var decision := Serve(limit, s, key, now).1;
            decision.allowed && decision.remaining + 1 == decision.limit && decision.limit as real <= limit.burst < decision.limit as real + 1.0
  {
  }

  // ---------- Runs ----------

  predicate Ordered(calls: seq<Call>) {
    && (forall i :: 0 <= i < |calls| ==> calls[i].time >= 0.0)
    && forall i, j :: 0 <= i < j < |calls| ==> calls[i].time <= calls[j].time
  }

  /** The state after the calls; ttl None is a limiter that never sweeps. */
  datatype Ttl = Never | After(ttl: real)

  function Step(limit: Limit, ttl: Ttl, s: State, call: Call): (State, Decision)
    requires ValidLimit(limit)
  {
    if ttl.Never? then Serve(limit, s, call.key, call.time) else Allow(limit, ttl.ttl, s, call.key, call.time)
  }

  function RunState(limit: Limit, ttl: Ttl, calls: seq<Call>): State
    requires ValidLimit(limit)
  {
    if calls == [] then Initial()
    else Step(limit, ttl, RunState(limit, ttl, calls[..|calls| - 1]), calls[|calls| - 1]).0
  }

  /** The decision on the last call. */
  function LastDecision(limit: Limit, ttl: Ttl, calls: seq<Call>): Decision
    requires ValidLimit(limit) && calls != []
  {
    Step(limit, ttl, RunState(limit, ttl, calls[..|calls| - 1]), calls[|calls| - 1]).1
  }

  // ---------- What every run keeps ----------

  /** Buckets hold between 0 and burst tokens and were last refilled when last seen. */
  ghost predicate Sane(limit: Limit, s: State, now: real) {
    forall k :: k in s.buckets ==>
      var b := s.buckets[k]; 0.0 <= b.tokens <= limit.burst && b.last == b.seen <= now
  }

  /** What the bucket of a key would hold at time t: absent buckets count as full. */
  function Available(limit: Limit, s: State, key: Key, t: real): real {
    Found(limit, s, key, t).tokens
  }

  lemma ServeSane(limit: Limit, s: State, key: Key, now: real, later: real)
    requires ValidLimit(limit) && Sane(limit, s, now) && now <= later
    ensures Sane(limit, Serve(limit, s, key, later).0, later)
    ensures 0.0 <= Available(limit, s, key, later) <= limit.burst
  {
    if key in s.buckets {
      Accrues(limit, later - s.buckets[key].last);
    }
  }

  lemma Accrues(limit: Limit, elapsed: real)
    requires limit.rps > 0.0 && elapsed >= 0.0
    ensures elapsed * limit.rps >= 0.0
  {
  }

  lemma AccruesMore(rps: real, short: real, long: real)
    requires rps > 0.0 && short <= long
    ensures short * rps <= long * rps
  {
    var more := long - short;
    assert more * rps >= 0.0;
    assert (short + more) * rps == short * rps + more * rps;
  }

  lemma SweepSane(limit: Limit, s: State, now: real, later: real, ttl: real)
    requires Sane(limit, s, now)
    ensures Sane(limit, Sweep(s, later, ttl), now)
  {
  }

  /** The sweeping limiter lags behind the other one only in buckets that would be full again anyway. */
  ghost predicate Simulates(limit: Limit, swept: State, full: State, now: real) {
    && (forall k :: k in swept.buckets ==> k in full.buckets && swept.buckets[k] == full.buckets[k])
    && (forall k :: k in full.buckets && k !in swept.buckets ==> Available(limit, full, k, now) == limit.burst)
  }

  /** A full bucket stays full. */
  lemma FullStaysFull(limit: Limit, s: State, key: Key, now: real, later: real)
    requires ValidLimit(limit) && Sane(limit, s, now) && now <= later && Available(limit, s, key, now) == limit.burst
    ensures Available(limit, s, key, later) == limit.burst
  {
    if key in s.buckets {
      var b := s.buckets[key];
      AccruesMore(limit.rps, now - b.last, later - b.last);
      Accrues(limit, now - b.last);
    }
  }

  /** A bucket idle for longer than ttl is full again, when burst is at most rps times ttl. */
  lemma IdleIsFull(limit: Limit, s: State, key: Key, now: real, ttl: real)
    requires ValidLimit(limit) && Sane(limit, s, now) && limit.burst <= limit.rps * ttl
    requires key in s.buckets && now - s.buckets[key].seen > ttl
    ensures Available(limit, s, key, now) == limit.burst
  {
    var b := s.buckets[key];
    var over := now - b.last - ttl;
    Accrues(limit, over);
    assert (now - b.last) * limit.rps == limit.rps * ttl + over * limit.rps;
    assert limit.rps * ttl > 0.0;
  }

  lemma SimulateStep(limit: Limit, ttl: real, swept: State, full: State, now: real, call: Call)
    requires ValidLimit(limit) && limit.burst <= limit.rps * ttl && now <= call.time
    requires Sane(limit, swept, now) && Sane(limit, full, now) && Simulates(limit, swept, full, now)
    ensures var a, b := Step(limit, After(ttl), swept, call), Step(limit, Never, full, call);
            a.1 == b.1 && Simulates(limit, a.0, b.0, call.time)
  {
    var t := call.time;
    var s := Sweep(swept, t, ttl);
    assert Simulates(limit, s, full, t) by {
      forall k | k in full.buckets && k !in s.buckets
        ensures Available(limit, full, k, t) == limit.burst
      {
        if k in swept.buckets {
          assert Sane(limit, full, t);
          IdleIsFull(limit, full, k, t, ttl);
        } else {
          FullStaysFull(limit, full, k, now, t);
        }
      }
    }
    var a, b := Step(limit, After(ttl), swept, call).0, Step(limit, Never, full, call).0;
    SameFound(limit, s, full, call.key, t);
    forall k | k in b.buckets && k !in a.buckets
      ensures Available(limit, b, k, t) == limit.burst
    {
      assert Available(limit, full, k, t) == limit.burst;
    }
  }

  lemma SameFound(limit: Limit, swept: State, full: State, key: Key, now: real)
    requires ValidLimit(limit) && Sane(limit, full, now) && Simulates(limit, swept, full, now)
    ensures Found(limit, swept, key, now) == Found(limit, full, key, now)
  {
  }

  lemma {:induction false} RunSane(limit: Limit, ttl: Ttl, calls: seq<Call>, now: real)
    requires ValidLimit(limit) && Ordered(calls)
    requires calls != [] ==> calls[|calls| - 1].time <= now
    ensures Sane(limit, RunState(limit, ttl, calls), now)
  {
    if calls != [] {
      var n := |calls| - 1;
      var before, call := calls[..n], calls[n];
      RunSane(limit, ttl, before, call.time);
      var s := RunState(limit, ttl, before);
      if ttl.After? {
        SweepSane(limit, s, call.time, call.time, ttl.ttl);
        ServeSane(limit, Sweep(s, call.time, ttl.ttl), call.key, call.time, call.time);
      } else {
        ServeSane(limit, s, call.key, call.time, call.time);
      }
    }
  }

  lemma {:induction false} RunSimulates(limit: Limit, ttl: real, calls: seq<Call>, now: real)
    requires ValidLimit(limit) && limit.burst <= limit.rps * ttl && Ordered(calls)
    requires calls != [] ==> calls[|calls| - 1].time == now
    ensures Simulates(limit, RunState(limit, After(ttl), calls), RunState(limit, Never, calls), now)
    ensures calls != [] ==> LastDecision(limit, After(ttl), calls) == LastDecision(limit, Never, calls)
  {
    if calls != [] {
      var n := |calls| - 1;
      var before, call := calls[..n], calls[n];
      var earlier := if before == [] then 0.0 else before[n - 1].time;
      RunSimulates(limit, ttl, before, earlier);
      RunSane(limit, After(ttl), before, earlier);
      RunSane(limit, Never, before, earlier);
      SimulateStep(limit, ttl, RunState(limit, After(ttl), before), RunState(limit, Never, before), earlier, call);
    }
  }

  /** The sweep is invisible: every call of every run gets the decision it would get from a limiter that never forgets. */
  lemma SweepIsInvisible(limit: Limit, ttl: real, calls: seq<Call>, i: nat)
    requires ValidLimit(limit) && limit.burst <= limit.rps * ttl && Ordered(calls) && i < |calls|
    ensures LastDecision(limit, After(ttl), calls[..i + 1]) == LastDecision(limit, Never, calls[..i + 1])
  {
    RunSimulates(limit, ttl, calls[..i + 1], calls[i].time);
  }

  // ---------- The rate that is enforced ----------

  /** How many of the calls from index `from` on are for this key and allowed. */
  function AllowedCalls(limit: Limit, ttl: Ttl, calls: seq<Call>, from: nat, key: Key): nat
    requires ValidLimit(limit)
  {
    if |calls| <= from then 0
    else
      AllowedCalls(limit, ttl, calls[..|calls| - 1], from, key)
      + if calls[|calls| - 1].key == key && LastDecision(limit, ttl, calls).allowed then 1 else 0
  }

  /** A served call takes one token from its own key when allowed, and nothing else. */
  lemma ServeSpends(limit: Limit, s: State, call: Call, now: real, key: Key)
    requires ValidLimit(limit) && Sane(limit, s, now) && now <= call.time
    ensures var (r, d) := Serve(limit, s, call.key, call.time);
            Available(limit, r, key, call.time) + (if call.key == key && d.allowed then 1.0 else 0.0) == Available(limit, s, key, call.time)
  {
    if call.key == key {
      var b := Found(limit, s, key, call.time);
      assert b.last == call.time;
    }
  }

  /** The tokens that accrue between two times. */
  function Earned(limit: Limit, since: real, until: real): real {
    limit.rps * (until - since)
  }

  lemma EarnedAdds(limit: Limit, a: real, b: real, c: real)
    ensures Earned(limit, a, c) == Earned(limit, a, b) + Earned(limit, b, c)
    ensures Earned(limit, a, a) == 0.0
  {
  }

  lemma AvailableGrows(limit: Limit, s: State, key: Key, now: real, later: real)
    requires ValidLimit(limit) && Sane(limit, s, now) && now <= later
    ensures Available(limit, s, key, later) <= Available(limit, s, key, now) + Earned(limit, now, later)
  {
    Accrues(limit, later - now);
    if key in s.buckets {
      var b := s.buckets[key];
      Accrues(limit, now - b.last);
      assert (later - b.last) * limit.rps == (now - b.last) * limit.rps + limit.rps * (later - now);
    }
  }

  lemma CountStep(limit: Limit, calls: seq<Call>, from: nat, key: Key)
    requires ValidLimit(limit) && from < |calls|
    ensures var n := |calls| - 1;
            var (r, d) := Serve(limit, RunState(limit, Never, calls[..n]), calls[n].key, calls[n].time);
            && RunState(limit, Never, calls) == r
            && AllowedCalls(limit, Never, calls, from, key)
               == AllowedCalls(limit, Never, calls[..n], from, key) + (if calls[n].key == key && d.allowed then 1 else 0)
            && (from == n ==> AllowedCalls(limit, Never, calls[..n], from, key) == 0)
  {
    hide Serve;
  }

  lemma {:induction false} SpendingIsBounded(limit: Limit, calls: seq<Call>, from: nat, key: Key)
    requires ValidLimit(limit) && Ordered(calls) && from < |calls|
    ensures var t := calls[|calls| - 1].time;
            AllowedCalls(limit, Never, calls, from, key) as real + Available(limit, RunState(limit, Never, calls), key, t)
              <= limit.burst + Earned(limit, calls[from].time, t)
    decreases |calls|
  {
    hide Available, Sane, Serve, Found, AllowedCalls, RunState, Earned;
    var n := |calls| - 1;
    var before, call := calls[..n], calls[n];
    var earlier := if before == [] then 0.0 else before[n - 1].time;
    RunSane(limit, Never, before, earlier);
    var s := RunState(limit, Never, before);
    CountStep(limit, calls, from, key);
    ServeSpends(limit, s, call, earlier, key);
    ServeSane(limit, s, key, earlier, call.time);
    EarnedAdds(limit, calls[from].time, earlier, call.time);
    EarnedAdds(limit, call.time, call.time, call.time);
    if from < n {
      SpendingIsBounded(limit, before, from, key);
      AvailableGrows(limit, s, key, earlier, call.time);
    }
  }

  lemma {:induction false} SameCounts(limit: Limit, ttl: real, calls: seq<Call>, from: nat, key: Key)
    requires ValidLimit(limit) && limit.burst <= limit.rps * ttl && Ordered(calls)
    ensures AllowedCalls(limit, After(ttl), calls, from, key) == AllowedCalls(limit, Never, calls, from, key)
    decreases |calls|
  {
    if |calls| > from {
      SameCounts(limit, ttl, calls[..|calls| - 1], from, key);
      SweepIsInvisible(limit, ttl, calls, |calls| - 1);
      assert calls[..|calls|] == calls;
    }
  }

  /** In every run and every window of it, one caller gets at most burst + rps * (length of the window) requests through. */
  lemma RateIsBounded(limit: Limit, ttl: real, calls: seq<Call>, from: nat, to: nat, key: Key)
    requires ValidLimit(limit) && limit.burst <= limit.rps * ttl && Ordered(calls) && from <= to < |calls|
    ensures AllowedCalls(limit, After(ttl), calls[..to + 1], from, key) as real
              <= limit.burst + Earned(limit, calls[from].time, calls[to].time)
  {
    hide Available, Sane, Serve, Found, AllowedCalls, RunState, LastDecision;
    var window := calls[..to + 1];
    SpendingIsBounded(limit, window, from, key);
    SameCounts(limit, ttl, window, from, key);
    RunSane(limit, Never, window, window[to].time);
    ServeSane(limit, RunState(limit, Never, window), key, window[to].time, window[to].time);
  }

  // ---------- Waiting out a refusal ----------

  /** The time after which a bucket holds a whole token. */
  function TimeToOne(limit: Limit, tokens: real): real
    requires limit.rps != 0.0
  {
    (1.0 - tokens) / limit.rps
  }

  /** After a refusal a retry is served exactly from the time on at which a whole token has accrued. */
  lemma RetryIsServedIff(limit: Limit, s: State, key: Key, now: real, later: real)
    requires ValidLimit(limit) && Sane(limit, s, now) && now <= later
    requires !Serve(limit, s, key, now).1.allowed
    ensures var r := Serve(limit, s, key, now).0;
            Serve(limit, r, key, later).1.allowed <==> later - now >= TimeToOne(limit, Available(limit, s, key, now))
  {
    hide WholeNanos;
    var r := Serve(limit, s, key, now).0;
    var b := Found(limit, s, key, now);
    assert b.last == now && r.buckets[key] == b && b.tokens < 1.0;
    AfterRefusal(limit, r, key, b.tokens, now, later);
    WaitFills(limit, b.tokens, later - now);
  }

  lemma NanosCut(seconds: real)
    ensures WholeNanos(seconds) <= seconds < WholeNanos(seconds) + 1.0 / NANOS
    ensures WholeNanos(seconds) < 1.0 <==> seconds < 1.0
  {
    var n := (seconds * NANOS).Floor;
    assert n as real <= seconds * NANOS < n as real + 1.0;
    assert seconds < 1.0 ==> n as real < NANOS;
    assert seconds >= 1.0 ==> seconds * NANOS >= 1_000_000_000 as real;
  }

  /** The advice given with a refusal: waiting it out is enough if and only if it was rounded up to a second, or the
      time needed is a whole number of nanoseconds; and it is always short of the time needed by less than a nanosecond. */
  lemma RetryAfterSufficesIff(limit: Limit, s: State, key: Key, now: real)
    requires ValidLimit(limit) && Sane(limit, s, now)
    requires !Serve(limit, s, key, now).1.allowed
    ensures var (r, d) := Serve(limit, s, key, now);
            var needed := TimeToOne(limit, Available(limit, s, key, now));
            && (Serve(limit, r, key, now + d.retryAfter).1.allowed <==> needed < 1.0 || WholeNanos(needed) == needed)
            && Serve(limit, r, key, now + d.retryAfter + 1.0 / NANOS).1.allowed
            && d.retryAfter == (if needed < 1.0 then 1.0 else WholeNanos(needed))
  {
    var needed := TimeToOne(limit, Available(limit, s, key, now));
    var wait := Serve(limit, s, key, now).1.retryAfter;
    NanosCut(needed);
    AdviceIs(limit, s, key, now);
    hide Serve, Available, TimeToOne, WholeNanos;
    assert wait > 0.0;
    RetryIsServedIff(limit, s, key, now, now + wait);
    RetryIsServedIff(limit, s, key, now, now + wait + 1.0 / NANOS);
  }

  lemma AdviceIs(limit: Limit, s: State, key: Key, now: real)
    requires ValidLimit(limit) && !Serve(limit, s, key, now).1.allowed
    ensures var needed := TimeToOne(limit, Available(limit, s, key, now));
            Serve(limit, s, key, now).1.retryAfter == if needed < 1.0 then 1.0 else WholeNanos(needed)
  {
    NanosCut(TimeToOne(limit, Available(limit, s, key, now)));
    hide WholeNanos, Refilled;
  }

  /** At 0.3 requests a second a refused caller is told 3.333333333 seconds, and is refused again after exactly those. */
  lemma RetryAfterFallsShort(t: real)
    requires t >= 0.0
    ensures var limit := Limit(0.3, 1.0);
            var s := Serve(limit, Initial(), "", t).0;
            var (r, d) := Serve(limit, s, "", t);
            !d.allowed && d.retryAfter == 3.333333333 && !Serve(limit, r, "", t + d.retryAfter).1.allowed
  {
    var limit := Limit(0.3, 1.0);
    var s := Serve(limit, Initial(), "", t).0;
    assert s.buckets[""] == Bucket(0.0, t, t);
    var needed := TimeToOne(limit, 0.0);
    assert (needed * NANOS).Floor == 3_333_333_333;
    assert WholeNanos(needed) == 3.333333333;
    assert Available(limit, s, "", t) == 0.0;
    RetryAfterSufficesIff(limit, s, "", t);
  }

  lemma AfterRefusal(limit: Limit, r: State, key: Key, tokens: real, now: real, later: real)
    requires ValidLimit(limit) && now <= later && key in r.buckets && r.buckets[key].last == now && r.buckets[key].tokens == tokens < 1.0
    ensures Serve(limit, r, key, later).1.allowed <==> tokens + (later - now) * limit.rps >= 1.0
  {
  }

  /** Enough has accrued exactly from (1 - tokens) / rps on. */
  lemma WaitFills(limit: Limit, tokens: real, elapsed: real)
    requires limit.rps > 0.0
    ensures elapsed >= (1.0 - tokens) / limit.rps <==> tokens + elapsed * limit.rps >= 1.0
  {
    var wait := (1.0 - tokens) / limit.rps;
    assert wait * limit.rps == 1.0 - tokens;
    if elapsed >= wait {
      Accrues(limit, elapsed - wait);
      assert elapsed * limit.rps == wait * limit.rps + (elapsed - wait) * limit.rps;
    } else {
      assert (wait - elapsed) * limit.rps > 0.0;
      assert wait * limit.rps == elapsed * limit.rps + (wait - elapsed) * limit.rps;
    }
  }
}
