/** The limiter as it is kept in memory: one mutable bucket per caller, refilled lazily. */
module Limiter {
  import opened TokenBucket

  /** Ten minutes. */
  const IDLE_TTL := 600.0

  class BucketCell {
    var tokens: real
    var last: real
    var seen: real

    constructor (tokens: real, last: real)
      ensures Value() == Bucket(tokens, last, 0.0)
    {
      this.tokens := tokens;
      this.last := last;
      this.seen := 0.0;
    }

    function Value(): Bucket
      reads this
    {
      Bucket(tokens, last, seen)
    }

    /** Lazy refill, then one token if there is a whole one. */
    method Take(limit: Limit, now: real) returns (d: Decision)
      requires ValidLimit(limit)
      modifies this
      ensures Value() == Spent(Refilled(limit, old(Value()), now))
      ensures d == Decide(limit, Refilled(limit, old(Value()), now))
    {
      var elapsed := now - last;
      if elapsed > 0.0 {
        tokens := MinReal(limit.burst, tokens + elapsed * limit.rps);
        last := now;
      }
      seen := now;
      if tokens < 1.0 {
        var deficit := 1.0 - tokens;
        var wait := WholeNanos(deficit / limit.rps);
        if wait < 1.0 {
          wait := 1.0;
        }
        return Decision(false, 0, wait, limit.burst.Floor);
      }
      tokens := tokens - 1.0;
      d := Decision(true, tokens.Floor, 0.0, limit.burst.Floor);
    }
  }

  class Limiter {
    var buckets: map<Key, BucketCell>
    const limit: Limit
    const idleTtl: real
    var lastSweep: real

    /** The buckets as values. */
    ghost var Contents: map<Key, Bucket>

    ghost function Cells(): set<BucketCell>
      reads this
    {
      set k | k in buckets :: buckets[k]
    }

    /** No two callers share a bucket, and Contents says what is in each. */
    ghost predicate Valid()
      reads this, Cells()
    {
      && ValidLimit(limit)
      && Contents.Keys == buckets.Keys
      && (forall k :: k in buckets ==> buckets[k].Value() == Contents[k])
      && forall k, l :: k in buckets && l in buckets && buckets[k] == buckets[l] ==> k == l
    }

    /** The limiter's state as a value. */
    ghost function View(): State
      reads this
    {
      State(Contents, lastSweep)
    }

    constructor (limit: Limit)
      ensures Valid() && Cells() == {} && View() == Initial()
      ensures this.limit == Clamped(limit) && idleTtl == IDLE_TTL
    {
      this.limit := Clamped(limit);
      this.buckets := map[];
      this.idleTtl := IDLE_TTL;
      this.lastSweep := 0.0;
      this.Contents := map[];
    }

    /** The bucket of the caller, made with the full burst if there is none. */
    method Locate(key: Key, now: real) returns (b: BucketCell)
      requires Valid()
      modifies this`buckets, this`Contents
      ensures Valid() && key in buckets && b == buckets[key] && b in Cells()
      ensures fresh(Cells() - old(Cells()))
      ensures key in Contents && Refilled(limit, Contents[key], now) == Found(limit, old(View()), key, now)
      ensures old(Contents)[key := Contents[key]] == Contents
      ensures forall k :: k in old(buckets) ==> k in buckets && buckets[k] == old(buckets[k])
    {
      hide Refilled;
      if key !in buckets {
        b := new BucketCell(limit.burst, now);
        RefilledSeen(limit, b.Value(), now);
        Contents := Contents[key := b.Value()];
        buckets := buckets[key := b];
      } else {
        b := buckets[key];
      }
    }

    /** Takes a token from a bucket that is there. */
    method Spend(key: Key, now: real) returns (d: Decision)
      requires Valid() && key in buckets
      modifies this`Contents, buckets[key]
      ensures Valid()
      ensures Contents == old(Contents)[key := Spent(Refilled(limit, old(Contents[key]), now))]
      ensures d == Decide(limit, Refilled(limit, old(Contents[key]), now))
    {
      hide Decide, Spent, Refilled;
      var b := buckets[key];
      d := b.Take(limit, now);
      Contents := Contents[key := b.Value()];
    }

    /** Consumes one token for key: the new state and the decision are those of the value-level limiter. */
    method Allow(key: Key, now: real) returns (d: Decision)
      requires Valid()
      modifies this, Cells()
      ensures Valid() && fresh(Cells() - old(Cells()))
      ensures (View(), d) == TokenBucket.Allow(limit, idleTtl, old(View()), key, now)
    {
      hide Decide, Spent, Refilled, Sweep, Found;
      SweepLocked(now);
      ghost var swept := View();
      var b := Locate(key, now);
      Overwrite(swept.buckets, Contents, key, Spent(Found(limit, swept, key, now)));
      d := Spend(key, now);
    }

    /** Drops the buckets nobody has touched recently, at most once per idle period. */
    method SweepLocked(now: real)
      requires Valid()
      modifies this
      ensures Valid() && Cells() <= old(Cells())
      ensures View() == Sweep(old(View()), now, idleTtl)
    {
      if now - lastSweep < idleTtl {
        return;
      }
      var held := buckets;
      var keys := buckets.Keys;
      while keys != {}
        invariant held.Keys <= buckets.Keys && keys <= held.Keys
        invariant forall k :: k in held ==> held[k] == buckets[k]
        invariant forall k :: k in buckets ==> (k in held <==> k in keys || now - Contents[k].seen <= idleTtl)
        decreases keys
        modifies {}
      {
        var key :| key in keys;
        keys := keys - {key};
        if now - held[key].seen > idleTtl {
          held := held - {key};
        }
      }
      Contents := Sweep(View(), now, idleTtl).buckets;
      lastSweep := now;
      buckets := held;
    }
  }

  /** A bucket just created and one found at the same time refill alike, whatever was last seen. */
  lemma RefilledSeen(limit: Limit, b: Bucket, now: real)
    ensures Refilled(limit, b, now) == Refilled(limit, b.(seen := now), now)
  {
  }

  lemma Overwrite<K, V>(m: map<K, V>, n: map<K, V>, key: K, value: V)
    requires key in n && m[key := n[key]] == n
    ensures n[key := value] == m[key := value]
  {
  }
}
