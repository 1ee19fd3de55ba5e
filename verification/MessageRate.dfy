/** The per-client message window: thirty messages per window, which is not thirty per second. */
module MessageRate {
  import opened Basics
  import HubModel

  const LIMIT := HubModel.MAX_MESSAGES_PER_SECOND

  datatype Window = Window(count: nat, start: real)

  /** The window is over when a message comes later than a second after its start. */
  predicate Resets(w: Window, now: real) {
    now - w.start > 1.0
  }

  function Counted(w: Window, now: real): Window {
    var (count, start, _) := HubModel.Window(w.count, w.start, now); Window(count, start)
  }

  predicate Passes(w: Window, now: real) {
    HubModel.Window(w.count, w.start, now).2
  }

  predicate Ordered(times: seq<real>) {
    forall i, j :: 0 <= i < j < |times| ==> times[i] <= times[j]
  }

  function After(w: Window, times: seq<real>): Window {
    if times == [] then w else Counted(After(w, times[..|times| - 1]), times[|times| - 1])
  }

  /** How many of the messages get through. */
  function Allowed(w: Window, times: seq<real>): nat {
    if times == [] then 0
    else
      var n := |times| - 1;
      Allowed(w, times[..n]) + if Passes(After(w, times[..n]), times[n]) then 1 else 0
  }

  /** Every message of `times` comes within a second of `since`. */
  predicate WithinSecond(since: real, times: seq<real>) {
    Ordered(times) && forall i :: 0 <= i < |times| ==> since <= times[i] <= since + 1.0
  }

  function AtMost(n: nat): nat {
    if n <= LIMIT then n else LIMIT
  }

  /** The messages that still fall into window w; in order of time, they come before all others. */
  function Early(w: Window, times: seq<real>): (n: nat)
    ensures n <= |times|
  {
    if times == [] then 0 else Early(w, times[..|times| - 1]) + if Resets(w, times[|times| - 1]) then 0 else 1
  }

  /** What window w has left. */
  function Room(w: Window): nat {
    LIMIT - AtMost(w.count)
  }

  /** The window after messages within a second: still w, or the one that the first later message has opened. */
  lemma {:induction false} WindowWithin(w: Window, since: real, times: seq<real>)
    requires WithinSecond(since, times)
    ensures var v, late := After(w, times), |times| - Early(w, times);
            if late == 0 then v == Window(w.count + |times|, w.start) else v.count == late && v.start >= since
    ensures forall i, j :: 0 <= i <= j < |times| && Resets(w, times[i]) ==> Resets(w, times[j])
  {
    if times != [] {
      WindowWithin(w, since, times[..|times| - 1]);
      NoneLate(w, times[..|times| - 1]);
    }
  }

  lemma {:induction false} NoneLate(w: Window, times: seq<real>)
    ensures Early(w, times) == |times| <==> forall i :: 0 <= i < |times| ==> !Resets(w, times[i])
  {
    if times != [] {
      NoneLate(w, times[..|times| - 1]);
    }
  }

  /** Exactly how many messages of one second pass, whatever the window was: what it had left, and a new window's worth. */
  lemma {:induction false} AllowedWithinSecond(w: Window, since: real, times: seq<real>)
    requires WithinSecond(since, times)
    ensures var early := Early(w, times); Allowed(w, times) == Min(Room(w), early) + AtMost(|times| - early)
  {
    if times != [] {
      var front := times[..|times| - 1];
      AllowedWithinSecond(w, since, front);
      WindowWithin(w, since, front);
      NoneLate(w, front);
    }
  }

  /** Thirty a second holds if and only if the old window lets nothing through, or leaves enough for the later messages. */
  lemma LimitPerSecondIff(w: Window, since: real, times: seq<real>)
    requires WithinSecond(since, times)
    ensures var early := Early(w, times);
            Allowed(w, times) <= LIMIT <==> Min(Room(w), early) == 0 || Min(Room(w), early) + (|times| - early) <= LIMIT
  {
    AllowedWithinSecond(w, since, times);
  }

  /** In any second at most twice the limit gets through. */
  lemma AtMostTwiceTheLimit(w: Window, since: real, times: seq<real>)
    requires WithinSecond(since, times)
    ensures Allowed(w, times) <= 2 * LIMIT
  {
    AllowedWithinSecond(w, since, times);
  }

  /** In the second after a window starts, the limit holds exactly: the first thirty pass and no more. */
  lemma LimitPerWindow(since: real, times: seq<real>)
    requires WithinSecond(since, times)
    ensures Allowed(Window(0, since), times) == AtMost(|times|)
  {
    AllowedWithinSecond(Window(0, since), since, times);
    NoneLate(Window(0, since), times);
  }

  function Repeat(t: real, n: nat): (r: seq<real>)
    ensures |r| == n && forall i :: 0 <= i < n ==> r[i] == t
  {
    seq(n, _ => t)
  }

  lemma {:induction false} AllowedAppend(w: Window, s: seq<real>, t: seq<real>)
    ensures After(w, s + t) == After(After(w, s), t)
    ensures Allowed(w, s + t) == Allowed(w, s) + Allowed(After(w, s), t)
    decreases |t|
  {
    if t == [] {
      assert s + t == s;
    } else {
      var n := |t| - 1;
      assert (s + t)[..|s| + n] == s + t[..n];
      AllowedAppend(w, s, t[..n]);
    }
  }

  /** A burst that begins with a reset gets the whole limit. */
  lemma {:induction false} BurstAfterReset(w: Window, t: real, n: nat)
    requires Resets(w, t) && n > 0
    ensures Allowed(w, Repeat(t, n)) == AtMost(n) && After(w, Repeat(t, n)) == Window(n, t)
  {
    var times := Repeat(t, n);
    assert times[..n - 1] == Repeat(t, n - 1);
    if n > 1 {
      BurstAfterReset(w, t, n - 1);
    }
  }

  /** The bound is met: around the end of a window, twice the limit gets through in no time at all. */
  lemma TwiceTheLimitHappens(since: real, gap: real)
    requires 0.0 < gap <= 1.0
    ensures var times := Repeat(since + 1.0, LIMIT) + Repeat(since + 1.0 + gap, LIMIT);
            WithinSecond(since + 1.0, times) && Allowed(Window(0, since), times) == 2 * LIMIT
  {
    hide Allowed, After;
    var first, second := Repeat(since + 1.0, LIMIT), Repeat(since + 1.0 + gap, LIMIT);
    LimitPerWindow(since, first);
    WindowWithin(Window(0, since), since, first);
    NoneLate(Window(0, since), first);
    AllowedAppend(Window(0, since), first, second);
    BurstAfterReset(After(Window(0, since), first), since + 1.0 + gap, LIMIT);
  }
}
