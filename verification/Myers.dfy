/** Myers' greedy search over furthest-reaching diagonals, with the saved trace and the walk back through it. */
module Myers {
  import opened EditGraph
  import opened Basics

  // ---------- The diagonal array ----------

  /** The choice made on diagonal k at cost d, from the array of cost d - 1: true for a step down (an insert). */
  predicate GoesDown(v: seq<int>, offset: nat, d: nat, k: int)
    requires |v| == 2 * offset + 1 && d <= offset && 0 <= k + d <= 2 * d
  {
    k + d == 0 || (k != d && v[offset + k - 1] < v[offset + k + 1])
  }

  /** Where diagonal k starts its matching run at cost d. */
  function Start(v: seq<int>, offset: nat, d: nat, k: int): int
    requires |v| == 2 * offset + 1 && 0 < offset && d <= offset && 0 <= k + d <= 2 * d
  {
    if GoesDown(v, offset, d, k) then v[offset + k + 1] else v[offset + k - 1] + 1
  }

  /** The diagonals a pass of cost d visits: -d, -d + 2, .., d. */
  predicate OnLayer(d: nat, k: int) {
    0 <= k + d <= 2 * d && !Odd(k + d)
  }

  lemma FirstDiagonal(d: nat)
    ensures OnLayer(d, 0 - d)
  {
  }

  lemma NextDiagonal(d: nat, k: int)
    requires OnLayer(d, k)
    ensures k + 2 <= d ==> OnLayer(d, k + 2)
  {
  }

  lemma LayerBounds(d: nat, k: int)
    requires OnLayer(d, k)
    ensures 0 <= k + d <= 2 * d
    ensures 0 < k + d && k < d ==> d > 0 && k + 1 <= d - 1 && 0 - (d - 1) <= k - 1
  {
    OddIsModulo(k + d);
  }

  /** The neighbours of a visited diagonal were visited at cost d - 1. */
  lemma NeighbourDiagonals(d: nat, k: int)
    requires d > 0 && OnLayer(d, k)
    ensures k + d != 0 ==> OnLayer(d - 1, k - 1)
    ensures k != d ==> OnLayer(d - 1, k + 1)
  {
    OddIsModulo(k + d);
  }

  /** The array entry for a visited diagonal is right. */
  ghost predicate Entry<T>(a: seq<T>, b: seq<T>, d: nat, k: int, x: int) {
    OnLayer(d, k) ==> Furthest(a, b, d, k, x)
  }

  /** Every diagonal of the pass for cost d holds its furthest-reaching x. */
  ghost predicate Layer<T>(a: seq<T>, b: seq<T>, v: seq<int>, offset: nat, d: nat) {
    && |v| == 2 * offset + 1 && d <= offset
    && forall i :: 0 <= i < |v| ==> Entry(a, b, d, i - offset, v[i])
  }

  lemma LayerAt<T>(a: seq<T>, b: seq<T>, v: seq<int>, offset: nat, d: nat, k: int)
    requires Layer(a, b, v, offset, d) && OnLayer(d, k)
    ensures Furthest(a, b, d, k, v[offset + k])
  {
    var i := offset + k;
    assert Entry(a, b, d, i - offset, v[i]);
  }

  /** What the pass for cost d starts from: the previous layer, or the seed of the very first pass. */
  ghost predicate Before<T>(a: seq<T>, b: seq<T>, v: seq<int>, offset: nat, d: nat) {
    && 0 < offset && d <= offset && |v| == 2 * offset + 1
    && (if d == 0 then v[offset + 1] == 0 else Layer(a, b, v, offset, d - 1))
  }

  /** The diagonal the start of diagonal k came from was visited at cost d - 1. */
  lemma Previous<T>(a: seq<T>, b: seq<T>, v: seq<int>, offset: nat, d: nat, k: int)
    requires 0 < d && Before(a, b, v, offset, d) && OnLayer(d, k)
    ensures 0 <= k + d <= 2 * d
    ensures var prevK := if GoesDown(v, offset, d, k) then k + 1 else k - 1;
            && OnLayer(d - 1, prevK) && 0 <= offset + prevK < |v|
            && Furthest(a, b, d - 1, prevK, v[offset + prevK])
            && v[offset + prevK] >= 0 && v[offset + prevK] - prevK >= 0
            && Start(v, offset, d, k) == (if prevK > k then v[offset + prevK] else v[offset + prevK] + 1)
  {
    hide Dist, Layer;
    NeighbourDiagonals(d, k);
    LayerAt(a, b, v, offset, d - 1, if GoesDown(v, offset, d, k) then k + 1 else k - 1);
  }

  /** The start of diagonal k is within cost d: it is one edge after a furthest point of cost d - 1. */
  lemma StartReached<T>(a: seq<T>, b: seq<T>, v: seq<int>, offset: nat, d: nat, k: int)
    requires Before(a, b, v, offset, d) && OnLayer(d, k)
    ensures 0 <= k + d <= 2 * d
    ensures var x := Start(v, offset, d, k);
            0 <= x && 0 <= x - k && Dist(a, b, x, x - k) <= d
    ensures Start(v, offset, d, k) == if GoesDown(v, offset, d, k) then v[offset + k + 1] else v[offset + k - 1] + 1
    ensures d == 0 ==> Start(v, offset, d, k) == 0
  {
    hide Layer;
    if d > 0 {
      Previous(a, b, v, offset, d, k);
      hide Start, Before, OnLayer;
      var prevK := if GoesDown(v, offset, d, k) then k + 1 else k - 1;
      hide GoesDown, Dist;
      Neighbours(a, b, v[offset + prevK], v[offset + prevK] - prevK);
    }
  }

  /** Past the start of diagonal k, neither neighbouring point is within cost d - 1. */
  lemma NeighboursOutOfReach<T>(a: seq<T>, b: seq<T>, v: seq<int>, offset: nat, d: nat, k: int, x: int)
    requires Before(a, b, v, offset, d) && OnLayer(d, k)
    requires x >= Start(v, offset, d, k) && x >= 0 && x - k >= 0
    ensures Dist(a, b, x, x - k + 1) >= d && Dist(a, b, x + 1, x - k) >= d
  {
    hide Dist, Layer, Furthest;
    if d > 0 {
      NeighbourDiagonals(d, k);
    }
    if k + d == 0 {
      DistBounds(a, b, x, x - k + 1);
    } else {
      LayerAt(a, b, v, offset, d - 1, k - 1);
      BeyondFurthest(a, b, d - 1, k - 1, v[offset + k - 1], x);
    }
    if k == d {
      DistBounds(a, b, x + 1, x - k);
    } else {
      LayerAt(a, b, v, offset, d - 1, k + 1);
      BeyondFurthest(a, b, d - 1, k + 1, v[offset + k + 1], x + 1);
    }
  }

  /** The furthest-reaching lemma: following the run from the start until it stops gives the furthest point. */
  lemma RunEndsFurthest<T>(a: seq<T>, b: seq<T>, v: seq<int>, offset: nat, d: nat, k: int, x: int)
    requires Before(a, b, v, offset, d) && OnLayer(d, k)
    requires x >= Start(v, offset, d, k) && x >= 0 && x - k >= 0
    requires Dist(a, b, x, x - k) <= d && !Match(a, b, x, x - k)
    ensures Furthest(a, b, d, k, x)
  {
    NeighboursOutOfReach(a, b, v, offset, d, k, x);
  }

  /** Conversely every point from the start up to the furthest one carries a matching diagonal edge. */
  lemma RunMatches<T>(a: seq<T>, b: seq<T>, v: seq<int>, offset: nat, d: nat, k: int, x: int, f: int)
    requires Before(a, b, v, offset, d) && OnLayer(d, k)
    requires Furthest(a, b, d, k, f) && Start(v, offset, d, k) <= x < f && x >= 0 && x - k >= 0
    ensures Match(a, b, x, x - k)
  {
    NeighboursOutOfReach(a, b, v, offset, d, k, x);
    WithinFurthest(a, b, d, k, f, x + 1);
  }

  lemma StartBeforeFurthest<T>(a: seq<T>, b: seq<T>, v: seq<int>, offset: nat, d: nat, k: int, f: int)
    requires Before(a, b, v, offset, d) && OnLayer(d, k) && Furthest(a, b, d, k, f)
    ensures Start(v, offset, d, k) <= f
  {
    StartReached(a, b, v, offset, d, k);
    var x := Start(v, offset, d, k);
    if x > f {
      BeyondFurthest(a, b, d, k, f, x);
    }
  }

  lemma SameParity(d: nat, x: nat, y: nat)
    requires Odd(d) == Odd(x + y) && 0 <= x - y + d
    ensures !Odd(x - y + d)
    decreases x + y + d
  {
    OddIsModulo(d);
    OddIsModulo(x + y);
    OddIsModulo(x - y + d);
  }

  /** A point at distance d lies on a diagonal the pass for cost d visits. */
  lemma OnOwnLayer<T>(a: seq<T>, b: seq<T>, x: nat, y: nat)
    ensures OnLayer(Dist(a, b, x, y), x - y)
  {
    DistBounds(a, b, x, y);
    DistParity(a, b, x, y);
    SameParity(Dist(a, b, x, y), x, y);
  }

  /** The test that ends the search fires on the far corner and nowhere else, and at the first possible cost. */
  lemma StopsAtCorner<T>(a: seq<T>, b: seq<T>, d: nat, x: nat, y: nat)
    requires Dist(a, b, |a|, |b|) >= d && Dist(a, b, x, y) <= d && x >= |a| && y >= |b|
    ensures x == |a| && y == |b| && Dist(a, b, |a|, |b|) == d
  {
    DistBeyondCorner(a, b, x, y);
  }

  /** On a visited diagonal, the test that ends the search did not fire. */
  predicate NoStop<T>(a: seq<T>, b: seq<T>, d: nat, k: int, x: int) {
    OnLayer(d, k) ==> x < |a| || x - k < |b|
  }

  /** The pass for cost d has handled every diagonal below k. */
  ghost predicate PassDone<T>(a: seq<T>, b: seq<T>, next: seq<int>, offset: nat, d: nat, k: int) {
    && |next| == 2 * offset + 1
    && forall i :: 0 <= i < |next| && i < offset + k ==> Entry(a, b, d, i - offset, next[i]) && NoStop(a, b, d, i - offset, next[i])
  }

  lemma PassBegins<T>(a: seq<T>, b: seq<T>, next: seq<int>, offset: nat, d: nat)
    requires |next| == 2 * offset + 1
    ensures PassDone(a, b, next, offset, d, 0 - d)
  {
  }

  lemma PassExtends<T>(a: seq<T>, b: seq<T>, next: seq<int>, offset: nat, d: nat, k: int, x: int)
    requires d <= offset && PassDone(a, b, next, offset, d, k) && OnLayer(d, k)
    requires Furthest(a, b, d, k, x) && (x < |a| || x - k < |b|)
    ensures PassDone(a, b, next[offset + k := x], offset, d, k + 2)
  {
    hide Dist, Furthest;
    assert !OnLayer(d, k + 1);
  }

  /** A whole pass without a stop means the far corner is more than d away. */
  lemma PassEnds<T>(a: seq<T>, b: seq<T>, v: seq<int>, offset: nat, d: nat, k: int)
    requires d <= offset && PassDone(a, b, v, offset, d, k) && k > d
    requires Dist(a, b, |a|, |b|) >= d
    ensures Layer(a, b, v, offset, d)
    ensures Dist(a, b, |a|, |b|) > d
  {
    hide Dist;
    forall i | 0 <= i < |v|
      ensures Entry(a, b, d, i - offset, v[i])
    {
      if i < offset + k {
        assert Entry(a, b, d, i - offset, v[i]);
      }
    }
    OnOwnLayer(a, b, |a|, |b|);
    if Dist(a, b, |a|, |b|) == d {
      var k' := |a| - |b|;
      LayerAt(a, b, v, offset, d, k');
      var i := offset + k';
      assert NoStop(a, b, d, i - offset, v[i]);
      BeyondFurthest(a, b, d, k', v[i], |a|);
    }
  }

  // ---------- The search ----------

  function Unit(kind: Kind): EditOp {
    EditOp(kind, 1)
  }

  function Units(steps: seq<Kind>): (ops: seq<EditOp>)
    ensures |ops| == |steps|
  {
    seq(|steps|, i requires 0 <= i < |steps| => Unit(steps[i]))
  }

  lemma {:induction false} ExpandUnits(steps: seq<Kind>)
    ensures Expand(Units(steps)) == steps
  {
    if steps != [] {
      assert Units(steps)[1..] == Units(steps[1..]);
      ExpandUnits(steps[1..]);
    }
  }

  lemma ReversedPush<A>(s: seq<A>, x: A)
    ensures Reversed(s + [x]) == [x] + Reversed(s)
  {
  }

  lemma ExpandRun(kind: Kind, n: nat)
    ensures Expand([EditOp(kind, n)]) == Run(kind, n)
  {
    assert Expand([EditOp(kind, n)][1..]) == [];
  }

  lemma ExpandPush(ops: seq<EditOp>, op: EditOp)
    ensures Expand(ops + [op]) == Expand(ops) + Run(op.kind, op.count)
  {
    ExpandAppend(ops, [op]);
    ExpandRun(op.kind, op.count);
  }

  lemma ExpandMerge(out: seq<EditOp>, op: EditOp)
    requires |out| > 0 && out[|out| - 1].kind == op.kind
    ensures var last := |out| - 1;
            Expand(out[last := EditOp(op.kind, out[last].count + op.count)]) == Expand(out + [op])
  {
    hide Expand;
    var before, last := out[..|out| - 1], out[|out| - 1];
    var merged := EditOp(op.kind, last.count + op.count);
    ExpandPush(out, op);
    assert out == before + [last];
    ExpandPush(before, last);
    assert out[|out| - 1 := merged] == before + [merged];
    ExpandPush(before, merged);
  }

  /** Merges neighbouring runs of one kind and drops empty ones. */
  method Coalesce(ops: seq<EditOp>) returns (out: seq<EditOp>)
    ensures Expand(out) == Expand(ops)
    ensures Coalesced(out)
  {
    out := [];
    for i := 0 to |ops|
      invariant Expand(out) == Expand(ops[..i])
      invariant Coalesced(out)
    {
      hide Expand;
      var op := ops[i];
      assert ops[..i + 1] == ops[..i] + [op];
      ExpandPush(ops[..i], op);
      ExpandPush(out, op);
      if op.count == 0 {
        continue;
      }
      if |out| > 0 && out[|out| - 1].kind == op.kind {
        ExpandMerge(out, op);
        out := out[|out| - 1 := EditOp(op.kind, out[|out| - 1].count + op.count)];
      } else {
        out := out + [op];
      }
    }
    assert ops[..|ops|] == ops;
  }

  /** trace[e] is the diagonal array the pass for cost e started from. */
  ghost predicate Traced<T>(a: seq<T>, b: seq<T>, trace: seq<seq<int>>, offset: nat, passes: nat) {
    passes <= |trace| && forall e :: 0 <= e < passes ==> Before(a, b, trace[e], offset, e)
  }

  /** The unit operations pushed so far, read backwards, are the last steps of the script, replayed from (x, y). */
  ghost predicate Tail<T>(ops: seq<EditOp>, steps: seq<Kind>, a: seq<T>, b: seq<T>, x: int, y: int, cost: nat) {
    && 0 <= x <= |a| && 0 <= y <= |b|
    && Reversed(ops) == Units(steps) && Replays(steps, a, b, x, y) && StepCost(steps) == cost
  }

  lemma TailBegins<T>(a: seq<T>, b: seq<T>)
    ensures Tail([], [], a, b, |a|, |b|, 0)
  {
  }

  lemma TailGrows<T>(kind: Kind, ops: seq<EditOp>, steps: seq<Kind>, a: seq<T>, b: seq<T>, x: nat,
          y: nat, cost: nat)
    requires Tail(ops, steps, a, b, x, y, cost)
    ensures kind.Equal? && x > 0 && y > 0 && Match(a, b, x - 1, y - 1) ==>
              Tail(ops + [Unit(kind)], [kind] + steps, a, b, x - 1, y - 1, cost)
    ensures kind.Delete? && x > 0 ==> Tail(ops + [Unit(kind)], [kind] + steps, a, b, x - 1, y, cost + 1)
    ensures kind.Insert? && y > 0 ==> Tail(ops + [Unit(kind)], [kind] + steps, a, b, x, y - 1, cost + 1)
  {
    ReversedPush(ops, Unit(kind));
    assert Units([kind] + steps) == [Unit(kind)] + Units(steps);
    assert ([kind] + steps)[1..] == steps;
  }

  lemma TailEnds<T>(ops: seq<EditOp>, steps: seq<Kind>, a: seq<T>, b: seq<T>, cost: nat, r: seq<EditOp>)
    requires Tail(ops, steps, a, b, 0, 0, cost) && Expand(r) == Expand(Reversed(ops))
    ensures Transforms(r, a, b) && Cost(r) == cost
  {
    ExpandUnits(steps);
  }

  /** One edge before a point at distance d, within cost d - 1, the distance is exactly d - 1. */
  lemma PreviousDistance<T>(a: seq<T>, b: seq<T>, d: nat, x: nat, y: nat, y': nat)
    requires d > 0 && Furthest(a, b, d - 1, x - y, x)
    requires y' == y || y' == y + 1
    requires Dist(a, b, if y' == y then x + 1 else x, y') == d
    ensures Dist(a, b, x, y) == d - 1
  {
    Neighbours(a, b, x, y);
  }

  lemma OriginDiagonal<T>(a: seq<T>, b: seq<T>, x: nat, y: nat)
    requires Dist(a, b, x, y) == 0
    ensures x == y && OnLayer(0, 0)
  {
    DistBounds(a, b, x, y);
  }

  method Backtrack<T(==)>(trace: seq<seq<int>>, a: seq<T>, b: seq<T>, offset: nat, found: nat) returns (r: seq<EditOp>)
    requires Traced(a, b, trace, offset, found + 1)
    requires Furthest(a, b, found, |a| - |b|, |a|) && Dist(a, b, |a|, |b|) == found
    ensures Transforms(r, a, b) && Coalesced(r)
    ensures Cost(r) == found
  {
    hide Dist, Furthest, Tail, OnLayer, Layer, GoesDown, Start, Expand, Reversed, Transforms, Cost;
    var ops: seq<EditOp> := [];
    ghost var steps: seq<Kind> := [];
    TailBegins(a, b);
    var x, y := |a|, |b|;
    var d := found;
    while d > 0
      invariant 0 <= d <= found && 0 <= x && 0 <= y
      invariant Furthest(a, b, d, x - y, x) && Dist(a, b, x, y) == d
      invariant Tail(ops, steps, a, b, x, y, found - d)
    {
      var v := trace[d];
      var k := x - y;
      OnOwnLayer(a, b, x, y);
      Previous(a, b, v, offset, d, k);
      StartReached(a, b, v, offset, d, k);
      StartBeforeFurthest(a, b, v, offset, d, k, x);
      var down := GoesDown(v, offset, d, k);
      var prevK := if down then k + 1 else k - 1;
      var prevX := v[offset + prevK];
      var prevY := prevX - prevK;
      ghost var far := x;

      while x > prevX && y > prevY
        invariant x - y == k && 0 <= x && 0 <= y && Start(v, offset, d, k) <= x <= far
        invariant Dist(a, b, x, y) == d
        invariant Tail(ops, steps, a, b, x, y, found - d)
        decreases x
      {
        RunMatches(a, b, v, offset, d, k, x - 1, far);
        DiagonalStep(a, b, x - 1, y - 1);
        TailGrows(Equal, ops, steps, a, b, x, y, found - d);
        ops, steps := ops + [EditOp(Equal, 1)], [Equal] + steps;
        x := x - 1;
        y := y - 1;
      }

      if down {
        TailGrows(Insert, ops, steps, a, b, x, y, found - d);
        ops, steps := ops + [EditOp(Insert, 1)], [Insert] + steps;
        y := y - 1;
      } else {
        TailGrows(Delete, ops, steps, a, b, x, y, found - d);
        ops, steps := ops + [EditOp(Delete, 1)], [Delete] + steps;
        x := x - 1;
      }
      PreviousDistance(a, b, d, x, y, if down then y + 1 else y);
      d := d - 1;
    }

    OriginDiagonal(a, b, x, y);
    StartReached(a, b, trace[0], offset, 0, 0);
    StartBeforeFurthest(a, b, trace[0], offset, 0, 0, x);
    ghost var far := x;
    while x > 0 && y > 0
      invariant 0 <= x == y <= far
      invariant Tail(ops, steps, a, b, x, y, found)
    {
      RunMatches(a, b, trace[0], offset, 0, 0, x - 1, far);
      TailGrows(Equal, ops, steps, a, b, x, y, found);
      ops, steps := ops + [EditOp(Equal, 1)], [Equal] + steps;
      x := x - 1;
      y := y - 1;
    }
    // The source ends with two clean-up loops, for x > 0 and for y > 0.  Neither can run.
    assert x == 0 && y == 0;
    r := Coalesce(Reversed(ops));
    TailEnds(ops, steps, a, b, found, r);
  }

  /** One pass of the search, for cost d: fills a copy of v, and stops early at the far corner. */
  method Pass<T(==)>(a: seq<T>, b: seq<T>, v: array<int>, offset: nat, d: nat) returns (next: array<int>, found: int)
    requires Before(a, b, v[..], offset, d) && Dist(a, b, |a|, |b|) >= d
    ensures fresh(next) && next.Length == v.Length
    ensures found == -1 || found == d
    ensures found == d ==> Dist(a, b, |a|, |b|) == d && Furthest(a, b, d, |a| - |b|, |a|)
    ensures found == -1 ==> Dist(a, b, |a|, |b|) > d && Layer(a, b, next[..], offset, d)
  {
    hide Dist, Furthest, OnLayer, Layer, PassDone, Start;
    ghost var before := v[..];
    next := new int[v.Length](i requires 0 <= i < v.Length reads v => v[i]);
    found := -1;
    var k: int := 0 - d;
    PassBegins(a, b, next[..], offset, d);
    FirstDiagonal(d);
    while k <= d
      invariant k + d >= 0 && (k <= d ==> OnLayer(d, k))
      invariant v[..] == before && next != v && fresh(next) && next.Length == v.Length
      invariant found == -1
      invariant PassDone(a, b, next[..], offset, d, k)
    {
      ghost var pass := next[..];
      LayerBounds(d, k);
      StartReached(a, b, before, offset, d, k);
      var x: int;
      if GoesDown(v[..], offset, d, k) {
        x := v[offset + k + 1];
      } else {
        x := v[offset + k - 1] + 1;
      }
      var y := x - k;
      while x < |a| && y < |b| && a[x] == b[y]
        invariant y == x - k && y >= 0 && x >= 0 && x >= Start(before, offset, d, k)
        invariant Dist(a, b, x, y) <= d
        modifies {}
      {
        DiagonalStep(a, b, x, y);
        x := x + 1;
        y := y + 1;
      }
      RunEndsFurthest(a, b, before, offset, d, k, x);
      next[offset + k] := x;
      assert next[..] == pass[offset + k := x];
      if x >= |a| && y >= |b| {
        StopsAtCorner(a, b, d, x, y);
        found := d;
        return;
      }
      PassExtends(a, b, pass, offset, d, k, x);
      NextDiagonal(d, k);
      k := k + 2;
    }
    PassEnds(a, b, next[..], offset, d, k);
  }

  method DiffMiddle<T(==)>(a: seq<T>, b: seq<T>) returns (r: seq<EditOp>)
    ensures Transforms(r, a, b) && Coalesced(r)
    ensures Cost(r) == Dist(a, b, |a|, |b|)
  {
    if |a| == 0 && |b| == 0 {
      return [];
    }
    if |a| == 0 {
      InsertAll(b, 0);
      ExpandRun(Insert, |b|);
      return [EditOp(Insert, |b|)];
    }
    if |b| == 0 {
      DeleteAll(a, 0);
      ExpandRun(Delete, |a|);
      return [EditOp(Delete, |a|)];
    }

    hide Dist, Furthest, Layer, Transforms, Cost;
    var n, m := |a|, |b|;
    var max := n + m;
    var offset := max;
    var trace: seq<seq<int>> := [];
    var v := new int[2 * max + 1](_ => -1);
    v[offset + 1] := 0;
    var found := -1;

    var d := 0;
    while d <= max
      invariant 0 <= d <= max + 1
      invariant Dist(a, b, n, m) >= d
      invariant d <= max ==> Before(a, b, v[..], offset, d)
      invariant |trace| == d && Traced(a, b, trace, offset, d)
      invariant found == -1
      modifies {}
    {
      trace := trace + [v[..]];
      v, found := Pass(a, b, v, offset, d);
      if found != -1 {
        trace := trace + [v[..]];
        break;
      }
      d := d + 1;
    }

    if found == -1 {
      // The search always stops: the far corner is at most n + m away.
      DistBounds(a, b, n, m);
      assert false;
    }
    r := Backtrack(trace, a, b, offset, found);
  }

  lemma {:induction false} InsertAll<T>(b: seq<T>, j: nat)
    requires j <= |b|
    ensures var steps := Run(Insert, |b| - j); Replays(steps, [], b, 0, j) && StepCost(steps) == |b| - j
    decreases |b| - j
  {
    if j < |b| {
      InsertAll(b, j + 1);
      assert Run(Insert, |b| - j)[1..] == Run(Insert, |b| - (j + 1));
    }
  }

  lemma {:induction false} DeleteAll<T>(a: seq<T>, i: nat)
    requires i <= |a|
    ensures var steps := Run(Delete, |a| - i); Replays(steps, a, [], i, 0) && StepCost(steps) == |a| - i
    decreases |a| - i
  {
    if i < |a| {
      DeleteAll(a, i + 1);
      assert Run(Delete, |a| - i)[1..] == Run(Delete, |a| - (i + 1));
    }
  }

  // ---------- Stripping the common prefix and suffix ----------

  lemma {:induction false} EqualRun<T>(a: seq<T>, b: seq<T>, i: nat, j: nat, c: nat, rest: seq<Kind>)
    requires i + c <= |a| && j + c <= |b| && a[i..i + c] == b[j..j + c]
    requires Replays(rest, a, b, i + c, j + c)
    ensures var steps := Run(Equal, c) + rest;
            Replays(steps, a, b, i, j) && StepCost(steps) == StepCost(rest)
    decreases c
  {
    if c == 0 {
      assert Run(Equal, c) + rest == rest;
    } else {
      assert a[i] == a[i..i + c][0] == b[j];
      assert a[i + 1..i + c] == a[i..i + c][1..] == b[j + 1..j + c];
      EqualRun(a, b, i + 1, j + 1, c - 1, rest);
      var steps := Run(Equal, c) + rest;
      assert steps[1..] == Run(Equal, c - 1) + rest;
    }
  }

  /** A script of the middle parts is a script between the stripped ends, with any tail after it. */
  lemma {:induction false} MiddleRun<T>(steps: seq<Kind>, a: seq<T>, b: seq<T>, p: nat, s: nat, i: nat, j: nat, rest: seq<Kind>)
    requires p + s <= |a| && p + s <= |b|
    requires Replays(steps, a[p..|a| - s], b[p..|b| - s], i, j)
    requires Replays(rest, a, b, |a| - s, |b| - s)
    ensures Replays(steps + rest, a, b, p + i, p + j)
    decreases |steps|
  {
    if steps == [] {
      assert steps + rest == rest;
    } else {
      assert (steps + rest)[1..] == steps[1..] + rest;
      var i' := if steps[0].Insert? then i else i + 1;
      var j' := if steps[0].Delete? then j else j + 1;
      MiddleRun(steps[1..], a, b, p, s, i', j', rest);
    }
  }

  lemma WholeScript<T>(ops: seq<EditOp>, middle: seq<EditOp>, a: seq<T>, b: seq<T>, p: nat, s: nat)
    requires p + s <= |a| && p + s <= |b| && a[..p] == b[..p] && a[|a| - s..] == b[|b| - s..]
    requires Transforms(middle, a[p..|a| - s], b[p..|b| - s])
    requires Expand(ops) == Run(Equal, p) + (Expand(middle) + Run(Equal, s))
    ensures Transforms(ops, a, b) && Cost(ops) == Cost(middle)
  {
    assert a[|a| - s..|a|] == a[|a| - s..] && b[|b| - s..|b|] == b[|b| - s..];
    EqualRun(a, b, |a| - s, |b| - s, s, []);
    assert Run(Equal, s) + [] == Run(Equal, s);
    MiddleRun(Expand(middle), a, b, p, s, 0, 0, Run(Equal, s));
    assert a[0..p] == a[..p] && b[0..p] == b[..p];
    EqualRun(a, b, 0, 0, p, Expand(middle) + Run(Equal, s));
    StepCostAppend(Expand(middle), Run(Equal, s));
  }

  lemma DistOfMiddle<T>(a: seq<T>, b: seq<T>, p: nat, s: nat)
    requires p + s <= |a| && p + s <= |b| && a[..p] == b[..p] && a[|a| - s..] == b[|b| - s..]
    ensures Dist(a, b, |a|, |b|) == Dist(a[p..|a| - s], b[p..|b| - s], |a| - s - p, |b| - s - p)
  {
    hide Dist;
    DistAfterPrefix(a, b, p);
    var a', b' := a[p..], b[p..];
    assert a'[|a'| - s..] == a[|a| - s..];
    assert b'[|b'| - s..] == b[|b| - s..];
    DistBeforeSuffix(a', b', s);
    assert a'[..|a'| - s] == a[p..|a| - s];
    assert b'[..|b'| - s] == b[p..|b| - s];
  }

  /** A minimal run-length edit script: no script turns a into b with fewer inserts and deletes, and what it
      leaves unchanged is a longest common subsequence. */
  method MyersDiff<T(==, !new)>(a: seq<T>, b: seq<T>) returns (r: seq<EditOp>)
    ensures Transforms(r, a, b) && Coalesced(r)
    ensures forall other :: Transforms(other, a, b) ==> Cost(r) <= Cost(other)
    ensures var c := Kept(Expand(r), a, 0); LongestCommon(c, a, b) && Cost(r) == |a| + |b| - 2 * |c|
  {
    hide Dist, Transforms, Cost, LongestCommon, Expand, Kept;
    var prefix := 0;
    while prefix < |a| && prefix < |b| && a[prefix] == b[prefix]
      invariant prefix <= |a| && prefix <= |b| && a[..prefix] == b[..prefix]
    {
      prefix := prefix + 1;
    }
    var suffix := 0;
    while suffix < |a| - prefix && suffix < |b| - prefix && a[|a| - 1 - suffix] == b[|b| - 1 - suffix]
      invariant prefix + suffix <= |a| && prefix + suffix <= |b|
      invariant a[|a| - suffix..] == b[|b| - suffix..]
    {
      assert a[|a| - suffix - 1..] == [a[|a| - suffix - 1]] + a[|a| - suffix..];
      assert b[|b| - suffix - 1..] == [b[|b| - suffix - 1]] + b[|b| - suffix..];
      suffix := suffix + 1;
    }

    var middleA := a[prefix..|a| - suffix];
    var middleB := b[prefix..|b| - suffix];
    var ops: seq<EditOp> := [];
    ghost var steps: seq<Kind> := Run(Equal, prefix);
    ExpandNothing();
    if prefix > 0 {
      ExpandPush(ops, EditOp(Equal, prefix));
      ops := ops + [EditOp(Equal, prefix)];
    }
    assert Expand(ops) == steps;
    var middle := DiffMiddle(middleA, middleB);
    ExpandAppend(ops, middle);
    ops := ops + middle;
    if suffix > 0 {
      ExpandPush(ops, EditOp(Equal, suffix));
      ops := ops + [EditOp(Equal, suffix)];
    }
    assert Expand(ops) == steps + (Expand(middle) + Run(Equal, suffix));
    r := Coalesce(ops);
    WholeScript(r, middle, a, b, prefix, suffix);
    DistOfMiddle(a, b, prefix, suffix);
    ghost var c := DistScriptKeepsLongest(r, a, b);
  }

  lemma ExpandNothing()
    ensures Expand([]) == []
  {
  }
}
