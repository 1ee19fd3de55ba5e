/** The edit graph of two sequences, and what a run-length edit script means on it.

    A point (x, y) stands for "x elements of a and y elements of b are consumed".  The graph is the whole
    quadrant: Myers' search walks off the |a| by |b| grid, and outside it there are no diagonal edges. */
module EditGraph {
  import opened Basics

  datatype Kind = Equal | Insert | Delete

  /** A run of `count` equal steps of one kind. */
  datatype EditOp = EditOp(kind: Kind, count: nat)

  predicate Match<T(==)>(a: seq<T>, b: seq<T>, x: int, y: int) {
    0 <= x < |a| && 0 <= y < |b| && a[x] == b[y]
  }

  /** The least number of insert and delete edges on a path from (0, 0) to (x, y). */
  ghost function Dist<T>(a: seq<T>, b: seq<T>, x: nat, y: nat): nat
    decreases x + y
  {
    if x == 0 then y
    else if y == 0 then x
    else
      var edge := 1 + Min(Dist(a, b, x - 1, y), Dist(a, b, x, y - 1));
      if Match(a, b, x - 1, y - 1) then Min(edge, Dist(a, b, x - 1, y - 1)) else edge
  }

  // ---------- Scripts ----------

  function Run(kind: Kind, n: nat): (r: seq<Kind>)
    ensures |r| == n && forall i :: 0 <= i < n ==> r[i] == kind
  {
    seq(n, _ => kind)
  }

  /** The script one step at a time. */
  function Expand(ops: seq<EditOp>): seq<Kind> {
    if ops == [] then [] else Run(ops[0].kind, ops[0].count) + Expand(ops[1..])
  }

  /** Read from (i, j), the steps consume all of a, produce all of b, and every equal step joins equal elements. */
  ghost predicate Replays<T>(steps: seq<Kind>, a: seq<T>, b: seq<T>, i: nat, j: nat) {
    if steps == [] then i == |a| && j == |b|
    else match steps[0]
      case Equal => Match(a, b, i, j) && Replays(steps[1..], a, b, i + 1, j + 1)
      case Delete => i < |a| && Replays(steps[1..], a, b, i + 1, j)
      case Insert => j < |b| && Replays(steps[1..], a, b, i, j + 1)
  }

  /** The script turns a into b. */
  ghost predicate Transforms<T>(ops: seq<EditOp>, a: seq<T>, b: seq<T>) {
    Replays(Expand(ops), a, b, 0, 0)
  }

  /** Inserts plus deletes. */
  function StepCost(steps: seq<Kind>): nat {
    if steps == [] then 0 else (if steps[0].Equal? then 0 else 1) + StepCost(steps[1..])
  }

  function Cost(ops: seq<EditOp>): nat {
    StepCost(Expand(ops))
  }

  /** Run-length normal form: no empty run, and neighbouring runs differ in kind. */
  predicate Coalesced(ops: seq<EditOp>) {
    && (forall i :: 0 <= i < |ops| ==> ops[i].count > 0)
    && (forall i :: 0 < i < |ops| ==> ops[i - 1].kind != ops[i].kind)
  }

  lemma {:induction false} ExpandAppend(s: seq<EditOp>, t: seq<EditOp>)
    ensures Expand(s + t) == Expand(s) + Expand(t)
  {
    if s == [] {
      assert s + t == t;
    } else {
      assert (s + t)[1..] == s[1..] + t;
      ExpandAppend(s[1..], t);
    }
  }

  lemma {:induction false} StepCostAppend(s: seq<Kind>, t: seq<Kind>)
    ensures StepCost(s + t) == StepCost(s) + StepCost(t)
  {
    if s == [] {
      assert s + t == t;
    } else {
      assert (s + t)[1..] == s[1..] + t;
      StepCostAppend(s[1..], t);
    }
  }

  // ---------- Geometry of Dist ----------

  /** Dropping or adding one element changes the distance by exactly one. */
  lemma {:induction false} Neighbours<T>(a: seq<T>, b: seq<T>, x: nat, y: nat)
    ensures Dist(a, b, x + 1, y) <= Dist(a, b, x, y) + 1
    ensures Dist(a, b, x, y + 1) <= Dist(a, b, x, y) + 1
    ensures Dist(a, b, x, y) <= Dist(a, b, x + 1, y) + 1
    ensures Dist(a, b, x, y) <= Dist(a, b, x, y + 1) + 1
    decreases x + y
  {
    if y > 0 {
      Neighbours(a, b, x, y - 1);
    }
    if x > 0 {
      Neighbours(a, b, x - 1, y);
    }
  }

  /** Along a diagonal the distance never falls; a diagonal edge keeps it. */
  lemma DiagonalStep<T>(a: seq<T>, b: seq<T>, x: nat, y: nat)
    ensures Dist(a, b, x, y) <= Dist(a, b, x + 1, y + 1)
    ensures Match(a, b, x, y) ==> Dist(a, b, x + 1, y + 1) == Dist(a, b, x, y)
  {
    Neighbours(a, b, x, y);
  }

  lemma {:induction false} DiagonalMonotone<T>(a: seq<T>, b: seq<T>, x: nat, y: nat, j: nat)
    ensures Dist(a, b, x, y) <= Dist(a, b, x + j, y + j)
    decreases j
  {
    if j > 0 {
      DiagonalMonotone(a, b, x, y, j - 1);
      DiagonalStep(a, b, x + j - 1, y + j - 1);
    }
  }

  /** A path to (x, y) crosses at least |x - y| diagonals. */
  lemma {:induction false} DistBounds<T>(a: seq<T>, b: seq<T>, x: nat, y: nat)
    ensures x - y <= Dist(a, b, x, y) <= x + y
    ensures y - x <= Dist(a, b, x, y)
    decreases x + y
  {
    if x > 0 && y > 0 {
      DistBounds(a, b, x - 1, y);
      DistBounds(a, b, x, y - 1);
      DistBounds(a, b, x - 1, y - 1);
    }
  }

  predicate Odd(n: nat) {
    if n == 0 then false else !Odd(n - 1)
  }

  lemma {:induction false} OddIsModulo(n: nat)
    ensures Odd(n) <==> n % 2 == 1
  {
    if n > 0 {
      OddIsModulo(n - 1);
    }
  }

  /** The recurrence of Dist, in a form that can be used with its body hidden. */
  lemma DistCases<T>(a: seq<T>, b: seq<T>, x: nat, y: nat)
    ensures Dist(a, b, x, 0) == x && Dist(a, b, 0, y) == y
    ensures Dist(a, b, x + 1, y + 1) ==
            var edge := 1 + Min(Dist(a, b, x, y + 1), Dist(a, b, x + 1, y));
            if Match(a, b, x, y) then Min(edge, Dist(a, b, x, y)) else edge
  {
  }

  /** Each insert or delete changes the parity of x + y, a diagonal edge does not. */
  lemma {:induction false} DistParity<T>(a: seq<T>, b: seq<T>, x: nat, y: nat)
    ensures Odd(Dist(a, b, x, y)) <==> Odd(x + y)
    decreases x + y
  {
    hide Dist;
    if x > 0 && y > 0 {
      DistCases(a, b, x - 1, y - 1);
      DistParity(a, b, x - 1, y);
      DistParity(a, b, x, y - 1);
      DistParity(a, b, x - 1, y - 1);
    } else {
      DistCases(a, b, x, y);
    }
  }

  lemma {:induction false} DistRightOfGrid<T>(a: seq<T>, b: seq<T>, x: nat, y: nat)
    requires x >= |a|
    ensures Dist(a, b, x, y) == Dist(a, b, |a|, y) + (x - |a|)
    decreases x + y
  {
    if x > |a| {
      DistRightOfGrid(a, b, x - 1, y);
      if y > 0 {
        DistRightOfGrid(a, b, x, y - 1);
        Neighbours(a, b, |a|, y - 1);
      }
    }
  }

  lemma {:induction false} DistBelowGrid<T>(a: seq<T>, b: seq<T>, x: nat, y: nat)
    requires y >= |b|
    ensures Dist(a, b, x, y) == Dist(a, b, x, |b|) + (y - |b|)
    decreases x + y
  {
    if y > |b| {
      DistBelowGrid(a, b, x, y - 1);
      if x > 0 {
        DistBelowGrid(a, b, x - 1, y);
        Neighbours(a, b, x - 1, |b|);
      }
    }
  }

  /** Beyond the far corner every extra step costs one. */
  lemma DistBeyondCorner<T>(a: seq<T>, b: seq<T>, x: nat, y: nat)
    requires x >= |a| && y >= |b|
    ensures Dist(a, b, x, y) == Dist(a, b, |a|, |b|) + (x - |a|) + (y - |b|)
  {
    DistRightOfGrid(a, b, x, y);
    DistBelowGrid(a, b, |a|, y);
  }

  // ---------- Furthest-reaching points ----------

  /** x is the furthest point of diagonal k reachable with at most d inserts and deletes. */
  ghost predicate Furthest<T>(a: seq<T>, b: seq<T>, d: nat, k: int, x: int) {
    0 <= x && 0 <= x - k && Dist(a, b, x, x - k) <= d < Dist(a, b, x + 1, x + 1 - k)
  }

  lemma BeyondFurthest<T>(a: seq<T>, b: seq<T>, d: nat, k: int, f: int, x: int)
    requires Furthest(a, b, d, k, f) && x > f
    ensures Dist(a, b, x, x - k) > d
  {
    hide Dist;
    DiagonalMonotone(a, b, f + 1, f + 1 - k, x - f - 1);
  }

  lemma WithinFurthest<T>(a: seq<T>, b: seq<T>, d: nat, k: int, f: int, x: int)
    requires Furthest(a, b, d, k, f) && 0 <= x <= f && 0 <= x - k
    ensures Dist(a, b, x, x - k) <= d
  {
    DiagonalMonotone(a, b, x, x - k, f - x);
  }

  // ---------- Every script costs at least Dist ----------

  lemma {:induction false} ScriptCostsAtLeastDist<T>(steps: seq<Kind>, a: seq<T>, b: seq<T>, i: nat, j: nat)
    requires Replays(steps, a, b, i, j)
    ensures Dist(a, b, |a|, |b|) <= Dist(a, b, i, j) + StepCost(steps)
    decreases |steps|
  {
    if steps != [] {
      Neighbours(a, b, i, j);
      match steps[0]
      case Equal =>
        DiagonalStep(a, b, i, j);
        ScriptCostsAtLeastDist(steps[1..], a, b, i + 1, j + 1);
      case Delete =>
        ScriptCostsAtLeastDist(steps[1..], a, b, i + 1, j);
      case Insert =>
        ScriptCostsAtLeastDist(steps[1..], a, b, i, j + 1);
    }
  }

  // ---------- Stripping a common prefix or suffix ----------

  /** Dist only looks at the first x and y elements. */
  lemma {:induction false} DistLocal<T>(a: seq<T>, b: seq<T>, a': seq<T>, b': seq<T>, x: nat, y: nat)
    requires x <= |a| && x <= |a'| && y <= |b| && y <= |b'|
    requires a[..x] == a'[..x] && b[..y] == b'[..y]
    ensures Dist(a, b, x, y) == Dist(a', b', x, y)
    decreases x + y
  {
    if x > 0 && y > 0 {
      assert a[x - 1] == a[..x][x - 1] == a'[x - 1] && b[y - 1] == b[..y][y - 1] == b'[y - 1];
      assert a[..x - 1] == a[..x][..x - 1] == a'[..x - 1] && b[..y - 1] == b[..y][..y - 1] == b'[..y - 1];
      DistLocal(a, b, a', b', x - 1, y);
      DistLocal(a, b, a', b', x, y - 1);
      DistLocal(a, b, a', b', x - 1, y - 1);
    }
  }

  /** A common first element costs nothing. */
  lemma {:induction false} DistAfterHead<T>(a: seq<T>, b: seq<T>, x: nat, y: nat)
    requires x < |a| && y < |b| && a[0] == b[0]
    ensures Dist(a, b, x + 1, y + 1) == Dist(a[1..], b[1..], x, y)
    decreases x + y
  {
    hide Dist;
    var a', b' := a[1..], b[1..];
    assert Match(a, b, 0, 0);
    if x > 0 && y > 0 {
      DistAfterHead(a, b, x - 1, y);
      DistAfterHead(a, b, x, y - 1);
      DistAfterHead(a, b, x - 1, y - 1);
      assert Match(a, b, x, y) == Match(a', b', x - 1, y - 1);
      DistCases(a, b, x, y);
      DistCases(a', b', x - 1, y - 1);
    } else {
      if x > 0 {
        DistAfterHead(a, b, x - 1, y);
        DistCases(a', b', x - 1, y);
      }
      if y > 0 {
        DistAfterHead(a, b, x, y - 1);
        DistCases(a', b', x, y - 1);
      }
      DistCases(a, b, x, y);
      DistCases(a', b', x, y);
      DiagonalStep(a, b, x, y);
      DistCases(a, b, x + 1, y + 1);
    }
  }

  lemma {:induction false} DistAfterPrefix<T>(a: seq<T>, b: seq<T>, p: nat)
    requires p <= |a| && p <= |b| && a[..p] == b[..p]
    ensures Dist(a, b, |a|, |b|) == Dist(a[p..], b[p..], |a| - p, |b| - p)
    decreases p
  {
    hide Dist;
    if p == 0 {
      assert a[0..] == a && b[0..] == b;
    } else {
      var a', b' := a[1..], b[1..];
      assert a[0] == a[..p][0] == b[0];
      assert a'[..p - 1] == a[..p][1..] == b'[..p - 1];
      DistAfterHead(a, b, |a| - 1, |b| - 1);
      DistAfterPrefix(a', b', p - 1);
      assert a'[p - 1..] == a[p..];
      assert b'[p - 1..] == b[p..];
    }
  }

  lemma DistBeforeSuffix<T>(a: seq<T>, b: seq<T>, s: nat)
    requires s <= |a| && s <= |b| && a[|a| - s..] == b[|b| - s..]
    ensures Dist(a, b, |a|, |b|) == Dist(a[..|a| - s], b[..|b| - s], |a| - s, |b| - s)
  {
    DistAlongDiagonal(a, b, |a| - s, |b| - s, s);
    DistLocal(a, b, a[..|a| - s], b[..|b| - s], |a| - s, |b| - s);
  }

  lemma {:induction false} DistAlongDiagonal<T>(a: seq<T>, b: seq<T>, x: nat, y: nat, s: nat)
    requires x + s <= |a| && y + s <= |b| && a[x..x + s] == b[y..y + s]
    ensures Dist(a, b, x + s, y + s) == Dist(a, b, x, y)
    decreases s
  {
    if s > 0 {
      assert a[x] == a[x..x + s][0] == b[y];
      DiagonalStep(a, b, x, y);
      assert a[x + 1..x + s] == a[x..x + s][1..] == b[y + 1..y + s];
      DistAlongDiagonal(a, b, x + 1, y + 1, s - 1);
    }
  }

  // ---------- Longest common subsequences ----------

  /** p picks the elements of c out of s, left to right. */
  predicate Picks<T(==)>(p: seq<nat>, c: seq<T>, s: seq<T>) {
    && |p| == |c|
    && (forall i :: 0 <= i < |p| ==> p[i] < |s| && s[p[i]] == c[i])
    && (forall i, j :: 0 <= i < j < |p| ==> p[i] < p[j])
  }

  ghost predicate CommonSubsequence<T>(c: seq<T>, a: seq<T>, b: seq<T>) {
    exists p, q :: Picks(p, c, a) && Picks(q, c, b)
  }

  /** A common subsequence of the first x and y elements leaves at most x + y - 2|c| elements to edit. */
  lemma {:induction false} CommonSubsequenceBoundsDist<T>(p: seq<nat>, q: seq<nat>, c: seq<T>, a: seq<T>, b: seq<T>,
          x: nat, y: nat)
    requires Picks(p, c, a) && Picks(q, c, b)
    requires x <= |a| && y <= |b|
    requires forall i :: 0 <= i < |p| ==> p[i] < x
    requires forall i :: 0 <= i < |q| ==> q[i] < y
    ensures Dist(a, b, x, y) + 2 * |c| <= x + y
    decreases x + y
  {
    DistBounds(a, b, x, y);
    if c != [] {
      var last := |c| - 1;
      if p[last] < x - 1 {
        CommonSubsequenceBoundsDist(p, q, c, a, b, x - 1, y);
        Neighbours(a, b, x - 1, y);
      } else if q[last] < y - 1 {
        CommonSubsequenceBoundsDist(p, q, c, a, b, x, y - 1);
        Neighbours(a, b, x, y - 1);
      } else {
        CommonSubsequenceBoundsDist(p[..last], q[..last], c[..last], a, b, x - 1, y - 1);
        assert Match(a, b, x - 1, y - 1);
        DiagonalStep(a, b, x - 1, y - 1);
      }
    }
  }

  /** What the equal steps of a script keep: the positions in a and in b of the unchanged elements. */
  function KeptPositions(steps: seq<Kind>, i: nat, j: nat): (r: (seq<nat>, seq<nat>)) {
    if steps == [] then ([], [])
    else match steps[0]
      case Equal => var r := KeptPositions(steps[1..], i + 1, j + 1); ([i] + r.0, [j] + r.1)
      case Delete => KeptPositions(steps[1..], i + 1, j)
      case Insert => KeptPositions(steps[1..], i, j + 1)
  }

  /** The elements of a that the equal steps keep. */
  function Kept<T>(steps: seq<Kind>, a: seq<T>, i: nat): seq<T> {
    if steps == [] then []
    else match steps[0]
      case Equal => (if i < |a| then [a[i]] else []) + Kept(steps[1..], a, i + 1)
      case Delete => Kept(steps[1..], a, i + 1)
      case Insert => Kept(steps[1..], a, i)
  }

  lemma {:induction false} KeptIsCommon<T>(steps: seq<Kind>, a: seq<T>, b: seq<T>, i: nat, j: nat) returns (c: seq<T>)
    requires Replays(steps, a, b, i, j)
    requires i <= |a| && j <= |b|
    ensures var (p, q) := KeptPositions(steps, i, j);
            && Picks(p, c, a) && Picks(q, c, b)
            && (forall t :: 0 <= t < |p| ==> p[t] >= i)
            && (forall t :: 0 <= t < |q| ==> q[t] >= j)
    ensures StepCost(steps) + 2 * |c| == (|a| - i) + (|b| - j) && c == Kept(steps, a, i)
    decreases |steps|
  {
    hide Dist;
    if steps == [] {
      c := [];
    } else {
      match steps[0]
      case Equal =>
        var rest := KeptIsCommon(steps[1..], a, b, i + 1, j + 1);
        c := [a[i]] + rest;
      case Delete =>
        c := KeptIsCommon(steps[1..], a, b, i + 1, j);
      case Insert =>
        c := KeptIsCommon(steps[1..], a, b, i, j + 1);
    }
  }

  /** c is a longest common subsequence of a and b. */
  ghost predicate LongestCommon<T(!new)>(c: seq<T>, a: seq<T>, b: seq<T>) {
    CommonSubsequence(c, a, b) && forall c' :: CommonSubsequence(c', a, b) ==> |c'| <= |c|
  }

  /** A script whose cost is Dist is minimal, and what it keeps is a longest common subsequence. */
  lemma DistScriptKeepsLongest<T(!new)>(ops: seq<EditOp>, a: seq<T>, b: seq<T>) returns (c: seq<T>)
    requires Transforms(ops, a, b) && Cost(ops) == Dist(a, b, |a|, |b|)
    ensures LongestCommon(c, a, b) && c == Kept(Expand(ops), a, 0)
    ensures Cost(ops) == |a| + |b| - 2 * |c|
    ensures forall other :: Transforms(other, a, b) ==> Cost(ops) <= Cost(other)
  {
    var steps := Expand(ops);
    c := KeptIsCommon(steps, a, b, 0, 0);
    var kept := KeptPositions(steps, 0, 0);
    assert Picks(kept.0, c, a) && Picks(kept.1, c, b);
    forall c' | CommonSubsequence(c', a, b)
      ensures |c'| <= |c|
    {
      var p, q :| Picks(p, c', a) && Picks(q, c', b);
      CommonSubsequenceBoundsDist(p, q, c', a, b, |a|, |b|);
    }
    forall other | Transforms(other, a, b)
      ensures Cost(ops) <= Cost(other)
    {
      ScriptCostsAtLeastDist(Expand(other), a, b, 0, 0);
    }
  }
}
