/** Breadth-first traversal with a queue: the nodes appear in the order of their distance in edges. */
module Bfs {
  import opened Graphs

  /** v is d edges away from u, and not fewer. */
  ghost predicate Hops(g: Graph, u: Id, v: Id, d: nat) {
    && (exists chain :: Reaches(g, u, v, chain) && |chain| == d)
    && (forall chain :: Reaches(g, u, v, chain) ==> |chain| >= d)
  }

  /** Of the visited nodes from position j on, the earliest that has a successor not yet visited names the first such one. */
  function Earliest(g: Graph, visited: seq<Id>, j: nat): Choice
    requires j <= |visited|
    decreases |visited| - j
  {
    if j == |visited| then Nobody
    else
      var next := FirstUnseen(Successors(g.edges, visited[j]), visited);
      if next.Chosen? then next else Earliest(g, visited, j + 1)
  }

  /** Each node behind the first is the one the nodes before it call for, first come first served. */
  ghost predicate BreadthFirst(g: Graph, visited: seq<Id>) {
    forall k :: 0 < k < |visited| ==> Earliest(g, visited[..k], 0) == Chosen(visited[k])
  }

  lemma {:induction false} EarliestSkips(g: Graph, visited: seq<Id>, j: nat, i: nat)
    requires j <= i <= |visited|
    requires forall k, w :: j <= k < i && w in Successors(g.edges, visited[k]) ==> w in visited
    ensures Earliest(g, visited, j) == Earliest(g, visited, i)
    decreases i - j
  {
    if j < i {
      NothingUnseen(Successors(g.edges, visited[j]), visited);
      EarliestSkips(g, visited, j + 1, i);
    }
  }

  /** The node just discovered is the one called for. */
  lemma DiscoveredNext(g: Graph, visited: seq<Id>, levels: seq<nat>, i: nat, neighbours: seq<Id>, k: nat)
    requires Expanded(g, visited, levels, i) && i < |visited| && neighbours == Successors(g.edges, visited[i])
    requires k < |neighbours| && neighbours[k] !in visited && forall m :: 0 <= m < k ==> neighbours[m] in visited
    requires BreadthFirst(g, visited)
    ensures BreadthFirst(g, visited + [neighbours[k]])
  {
    var more := visited + [neighbours[k]];
    forall m, w | 0 <= m < i && w in Successors(g.edges, visited[m])
      ensures w in visited
    {
      assert FoundBy(visited, levels, w, levels[m] + 1);
    }
    EarliestSkips(g, visited, 0, i);
    UnseenAt(neighbours, visited, k);
    forall m | 0 < m < |more|
      ensures Earliest(g, more[..m], 0) == Chosen(more[m])
    {
      if m < |visited| {
        assert more[..m] == visited[..m];
      } else {
        assert more[..m] == visited;
      }
    }
  }

  /** A node within so many edges, as recorded. */
  predicate FoundBy(visited: seq<Id>, levels: seq<nat>, w: Id, level: nat)
    requires |levels| == |visited|
  {
    exists j :: 0 <= j < |visited| && visited[j] == w && levels[j] <= level
  }

  /** The recorded levels start at 0, never fall, and stay within one of the node at position i; each is the length of a chain. */
  ghost predicate Levelled(g: Graph, start: Id, visited: seq<Id>, levels: seq<nat>, i: nat) {
    && |levels| == |visited| > 0 && visited[0] == start && levels[0] == 0
    && (forall j, k :: 0 <= j <= k < |levels| ==> levels[j] <= levels[k])
    && (i < |levels| ==> forall k :: 0 <= k < |levels| ==> levels[k] <= levels[i] + 1)
    && (forall k :: 0 <= k < |visited| ==> exists chain :: Reaches(g, start, visited[k], chain) && |chain| == levels[k])
  }

  /** The successors of the first i nodes have been found, one level on at most. */
  ghost predicate Expanded(g: Graph, visited: seq<Id>, levels: seq<nat>, i: nat) {
    && |levels| == |visited| && i <= |visited|
    && forall k, w :: 0 <= k < i && w in Successors(g.edges, visited[k]) ==> FoundBy(visited, levels, w, levels[k] + 1)
  }

  lemma DiscoverOne(g: Graph, start: Id, visited: seq<Id>, levels: seq<nat>, i: nat, w: Id)
    requires Levelled(g, start, visited, levels, i) && i < |visited| && w in Successors(g.edges, visited[i])
    ensures Levelled(g, start, visited + [w], levels + [levels[i] + 1], i)
  {
    hide Reaches, Successors;
    ChainOn(g, start, visited[i], levels[i], w);
    var v', l' := visited + [w], levels + [levels[i] + 1];
    forall k | 0 <= k < |v'|
      ensures exists chain :: Reaches(g, start, v'[k], chain) && |chain| == l'[k]
    {
      if k < |visited| {
        assert v'[k] == visited[k] && l'[k] == levels[k];
      }
    }
  }

  lemma ChainOn(g: Graph, u: Id, v: Id, d: nat, w: Id)
    requires (exists chain :: Reaches(g, u, v, chain) && |chain| == d) && w in Successors(g.edges, v)
    ensures exists chain :: Reaches(g, u, w, chain) && |chain| == d + 1
  {
    hide Reaches, Successors;
    var chain :| Reaches(g, u, v, chain) && |chain| == d;
    ReachOn(g, u, v, chain, w);
    assert |chain + [w]| == d + 1;
  }

  lemma FoundStays(visited: seq<Id>, levels: seq<nat>, w: Id, level: nat, x: Id, l: nat)
    requires |levels| == |visited|
    ensures FoundBy(visited, levels, w, level) ==> FoundBy(visited + [x], levels + [l], w, level)
    ensures l <= level ==> FoundBy(visited + [x], levels + [l], x, level)
  {
    var v', l' := visited + [x], levels + [l];
    if FoundBy(visited, levels, w, level) {
      var j :| 0 <= j < |visited| && visited[j] == w && levels[j] <= level;
      assert v'[j] == w && l'[j] <= level;
    }
    assert v'[|visited|] == x && l'[|visited|] == l;
  }

  lemma ExpandedStays(g: Graph, visited: seq<Id>, levels: seq<nat>, i: nat, x: Id, l: nat)
    requires Expanded(g, visited, levels, i)
    ensures Expanded(g, visited + [x], levels + [l], i)
  {
    forall k, w | 0 <= k < i && w in Successors(g.edges, visited[k])
      ensures FoundBy(visited + [x], levels + [l], w, levels[k] + 1)
    {
      FoundStays(visited, levels, w, levels[k] + 1, x, l);
    }
  }

  /** The first k successors of the node at i have been found. */
  ghost predicate Looking(g: Graph, start: Id, visited: seq<Id>, levels: seq<nat>, i: nat, neighbours: seq<Id>, k: nat) {
    && Levelled(g, start, visited, levels, i) && Expanded(g, visited, levels, i) && NoRepeats(visited)
    && i < |visited| && neighbours == Successors(g.edges, visited[i]) && k <= |neighbours|
    && forall m :: 0 <= m < k ==> FoundBy(visited, levels, neighbours[m], levels[i] + 1)
  }

  lemma LookNew(g: Graph, start: Id, visited: seq<Id>, levels: seq<nat>, i: nat, neighbours: seq<Id>, k: nat)
    requires Looking(g, start, visited, levels, i, neighbours, k) && k < |neighbours| && neighbours[k] !in visited
    ensures i < |levels| && Looking(g, start, visited + [neighbours[k]], levels + [levels[i] + 1], i, neighbours, k + 1)
  {
    hide Levelled, Expanded, FoundBy;
    assert |levels| == |visited| by { SameLength(g, start, visited, levels, i); }
    var w, l := neighbours[k], levels[i] + 1;
    DiscoverOne(g, start, visited, levels, i, w);
    ExpandedStays(g, visited, levels, i, w, l);
    forall m | 0 <= m < k + 1
      ensures FoundBy(visited + [w], levels + [l], neighbours[m], l)
    {
      FoundStays(visited, levels, neighbours[m], l, w, l);
    }
  }

  lemma SameLength(g: Graph, start: Id, visited: seq<Id>, levels: seq<nat>, i: nat)
    requires Levelled(g, start, visited, levels, i)
    ensures |levels| == |visited|
  {
  }

  lemma LookKnown(g: Graph, start: Id, visited: seq<Id>, levels: seq<nat>, i: nat,
          neighbours: seq<Id>, k: nat)
    requires Looking(g, start, visited, levels, i, neighbours, k) && k < |neighbours| && neighbours[k] in visited
    ensures Looking(g, start, visited, levels, i, neighbours, k + 1)
  {
    var j :| 0 <= j < |visited| && visited[j] == neighbours[k];
    assert levels[j] <= levels[i] + 1;
    assert FoundBy(visited, levels, neighbours[k], levels[i] + 1);
  }

  lemma LookedAll(g: Graph, start: Id, visited: seq<Id>, levels: seq<nat>, i: nat, neighbours: seq<Id>)
    requires Looking(g, start, visited, levels, i, neighbours, |neighbours|)
    ensures Levelled(g, start, visited, levels, i + 1) && Expanded(g, visited, levels, i + 1)
  {
    hide FoundBy;
    forall w | w in Successors(g.edges, visited[i])
      ensures FoundBy(visited, levels, w, levels[i] + 1)
    {
      var m :| 0 <= m < |neighbours| && neighbours[m] == w;
    }
    if i + 1 < |levels| {
      assert levels[i] <= levels[i + 1];
    }
  }

  /** When every node found has been expanded, a chain of m edges ends at a node of level at most m. */
  lemma {:induction false} ChainBoundsLevel(g: Graph, visited: seq<Id>, levels: seq<nat>, u: Id, v: Id, chain: seq<Id>,
          level: nat)
    requires Expanded(g, visited, levels, |visited|) && FoundBy(visited, levels, u, level) && Reaches(g, u, v, chain)
    ensures FoundBy(visited, levels, v, level + |chain|)
    decreases |chain|
  {
    if chain != [] {
      var j :| 0 <= j < |visited| && visited[j] == u && levels[j] <= level;
      assert FoundBy(visited, levels, chain[0], levels[j] + 1);
      assert FoundBy(visited, levels, chain[0], level + 1);
      ChainBoundsLevel(g, visited, levels, chain[0], v, chain[1..], level + 1);
    }
  }

  /** At the end the levels are the distances. */
  lemma LevelsAreHops(g: Graph, start: Id, visited: seq<Id>, levels: seq<nat>, k: nat)
    requires Levelled(g, start, visited, levels, |visited|) && Expanded(g, visited, levels, |visited|) && NoRepeats(visited)
    requires k < |visited|
    ensures Hops(g, start, visited[k], levels[k])
  {
    assert FoundBy(visited, levels, start, 0) by { assert visited[0] == start; }
    forall chain | Reaches(g, start, visited[k], chain)
      ensures |chain| >= levels[k]
    {
      ChainBoundsLevel(g, visited, levels, start, visited[k], chain, 0);
      var j :| 0 <= j < |visited| && visited[j] == visited[k] && levels[j] <= |chain|;
      assert j == k;
    }
  }

  lemma AllFound(g: Graph, start: Id, visited: seq<Id>, levels: seq<nat>, v: Id)
    requires Levelled(g, start, visited, levels, |visited|) && Expanded(g, visited, levels, |visited|)
    ensures v in visited <==> Reachable(g, start, v)
  {
    if v in visited {
      var k :| 0 <= k < |visited| && visited[k] == v;
      var chain :| Reaches(g, start, visited[k], chain) && |chain| == levels[k];
    }
    if Reachable(g, start, v) {
      assert FoundBy(visited, levels, start, 0) by { assert visited[0] == start; }
      var chain :| Reaches(g, start, v, chain);
      ChainBoundsLevel(g, visited, levels, start, v, chain, 0);
    }
  }

  /** The loop over the edges of the node taken from the queue. */
  method Discover(g: Graph, ghost start: Id, before: seq<Id>, queued: seq<Id>, ghost earlier: seq<nat>,
          ghost all: set<Id>, curr: Id, ghost i: nat)
    returns (visited: seq<Id>, queue: seq<Id>, ghost levels: seq<nat>)
    requires i < |before| && curr == before[i] && queued == before[i + 1..] && Within(before, all) && Closed(g, all)
    requires Levelled(g, start, before, earlier, i) && Expanded(g, before, earlier, i) && NoRepeats(before)
    requires BreadthFirst(g, before)
    ensures BreadthFirst(g, visited)
    ensures i < |visited| && queue == visited[i + 1..] && Within(visited, all) && NoRepeats(visited)
    ensures Levelled(g, start, visited, levels, i + 1) && Expanded(g, visited, levels, i + 1)
    ensures |Unseen(all, visited)| < |Unseen(all, before)| || visited == before
  {
    hide Levelled, Expanded, Looking, Closed, Unseen, BreadthFirst;
    visited, queue, levels := before, queued, earlier;
    var neighbours := Successors(g.edges, curr);
    LookBegins(g, start, before, earlier, i);
    ReachWithin(g, all, curr);
    for k := 0 to |neighbours|
      invariant Looking(g, start, visited, levels, i, neighbours, k)
      invariant BreadthFirst(g, visited) && forall m :: 0 <= m < k ==> neighbours[m] in visited
      invariant i < |visited| && queue == visited[i + 1..] && Within(visited, all)
      invariant |Unseen(all, visited)| < |Unseen(all, before)| || visited == before
    {
      var next := neighbours[k];
      if next !in visited {
        LookedUp(g, start, visited, levels, i, neighbours, k);
        DiscoveredNext(g, visited, levels, i, neighbours, k);
        LookNew(g, start, visited, levels, i, neighbours, k);
        UnseenShrinks(all, visited, next);
        levels := levels + [levels[i] + 1];
        visited := visited + [next];
        queue := queue + [next];
      } else {
        LookKnown(g, start, visited, levels, i, neighbours, k);
      }
    }
    LookedAll(g, start, visited, levels, i, neighbours);
    LookingNoRepeats(g, start, visited, levels, i, neighbours);
  }

  lemma LookedUp(g: Graph, start: Id, visited: seq<Id>, levels: seq<nat>, i: nat, neighbours: seq<Id>, k: nat)
    requires Looking(g, start, visited, levels, i, neighbours, k)
    ensures Expanded(g, visited, levels, i) && i < |visited| && neighbours == Successors(g.edges, visited[i])
  {
  }

  lemma LookBegins(g: Graph, start: Id, visited: seq<Id>, levels: seq<nat>, i: nat)
    requires i < |visited| && Levelled(g, start, visited, levels, i) && Expanded(g, visited, levels, i) && NoRepeats(visited)
    ensures Looking(g, start, visited, levels, i, Successors(g.edges, visited[i]), 0)
  {
  }

  lemma LookingNoRepeats(g: Graph, start: Id, visited: seq<Id>, levels: seq<nat>, i: nat,
          neighbours: seq<Id>)
    requires Looking(g, start, visited, levels, i, neighbours, |neighbours|)
    ensures NoRepeats(visited)
  {
  }

  lemma ReachWithin(g: Graph, all: set<Id>, n: Id)
    requires Closed(g, all)
    ensures Within(Successors(g.edges, n), all)
  {
  }

  /** bfsSteps: the visited nodes in order of discovery, with their distances. */
  method BfsSteps(g: Graph, start: Id) returns (visited: seq<Id>, ghost levels: seq<nat>)
    ensures NoRepeats(visited) && forall v :: v in visited <==> Reachable(g, start, v)
    ensures |levels| == |visited| && forall k :: 0 <= k < |visited| ==> Hops(g, start, visited[k], levels[k])
    ensures forall j, k :: 0 <= j <= k < |levels| ==> levels[j] <= levels[k]
    ensures BreadthFirst(g, visited)
  {
    hide Levelled, Expanded, Closed, Unseen, Hops, Universe, Reachable, Earliest;
    ghost var all := Universe(g, start);
    visited := [start];
    var queue := [start];
    levels := [0];
    ghost var i := 0;
    Begins(g, start);
    while queue != []
      invariant i <= |visited| && queue == visited[i..] && Within(visited, all) && NoRepeats(visited) && Closed(g, all)
      invariant Levelled(g, start, visited, levels, i) && Expanded(g, visited, levels, i)
      invariant BreadthFirst(g, visited)
      decreases |Unseen(all, visited)|, |queue|
    {
      var curr := queue[0];
      visited, queue, levels := Discover(g, start, visited, queue[1..], levels, all, curr, i);
      i := i + 1;
    }
    forall v
      ensures v in visited <==> Reachable(g, start, v)
    {
      AllFound(g, start, visited, levels, v);
    }
    forall k | 0 <= k < |visited|
      ensures |levels| == |visited| && Hops(g, start, visited[k], levels[k])
    {
      SameLength(g, start, visited, levels, i);
      LevelsAreHops(g, start, visited, levels, k);
    }
    LevelsRise(g, start, visited, levels, i);
  }

  lemma Begins(g: Graph, start: Id)
    ensures Levelled(g, start, [start], [0], 0) && Expanded(g, [start], [0], 0)
    ensures Within([start], Universe(g, start)) && Closed(g, Universe(g, start))
  {
    assert Reaches(g, start, start, []);
  }

  lemma LevelsRise(g: Graph, start: Id, visited: seq<Id>, levels: seq<nat>, i: nat)
    requires Levelled(g, start, visited, levels, i)
    ensures |levels| == |visited| && forall j, k :: 0 <= j <= k < |levels| ==> levels[j] <= levels[k]
  {
  }
}
