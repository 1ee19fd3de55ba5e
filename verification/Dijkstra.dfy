/** The Dijkstra visualiser: settling the nearest unvisited node and relaxing its edges. */
module Dijkstra {

  import opened Graphs

  /** A distance table entry. */
  datatype Distance = Finite(value: real) | Infinity {
    predicate Less(other: Distance) {
      Finite? && (other.Infinity? || value < other.value)
    }
  }

  // ---------- Paths ----------

  /** p leads from u to v along edges into listed nodes. */
  predicate IsPath(g: Graph, p: seq<Edge>, u: Id, v: Id) {
    if p == [] then u == v
    else p[0] in g.edges && p[0].from == u && p[0].to in g.nodes && IsPath(g, p[1..], p[0].to, v)
  }

  function Weight(p: seq<Edge>): real {
    if p == [] then 0.0 else p[0].weight + Weight(p[1..])
  }

  /** w is the least weight of a path from u to v. */
  ghost predicate ShortestWeight(g: Graph, u: Id, v: Id, w: real) {
    && (exists p :: IsPath(g, p, u, v) && Weight(p) == w)
    && forall p :: IsPath(g, p, u, v) ==> w <= Weight(p)
  }

  ghost predicate Unreachable(g: Graph, u: Id, v: Id) {
    forall p :: !IsPath(g, p, u, v)
  }

  predicate NonNegative(g: Graph) {
    forall e :: e in g.edges ==> e.weight >= 0.0
  }

  lemma {:induction false} ExtendPath(g: Graph, p: seq<Edge>, u: Id, v: Id, e: Edge)
    requires IsPath(g, p, u, v) && e in g.edges && e.from == v && e.to in g.nodes
    ensures IsPath(g, p + [e], u, e.to) && Weight(p + [e]) == Weight(p) + e.weight
  {
    if p == [] {
      assert [e][1..] == [] && p + [e] == [e];
    } else {
      assert (p + [e])[1..] == p[1..] + [e];
      ExtendPath(g, p[1..], p[0].to, v, e);
    }
  }

  // ---------- What the search keeps ----------

  /** A path of weight w is known. */
  ghost predicate Witnessed(g: Graph, start: Id, v: Id, w: real) {
    exists p :: IsPath(g, p, start, v) && Weight(p) == w
  }

  /** Every finite distance is the weight of some path. */
  ghost predicate Sound(g: Graph, start: Id, d: map<Id, Distance>) {
    forall v :: v in d && d[v].Finite? ==> Witnessed(g, start, v, d[v].value)
  }

  /** Settled nodes have finite distances, none larger than that of an unsettled node. */
  ghost predicate Ordered(visited: seq<Id>, unvisited: seq<Id>, d: map<Id, Distance>) {
    && (forall u :: u in visited ==> u in d && d[u].Finite?)
    && (forall u, v :: u in visited && v in unvisited && v in d ==> !d[v].Less(d[u]))
  }

  /** The edge cannot improve the distance of its target any more. */
  predicate Relaxed(d: map<Id, Distance>, e: Edge) {
    e.from in d && e.to in d && d[e.from].Finite? && !Finite(d[e.from].value + e.weight).Less(d[e.to])
  }

  /** Every edge from a settled node to a listed node is relaxed. */
  ghost predicate RelaxedFrom(g: Graph, visited: seq<Id>, d: map<Id, Distance>) {
    forall e :: e in g.edges && e.from in visited && e.to in g.nodes ==> Relaxed(d, e)
  }

  /** visited and unvisited split the listed nodes. */
  ghost predicate Split(g: Graph, visited: seq<Id>, unvisited: seq<Id>, d: map<Id, Distance>) {
    && (forall v :: v in g.nodes <==> v in visited || v in unvisited)
    && (forall v :: v in visited ==> v !in unvisited)
    && (forall v :: v in g.nodes ==> v in d)
    && (forall i, j :: 0 <= i < j < |unvisited| ==> unvisited[i] != unvisited[j])
  }

  ghost predicate Invariant(g: Graph, start: Id, visited: seq<Id>, unvisited: seq<Id>, d: map<Id, Distance>) {
    && Split(g, visited, unvisited, d) && Sound(g, start, d) && Ordered(visited, unvisited, d) && RelaxedFrom(g, visited, d)
    && start in d && d[start].Finite? && d[start].value <= 0.0
  }

  /** Once no unsettled node is within reach, every path leads through settled nodes and is not shorter than the table says. */
  lemma {:induction false} PathsAreCovered(g: Graph, start: Id, visited: seq<Id>, unvisited: seq<Id>,
          d: map<Id, Distance>, p: seq<Edge>, u: Id, v: Id)
    requires Invariant(g, start, visited, unvisited, d)
    requires forall x :: x in unvisited ==> d[x].Infinity?
    requires u in visited && IsPath(g, p, u, v)
    ensures v in visited && v in d && d[v].Finite? && d[v].value <= d[u].value + Weight(p)
    decreases |p|
  {
    if p != [] {
      var e := p[0];
      assert Relaxed(d, e);
      PathsAreCovered(g, start, visited, unvisited, d, p[1..], e.to, v);
    }
  }

  /** At the end the table holds the true shortest weights, and infinity exactly for what cannot be reached. */
  ghost predicate Exact(g: Graph, start: Id, d: map<Id, Distance>) {
    forall v :: v in g.nodes ==>
      && v in d
      && (d[v].Finite? ==> ShortestWeight(g, start, v, d[v].value))
      && (d[v].Infinity? ==> Unreachable(g, start, v))
  }

  lemma EndIsExact(g: Graph, start: Id, visited: seq<Id>, unvisited: seq<Id>, d: map<Id, Distance>)
    requires Invariant(g, start, visited, unvisited, d) && start in g.nodes
    requires forall x :: x in unvisited ==> d[x].Infinity?
    ensures Exact(g, start, d)
  {
    assert start in visited;
    forall v, p | v in g.nodes && IsPath(g, p, start, v)
      ensures d[v].Finite? && d[v].value <= Weight(p)
    {
      PathsAreCovered(g, start, visited, unvisited, d, p, start, v);
    }
  }

  // ---------- One round ----------

  function Without(s: seq<Id>, x: Id): (r: seq<Id>)
    ensures forall v :: v in r <==> v in s && v != x
    ensures (forall i, j :: 0 <= i < j < |s| ==> s[i] != s[j]) ==> forall i, j :: 0 <= i < j < |r| ==> r[i] != r[j]
    ensures |r| <= |s| && (x in s ==> |r| < |s|)
  {
    if s == [] then []
    else
      var n := |s| - 1;
      var r := Without(s[..n], x);
      assert forall v :: v in s <==> v == s[n] || v in s[..n];
      assert forall i, j :: 0 <= i < j < n ==> s[i] == s[..n][i] && s[j] == s[..n][j];
      assert (forall i, j :: 0 <= i < j < |s| ==> s[i] != s[j]) ==> s[n] !in s[..n];
      if s[n] == x then r else r + [s[n]]
  }

  /** The listed ids, each once, in the order of first appearance. */
  function Listed(s: seq<Id>): (r: seq<Id>)
    ensures forall v :: v in r <==> v in s
    ensures forall i, j :: 0 <= i < j < |r| ==> r[i] != r[j]
  {
    if s == [] then []
    else
      var n := |s| - 1;
      var r := Listed(s[..n]);
      assert forall v :: v in s <==> v == s[n] || v in s[..n];
      if s[n] in r then r else r + [s[n]]
  }

  /** While the edges of `current`, just settled, are being relaxed: those in `done` are. */
  ghost predicate Relaxing(g: Graph, start: Id, visited: seq<Id>, unvisited: seq<Id>, d: map<Id, Distance>,
          current: Id, done: seq<Edge>) {
    && Split(g, visited, unvisited, d) && Sound(g, start, d) && Ordered(visited, unvisited, d)
    && current in visited && current in d && d[current].Finite?
    && (forall u :: u in visited ==> u in d && !d[current].Less(d[u]))
    && (forall e :: e in g.edges && e.from in visited && e.from != current && e.to in g.nodes ==> Relaxed(d, e))
    && (forall e :: e in done && e.to in g.nodes ==> Relaxed(d, e))
    && start in d && d[start].Finite? && d[start].value <= 0.0
  }

  /** Settling the nearest unvisited node. */
  lemma Settle(g: Graph, start: Id, visited: seq<Id>, unvisited: seq<Id>, d: map<Id, Distance>, current: Id)
    requires Invariant(g, start, visited, unvisited, d)
    requires current in unvisited && d[current].Finite?
    requires forall v :: v in unvisited ==> v in d && !d[v].Less(d[current])
    ensures Relaxing(g, start, visited + [current], Without(unvisited, current), d, current, [])
  {
  }

  /** A better path to an unsettled node, through the node just settled. */
  ghost predicate Improves(d: map<Id, Distance>, d': map<Id, Distance>, current: Id, unvisited: seq<Id>, e: Edge) {
    && current in d && d[current].Finite? && e.from == current && e.to in unvisited && e.to in d
    && Finite(d[current].value + e.weight).Less(d[e.to])
    && d' == d[e.to := Finite(d[current].value + e.weight)]
  }

  lemma ImproveSound(g: Graph, start: Id, d: map<Id, Distance>, d': map<Id, Distance>, current: Id,
          unvisited: seq<Id>, e: Edge)
    requires Sound(g, start, d) && Improves(d, d', current, unvisited, e) && e in g.edges && e.to in g.nodes
    ensures Sound(g, start, d')
  {
    hide IsPath, Weight;
    var p :| IsPath(g, p, start, current) && Weight(p) == d[current].value;
    ExtendPath(g, p, start, current, e);
    forall v | v in d' && d'[v].Finite?
      ensures Witnessed(g, start, v, d'[v].value)
    {
      if v != e.to {
        assert Witnessed(g, start, v, d[v].value);
      }
    }
  }

  lemma ImproveOrdered(g: Graph, visited: seq<Id>, unvisited: seq<Id>, d: map<Id, Distance>,
          d': map<Id, Distance>, current: Id, e: Edge)
    requires Ordered(visited, unvisited, d) && Split(g, visited, unvisited, d) && Improves(d, d', current, unvisited, e) && e.weight >= 0.0
    requires forall u :: u in visited ==> u in d && !d[current].Less(d[u])
    ensures Ordered(visited, unvisited, d') && Split(g, visited, unvisited, d')
    ensures e.to !in visited
  {
  }

  /** Lowering the distance of one node keeps the edges into and around it relaxed. */
  lemma ImproveRelaxed(d: map<Id, Distance>, d': map<Id, Distance>, current: Id, unvisited: seq<Id>,
          e: Edge, f: Edge)
    requires Improves(d, d', current, unvisited, e) && f.from != e.to && Relaxed(d, f)
    ensures Relaxed(d', f)
  {
  }

  lemma ImproveItself(d: map<Id, Distance>, d': map<Id, Distance>, current: Id, unvisited: seq<Id>, e: Edge)
    requires Improves(d, d', current, unvisited, e) && e.to != current
    ensures Relaxed(d', e)
  {
  }

  /** Relaxing one edge of the node just settled. */
  lemma RelaxEdge(g: Graph, start: Id, visited: seq<Id>, unvisited: seq<Id>, d: map<Id, Distance>,
          current: Id, done: seq<Edge>, e: Edge)
    requires NonNegative(g) && Relaxing(g, start, visited, unvisited, d, current, done)
    requires e in g.edges && e.from == current && forall f :: f in done ==> f.from == current
    ensures e.to in unvisited ==> e.to in d
    ensures var reached := Finite(d[current].value + e.weight);
            var d' := if e.to in unvisited && reached.Less(d[e.to]) then d[e.to := reached] else d;
            Relaxing(g, start, visited, unvisited, d', current, done + [e])
  {
    hide Sound, Ordered, Relaxed, IsPath, Weight;
    var reached := Finite(d[current].value + e.weight);
    if e.to in unvisited && reached.Less(d[e.to]) {
      var d' := d[e.to := reached];
      ImproveSound(g, start, d, d', current, unvisited, e);
      ImproveOrdered(g, visited, unvisited, d, d', current, e);
      forall f | f in g.edges && f.from in visited && f.from != current && f.to in g.nodes
        ensures Relaxed(d', f)
      {
        ImproveRelaxed(d, d', current, unvisited, e, f);
      }
      forall f | f in done + [e] && f.to in g.nodes
        ensures Relaxed(d', f)
      {
        if f in done {
          ImproveRelaxed(d, d', current, unvisited, e, f);
        } else {
          ImproveItself(d, d', current, unvisited, e);
        }
      }
    } else {
      NotImproved(g, start, visited, unvisited, d, current, done, e);
    }
  }

  lemma NotImproved(g: Graph, start: Id, visited: seq<Id>, unvisited: seq<Id>, d: map<Id, Distance>,
          current: Id, done: seq<Edge>, e: Edge)
    requires NonNegative(g) && Relaxing(g, start, visited, unvisited, d, current, done)
    requires e in g.edges && e.from == current
    requires e.to in unvisited && e.to in d ==> !Finite(d[current].value + e.weight).Less(d[e.to])
    ensures Relaxing(g, start, visited, unvisited, d, current, done + [e])
  {
    hide Sound, Ordered;
  }

  lemma RoundEnds(g: Graph, start: Id, visited: seq<Id>, unvisited: seq<Id>, d: map<Id, Distance>,
          current: Id)
    requires Relaxing(g, start, visited, unvisited, d, current, Outgoing(g.edges, current))
    ensures Invariant(g, start, visited, unvisited, d)
  {
  }

  lemma Begins(g: Graph, start: Id, d: map<Id, Distance>)
    requires d == (map n | n in g.nodes :: Infinity)[start := Finite(0.0)]
    ensures Split(g, [], Listed(g.nodes), d) && Invariant(g, start, [], Listed(g.nodes), d)
  {
    assert IsPath(g, [], start, start) && Weight([]) == 0.0;
  }

  // ---------- The generator ----------

  /** What was reported when the nodes were visited: each "confirmed" distance, in order. */
  ghost predicate Confirmed(settled: seq<(Id, real)>, visited: seq<Id>, d: map<Id, Distance>) {
    && |settled| == |visited|
    && forall k :: 0 <= k < |settled| ==> settled[k].0 == visited[k] && visited[k] in d && d[visited[k]] == Finite(settled[k].1)
  }

  ghost predicate Ascending(settled: seq<(Id, real)>) {
    forall i, j :: 0 <= i < j < |settled| ==> settled[i].1 <= settled[j].1
  }

  /** No node is nearer than the one at k, and those before it are all further away. */
  ghost predicate FirstNearest(nodes: seq<Id>, distances: map<Id, Distance>, k: int)
    requires forall v :: v in nodes ==> v in distances
  {
    && 0 <= k < |nodes|
    && (forall j :: 0 <= j < |nodes| ==> !distances[nodes[j]].Less(distances[nodes[k]]))
    && (forall j :: 0 <= j < k ==> distances[nodes[k]].Less(distances[nodes[j]]))
  }

  /** The first unvisited node with the smallest finite distance, if any. */
  method PickNearest(unvisited: seq<Id>, distances: map<Id, Distance>) returns (current: Id, minDist: Distance)
    requires forall v :: v in unvisited ==> v in distances
    ensures minDist.Finite? ==> current in unvisited && distances[current] == minDist
    ensures minDist.Finite? ==> exists k :: FirstNearest(unvisited, distances, k) && unvisited[k] == current
    ensures forall v :: v in unvisited ==> !distances[v].Less(minDist)
  {
    current := "";
    minDist := Infinity;
    ghost var best: nat := 0;
    for i := 0 to |unvisited|
      invariant minDist.Finite? ==> current in unvisited && distances[current] == minDist
      invariant minDist.Finite? ==> best < i && unvisited[best] == current
      invariant minDist.Finite? ==> forall j :: 0 <= j < best ==> minDist.Less(distances[unvisited[j]])
      invariant forall j :: 0 <= j < i ==> !distances[unvisited[j]].Less(minDist)
    {
      var nodeId := unvisited[i];
      if distances[nodeId].Less(minDist) {
        minDist := distances[nodeId];
        current := nodeId;
        best := i;
      }
    }
    assert minDist.Finite? ==> FirstNearest(unvisited, distances, best);
  }

  /** The table for the same nodes, with other distances for unvisited nodes at most. */
  ghost predicate OnlyUnvisited(g: Graph, visited: seq<Id>, unvisited: seq<Id>, before: map<Id, Distance>,
          after: map<Id, Distance>) {
    && after.Keys == before.Keys && Split(g, visited, unvisited, after)
    && forall v :: v in before && v !in unvisited ==> after[v] == before[v]
  }

  /** What relaxing does to the table, edge by edge. */
  function AfterEdge(d: map<Id, Distance>, unvisited: seq<Id>, minDist: real, e: Edge): map<Id, Distance>
    requires e.to in unvisited ==> e.to in d
  {
    if e.to in unvisited && Finite(minDist + e.weight).Less(d[e.to]) then d[e.to := Finite(minDist + e.weight)] else d
  }

  lemma RelaxStep(g: Graph, start: Id, visited: seq<Id>, unvisited: seq<Id>,
          before: map<Id, Distance>, d: map<Id, Distance>,
                                     current: Id, minDist: real, done: seq<Edge>, e: Edge)
    requires OnlyUnvisited(g, visited, unvisited, before, d) && current in before && before[current] == Finite(minDist) && current in visited
    requires e in g.edges && e.from == current && forall f :: f in done ==> f.from == current
    requires NonNegative(g) ==> Relaxing(g, start, visited, unvisited, d, current, done)
    ensures e.to in unvisited ==> e.to in d
    ensures OnlyUnvisited(g, visited, unvisited, before, AfterEdge(d, unvisited, minDist, e))
    ensures NonNegative(g) ==> Relaxing(g, start, visited, unvisited, AfterEdge(d, unvisited, minDist, e), current, done + [e])
  {
    hide Relaxing;
    if NonNegative(g) {
      RelaxEdge(g, start, visited, unvisited, d, current, done, e);
    }
  }

  lemma OutgoingPrefix(g: Graph, current: Id, k: nat)
    requires k < |Outgoing(g.edges, current)|
    ensures var edges := Outgoing(g.edges, current);
            && edges[k] in g.edges && edges[k].from == current && edges[..k + 1] == edges[..k] + [edges[k]]
            && forall f :: f in edges[..k] ==> f.from == current
  {
    var edges := Outgoing(g.edges, current);
    assert edges[k] in edges;
    assert forall f :: f in edges[..k] ==> f in edges;
  }

  /** The smaller of the two distances, and nothing else changed: that is the table after the edge. */
  lemma RelaxedIs(d: map<Id, Distance>, after: map<Id, Distance>, unvisited: seq<Id>, minDist: real, e: Edge)
    requires e.to in unvisited ==> e.to in d
    requires after.Keys == d.Keys && forall v :: v in d && (v != e.to || v !in unvisited) ==> after[v] == d[v]
    requires e.to in unvisited ==>
               && (after[e.to] == d[e.to] || after[e.to] == Finite(minDist + e.weight))
               && !d[e.to].Less(after[e.to]) && !Finite(minDist + e.weight).Less(after[e.to])
    ensures after == AfterEdge(d, unvisited, minDist, e)
  {
  }

  /** One edge: a strictly shorter distance replaces the old one, for an unvisited target only. */
  method RelaxOne(distances: map<Id, Distance>, unvisited: seq<Id>, minDist: real,
          edge: Edge) returns (after: map<Id, Distance>)
    requires edge.to in unvisited ==> edge.to in distances
    ensures after.Keys == distances.Keys && forall v :: v in distances && v != edge.to ==> after[v] == distances[v]
    ensures edge.to in distances && edge.to !in unvisited ==> after[edge.to] == distances[edge.to]
    ensures edge.to in unvisited ==>
              && (after[edge.to] == distances[edge.to] || after[edge.to] == Finite(minDist + edge.weight))
              && !distances[edge.to].Less(after[edge.to]) && !Finite(minDist + edge.weight).Less(after[edge.to])
  {
    after := distances;
    if edge.to in unvisited {
      var newDist := minDist + edge.weight;
      if Finite(newDist).Less(distances[edge.to]) {
        after := distances[edge.to := Finite(newDist)];
      }
    }
  }

  /** Relaxes the edges of the node just visited, in order; only unvisited nodes get new distances. */
  method RelaxNeighbours(g: Graph, ghost start: Id, ghost visited: seq<Id>, unvisited: seq<Id>,
          distances: map<Id, Distance>, current: Id, minDist: real)
    returns (after: map<Id, Distance>)
    requires Split(g, visited, unvisited, distances)
    requires current in distances && distances[current] == Finite(minDist) && current in visited
    requires NonNegative(g) ==> Relaxing(g, start, visited, unvisited, distances, current, [])
    ensures OnlyUnvisited(g, visited, unvisited, distances, after)
    ensures NonNegative(g) ==> Invariant(g, start, visited, unvisited, after)
  {
    after := distances;
    var edges := Outgoing(g.edges, current);
    assert edges[..0] == [];
    for k := 0 to |edges|
      invariant OnlyUnvisited(g, visited, unvisited, distances, after)
      invariant NonNegative(g) ==> Relaxing(g, start, visited, unvisited, after, current, edges[..k])
    {
      hide Relaxing, OnlyUnvisited, NonNegative, Outgoing, Split, AfterEdge;
      var edge := edges[k];
      OutgoingPrefix(g, current, k);
      RelaxStep(g, start, visited, unvisited, distances, after, current, minDist, edges[..k], edge);
      ghost var before := after;
      after := RelaxOne(after, unvisited, minDist, edge);
      RelaxedIs(before, after, unvisited, minDist, edge);
    }
    assert edges[..|edges|] == edges;
    hide Relaxing, OnlyUnvisited, NonNegative, Outgoing, Split;
    if NonNegative(g) {
      RoundEnds(g, start, visited, unvisited, after, current);
    }
  }

  lemma SplitSettle(g: Graph, visited: seq<Id>, unvisited: seq<Id>, d: map<Id, Distance>, current: Id)
    requires Split(g, visited, unvisited, d) && current in unvisited
    ensures Split(g, visited + [current], Without(unvisited, current), d)
  {
  }

  lemma ConfirmedPush(settled: seq<(Id, real)>, visited: seq<Id>, d: map<Id, Distance>,
          d': map<Id, Distance>, current: Id, minDist: real)
    requires Confirmed(settled, visited, d) && current in d && d[current] == Finite(minDist)
    requires forall v :: v in visited + [current] ==> v in d' && v in d && d'[v] == d[v]
    ensures Confirmed(settled + [(current, minDist)], visited + [current], d')
  {
    var more, nodes := settled + [(current, minDist)], visited + [current];
    forall k | 0 <= k < |more|
      ensures more[k].0 == nodes[k] && nodes[k] in d' && d'[nodes[k]] == Finite(more[k].1)
    {
      assert nodes[k] in nodes;
    }
  }

  lemma AscendingPush(settled: seq<(Id, real)>, visited: seq<Id>, unvisited: seq<Id>,
          d: map<Id, Distance>, current: Id, minDist: real)
    requires Ascending(settled) && Confirmed(settled, visited, d) && Ordered(visited, unvisited, d)
    requires current in unvisited && current in d && d[current] == Finite(minDist)
    ensures Ascending(settled + [(current, minDist)])
  {
    forall i | 0 <= i < |settled|
      ensures settled[i].1 <= minDist
    {
      assert visited[i] in visited && !d[current].Less(d[visited[i]]);
    }
  }

  /** The distance table of an unlisted start node: nothing else is ever reached. */
  ghost predicate OnlyStart(g: Graph, start: Id, d: map<Id, Distance>) {
    d == (map n | n in g.nodes :: Infinity)[start := Finite(0.0)]
  }

  method DijkstraSteps(g: Graph, start: Id) returns (distances: map<Id, Distance>, visited: seq<Id>,
          ghost settled: seq<(Id, real)>)
    ensures Confirmed(settled, visited, distances)
    ensures NonNegative(g) && start in g.nodes ==> Exact(g, start, distances) && Ascending(settled)
    ensures NonNegative(g) && start in g.nodes ==> forall v :: v in visited <==> v in g.nodes && distances[v].Finite?
    ensures start !in g.nodes ==> visited == [] && OnlyStart(g, start, distances)
  {
    distances := map n | n in g.nodes :: Infinity;
    distances := distances[start := Finite(0.0)];
    visited, settled := [], [];
    var unvisited := Listed(g.nodes);
    Begins(g, start, distances);
    var stuck := false;
    while unvisited != [] && !stuck
      invariant Split(g, visited, unvisited, distances)
      invariant NonNegative(g) ==> Invariant(g, start, visited, unvisited, distances)
      invariant Confirmed(settled, visited, distances)
      invariant NonNegative(g) ==> Ascending(settled)
      invariant start !in g.nodes ==> visited == [] && OnlyStart(g, start, distances)
      invariant stuck ==> forall v :: v in unvisited ==> distances[v].Infinity?
      decreases |unvisited|, !stuck
    {
      hide Confirmed, Ascending, Invariant, Relaxing, IsPath, Exact;
      var current, minDist := PickNearest(unvisited, distances);
      if minDist.Infinity? {
        stuck := true;
        continue;
      }
      if NonNegative(g) {
        AscendingNow(g, start, visited, unvisited, distances, settled, current, minDist.value);
        Settle(g, start, visited, unvisited, distances, current);
      }
      SplitSettle(g, visited, unvisited, distances, current);
      unvisited := Without(unvisited, current);
      ghost var before := distances;
      distances := RelaxNeighbours(g, start, visited + [current], unvisited, distances, current, minDist.value);
      ConfirmedPush(settled, visited, before, distances, current, minDist.value);
      visited := visited + [current];
      settled := settled + [(current, minDist.value)];
    }
    if NonNegative(g) && start in g.nodes {
      EndIsExact(g, start, visited, unvisited, distances);
    }
  }

  lemma AscendingNow(g: Graph, start: Id, visited: seq<Id>, unvisited: seq<Id>,
          d: map<Id, Distance>, settled: seq<(Id, real)>, current: Id, minDist: real)
    requires Invariant(g, start, visited, unvisited, d) && Ascending(settled) && Confirmed(settled, visited, d)
    requires current in unvisited && current in d && d[current] == Finite(minDist)
    ensures Ascending(settled + [(current, minDist)])
  {
    AscendingPush(settled, visited, unvisited, d, current, minDist);
  }

  /** From an unlisted start the table is only right when no edge leads from the start to a listed node. */
  lemma UnlistedStartIff(g: Graph, start: Id, d: map<Id, Distance>)
    requires start !in g.nodes && OnlyStart(g, start, d)
    ensures Exact(g, start, d) <==> forall e :: e in g.edges && e.from == start ==> e.to !in g.nodes
  {
    if Exact(g, start, d) {
      forall e | e in g.edges && e.from == start
        ensures e.to !in g.nodes
      {
        assert [e][1..] == [];
        assert e.to in g.nodes ==> IsPath(g, [e], start, e.to);
      }
    } else {
      var v :| v in g.nodes && !Unreachable(g, start, v);
      var p: seq<Edge> :| IsPath(g, p, start, v);
      assert p[0] in g.edges && p[0].from == start && p[0].to in g.nodes;
    }
  }

  /** Where it goes wrong: the one edge from the unlisted start is never looked at. */
  lemma UnlistedStartFails()
    ensures var g := Graph(["b"], [Edge("a", "b", 1.0)]);
            && NonNegative(g) && "a" !in g.nodes && ShortestWeight(g, "a", "b", 1.0)
            && forall d :: OnlyStart(g, "a", d) ==> d["b"] == Infinity && !Exact(g, "a", d)
  {
    var e := Edge("a", "b", 1.0);
    var g := Graph(["b"], [e]);
    assert [e][1..] == [] && Weight([e]) == 1.0 + Weight([]);
    assert IsPath(g, [e], "a", "b");
    forall p | IsPath(g, p, "a", "b")
      ensures 1.0 <= Weight(p)
    {
      assert p[0] == e;
      WeightAtLeast(g, p[1..], "b", "b");
    }
    forall d | OnlyStart(g, "a", d)
      ensures !Exact(g, "a", d)
    {
      UnlistedStartIff(g, "a", d);
      assert e in g.edges && e.to in g.nodes;
    }
  }

  lemma {:induction false} WeightAtLeast(g: Graph, p: seq<Edge>, u: Id, v: Id)
    requires NonNegative(g) && IsPath(g, p, u, v)
    ensures Weight(p) >= 0.0
  {
    if p != [] {
      WeightAtLeast(g, p[1..], p[0].to, v);
    }
  }
}
