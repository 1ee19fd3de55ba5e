/** Directed graphs as the visualisers receive them: listed nodes and weighted edges, in order. */
module Graphs {

  type Id = string

  datatype Edge = Edge(from: Id, to: Id, weight: real)

  datatype Graph = Graph(nodes: seq<Id>, edges: seq<Edge>)

  /** The edges leaving n, in order. */
  function Outgoing(edges: seq<Edge>, n: Id): (r: seq<Edge>)
    ensures forall e :: e in r <==> e in edges && e.from == n
  {
    if edges == [] then []
    else
      assert forall e :: e in edges <==> e == edges[0] || e in edges[1..];
      (if edges[0].from == n then [edges[0]] else []) + Outgoing(edges[1..], n)
  }

  /** The targets of the edges leaving n, in order, repeats included. */
  function Successors(edges: seq<Edge>, n: Id): (r: seq<Id>)
    ensures forall v :: v in r <==> exists e :: e in edges && e.from == n && e.to == v
  {
    if edges == [] then []
    else
      assert forall e :: e in edges <==> e == edges[0] || e in edges[1..];
      (if edges[0].from == n then [edges[0].to] else []) + Successors(edges[1..], n)
  }

  // ---------- Traversals ----------

  /** Every node a traversal from `start` can name. */
  function Universe(g: Graph, start: Id): (r: set<Id>)
    ensures start in r && forall n, v :: v in Successors(g.edges, n) ==> v in r
  {
    {start} + set e | e in g.edges :: e.to
  }

  function Unseen(all: set<Id>, visited: seq<Id>): (r: set<Id>) {
    all - set v | v in visited
  }

  predicate Within(nodes: seq<Id>, all: set<Id>) {
    forall v :: v in nodes ==> v in all
  }

  ghost predicate Closed(g: Graph, all: set<Id>) {
    forall n, v :: v in Successors(g.edges, n) ==> v in all
  }

  lemma UnseenShrinks(all: set<Id>, visited: seq<Id>, n: Id)
    requires n in all && n !in visited
    ensures |Unseen(all, visited + [n])| < |Unseen(all, visited)|
  {
    assert Unseen(all, visited) == Unseen(all, visited + [n]) + {n};
  }

  lemma UnseenMonotone(all: set<Id>, visited: seq<Id>, more: seq<Id>)
    requires visited <= more
    ensures |Unseen(all, more)| <= |Unseen(all, visited)|
  {
    assert forall v :: v in visited ==> v in more;
    assert Unseen(all, visited) == Unseen(all, more) + (Unseen(all, visited) - Unseen(all, more));
  }

  datatype Choice = Nobody | Chosen(node: Id)

  /** The first of the nodes that has not been visited. */
  function FirstUnseen(nodes: seq<Id>, visited: seq<Id>): Choice {
    if nodes == [] then Nobody else if nodes[0] !in visited then Chosen(nodes[0]) else FirstUnseen(nodes[1..], visited)
  }

  lemma {:induction false} NothingUnseen(nodes: seq<Id>, visited: seq<Id>)
    requires forall v :: v in nodes ==> v in visited
    ensures FirstUnseen(nodes, visited) == Nobody
  {
    if nodes != [] {
      NothingUnseen(nodes[1..], visited);
    }
  }

  lemma {:induction false} UnseenAt(nodes: seq<Id>, visited: seq<Id>, k: nat)
    requires k < |nodes| && nodes[k] !in visited && forall m :: 0 <= m < k ==> nodes[m] in visited
    ensures FirstUnseen(nodes, visited) == Chosen(nodes[k])
    decreases |nodes|
  {
    if k > 0 {
      UnseenAt(nodes[1..], visited, k - 1);
    }
  }

  /** There is a chain of edges from u to v. */
  ghost predicate Reaches(g: Graph, u: Id, v: Id, chain: seq<Id>)
    decreases |chain|
  {
    if chain == [] then u == v
    else chain[0] in Successors(g.edges, u) && Reaches(g, chain[0], v, chain[1..])
  }

  ghost predicate Reachable(g: Graph, u: Id, v: Id) {
    exists chain :: Reaches(g, u, v, chain)
  }

  lemma {:induction false} ReachOn(g: Graph, u: Id, v: Id, chain: seq<Id>, w: Id)
    requires Reaches(g, u, v, chain) && w in Successors(g.edges, v)
    ensures Reaches(g, u, w, chain + [w])
    decreases |chain|
  {
    if chain == [] {
      assert [w][1..] == [] && chain + [w] == [w];
    } else {
      assert (chain + [w])[1..] == chain[1..] + [w];
      ReachOn(g, chain[0], v, chain[1..], w);
    }
  }

  predicate NoRepeats(s: seq<Id>) {
    forall i, j :: 0 <= i < j < |s| ==> s[i] != s[j]
  }
}
