/** Depth-first traversal with an explicit stack, against the recursive one. */
module Dfs {
  import opened Graphs
  import opened Basics

  // ---------- The recursive traversal ----------

  /** Visits n unless it has been visited, then each successor in edge order; the result lists all visited nodes. */
  function Visit(g: Graph, all: set<Id>, n: Id, visited: seq<Id>): (r: seq<Id>)
    requires n in all && Closed(g, all)
    ensures visited <= r
    decreases |Unseen(all, visited)|, 1, 0
  {
    if n in visited then visited
    else
      UnseenShrinks(all, visited, n);
      VisitAll(g, all, Successors(g.edges, n), visited + [n])
  }

  function VisitAll(g: Graph, all: set<Id>, todo: seq<Id>, visited: seq<Id>): (r: seq<Id>)
    requires Within(todo, all) && Closed(g, all)
    ensures visited <= r
    decreases |Unseen(all, visited)|, 2, |todo|
  {
    if todo == [] then visited
    else
      var r := Visit(g, all, todo[0], visited);
      UnseenMonotone(all, visited, r);
      VisitAll(g, all, todo[1..], r)
  }

  /** The preorder of the recursive depth-first search. */
  function Preorder(g: Graph, start: Id): seq<Id> {
    Visit(g, Universe(g, start), start, [])
  }

  // ---------- How a to-do list is worked off ----------

  /** One step of working off a to-do list. */
  lemma VisitAllStep(g: Graph, all: set<Id>, todo: seq<Id>, visited: seq<Id>)
    requires todo != [] && Within(todo, all) && Closed(g, all)
    ensures todo[0] in visited ==> VisitAll(g, all, todo, visited) == VisitAll(g, all, todo[1..], visited)
    ensures todo[0] !in visited ==>
              var next := VisitAll(g, all, Successors(g.edges, todo[0]), visited + [todo[0]]);
              visited <= next && VisitAll(g, all, todo, visited) == VisitAll(g, all, todo[1..], next)
  {
  }

  lemma VisitAllNothing(g: Graph, all: set<Id>, visited: seq<Id>)
    requires Closed(g, all)
    ensures VisitAll(g, all, [], visited) == visited
  {
  }

  lemma {:induction false} VisitAllAppend(g: Graph, all: set<Id>, s: seq<Id>, t: seq<Id>, visited: seq<Id>)
    requires Within(s, all) && Within(t, all) && Closed(g, all)
    ensures Within(s + t, all)
    ensures VisitAll(g, all, s + t, visited) == VisitAll(g, all, t, VisitAll(g, all, s, visited))
    decreases |s|
  {
    if s == [] {
      assert s + t == t;
    } else {
      assert (s + t)[1..] == s[1..] + t;
      VisitAllAppend(g, all, s[1..], t, Visit(g, all, s[0], visited));
    }
  }

  function NotIn(nodes: seq<Id>, visited: seq<Id>): (r: seq<Id>)
    ensures forall v :: v in r ==> v in nodes
  {
    if nodes == [] then [] else (if nodes[0] in visited then [] else [nodes[0]]) + NotIn(nodes[1..], visited)
  }

  /** Leaving out nodes that are already visited changes nothing, also later, when more have been visited. */
  lemma {:induction false} FilterIsHarmless(g: Graph, all: set<Id>, nodes: seq<Id>, early: seq<Id>, visited: seq<Id>)
    requires Within(nodes, all) && Closed(g, all) && forall v :: v in early ==> v in visited
    ensures VisitAll(g, all, NotIn(nodes, early), visited) == VisitAll(g, all, nodes, visited)
    decreases |nodes|
  {
    hide VisitAll;
    if nodes != [] {
      var kept := NotIn(nodes, early);
      VisitAllStep(g, all, nodes, visited);
      if nodes[0] in early {
        assert kept == NotIn(nodes[1..], early);
        FilterIsHarmless(g, all, nodes[1..], early, visited);
      } else {
        assert kept[1..] == NotIn(nodes[1..], early);
        VisitAllStep(g, all, kept, visited);
        var next := if nodes[0] in visited then visited else VisitAll(g, all, Successors(g.edges, nodes[0]), visited + [nodes[0]]);
        FilterIsHarmless(g, all, nodes[1..], early, next);
      }
    }
  }

  lemma ReversedWithin(s: seq<Id>, all: set<Id>)
    requires Within(s, all)
    ensures Within(Reversed(s), all)
  {
    forall v | v in Reversed(s)
      ensures v in all
    {
      var i :| 0 <= i < |s| && Reversed(s)[i] == v;
      assert s[|s| - 1 - i] in s;
    }
  }

  // ---------- The explicit stack ----------

  /** What the stack still stands for: working off its nodes from the top gives the final visiting order. */
  ghost predicate Pending(g: Graph, all: set<Id>, stack: seq<Id>, visited: seq<Id>, order: seq<Id>)
  {
    && Within(stack, all) && Within(Reversed(stack), all) && Closed(g, all)
    && VisitAll(g, all, Reversed(stack), visited) == order
  }

  lemma PopSkips(g: Graph, all: set<Id>, stack: seq<Id>, visited: seq<Id>, order: seq<Id>)
    requires stack != [] && Pending(g, all, stack, visited, order) && stack[|stack| - 1] in visited
    ensures Pending(g, all, stack[..|stack| - 1], visited, order)
  {
    hide VisitAll;
    var n := |stack| - 1;
    VisitAllStep(g, all, Reversed(stack), visited);
    assert Reversed(stack)[1..] == Reversed(stack[..n]);
  }

  lemma PopVisits(g: Graph, all: set<Id>, stack: seq<Id>, visited: seq<Id>, order: seq<Id>, pushed: seq<Id>)
    requires stack != [] && Pending(g, all, stack, visited, order) && stack[|stack| - 1] !in visited
    requires var curr := stack[|stack| - 1]; pushed == NotIn(Successors(g.edges, curr), visited + [curr])
    ensures var curr := stack[|stack| - 1];
            Pending(g, all, stack[..|stack| - 1] + Reversed(pushed), visited + [curr], order)
  {
    hide VisitAll;
    var n := |stack| - 1;
    var curr := stack[n];
    var rest, next := stack[..n], visited + [curr];
    var succ := Successors(g.edges, curr);
    VisitAllStep(g, all, Reversed(stack), visited);
    assert Reversed(stack)[1..] == Reversed(rest);
    assert Reversed(rest + Reversed(pushed)) == pushed + Reversed(rest);
    ReversedWithin(rest, all);
    ReversedWithin(pushed, all);
    FilterIsHarmless(g, all, succ, next, next);
    VisitAllAppend(g, all, pushed, Reversed(rest), next);
  }

  lemma StackBegins(g: Graph, start: Id)
    ensures Pending(g, Universe(g, start), [start], [], Preorder(g, start))
  {
    var all := Universe(g, start);
    assert Reversed([start]) == [start] && [start][1..] == [];
    PreorderIsList(g, start);
  }

  lemma PreorderIsList(g: Graph, start: Id)
    ensures Preorder(g, start) == VisitAll(g, Universe(g, start), [start], [])
  {
    var all, r := Universe(g, start), Preorder(g, start);
    assert [start][1..] == [];
    VisitAllNothing(g, all, r);
    VisitAllStep(g, all, [start], []);
  }

  lemma StackEnds(g: Graph, all: set<Id>, visited: seq<Id>, order: seq<Id>)
    requires Pending(g, all, [], visited, order)
    ensures visited == order
  {
  }

  /** Pushes the nodes in reverse, so that the first one listed ends on top. */
  method PushReversed(stack: seq<Id>, neighbours: seq<Id>) returns (r: seq<Id>)
    ensures r == stack + Reversed(neighbours)
  {
    r := stack;
    var i := |neighbours| - 1;
    while i >= 0
      invariant -1 <= i < |neighbours|
      invariant r == stack + Reversed(neighbours)[..|neighbours| - 1 - i]
    {
      assert Reversed(neighbours)[..|neighbours| - i] == Reversed(neighbours)[..|neighbours| - 1 - i] + [neighbours[i]];
      r := r + [neighbours[i]];
      i := i - 1;
    }
    assert Reversed(neighbours)[..|neighbours|] == Reversed(neighbours);
  }

  lemma TopWithin(g: Graph, all: set<Id>, stack: seq<Id>, visited: seq<Id>, order: seq<Id>)
    requires stack != [] && Pending(g, all, stack, visited, order)
    ensures stack[|stack| - 1] in all
  {
  }

  /** The explicit stack, with reversed pushes and skipping on pop, visits in exactly the recursive preorder. */
  method DfsSteps(g: Graph, start: Id) returns (visited: seq<Id>)
    ensures visited == Preorder(g, start)
  {
    hide Pending, Preorder, NotIn, Unseen, Reversed;
    ghost var all := Universe(g, start);
    ghost var order := Preorder(g, start);
    visited := [];
    var stack := [start];
    StackBegins(g, start);
    while stack != []
      invariant Pending(g, all, stack, visited, order)
      decreases |Unseen(all, visited)|, |stack|
    {
      var curr := stack[|stack| - 1];
      TopWithin(g, all, stack, visited, order);
      if curr in visited {
        PopSkips(g, all, stack, visited, order);
        stack := stack[..|stack| - 1];
        continue;
      }
      UnseenShrinks(all, visited, curr);
      var neighbours := NotIn(Successors(g.edges, curr), visited + [curr]);
      PopVisits(g, all, stack, visited, order, neighbours);
      stack := stack[..|stack| - 1];
      visited := visited + [curr];
      stack := PushReversed(stack, neighbours);
    }
    StackEnds(g, all, visited, order);
  }

  // ---------- What is visited ----------

  /** Every successor of a node added to `before` by the traversal is in `after`. */
  ghost predicate Expanded(g: Graph, before: seq<Id>, after: seq<Id>) {
    forall v, w :: v in after && v !in before && w in Successors(g.edges, v) ==> w in after
  }

  ghost predicate AllReachable(g: Graph, start: Id, nodes: seq<Id>) {
    forall v :: v in nodes ==> Reachable(g, start, v)
  }

  lemma ExpandedTwice(g: Graph, a: seq<Id>, b: seq<Id>, c: seq<Id>, n: Id)
    requires Expanded(g, a + [n], b) && Expanded(g, b, c) && b <= c && forall w :: w in Successors(g.edges, n) ==> w in b
    ensures Expanded(g, a, c)
  {
    assert forall v :: v in b ==> v in c;
  }

  lemma SuccessorsReachable(g: Graph, start: Id, n: Id)
    requires Reachable(g, start, n)
    ensures AllReachable(g, start, Successors(g.edges, n))
  {
    forall w | w in Successors(g.edges, n)
      ensures Reachable(g, start, w)
    {
      var chain :| Reaches(g, start, n, chain);
      ReachOn(g, start, n, chain, w);
    }
  }

  /** The nodes of todo are visited, and so is every successor of a newly visited node; nothing is visited twice. */
  lemma {:induction false} VisitCovers(g: Graph, all: set<Id>, todo: seq<Id>, visited: seq<Id>)
    requires Within(todo, all) && Closed(g, all) && NoRepeats(visited)
    ensures var r := VisitAll(g, all, todo, visited); NoRepeats(r) && Expanded(g, visited, r) && forall v :: v in todo ==> v in r
    decreases |Unseen(all, visited)|, |todo|
  {
    hide VisitAll, Unseen;
    if todo == [] {
      VisitAllNothing(g, all, visited);
    } else {
      var n := todo[0];
      VisitAllStep(g, all, todo, visited);
      if n in visited {
        VisitCovers(g, all, todo[1..], visited);
      } else {
        var succ, next := Successors(g.edges, n), visited + [n];
        UnseenShrinks(all, visited, n);
        VisitCovers(g, all, succ, next);
        var r := VisitAll(g, all, succ, next);
        UnseenMonotone(all, next, r);
        VisitCovers(g, all, todo[1..], r);
        var last := VisitAll(g, all, todo[1..], r);
        ExpandedTwice(g, visited, r, last, n);
        assert last[|visited|] == r[|visited|] == next[|visited|] == n;
      }
    }
  }

  /** Nothing is visited without being reachable. */
  lemma {:induction false} VisitReachable(g: Graph, all: set<Id>, start: Id, todo: seq<Id>, visited: seq<Id>)
    requires Within(todo, all) && Closed(g, all)
    requires AllReachable(g, start, todo) && AllReachable(g, start, visited)
    ensures AllReachable(g, start, VisitAll(g, all, todo, visited))
    decreases |Unseen(all, visited)|, |todo|
  {
    hide VisitAll, Reachable, Unseen;
    if todo == [] {
      VisitAllNothing(g, all, visited);
    } else {
      var n := todo[0];
      VisitAllStep(g, all, todo, visited);
      if n in visited {
        VisitReachable(g, all, start, todo[1..], visited);
      } else {
        var succ, next := Successors(g.edges, n), visited + [n];
        UnseenShrinks(all, visited, n);
        SuccessorsReachable(g, start, n);
        VisitReachable(g, all, start, succ, next);
        var r := VisitAll(g, all, succ, next);
        UnseenMonotone(all, next, r);
        VisitReachable(g, all, start, todo[1..], r);
      }
    }
  }

  lemma {:induction false} ChainStaysInside(g: Graph, inside: seq<Id>, u: Id, v: Id, chain: seq<Id>)
    requires u in inside && forall x, w :: x in inside && w in Successors(g.edges, x) ==> w in inside
    requires Reaches(g, u, v, chain)
    ensures v in inside
    decreases |chain|
  {
    if chain != [] {
      ChainStaysInside(g, inside, chain[0], v, chain[1..]);
    }
  }

  /** The traversal visits exactly the nodes reachable from the start, each once. */
  lemma PreorderIsReachable(g: Graph, start: Id)
    ensures NoRepeats(Preorder(g, start))
    ensures forall v :: v in Preorder(g, start) <==> Reachable(g, start, v)
  {
    var all, r := Universe(g, start), Preorder(g, start);
    assert Reaches(g, start, start, []);
    PreorderIsList(g, start);
    VisitCovers(g, all, [start], []);
    VisitReachable(g, all, start, [start], []);
    assert start in [start];
    forall v | Reachable(g, start, v)
      ensures v in r
    {
      var chain :| Reaches(g, start, v, chain);
      ChainStaysInside(g, r, start, v, chain);
    }
  }

  // ---------- In which order ----------

  /** Of the visited nodes back to position base, the latest that has a successor not yet visited names the first such one. */
  function Latest(g: Graph, visited: seq<Id>, base: nat, j: nat): Choice
    requires base <= j <= |visited|
    decreases j
  {
    if j == base then Nobody
    else
      var next := FirstUnseen(Successors(g.edges, visited[j - 1]), visited);
      if next.Chosen? then next else Latest(g, visited, base, j - 1)
  }

  /** The node a depth-first search goes to next: called for by the latest node possible, or else by the to-do list. */
  function NextNode(g: Graph, todo: seq<Id>, visited: seq<Id>, base: nat): Choice
    requires base <= |visited|
  {
    var next := Latest(g, visited, base, |visited|);
    if next.Chosen? then next else FirstUnseen(todo, visited)
  }

  /** Where the base is moved down over one node, that node is asked last. */
  lemma {:induction false} LatestBase(g: Graph, visited: seq<Id>, base: nat, j: nat)
    requires base < j <= |visited|
    ensures Latest(g, visited, base, j) ==
              (var next := Latest(g, visited, base + 1, j);
               if next.Chosen? then next else FirstUnseen(Successors(g.edges, visited[base]), visited))
    decreases j
  {
    if j > base + 1 {
      LatestBase(g, visited, base, j - 1);
    }
  }

  /** Nodes whose successors have all been visited call for nothing. */
  lemma {:induction false} LatestSkips(g: Graph, visited: seq<Id>, base: nat, from: nat, j: nat)
    requires base <= from <= j <= |visited|
    requires forall m, w :: base <= m < from && w in Successors(g.edges, visited[m]) ==> w in visited
    ensures Latest(g, visited, base, j) == Latest(g, visited, from, j)
    decreases j
  {
    if j > from {
      LatestSkips(g, visited, base, from, j - 1);
    } else if j > base {
      NothingUnseen(Successors(g.edges, visited[j - 1]), visited);
      LatestSkips(g, visited, base, j - 1, j - 1);
    }
  }

  /** Each node the traversal adds is the one called for. */
  lemma {:induction false} VisitsNext(g: Graph, all: set<Id>, todo: seq<Id>, visited: seq<Id>, k: nat)
    requires Within(todo, all) && Closed(g, all) && NoRepeats(visited)
    requires |visited| <= k < |VisitAll(g, all, todo, visited)|
    ensures var r := VisitAll(g, all, todo, visited); NextNode(g, todo, r[..k], |visited|) == Chosen(r[k])
    decreases |Unseen(all, visited)|, |todo|
  {
    hide VisitAll, Unseen, Latest;
    if todo == [] {
      VisitAllNothing(g, all, visited);
    } else {
      var n, r, base := todo[0], VisitAll(g, all, todo, visited), |visited|;
      VisitAllStep(g, all, todo, visited);
      if n in visited {
        VisitsNext(g, all, todo[1..], visited, k);
        assert n in r[..k] by { assert r[..k][..base] == visited; }
      } else {
        VisitsNew(g, all, todo, visited, k);
      }
    }
  }

  lemma {:induction false} VisitsNew(g: Graph, all: set<Id>, todo: seq<Id>, visited: seq<Id>, k: nat)
    requires todo != [] && todo[0] !in visited && Within(todo, all) && Closed(g, all) && NoRepeats(visited)
    requires |visited| <= k < |VisitAll(g, all, todo, visited)|
    ensures var r := VisitAll(g, all, todo, visited); NextNode(g, todo, r[..k], |visited|) == Chosen(r[k])
    decreases |Unseen(all, visited)|, |todo|, 0
  {
    hide VisitAll, Unseen, Latest;
    var n, r, base := todo[0], VisitAll(g, all, todo, visited), |visited|;
    var succ, next := Successors(g.edges, n), visited + [n];
    VisitAllStep(g, all, todo, visited);
    UnseenShrinks(all, visited, n);
    var deep := VisitAll(g, all, succ, next);
    assert r[..|deep|] == deep;
    if k == base {
      assert r[..k] == visited && r[k] == n by { assert deep[..base + 1] == next; }
      LatestNothing(g, visited);
    } else if k < |deep| {
      VisitsNext(g, all, succ, next, k);
      assert r[..k] == deep[..k] && r[k] == deep[k] && r[base] == n;
      LatestBase(g, r[..k], base, k);
    } else {
      UnseenMonotone(all, next, deep);
      DeepIsDone(g, all, succ, next, n);
      VisitsNext(g, all, todo[1..], deep, k);
      forall m, w | base <= m < |deep| && w in Successors(g.edges, r[..k][m])
        ensures w in r[..k]
      {
        assert r[..k][m] == deep[m] && w in deep;
        assert r[..k][..|deep|] == deep;
      }
      LatestSkips(g, r[..k], base, |deep|, k);
      assert n in r[..k] by { assert r[..k][base] == n; }
    }
  }

  lemma LatestNothing(g: Graph, visited: seq<Id>)
    ensures Latest(g, visited, |visited|, |visited|) == Nobody
  {
  }

  /** Once the successors of n have been worked off, n and what was added under it have no successor left. */
  lemma DeepIsDone(g: Graph, all: set<Id>, succ: seq<Id>, next: seq<Id>, n: Id)
    requires succ == Successors(g.edges, n) && next != [] && next[|next| - 1] == n && NoRepeats(next)
    requires Within(succ, all) && Closed(g, all)
    ensures var deep := VisitAll(g, all, succ, next);
            NoRepeats(deep) && forall m, w :: |next| - 1 <= m < |deep| && w in Successors(g.edges, deep[m]) ==> w in deep
  {
    hide VisitAll;
    var deep := VisitAll(g, all, succ, next);
    VisitCovers(g, all, succ, next);
    forall m, w | |next| - 1 <= m < |deep| && w in Successors(g.edges, deep[m])
      ensures w in deep
    {
      if m >= |next| {
        assert deep[m] !in next by {
          forall l | 0 <= l < |next|
            ensures next[l] != deep[m]
          {
            assert next[l] == deep[l];
          }
        }
      } else {
        assert deep[m] == next[m] == n;
      }
    }
  }

  /** The order of the traversal: first the start, then each time the first unvisited successor of the latest node
      that has one. */
  lemma PreorderIsDepthFirst(g: Graph, start: Id, k: nat)
    requires k < |Preorder(g, start)|
    ensures var r := Preorder(g, start);
            && r[0] == start
            && (k > 0 ==> Latest(g, r[..k], 0, k) == Chosen(r[k]))
  {
    hide VisitAll, Unseen, Latest, Preorder;
    var all, r := Universe(g, start), Preorder(g, start);
    PreorderIsList(g, start);
    VisitsNext(g, all, [start], [], 0);
    LatestNothing(g, []);
    assert r[..0] == [] && FirstUnseen([start], []) == Chosen(start);
    VisitsNext(g, all, [start], [], k);
    if k > 0 {
      assert start in r[..k] by { assert r[..k][0] == start; }
      NothingUnseen([start], r[..k]);
    }
  }
}
