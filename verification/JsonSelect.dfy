/** What the segments of a path select, said without the functions that select it. */
module JsonSelect {
  import opened Basics
  import opened JsonPath

  // ---------- Comparisons ----------

  /** a comes before b: at the first difference, or as a proper beginning. */
  ghost predicate Precedes(a: string, b: string) {
    exists k :: DiffersAt(a, b, k)
  }

  predicate DiffersAt(a: string, b: string, k: int) {
    0 <= k <= |a| && k < |b| && a[..k] == b[..k] && (k < |a| ==> a[k] < b[k])
  }

  lemma {:induction false} StringLessIff(a: string, b: string)
    ensures StringLess(a, b) <==> Precedes(a, b)
  {
    if b == "" || a == "" {
      assert a == "" && b != "" ==> DiffersAt(a, b, 0);
    } else if a[0] == b[0] {
      StringLessIff(a[1..], b[1..]);
      if Precedes(a[1..], b[1..]) {
        var k :| DiffersAt(a[1..], b[1..], k);
        assert a[..k + 1] == [a[0]] + a[1..][..k] && b[..k + 1] == [b[0]] + b[1..][..k];
        assert DiffersAt(a, b, k + 1);
      }
      if Precedes(a, b) {
        var k :| DiffersAt(a, b, k);
        assert k > 0;
        assert a[1..][..k - 1] == a[..k][1..] && b[1..][..k - 1] == b[..k][1..];
        assert DiffersAt(a[1..], b[1..], k - 1);
      }
    } else {
      assert a[0] < b[0] ==> DiffersAt(a, b, 0);
      if Precedes(a, b) {
        var k :| DiffersAt(a, b, k);
        assert k > 0 ==> a[..k][0] == b[..k][0];
      }
    }
  }

  predicate SameScalar(a: Json, b: Json) {
    match (a, b)
    case (Null, Null) => true
    case (Bool(x), Bool(y)) => x == y
    case (Num(x), Num(y)) => x == y
    case (Str(x), Str(y)) => x == y
    case _ => false
  }

  /** a is below b in the order of numbers or of strings; other values are not ordered. */
  ghost predicate Below(a: Json, b: Json) {
    match (a, b)
    case (Num(x), Num(y)) => x < y
    case (Str(x), Str(y)) => Precedes(x, y)
    case _ => false
  }

  predicate Ordered(a: Json) {
    a.Num? || a.Str?
  }

  /** What a comparison asks of the value found and the literal. */
  ghost predicate Asks(op: Comparison, a: Json, b: Json) {
    match op
    case Eq => SameScalar(a, b)
    case Ne => !SameScalar(a, b)
    case Lt => Below(a, b)
    case Gt => Below(b, a)
    case Le => Below(a, b) || (Ordered(a) && SameScalar(a, b))
    case Ge => Below(b, a) || (Ordered(a) && SameScalar(a, b))
  }

  /** Of two different strings one precedes the other, and not both. */
  lemma {:induction false} StringsCompare(a: string, b: string)
    ensures StringLess(a, b) || StringLess(b, a) || a == b
    ensures !(StringLess(a, b) && StringLess(b, a)) && !StringLess(a, a)
  {
    if a != "" {
      StringsCompare(a[1..], if b == "" then "" else b[1..]);
      StringsCompare(a[1..], a[1..]);
      assert b != "" && a[0] == b[0] && a[1..] == b[1..] ==> a == b by {
        assert a == [a[0]] + a[1..];
        assert b != "" ==> b == [b[0]] + b[1..];
      }
    }
  }

  lemma AsksIff(path: seq<Part>, op: Comparison, literal: Json, value: Json)
    ensures Holds(Compare(path, op, literal), value) <==>
              Resolve(value, path).Some? && Asks(op, Resolve(value, path).value, literal)
  {
    hide Resolve, Precedes, StringLess;
    var found := Resolve(value, path);
    if found.Some? && found.value.Str? && literal.Str? {
      StringLessIff(found.value.text, literal.text);
      StringLessIff(literal.text, found.value.text);
      StringsCompare(found.value.text, literal.text);
    }
  }

  // ---------- Filters ----------

  /** The key by which one step of a filter's path leads on from a value: a name in a record, an index in an array. */
  ghost predicate StepFits(value: Json, part: Part, key: string) {
    if value.Obj? then key == part.key
    else value.Arr? && part.index.Some? && part.index.value >= 0 && key == Decimal(part.index.value)
  }

  /** The keys are those of the filter's path, from the value on. */
  ghost predicate Fits(value: Json, path: seq<Part>, keys: seq<string>) {
    |keys| == |path| && forall i :: 0 <= i < |keys| ==> FitsAt(value, path, keys, i)
  }

  ghost predicate FitsAt(value: Json, path: seq<Part>, keys: seq<string>, i: nat)
    requires i < |keys| == |path|
  {
    Follow(value, keys[..i]).Some? && StepFits(Follow(value, keys[..i]).value, path[i], keys[i])
  }

  /** The filter's path leads from value to found. */
  ghost predicate LeadsTo(value: Json, path: seq<Part>, found: Json) {
    exists keys :: Fits(value, path, keys) && Follow(value, keys) == Some(found)
  }

  /** What a filter asks of a child. */
  ghost predicate Satisfied(expr: FilterExpr, value: Json) {
    match expr
    case Exists(path) => exists found :: LeadsTo(value, path, found)
    case Compare(path, op, literal) => exists found :: LeadsTo(value, path, found) && Asks(op, found, literal)
  }

  /** A path followed from its front. */
  lemma {:induction false} FollowFirst(root: Json, key: string, path: seq<string>)
    ensures Follow(root, [key] + path) == if Step(root, key).None? then None else Follow(Step(root, key).value, path)
    decreases |path|
  {
    hide Step;
    if path == [] {
      assert [key] + path == [key] && [key][..0] == [];
    } else {
      var n := |path| - 1;
      assert ([key] + path)[..|path|] == [key] + path[..n];
      FollowFirst(root, key, path[..n]);
    }
  }

  lemma ItemStep(value: Json, m: nat)
    requires value.Arr?
    ensures Step(value, Decimal(m)) == if m < |value.items| then Some(value.items[m]) else None
  {
    hide Decimal;
    forall i | 0 <= i < |value.items| && Decimal(i) == Decimal(m)
      ensures i == m
    {
      DecimalInjective(i, m);
    }
  }

  /** One step of a path that fits. */
  lemma FitsFirst(value: Json, path: seq<Part>, keys: seq<string>)
    requires path != [] && keys != [] && |keys| == |path|
    ensures Fits(value, path, keys) && Follow(value, keys).Some? <==>
              && StepFits(value, path[0], keys[0]) && Step(value, keys[0]).Some?
              && Fits(Step(value, keys[0]).value, path[1..], keys[1..]) && Follow(Step(value, keys[0]).value, keys[1..]).Some?
    ensures Step(value, keys[0]).Some? ==> Follow(value, keys) == Follow(Step(value, keys[0]).value, keys[1..])
  {
    hide Step, StepFits, Follow;
    assert keys == [keys[0]] + keys[1..];
    FollowFirst(value, keys[0], keys[1..]);
    FollowNothing(value, keys);
    if Step(value, keys[0]).Some? {
      var child := Step(value, keys[0]).value;
      forall i | 0 <= i < |keys| - 1
        ensures FitsAt(child, path[1..], keys[1..], i) <==> FitsAt(value, path, keys, i + 1)
      {
        assert keys[..i + 1] == [keys[0]] + keys[1..][..i];
        FollowFirst(value, keys[0], keys[1..][..i]);
      }
      assert FitsAt(value, path, keys, 0) <==> StepFits(value, path[0], keys[0]);
      assert forall i :: 0 < i < |keys| ==> (FitsAt(value, path, keys, i) <==> FitsAt(child, path[1..], keys[1..], i - 1));
    }
  }

  lemma FollowNothing(value: Json, keys: seq<string>)
    ensures Follow(value, keys[..0]) == Some(value)
  {
  }

  /** The step resolvePath takes is the one that fits. */
  lemma ResolveFirst(value: Json, path: seq<Part>) returns (key: string)
    requires path != []
    ensures forall k :: StepFits(value, path[0], k) && Step(value, k).Some? ==> k == key
    ensures Resolve(value, path).Some? ==> StepFits(value, path[0], key) && Step(value, key).Some?
    ensures StepFits(value, path[0], key) && Step(value, key).Some? ==> Resolve(value, path) == Resolve(Step(value, key).value, path[1..])
  {
    var part := path[0];
    key := part.key;
    if value.Arr? && part.index.Some? && part.index.value >= 0 {
      ItemStep(value, part.index.value);
      key := Decimal(part.index.value);
    }
    hide Decimal;
  }

  lemma {:induction false} ResolveIff(value: Json, path: seq<Part>, found: Json)
    ensures Resolve(value, path) == Some(found) <==> LeadsTo(value, path, found)
    decreases |path|
  {
    hide Step, StepFits, Follow, Resolve;
    if path == [] {
      EmptyPath(value);
      assert LeadsTo(value, path, found) ==> value == found;
      assert value == found ==> Fits(value, path, []) && Follow(value, []) == Some(found);
    } else {
      var key := ResolveFirst(value, path);
      if Resolve(value, path) == Some(found) {
        var child := Step(value, key).value;
        ResolveIff(child, path[1..], found);
        var keys :| Fits(child, path[1..], keys) && Follow(child, keys) == Some(found);
        assert ([key] + keys)[1..] == keys;
        FitsFirst(value, path, [key] + keys);
        assert Fits(value, path, [key] + keys) && Follow(value, [key] + keys) == Some(found);
      }
      if LeadsTo(value, path, found) {
        var keys :| Fits(value, path, keys) && Follow(value, keys) == Some(found);
        FitsFirst(value, path, keys);
        var child := Step(value, keys[0]).value;
        assert LeadsTo(child, path[1..], found);
        ResolveIff(child, path[1..], found);
      }
    }
  }

  lemma EmptyPath(value: Json)
    ensures Resolve(value, []) == Some(value) == Follow(value, [])
  {
  }

  lemma HoldsIff(expr: FilterExpr, value: Json)
    ensures Holds(expr, value) <==> Satisfied(expr, value)
  {
    hide Resolve, LeadsTo, Asks;
    forall found
      ensures Resolve(value, expr.path) == Some(found) <==> LeadsTo(value, expr.path, found)
    {
      ResolveIff(value, expr.path, found);
    }
    if expr.Compare? {
      AsksIff(expr.path, expr.op, expr.literal, value);
    }
    hide Holds;
    if expr.Exists? {
      ExistsIff(expr.path, value);
    }
  }

  lemma ExistsIff(path: seq<Part>, value: Json)
    ensures Holds(Exists(path), value) <==> Resolve(value, path).Some?
  {
    hide Resolve;
  }

  /** The places of a list, in order. */
  predicate Ascending(ps: seq<nat>, n: nat) {
    (forall i :: 0 <= i < |ps| ==> ps[i] < n) && forall i, j :: 0 <= i < j < |ps| ==> ps[i] < ps[j]
  }

  /** kept are the nodes at the places ps, and those are the places of the nodes that satisfy the filter. */
  ghost predicate KeptAt(nodes: seq<Node>, kept: seq<Node>, ps: seq<nat>, expr: FilterExpr) {
    && Ascending(ps, |nodes|) && |ps| == |kept|
    && (forall m :: 0 <= m < |ps| ==> kept[m] == nodes[ps[m]])
    && (forall k :: 0 <= k < |nodes| ==> (k in ps <==> Satisfied(expr, nodes[k].value)))
  }

  lemma KeptPush(nodes: seq<Node>, kept: seq<Node>, ps: seq<nat>, expr: FilterExpr, n: Node)
    requires KeptAt(nodes, kept, ps, expr)
    ensures if Satisfied(expr, n.value) then KeptAt(nodes + [n], kept + [n], ps + [|nodes|], expr)
            else KeptAt(nodes + [n], kept, ps, expr)
  {
    hide Satisfied;
    assert |nodes| !in ps;
  }

  lemma {:induction false} FilteredPlaces(nodes: seq<Node>, expr: FilterExpr) returns (ps: seq<nat>)
    ensures KeptAt(nodes, Filtered(nodes, expr), ps, expr)
  {
    hide Holds, Satisfied;
    if nodes == [] {
      ps := [];
    } else {
      hide KeptAt;
      var n := |nodes| - 1;
      ps := FilteredPlaces(nodes[..n], expr);
      HoldsIff(expr, nodes[n].value);
      KeptPush(nodes[..n], Filtered(nodes[..n], expr), ps, expr, nodes[n]);
      assert nodes[..n] + [nodes[n]] == nodes;
      if Satisfied(expr, nodes[n].value) {
        ps := ps + [n];
      } else {
        assert Filtered(nodes[..n], expr) + [] == Filtered(nodes[..n], expr);
      }
    }
  }

  /** A filter keeps exactly the children that satisfy it, in their order and each once. */
  lemma FilterSelects(n: Node, expr: FilterExpr) returns (ps: seq<nat>)
    ensures KeptAt(Children(n), Apply(Filter(expr), n), ps, expr)
  {
    hide Children, Satisfied, Filtered, KeptAt;
    ps := FilteredPlaces(Children(n), expr);
  }

  // ---------- The last segment of a query ----------

  lemma {:induction false} LastStage(nodes: seq<Node>, segments: seq<Segment>, s: Segment)
    requires !s.Root?
    ensures Matches(nodes, segments).None? ==> Matches(nodes, segments + [s]).None?
    ensures Matches(nodes, segments).Some? ==>
              var mid := Matches(nodes, segments).value; var all := Stage(s, mid, |mid|);
              Matches(nodes, segments + [s]) == if |all| > MAX_RESULTS then None else Some(all)
    decreases |segments|
  {
    hide Stage;
    if segments == [] {
      assert segments + [s] == [s] && [s][1..] == [];
    } else {
      assert (segments + [s])[1..] == segments[1..] + [s];
      if segments[0].Root? {
        LastStage(nodes, segments[1..], s);
      } else {
        LastStage(Stage(segments[0], nodes, |nodes|), segments[1..], s);
      }
    }
  }

  lemma {:induction false} InStage(s: Segment, nodes: seq<Node>, k: nat, c: Node)
    requires k <= |nodes|
    ensures c in Stage(s, nodes, k) <==> exists m :: 0 <= m < k && c in Apply(s, nodes[m])
  {
    hide Apply;
    if k > 0 {
      InStage(s, nodes, k - 1, c);
    }
  }

  lemma {:induction false} StagePrefix(s: Segment, nodes: seq<Node>, more: seq<Node>, k: nat)
    requires k <= |nodes|
    ensures Stage(s, nodes + more, k) == Stage(s, nodes, k)
  {
    hide Apply;
    if k > 0 {
      StagePrefix(s, nodes, more, k - 1);
    }
  }

  /** What a segment selects from earlier nodes comes before what it selects from later ones. */
  lemma {:induction false} StageInOrder(s: Segment, nodes: seq<Node>, more: seq<Node>)
    ensures Stage(s, nodes + more, |nodes| + |more|) == Stage(s, nodes, |nodes|) + Stage(s, more, |more|)
    decreases |more|
  {
    hide Apply;
    if more == [] {
      assert nodes + more == nodes;
    } else {
      var n := |more| - 1;
      StageInOrder(s, nodes, more[..n]);
      assert nodes + more == (nodes + more[..n]) + [more[n]] && more == more[..n] + [more[n]];
      StagePrefix(s, nodes + more[..n], [more[n]], |nodes| + n);
      StagePrefix(s, more[..n], [more[n]], n);
    }
  }

  /** A query that ends in a filter: its matches are the satisfying children of what the query without it matches. */
  lemma FilterQuery(root: Json, segments: seq<Segment>, expr: FilterExpr, c: Node)
    requires Matches([Node(root, [])], segments + [Filter(expr)]).Some?
    ensures Matches([Node(root, [])], segments).Some?
    ensures c in Matches([Node(root, [])], segments + [Filter(expr)]).value <==>
              Satisfied(expr, c.value)
              && exists m :: m in Matches([Node(root, [])], segments).value && c in Children(m)
  {
    hide Matches, Stage, Children, Satisfied, Apply;
    LastStage([Node(root, [])], segments, Filter(expr));
    var mid := Matches([Node(root, [])], segments).value;
    InStage(Filter(expr), mid, |mid|, c);
    forall m | m in mid
      ensures c in Apply(Filter(expr), m) <==> c in Children(m) && Satisfied(expr, c.value)
    {
      InFilter(m, expr, c);
    }
  }

  lemma InFilter(n: Node, expr: FilterExpr, c: Node)
    ensures c in Apply(Filter(expr), n) <==> c in Children(n) && Satisfied(expr, c.value)
  {
    hide Children, Satisfied, Apply;
    var ps := FilterSelects(n, expr);
    var kept := Apply(Filter(expr), n);
    if c in kept {
      var m :| 0 <= m < |kept| && kept[m] == c;
      assert ps[m] in ps;
    }
    if c in Children(n) && Satisfied(expr, c.value) {
      var k :| 0 <= k < |Children(n)| && Children(n)[k] == c;
      var m :| 0 <= m < |ps| && ps[m] == k;
      assert kept[m] == c;
    }
  }

  // ---------- Names and indexes ----------

  /** A single name selects what following it leads to; arrays have no names. */
  lemma NameSelects(n: Node, name: string)
    ensures Apply(Child([name]), n) == if n.value.Obj? && Step(n.value, name).Some?
                                       then [Node(Step(n.value, name).value, n.path + [name])] else []
  {
    hide Property;
    assert [name][..0] == [];
    assert Named(n, []) == [];
    if n.value.Obj? && Step(n.value, name).Some? {
      var one := [Node(Step(n.value, name).value, n.path + [name])];
      assert [] + one == one;
    }
  }

  /** A single index selects what the slice of one element selects. */
  lemma IndexIsSlice(n: Node, i: int)
    ensures Apply(Index([i]), n) == Apply(Slice(Some(i), if i == -1 then None else Some(i + 1), 1), n)
  {
    hide ItemNode, Up;
    assert [i][..0] == [] && Indexed(n, []) == [];
    if n.value.Arr? {
      var length := |n.value.items|;
      var start := if i < 0 then i + length else i;
      var s := Slice(Some(i), if i == -1 then None else Some(i + 1), 1);
      assert SlicePositions(s, length) == Up(Max(start, 0), Min(start + 1, length), 1);
      if 0 <= start < length {
        OneUp(start);
        assert [] + [ItemNode(n, start)] == [ItemNode(n, start)];
      } else {
        NothingUp(Max(start, 0), Min(start + 1, length));
      }
    }
  }

  lemma OneUp(i: nat)
    ensures Up(i, i + 1, 1) == [i]
  {
  }

  lemma NothingUp(i: nat, end: int)
    requires end <= i
    ensures Up(i, end, 1) == []
  {
  }

  /** A union selects its parts in order, repeats included. */
  lemma {:induction false} UnionOfIndexes(n: Node, a: seq<int>, b: seq<int>)
    ensures Apply(Index(a + b), n) == Apply(Index(a), n) + Apply(Index(b), n)
    decreases |b|
  {
    hide ItemNode;
    if b == [] {
      assert a + b == a;
    } else {
      var k := |b| - 1;
      assert (a + b)[..|a + b| - 1] == a + b[..k];
      UnionOfIndexes(n, a, b[..k]);
    }
  }

  lemma {:induction false} UnionOfNames(n: Node, a: seq<string>, b: seq<string>)
    ensures Apply(Child(a + b), n) == Apply(Child(a), n) + Apply(Child(b), n)
    decreases |b|
  {
    hide Property;
    if b == [] {
      assert a + b == a;
    } else {
      var k := |b| - 1;
      assert (a + b)[..|a + b| - 1] == a + b[..k];
      UnionOfNames(n, a, b[..k]);
    }
  }

  // ---------- Recursive descent ----------

  /** The place of a descendant: which child to take at each level. */
  type Place = seq<nat>

  /** The node at a place below n. */
  function At(n: Node, place: Place): Option<Node>
    decreases |place|
  {
    if place == [] then Some(n)
    else if place[0] < |Children(n)| then At(Children(n)[place[0]], place[1..])
    else None
  }

  /** Document order: a node before what is below it, and what is below one child before the next child. */
  ghost predicate Earlier(p: Place, q: Place) {
    exists k :: PartAt(p, q, k)
  }

  predicate PartAt(p: Place, q: Place, k: int) {
    0 <= k <= |p| && k < |q| && p[..k] == q[..k] && (k < |p| ==> p[k] < q[k])
  }

  /** The walked nodes are those at the given places below n, which are in document order. */
  ghost predicate WalkedAt(n: Node, nodes: seq<Node>, places: seq<Place>) {
    && |places| == |nodes|
    && (forall m :: 0 <= m < |nodes| ==> At(n, places[m]) == Some(nodes[m]))
    && (forall l, m :: 0 <= l < m < |places| ==> Earlier(places[l], places[m]))
  }

  function Under(k: nat, places: seq<Place>): (r: seq<Place>)
    ensures |r| == |places| && forall m :: 0 <= m < |r| ==> r[m] == [k] + places[m]
  {
    seq(|places|, m requires 0 <= m < |places| => [k] + places[m])
  }

  lemma EarlierUnder(k: nat, p: Place, q: Place)
    requires Earlier(p, q)
    ensures Earlier([k] + p, [k] + q)
  {
    var i :| PartAt(p, q, i);
    assert ([k] + p)[..i + 1] == [k] + p[..i] && ([k] + q)[..i + 1] == [k] + q[..i];
    assert PartAt([k] + p, [k] + q, i + 1);
  }

  lemma EarlierChild(p: Place, j: nat, k: nat, q: Place)
    ensures Earlier([], [k] + q)
    ensures j < k ==> Earlier([j] + p, [k] + q)
  {
    assert PartAt([], [k] + q, 0);
    assert j < k ==> PartAt([j] + p, [k] + q, 0);
  }

  lemma AtUnder(n: Node, k: nat, place: Place)
    requires k < |Children(n)|
    ensures At(n, [k] + place) == At(Children(n)[k], place)
  {
    hide Children;
    assert ([k] + place)[1..] == place;
  }

  /** The places under the first k children. */
  ghost predicate UnderFirst(n: Node, k: nat, places: seq<Place>) {
    && (forall m :: 0 <= m < |places| ==> places[m] != [] && places[m][0] < k)
    && (forall p: Place :: p != [] && p[0] < k && At(n, p).Some? ==> p in places)
  }

  lemma PlacesPush(n: Node, k: nat, nodes: seq<Node>, places: seq<Place>, below: seq<Node>, more: seq<Place>)
    requires k < |Children(n)| && WalkedAt(n, nodes, places) && UnderFirst(n, k, places)
    requires WalkedAt(Children(n)[k], below, more) && forall p: Place :: At(Children(n)[k], p).Some? ==> p in more
    ensures WalkedAt(n, nodes + below, places + Under(k, more)) && UnderFirst(n, k + 1, places + Under(k, more))
  {
    hide Children, Earlier, At;
    var all := places + Under(k, more);
    forall m | 0 <= m < |all|
      ensures At(n, all[m]) == Some((nodes + below)[m])
    {
      if m >= |places| {
        AtUnder(n, k, more[m - |places|]);
      }
    }
    forall l, m | 0 <= l < m < |all|
      ensures Earlier(all[l], all[m])
    {
      if l >= |places| {
        EarlierUnder(k, more[l - |places|], more[m - |places|]);
      } else if m >= |places| {
        assert all[l] == [all[l][0]] + all[l][1..];
        EarlierChild(all[l][1..], all[l][0], k, more[m - |places|]);
      }
    }
    forall p: Place | p != [] && p[0] < k + 1 && At(n, p).Some?
      ensures p in all
    {
      if p[0] == k {
        assert p == [k] + p[1..];
        AtUnder(n, k, p[1..]);
        var m :| 0 <= m < |more| && more[m] == p[1..];
        assert all[|places| + m] == p;
      } else {
        assert p in places;
      }
    }
  }

  lemma NothingUnder(n: Node)
    ensures WalkedAt(n, [], []) && UnderFirst(n, 0, [])
  {
  }

  lemma {:induction false} WalkedAllPlaces(n: Node, k: nat) returns (places: seq<Place>)
    requires k <= |Children(n)|
    ensures WalkedAt(n, WalkedAll(n, k), places) && UnderFirst(n, k, places)
    decreases n.value, 0, k
  {
    hide WalkedAt, UnderFirst, Children, At, Earlier, Walked;
    if k == 0 {
      places := [];
      NothingUnder(n);
    } else {
      places := WalkedAllPlaces(n, k - 1);
      var more := WalkedPlaces(Children(n)[k - 1]);
      PlacesPush(n, k - 1, WalkedAll(n, k - 1), places, Walked(Children(n)[k - 1]), more);
      places := places + Under(k - 1, more);
    }
  }

  /** Recursive descent walks every place below a node once, in document order. */
  lemma {:induction false} WalkedPlaces(n: Node) returns (places: seq<Place>)
    ensures WalkedAt(n, Walked(n), places)
    ensures forall p: Place :: At(n, p).Some? ==> p in places
    decreases n.value, 1, 0
  {
    hide Children, Earlier, WalkedAll;
    var under := WalkedAllPlaces(n, |Children(n)|);
    places := [[]] + under;
    forall m | 0 < m < |places|
      ensures Earlier([], places[m])
    {
      assert places[m] == [places[m][0]] + places[m][1..];
      EarlierChild([], 0, places[m][0], places[m][1..]);
    }
  }

  lemma {:induction false} CollectedIs(nodes: seq<Node>, name: string, k: nat)
    requires k <= |nodes|
    ensures Collected(nodes[..k], None) == nodes[..k] && Collected(nodes[..k], Some(name)) == Stage(Child([name]), nodes, k)
  {
    hide Named;
    if k > 0 {
      CollectedIs(nodes, name, k - 1);
      assert nodes[..k][..k - 1] == nodes[..k - 1] && nodes[..k] == nodes[..k - 1] + [nodes[k - 1]];
    }
  }

  /** Descent to a name selects the name in each of the nodes walked. */
  lemma DescendSelects(n: Node, name: string)
    ensures Apply(Descend(None), n) == Walked(n)
    ensures Apply(Descend(Some(name)), n) == Stage(Child([name]), Walked(n), |Walked(n)|)
  {
    hide Walked, Collected;
    CollectedIs(Walked(n), name, |Walked(n)|);
    assert Walked(n)[..|Walked(n)|] == Walked(n);
  }
}
