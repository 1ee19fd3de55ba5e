/** JSONPath evaluation: every match carries the path that leads to it, and slices select what RFC 9535 says. */
module JsonPath {
  import opened Basics
  import Primes

  datatype Json = Null | Bool(truth: bool) | Num(number: real) | Str(text: string) | Arr(items: seq<Json>) | Obj(fields: seq<Field>)

  datatype Field = Field(key: string, value: Json)

  datatype Node = Node(value: Json, path: seq<string>)

  /** A step of a filter's path, with the integer it denotes as an array index, if any. */
  datatype Part = Part(key: string, index: Option<int>)

  datatype Comparison = Eq | Ne | Lt | Le | Gt | Ge

  datatype FilterExpr = Exists(path: seq<Part>) | Compare(path: seq<Part>, op: Comparison, literal: Json)

  datatype Segment =
    | Root
    | Child(names: seq<string>)
    | Index(indexes: seq<int>)
    | Slice(start: Option<int>, end: Option<int>, step: int)
    | Wildcard
    | Descend(name: Option<string>)
    | Filter(expr: FilterExpr)

  const MAX_RESULTS := 10000

  // ---------- Documents and paths ----------

  /** String(n) for an array index. */
  function Decimal(n: nat): (s: string)
    ensures s != ""
  {
    (if n < 10 then "" else Decimal(n / 10)) + [(n % 10) as char + '0']
  }

  function DecimalValue(s: string): int {
    if s == "" then 0 else 10 * DecimalValue(s[..|s| - 1]) + (s[|s| - 1] as int - '0' as int)
  }

  lemma {:induction false} DecimalReads(n: nat)
    ensures DecimalValue(Decimal(n)) == n
  {
    if n >= 10 {
      DecimalReads(n / 10);
      assert Decimal(n)[..|Decimal(n)| - 1] == Decimal(n / 10);
    } else {
      assert Decimal(n)[..0] == "";
    }
  }

  lemma DecimalInjective(m: nat, n: nat)
    requires Decimal(m) == Decimal(n)
    ensures m == n
  {
    hide Decimal, DecimalValue;
    DecimalReads(m);
    DecimalReads(n);
  }

  function FieldAt(fields: seq<Field>, key: string): (i: nat)
    ensures i <= |fields| && (i < |fields| ==> fields[i].key == key) && forall k :: 0 <= k < i ==> fields[k].key != key
  {
    if fields == [] || fields[0].key == key then 0 else 1 + FieldAt(fields[1..], key)
  }

  /** The own property of a record. */
  function Property(value: Json, key: string): Option<Json>
    requires value.Obj?
  {
    var i := FieldAt(value.fields, key);
    if i < |value.fields| then Some(value.fields[i].value) else None
  }

  /** The child a step of a displayed path leads to. */
  ghost function Step(value: Json, key: string): Option<Json> {
    if value.Obj? then Property(value, key)
    else if value.Arr? && exists i :: 0 <= i < |value.items| && Decimal(i) == key then
      var i :| 0 <= i < |value.items| && Decimal(i) == key;
      Some(value.items[i])
    else None
  }

  /** Where a path leads from the root. */
  ghost function Follow(root: Json, path: seq<string>): Option<Json> {
    if path == [] then Some(root)
    else
      var parent := Follow(root, path[..|path| - 1]);
      if parent.None? then None else Step(parent.value, path[|path| - 1])
  }

  /** No object has two properties of one name, at any depth. */
  ghost predicate IsDocument(value: Json) {
    match value
    case Arr(items) => forall i :: 0 <= i < |items| ==> IsDocument(items[i])
    case Obj(fields) =>
      && (forall i, j :: 0 <= i < j < |fields| ==> fields[i].key != fields[j].key)
      && forall i :: 0 <= i < |fields| ==> IsDocument(fields[i].value)
    case _ => true
  }

  /** The path leads to the value. */
  ghost predicate Leads(root: Json, n: Node) {
    Follow(root, n.path) == Some(n.value) && IsDocument(n.value)
  }

  ghost predicate AllLead(root: Json, nodes: seq<Node>) {
    forall k :: 0 <= k < |nodes| ==> Leads(root, nodes[k])
  }

  lemma LeadsOn(root: Json, n: Node, key: string, child: Json)
    requires Leads(root, n) && Step(n.value, key) == Some(child) && IsDocument(child)
    ensures Leads(root, Node(child, n.path + [key]))
  {
    hide Step, IsDocument;
    assert (n.path + [key])[..|n.path|] == n.path;
  }

  lemma ItemLeads(root: Json, n: Node, i: nat)
    requires Leads(root, n) && n.value.Arr? && i < |n.value.items|
    ensures Leads(root, ItemNode(n, i))
  {
    hide Follow, Decimal;
    forall j | 0 <= j < |n.value.items| && Decimal(j) == Decimal(i)
      ensures j == i
    {
      DecimalInjective(j, i);
    }
    assert Step(n.value, Decimal(i)) == Some(n.value.items[i]);
    LeadsOn(root, n, Decimal(i), n.value.items[i]);
  }

  lemma PropertyLeads(root: Json, n: Node, key: string)
    requires Leads(root, n) && n.value.Obj? && Property(n.value, key).Some?
    ensures Leads(root, Node(Property(n.value, key).value, n.path + [key]))
  {
    hide Follow;
    LeadsOn(root, n, key, Property(n.value, key).value);
  }

  lemma FieldLeads(root: Json, n: Node, i: nat)
    requires Leads(root, n) && n.value.Obj? && i < |n.value.fields|
    ensures Leads(root, FieldNode(n, i))
  {
    hide Follow;
    assert FieldAt(n.value.fields, n.value.fields[i].key) == i;
    PropertyLeads(root, n, n.value.fields[i].key);
  }

  // ---------- One segment applied to one node ----------

  function ItemNode(n: Node, i: nat): Node
    requires n.value.Arr? && i < |n.value.items|
  {
    Node(n.value.items[i], n.path + [Decimal(i)])
  }

  function FieldNode(n: Node, i: nat): Node
    requires n.value.Obj? && i < |n.value.fields|
  {
    Node(n.value.fields[i].value, n.path + [n.value.fields[i].key])
  }

  /** Elements or properties, in order. */
  function Children(n: Node): (r: seq<Node>)
    ensures n.value.Arr? ==> |r| == |n.value.items| && forall i :: 0 <= i < |r| ==> r[i] == ItemNode(n, i)
    ensures n.value.Obj? ==> |r| == |n.value.fields| && forall i :: 0 <= i < |r| ==> r[i] == FieldNode(n, i)
    ensures !n.value.Arr? && !n.value.Obj? ==> r == []
  {
    match n.value
    case Arr(items) => seq(|items|, i requires 0 <= i < |items| => ItemNode(n, i))
    case Obj(fields) => seq(|fields|, i requires 0 <= i < |fields| => FieldNode(n, i))
    case _ => []
  }

  function Named(n: Node, names: seq<string>): seq<Node> {
    if names == [] || !n.value.Obj? then []
    else
      var last := names[|names| - 1];
      Named(n, names[..|names| - 1])
      + match Property(n.value, last) { case Some(v) => [Node(v, n.path + [last])] case None => [] }
  }

  function Indexed(n: Node, indexes: seq<int>): seq<Node> {
    if indexes == [] || !n.value.Arr? then []
    else
      var raw := indexes[|indexes| - 1];
      var index := if raw < 0 then |n.value.items| + raw else raw;
      Indexed(n, indexes[..|indexes| - 1]) + if 0 <= index < |n.value.items| then [ItemNode(n, index)] else []
  }

  /** The nodes at the given element positions. */
  function Picked(n: Node, positions: seq<nat>): (r: seq<Node>)
    requires n.value.Arr? && forall k :: 0 <= k < |positions| ==> positions[k] < |n.value.items|
    ensures |r| == |positions| && forall k :: 0 <= k < |r| ==> r[k] == ItemNode(n, positions[k])
  {
    seq(|positions|, k requires 0 <= k < |positions| => ItemNode(n, positions[k]))
  }

  /** The node and its descendants, each before its children. */
  function Walked(n: Node): seq<Node>
    decreases n.value, 1, 0
  {
    [n] + WalkedAll(n, |Children(n)|)
  }

  /** What is walked under the first k children. */
  function WalkedAll(n: Node, k: nat): seq<Node>
    requires k <= |Children(n)|
    decreases n.value, 0, k
  {
    if k == 0 then [] else WalkedAll(n, k - 1) + Walked(Children(n)[k - 1])
  }

  /** Of a sequence of nodes, what the visitor of a recursive descent collects. */
  function Collected(nodes: seq<Node>, name: Option<string>): seq<Node> {
    if nodes == [] then []
    else
      var n := |nodes| - 1;
      Collected(nodes[..n], name) + if name.None? then [nodes[n]] else Named(nodes[n], [name.value])
  }

  // ---------- Filters ----------

  /** resolvePath, over own properties. */
  function Resolve(value: Json, path: seq<Part>): Option<Json>
    decreases |path|
  {
    if path == [] then Some(value)
    else
      var part := path[0];
      if value.Obj? && Property(value, part.key).Some? then Resolve(Property(value, part.key).value, path[1..])
      else if value.Arr? && part.index.Some? && 0 <= part.index.value < |value.items| then
        Resolve(value.items[part.index.value], path[1..])
      else None
  }

  predicate StringLess(a: string, b: string) {
    b != "" && (a == "" || a[0] < b[0] || (a[0] == b[0] && StringLess(a[1..], b[1..])))
  }

  predicate Less(a: Json, b: Json) {
    (a.Num? && b.Num? && a.number < b.number) || (a.Str? && b.Str? && StringLess(a.text, b.text))
  }

  predicate Comparable(a: Json, b: Json) {
    (a.Num? && b.Num?) || (a.Str? && b.Str?)
  }

  predicate Holds(expr: FilterExpr, value: Json) {
    var actual := Resolve(value, expr.path);
    if actual.None? then false
    else if expr.Exists? then true
    else
      var a, b := actual.value, expr.literal;
      var same := a == b && !a.Arr? && !a.Obj?;
      match expr.op
      case Eq => same
      case Ne => !same
      case Lt => Less(a, b)
      case Le => Comparable(a, b) && !Less(b, a)
      case Gt => Less(b, a)
      case Ge => Comparable(a, b) && !Less(a, b)
  }

  function Filtered(nodes: seq<Node>, expr: FilterExpr): seq<Node> {
    if nodes == [] then []
    else
      var n := |nodes| - 1;
      Filtered(nodes[..n], expr) + if Holds(expr, nodes[n].value) then [nodes[n]] else []
  }

  // ---------- Slices ----------

  /** i, i + step, ... below end */
  function Up(i: nat, end: int, step: int): (r: seq<nat>)
    requires step > 0
    ensures forall k :: 0 <= k < |r| ==> i <= r[k] < end
    decreases end - i
  {
    if i < end then [i] + Up(i + step, end, step) else []
  }

  /** i, i + step, ... above end */
  function Down(i: int, end: int, step: int): (r: seq<nat>)
    requires step < 0 && end >= -1
    ensures forall k :: 0 <= k < |r| ==> end < r[k] <= i
    decreases i - end
  {
    if i > end then [i as nat] + Down(i + step, end, step) else []
  }

  /** The bounds a slice starts from and ends before, as the program computes them. */
  function SliceBounds(s: Segment, length: nat): (int, int)
    requires s.Slice? && s.step != 0
  {
    var start := if s.start.Some? then s.start.value else if s.step > 0 then 0 else length - 1;
    var end := if s.end.Some? then s.end.value else if s.step > 0 then length else 0 - length - 1;
    (if start < 0 then start + length else start, if s.end.Some? && end < 0 then end + length else end)
  }

  /** The element positions a slice selects, in order. */
  function SlicePositions(s: Segment, length: nat): (r: seq<nat>)
    requires s.Slice?
    ensures forall k :: 0 <= k < |r| ==> r[k] < length
  {
    if s.step == 0 then []
    else
      var (start, end) := SliceBounds(s, length);
      if s.step > 0 then Up(Max(start, 0), Min(end, length), s.step) else Down(Min(start, length - 1), Max(end, -1), s.step)
  }

  /** RFC 9535, section 2.3.4.2.2: Normalize, with the defaults of section 2.3.4.2.1 filled in. */
  function Normalize(i: int, length: nat): int {
    if i >= 0 then i else length + i
  }

  /** RFC 9535, section 2.3.4.2.2: Bounds and the selection loops. */
  function RfcPositions(start: int, end: int, step: int, length: nat): seq<nat> {
    var first, last := Normalize(start, length), Normalize(end, length);
    if step > 0 then
      var lower, upper := Min(Max(first, 0), length), Min(Max(last, 0), length);
      Up(lower, upper, step)
    else if step < 0 then
      var upper, lower := Min(Max(first, -1), length - 1), Min(Max(last, -1), length - 1);
      Down(upper, lower, step)
    else []
  }

  /** The slice selects what the standard says, for all bounds, given or not, and every step. */
  lemma SliceFollowsRfc(s: Segment, length: nat)
    requires s.Slice?
    ensures var start := if s.start.Some? then s.start.value else if s.step >= 0 then 0 else length - 1;
            var end := if s.end.Some? then s.end.value else if s.step >= 0 then length else 0 - length - 1;
            SlicePositions(s, length) == RfcPositions(start, end, s.step, length)
  {
  }

  /** Exactly the positions within the bounds at whole steps from the first. */
  lemma {:induction false} UpMembers(i: nat, end: int, step: int, p: int)
    requires step > 0
    ensures p in Up(i, end, step) <==> i <= p < end && (p - i) % step == 0
    decreases end - i
  {
    if i < end {
      UpMembers(i + step, end, step, p);
      StepBack(p - i, step);
      if i < p < i + step {
        SmallRemainder(p - i, step);
      }
    }
  }

  lemma StepBack(d: int, step: int)
    requires step > 0
    ensures (d - step) % step == d % step && 0 % step == 0
  {
    var q, r := d / step, d % step;
    OneStepLess(step, q, d, r);
    Primes.DivisionUnique(step, d - step, q - 1, r);
    Primes.DivisionUnique(step, 0, 0, 0);
  }

  lemma OneStepLess(step: int, q: int, d: int, r: int)
    requires d == step * q + r
    ensures d - step == step * (q - 1) + r
  {
  }

  lemma SmallRemainder(d: int, step: int)
    requires 0 < d < step
    ensures d % step == d
  {
  }

  lemma {:induction false} DownMembers(i: int, end: int, step: int, p: int)
    requires step < 0 && end >= -1
    ensures p in Down(i, end, step) <==> end < p <= i && (i - p) % (0 - step) == 0
    decreases i - end
  {
    if i > end {
      DownMembers(i + step, end, step, p);
      StepBack(i - p, 0 - step);
      if i + step < p < i {
        SmallRemainder(i - p, 0 - step);
      }
    }
  }

  // ---------- Segments and queries ----------

  function Apply(s: Segment, n: Node): seq<Node> {
    match s
    case Root => []
    case Child(names) => Named(n, names)
    case Index(indexes) => Indexed(n, indexes)
    case Slice(_, _, _) => if n.value.Arr? then Picked(n, SlicePositions(s, |n.value.items|)) else []
    case Wildcard => Children(n)
    case Descend(name) => Collected(Walked(n), name)
    case Filter(expr) => Filtered(Children(n), expr)
  }

  /** A segment applied to the first k nodes. */
  function Stage(s: Segment, nodes: seq<Node>, k: nat): seq<Node>
    requires k <= |nodes|
  {
    if k == 0 then [] else Stage(s, nodes, k - 1) + Apply(s, nodes[k - 1])
  }

  /** The nodes after all segments; None if a stage exceeds the limit. */
  function Matches(nodes: seq<Node>, segments: seq<Segment>): Option<seq<Node>>
    decreases |segments|
  {
    if segments == [] then Some(nodes)
    else if segments[0].Root? then Matches(nodes, segments[1..])
    else
      var next := Stage(segments[0], nodes, |nodes|);
      if |next| > MAX_RESULTS then None else Matches(next, segments[1..])
  }

  // ---------- Every match leads to its value ----------

  lemma AllLeadAppend(root: Json, a: seq<Node>, b: seq<Node>)
    requires AllLead(root, a) && AllLead(root, b)
    ensures AllLead(root, a + b)
  {
    hide Leads;
  }

  lemma ChildrenLead(root: Json, n: Node)
    requires Leads(root, n)
    ensures AllLead(root, Children(n))
  {
    hide Leads;
    forall k | 0 <= k < |Children(n)|
      ensures Leads(root, Children(n)[k])
    {
      if n.value.Arr? {
        ItemLeads(root, n, k);
      } else {
        FieldLeads(root, n, k);
      }
    }
  }

  lemma {:induction false} NamedLead(root: Json, n: Node, names: seq<string>)
    requires Leads(root, n)
    ensures AllLead(root, Named(n, names))
  {
    hide Leads, Property;
    if names != [] && n.value.Obj? {
      var last := names[|names| - 1];
      NamedLead(root, n, names[..|names| - 1]);
      if Property(n.value, last).Some? {
        PropertyLeads(root, n, last);
      }
    }
  }

  lemma {:induction false} IndexedLead(root: Json, n: Node, indexes: seq<int>)
    requires Leads(root, n)
    ensures AllLead(root, Indexed(n, indexes))
  {
    hide Leads, ItemNode;
    if indexes != [] && n.value.Arr? {
      IndexedLead(root, n, indexes[..|indexes| - 1]);
      var raw := indexes[|indexes| - 1];
      var index := if raw < 0 then |n.value.items| + raw else raw;
      if 0 <= index < |n.value.items| {
        ItemLeads(root, n, index);
      }
    }
  }

  lemma PickedLead(root: Json, n: Node, positions: seq<nat>)
    requires Leads(root, n) && n.value.Arr? && forall k :: 0 <= k < |positions| ==> positions[k] < |n.value.items|
    ensures AllLead(root, Picked(n, positions))
  {
    hide Leads, ItemNode;
    forall k | 0 <= k < |positions|
      ensures Leads(root, Picked(n, positions)[k])
    {
      ItemLeads(root, n, positions[k]);
    }
  }

  lemma {:induction false} WalkedLead(root: Json, n: Node)
    requires Leads(root, n)
    ensures AllLead(root, Walked(n))
    decreases n.value, 1, 0
  {
    hide Leads, Children;
    WalkedAllLead(root, n, |Children(n)|);
  }

  lemma {:induction false} WalkedAllLead(root: Json, n: Node, k: nat)
    requires Leads(root, n) && k <= |Children(n)|
    ensures AllLead(root, WalkedAll(n, k))
    decreases n.value, 0, k
  {
    hide Leads;
    if k > 0 {
      WalkedAllLead(root, n, k - 1);
      ChildrenLead(root, n);
      WalkedLead(root, Children(n)[k - 1]);
    }
  }

  lemma {:induction false} CollectedLead(root: Json, nodes: seq<Node>, name: Option<string>)
    requires AllLead(root, nodes)
    ensures AllLead(root, Collected(nodes, name))
  {
    hide Leads, Named;
    if nodes != [] {
      var n := |nodes| - 1;
      CollectedLead(root, nodes[..n], name);
      if name.Some? {
        NamedLead(root, nodes[n], [name.value]);
      }
    }
  }

  lemma {:induction false} FilteredLead(root: Json, nodes: seq<Node>, expr: FilterExpr)
    requires AllLead(root, nodes)
    ensures AllLead(root, Filtered(nodes, expr))
  {
    hide Leads, Holds;
    if nodes != [] {
      FilteredLead(root, nodes[..|nodes| - 1], expr);
    }
  }

  lemma ApplyLeads(root: Json, s: Segment, n: Node)
    requires Leads(root, n)
    ensures AllLead(root, Apply(s, n))
  {
    hide Leads, Named, Indexed, SlicePositions, Picked, Children, Collected, Walked, Filtered;
    match s {
      case Root =>
      case Child(names) => NamedLead(root, n, names);
      case Index(indexes) => IndexedLead(root, n, indexes);
      case Slice(_, _, _) =>
        if n.value.Arr? {
          PickedLead(root, n, SlicePositions(s, |n.value.items|));
        }
      case Wildcard => ChildrenLead(root, n);
      case Descend(name) =>
        WalkedLead(root, n);
        CollectedLead(root, Walked(n), name);
      case Filter(expr) =>
        ChildrenLead(root, n);
        FilteredLead(root, Children(n), expr);
    }
  }

  lemma {:induction false} StageLeads(root: Json, s: Segment, nodes: seq<Node>, k: nat)
    requires AllLead(root, nodes) && k <= |nodes|
    ensures AllLead(root, Stage(s, nodes, k))
  {
    hide Leads, Apply;
    if k > 0 {
      StageLeads(root, s, nodes, k - 1);
      ApplyLeads(root, s, nodes[k - 1]);
      AllLeadAppend(root, Stage(s, nodes, k - 1), Apply(s, nodes[k - 1]));
    }
  }

  /** Through unions, slices, wildcards, recursive descent and filters: following a match's path from the root reaches its value. */
  lemma {:induction false} MatchesLead(root: Json, nodes: seq<Node>, segments: seq<Segment>)
    requires AllLead(root, nodes)
    ensures Matches(nodes, segments).Some? ==> AllLead(root, Matches(nodes, segments).value)
    decreases |segments|
  {
    hide Leads, Stage, AllLead;
    if segments != [] {
      if segments[0].Root? {
        MatchesLead(root, nodes, segments[1..]);
      } else {
        StageLeads(root, segments[0], nodes, |nodes|);
        MatchesLead(root, Stage(segments[0], nodes, |nodes|), segments[1..]);
      }
    }
  }

  lemma RootLeads(root: Json)
    requires IsDocument(root)
    ensures AllLead(root, [Node(root, [])])
  {
  }

  // ---------- The program ----------

  method ApplyChild(n: Node, names: seq<string>, before: seq<Node>) returns (out: seq<Node>)
    ensures out == before + Named(n, names)
  {
    hide Property;
    out := before;
    if !n.value.Obj? {
      return;
    }
    for k := 0 to |names|
      invariant out == before + Named(n, names[..k])
    {
      assert names[..k + 1][..k] == names[..k];
      var own := Property(n.value, names[k]);
      if own.Some? {
        out := out + [Node(own.value, n.path + [names[k]])];
      }
    }
    assert names[..|names|] == names;
  }

  method ApplyIndex(n: Node, indexes: seq<int>, before: seq<Node>) returns (out: seq<Node>)
    ensures out == before + Indexed(n, indexes)
  {
    hide ItemNode;
    out := before;
    if !n.value.Arr? {
      return;
    }
    for k := 0 to |indexes|
      invariant out == before + Indexed(n, indexes[..k])
    {
      assert indexes[..k + 1][..k] == indexes[..k];
      var raw := indexes[k];
      var index := if raw < 0 then |n.value.items| + raw else raw;
      if index >= 0 && index < |n.value.items| {
        out := out + [ItemNode(n, index)];
      }
    }
    assert indexes[..|indexes|] == indexes;
  }

  method ApplySlice(n: Node, s: Segment, before: seq<Node>) returns (out: seq<Node>)
    requires s.Slice?
    ensures out == before + Apply(s, n)
  {
    out := before;
    if !n.value.Arr? || s.step == 0 {
      return;
    }
    var length, step := |n.value.items|, s.step;
    var start := if s.start.Some? then s.start.value else if step > 0 then 0 else length - 1;
    var end := if s.end.Some? then s.end.value else if step > 0 then length else 0 - length - 1;
    if start < 0 {
      start := start + length;
    }
    if s.end.Some? && end < 0 {
      end := end + length;
    }
    if step > 0 {
      out := PickUp(n, Max(start, 0), Min(end, length), step, before);
    } else {
      out := PickDown(n, Min(start, length - 1), Max(end, -1), step, before);
    }
  }

  method PickUp(n: Node, start: nat, end: int, step: int, before: seq<Node>) returns (out: seq<Node>)
    requires n.value.Arr? && step > 0 && end <= |n.value.items|
    ensures out == before + Picked(n, Up(start, end, step))
  {
    hide ItemNode;
    out := before;
    var i := start;
    while i < end
      invariant i >= 0
      invariant out + Picked(n, Up(i, end, step)) == before + Picked(n, Up(start, end, step))
      decreases end - i
    {
      PickNext(n, i, Up(i + step, end, step));
      out := out + [ItemNode(n, i)];
      i := i + step;
    }
  }

  method PickDown(n: Node, start: int, end: int, step: int, before: seq<Node>) returns (out: seq<Node>)
    requires n.value.Arr? && step < 0 && end >= -1 && start < |n.value.items|
    ensures out == before + Picked(n, Down(start, end, step))
  {
    hide ItemNode;
    out := before;
    var i := start;
    while i > end
      invariant i < |n.value.items|
      invariant out + Picked(n, Down(i, end, step)) == before + Picked(n, Down(start, end, step))
      decreases i - end
    {
      PickNext(n, i, Down(i + step, end, step));
      out := out + [ItemNode(n, i)];
      i := i + step;
    }
  }

  lemma PickNext(n: Node, i: nat, rest: seq<nat>)
    requires n.value.Arr? && i < |n.value.items| && forall k :: 0 <= k < |rest| ==> rest[k] < |n.value.items|
    ensures Picked(n, [i] + rest) == [ItemNode(n, i)] + Picked(n, rest)
  {
    hide ItemNode;
  }

  /** walk, with the visitor of a recursive descent. */
  method Walk(n: Node, name: Option<string>, before: seq<Node>) returns (out: seq<Node>)
    ensures out == before + Collected(Walked(n), name)
    decreases n.value
  {
    hide Collected, Named, Walked, WalkedAll, Decimal;
    if name.None? {
      out := before + [n];
    } else {
      out := ApplyChild(n, [name.value], before);
    }
    CollectStart(n, name);
    var children := Children(n);
    for k := 0 to |children|
      invariant out == before + Collected([n] + WalkedAll(n, k), name)
    {
      CollectNext(n, k, name);
      out := Walk(children[k], name, out);
    }
    WalkedIs(n);
  }

  lemma WalkedIs(n: Node)
    ensures Walked(n) == [n] + WalkedAll(n, |Children(n)|)
  {
  }

  lemma CollectStart(n: Node, name: Option<string>)
    ensures Collected([n] + WalkedAll(n, 0), name) == if name.None? then [n] else Named(n, [name.value])
  {
    hide Named, Children;
    CollectOne(n, name);
    assert [n] + [] == [n];
  }

  lemma CollectNext(n: Node, k: nat, name: Option<string>)
    requires k < |Children(n)|
    ensures Collected([n] + WalkedAll(n, k + 1), name)
            == Collected([n] + WalkedAll(n, k), name) + Collected(Walked(Children(n)[k]), name)
  {
    hide Named, Children, Collected, Walked;
    CollectedAppend([n] + WalkedAll(n, k), Walked(Children(n)[k]), name);
    assert [n] + (WalkedAll(n, k) + Walked(Children(n)[k])) == ([n] + WalkedAll(n, k)) + Walked(Children(n)[k]);
  }

  lemma CollectOne(n: Node, name: Option<string>)
    ensures Collected([n], name) == if name.None? then [n] else Named(n, [name.value])
  {
    hide Named;
    assert [n][..0] == [];
  }

  lemma {:induction false} CollectedAppend(a: seq<Node>, b: seq<Node>, name: Option<string>)
    ensures Collected(a + b, name) == Collected(a, name) + Collected(b, name)
    decreases |b|
  {
    hide Named;
    if b == [] {
      assert a + b == a;
    } else {
      var n := |b| - 1;
      assert (a + b)[..|a| + n] == a + b[..n];
      CollectedAppend(a, b[..n], name);
    }
  }

  method ApplyFilter(n: Node, expr: FilterExpr, before: seq<Node>) returns (out: seq<Node>)
    ensures out == before + Filtered(Children(n), expr)
  {
    hide Holds, Children;
    out := before;
    var children := Children(n);
    for k := 0 to |children|
      invariant out == before + Filtered(children[..k], expr)
    {
      assert children[..k + 1][..k] == children[..k];
      if Holds(expr, children[k].value) {
        out := out + [children[k]];
      }
    }
    assert children[..|children|] == children;
  }

  /** applySegment */
  method ApplySegment(s: Segment, n: Node, before: seq<Node>) returns (out: seq<Node>)
    ensures out == before + Apply(s, n)
  {
    hide Named, Indexed, Collected, Walked, Filtered;
    match s {
      case Root => out := before;
      case Child(names) => out := ApplyChild(n, names, before);
      case Index(indexes) => out := ApplyIndex(n, indexes, before);
      case Slice(_, _, _) => out := ApplySlice(n, s, before);
      case Wildcard => out := before + Children(n);
      case Descend(name) => out := Walk(n, name, before);
      case Filter(expr) => out := ApplyFilter(n, expr, before);
    }
  }

  /** One segment over all nodes; the limit is checked after each node. */
  method RunStage(s: Segment, current: seq<Node>) returns (exceeded: bool, next: seq<Node>)
    ensures exceeded <==> |Stage(s, current, |current|)| > MAX_RESULTS
    ensures !exceeded ==> next == Stage(s, current, |current|)
  {
    hide Apply;
    next := [];
    for k := 0 to |current|
      invariant next == Stage(s, current, k) && |next| <= MAX_RESULTS
    {
      next := ApplySegment(s, current[k], next);
      if |next| > MAX_RESULTS {
        StageGrows(s, current, k + 1, |current|);
        return true, next;
      }
    }
    return false, next;
  }

  lemma {:induction false} StageGrows(s: Segment, nodes: seq<Node>, j: nat, k: nat)
    requires j <= k <= |nodes|
    ensures |Stage(s, nodes, j)| <= |Stage(s, nodes, k)|
  {
    hide Apply;
    if j < k {
      StageGrows(s, nodes, j, k - 1);
    }
  }

  /** queryJsonPath on parsed segments: the values and their paths, or the error for too many matches. */
  method QueryJsonPath(root: Json, segments: seq<Segment>) returns (result: Option<(seq<Json>, seq<string>)>,
          ghost nodes: seq<Node>)
    requires IsDocument(root)
    ensures result.None? <==> Matches([Node(root, [])], segments).None?
    ensures result.Some? ==> Matches([Node(root, [])], segments) == Some(nodes) && AllLead(root, nodes)
    ensures result.Some? ==> |result.value.0| == |result.value.1| == |nodes|
    ensures result.Some? ==> forall k :: 0 <= k < |nodes| ==> result.value.0[k] == nodes[k].value && result.value.1[k] == FormatPath(nodes[k].path)
  {
    hide Stage, AllLead, FormatPath, IsDocument;
    var current := [Node(root, [])];
    RootLeads(root);
    MatchesLead(root, current, segments);
    for k := 0 to |segments|
      invariant Matches(current, segments[k..]) == Matches([Node(root, [])], segments)
    {
      assert segments[k..][0] == segments[k] && segments[k..][1..] == segments[k + 1..];
      if segments[k].Root? {
        continue;
      }
      var exceeded, next := RunStage(segments[k], current);
      if exceeded {
        return None, [];
      }
      current := next;
    }
    nodes := current;
    var values := seq(|current|, i requires 0 <= i < |current| => current[i].value);
    var paths := seq(|current|, i requires 0 <= i < |current| => FormatPath(current[i].path));
    result := Some((values, paths));
  }

  // ---------- Displayed paths ----------

  predicate IsNumeral(key: string) {
    key != "" && forall k :: 0 <= k < |key| ==> '0' <= key[k] <= '9'
  }

  /** replace(/'/g, "\\'") */
  function EscapeQuotes(key: string): string {
    if key == "" then "" else (if key[0] == '\'' then "\\'" else [key[0]]) + EscapeQuotes(key[1..])
  }

  function FormatKey(key: string): string {
    if IsNumeral(key) then "[" + key + "]" else "['" + EscapeQuotes(key) + "']"
  }

  function FormatKeys(path: seq<string>): string {
    if path == [] then "" else FormatKey(path[0]) + FormatKeys(path[1..])
  }

  function FormatPath(path: seq<string>): string {
    "$" + FormatKeys(path)
  }

  /** How a key is displayed: a numeral in brackets, another key quoted as well, with a backslash before each quote. */
  lemma KeyShown(key: string)
    ensures IsNumeral(key) ==> FormatKey(key) == "[" + key + "]"
    ensures !IsNumeral(key) && '\'' !in key ==> FormatKey(key) == "['" + key + "']"
    ensures FormatKey("'") == "['\\'']"
  {
    hide IsNumeral, EscapeQuotes;
    QuoteKey();
    if '\'' !in key {
      PlainKey(key);
    }
  }

  lemma QuoteKey()
    ensures EscapeQuotes("'") == "\\'" && !IsNumeral("'")
  {
    assert "'"[0] == '\'' && "'"[1..] == "";
  }

  /** A path is displayed key by key behind the dollar sign. */
  lemma {:induction false} KeysAppend(p: seq<string>, q: seq<string>)
    ensures FormatKeys(p + q) == FormatKeys(p) + FormatKeys(q)
    ensures FormatPath([]) == "$"
  {
    hide FormatKey;
    if p == [] {
      assert p + q == q;
    } else {
      assert (p + q)[1..] == p[1..] + q;
      KeysAppend(p[1..], q);
    }
  }

  lemma {:induction false} PlainKey(key: string)
    requires '\'' !in key
    ensures EscapeQuotes(key) == key
  {
    if key != "" {
      PlainKey(key[1..]);
    }
  }

  lemma SameHead(c: char, s: string, d: char, t: string)
    ensures [c] + s == [d] + t <==> c == d && s == t
  {
    assert ([c] + s)[0] == c && ([c] + s)[1..] == s;
    assert ([d] + t)[0] == d && ([d] + t)[1..] == t;
  }

  /** A quoted key and the keys behind it. */
  function Quoted(key: string, rest: seq<string>): string {
    EscapeQuotes(key) + "']" + FormatKeys(rest)
  }

  /** The text of a quoted key from its first character on. */
  lemma QuotedStep(key: string, rest: seq<string>)
    ensures key == "" ==> Quoted(key, rest) == ['\''] + ([']'] + FormatKeys(rest))
    ensures key != "" && key[0] == '\'' ==> Quoted(key, rest) == ['\\'] + (['\''] + Quoted(key[1..], rest))
    ensures key != "" && key[0] != '\'' ==> Quoted(key, rest) == [key[0]] + Quoted(key[1..], rest)
  {
    hide FormatKeys;
    var end := "']" + FormatKeys(rest);
    assert "']" + FormatKeys(rest) == ['\''] + ([']'] + FormatKeys(rest));
    if key == "" {
      assert Quoted(key, rest) == end;
    } else {
      var head := if key[0] == '\'' then "\\'" else [key[0]];
      assert (head + EscapeQuotes(key[1..])) + "']" + FormatKeys(rest) == head + Quoted(key[1..], rest);
      assert "\\'" == ['\\'] + ['\''];
    }
  }

  /** A list of keys from its first character on. */
  lemma KeysStep(path: seq<string>)
    requires path != []
    ensures IsNumeral(path[0]) ==> FormatKeys(path) == ['['] + (path[0] + ([']'] + FormatKeys(path[1..])))
    ensures !IsNumeral(path[0]) ==> FormatKeys(path) == ['['] + (['\''] + Quoted(path[0], path[1..]))
  {
    hide FormatKeys, EscapeQuotes, IsNumeral;
    KeysUnfold(path);
    var rest := FormatKeys(path[1..]);
    if IsNumeral(path[0]) {
      assert "[" + path[0] + "]" + rest == ['['] + (path[0] + ([']'] + rest));
    } else {
      hide Quoted;
      QuotedRegroup(EscapeQuotes(path[0]), rest);
      assert Quoted(path[0], path[1..]) == EscapeQuotes(path[0]) + "']" + rest by { QuotedIs(path[0], path[1..]); }
    }
  }

  lemma QuotedIs(key: string, rest: seq<string>)
    ensures Quoted(key, rest) == EscapeQuotes(key) + "']" + FormatKeys(rest)
  {
  }

  lemma QuotedRegroup(e: string, rest: string)
    ensures "['" + e + "']" + rest == ['['] + (['\''] + (e + "']" + rest))
  {
  }

  lemma KeysUnfold(path: seq<string>)
    requires path != []
    ensures FormatKeys(path) == FormatKey(path[0]) + FormatKeys(path[1..])
  {
    hide FormatKey;
  }

  /** A backslash at the end of one key cannot pass its closing quote off as another key's escaped quote: the texts never meet again. */
  lemma {:induction false} NeverAtBracket(key: string, rest: seq<string>, path: seq<string>)
    ensures Quoted(key, rest) != [']'] + FormatKeys(path)
    decreases |Quoted(key, rest)| + |FormatKeys(path)|, 0
  {
    hide Quoted, FormatKeys;
    QuotedStep(key, rest);
    if key == "" {
      SameHead('\'', [']'] + FormatKeys(rest), ']', FormatKeys(path));
    } else if key[0] == '\'' {
      SameHead('\\', ['\''] + Quoted(key[1..], rest), ']', FormatKeys(path));
    } else {
      NeverAtKeys(key[1..], rest, path);
      SameHead(key[0], Quoted(key[1..], rest), ']', FormatKeys(path));
    }
  }

  lemma {:induction false} NeverAtKeys(key: string, rest: seq<string>, path: seq<string>)
    ensures Quoted(key, rest) != FormatKeys(path)
    decreases |Quoted(key, rest)| + |FormatKeys(path)|
  {
    hide Quoted, FormatKeys, IsNumeral;
    QuotedStep(key, rest);
    if path == [] {
      assert FormatKeys(path) == "" by { NoKeys(); }
    } else {
      KeysStep(path);
      var behind := FormatKeys(path)[1..];
      assert FormatKeys(path) == ['['] + behind;
      if key == "" {
        SameHead('\'', [']'] + FormatKeys(rest), '[', behind);
      } else if key[0] == '\'' {
        SameHead('\\', ['\''] + Quoted(key[1..], rest), '[', behind);
      } else {
        SameHead(key[0], Quoted(key[1..], rest), '[', behind);
        if IsNumeral(path[0]) {
          DigitsOnly(path[0]);
          NeverAtDigits(key[1..], rest, path[0], path[1..]);
        } else {
          NeverAtQuote(key[1..], rest, path[0], path[1..]);
        }
      }
    }
  }

  lemma NoKeys()
    ensures FormatKeys([]) == ""
  {
  }

  lemma DigitsOnly(d: string)
    requires IsNumeral(d)
    ensures forall k :: 0 <= k < |d| ==> '0' <= d[k] <= '9'
  {
  }

  lemma {:induction false} NeverAtQuote(key: string, rest: seq<string>, other: string, path: seq<string>)
    ensures Quoted(key, rest) != ['\''] + Quoted(other, path)
    decreases |Quoted(key, rest)| + |Quoted(other, path)| + 1
  {
    hide Quoted, FormatKeys;
    QuotedStep(key, rest);
    if key == "" {
      NeverAtBracket(other, path, rest);
      SameHead('\'', [']'] + FormatKeys(rest), '\'', Quoted(other, path));
    } else if key[0] == '\'' {
      SameHead('\\', ['\''] + Quoted(key[1..], rest), '\'', Quoted(other, path));
    } else {
      SameHead(key[0], Quoted(key[1..], rest), '\'', Quoted(other, path));
    }
  }

  lemma {:induction false} NeverAtDigits(key: string, rest: seq<string>, d: string, path: seq<string>)
    requires forall k :: 0 <= k < |d| ==> '0' <= d[k] <= '9'
    ensures Quoted(key, rest) != d + ([']'] + FormatKeys(path))
    decreases |Quoted(key, rest)| + |FormatKeys(path)| + |d|, 1
  {
    hide Quoted, FormatKeys;
    if d == "" {
      assert d + ([']'] + FormatKeys(path)) == [']'] + FormatKeys(path);
      NeverAtBracket(key, rest, path);
    } else {
      QuotedStep(key, rest);
      var behind := d[1..] + ([']'] + FormatKeys(path));
      assert d + ([']'] + FormatKeys(path)) == [d[0]] + behind;
      if key == "" {
        SameHead('\'', [']'] + FormatKeys(rest), d[0], behind);
      } else if key[0] == '\'' {
        SameHead('\\', ['\''] + Quoted(key[1..], rest), d[0], behind);
      } else {
        NeverAtDigits(key[1..], rest, d[1..], path);
        SameHead(key[0], Quoted(key[1..], rest), d[0], behind);
      }
    }
  }

  lemma {:induction false} QuotedInjective(key: string, rest: seq<string>, other: string, path: seq<string>)
    ensures Quoted(key, rest) == Quoted(other, path) <==> key == other && FormatKeys(rest) == FormatKeys(path)
    decreases |key|
  {
    hide Quoted, FormatKeys;
    QuotedStep(key, rest);
    QuotedStep(other, path);
    if key != "" && other != "" && (key[0] == '\'' <==> other[0] == '\'') {
      QuotedInjective(key[1..], rest, other[1..], path);
      SameHead(key[0], Quoted(key[1..], rest), other[0], Quoted(other[1..], path));
      SameHead('\'', Quoted(key[1..], rest), '\'', Quoted(other[1..], path));
      SameHead('\\', ['\''] + Quoted(key[1..], rest), '\\', ['\''] + Quoted(other[1..], path));
      assert key == other <==> key[0] == other[0] && key[1..] == other[1..] by {
        assert key == [key[0]] + key[1..] && other == [other[0]] + other[1..];
      }
    } else if key == "" && other == "" {
      SameHead('\'', [']'] + FormatKeys(rest), '\'', [']'] + FormatKeys(path));
      SameHead(']', FormatKeys(rest), ']', FormatKeys(path));
    } else if key != "" && key[0] == '\'' {
      EscapedNeverPlain(key, rest, other, path);
    } else if other != "" && other[0] == '\'' {
      EscapedNeverPlain(other, path, key, rest);
    } else if key == "" {
      SameHead('\'', [']'] + FormatKeys(rest), other[0], Quoted(other[1..], path));
    } else {
      SameHead(key[0], Quoted(key[1..], rest), '\'', [']'] + FormatKeys(path));
    }
  }

  /** An escaped quote is never read as a backslash before the closing quote, or the other way round. */
  lemma EscapedNeverPlain(key: string, rest: seq<string>, other: string, path: seq<string>)
    requires key != "" && key[0] == '\'' && (other == "" || other[0] != '\'')
    ensures Quoted(key, rest) != Quoted(other, path)
  {
    hide Quoted, FormatKeys;
    QuotedStep(key, rest);
    QuotedStep(other, path);
    var behind := ['\''] + Quoted(key[1..], rest);
    if other == "" {
      SameHead('\\', behind, '\'', [']'] + FormatKeys(path));
    } else {
      SameHead('\\', behind, other[0], Quoted(other[1..], path));
      NeverAtQuote(other[1..], path, key[1..], rest);
    }
  }

  lemma {:induction false} NumeralInjective(d: string, s: string, e: string, t: string)
    requires forall k :: 0 <= k < |d| ==> '0' <= d[k] <= '9'
    requires forall k :: 0 <= k < |e| ==> '0' <= e[k] <= '9'
    ensures d + ([']'] + s) == e + ([']'] + t) <==> d == e && s == t
  {
    if d == "" || e == "" {
      assert d == "" ==> d + ([']'] + s) == [']'] + s;
      assert e == "" ==> e + ([']'] + t) == [']'] + t;
      SameHead(']', s, ']', t);
      assert d != "" ==> (d + ([']'] + s))[0] == d[0];
      assert e != "" ==> (e + ([']'] + t))[0] == e[0];
    } else {
      NumeralInjective(d[1..], s, e[1..], t);
      assert d + ([']'] + s) == [d[0]] + (d[1..] + ([']'] + s));
      assert e + ([']'] + t) == [e[0]] + (e[1..] + ([']'] + t));
      SameHead(d[0], d[1..] + ([']'] + s), e[0], e[1..] + ([']'] + t));
      assert d == [d[0]] + d[1..] && e == [e[0]] + e[1..];
    }
  }

  /** Different keys lists are displayed differently, although backslashes are not escaped. */
  lemma {:induction false} FormatInjective(p: seq<string>, q: seq<string>)
    ensures FormatKeys(p) == FormatKeys(q) <==> p == q
    decreases |p|
  {
    hide Quoted, FormatKeys, IsNumeral;
    NoKeys();
    if p != [] {
      KeysStep(p);
    }
    if q != [] {
      KeysStep(q);
    }
    if p != [] && q != [] {
      FormatInjective(p[1..], q[1..]);
      HeadsInjective(p, q);
      assert p == [p[0]] + p[1..] && q == [q[0]] + q[1..];
    }
  }

  lemma HeadsInjective(p: seq<string>, q: seq<string>)
    requires p != [] && q != []
    ensures FormatKeys(p) == FormatKeys(q) <==> p[0] == q[0] && FormatKeys(p[1..]) == FormatKeys(q[1..])
  {
    hide Quoted, FormatKeys, IsNumeral;
    KeysStep(p);
    KeysStep(q);
    SameHead('[', FormatKeys(p)[1..], '[', FormatKeys(q)[1..]);
    if IsNumeral(p[0]) && IsNumeral(q[0]) {
      DigitsOnly(p[0]);
      DigitsOnly(q[0]);
      NumeralInjective(p[0], FormatKeys(p[1..]), q[0], FormatKeys(q[1..]));
    } else if !IsNumeral(p[0]) && !IsNumeral(q[0]) {
      QuotedInjective(p[0], p[1..], q[0], q[1..]);
      SameHead('\'', Quoted(p[0], p[1..]), '\'', Quoted(q[0], q[1..]));
    } else if IsNumeral(p[0]) {
      NumeralStarts(p[0], [']'] + FormatKeys(p[1..]), Quoted(q[0], q[1..]));
    } else {
      NumeralStarts(q[0], [']'] + FormatKeys(q[1..]), Quoted(p[0], p[1..]));
    }
  }

  lemma NumeralStarts(d: string, s: string, t: string)
    requires IsNumeral(d)
    ensures d + s != ['\''] + t
  {
    assert (d + s)[0] == d[0];
  }

  /** A displayed path names one match: two matches shown with the same path are the same node. */
  lemma PathsIdentify(root: Json, m: Node, n: Node)
    requires Leads(root, m) && Leads(root, n) && FormatPath(m.path) == FormatPath(n.path)
    ensures m == n
  {
    hide Follow, IsDocument, FormatKeys;
    assert FormatPath(m.path)[1..] == FormatKeys(m.path) && FormatPath(n.path)[1..] == FormatKeys(n.path);
    FormatInjective(m.path, n.path);
  }

  // ---------- Recursive descent misses nothing ----------

  lemma {:induction false} FollowFront(root: Json, key: string, path: seq<string>)
    requires Follow(root, [key] + path).Some?
    ensures Step(root, key).Some? && Follow(Step(root, key).value, path) == Follow(root, [key] + path)
    decreases |path|
  {
    hide Step;
    var n := |path| - 1;
    if path == [] {
      assert [key] + path == [key] && [key][..0] == [];
    } else {
      assert ([key] + path)[..|path|] == [key] + path[..n];
      FollowFront(root, key, path[..n]);
    }
  }

  /** A step leads to a child. */
  lemma StepIsChild(n: Node, key: string) returns (k: nat)
    requires Step(n.value, key).Some?
    ensures k < |Children(n)| && Children(n)[k] == Node(Step(n.value, key).value, n.path + [key])
  {
    hide Decimal;
    if n.value.Obj? {
      k := FieldAt(n.value.fields, key);
    } else {
      var i :| 0 <= i < |n.value.items| && Decimal(i) == key && Step(n.value, key) == Some(n.value.items[i]);
      k := i;
    }
  }

  lemma {:induction false} WalkedHasChild(n: Node, k: nat, j: nat, x: Node)
    requires k < j <= |Children(n)| && x in Walked(Children(n)[k])
    ensures x in WalkedAll(n, j)
    decreases j
  {
    hide Walked, Children;
    if k < j - 1 {
      WalkedHasChild(n, k, j - 1, x);
    }
  }

  /** Every place in the document below a node is among the nodes walked from it. */
  lemma {:induction false} WalkedReachesAll(n: Node, path: seq<string>)
    requires Follow(n.value, path).Some?
    ensures Node(Follow(n.value, path).value, n.path + path) in Walked(n)
    decreases |path|
  {
    hide Children, Step;
    if path == [] {
      assert n.path + path == n.path && n in [n];
    } else {
      assert path == [path[0]] + path[1..];
      FollowFront(n.value, path[0], path[1..]);
      var k := StepIsChild(n, path[0]);
      var child := Children(n)[k];
      WalkedReachesAll(child, path[1..]);
      assert child.path + path[1..] == n.path + path;
      WalkedHasChild(n, k, |Children(n)|, Node(Follow(n.value, path).value, n.path + path));
    }
  }
}
