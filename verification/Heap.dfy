/** The binary max-heap visualiser: sift-up insertion, bottom-up building and extraction. */
module Heap {
  import opened Structures

  /** One snapshot: the live part of the heap and what has been extracted so far. */
  datatype Snapshot = Snapshot(heap: seq<int>, extracted: seq<int>)

  function Parent(i: nat): (p: nat)
    requires i > 0
    ensures p < i
  {
    (i - 1) / 2
  }

  /** Every element whose parent is at lo or later is not larger than that parent. */
  predicate HeapFrom(s: seq<int>, lo: nat) {
    forall c :: 0 < c < |s| && Parent(c) >= lo ==> s[c] <= s[Parent(c)]
  }

  predicate IsHeap(s: seq<int>) {
    HeapFrom(s, 0)
  }

  /** A heap from lo on, except that x may be smaller than its children. */
  predicate HeapButDown(s: seq<int>, lo: nat, x: nat) {
    && (forall c :: 0 < c < |s| && Parent(c) >= lo && Parent(c) != x ==> s[c] <= s[Parent(c)])
    && (x > 0 && Parent(x) >= lo ==> forall c :: 0 < c < |s| && Parent(c) == x ==> s[c] <= s[Parent(x)])
  }

  /** A heap, except that x may be larger than its parent. */
  predicate HeapButUp(s: seq<int>, x: nat) {
    && (forall c :: 0 < c < |s| && c != x ==> s[c] <= s[Parent(c)])
    && (x > 0 ==> forall c :: 0 < c < |s| && Parent(c) == x && x < |s| ==> s[c] <= s[Parent(x)])
  }

  function Swapped(s: seq<int>, i: nat, j: nat): (r: seq<int>)
    requires i < |s| && j < |s|
    ensures |r| == |s|
  {
    s[i := s[j]][j := s[i]]
  }

  lemma SwapKeeps(s: seq<int>, i: nat, j: nat)
    requires i < |s| && j < |s|
    ensures multiset(Swapped(s, i, j)) == multiset(s)
  {
  }

  /** Swapping x with its largest child moves the exception down. */
  lemma SwapDown(s: seq<int>, lo: nat, x: nat, child: nat)
    requires HeapButDown(s, lo, x) && lo <= x < child < |s| && Parent(child) == x && s[child] > s[x]
    requires forall c :: 0 < c < |s| && Parent(c) == x ==> s[c] <= s[child]
    ensures HeapButDown(Swapped(s, x, child), lo, child)
  {
  }

  /** Swapping x with its smaller parent moves the exception up. */
  lemma SwapUp(s: seq<int>, x: nat)
    requires HeapButUp(s, x) && 0 < x < |s| && s[Parent(x)] < s[x]
    ensures HeapButUp(Swapped(s, x, Parent(x)), Parent(x))
  {
    var p := Parent(x);
    var r := Swapped(s, x, p);
    assert p > 0 ==> s[p] <= s[Parent(p)];
    forall c | 0 < c < |s| && c != p
      ensures r[c] <= r[Parent(c)]
    {
      assert c != x ==> s[c] <= s[Parent(c)];
    }
    forall c | 0 < c < |s| && Parent(c) == p && p > 0
      ensures r[c] <= r[Parent(p)]
    {
      assert c != x ==> s[c] <= s[p];
    }
  }

  /** The root of a heap is a largest element. */
  lemma {:induction false} RootIsLargest(s: seq<int>, i: nat)
    requires IsHeap(s) && i < |s|
    ensures s[i] <= s[0]
    decreases i
  {
    if i > 0 {
      RootIsLargest(s, Parent(i));
    }
  }

  // ---------- Sifting ----------

  /** The index of the largest of x and its children; ties go to x, then to the left child. */
  function Largest(s: seq<int>, x: nat): (l: nat)
    requires x < |s|
    ensures l == x || (x < l < |s| && Parent(l) == x && s[l] > s[x])
    ensures forall c :: 0 < c < |s| && Parent(c) == x ==> s[c] <= s[l]
  {
    var left, right := 2 * x + 1, 2 * x + 2;
    assert forall c :: 0 < c < |s| && Parent(c) == x ==> c == left || c == right;
    var l := if left < |s| && s[left] > s[x] then left else x;
    if right < |s| && s[right] > s[l] then right else l
  }

  function SiftedDown(s: seq<int>, x: nat): (r: seq<int>)
    requires x < |s|
    ensures |r| == |s|
    decreases |s| - x
  {
    var l := Largest(s, x);
    if l == x then s else SiftedDown(Swapped(s, x, l), l)
  }

  /** Sifting down repairs the one exception and keeps the values. */
  lemma {:induction false} SiftedDownIsHeap(s: seq<int>, lo: nat, x: nat)
    requires lo <= x < |s| && HeapButDown(s, lo, x)
    ensures HeapFrom(SiftedDown(s, x), lo) && multiset(SiftedDown(s, x)) == multiset(s)
    decreases |s| - x
  {
    hide Largest;
    var l := Largest(s, x);
    if l != x {
      SwapDown(s, lo, x, l);
      SwapKeeps(s, x, l);
      SiftedDownIsHeap(Swapped(s, x, l), lo, l);
    }
  }

  function SiftedUp(s: seq<int>, x: nat): (r: seq<int>)
    requires x < |s|
    ensures |r| == |s|
    decreases x
  {
    if x == 0 || s[Parent(x)] >= s[x] then s else SiftedUp(Swapped(s, x, Parent(x)), Parent(x))
  }

  lemma {:induction false} SiftedUpIsHeap(s: seq<int>, x: nat)
    requires x < |s| && HeapButUp(s, x)
    ensures IsHeap(SiftedUp(s, x)) && multiset(SiftedUp(s, x)) == multiset(s)
    decreases x
  {
    if x > 0 && s[Parent(x)] < s[x] {
      SwapUp(s, x);
      SwapKeeps(s, x, Parent(x));
      SiftedUpIsHeap(Swapped(s, x, Parent(x)), Parent(x));
    }
  }

  ghost predicate SameValues(s: seq<int>, t: seq<int>) {
    multiset(s) == multiset(t)
  }

  /** Every state shown holds the values of s. */
  ghost predicate AllSame(shown: seq<seq<int>>, s: seq<int>) {
    forall k :: 0 <= k < |shown| ==> SameValues(shown[k], s)
  }

  lemma ShowSwap(shown: seq<seq<int>>, before: seq<int>, s: seq<int>, x: nat)
    requires x < |s| && AllSame(shown, before) && SameValues(s, before)
    ensures var l := Largest(s, x);
            l != x ==>
              && SameValues(Swapped(s, x, l), before) && AllSame(shown + [Swapped(s, x, l)], before)
              && SiftedDown(Swapped(s, x, l), l) == SiftedDown(s, x)
    ensures Largest(s, x) == x ==> SiftedDown(s, x) == s
  {
    SwapKeeps(s, x, Largest(s, x));
  }

  lemma LargestIs(s: seq<int>, x: nat)
    requires x < |s|
    ensures var left, right := 2 * x + 1, 2 * x + 2;
            var l := if left < |s| && s[left] > s[x] then left else x;
            Largest(s, x) == if right < |s| && s[right] > s[l] then right else l
  {
  }

  /** siftDown, and the same loop as narrated by the extraction; shown collects the states after each swap. */
  method SiftDown(heap: array<int>, start: nat, size: nat) returns (ghost shown: seq<seq<int>>)
    requires start < size <= heap.Length
    modifies heap
    ensures heap[..size] == SiftedDown(old(heap[..size]), start)
    ensures forall i :: size <= i < heap.Length ==> heap[i] == old(heap[i])
    ensures AllSame(shown, old(heap[..size]))
  {
    hide SiftedDown, Largest, Swapped, SameValues, AllSame, Parent;
    shown := [];
    ghost var before := heap[..size];
    AllSameBegins(before);
    var index := start;
    while true
      invariant start <= index < size
      invariant SiftedDown(heap[..size], index) == SiftedDown(before, start)
      invariant SameValues(heap[..size], before) && AllSame(shown, before)
      invariant forall i :: size <= i < heap.Length ==> heap[i] == old(heap[i])
      decreases size - index
    {
      var left := 2 * index + 1;
      var right := 2 * index + 2;
      var largest := index;
      if left < size && heap[left] > heap[largest] {
        largest := left;
      }
      if right < size && heap[right] > heap[largest] {
        largest := right;
      }
      ghost var s := heap[..size];
      LargestIs(s, index);
      ShowSwap(shown, before, s, index);
      if largest == index {
        return;
      }
      heap[index], heap[largest] := heap[largest], heap[index];
      SwappedIs(s, index, largest, heap[..size]);
      shown := shown + [heap[..size]];
      index := largest;
    }
  }

  lemma SwappedIs(s: seq<int>, i: nat, j: nat, r: seq<int>)
    requires i < |s| && j < |s| && |r| == |s| && r[i] == s[j] && r[j] == s[i]
    requires forall k :: 0 <= k < |s| && k != i && k != j ==> r[k] == s[k]
    ensures r == Swapped(s, i, j)
  {
  }

  lemma AllSameBegins(s: seq<int>)
    ensures SameValues(s, s) && AllSame([], s)
  {
  }

  // ---------- Building and extracting ----------

  /** Sifts down the indexes i - 1, .., 0. */
  function Built(s: seq<int>, i: nat): (r: seq<int>)
    requires i <= |s|
    ensures |r| == |s|
    decreases i
  {
    if i == 0 then s else Built(SiftedDown(s, i - 1), i - 1)
  }

  lemma OneMoreParent(s: seq<int>, i: nat)
    requires HeapFrom(s, i + 1)
    ensures HeapButDown(s, i, i)
  {
  }

  /** The bottom-up build gives a max-heap of the same values. */
  lemma {:induction false} BuiltIsHeap(s: seq<int>, i: nat)
    requires i <= |s| && HeapFrom(s, i)
    ensures IsHeap(Built(s, i)) && multiset(Built(s, i)) == multiset(s)
    decreases i
  {
    hide HeapFrom, HeapButDown, SiftedDown;
    if i > 0 {
      OneMoreParent(s, i - 1);
      SiftedDownIsHeap(s, i - 1, i - 1);
      BuiltIsHeap(SiftedDown(s, i - 1), i - 1);
    }
  }

  /** What is left of the heap after its root is taken: the last element sifted down from the root. */
  function Rest(s: seq<int>): (r: seq<int>)
    requires s != []
    ensures |r| == |s| - 1
  {
    if |s| == 1 then [] else SiftedDown(s[..|s| - 1][0 := s[|s| - 1]], 0)
  }

  function Extracted(s: seq<int>): seq<int>
    decreases |s|
  {
    if s == [] then [] else [s[0]] + Extracted(Rest(s))
  }

  predicate Descending(s: seq<int>) {
    forall i, j :: 0 <= i < j < |s| ==> s[i] >= s[j]
  }

  lemma TakeRoot(s: seq<int>)
    requires |s| > 1
    ensures multiset(s[..|s| - 1][0 := s[|s| - 1]]) + multiset{s[0]} == multiset(s)
  {
    var last := |s| - 1;
    assert s == s[..last] + [s[last]];
    assert s[..last][0 := s[last]] == [s[last]] + s[1..last];
    assert s[..last] == [s[0]] + s[1..last];
  }

  lemma RestIsHeap(s: seq<int>)
    requires s != [] && IsHeap(s)
    ensures IsHeap(Rest(s)) && multiset(Rest(s)) + multiset{s[0]} == multiset(s)
  {
    if |s| > 1 {
      var t := s[..|s| - 1][0 := s[|s| - 1]];
      TakeRoot(s);
      assert HeapButDown(t, 0, 0) by {
        forall c | 0 < c < |t| && Parent(c) != 0
          ensures t[c] <= t[Parent(c)]
        {
          assert s[c] <= s[Parent(c)];
        }
      }
      SiftedDownIsHeap(t, 0, 0);
    } else {
      assert s == [s[0]];
    }
  }

  lemma LargestFirst(x: int, rest: seq<int>)
    requires Descending(rest) && forall v :: v in multiset(rest) ==> v <= x
    ensures Descending([x] + rest) && multiset([x] + rest) == multiset(rest) + multiset{x}
  {
    forall j | 0 <= j < |rest|
      ensures rest[j] <= x
    {
      assert rest[j] in multiset(rest);
    }
  }

  lemma PartBounded(part: multiset<int>, whole: multiset<int>, x: int)
    requires part + multiset{x} == whole && forall v :: v in whole ==> v <= x
    ensures forall v :: v in part ==> v <= x
  {
    forall v | v in part
      ensures v in whole
    {
      assert (part + multiset{x})[v] >= part[v];
    }
  }

  lemma RootBoundsAll(s: seq<int>)
    requires s != [] && IsHeap(s)
    ensures forall v :: v in multiset(s) ==> v <= s[0]
  {
    forall v | v in multiset(s)
      ensures v <= s[0]
    {
      var i :| 0 <= i < |s| && s[i] == v;
      RootIsLargest(s, i);
    }
  }

  lemma {:induction false} ExtractedDescends(s: seq<int>)
    requires IsHeap(s)
    ensures Descending(Extracted(s)) && multiset(Extracted(s)) == multiset(s)
    decreases |s|
  {
    if s != [] {
      hide Rest, HeapFrom, Descending;
      RestIsHeap(s);
      RootBoundsAll(s);
      ExtractedDescends(Rest(s));
      var rest := Extracted(Rest(s));
      assert Extracted(s) == [s[0]] + rest;
      hide Extracted;
      PartBounded(multiset(rest), multiset(s), s[0]);
      LargestFirst(s[0], rest);
    } else {
      assert Extracted(s) == [];
    }
  }

  /** Heapsort: extraction yields a descending permutation of the input. */
  lemma HeapSortSorts(values: seq<int>)
    ensures Descending(Extracted(Built(values, |values| / 2)))
    ensures multiset(Extracted(Built(values, |values| / 2))) == multiset(values)
  {
    var half := |values| / 2;
    forall c | 0 < c < |values|
      ensures Parent(c) < half
    {
    }
    BuiltIsHeap(values, half);
    ExtractedDescends(Built(values, half));
  }

  /** No step loses or invents a value. */
  ghost predicate Conserved(steps: seq<Snapshot>, values: seq<int>) {
    forall k :: 0 <= k < |steps| ==> multiset(steps[k].heap) + multiset(steps[k].extracted) == multiset(values)
  }

  lemma ConservedMore(steps: seq<Snapshot>, shown: seq<seq<int>>, s: seq<int>, extracted: seq<int>,
          values: seq<int>)
    requires Conserved(steps, values) && AllSame(shown, s) && multiset(s) + multiset(extracted) == multiset(values)
    ensures Conserved(steps + Narrated(shown, extracted), values)
  {
    var more := Narrated(shown, extracted);
    forall k | 0 <= k < |steps + more|
      ensures multiset((steps + more)[k].heap) + multiset((steps + more)[k].extracted) == multiset(values)
    {
      if k >= |steps| {
        assert SameValues(shown[k - |steps|], s);
      }
    }
  }

  ghost function Narrated(shown: seq<seq<int>>, extracted: seq<int>): (r: seq<Snapshot>)
    ensures |r| == |shown| && forall k :: 0 <= k < |shown| ==> r[k] == Snapshot(shown[k], extracted)
  {
    seq(|shown|, k requires 0 <= k < |shown| => Snapshot(shown[k], extracted))
  }

  /** What is live, and what has been taken out. */
  ghost predicate Balanced(live: seq<int>, extracted: seq<int>, values: seq<int>) {
    multiset(live) + multiset(extracted) == multiset(values)
  }

  lemma {:induction false} ExtractOne(s: seq<int>, extracted: seq<int>, values: seq<int>)
    requires s != [] && Balanced(s, extracted, values)
    ensures Balanced(if |s| == 1 then [] else s[..|s| - 1][0 := s[|s| - 1]], extracted + [s[0]], values)
    ensures extracted + Extracted(s) == (extracted + [s[0]]) + Extracted(Rest(s))
  {
    hide Rest;
    assert Extracted(s) == [s[0]] + Extracted(Rest(s));
    hide Extracted;
    if |s| > 1 {
      TakeRoot(s);
    } else {
      assert s == [s[0]];
    }
  }

  /** The bottom-up build, in place. */
  method BuildHeap(heap: array<int>)
    modifies heap
    ensures heap[..] == Built(old(heap[..]), heap.Length / 2)
  {
    hide Built, SiftedDown, AllSame;
    var n := heap.Length;
    ghost var values := heap[..];
    var i := n / 2 - 1;
    while i >= 0
      invariant -1 <= i <= n / 2 - 1
      invariant Built(heap[..], i + 1) == Built(values, n / 2)
    {
      ghost var s := heap[..];
      assert heap[..n] == heap[..];
      ghost var shown := SiftDown(heap, i, n);
      assert heap[..n] == heap[..];
      BuiltStep(s, i);
      i := i - 1;
    }
    BuiltNone(heap[..]);
  }

  lemma BuiltStep(s: seq<int>, i: nat)
    requires i < |s|
    ensures Built(s, i + 1) == Built(SiftedDown(s, i), i)
  {
  }

  lemma BuiltNone(s: seq<int>)
    ensures Built(s, 0) == s
  {
  }

  /** The state of the extraction loop. */
  ghost predicate Extracting(live: seq<int>, extracted: seq<int>, steps: seq<Snapshot>, values: seq<int>) {
    && extracted + Extracted(live) == Extracted(Built(values, |values| / 2))
    && Balanced(live, extracted, values) && Conserved(steps, values)
  }

  lemma ExtractingBegins(values: seq<int>)
    ensures var s := Built(values, |values| / 2); Extracting(s, [], [Snapshot(s, [])], values)
  {
    var s := Built(values, |values| / 2);
    BuiltKeeps(values);
    assert [] + Extracted(s) == Extracted(s);
  }

  lemma BuiltKeeps(values: seq<int>)
    ensures multiset(Built(values, |values| / 2)) == multiset(values)
  {
    HalfIsHeap(values);
    BuiltIsHeap(values, |values| / 2);
  }

  /** One round of the extraction loop, with everything it shows. */
  lemma ExtractingStep(s: seq<int>, extracted: seq<int>, steps: seq<Snapshot>, shown: seq<seq<int>>,
          values: seq<int>)
    requires s != [] && Extracting(s, extracted, steps, values)
    requires |s| > 1 ==> AllSame(shown, s[..|s| - 1][0 := s[|s| - 1]])
    requires |s| == 1 ==> shown == []
    ensures var next := extracted + [s[0]];
            var t := if |s| == 1 then [] else s[..|s| - 1][0 := s[|s| - 1]];
            Extracting(Rest(s), next, steps + [Snapshot(s, extracted), Snapshot(t, next)] + Narrated(shown, next), values)
  {
    hide Extracted, Built, Conserved;
    var next := extracted + [s[0]];
    var t := if |s| == 1 then [] else s[..|s| - 1][0 := s[|s| - 1]];
    ExtractOne(s, extracted, values);
    ConservedPush(steps, Snapshot(s, extracted), values);
    ConservedPush(steps + [Snapshot(s, extracted)], Snapshot(t, next), values);
    assert steps + [Snapshot(s, extracted)] + [Snapshot(t, next)] == steps + [Snapshot(s, extracted), Snapshot(t, next)];
    if |s| > 1 {
      SiftedKeeps(t, 0);
    }
    AllSameBegins(t);
    ConservedMore(steps + [Snapshot(s, extracted), Snapshot(t, next)], shown, t, next, values);
  }

  lemma ExtractingEnds(extracted: seq<int>, steps: seq<Snapshot>, values: seq<int>)
    requires Extracting([], extracted, steps, values)
    ensures extracted == Extracted(Built(values, |values| / 2))
    ensures Descending(extracted) && multiset(extracted) == multiset(values)
    ensures Conserved(steps + [Snapshot([], extracted)], values)
  {
    assert Extracted([]) == [] && extracted + [] == extracted;
    HeapSortSorts(values);
  }

  /** Extraction yields a descending permutation, and every state shown on the way holds the same values. */
  method HeapExtractSteps(values: seq<int>) returns (r: Result<seq<int>>, ghost steps: seq<Snapshot>)
    ensures r.InputError? <==> |values| > MAX_ELEMENTS
    ensures r.Done? ==> r.value == Extracted(Built(values, |values| / 2))
    ensures r.Done? ==> Descending(r.value) && multiset(r.value) == multiset(values)
    ensures Conserved(steps, values)
  {
    hide Built, SiftedDown, Extracted, AllSame, Conserved, Rest, Descending, Extracting;
    steps := [];
    if |values| > MAX_ELEMENTS {
      ConservedNothing(values);
      return InputError, steps;
    }
    var n := |values|;
    var heap := new int[n](i requires 0 <= i < n => values[i]);
    assert heap[..] == values;
    BuildHeap(heap);
    var extracted: seq<int> := [];
    steps := [Snapshot(heap[..], [])];
    ExtractingBegins(values);
    var size := n;
    assert heap[..size] == heap[..];
    while size > 0
      invariant 0 <= size <= n
      invariant Extracting(heap[..size], extracted, steps, values)
    {
      ghost var s := heap[..size];
      var root := heap[0];
      heap[0] := heap[size - 1];
      size := size - 1;
      ghost var t := heap[..size];
      ghost var shown := [];
      if size > 0 {
        assert t == s[..|s| - 1][0 := s[|s| - 1]];
        shown := SiftDown(heap, 0, size);
      }
      RestIs(s);
      assert heap[..size] == Rest(s);
      ExtractingStep(s, extracted, steps, shown, values);
      steps := steps + [Snapshot(s, extracted), Snapshot(t, extracted + [root])] + Narrated(shown, extracted + [root]);
      extracted := extracted + [root];
    }
    assert heap[..size] == [];
    ExtractingEnds(extracted, steps, values);
    steps := steps + [Snapshot([], extracted)];
    r := Done(extracted);
  }

  lemma RestIs(s: seq<int>)
    requires s != []
    ensures Rest(s) == if |s| == 1 then [] else SiftedDown(s[..|s| - 1][0 := s[|s| - 1]], 0)
  {
  }

  lemma ConservedNothing(values: seq<int>)
    ensures Conserved([], values)
  {
  }

  lemma HalfIsHeap(values: seq<int>)
    ensures HeapFrom(values, |values| / 2) && SameValues(values, values)
  {
    forall c | 0 < c < |values|
      ensures Parent(c) < |values| / 2
    {
    }
  }

  lemma ConservedPush(steps: seq<Snapshot>, shot: Snapshot, values: seq<int>)
    requires Conserved(steps, values) && Balanced(shot.heap, shot.extracted, values)
    ensures Conserved(steps + [shot], values)
  {
  }

  /** Sifting keeps the values whether or not the rest is a heap. */
  lemma {:induction false} SiftedKeeps(s: seq<int>, x: nat)
    requires x < |s|
    ensures multiset(SiftedDown(s, x)) == multiset(s)
    decreases |s| - x
  {
    var l := Largest(s, x);
    if l != x {
      SwapKeeps(s, x, l);
      SiftedKeeps(Swapped(s, x, l), l);
    }
  }

  // ---------- Inserting ----------

  /** The heap after pushing the values one at a time and sifting each up. */
  function Pushed(values: seq<int>): (r: seq<int>)
    ensures |r| == |values|
  {
    if values == [] then []
    else
      var n := |values| - 1;
      SiftedUp(Pushed(values[..n]) + [values[n]], n)
  }

  lemma PushButUp(s: seq<int>, v: int)
    requires IsHeap(s)
    ensures HeapButUp(s + [v], |s|)
  {
    var t := s + [v];
    forall c | 0 < c < |t| && c != |s|
      ensures t[c] <= t[Parent(c)]
    {
      assert s[c] <= s[Parent(c)];
    }
    forall c | 0 < c < |t|
      ensures Parent(c) != |s|
    {
    }
  }

  lemma {:induction false} PushedIsHeap(values: seq<int>)
    ensures IsHeap(Pushed(values)) && multiset(Pushed(values)) == multiset(values)
  {
    if values != [] {
      var n := |values| - 1;
      PushedIsHeap(values[..n]);
      assert Pushed(values) == SiftedUp(Pushed(values[..n]) + [values[n]], n);
      hide Pushed, SiftedUp, HeapFrom, HeapButUp;
      var t := Pushed(values[..n]) + [values[n]];
      PushButUp(Pushed(values[..n]), values[n]);
      SiftedUpIsHeap(t, n);
      assert values == values[..n] + [values[n]];
    }
  }

  method HeapInsertSteps(values: seq<int>) returns (r: Result<seq<int>>)
    ensures r.InputError? <==> |values| > MAX_ELEMENTS
    ensures r.Done? ==> r.value == Pushed(values)
    ensures r.Done? ==> IsHeap(r.value) && multiset(r.value) == multiset(values)
  {
    if |values| > MAX_ELEMENTS {
      return InputError;
    }
    var heap: seq<int> := [];
    for n := 0 to |values|
      invariant heap == Pushed(values[..n])
    {
      hide SiftedUp;
      var value := values[n];
      assert values[..n + 1][..n] == values[..n];
      heap := heap + [value];
      ghost var before := heap;
      var index := |heap| - 1;
      while index > 0
        invariant 0 <= index < |heap| == |before|
        invariant SiftedUp(heap, index) == SiftedUp(before, n)
      {
        var parent := (index - 1) / 2;
        SiftUpStep(heap, index);
        if heap[parent] >= heap[index] {
          break;
        }
        heap := heap[parent := heap[index]][index := heap[parent]];
        index := parent;
      }
      SiftUpEnds(heap, index);
    }
    assert values[..|values|] == values;
    PushedIsHeap(values);
    r := Done(heap);
  }

  lemma SiftUpStep(s: seq<int>, x: nat)
    requires 0 < x < |s|
    ensures var p := (x - 1) / 2;
            s[p] < s[x] ==> SiftedUp(s, x) == SiftedUp(s[p := s[x]][x := s[p]], p)
  {
    var p := Parent(x);
    assert s[p := s[x]][x := s[p]] == Swapped(s, x, p);
  }

  lemma SiftUpEnds(s: seq<int>, x: nat)
    requires x < |s| && (x == 0 || s[(x - 1) / 2] >= s[x])
    ensures SiftedUp(s, x) == s
  {
  }
}
