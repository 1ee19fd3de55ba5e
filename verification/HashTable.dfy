/** The hash table visualiser: separate chaining, linear probing and quadratic probing. */
module HashTable {
  import opened Structures
  import opened Primes

  datatype Strategy = Chaining | LinearProbing | QuadraticProbing

  datatype Table = Table(buckets: seq<seq<int>>, rejected: seq<int>, stored: nat)

  function HashValue(value: int, size: nat): (h: nat)
    requires size > 0
    ensures h < size
  {
    (if value < 0 then -value else value) % size
  }

  function Stride(strategy: Strategy, attempt: nat): nat {
    if strategy == LinearProbing then attempt else attempt * attempt
  }

  /** The bucket looked at on the given attempt. */
  function Probe(value: int, size: nat, strategy: Strategy, attempt: nat): (index: nat)
    requires size > 0
    ensures index < size
  {
    (HashValue(value, size) + Stride(strategy, attempt)) % size
  }

  /** The search for a value ends at a bucket that holds it or is empty. */
  predicate Stops(buckets: seq<seq<int>>, value: int, strategy: Strategy, attempt: nat)
    requires |buckets| > 0
  {
    var b := buckets[Probe(value, |buckets|, strategy, attempt)];
    value in b || b == []
  }

  /** The first attempt at which the search ends, or the table size when it never does. */
  function FirstStop(buckets: seq<seq<int>>, value: int, strategy: Strategy, from: nat): (a: nat)
    requires |buckets| > 0 && from <= |buckets|
    ensures from <= a <= |buckets|
    ensures a < |buckets| ==> Stops(buckets, value, strategy, a)
    ensures forall e :: from <= e < a ==> !Stops(buckets, value, strategy, e)
    decreases |buckets| - from
  {
    if from == |buckets| || Stops(buckets, value, strategy, from) then from else FirstStop(buckets, value, strategy, from + 1)
  }

  function Insert(t: Table, value: int, strategy: Strategy): (r: Table)
    requires |t.buckets| > 0
    ensures |r.buckets| == |t.buckets|
  {
    var size := |t.buckets|;
    if strategy == Chaining then
      var home := HashValue(value, size);
      if value in t.buckets[home] then t
      else Table(t.buckets[home := t.buckets[home] + [value]], t.rejected, t.stored + 1)
    else
      var a := FirstStop(t.buckets, value, strategy, 0);
      if a == size then Table(t.buckets, t.rejected + [value], t.stored)
      else
        var index := Probe(value, size, strategy, a);
        if value in t.buckets[index] then t
        else Table(t.buckets[index := t.buckets[index] + [value]], t.rejected, t.stored + 1)
  }

  function Empty(size: nat): Table {
    Table(seq(size, _ => []), [], 0)
  }

  /** The table after inserting the values in order. */
  function Run(values: seq<int>, size: nat, strategy: Strategy): (t: Table)
    requires size > 0
    ensures |t.buckets| == size
  {
    if values == [] then Empty(size) else Insert(Run(values[..|values| - 1], size, strategy), values[|values| - 1], strategy)
  }

  // ---------- The generator ----------

  /** The tables shown while the first n values go in, with how many are in at each: from none to n, none left out,
      never back, and each time the table is the one after so many insertions. */
  ghost predicate Shown(steps: seq<Table>, inserted: seq<nat>, values: seq<int>, size: nat, strategy: Strategy, n: nat)
    requires size > 0 && n <= |values|
  {
    && |steps| == |inserted| > 0 && inserted[0] == 0 && inserted[|inserted| - 1] == n
    && (forall k :: 0 < k < |inserted| ==> inserted[k - 1] <= inserted[k] <= inserted[k - 1] + 1)
    && (forall k :: 0 <= k < |steps| ==> ShowsPrefix(steps[k], values, size, strategy, inserted[k]))
  }

  ghost predicate ShowsPrefix(t: Table, values: seq<int>, size: nat, strategy: Strategy, p: nat)
    requires size > 0
  {
    p <= |values| && t == Run(values[..p], size, strategy)
  }

  lemma RunNext(values: seq<int>, size: nat, strategy: Strategy, n: nat)
    requires size > 0 && n < |values|
    ensures Run(values[..n + 1], size, strategy) == Insert(Run(values[..n], size, strategy), values[n], strategy)
  {
    assert values[..n + 1][..n] == values[..n];
  }

  /** The attempts before `attempt` found neither the value nor room. */
  ghost predicate Searching(t: Table, value: int, strategy: Strategy, attempt: nat)
    requires |t.buckets| > 0 && attempt <= |t.buckets|
  {
    FirstStop(t.buckets, value, strategy, 0) == FirstStop(t.buckets, value, strategy, attempt)
  }

  lemma SearchBegins(t: Table, value: int, strategy: Strategy)
    requires |t.buckets| > 0
    ensures Searching(t, value, strategy, 0)
  {
  }

  /** How the search can end, and what the insertion then does. */
  lemma SearchEnds(t: Table, value: int, strategy: Strategy, attempt: nat)
    requires strategy != Chaining && |t.buckets| > 0 && attempt <= |t.buckets| && Searching(t, value, strategy, attempt)
    ensures attempt == |t.buckets| ==> Insert(t, value, strategy) == Table(t.buckets, t.rejected + [value], t.stored)
    ensures attempt < |t.buckets| ==>
              var index := Probe(value, |t.buckets|, strategy, attempt);
              if value in t.buckets[index] then Insert(t, value, strategy) == t
              else if t.buckets[index] == [] then
                Insert(t, value, strategy) == Table(t.buckets[index := t.buckets[index] + [value]], t.rejected, t.stored + 1)
              else Searching(t, value, strategy, attempt + 1)
  {
    hide Probe;
  }

  /** One insertion under open addressing, bucket by bucket; the snapshots show the table before or after it. */
  method InsertOpen(table: Table, value: int, strategy: Strategy) returns (r: Table, ghost steps: seq<Table>)
    requires strategy != Chaining && |table.buckets| > 0
    ensures r == Insert(table, value, strategy)
    ensures steps != [] && steps[|steps| - 1] == r && forall k :: 0 <= k < |steps| - 1 ==> steps[k] == table
  {
    hide Insert, Searching, FirstStop, Probe;
    var size := |table.buckets|;
    var buckets, rejected, stored := table.buckets, table.rejected, table.stored;
    steps := [];
    SearchBegins(table, value, strategy);
    var placed := false;
    var attempt := 0;
    while attempt < size && !placed
      invariant 0 <= attempt <= size
      invariant rejected == table.rejected
      invariant placed ==> Table(buckets, rejected, stored) == Insert(table, value, strategy)
      invariant !placed ==> table == Table(buckets, rejected, stored) && Searching(table, value, strategy, attempt)
      invariant |steps| == attempt + if placed then 1 else 0
      invariant placed ==> steps[|steps| - 1] == Table(buckets, rejected, stored)
      invariant forall k :: 0 <= k < attempt ==> steps[k] == table
      decreases size - attempt, !placed
    {
      SearchEnds(table, value, strategy, attempt);
      var index := Probe(value, size, strategy, attempt);
      if value in buckets[index] {
        placed := true;
      } else if buckets[index] == [] {
        buckets := buckets[index := buckets[index] + [value]];
        stored := stored + 1;
        placed := true;
      } else {
        attempt := attempt + 1;
      }
      steps := steps + [Table(buckets, rejected, stored)];
    }
    if !placed {
      SearchEnds(table, value, strategy, attempt);
      rejected := rejected + [value];
      steps := steps + [Table(buckets, rejected, stored)];
    }
    r := Table(buckets, rejected, stored);
  }

  /** How many values are in while one more goes in: the last table shows it. */
  function Counts(n: nat, length: nat): (r: seq<nat>)
    requires length > 0
    ensures |r| == length && r[length - 1] == n + 1 && forall k :: 0 <= k < length - 1 ==> r[k] == n
  {
    seq(length - 1, _ => n) + [n + 1]
  }

  lemma ShownInsertion(steps: seq<Table>, inserted: seq<nat>, more: seq<Table>, values: seq<int>,
          size: nat, strategy: Strategy, n: nat)
    requires size > 0 && n < |values| && Shown(steps, inserted, values, size, strategy, n) && |more| > 1
    requires more[|more| - 1] == Run(values[..n + 1], size, strategy)
    requires forall k :: 0 <= k < |more| - 1 ==> more[k] == Run(values[..n], size, strategy)
    ensures Shown(steps + more, inserted + Counts(n, |more|), values, size, strategy, n + 1)
  {
    hide Run, Counts;
    var all, counts := steps + more, inserted + Counts(n, |more|);
    forall k | 0 <= k < |all|
      ensures ShowsPrefix(all[k], values, size, strategy, counts[k])
    {
      if k < |steps| {
        assert ShowsPrefix(steps[k], values, size, strategy, inserted[k]);
      }
    }
    assert counts[|counts| - 1] == n + 1;
  }

  lemma ShownFirst(values: seq<int>, size: nat, strategy: Strategy)
    requires size > 0
    ensures Shown([Empty(size)], [0], values, size, strategy, 0) && Run(values[..0], size, strategy) == Empty(size)
  {
    assert ShowsPrefix(Empty(size), values, size, strategy, 0);
  }

  lemma ShownAgain(steps: seq<Table>, inserted: seq<nat>, values: seq<int>, size: nat,
          strategy: Strategy, t: Table)
    requires size > 0 && Shown(steps, inserted, values, size, strategy, |values|) && t == Run(values, size, strategy)
    ensures Shown(steps + [t], inserted + [|values|], values, size, strategy, |values|)
  {
    hide Run;
    assert values[..|values|] == values;
    forall k | 0 <= k < |steps| + 1
      ensures ShowsPrefix((steps + [t])[k], values, size, strategy, (inserted + [|values|])[k])
    {
      assert k < |steps| ==> ShowsPrefix(steps[k], values, size, strategy, inserted[k]);
    }
  }

  /** One insertion, with the tables shown on the way. */
  method InsertOne(before: Table, value: int, strategy: Strategy) returns (table: Table, ghost shown: seq<Table>)
    requires |before.buckets| > 0
    ensures table == Insert(before, value, strategy) && |shown| > 1
    ensures shown[|shown| - 1] == table && forall k :: 0 <= k < |shown| - 1 ==> shown[k] == before
  {
    hide FirstStop, Probe;
    table := before;
    var home := HashValue(value, |table.buckets|);
    shown := [table];
    if strategy == Chaining {
      if value !in table.buckets[home] {
        table := Table(table.buckets[home := table.buckets[home] + [value]], table.rejected, table.stored + 1);
      }
      shown := shown + [table];
    } else {
      ghost var probes;
      table, probes := InsertOpen(table, value, strategy);
      shown := shown + probes;
    }
  }

  /** Shows a snapshot after every probe and every insertion; steps collects the tables shown, inserted counts the values in. */
  method HashTableSteps(values: seq<int>, size: int, strategy: Strategy)
    returns (r: Result<Table>, ghost steps: seq<Table>, ghost inserted: seq<nat>)
    ensures r.InputError? <==> |values| > MAX_ELEMENTS || size < 1 || size > MAX_ELEMENTS
    ensures r.Done? ==> r.value == Run(values, size, strategy)
    ensures r.Done? ==> Shown(steps, inserted, values, size, strategy, |values|)
  {
    hide Run, Shown, Counts, Insert;
    steps, inserted := [], [];
    if |values| > MAX_ELEMENTS || size < 1 || size > MAX_ELEMENTS {
      return InputError, steps, inserted;
    }
    var table := Table(seq(size, _ => []), [], 0);
    assert values[..0] == [];
    steps, inserted := [table], [0];
    ShownFirst(values, size, strategy);
    for n := 0 to |values|
      invariant |table.buckets| == size && table == Run(values[..n], size, strategy)
      invariant Shown(steps, inserted, values, size, strategy, n)
    {
      RunNext(values, size, strategy, n);
      ghost var shown;
      table, shown := InsertOne(table, values[n], strategy);
      ShownInsertion(steps, inserted, shown, values, size, strategy, n);
      inserted := inserted + Counts(n, |shown|);
      steps := steps + shown;
    }
    assert values[..|values|] == values;
    ShownAgain(steps, inserted, values, size, strategy, table);
    steps, inserted := steps + [table], inserted + [|values|];
    r := Done(table);
  }

  // ---------- What a run of open addressing keeps ----------

  /** v is stored in bucket s. */
  predicate StoredAt(t: Table, v: int, s: int) {
    0 <= s < |t.buckets| && v in t.buckets[s]
  }

  ghost predicate Stored(t: Table, v: int) {
    exists s :: StoredAt(t, v, s)
  }

  /** A stored value sits exactly where the search for it ends. */
  ghost predicate Findable(t: Table, strategy: Strategy, v: int, s: int)
    requires |t.buckets| > 0
  {
    StoredAt(t, v, s) ==>
      var a := FirstStop(t.buckets, v, strategy, 0);
      a < |t.buckets| && s == Probe(v, |t.buckets|, strategy, a)
  }

  /** The search for a rejected value never ends. */
  ghost predicate Hopeless(t: Table, strategy: Strategy, v: int)
    requires |t.buckets| > 0
  {
    FirstStop(t.buckets, v, strategy, 0) == |t.buckets|
  }

  ghost predicate Sound(t: Table, strategy: Strategy, values: seq<int>) {
    && |t.buckets| > 0
    && (forall s :: 0 <= s < |t.buckets| ==> |t.buckets[s]| <= 1)
    && (forall v, s :: Findable(t, strategy, v, s))
    && (forall v :: v in t.rejected ==> Hopeless(t, strategy, v))
    && (forall v :: v in values <==> v in t.rejected || Stored(t, v))
  }

  /** The first stop is determined by being a stop with none before it. */
  lemma FirstStopIs(b: seq<seq<int>>, v: int, strategy: Strategy, a: nat)
    requires |b| > 0 && a <= |b| && (a < |b| ==> Stops(b, v, strategy, a))
    requires forall e :: 0 <= e < a ==> !Stops(b, v, strategy, e)
    ensures FirstStop(b, v, strategy, 0) == a
  {
    var f := FirstStop(b, v, strategy, 0);
    assert f <= a;
  }

  /** Filling an empty bucket disturbs no search that ended elsewhere, or nowhere. */
  lemma StopSurvives(b: seq<seq<int>>, strategy: Strategy, v: int, w: int, s: nat)
    requires s < |b| && b[s] == [] && v != w
    requires var a := FirstStop(b, v, strategy, 0); a < |b| ==> b[Probe(v, |b|, strategy, a)] != []
    ensures FirstStop(b[s := [w]], v, strategy, 0) == FirstStop(b, v, strategy, 0)
  {
    hide Probe;
    var c, a := b[s := [w]], FirstStop(b, v, strategy, 0);
    forall e | 0 <= e < a
      ensures !Stops(c, v, strategy, e)
    {
      assert !Stops(b, v, strategy, e);
    }
    FirstStopIs(c, v, strategy, a);
  }

  /** A value put into the empty bucket where the search for it ended is found there. */
  lemma PlacedIsFound(b: seq<seq<int>>, strategy: Strategy, w: int)
    requires |b| > 0 && FirstStop(b, w, strategy, 0) < |b|
    requires b[Probe(w, |b|, strategy, FirstStop(b, w, strategy, 0))] == []
    ensures var a := FirstStop(b, w, strategy, 0);
            FirstStop(b[Probe(w, |b|, strategy, a) := [w]], w, strategy, 0) == a
  {
    hide Probe;
    var a := FirstStop(b, w, strategy, 0);
    var c := b[Probe(w, |b|, strategy, a) := [w]];
    forall e | 0 <= e < a
      ensures !Stops(c, w, strategy, e)
    {
      assert !Stops(b, w, strategy, e);
    }
    FirstStopIs(c, w, strategy, a);
  }

  lemma SoundEmpty(size: nat, strategy: Strategy)
    requires size > 0
    ensures Sound(Empty(size), strategy, [])
  {
  }

  /** One insertion keeps the table sound. */
  lemma SoundInsert(t: Table, strategy: Strategy, values: seq<int>, w: int)
    requires strategy != Chaining && Sound(t, strategy, values)
    ensures Sound(Insert(t, w, strategy), strategy, values + [w])
  {
    hide Probe, FirstStop;
    var r := Insert(t, w, strategy);
    var n, a := |t.buckets|, FirstStop(t.buckets, w, strategy, 0);
    forall v
      ensures v in values + [w] <==> v in values || v == w
    {
      assert w == (values + [w])[|values|];
    }
    if a == n {
      SoundReject(t, strategy, w);
      assert forall v, s :: StoredAt(t, v, s) == StoredAt(r, v, s);
      assert forall v, s :: Findable(t, strategy, v, s) ==> Findable(r, strategy, v, s);
      forall v
        ensures v in values + [w] <==> v in r.rejected || Stored(r, v)
      {
        assert Stored(t, v) <==> Stored(r, v);
      }
    } else {
      var s := Probe(w, n, strategy, a);
      if w in t.buckets[s] {
        assert StoredAt(t, w, s);
      } else {
        assert Stops(t.buckets, w, strategy, a);
        SoundPlace(t, strategy, values, w);
      }
    }
  }

  lemma SoundReject(t: Table, strategy: Strategy, w: int)
    requires |t.buckets| > 0 && FirstStop(t.buckets, w, strategy, 0) == |t.buckets|
    ensures Hopeless(Table(t.buckets, t.rejected + [w], t.stored), strategy, w)
  {
  }

  lemma SoundPlace(t: Table, strategy: Strategy, values: seq<int>, w: int)
    requires Sound(t, strategy, values)
    requires FirstStop(t.buckets, w, strategy, 0) < |t.buckets|
    requires t.buckets[Probe(w, |t.buckets|, strategy, FirstStop(t.buckets, w, strategy, 0))] == []
    ensures var s := Probe(w, |t.buckets|, strategy, FirstStop(t.buckets, w, strategy, 0));
            Sound(Table(t.buckets[s := t.buckets[s] + [w]], t.rejected, t.stored + 1), strategy, values + [w])
  {
    hide Probe, FirstStop;
    var a := FirstStop(t.buckets, w, strategy, 0);
    var s := Probe(w, |t.buckets|, strategy, a);
    var c := t.buckets[s := [w]];
    assert [] + [w] == [w];
    var r := Table(c, t.rejected, t.stored + 1);
    PlacedIsFound(t.buckets, strategy, w);
    forall v, e
      ensures Findable(r, strategy, v, e)
    {
      assert Findable(t, strategy, v, e);
      if StoredAt(t, v, e) && v != w {
        StopSurvives(t.buckets, strategy, v, w, s);
      }
    }
    forall v | v in r.rejected
      ensures Hopeless(r, strategy, v)
    {
      assert Hopeless(t, strategy, v);
      if v != w {
        StopSurvives(t.buckets, strategy, v, w, s);
      }
    }
    forall v
      ensures v in values + [w] <==> v in r.rejected || Stored(r, v)
    {
      assert StoredAt(r, w, s);
      if v != w {
        StoredElsewhere(t, r, v, w, s);
      }
    }
  }

  lemma StoredElsewhere(t: Table, r: Table, v: int, w: int, s: nat)
    requires v != w && s < |t.buckets| && t.buckets[s] == [] && r.buckets == t.buckets[s := [w]]
    ensures Stored(t, v) <==> Stored(r, v)
  {
    if Stored(t, v) {
      var e :| StoredAt(t, v, e);
      assert StoredAt(r, v, e);
    }
    if Stored(r, v) {
      var e :| StoredAt(r, v, e);
      assert StoredAt(t, v, e);
    }
  }

  lemma {:induction false} RunSound(values: seq<int>, size: nat, strategy: Strategy)
    requires strategy != Chaining && size > 0
    ensures Sound(Run(values, size, strategy), strategy, values)
  {
    if values == [] {
      SoundEmpty(size, strategy);
    } else {
      var n := |values| - 1;
      RunSound(values[..n], size, strategy);
      hide Sound, Insert;
      SoundInsert(Run(values[..n], size, strategy), strategy, values[..n], values[n]);
      assert values[..n] + [values[n]] == values;
    }
  }

  /** Open addressing stores each value at most once, loses none, and never both stores and rejects one. */
  lemma OpenAddressing(values: seq<int>, size: nat, strategy: Strategy)
    requires strategy != Chaining && size > 0
    ensures var t := Run(values, size, strategy);
            && (forall s :: 0 <= s < size ==> |t.buckets[s]| <= 1)
            && (forall v, s, e :: StoredAt(t, v, s) && StoredAt(t, v, e) ==> s == e)
            && (forall v :: v in values <==> v in t.rejected || Stored(t, v))
            && (forall v :: !(v in t.rejected && Stored(t, v)))
  {
    hide FirstStop, Probe, Run;
    RunSound(values, size, strategy);
    var t := Run(values, size, strategy);
    forall v, s, e | StoredAt(t, v, s) && StoredAt(t, v, e)
      ensures s == e
    {
      assert Findable(t, strategy, v, s) && Findable(t, strategy, v, e);
    }
    forall v | v in t.rejected
      ensures !Stored(t, v)
    {
      assert Hopeless(t, strategy, v);
      forall s
        ensures !StoredAt(t, v, s)
      {
        assert Findable(t, strategy, v, s);
      }
    }
  }

  /** Inserting a stored value again changes nothing: the search meets occupied buckets only, and then the earlier copy. */
  lemma RepeatedInsertion(values: seq<int>, size: nat, strategy: Strategy, v: int, s: nat)
    requires strategy != Chaining && size > 0 && StoredAt(Run(values, size, strategy), v, s)
    ensures var t := Run(values, size, strategy); var a := FirstStop(t.buckets, v, strategy, 0);
            && Insert(t, v, strategy) == t && a < size && Probe(v, size, strategy, a) == s
            && forall e :: 0 <= e < a ==> t.buckets[Probe(v, size, strategy, e)] != [] && v !in t.buckets[Probe(v, size, strategy, e)]
  {
    hide FirstStop, Probe, Run;
    RunSound(values, size, strategy);
    var t := Run(values, size, strategy);
    assert Findable(t, strategy, v, s);
    forall e | 0 <= e < FirstStop(t.buckets, v, strategy, 0)
      ensures t.buckets[Probe(v, size, strategy, e)] != [] && v !in t.buckets[Probe(v, size, strategy, e)]
    {
      assert !Stops(t.buckets, v, strategy, e);
    }
  }

  /** The values that are among the given ones, in order and as often as they come. */
  function Only(values: seq<int>, kept: seq<int>): seq<int> {
    if values == [] then []
    else
      var n := |values| - 1;
      Only(values[..n], kept) + if values[n] in kept then [values[n]] else []
  }

  lemma {:induction false} OnlySame(values: seq<int>, kept: seq<int>, more: seq<int>)
    requires forall i :: 0 <= i < |values| ==> (values[i] in kept <==> values[i] in more)
    ensures Only(values, kept) == Only(values, more)
  {
    if values != [] {
      var n := |values| - 1;
      OnlySame(values[..n], kept, more);
    }
  }

  /** A value once rejected is rejected every time, and the list of the rejected keeps order and repetitions of the input. */
  lemma {:induction false} RejectedInOrder(values: seq<int>, size: nat, strategy: Strategy)
    requires strategy != Chaining && size > 0
    ensures var rejected := Run(values, size, strategy).rejected; rejected == Only(values, rejected)
  {
    if values != [] {
      var n := |values| - 1;
      RejectedInOrder(values[..n], size, strategy);
      hide Probe;
      RejectOne(Run(values[..n], size, strategy), values[..n], values[n], strategy);
      assert values == values[..n] + [values[n]];
    }
  }

  lemma RejectOne(t: Table, before: seq<int>, w: int, strategy: Strategy)
    requires strategy != Chaining && |t.buckets| > 0 && t == Run(before, |t.buckets|, strategy) && t.rejected == Only(before, t.rejected)
    ensures var r := Insert(t, w, strategy); r.rejected == Only(before + [w], r.rejected)
  {
    hide Probe, FirstStop, Run;
    var r := Insert(t, w, strategy);
    RunSound(before, |t.buckets|, strategy);
    OpenAddressing(before, |t.buckets|, strategy);
    assert (before + [w])[..|before|] == before;
    var a := FirstStop(t.buckets, w, strategy, 0);
    if a == |t.buckets| {
      forall s
        ensures !StoredAt(t, w, s)
      {
        assert Findable(t, strategy, w, s);
      }
      assert w in before ==> w in t.rejected;
      OnlySame(before, t.rejected, r.rejected);
    } else {
      assert w in t.rejected ==> Hopeless(t, strategy, w);
    }
  }

  // ---------- When insertion can fail ----------

  /** The buckets that hold something. */
  function Occupied(t: Table): (r: set<nat>)
    ensures forall s :: s in r <==> 0 <= s < |t.buckets| && t.buckets[s] != []
  {
    set s: nat | 0 <= s < |t.buckets| && t.buckets[s] != []
  }

  /** The buckets a search for v can look at during the first n attempts. */
  function Probes(v: int, size: nat, strategy: Strategy, n: nat): (r: set<nat>)
    requires size > 0
    ensures forall s :: s in r <==> exists a :: 0 <= a < n && s == Probe(v, size, strategy, a)
  {
    set a | 0 <= a < n :: Probe(v, size, strategy, a)
  }

  /** A value is rejected exactly when it is new and every bucket its search can reach is taken. */
  lemma RejectedIff(t: Table, strategy: Strategy, values: seq<int>, v: int)
    requires strategy != Chaining && Sound(t, strategy, values)
    ensures FirstStop(t.buckets, v, strategy, 0) == |t.buckets| <==>
              !Stored(t, v) && Probes(v, |t.buckets|, strategy, |t.buckets|) <= Occupied(t)
  {
    hide Probe, FirstStop;
    var n := |t.buckets|;
    var a := FirstStop(t.buckets, v, strategy, 0);
    forall s
      ensures a == n ==> !StoredAt(t, v, s)
    {
      assert Findable(t, strategy, v, s);
    }
    if a == n {
      forall s | s in Probes(v, n, strategy, n)
        ensures s in Occupied(t)
      {
        var e :| 0 <= e < n && s == Probe(v, n, strategy, e);
        assert !Stops(t.buckets, v, strategy, e);
      }
    } else {
      var s := Probe(v, n, strategy, a);
      assert Stops(t.buckets, v, strategy, a) && s in Probes(v, n, strategy, n);
      assert v in t.buckets[s] ==> StoredAt(t, v, s);
    }
  }

  /** Linear probing looks at every bucket. */
  lemma LinearReachesAll(v: int, size: nat, s: nat)
    requires s < size
    ensures s in Probes(v, size, LinearProbing, size)
  {
    var h := HashValue(v, size);
    var a := if s >= h then s - h else s + size - h;
    if s >= h {
      DivisionUnique(size, h + a, 0, s);
    } else {
      DivisionUnique(size, h + a, 1, s);
    }
    assert Probe(v, size, LinearProbing, a) == s;
  }

  predicate Full(t: Table) {
    forall s :: 0 <= s < |t.buckets| ==> t.buckets[s] != []
  }

  /** One insertion never empties a bucket. */
  lemma FullStays(t: Table, v: int, strategy: Strategy)
    requires |t.buckets| > 0 && Full(t)
    ensures Full(Insert(t, v, strategy))
  {
    hide Probe, FirstStop;
  }

  /** Linear probing rejects only when the table is full. */
  lemma {:induction false} LinearRejectsOnlyWhenFull(values: seq<int>, size: nat)
    requires size > 0
    ensures Run(values, size, LinearProbing).rejected != [] ==> Full(Run(values, size, LinearProbing))
  {
    if values != [] {
      var n := |values| - 1;
      var t := Run(values[..n], size, LinearProbing);
      LinearRejectsOnlyWhenFull(values[..n], size);
      RunSound(values[..n], size, LinearProbing);
      RejectedIff(t, LinearProbing, values[..n], values[n]);
      if t.rejected != [] {
        FullStays(t, values[n], LinearProbing);
      } else if FirstStop(t.buckets, values[n], LinearProbing, 0) == size {
        forall s | 0 <= s < size
          ensures t.buckets[s] != []
        {
          LinearReachesAll(values[n], size, s);
          assert s in Occupied(t);
        }
      }
    }
  }

  // ---------- The quadratic guarantee ----------

  function Half(p: nat): nat {
    (p + 1) / 2
  }

  /** On a prime table the first half of the probes are pairwise different. */
  lemma FirstHalfDistinct(v: int, p: nat, i: nat, j: nat)
    requires IsPrime(p) && j < i < Half(p)
    ensures Probe(v, p, QuadraticProbing, i) != Probe(v, p, QuadraticProbing, j)
  {
    assert i + j < p;
    SquaresDiffer(p, HashValue(v, p), i, j);
  }

  /** Each attempt of the first half reaches one more bucket. */
  lemma OneMoreProbe(v: int, p: nat, n: nat)
    requires IsPrime(p) && 0 < n <= Half(p)
    ensures var s := Probe(v, p, QuadraticProbing, n - 1);
            && s !in Probes(v, p, QuadraticProbing, n - 1)
            && Probes(v, p, QuadraticProbing, n) == Probes(v, p, QuadraticProbing, n - 1) + {s}
  {
    var s := Probe(v, p, QuadraticProbing, n - 1);
    forall j | 0 <= j < n - 1
      ensures Probe(v, p, QuadraticProbing, j) != s
    {
      FirstHalfDistinct(v, p, n - 1, j);
    }
    hide Probe;
  }

  lemma {:induction false} CountProbes(v: int, p: nat, n: nat)
    requires IsPrime(p) && n <= Half(p)
    ensures |Probes(v, p, QuadraticProbing, n)| == n
  {
    if n > 0 {
      CountProbes(v, p, n - 1);
      OneMoreProbe(v, p, n);
    }
  }

  lemma MirroredAttempt(p: nat, a: nat)
    requires p % 2 == 1 && Half(p) <= a < p
    ensures 0 < p - a < Half(p)
  {
  }

  lemma ProbeMirror(v: int, p: nat, a: nat)
    requires 0 < a < p
    ensures Probe(v, p, QuadraticProbing, p - a) == Probe(v, p, QuadraticProbing, a)
  {
    SquaresMirror(p, HashValue(v, p), a);
  }

  /** On a prime table the later probes only revisit buckets of the first half. */
  lemma SecondHalfRevisits(v: int, p: nat)
    requires IsPrime(p)
    ensures p > 2 ==> Probes(v, p, QuadraticProbing, p) == Probes(v, p, QuadraticProbing, Half(p))
    ensures Probes(v, p, QuadraticProbing, Half(p)) <= Probes(v, p, QuadraticProbing, p)
  {
    hide Probe;
    assert Half(p) <= p;
    assert p > 2 ==> p % 2 == 1;
    hide Half, IsPrime;
    if p > 2 {
      forall s | s in Probes(v, p, QuadraticProbing, p)
        ensures s in Probes(v, p, QuadraticProbing, Half(p))
      {
        var a :| 0 <= a < p && s == Probe(v, p, QuadraticProbing, a);
        if a >= Half(p) {
          MirroredAttempt(p, a);
          ProbeMirror(v, p, a);
          assert s == Probe(v, p, QuadraticProbing, p - a);
        }
      }
    }
  }

  lemma SubsetCount<T>(a: set<T>, b: set<T>)
    requires a <= b
    ensures |a| <= |b|
  {
    assert b == a + (b - a);
  }

  /** The guarantee, one insertion at a time: below half load on a prime table there is always a place. */
  lemma QuadraticFindsPlace(t: Table, values: seq<int>, v: int)
    requires Sound(t, QuadraticProbing, values) && IsPrime(|t.buckets|) && 2 * |Occupied(t)| < |t.buckets|
    ensures FirstStop(t.buckets, v, QuadraticProbing, 0) < |t.buckets|
  {
    var p := |t.buckets|;
    RejectedIff(t, QuadraticProbing, values, v);
    CountProbes(v, p, Half(p));
    SecondHalfRevisits(v, p);
    if Probes(v, p, QuadraticProbing, p) <= Occupied(t) {
      SubsetCount(Probes(v, p, QuadraticProbing, Half(p)), Occupied(t));
      assert false;
    }
  }

  lemma OccupiedPlace(t: Table, r: Table, s: nat)
    requires s < |t.buckets| && t.buckets[s] == [] && |r.buckets| == |t.buckets| && r.buckets[s] != []
    requires forall e :: 0 <= e < |t.buckets| && e != s ==> r.buckets[e] == t.buckets[e]
    ensures |Occupied(r)| == |Occupied(t)| + 1
  {
    assert Occupied(r) == Occupied(t) + {s};
  }

  /** stored counts what is in the table: the taken buckets, or with chaining the different values. */
  lemma {:induction false} StoredCounts(values: seq<int>, size: nat, strategy: Strategy)
    requires size > 0
    ensures strategy != Chaining ==> Run(values, size, strategy).stored == |Occupied(Run(values, size, strategy))|
    ensures strategy == Chaining ==> Run(values, size, strategy).stored == |Distinct(values)|
  {
    hide Probe, FirstStop, HashValue;
    var t := Run(values, size, strategy);
    if values == [] {
      assert Occupied(t) == {} && Distinct(values) == {};
    } else {
      var n := |values| - 1;
      StoredCounts(values[..n], size, strategy);
      assert values == values[..n] + [values[n]];
      StoredStep(Run(values[..n], size, strategy), values[..n], values[n], strategy);
    }
  }

  lemma StoredStep(t: Table, values: seq<int>, v: int, strategy: Strategy)
    requires |t.buckets| > 0 && t == Run(values, |t.buckets|, strategy)
    ensures strategy != Chaining ==>
              var r := Insert(t, v, strategy); r.stored - t.stored == |Occupied(r)| - |Occupied(t)|
    ensures strategy == Chaining ==>
              var r := Insert(t, v, strategy); r.stored - t.stored == |Distinct(values + [v])| - |Distinct(values)|
  {
    hide Probe, FirstStop, HashValue, Run;
    var r := Insert(t, v, strategy);
    if strategy == Chaining {
      ChainingKeepsAll(values, |t.buckets|);
      assert v in values <==> StoredAt(t, v, HashValue(v, |t.buckets|));
      if v in values {
        assert Distinct(values + [v]) == Distinct(values);
      } else {
        DistinctPush(values, v);
      }
    } else {
      var a := FirstStop(t.buckets, v, strategy, 0);
      if a == |t.buckets| || v in t.buckets[Probe(v, |t.buckets|, strategy, a)] {
        assert Occupied(r) == Occupied(t);
      } else {
        assert Stops(t.buckets, v, strategy, a);
        OccupiedPlace(t, r, Probe(v, |t.buckets|, strategy, a));
      }
    }
  }

  /** The guarantee as the load factor stored / size states it: below one half, the next value is in the table afterwards. */
  lemma QuadraticGuarantee(values: seq<int>, p: nat, v: int)
    requires IsPrime(p) && 2 * Run(values, p, QuadraticProbing).stored < p
    ensures var t := Run(values, p, QuadraticProbing); var r := Insert(t, v, QuadraticProbing);
            r.rejected == t.rejected && Stored(r, v)
  {
    hide Probe, FirstStop, Run, IsPrime;
    var t := Run(values, p, QuadraticProbing);
    RunSound(values, p, QuadraticProbing);
    StoredCounts(values, p, QuadraticProbing);
    QuadraticFindsPlace(t, values, v);
    var s := Probe(v, p, QuadraticProbing, FirstStop(t.buckets, v, QuadraticProbing, 0));
    assert StoredAt(Insert(t, v, QuadraticProbing), v, s);
  }

  function Distinct(values: seq<int>): (r: set<int>)
    ensures forall v :: v in r <==> v in values
  {
    set v | v in values
  }

  /** Different taken buckets hold different values, all of them inserted ones. */
  lemma {:induction false} OccupiedBound(t: Table, strategy: Strategy, values: seq<int>, taken: set<nat>, held: set<int>)
    requires strategy != Chaining && Sound(t, strategy, values)
    requires taken <= Occupied(t) && forall v, s :: s in taken && StoredAt(t, v, s) ==> v in held
    ensures |taken| <= |held|
    decreases |taken|
  {
    if taken != {} {
      hide Probe, FirstStop;
      var s :| s in taken;
      var v := t.buckets[s][0];
      assert StoredAt(t, v, s) && Findable(t, strategy, v, s);
      forall w, e | e in taken - {s} && StoredAt(t, w, e)
        ensures w in held - {v}
      {
        assert Findable(t, strategy, w, e);
      }
      OccupiedBound(t, strategy, values, taken - {s}, held - {v});
    }
  }

  /** The whole-run guarantee: on a prime table, at most half as many different values as buckets, rounded up, all find a place. */
  lemma {:induction false} QuadraticRejectsNothing(values: seq<int>, p: nat)
    requires IsPrime(p) && 2 * |Distinct(values)| <= p + 1
    ensures Run(values, p, QuadraticProbing).rejected == []
  {
    if values != [] {
      var n := |values| - 1;
      var before, v := values[..n], values[n];
      assert values == before + [v];
      assert Distinct(before) <= Distinct(values);
      SubsetCount(Distinct(before), Distinct(values));
      QuadraticRejectsNothing(before, p);
      RunSound(before, p, QuadraticProbing);
      var t := Run(before, p, QuadraticProbing);
      if Stored(t, v) {
        RejectedIff(t, QuadraticProbing, before, v);
      } else {
        NewValueLeavesRoom(t, before, values, v);
        QuadraticFindsPlace(t, before, v);
      }
    }
  }

  lemma NewValueLeavesRoom(t: Table, before: seq<int>, values: seq<int>, v: int)
    requires Sound(t, QuadraticProbing, before) && !Stored(t, v) && v in values
    requires forall w :: w in before ==> w in values
    ensures |Occupied(t)| < |Distinct(values)|
  {
    var held := Distinct(values) - {v};
    forall w, s | s in Occupied(t) && StoredAt(t, w, s)
      ensures w in held
    {
      assert Stored(t, w);
    }
    OccupiedBound(t, QuadraticProbing, before, Occupied(t), held);
  }

  // ---------- The guarantee is tight ----------

  /** The buckets the value 0 can reach, as values that hash to themselves. */
  function Blockers(p: nat, n: nat): (r: seq<int>)
    requires p > 0
    ensures |r| == n
  {
    if n == 0 then [] else Blockers(p, n - 1) + [Probe(0, p, QuadraticProbing, n - 1)]
  }

  lemma OwnBucket(p: nat, s: nat)
    requires s < p
    ensures Probe(s, p, QuadraticProbing, 0) == s
    ensures HashValue(p, p) == 0 == HashValue(0, p)
  {
    DivisionUnique(p, s, 0, s);
    DivisionUnique(p, p, 1, 0);
    DivisionUnique(p, 0, 0, 0);
  }

  /** Bucket e holds just the value e, for the given buckets, and the others are empty. */
  predicate HoldsItself(t: Table, slots: set<nat>) {
    forall e :: 0 <= e < |t.buckets| ==> t.buckets[e] == if e in slots then [e] else []
  }

  lemma FillOne(t: Table, s: nat, slots: set<nat>)
    requires s < |t.buckets| && s !in slots && HoldsItself(t, slots) && Probe(s, |t.buckets|, QuadraticProbing, 0) == s
    ensures var r := Insert(t, s, QuadraticProbing); HoldsItself(r, slots + {s}) && r.rejected == t.rejected
  {
    hide Probe;
    assert Stops(t.buckets, s, QuadraticProbing, 0);
  }

  lemma {:induction false} BlockersFill(p: nat, n: nat)
    requires IsPrime(p) && n <= Half(p)
    ensures var t := Run(Blockers(p, n), p, QuadraticProbing);
            t.rejected == [] && HoldsItself(t, Probes(0, p, QuadraticProbing, n))
    ensures forall v :: v in Blockers(p, n) <==> 0 <= v && v in Probes(0, p, QuadraticProbing, n)
    ensures |Distinct(Blockers(p, n))| == n
  {
    hide Probe, Insert, HoldsItself;
    if n == 0 {
      NothingHeld(p);
      assert Probes(0, p, QuadraticProbing, 0) == {};
    } else {
      BlockersFill(p, n - 1);
      var s := Probe(0, p, QuadraticProbing, n - 1);
      var before, values := Blockers(p, n - 1), Blockers(p, n);
      assert values[..n - 1] == before && values == before + [s];
      OneMoreProbe(0, p, n);
      OwnBucket(p, s);
      FillOne(Run(before, p, QuadraticProbing), s, Probes(0, p, QuadraticProbing, n - 1));
      DistinctPush(before, s);
    }
  }

  lemma NothingHeld(p: nat)
    ensures HoldsItself(Empty(p), {})
  {
  }

  lemma DistinctPush(values: seq<int>, v: int)
    requires v !in values
    ensures |Distinct(values + [v])| == |Distinct(values)| + 1
  {
    assert forall w :: w in values + [v] <==> w in values || w == v;
    assert Distinct(values + [v]) == Distinct(values) + {v};
  }

  lemma SameReach(p: nat, n: nat)
    requires p > 0
    ensures Probes(p, p, QuadraticProbing, n) == Probes(0, p, QuadraticProbing, n)
  {
    OwnBucket(p, 0);
    hide HashValue;
    forall a: nat
      ensures Probe(p, p, QuadraticProbing, a) == Probe(0, p, QuadraticProbing, a)
    {
    }
    hide Probe;
  }

  /** One value more than the guarantee allows, and an odd prime table does reject: half load is the exact limit. */
  lemma QuadraticLimitIsTight(p: nat)
    requires IsPrime(p) && p > 2
    ensures var values := Blockers(p, Half(p)) + [p];
            |Distinct(values)| == Half(p) + 1 && Run(values, p, QuadraticProbing).rejected == [p]
  {
    hide Probe, FirstStop, IsPrime, Half;
    var half := Half(p);
    var before := Blockers(p, half);
    var values := before + [p];
    assert values[..half] == before;
    BlockersFill(p, half);
    RunSound(before, p, QuadraticProbing);
    SecondHalfRevisits(p, p);
    SameReach(p, half);
    var t := Run(before, p, QuadraticProbing);
    RejectedIff(t, QuadraticProbing, before, p);
    assert Probes(p, p, QuadraticProbing, p) <= Occupied(t);
    forall s
      ensures !StoredAt(t, p, s)
    {
    }
    assert p !in before;
    DistinctPush(before, p);
  }

  // ---------- What the hash and the probes are ----------

  /** The hash is the size of the value, wrapped round the table: these equations leave no other function. */
  lemma HashWraps(value: int, size: nat)
    requires size > 0
    ensures HashValue(-value, size) == HashValue(value, size)
    ensures value >= 0 ==> HashValue(value + size, size) == HashValue(value, size)
    ensures 0 <= value < size ==> HashValue(value, size) == value
  {
    if value >= 0 {
      var q, h := value / size, value % size;
      DivisionStep(size, q, value, h);
      DivisionUnique(size, value + size, q + 1, h);
      if value < size {
        DivisionUnique(size, value, 0, value);
      }
    }
  }

  lemma DivisionStep(size: nat, q: int, value: int, h: int)
    requires value == size * q + h
    ensures value + size == size * (q + 1) + h
  {
  }

  /** Where a search starts, and how far each attempt is from the one before. */
  lemma NextProbe(v: int, size: nat, strategy: Strategy, a: nat)
    requires size > 0 && strategy != Chaining
    ensures Probe(v, size, strategy, 0) == HashValue(v, size)
    ensures var step := if strategy == LinearProbing then 1 else 2 * a + 1;
            Probe(v, size, strategy, a + 1) == (Probe(v, size, strategy, a) + step) % size
  {
    hide HashValue;
    var h := HashValue(v, size);
    DivisionUnique(size, h, 0, h);
    var step := if strategy == LinearProbing then 1 else 2 * a + 1;
    var now, next := h + Stride(strategy, a), h + Stride(strategy, a + 1);
    assert next == now + step;
    WrapTwice(now, step, size);
  }

  lemma WrapTwice(x: nat, y: nat, size: nat)
    requires size > 0
    ensures (x % size + y) % size == (x + y) % size
  {
    var q, r := x / size, x % size;
    var p, e := (r + y) / size, (r + y) % size;
    WrapSum(x, y, size, q, r, p, e);
    DivisionUnique(size, x + y, q + p, e);
  }

  lemma WrapSum(x: nat, y: nat, size: nat, q: int, r: int, p: int, e: int)
    requires x == size * q + r && r + y == size * p + e
    ensures x + y == size * (q + p) + e
  {
  }

  /** How many steps up, round the end of the table, lead from one bucket to another. */
  function Distance(from: nat, to: nat, size: nat): nat
    requires from < size && to < size
  {
    if from <= to then to - from else to + size - from
  }

  /** Of a finished table with linear probing: from the home of a stored value up to its own bucket all are taken. */
  lemma LinearCluster(values: seq<int>, size: nat, v: int, s: nat, d: nat)
    requires size > 0 && s < size && StoredAt(Run(values, size, LinearProbing), v, s)
    requires d <= Distance(HashValue(v, size), s, size)
    ensures Run(values, size, LinearProbing).buckets[(HashValue(v, size) + d) % size] != []
  {
    hide Run, FirstStop, HashValue;
    var t, h := Run(values, size, LinearProbing), HashValue(v, size);
    RepeatedInsertion(values, size, LinearProbing, v, s);
    var a := FirstStop(t.buckets, v, LinearProbing, 0);
    if h + a < size {
      DivisionUnique(size, h + a, 0, h + a);
    } else {
      DivisionUnique(size, h + a, 1, h + a - size);
    }
    assert a == Distance(h, s, size);
    assert (h + d) % size == Probe(v, size, LinearProbing, d);
  }

  // ---------- Separate chaining ----------

  /** Every value sits once, in its home bucket, and nothing is rejected. */
  lemma {:induction false} ChainingKeepsAll(values: seq<int>, size: nat)
    requires size > 0
    ensures var t := Run(values, size, Chaining);
            && t.rejected == []
            && (forall v, s :: StoredAt(t, v, s) <==> v in values && s == HashValue(v, size))
            && (forall s, i, j :: 0 <= s < size && 0 <= i < j < |t.buckets[s]| ==> t.buckets[s][i] != t.buckets[s][j])
  {
    if values != [] {
      var n := |values| - 1;
      ChainingKeepsAll(values[..n], size);
      hide HashValue;
      var t, r := Run(values[..n], size, Chaining), Run(values, size, Chaining);
      assert values == values[..n] + [values[n]];
      forall v, s
        ensures StoredAt(r, v, s) <==> v in values && s == HashValue(v, size)
      {
        assert StoredAt(t, v, s) <==> v in values[..n] && s == HashValue(v, size);
        assert StoredAt(t, values[n], HashValue(values[n], size)) <==> values[n] in values[..n];
      }
    }
  }

  /** v comes into the values, for the first time, before w does. */
  predicate ComesBefore(values: seq<int>, v: int, w: int) {
    exists p :: 0 <= p < |values| && values[p] == v && w !in values[..p + 1]
  }

  /** A bucket of a chaining table lists its values in the order they came. */
  lemma {:induction false} ChainingInOrder(values: seq<int>, size: nat, s: nat, i: nat, j: nat)
    requires s < size && i < j < |Run(values, size, Chaining).buckets[s]|
    ensures var bucket := Run(values, size, Chaining).buckets[s]; ComesBefore(values, bucket[i], bucket[j])
  {
    if values != [] {
      var n := |values| - 1;
      var before := Run(values[..n], size, Chaining).buckets[s];
      var bucket := Run(values, size, Chaining).buckets[s];
      ChainingKeepsAll(values[..n], size);
      hide HashValue;
      if j < |before| {
        ChainingInOrder(values[..n], size, s, i, j);
        var p :| 0 <= p < n && values[..n][p] == before[i] && before[j] !in values[..n][..p + 1];
        assert values[..n][..p + 1] == values[..p + 1] && values[p] == bucket[i];
      } else {
        var t := Run(values[..n], size, Chaining);
        assert StoredAt(t, before[i], s);
        var p :| 0 <= p < n && values[..n][p] == before[i];
        assert bucket[j] == values[n];
        assert StoredAt(t, values[n], HashValue(values[n], size)) <==> values[n] in values[..n];
        assert forall q :: 0 <= q < p + 1 ==> values[..p + 1][q] == values[..n][q];
      }
    }
  }
}
