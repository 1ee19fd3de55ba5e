/** The audit trail: filtered keyset pages, newest first, and the CSV export that walks them while events keep arriving. */
module Audit {
  import Basics

  datatype Entry = Entry(id: int, actor: string, action: string, target: string, createdAt: int)

  /** Empty strings and zero times leave a condition out. */
  datatype Query = Query(actor: string, action: string, target: string, since: int, until: int, limit: int, cursor: int)

  datatype Page = Page(records: seq<Entry>, nextCursor: int, total: nat)

  const DEFAULT_LIMIT := 100
  const MAX_LIMIT := 1000

  /** The WHERE clause, without the cursor; the query's strings are already trimmed. */
  predicate Matches(q: Query, e: Entry) {
    && (q.actor != "" ==> e.actor == q.actor)
    && (q.action != "" ==> e.action == q.action)
    && (q.target != "" ==> e.target == q.target)
    && (q.since != 0 ==> e.createdAt >= q.since)
    && (q.until != 0 ==> e.createdAt < q.until)
  }

  predicate BeforeCursor(cursor: int, e: Entry) {
    cursor > 0 ==> e.id < cursor
  }

  /** The table: ids are positive and strictly increase in the order of insertion. */
  predicate IsTrail(trail: seq<Entry>) {
    && (forall i :: 0 <= i < |trail| ==> trail[i].id > 0)
    && (forall i, j :: 0 <= i < j < |trail| ==> trail[i].id < trail[j].id)
  }

  /** The matching rows below the cursor, newest first: ORDER BY id DESC. */
  function Rows(trail: seq<Entry>, q: Query, cursor: int): (r: seq<Entry>) {
    if trail == [] then []
    else
      var last := trail[|trail| - 1];
      (if Matches(q, last) && BeforeCursor(cursor, last) then [last] else []) + Rows(trail[..|trail| - 1], q, cursor)
  }

  function EffectiveLimit(limit: int): (r: nat)
    ensures 0 < r <= MAX_LIMIT
    ensures 0 < limit <= MAX_LIMIT ==> r == limit
    ensures limit > MAX_LIMIT ==> r == MAX_LIMIT
    ensures limit <= 0 ==> r == DEFAULT_LIMIT
  {
    if limit <= 0 then DEFAULT_LIMIT else if limit > MAX_LIMIT then MAX_LIMIT else limit
  }

  /** One page, with one row fetched beyond it to tell whether there is another. */
  function QueryPage(trail: seq<Entry>, q: Query): Page {
    var limit := EffectiveLimit(q.limit);
    var rows := Rows(trail, q, q.cursor);
    var fetched := if |rows| <= limit + 1 then rows else rows[..limit + 1];
    var total := |Rows(trail, q, 0)|;
    if |fetched| > limit then Page(fetched[..limit], fetched[limit - 1].id, total) else Page(fetched, 0, total)
  }

  predicate Descending(rows: seq<Entry>) {
    forall i, j :: 0 <= i < j < |rows| ==> rows[i].id > rows[j].id
  }

  // ---------- Rows ----------

  /** The rows are exactly the matching entries below the cursor, each once, newest first. */
  lemma {:induction false} RowsAreRight(trail: seq<Entry>, q: Query, cursor: int)
    requires IsTrail(trail)
    ensures forall e :: e in Rows(trail, q, cursor) <==> e in trail && Matches(q, e) && BeforeCursor(cursor, e)
    ensures Descending(Rows(trail, q, cursor))
  {
    if trail != [] {
      var n := |trail| - 1;
      var rest := Rows(trail[..n], q, cursor);
      RowsAreRight(trail[..n], q, cursor);
      assert forall e :: e in trail <==> e == trail[n] || e in trail[..n];
      forall j | 0 <= j < |rest|
        ensures rest[j].id < trail[n].id
      {
        assert rest[j] in rest;
      }
    }
  }

  /** Entries beyond the cursor do not matter. */
  lemma {:induction false} RowsIgnoreNewer(trail: seq<Entry>, more: seq<Entry>, q: Query, cursor: int)
    requires IsTrail(trail + more) && cursor > 0
    requires forall i :: 0 <= i < |more| ==> more[i].id >= cursor
    ensures Rows(trail + more, q, cursor) == Rows(trail, q, cursor)
    decreases |more|
  {
    if more == [] {
      assert trail + more == trail;
    } else {
      var n := |more| - 1;
      assert (trail + more)[..|trail| + n] == trail + more[..n];
      RowsIgnoreNewer(trail, more[..n], q, cursor);
    }
  }

  /** Moving the cursor to the id of row k - 1 leaves the rows from k on. */
  lemma {:induction false} RowsAfterCursor(trail: seq<Entry>, q: Query, cursor: int, k: nat)
    requires IsTrail(trail) && 0 < k <= |Rows(trail, q, cursor)|
    ensures Rows(trail, q, cursor)[k - 1].id > 0
    ensures Rows(trail, q, Rows(trail, q, cursor)[k - 1].id) == Rows(trail, q, cursor)[k..]
  {
    assert trail != [];
    hide Rows, Matches, IsTrail, BeforeCursor;
    TrailPrefix(trail);
    var n := |trail| - 1;
    var rest := Rows(trail[..n], q, cursor);
    RowsStep(trail, q, cursor);
    if Matches(q, trail[n]) && BeforeCursor(cursor, trail[n]) {
      ConsDrop(trail[n], rest, k);
      if k == 1 {
        CursorAtLast(trail, q, cursor);
        assert rest[0..] == rest;
      } else {
        RowsAfterCursor(trail[..n], q, cursor, k - 1);
        CursorPassesLast(trail, q, cursor, k - 2);
      }
    } else {
      RowsAfterCursor(trail[..n], q, cursor, k);
      CursorPassesLast(trail, q, cursor, k - 1);
    }
  }

  lemma CursorAtLast(trail: seq<Entry>, q: Query, cursor: int)
    requires IsTrail(trail) && trail != [] && BeforeCursor(cursor, trail[|trail| - 1])
    ensures Rows(trail, q, trail[|trail| - 1].id) == Rows(trail[..|trail| - 1], q, cursor)
  {
    var n := |trail| - 1;
    TrailPrefix(trail);
    hide Rows, Matches, IsTrail;
    RowsStep(trail, q, trail[n].id);
    OnlyBelow(trail[..n], q, cursor, trail[n].id);
  }

  /** A cursor taken from an older row leaves the newest entry out. */
  lemma CursorPassesLast(trail: seq<Entry>, q: Query, cursor: int, k: nat)
    requires IsTrail(trail) && trail != [] && k < |Rows(trail[..|trail| - 1], q, cursor)|
    ensures var id := Rows(trail[..|trail| - 1], q, cursor)[k].id; Rows(trail, q, id) == Rows(trail[..|trail| - 1], q, id)
  {
    var n := |trail| - 1;
    TrailPrefix(trail);
    hide Rows, Matches, IsTrail;
    RowAt(trail[..n], q, cursor, k);
    RowsStep(trail, q, Rows(trail[..n], q, cursor)[k].id);
  }

  lemma ConsDrop<T>(x: T, s: seq<T>, k: nat)
    requires 0 < k <= |s| + 1
    ensures ([x] + s)[k..] == s[k - 1..]
    ensures ([x] + s)[k - 1] == if k == 1 then x else s[k - 2]
  {
  }

  lemma TrailPrefix(trail: seq<Entry>)
    requires trail != [] && IsTrail(trail)
    ensures var n := |trail| - 1;
            IsTrail(trail[..n]) && trail[n].id > 0 && forall i :: 0 <= i < n ==> trail[..n][i].id < trail[n].id
    ensures forall e :: e in trail[..|trail| - 1] ==> e.id < trail[|trail| - 1].id
  {
  }

  lemma RowAt(trail: seq<Entry>, q: Query, cursor: int, k: nat)
    requires IsTrail(trail) && k < |Rows(trail, q, cursor)|
    ensures Rows(trail, q, cursor)[k] in trail && Rows(trail, q, cursor)[k].id > 0
    ensures BeforeCursor(cursor, Rows(trail, q, cursor)[k])
  {
    RowsAreRight(trail, q, cursor);
    assert Rows(trail, q, cursor)[k] in Rows(trail, q, cursor);
  }

  lemma RowsStep(trail: seq<Entry>, q: Query, cursor: int)
    requires trail != []
    ensures var n := |trail| - 1; var rest := Rows(trail[..n], q, cursor);
            Rows(trail, q, cursor) == if Matches(q, trail[n]) && BeforeCursor(cursor, trail[n]) then [trail[n]] + rest else rest
  {
  }

  /** A cursor above every entry excludes nothing; a cursor already in force excludes what it did. */
  lemma {:induction false} OnlyBelow(trail: seq<Entry>, q: Query, cursor: int, id: int)
    requires IsTrail(trail) && id > 0 && forall i :: 0 <= i < |trail| ==> trail[i].id < id
    requires cursor > 0 ==> id < cursor
    ensures Rows(trail, q, id) == Rows(trail, q, cursor)
  {
    if trail != [] {
      OnlyBelow(trail[..|trail| - 1], q, cursor, id);
    }
  }

  // ---------- What the conditions select ----------

  /** The rows with a property, in order. */
  ghost function Having(rows: seq<Entry>, p: Entry -> bool): seq<Entry> {
    if rows == [] then [] else (if p(rows[0]) then [rows[0]] else []) + Having(rows[1..], p)
  }

  lemma HavingCons(e: Entry, rows: seq<Entry>, p: Entry -> bool)
    ensures Having([e] + rows, p) == (if p(e) then [e] else []) + Having(rows, p)
  {
    assert ([e] + rows)[1..] == rows;
  }

  /** The rows of one query are those of another with a property. */
  lemma {:induction false} RowsHaving(trail: seq<Entry>, q: Query, wide: Query, cursor: int, p: Entry -> bool)
    requires forall e :: Matches(q, e) <==> Matches(wide, e) && p(e)
    ensures Rows(trail, q, cursor) == Having(Rows(trail, wide, cursor), p)
  {
    hide Matches, BeforeCursor, Having;
    if trail == [] {
      assert Having([], p) == [] by { HavingNothing(p); }
    } else {
      var n := |trail| - 1;
      RowsHaving(trail[..n], q, wide, cursor, p);
      HavingCons(trail[n], Rows(trail[..n], wide, cursor), p);
      assert [] + Rows(trail[..n], wide, cursor) == Rows(trail[..n], wide, cursor);
    }
  }

  lemma HavingNothing(p: Entry -> bool)
    ensures Having([], p) == []
  {
  }

  /** Each named condition picks, from the rows of the query without it, those of that actor, action or target. */
  lemma ConditionsSelect(trail: seq<Entry>, q: Query, cursor: int)
    ensures q.actor != "" ==> Rows(trail, q, cursor) == Having(Rows(trail, q.(actor := ""), cursor), (e: Entry) => e.actor == q.actor)
    ensures q.action != "" ==> Rows(trail, q, cursor) == Having(Rows(trail, q.(action := ""), cursor), (e: Entry) => e.action == q.action)
    ensures q.target != "" ==> Rows(trail, q, cursor) == Having(Rows(trail, q.(target := ""), cursor), (e: Entry) => e.target == q.target)
  {
    hide Rows, Having;
    if q.actor != "" {
      RowsHaving(trail, q, q.(actor := ""), cursor, (e: Entry) => e.actor == q.actor);
    }
    if q.action != "" {
      RowsHaving(trail, q, q.(action := ""), cursor, (e: Entry) => e.action == q.action);
    }
    if q.target != "" {
      RowsHaving(trail, q, q.(target := ""), cursor, (e: Entry) => e.target == q.target);
    }
  }

  /** Two windows that meet at t, each open at its far end if that is 0, share out the rows of the whole. */
  lemma {:induction false} WindowsSplit(trail: seq<Entry>, q: Query, cursor: int, t: int)
    requires t != 0 && (q.since == 0 || q.since <= t) && (q.until == 0 || t <= q.until)
    ensures multiset(Rows(trail, q, cursor))
            == multiset(Rows(trail, q.(until := t), cursor)) + multiset(Rows(trail, q.(since := t), cursor))
  {
    if trail != [] {
      var n := |trail| - 1;
      WindowsSplit(trail[..n], q, cursor, t);
      hide Matches, BeforeCursor;
      MatchesOneWindow(q, trail[n], t);
    }
  }

  lemma MatchesOneWindow(q: Query, e: Entry, t: int)
    requires t != 0 && (q.since == 0 || q.since <= t) && (q.until == 0 || t <= q.until)
    ensures Matches(q, e) <==> Matches(q.(until := t), e) || Matches(q.(since := t), e)
    ensures !(Matches(q.(until := t), e) && Matches(q.(since := t), e))
  {
  }

  /** A window of one instant has the rows of that instant. */
  lemma InstantSelects(trail: seq<Entry>, q: Query, cursor: int, t: int)
    requires t != 0 && t + 1 != 0
    ensures Rows(trail, q.(since := t, until := t + 1), cursor)
            == Having(Rows(trail, q.(since := 0, until := 0), cursor), (e: Entry) => e.createdAt == t)
  {
    hide Rows, Having;
    RowsHaving(trail, q.(since := t, until := t + 1), q.(since := 0, until := 0), cursor, (e: Entry) => e.createdAt == t);
  }

  /** Without conditions and cursor every record is a row. */
  lemma {:induction false} AllRows(trail: seq<Entry>, q: Query)
    requires q.actor == "" && q.action == "" && q.target == "" && q.since == 0 && q.until == 0
    ensures Rows(trail, q, 0) == Basics.Reversed(trail)
  {
    if trail != [] {
      var n := |trail| - 1;
      AllRows(trail[..n], q);
      assert Basics.Reversed(trail) == [trail[n]] + Basics.Reversed(trail[..n]);
    }
  }

  // ---------- The store's query ----------

  /** QueryAuditRecords: counts, fetches one row beyond the page, and builds the page by appending. */
  method QueryAuditRecords(trail: seq<Entry>, q: Query) returns (page: Page)
    ensures page == QueryPage(trail, q)
  {
    var limit := q.limit;
    if limit <= 0 {
      limit := DEFAULT_LIMIT;
    }
    if limit > MAX_LIMIT {
      limit := MAX_LIMIT;
    }
    var rows := Rows(trail, q, q.cursor);
    hide Rows;
    var records: seq<Entry> := [];
    while |records| < limit + 1 && |records| < |rows|
      invariant |records| <= limit + 1 && |records| <= |rows| && records == rows[..|records|]
      decreases |rows| - |records|
    {
      records := records + [rows[|records|]];
    }
    assert rows[..|rows|] == rows;
    page := Page(records, 0, |Rows(trail, q, 0)|);
    if |records| > limit {
      page := Page(records[..limit], records[limit - 1].id, page.total);
    }
  }

  /** A page says what it should: the next rows, the exact total, and a cursor exactly when more rows follow. */
  lemma PageIsExact(trail: seq<Entry>, q: Query)
    requires IsTrail(trail)
    ensures var page, rows, limit := QueryPage(trail, q), Rows(trail, q, q.cursor), EffectiveLimit(q.limit);
            && page.records == (if |rows| <= limit then rows else rows[..limit])
            && (page.nextCursor == 0 <==> |rows| <= limit)
            && Rows(trail, q, page.nextCursor) == (if |rows| <= limit then Rows(trail, q, 0) else rows[limit..])
            && page.total == |Rows(trail, q, 0)|
  {
    var rows, limit := Rows(trail, q, q.cursor), EffectiveLimit(q.limit);
    if |rows| > limit {
      RowsAfterCursor(trail, q, q.cursor, limit);
      assert rows[..limit + 1][..limit] == rows[..limit];
    } else {
      assert rows[..|rows|] == rows;
    }
  }

  // ---------- The export ----------

  /** The table at each page read: always a trail, only ever extended. */
  ghost predicate OnlyAppends(trails: nat -> seq<Entry>) {
    forall i: nat :: IsTrail(trails(i)) && trails(0) <= trails(i)
  }

  /** Rows below an id that existed from the start do not change when events arrive. */
  lemma AppendsInvisible(trails: nat -> seq<Entry>, i: nat, q: Query, e: Entry)
    requires OnlyAppends(trails) && e in trails(0)
    ensures Rows(trails(i), q, e.id) == Rows(trails(0), q, e.id)
  {
    var first, now := trails(0), trails(i);
    var more := now[|first|..];
    assert now == first + more && IsTrail(now);
    var k :| 0 <= k < |first| && first[k] == e;
    forall j | 0 <= j < |more|
      ensures more[j].id >= e.id
    {
      assert now[k].id < now[|first| + j].id;
    }
    RowsIgnoreNewer(first, more, q, e.id);
  }

  /** The rows still to be exported, from the cursor on. */
  ghost predicate Exporting(first: seq<Entry>, q: Query, cursor: int, out: seq<Entry>) {
    && out + Rows(first, q, cursor) == Rows(first, q, 0)
    && (cursor == 0 ==> out == [])
    && (cursor != 0 ==> cursor > 0 && exists e :: e in first && e.id == cursor)
  }

  lemma ExportPage(trails: nat -> seq<Entry>, i: nat, q: Query, out: seq<Entry>)
    requires OnlyAppends(trails) && Exporting(trails(0), q, q.cursor, out) && (q.cursor == 0 ==> i == 0)
    ensures var page := QueryPage(trails(i), q);
            && (page.nextCursor == 0 ==> out + page.records == Rows(trails(0), q, 0))
            && (page.nextCursor != 0 ==> Exporting(trails(0), q, page.nextCursor, out + page.records) && |page.records| > 0
                                         && (q.cursor != 0 ==> page.nextCursor < q.cursor))
  {
    var first := trails(0);
    assert IsTrail(first);
    hide Rows, QueryPage, IsTrail, OnlyAppends;
    if q.cursor != 0 {
      var e :| e in first && e.id == q.cursor;
      AppendsInvisible(trails, i, q, e);
    }
    var rows, limit := Rows(first, q, q.cursor), EffectiveLimit(q.limit);
    SamePage(trails(i), first, q);
    PageIsExact(first, q);
    var page := QueryPage(trails(i), q);
    if page.nextCursor != 0 {
      RowAt(first, q, q.cursor, limit - 1);
      NextCursorIs(first, q);
      SplitAt(out, rows, limit);
    }
  }

  lemma SplitAt<T>(out: seq<T>, rows: seq<T>, limit: nat)
    requires limit <= |rows|
    ensures out + rows == (out + rows[..limit]) + rows[limit..]
  {
  }

  lemma NextCursorIs(trail: seq<Entry>, q: Query)
    requires |Rows(trail, q, q.cursor)| > EffectiveLimit(q.limit)
    ensures QueryPage(trail, q).nextCursor == Rows(trail, q, q.cursor)[EffectiveLimit(q.limit) - 1].id
  {
    hide Rows;
  }

  /** A page depends on the table only through the rows below the cursor. */
  lemma SamePage(now: seq<Entry>, first: seq<Entry>, q: Query)
    requires Rows(now, q, q.cursor) == Rows(first, q, q.cursor)
    ensures QueryPage(now, q).records == QueryPage(first, q).records && QueryPage(now, q).nextCursor == QueryPage(first, q).nextCursor
  {
  }

  /** WriteAuditCSV: pages until the cursor runs out, while events are appended between pages; queryFails and cancelled
      say at which page the query fails or the export is abandoned. */
  method WriteAuditCsv(trails: nat -> seq<Entry>, q: Query, queryFails: nat -> bool, cancelled: nat -> bool)
    returns (ok: bool, out: seq<Entry>, ghost pages: nat)
    requires OnlyAppends(trails)
    ensures ok ==> out == Rows(trails(0), q, 0)
    ensures !ok ==> out <= Rows(trails(0), q, 0) && exists i :: queryFails(i) || cancelled(i)
  {
    out := [];
    pages := 0;
    var page := q.(limit := MAX_LIMIT, cursor := 0);
    QueryRows(trails(0), q, page);
    var i := 0;
    while true
      invariant page == q.(limit := MAX_LIMIT, cursor := page.cursor) && (page.cursor == 0 ==> i == 0)
      invariant Exporting(trails(0), page, page.cursor, out)
      invariant Rows(trails(0), page, 0) == Rows(trails(0), q, 0)
      decreases |Rows(trails(0), q, 0)| - |out|
    {
      if queryFails(i) {
        return false, out, i;
      }
      var result := QueryAuditRecords(trails(i), page);
      ExportPage(trails, i, page, out);
      out := out + result.records;
      if result.nextCursor == 0 {
        return true, out, i + 1;
      }
      var next := page.(cursor := result.nextCursor);
      QueryRowsAt(trails(0), page, next);
      page := next;
      if cancelled(i) {
        return false, out, i + 1;
      }
      i := i + 1;
    }
  }

  /** Limit and cursor of the query are not conditions. */
  lemma {:induction false} SameConditions(trail: seq<Entry>, q: Query, p: Query, cursor: int)
    requires p == q.(limit := p.limit, cursor := p.cursor)
    ensures Rows(trail, p, cursor) == Rows(trail, q, cursor)
  {
    if trail != [] {
      SameConditions(trail[..|trail| - 1], q, p, cursor);
    }
  }

  lemma QueryRows(first: seq<Entry>, q: Query, p: Query)
    requires p == q.(limit := p.limit, cursor := 0)
    ensures Rows(first, p, 0) == Rows(first, q, 0) && Exporting(first, p, 0, [])
  {
    SameConditions(first, q, p, 0);
  }

  lemma QueryRowsAt(first: seq<Entry>, p: Query, next: Query)
    requires next == p.(cursor := next.cursor)
    ensures Rows(first, next, 0) == Rows(first, p, 0)
    ensures forall out :: Exporting(first, p, next.cursor, out) ==> Exporting(first, next, next.cursor, out)
  {
    SameConditions(first, p, next, 0);
    SameConditions(first, p, next, next.cursor);
  }
}
