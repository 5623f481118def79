/** Keyset paging of app_logs (`QueryLogs`, internal/data/logs.go) and audit_log (`ListAudit`,
    internal/data/audit.go): newest first, each page starting below the (ts, id) of the last row seen. */
module Paging {
  import LogDrain

  datatype Row = Row(id: int, ts: int, trace: string, level: string, source: string)

  /** Empty strings select everything. */
  datatype Query = Query(trace: string, level: string, source: string)

  const ALL := Query("", "", "")

  datatype Cursor = Cursor(ts: int, id: int)

  const NO_CURSOR := Cursor(0, 0)

  const LOG_MAX: nat := 1000
  const AUDIT_MAX: nat := 500

  function Limit(limit: int, max: nat): (n: nat)
    requires max >= 200
    ensures 1 <= n <= max
  {
    if limit <= 0 || limit > max then 200 else limit
  }

  predicate Hit(r: Row, q: Query) {
    && (q.trace == "" || r.trace == q.trace)
    && (q.level == "" || LogDrain.Lower(r.level) == LogDrain.Lower(q.level))
    && (q.source == "" || r.source == q.source)
  }

  predicate Below(r: Row, c: Cursor) {
    if c.ts <= 0 then true
    else if c.id <= 0 then r.ts < c.ts
    else r.ts < c.ts || (r.ts == c.ts && r.id < c.id)
  }

  /** WHERE: the rows of `rows` a query selects. */
  function Matching(rows: seq<Row>, q: Query, c: Cursor): seq<Row> {
    if rows == [] then []
    else (if Hit(rows[0], q) && Below(rows[0], c) then [rows[0]] else []) + Matching(rows[1..], q, c)
  }

  predicate Newer(a: Row, b: Row) {
    a.ts > b.ts || (a.ts == b.ts && a.id > b.id)
  }

  function Insert(r: Row, rows: seq<Row>): seq<Row> {
    if rows == [] then [r]
    else if Newer(r, rows[0]) then [r] + rows
    else [rows[0]] + Insert(r, rows[1..])
  }

  /** ORDER BY ts DESC, id DESC. */
  function Newest(rows: seq<Row>): seq<Row> {
    if rows == [] then [] else Insert(rows[0], Newest(rows[1..]))
  }

  function Take(rows: seq<Row>, n: nat): seq<Row> {
    if |rows| <= n then rows else rows[..n]
  }

  function Page(table: seq<Row>, q: Query, c: Cursor, n: nat): seq<Row> {
    Take(Newest(Matching(table, q, c)), n)
  }

  // ---- The two queries --------------------------------------------------------

  predicate Strict(rows: seq<Row>) {
    forall i, j :: 0 <= i < j < |rows| ==> Newer(rows[i], rows[j])
  }

  predicate UniqueIds(rows: seq<Row>) {
    forall i, j :: 0 <= i < j < |rows| ==> rows[i].id != rows[j].id
  }

  /** The rows arrive in index order and the reader collects them until the limit. */
  method Fetch(table: seq<Row>, q: Query, c: Cursor, n: nat) returns (out: seq<Row>)
    requires UniqueIds(table)
    ensures out == Page(table, q, c, n)
  {
    var rows := Newest(table);
    out := [];
    var i := 0;
    while i < |rows| && |out| < n
      invariant 0 <= i <= |rows|
      invariant out == Matching(rows[..i], q, c) && |out| <= n
    {
      assert rows[..i + 1] == rows[..i] + [rows[i]];
      MatchingConcat(rows[..i], [rows[i]], q, c);
      if Hit(rows[i], q) && Below(rows[i], c) {
        out := out + [rows[i]];
      }
      i := i + 1;
    }
    assert rows == rows[..i] + rows[i..];
    MatchingConcat(rows[..i], rows[i..], q, c);
    MatchingNewest(table, q, c);
    assert i == |rows| ==> rows[i..] == [];
  }

  method QueryLogs(
      table: seq<Row>, trace: string, level: string, source: string, beforeTS: int, beforeID: int, limit: int)
    returns (out: seq<Row>)
    requires UniqueIds(table)
    ensures out == Page(table, Query(trace, level, source), Cursor(beforeTS, beforeID), Limit(limit, LOG_MAX))
    ensures IsPage(
              out, table, Query(trace, level, source), beforeTS, beforeID, if 1 <= limit <= 1000 then limit else 200)
  {
    PageIsPage(table, Query(trace, level, source), Cursor(beforeTS, beforeID), Limit(limit, LOG_MAX));
    hide IsPage, Page;
    out := Fetch(table, Query(trace, level, source), Cursor(beforeTS, beforeID), Limit(limit, LOG_MAX));
  }

  method ListAudit(table: seq<Row>, beforeTS: int, beforeID: int, limit: int) returns (out: seq<Row>)
    requires UniqueIds(table)
    ensures out == Page(table, ALL, Cursor(beforeTS, beforeID), Limit(limit, AUDIT_MAX))
    ensures IsPage(out, table, ALL, beforeTS, beforeID, if 1 <= limit <= 500 then limit else 200)
  {
    PageIsPage(table, ALL, Cursor(beforeTS, beforeID), Limit(limit, AUDIT_MAX));
    hide IsPage, Page;
    out := Fetch(table, ALL, Cursor(beforeTS, beforeID), Limit(limit, AUDIT_MAX));
  }

  // ---- Order and selection ----------------------------------------------------

  lemma {:induction false} MatchingConcat(a: seq<Row>, b: seq<Row>, q: Query, c: Cursor)
    ensures Matching(a + b, q, c) == Matching(a, q, c) + Matching(b, q, c)
  {
    if a == [] {
      assert a + b == b;
    } else {
      assert (a + b)[1..] == a[1..] + b;
      MatchingConcat(a[1..], b, q, c);
    }
  }

  lemma {:induction false} MatchingMembers(rows: seq<Row>, q: Query, c: Cursor)
    ensures forall r :: r in Matching(rows, q, c) <==> r in rows && Hit(r, q) && Below(r, c)
  {
    hide Hit, Below;
    if rows != [] {
      MatchingMembers(rows[1..], q, c);
      assert rows == [rows[0]] + rows[1..];
    }
  }

  lemma {:induction false} InsertContents(r: Row, rows: seq<Row>)
    ensures multiset(Insert(r, rows)) == multiset{r} + multiset(rows) && |Insert(r, rows)| == |rows| + 1
    ensures forall x :: x in Insert(r, rows) <==> x == r || x in rows
  {
    if rows != [] {
      InsertContents(r, rows[1..]);
      assert rows == [rows[0]] + rows[1..];
      hide Newer;
    }
  }

  lemma {:induction false} InsertStrict(r: Row, rows: seq<Row>)
    requires Strict(rows) && forall x :: x in rows ==> x.id != r.id
    ensures Strict(Insert(r, rows))
  {
    if rows != [] && !Newer(r, rows[0]) {
      InsertStrict(r, rows[1..]);
      InsertContents(r, rows[1..]);
      forall x | x in rows[1..] ensures Newer(rows[0], x) {
      }
      assert Newer(rows[0], r);
      hide Newer;
      assert Insert(r, rows) == [rows[0]] + Insert(r, rows[1..]);
      assert forall x :: x in Insert(r, rows[1..]) ==> Newer(rows[0], x);
    }
  }

  /** The scan is strictly newest first and a permutation of its rows. */
  lemma {:induction false} NewestIsOrdered(rows: seq<Row>)
    requires UniqueIds(rows)
    ensures Strict(Newest(rows)) && multiset(Newest(rows)) == multiset(rows) && |Newest(rows)| == |rows|
  {
    if rows != [] {
      NewestIsOrdered(rows[1..]);
      assert rows == [rows[0]] + rows[1..];
      forall x | x in Newest(rows[1..]) ensures x.id != rows[0].id {
        assert x in multiset(Newest(rows[1..]));
        assert x in rows[1..];
      }
      InsertContents(rows[0], Newest(rows[1..]));
      InsertStrict(rows[0], Newest(rows[1..]));
    }
  }

  lemma {:induction false} MatchingInsert(r: Row, rows: seq<Row>, q: Query, c: Cursor)
    requires Strict(rows)
    ensures Matching(Insert(r, rows), q, c)
         == if Hit(r, q) && Below(r, c) then Insert(r, Matching(rows, q, c)) else Matching(rows, q, c)
  {
    if rows != [] && !Newer(r, rows[0]) {
      MatchingInsert(r, rows[1..], q, c);
      assert rows == [rows[0]] + rows[1..];
      MatchingPrepend(rows[0], rows[1..], q, c);
      MatchingPrepend(rows[0], Insert(r, rows[1..]), q, c);
      InsertLater(r, rows[0], rows[1..]);
      InsertLater(r, rows[0], Matching(rows[1..], q, c));
      hide *;
    } else {
      NewerThanAll(r, rows);
      MatchingMembers(rows, q, c);
      InsertFront(r, rows);
      InsertFront(r, Matching(rows, q, c));
      MatchingPrepend(r, rows, q, c);
      hide *;
    }
  }

  lemma NewerThanAll(r: Row, rows: seq<Row>)
    requires Strict(rows) && (rows == [] || Newer(r, rows[0]))
    ensures forall x :: x in rows ==> Newer(r, x)
  {
  }

  lemma MatchingPrepend(x: Row, rows: seq<Row>, q: Query, c: Cursor)
    ensures Matching([x] + rows, q, c)
         == if Hit(x, q) && Below(x, c) then [x] + Matching(rows, q, c) else Matching(rows, q, c)
  {
    assert ([x] + rows)[1..] == rows;
  }

  lemma InsertLater(r: Row, x: Row, rows: seq<Row>)
    requires !Newer(r, x)
    ensures Insert(r, [x] + rows) == [x] + Insert(r, rows)
  {
    assert ([x] + rows)[1..] == rows;
  }

  lemma InsertFront(r: Row, rows: seq<Row>)
    requires forall x :: x in rows ==> Newer(r, x)
    ensures Insert(r, rows) == [r] + rows
  {
  }

  /** Selecting from the ordered rows is ordering the selected rows. */
  lemma {:induction false} MatchingNewest(rows: seq<Row>, q: Query, c: Cursor)
    requires UniqueIds(rows)
    ensures Matching(Newest(rows), q, c) == Newest(Matching(rows, q, c))
  {
    if rows != [] {
      MatchingNewest(rows[1..], q, c);
      NewestIsOrdered(rows[1..]);
      MatchingInsert(rows[0], Newest(rows[1..]), q, c);
      assert (if Hit(rows[0], q) && Below(rows[0], c) then [rows[0]] + Matching(rows[1..], q, c)
        else Matching(rows[1..], q, c))
          == Matching(rows, q, c);
    }
  }

  lemma {:induction false} MatchingUnique(rows: seq<Row>, q: Query, c: Cursor)
    requires UniqueIds(rows)
    ensures UniqueIds(Matching(rows, q, c))
  {
    if rows != [] {
      MatchingUnique(rows[1..], q, c);
      MatchingMembers(rows[1..], q, c);
      forall r | r in Matching(rows[1..], q, c) ensures r.id != rows[0].id {
        assert r in rows[1..];
      }
    }
  }

  function CursorOf(r: Row): Cursor {
    Cursor(r.ts, r.id)
  }

  predicate Positive(rows: seq<Row>) {
    forall r :: r in rows ==> r.ts > 0 && r.id > 0
  }

  /** Narrowing a selection further is selecting by the narrower cursor at once. */
  lemma {:induction false} MatchingTwice(rows: seq<Row>, q: Query, c: Cursor, d: Cursor)
    requires forall r :: r in rows && Below(r, d) ==> Below(r, c)
    ensures Matching(Matching(rows, q, c), q, d) == Matching(rows, q, d)
  {
    if rows != [] {
      MatchingTwice(rows[1..], q, c, d);
      var head := if Hit(rows[0], q) && Below(rows[0], c) then [rows[0]] else [];
      MatchingConcat(head, Matching(rows[1..], q, c), q, d);
    }
  }

  /** Below row `k` of an ordered selection lies exactly the rest of it. */
  lemma {:induction false} BelowIsSuffix(rows: seq<Row>, q: Query, k: nat)
    requires Strict(rows) && Positive(rows) && k < |rows| && forall r :: r in rows ==> Hit(r, q)
    ensures Matching(rows, q, CursorOf(rows[k])) == rows[k + 1..]
  {
    if k > 0 {
      BelowIsSuffix(rows[1..], q, k - 1);
      assert Newer(rows[0], rows[k]);
    } else {
      AllMatch(rows[1..], q, CursorOf(rows[0]));
    }
  }

  lemma {:induction false} AllMatch(rows: seq<Row>, q: Query, c: Cursor)
    requires forall r :: r in rows ==> Hit(r, q) && Below(r, c)
    ensures Matching(rows, q, c) == rows
  {
    if rows != [] {
      AllMatch(rows[1..], q, c);
    }
  }

  // ---- What a page holds ------------------------------------------------------

  predicate SameLetter(x: char, y: char) {
    || x == y
    || ('A' <= x <= 'Z' && y as int == x as int + 32)
    || ('A' <= y <= 'Z' && x as int == y as int + 32)
  }

  predicate SameUpToCase(a: string, b: string) {
    |a| == |b| && forall i :: 0 <= i < |a| ==> SameLetter(a[i], b[i])
  }

  /** The rows a query asks for: its trace and its source exactly, its level in any case, each unless empty. */
  predicate Asked(r: Row, q: Query) {
    && (q.trace == "" || r.trace == q.trace)
    && (q.level == "" || SameUpToCase(r.level, q.level))
    && (q.source == "" || r.source == q.source)
  }

  lemma LowerSame(a: string, b: string)
    ensures LogDrain.Lower(a) == LogDrain.Lower(b) <==> SameUpToCase(a, b)
  {
    if LogDrain.Lower(a) == LogDrain.Lower(b) {
      assert |LogDrain.Lower(a)| == |a| && |LogDrain.Lower(b)| == |b|;
      forall i | 0 <= i < |a| ensures SameLetter(a[i], b[i]) {
        assert LogDrain.Lower(a)[i] == LogDrain.Lower(b)[i];
      }
    }
  }

  lemma HitIsAsked(r: Row, q: Query)
    ensures Hit(r, q) <==> Asked(r, q)
  {
    LowerSame(r.level, q.level);
    hide LogDrain.Lower, SameUpToCase;
  }

  /** Later, or in the same second with a higher id. */
  predicate After(a: Row, b: Row) {
    a.ts > b.ts || (a.ts == b.ts && a.id > b.id)
  }

  /** Strictly before the cursor; without an id, in an earlier second; without a time, anywhere. */
  predicate BeforeCursor(r: Row, ts: int, id: int) {
    ts > 0 ==> r.ts < ts || (id > 0 && r.ts == ts && r.id < id)
  }

  /** A page, exactly: rows of the table the query asks for, before the cursor, newest first and each once;
      and any other such row is older than all of them and left out only because the page is full. */
  predicate IsPage(page: seq<Row>, table: seq<Row>, q: Query, ts: int, id: int, n: nat) {
    && |page| <= n
    && (forall i, j :: 0 <= i < j < |page| ==> After(page[i], page[j]))
    && (forall r :: r in page ==> r in table && Asked(r, q) && BeforeCursor(r, ts, id))
    && (forall r :: r in table && Asked(r, q) && BeforeCursor(r, ts, id) && r !in page ==>
          |page| == n && forall x :: x in page ==> After(x, r))
  }

  lemma RestMembers(table: seq<Row>, q: Query, c: Cursor)
    requires UniqueIds(table)
    ensures Strict(Rest(table, q, c))
    ensures forall r :: r in Rest(table, q, c) <==> r in table && Asked(r, q) && BeforeCursor(r, c.ts, c.id)
  {
    var m := Matching(table, q, c);
    MatchingUnique(table, q, c);
    MatchingMembers(table, q, c);
    NewestIsOrdered(m);
    hide Matching, Newest, Newer, Hit, Asked, UniqueIds, Strict;
    forall r ensures r in Rest(table, q, c) <==> r in table && Asked(r, q) && BeforeCursor(r, c.ts, c.id) {
      assert r in multiset(Newest(m)) <==> r in multiset(m);
      HitIsAsked(r, q);
    }
  }

  lemma TakeHolds(rows: seq<Row>, n: nat)
    ensures forall k :: 0 <= k < |Take(rows, n)| ==> rows[k] in Take(rows, n)
  {
    assert forall k :: 0 <= k < |Take(rows, n)| ==> Take(rows, n)[k] == rows[k];
  }

  lemma PageIsPage(table: seq<Row>, q: Query, c: Cursor, n: nat)
    requires UniqueIds(table)
    ensures IsPage(Page(table, q, c, n), table, q, c.ts, c.id, n)
  {
    var rest, page := Rest(table, q, c), Page(table, q, c, n);
    RestMembers(table, q, c);
    assert page == Take(rest, n);
    TakeHolds(rest, n);
    hide Rest, Page, Asked, BeforeCursor, UniqueIds;
    forall r | r in rest && r !in page ensures |page| == n && forall x :: x in page ==> After(x, r) {
      var k :| 0 <= k < |rest| && rest[k] == r;
      assert k >= |page|;
    }
  }

  // ---- Following the cursor ---------------------------------------------------

  /** What remains to be read below `c`, in order. */
  function Rest(table: seq<Row>, q: Query, c: Cursor): seq<Row> {
    Newest(Matching(table, q, c))
  }

  lemma RestIsOrdered(table: seq<Row>, q: Query, c: Cursor)
    requires UniqueIds(table)
    ensures Strict(Rest(table, q, c)) && UniqueIds(Matching(table, q, c))
    ensures forall r :: r in Rest(table, q, c) ==> r in table && Hit(r, q) && Below(r, c)
  {
    var m := Matching(table, q, c);
    MatchingUnique(table, q, c);
    MatchingMembers(table, q, c);
    NewestIsOrdered(m);
    hide Hit, Below;
    forall r | r in Newest(m) ensures r in m {
      assert r in multiset(Newest(m));
    }
  }

  lemma RestAfterPage(table: seq<Row>, q: Query, c: Cursor, n: nat)
    requires UniqueIds(table) && Positive(table) && 1 <= n <= |Rest(table, q, c)|
    ensures Rest(table, q, CursorOf(Rest(table, q, c)[n - 1])) == Rest(table, q, c)[n..]
  {
    var m, rest := Matching(table, q, c), Rest(table, q, c);
    RestIsOrdered(table, q, c);
    var last := rest[n - 1];
    assert last in rest;
    BelowIsSuffix(rest, q, n - 1);
    MatchingNewest(m, q, CursorOf(last));
    MatchingTwice(table, q, c, CursorOf(last));
  }

  predicate AllNewer(added: seq<Row>, base: seq<Row>) {
    forall a, b :: a in added && b in base ==> Newer(a, b)
  }

  lemma {:induction false} NoneMatch(rows: seq<Row>, q: Query, c: Cursor)
    requires forall r :: r in rows ==> !Below(r, c)
    ensures Matching(rows, q, c) == []
  {
    if rows != [] {
      NoneMatch(rows[1..], q, c);
    }
  }

  lemma NewRowsUnseen(base: seq<Row>, extra: seq<Row>, q: Query, last: Row)
    requires last in base && last.ts > 0 && last.id > 0 && AllNewer(extra, base)
    ensures Matching(base + extra, q, CursorOf(last)) == Matching(base, q, CursorOf(last))
  {
    MatchingConcat(base, extra, q, CursorOf(last));
    forall r | r in extra ensures !Below(r, CursorOf(last)) {
      assert Newer(r, last);
    }
    NoneMatch(extra, q, CursorOf(last));
  }

  /** The pages a reader gets who follows the cursor until a page is short, while `added[k]` are the
      rows written after page `k` was read (`extra` those written so far). */
  ghost function Follow(
      base: seq<Row>, extra: seq<Row>, added: seq<seq<Row>>, q: Query, c: Cursor, n: nat): seq<seq<Row>>
    requires UniqueIds(base) && Positive(base) && n >= 1
    requires AllNewer(extra, base) && forall k :: 0 <= k < |added| ==> AllNewer(added[k], base)
    requires Resumes(base, extra, c)
    decreases |Rest(base, q, c)|
  {
    PageOfBase(base, extra, q, c, n);
    var page := Page(base + extra, q, c, n);
    if |page| < n then [page]
    else
      RestAfterPage(base, q, c, n);
      FromBase(base, q, c, n - 1);
      GrownNewer(base, extra, added);
      [page] + Follow(base, Grown(extra, added), Later(added), q, CursorOf(page[n - 1]), n)
  }

  function Grown(extra: seq<Row>, added: seq<seq<Row>>): seq<Row> {
    if added == [] then extra else extra + added[0]
  }

  function Later(added: seq<seq<Row>>): seq<seq<Row>> {
    if added == [] then [] else added[1..]
  }

  lemma GrownNewer(base: seq<Row>, extra: seq<Row>, added: seq<seq<Row>>)
    requires AllNewer(extra, base) && forall k :: 0 <= k < |added| ==> AllNewer(added[k], base)
    ensures AllNewer(Grown(extra, added), base)
    ensures forall k :: 0 <= k < |Later(added)| ==> AllNewer(Later(added)[k], base)
  {
    hide Newer;
    if added != [] {
      assert AllNewer(added[0], base);
      assert forall k :: 0 <= k < |added| - 1 ==> Later(added)[k] == added[k + 1];
    }
  }

  /** The first page has no cursor; a later one resumes below a row read before. */
  ghost predicate Resumes(base: seq<Row>, extra: seq<Row>, c: Cursor) {
    if c == NO_CURSOR then extra == [] else exists r :: r in base && c == CursorOf(r)
  }

  lemma PageOfBase(base: seq<Row>, extra: seq<Row>, q: Query, c: Cursor, n: nat)
    requires Positive(base) && AllNewer(extra, base)
    requires Resumes(base, extra, c)
    ensures Page(base + extra, q, c, n) == Take(Rest(base, q, c), n)
  {
    if c == NO_CURSOR {
      assert base + extra == base;
    } else {
      var r :| r in base && c == CursorOf(r);
      NewRowsUnseen(base, extra, q, r);
    }
  }

  lemma FromBase(base: seq<Row>, q: Query, c: Cursor, k: nat)
    requires UniqueIds(base) && k < |Rest(base, q, c)|
    ensures Rest(base, q, c)[k] in base
  {
    MatchingUnique(base, q, c);
    MatchingMembers(base, q, c);
    NewestIsOrdered(Matching(base, q, c));
    assert Rest(base, q, c)[k] in multiset(Matching(base, q, c));
  }

  function Flatten(pages: seq<seq<Row>>): seq<Row> {
    if pages == [] then [] else pages[0] + Flatten(pages[1..])
  }

  /** Full pages and then a short one that together are `rest`. */
  predicate Paged(pages: seq<seq<Row>>, rest: seq<Row>, n: nat) {
    && Flatten(pages) == rest && pages != [] && |pages[|pages| - 1]| < n
    && forall k :: 0 <= k < |pages| - 1 ==> |pages[k]| == n
  }

  lemma PagedLast(page: seq<Row>, n: nat)
    requires |page| < n
    ensures Paged([page], page, n)
  {
    assert [page][1..] == [] && page + [] == page;
  }

  lemma PagedPrepend(page: seq<Row>, more: seq<seq<Row>>, rest: seq<Row>, n: nat)
    requires n <= |rest| && page == rest[..n] && Paged(more, rest[n..], n)
    ensures Paged([page] + more, rest, n)
  {
    assert ([page] + more)[1..] == more;
    hide Flatten;
  }

  /** Following the cursor ends, and the pages together are exactly one ordered scan of the rows there
      were at the first page, each once, however many newer rows are written in between; every page
      but the last is full. */
  lemma {:induction false} PagesAreOneScan(
    base: seq<Row>, extra: seq<Row>, added: seq<seq<Row>>, q: Query, c: Cursor, n: nat)
    requires UniqueIds(base) && Positive(base) && n >= 1
    requires AllNewer(extra, base) && forall k :: 0 <= k < |added| ==> AllNewer(added[k], base)
    requires Resumes(base, extra, c)
    ensures Paged(Follow(base, extra, added, q, c, n), Rest(base, q, c), n)
    decreases |Rest(base, q, c)|
  {
    hide Rest, Newer, UniqueIds, AllNewer, Grown, Later, Paged;
    PageOfBase(base, extra, q, c, n);
    var page, rest := Page(base + extra, q, c, n), Rest(base, q, c);
    if |page| < n {
      PagedLast(page, n);
    } else {
      RestAfterPage(base, q, c, n);
      FromBase(base, q, c, n - 1);
      GrownNewer(base, extra, added);
      var next := CursorOf(page[n - 1]);
      PagesAreOneScan(base, Grown(extra, added), Later(added), q, next, n);
      PagedPrepend(page, Follow(base, Grown(extra, added), Later(added), q, next, n), rest, n);
    }
  }

  /** What the reader of a whole table gets. */
  lemma WholeTable(base: seq<Row>, added: seq<seq<Row>>, q: Query, n: nat)
    requires UniqueIds(base) && Positive(base) && n >= 1
    requires forall k :: 0 <= k < |added| ==> AllNewer(added[k], base)
    ensures var got := Flatten(Follow(base, [], added, q, NO_CURSOR, n));
            && (forall i, j :: 0 <= i < j < |got| ==> After(got[i], got[j]))
            && (forall r :: r in got <==> r in base && Asked(r, q))
  {
    PagesAreOneScan(base, [], added, q, NO_CURSOR, n);
    var m := Matching(base, q, NO_CURSOR);
    MatchingUnique(base, q, NO_CURSOR);
    MatchingMembers(base, q, NO_CURSOR);
    NewestIsOrdered(m);
    forall r ensures r in Newest(m) <==> r in base && Asked(r, q) {
      assert r in multiset(Newest(m)) <==> r in multiset(m);
      HitIsAsked(r, q);
    }
  }

  // ---- Where the cursor fails -------------------------------------------------

  /** A row whose time is not positive is no cursor at all: the page after it is the first page again. */
  lemma NonPositiveTimeRestarts(table: seq<Row>, q: Query, last: Row, n: nat)
    requires last.ts <= 0
    ensures Page(table, q, CursorOf(last), n) == Page(table, q, NO_CURSOR, n)
  {
    SameSelection(table, q, CursorOf(last), NO_CURSOR);
  }

  lemma {:induction false} SameSelection(rows: seq<Row>, q: Query, c: Cursor, d: Cursor)
    requires c.ts <= 0 && d.ts <= 0
    ensures Matching(rows, q, c) == Matching(rows, q, d)
  {
    if rows != [] {
      SameSelection(rows[1..], q, c, d);
    }
  }

  /** The rows of a second that come next are passed over. */
  function SkipSecond(rows: seq<Row>, ts: int): (r: seq<Row>)
    ensures |r| <= |rows|
  {
    if rows != [] && rows[0].ts >= ts then SkipSecond(rows[1..], ts) else rows
  }

  lemma {:induction false} TimeSuffix(rows: seq<Row>, q: Query, ts: int)
    requires Strict(rows) && ts > 0 && forall r :: r in rows ==> Hit(r, q)
    ensures Matching(rows, q, Cursor(ts, 0)) == SkipSecond(rows, ts)
  {
    if rows != [] {
      if rows[0].ts >= ts {
        TimeSuffix(rows[1..], q, ts);
      } else {
        assert forall i :: 0 < i < |rows| ==> Newer(rows[0], rows[i]);
        AllMatch(rows, q, Cursor(ts, 0));
      }
    }
  }

  lemma {:induction false} SkipPage(rows: seq<Row>, n: nat, ts: int)
    requires n <= |rows| && forall i :: 0 <= i < n ==> rows[i].ts >= ts
    ensures SkipSecond(rows, ts) == SkipSecond(rows[n..], ts)
  {
    if n > 0 {
      SkipPage(rows[1..], n - 1, ts);
      assert rows[1..][n - 1..] == rows[n..];
    }
  }

  /** A cursor without an id, taken from the last row of a page, skips the unread rows of that row's
      second, and only those. */
  lemma TimeOnlyCursorSkips(table: seq<Row>, q: Query, c: Cursor, n: nat)
    requires UniqueIds(table) && Positive(table) && 1 <= n <= |Rest(table, q, c)|
    ensures var rest := Rest(table, q, c);
            Rest(table, q, Cursor(rest[n - 1].ts, 0)) == SkipSecond(rest[n..], rest[n - 1].ts)
  {
    var m, rest := Matching(table, q, c), Rest(table, q, c);
    RestIsOrdered(table, q, c);
    var last := rest[n - 1];
    assert last in rest;
    assert forall r :: Below(r, Cursor(last.ts, 0)) ==> Below(r, c);
    assert forall i :: 0 <= i < n - 1 ==> Newer(rest[i], last);
    hide Strict, Hit, UniqueIds, SkipSecond, Rest;
    TimeSuffix(rest, q, last.ts);
    MatchingNewest(m, q, Cursor(last.ts, 0));
    MatchingTwice(table, q, c, Cursor(last.ts, 0));
    SkipPage(rest, n, last.ts);
    RestByTime(table, q, c, Cursor(last.ts, 0));
  }

  lemma RestByTime(table: seq<Row>, q: Query, c: Cursor, d: Cursor)
    requires Matching(Matching(table, q, c), q, d) == Matching(table, q, d)
    requires Matching(Newest(Matching(table, q, c)), q, d) == Newest(Matching(Matching(table, q, c), q, d))
    ensures Rest(table, q, d) == Matching(Rest(table, q, c), q, d)
  {
    hide Matching, Newest;
  }

  /** The pages of a reader who passes on the time of the last row but not its id. */
  ghost function FollowByTime(table: seq<Row>, q: Query, c: Cursor, n: nat): seq<seq<Row>>
    requires UniqueIds(table) && Positive(table) && n >= 1
    decreases |Rest(table, q, c)|
  {
    var page := Page(table, q, c, n);
    if |page| < n then [page]
    else
      TimeOnlyCursorSkips(table, q, c, n);
      [page] + FollowByTime(table, q, Cursor(page[n - 1].ts, 0), n)
  }

  /** No page but the last ends in the middle of a second. */
  predicate PagesEndSeconds(rest: seq<Row>, n: nat)
    requires n >= 1
    decreases |rest|
  {
    |rest| <= n || (rest[n].ts < rest[n - 1].ts && PagesEndSeconds(rest[n..], n))
  }

  lemma PageByTime(rest: seq<Row>, n: nat, more: seq<Row>)
    requires 1 <= n <= |rest|
    requires var next := SkipSecond(rest[n..], rest[n - 1].ts);
             |more| <= |next| && (more == next <==> PagesEndSeconds(next, n))
    ensures |rest[..n] + more| <= |rest| && (rest[..n] + more == rest <==> PagesEndSeconds(rest, n))
  {
    var got := rest[..n] + more;
    assert rest == rest[..n] + rest[n..];
    if got == rest {
      assert more == got[n..] == rest[n..];
    }
    if |rest| > n && rest[n].ts >= rest[n - 1].ts {
      assert |more| < |rest[n..]|;
    }
  }

  lemma {:induction false} TimeOnlyReads(table: seq<Row>, q: Query, c: Cursor, n: nat)
    requires UniqueIds(table) && Positive(table) && n >= 1
    ensures var got := Flatten(FollowByTime(table, q, c, n));
            |got| <= |Rest(table, q, c)| && (got == Rest(table, q, c) <==> PagesEndSeconds(Rest(table, q, c), n))
    decreases |Rest(table, q, c)|
  {
    hide Rest, Page, PagesEndSeconds, SkipSecond, UniqueIds, Positive;
    var rest, page := Rest(table, q, c), Page(table, q, c, n);
    PageIsTaken(table, q, c, n);
    if |page| < n {
      PagedLast(page, n);
      ShortRest(rest, n);
    } else {
      var next := Cursor(page[n - 1].ts, 0);
      TimeOnlyCursorSkips(table, q, c, n);
      TimeOnlyReads(table, q, next, n);
      var more := FollowByTime(table, q, next, n);
      assert ([page] + more)[1..] == more;
      PageByTime(rest, n, Flatten(more));
    }
  }

  lemma PageIsTaken(table: seq<Row>, q: Query, c: Cursor, n: nat)
    ensures Page(table, q, c, n) == Take(Rest(table, q, c), n)
  {
  }

  lemma ShortRest(rest: seq<Row>, n: nat)
    requires n >= 1 && |rest| <= n
    ensures PagesEndSeconds(rest, n)
  {
  }

  /** The exact law: such a reader gets the whole scan if and only if no page but the last ends in the
      middle of a second. */
  lemma TimeOnlyLosesIff(table: seq<Row>, q: Query, n: nat)
    requires UniqueIds(table) && Positive(table) && n >= 1
    ensures Flatten(FollowByTime(table, q, NO_CURSOR, n)) == Flatten(Follow(table, [], [], q, NO_CURSOR, n))
       <==> PagesEndSeconds(Rest(table, q, NO_CURSOR), n)
  {
    TimeOnlyReads(table, q, NO_CURSOR, n);
    PagesAreOneScan(table, [], [], q, NO_CURSOR, n);
  }
}
