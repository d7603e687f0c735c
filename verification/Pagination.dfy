/** Keyset pagination of a portfolio's transactions (portfolio_transactions.py), while rows are created,
  * soft-deleted and edited between pages. */
module Pagination {
  import opened Prelude

  datatype Row = Row(id: nat, portfolio: nat, tradedAt: int, deleted: bool, memo: string, tags: string)

  /** a comes before b: traded later, or at the same time with the larger id. */
  predicate Newer(a: Row, b: Row) {
    a.tradedAt > b.tradedAt || (a.tradedAt == b.tradedAt && a.id > b.id)
  }

  function Find(rows: seq<Row>, id: nat): Option<Row> {
    if rows == [] then None else if Last(rows).id == id then Some(Last(rows)) else Find(DropLast(rows), id)
  }

  predicate Matches(r: Row, portfolio: nat, after: Option<Row>) {
    r.portfolio == portfolio && !r.deleted && (after.Some? ==> Newer(after.value, r))
  }

  function Matching(rows: seq<Row>, portfolio: nat, after: Option<Row>): seq<Row> {
    if rows == [] then []
    else Matching(DropLast(rows), portfolio, after) + if Matches(Last(rows), portfolio, after) then [Last(rows)] else []
  }

  function Inserted(r: Row, sorted: seq<Row>): seq<Row> {
    if sorted == [] then [r]
    else if Newer(r, sorted[0]) then [r] + sorted
    else [sorted[0]] + Inserted(r, sorted[1..])
  }

  /** order_by(traded_at desc, id desc) */
  function NewestFirst(rows: seq<Row>): seq<Row> {
    if rows == [] then [] else Inserted(Last(rows), NewestFirst(DropLast(rows)))
  }

  datatype Page = Page(items: seq<Row>, nextCursor: Option<nat>, hasMore: bool)

  /** The row behind the cursor counts even when deleted; an unknown or foreign cursor counts as none. */
  function Reference(rows: seq<Row>, portfolio: nat, cursor: nat): Option<Row> {
    if cursor == 0 then None
    else
      match Find(rows, cursor)
      case Some(r) => if r.portfolio == portfolio then Some(r) else None
      case None => None
  }

  function ListPage(rows: seq<Row>, portfolio: nat, cursor: nat, limit: nat): Page
    requires limit >= 1
  {
    var found := NewestFirst(Matching(rows, portfolio, Reference(rows, portfolio, cursor)));
    var fetched := if |found| > limit + 1 then found[..limit + 1] else found;
    var hasMore := |fetched| > limit;
    var items := if hasMore then fetched[..limit] else fetched;
    Page(items, if hasMore then Some(Last(items).id) else None, hasMore)
  }

  predicate UniqueIds(rows: seq<Row>) {
    (forall r <- rows :: r.id > 0) && forall i, j | 0 <= i < j < |rows| :: rows[i].id != rows[j].id
  }

  /** Rows may be edited, soft-deleted and added; their ids, owners and trade times stay. */
  predicate Evolves(a: seq<Row>, b: seq<Row>) {
    && |a| <= |b|
    && forall i | 0 <= i < |a| ::
         && b[i].(deleted := a[i].deleted, memo := a[i].memo, tags := a[i].tags) == a[i]
         && (a[i].deleted ==> b[i].deleted)
  }

  class TransactionTable {
    var rows: seq<Row>

    constructor ()
      ensures rows == []
    {
      rows := [];
    }

    /** The database picks an id no row has. */
    method CreateTransaction(id: nat, portfolio: nat, tradedAt: int) returns (r: Row)
      requires UniqueIds(rows) && id > 0 && forall i | 0 <= i < |rows| :: rows[i].id != id
      modifies this
      ensures r == Row(id, portfolio, tradedAt, false, "", "") && rows == old(rows) + [r]
      ensures UniqueIds(rows) && Evolves(old(rows), rows)
    {
      r := Row(id, portfolio, tradedAt, false, "", "");
      rows := rows + [r];
    }

    method IndexOf(id: nat) returns (i: nat)
      ensures i <= |rows| && (i < |rows| ==> rows[i].id == id)
      ensures i == |rows| ==> forall k | 0 <= k < |rows| :: rows[k].id != id
    {
      i := 0;
      while i < |rows| && rows[i].id != id
        invariant i <= |rows|
        invariant forall k | 0 <= k < i :: rows[k].id != id
      {
        i := i + 1;
      }
    }

    /** False stands for the 404 answer: no such transaction, or already deleted. */
    method DeleteTransaction(id: nat) returns (ok: bool)
      requires UniqueIds(rows)
      modifies this
      ensures ok <==> exists i :: 0 <= i < |old(rows)| && old(rows)[i].id == id && !old(rows)[i].deleted
      ensures !ok ==> rows == old(rows)
      ensures ok ==> exists i :: 0 <= i < |old(rows)| && old(rows)[i].id == id && rows == old(rows)[i := old(rows)[i].(deleted := true)]
      ensures UniqueIds(rows) && Evolves(old(rows), rows)
    {
      var i := IndexOf(id);
      if i == |rows| || rows[i].deleted {
        return false;
      }
      rows := rows[i := rows[i].(deleted := true)];
      ok := true;
    }

    method UpdateMemo(portfolio: nat, id: nat, memo: string, tags: Option<string>) returns (ok: bool)
      requires UniqueIds(rows)
      modifies this
      ensures ok <==> exists i :: 0 <= i < |old(rows)| && old(rows)[i].id == id && !old(rows)[i].deleted &&
                        old(rows)[i].portfolio == portfolio
      ensures !ok ==> rows == old(rows)
      ensures ok ==> exists i :: 0 <= i < |old(rows)| && old(rows)[i].id == id &&
                       var r := old(rows)[i];
                       rows == old(rows)[i := r.(memo := memo, tags := if tags.Some? then tags.value else r.tags)]
      ensures UniqueIds(rows) && Evolves(old(rows), rows)
    {
      var i := IndexOf(id);
      if i == |rows| || rows[i].deleted || rows[i].portfolio != portfolio {
        return false;
      }
      rows := rows[i := rows[i].(memo := memo)];
      if tags.Some? {
        rows := rows[i := rows[i].(tags := tags.value)];
      }
      ok := true;
    }
  }

  // ----- One page -----

  ghost predicate Descending(rs: seq<Row>) {
    forall i, j | 0 <= i < j < |rs| :: Newer(rs[i], rs[j])
  }

  lemma {:induction false} InsertedSorts(r: Row, sorted: seq<Row>)
    requires Descending(sorted) && forall s <- sorted :: s.id != r.id
    ensures Descending(Inserted(r, sorted))
    ensures forall x :: x in Inserted(r, sorted) <==> x == r || x in sorted
  {
    if sorted == [] {
    } else if Newer(r, sorted[0]) {
      assert forall k | 0 < k < |sorted| :: Newer(sorted[0], sorted[k]);
    } else {
      var rest := Inserted(r, sorted[1..]);
      InsertedSorts(r, sorted[1..]);
      assert sorted == [sorted[0]] + sorted[1..];
      forall k | 0 <= k < |rest|
        ensures Newer(sorted[0], rest[k])
      {
        assert rest[k] in rest;
      }
    }
  }

  lemma {:induction false} NewestFirstSorts(rows: seq<Row>)
    requires forall i, j | 0 <= i < j < |rows| :: rows[i].id != rows[j].id
    ensures Descending(NewestFirst(rows))
    ensures forall x :: x in NewestFirst(rows) <==> x in rows
  {
    if rows != [] {
      NewestFirstSorts(DropLast(rows));
      assert rows == DropLast(rows) + [Last(rows)];
      InsertedSorts(Last(rows), NewestFirst(DropLast(rows)));
    }
  }

  lemma {:induction false} MatchingFilters(rows: seq<Row>, portfolio: nat, after: Option<Row>)
    requires forall i, j | 0 <= i < j < |rows| :: rows[i].id != rows[j].id
    ensures var m := Matching(rows, portfolio, after);
            && (forall x :: x in m <==> x in rows && Matches(x, portfolio, after))
            && (forall i, j | 0 <= i < j < |m| :: m[i].id != m[j].id)
  {
    if rows != [] {
      MatchingFilters(DropLast(rows), portfolio, after);
      assert rows == DropLast(rows) + [Last(rows)];
      var m := Matching(DropLast(rows), portfolio, after);
      assert forall i | 0 <= i < |m| :: m[i] in DropLast(rows) && m[i].id != Last(rows).id;
    }
  }

  /** In the terms of the query: whatever matches is on the page, or comes after its last row. */
  lemma PageHoldsMatches(rows: seq<Row>, portfolio: nat, cursor: nat, limit: nat)
    requires UniqueIds(rows) && limit >= 1
    ensures var p, after := ListPage(rows, portfolio, cursor, limit), Reference(rows, portfolio, cursor);
            && Descending(p.items) && |p.items| <= limit
            && (forall x <- p.items :: x in rows && Matches(x, portfolio, after))
            && p.hasMore == p.nextCursor.Some? == (exists x :: x in rows && Matches(x, portfolio, after) && x !in p.items)
            && (p.hasMore ==> |p.items| == limit && p.nextCursor.value == Last(p.items).id)
            && (forall x <- rows :: Matches(x, portfolio, after) ==>
                  x in p.items || (p.nextCursor.Some? && Newer(Last(p.items), x)))
  {
    var after := Reference(rows, portfolio, cursor);
    MatchingFilters(rows, portfolio, after);
    var m := Matching(rows, portfolio, after);
    NewestFirstSorts(m);
    var found, p := NewestFirst(m), ListPage(rows, portfolio, cursor, limit);
    assert p.items == if |found| > limit then found[..limit] else found;
    if |found| > limit {
      assert found[limit] in found && found[limit] in rows;
      assert forall k | 0 <= k < limit :: Newer(found[k], found[limit]);
    }
    forall x <- rows | Matches(x, portfolio, after)
      ensures x in p.items || (p.nextCursor.Some? && Newer(Last(p.items), x))
    {
      assert x in m && x in found;
      var k :| 0 <= k < |found| && found[k] == x;
      if k >= |p.items| {
        assert Newer(found[|p.items| - 1], found[k]);
      } else {
        assert p.items[k] == x;
      }
    }
  }

  lemma {:induction false} FindFinds(rows: seq<Row>, i: nat)
    requires UniqueIds(rows) && i < |rows|
    ensures Find(rows, rows[i].id) == Some(rows[i])
  {
    if i < |rows| - 1 {
      FindFinds(DropLast(rows), i);
    }
  }

  lemma {:induction false} FoundIsThere(rows: seq<Row>, id: nat)
    ensures Find(rows, id).Some? ==> Find(rows, id).value in rows && Find(rows, id).value.id == id
    ensures Find(rows, id).None? ==> forall r <- rows :: r.id != id
  {
    if rows != [] {
      FoundIsThere(DropLast(rows), id);
      assert rows == DropLast(rows) + [Last(rows)];
    }
  }

  /** Still to come: a live row of the portfolio that was traded before the row the cursor names, if the
    * portfolio has such a row, deleted or not; or at the same time, with a smaller id. */
  ghost predicate Due(rows: seq<Row>, portfolio: nat, cursor: nat, x: Row) {
    && x in rows && x.portfolio == portfolio && !x.deleted
    && forall c <- rows | c.id == cursor && c.portfolio == portfolio ::
         x.tradedAt < c.tradedAt || (x.tradedAt == c.tradedAt && x.id < c.id)
  }

  lemma MatchesAreDue(rows: seq<Row>, portfolio: nat, cursor: nat, x: Row)
    requires UniqueIds(rows)
    ensures x in rows && Matches(x, portfolio, Reference(rows, portfolio, cursor)) <==> Due(rows, portfolio, cursor, x)
  {
    FoundIsThere(rows, cursor);
    forall c <- rows | c.id == cursor
      ensures Find(rows, cursor) == Some(c)
    {
      var i :| 0 <= i < |rows| && rows[i] == c;
      FindFinds(rows, i);
    }
  }

  /** Latest first, and the larger id first at the same time. */
  ghost predicate LatestFirst(rs: seq<Row>) {
    forall i, j | 0 <= i < j < |rs| :: rs[i].tradedAt > rs[j].tradedAt || (rs[i].tradedAt == rs[j].tradedAt && rs[i].id > rs[j].id)
  }

  /** A page lists the latest of the rows due, in order, up to the limit: whatever is due is on it, or would come
    * after its last row. There is a next cursor exactly when something due did not fit, and then the page is full. */
  lemma PageIsPrefix(rows: seq<Row>, portfolio: nat, cursor: nat, limit: nat)
    requires UniqueIds(rows) && limit >= 1
    ensures var p := ListPage(rows, portfolio, cursor, limit);
            && LatestFirst(p.items) && |p.items| <= limit
            && (forall x <- p.items :: Due(rows, portfolio, cursor, x))
            && p.hasMore == p.nextCursor.Some? == (exists x :: Due(rows, portfolio, cursor, x) && x !in p.items)
            && (p.hasMore ==> |p.items| == limit && p.nextCursor.value == Last(p.items).id)
            && (forall x | Due(rows, portfolio, cursor, x) && x !in p.items :: p.items != [] && LatestFirst([Last(p.items), x]))
  {
    PageHoldsMatches(rows, portfolio, cursor, limit);
    forall x {
      MatchesAreDue(rows, portfolio, cursor, x);
    }
  }

  // ----- A whole traversal -----

  /** Pages fetched one after the other, each from the table as it then is. */
  ghost predicate Traversal(tables: seq<seq<Row>>, portfolio: nat, limit: nat, pages: seq<Page>) {
    && limit >= 1
    && |tables| == |pages| > 0
    && UniqueIds(Last(tables))
    && if |pages| == 1 then
         Last(pages) == ListPage(Last(tables), portfolio, 0, limit)
       else
         && Traversal(DropLast(tables), portfolio, limit, DropLast(pages))
         && Evolves(Last(DropLast(tables)), Last(tables))
         && Last(DropLast(pages)).nextCursor.Some?
         && Last(pages) == ListPage(Last(tables), portfolio, Last(DropLast(pages)).nextCursor.value, limit)
  }

  function Items(pages: seq<Page>): seq<Row> {
    if pages == [] then [] else Items(DropLast(pages)) + Last(pages).items
  }

  lemma EvolvesTwice(a: seq<Row>, b: seq<Row>, c: seq<Row>)
    requires Evolves(a, b) && Evolves(b, c)
    ensures Evolves(a, c)
  {
    assert forall i | 0 <= i < |a| :: b[i].(deleted := a[i].deleted, memo := a[i].memo, tags := a[i].tags) == a[i];
  }

  lemma {:induction false} EvolvesThroughout(tables: seq<seq<Row>>, portfolio: nat, limit: nat, pages: seq<Page>)
    requires Traversal(tables, portfolio, limit, pages)
    ensures Evolves(tables[0], Last(tables))
  {
    if |pages| > 1 {
      EvolvesThroughout(DropLast(tables), portfolio, limit, DropLast(pages));
      EvolvesTwice(tables[0], Last(DropLast(tables)), Last(tables));
    }
  }

  /** What is known after some pages: the items are in order, and a row that was there from the start and
    * is still live has been returned unless it comes after the last item and there is a next cursor. */
  ghost predicate Swept(first: seq<Row>, now: seq<Row>, portfolio: nat, pages: seq<Page>)
    requires pages != []
  {
    var items, page := Items(pages), Last(pages);
    && Descending(items)
    && (page.nextCursor.Some? ==> items != [] && StandsFor(page.nextCursor.value, now, portfolio, Last(items)))
    && (forall i | 0 <= i < |first| && i < |now| && now[i].portfolio == portfolio && !now[i].deleted ::
          Returned(items, now[i]) || (page.nextCursor.Some? && Newer(Last(items), now[i])))
  }

  /** The cursor is the id of that row of the portfolio. */
  ghost predicate StandsFor(cursor: nat, rows: seq<Row>, portfolio: nat, r: Row) {
    exists c :: 0 <= c < |rows| && SameKey(rows[c], r) && rows[c].portfolio == portfolio && rows[c].id == cursor > 0
  }

  predicate SameKey(a: Row, b: Row) {
    (a.id, a.tradedAt) == (b.id, b.tradedAt)
  }

  ghost predicate Returned(items: seq<Row>, r: Row) {
    exists k :: 0 <= k < |items| && SameKey(items[k], r)
  }

  lemma FirstPage(rows: seq<Row>, portfolio: nat, limit: nat)
    requires UniqueIds(rows) && limit >= 1
    ensures Swept(rows, rows, portfolio, [ListPage(rows, portfolio, 0, limit)])
  {
    PageHoldsMatches(rows, portfolio, 0, limit);
    var p := ListPage(rows, portfolio, 0, limit);
    assert DropLast([p]) == [] && Items([p]) == p.items;
    if p.nextCursor.Some? {
      assert Last(p.items) in rows;
    }
    forall i | 0 <= i < |rows| && rows[i].portfolio == portfolio && !rows[i].deleted
      ensures Returned(p.items, rows[i]) || (p.nextCursor.Some? && Newer(Last(p.items), rows[i]))
    {
      assert rows[i] in rows && Matches(rows[i], portfolio, None);
    }
  }

  /** The cursor still stands for the last item, wherever the table has gone since. */
  lemma CursorHolds(before: seq<Row>, now: seq<Row>, portfolio: nat, last: Row)
    requires UniqueIds(now) && Evolves(before, now) && last.id > 0
    requires Recorded(before, portfolio, last)
    ensures Reference(now, portfolio, last.id).Some? && SameKey(Reference(now, portfolio, last.id).value, last)
  {
    var c :| 0 <= c < |before| && SameKey(before[c], last) && before[c].portfolio == portfolio;
    FindFinds(now, c);
  }

  lemma NextPage(first: seq<Row>, before: seq<Row>, now: seq<Row>, portfolio: nat, limit: nat, pages: seq<Page>)
    requires pages != [] && Swept(first, before, portfolio, pages) && Last(pages).nextCursor.Some? && limit >= 1
    requires UniqueIds(before) && UniqueIds(now) && Evolves(before, now) && |first| <= |before|
    ensures Swept(first, now, portfolio, pages + [ListPage(now, portfolio, Last(pages).nextCursor.value, limit)])
  {
    var items, cursor := Items(pages), Last(pages).nextCursor.value;
    CursorHolds(before, now, portfolio, Last(items));
    PageHoldsMatches(now, portfolio, cursor, limit);
    var p := ListPage(now, portfolio, cursor, limit);
    assert DropLast(pages + [p]) == pages;
    AppendDescending(items, p.items);
    if p.nextCursor.Some? {
      assert Last(items + p.items) == Last(p.items) && Last(p.items) in now;
    }
    forall i | 0 <= i < |first| && now[i].portfolio == portfolio && !now[i].deleted
      ensures Returned(items + p.items, now[i]) || (p.nextCursor.Some? && Newer(Last(items + p.items), now[i]))
    {
      RowSwept(before[i], now, i, portfolio, limit, items, Last(pages).nextCursor);
    }
  }

  /** A live row is among the items so far, on the next page, or comes after it. */
  lemma RowSwept(was: Row, now: seq<Row>, i: nat, portfolio: nat, limit: nat, items: seq<Row>, cursor: Option<nat>)
    requires UniqueIds(now) && limit >= 1 && i < |now| && now[i].portfolio == portfolio && !now[i].deleted && SameKey(was, now[i])
    requires items != [] && cursor.Some? && Reference(now, portfolio, cursor.value).Some?
    requires SameKey(Reference(now, portfolio, cursor.value).value, Last(items))
    requires Returned(items, was) || Newer(Last(items), was)
    ensures var p := ListPage(now, portfolio, cursor.value, limit);
            Returned(items + p.items, now[i]) || (p.nextCursor.Some? && p.items != [] && Newer(Last(p.items), now[i]))
  {
    var p := ListPage(now, portfolio, cursor.value, limit);
    PageHoldsMatches(now, portfolio, cursor.value, limit);
    if Returned(items, was) {
      var k :| 0 <= k < |items| && SameKey(items[k], was);
      assert (items + p.items)[k] == items[k];
    } else if now[i] in p.items {
      var k :| 0 <= k < |p.items| && p.items[k] == now[i];
      assert (items + p.items)[|items| + k] == now[i];
    } else {
      assert now[i] in now && Matches(now[i], portfolio, Reference(now, portfolio, cursor.value));
    }
  }

  lemma AppendDescending(a: seq<Row>, b: seq<Row>)
    requires Descending(a) && Descending(b) && a != [] && forall x <- b :: Newer(Last(a), x)
    ensures Descending(a + b)
  {
    forall i, j | 0 <= i < j < |a + b|
      ensures Newer((a + b)[i], (a + b)[j])
    {
      if i < |a| <= j {
        assert (a + b)[j] in b;
        assert i == |a| - 1 || Newer(a[i], Last(a));
      }
    }
  }

  lemma {:induction false} TraversalSweeps(tables: seq<seq<Row>>, portfolio: nat, limit: nat, pages: seq<Page>)
    requires Traversal(tables, portfolio, limit, pages)
    ensures Swept(tables[0], Last(tables), portfolio, pages)
  {
    if |pages| == 1 {
      FirstPage(Last(tables), portfolio, limit);
      assert pages == [Last(pages)];
    } else {
      TraversalSweeps(DropLast(tables), portfolio, limit, DropLast(pages));
      EvolvesThroughout(DropLast(tables), portfolio, limit, DropLast(pages));
      NextPage(tables[0], Last(DropLast(tables)), Last(tables), portfolio, limit, DropLast(pages));
      assert pages == DropLast(pages) + [Last(pages)];
    }
  }

  lemma LastPageIsLive(tables: seq<seq<Row>>, portfolio: nat, limit: nat, pages: seq<Page>, x: Row)
    requires Traversal(tables, portfolio, limit, pages) && x in Last(pages).items
    ensures x in Last(tables) && x.portfolio == portfolio && !x.deleted
  {
    var cursor := if |pages| == 1 then 0 else Last(DropLast(pages)).nextCursor.value;
    PageIsPrefix(Last(tables), portfolio, cursor, limit);
    assert Due(Last(tables), portfolio, cursor, x);
  }

  /** Whatever a page of a traversal lists was a live row of the portfolio when that page was fetched. */
  lemma {:induction false} PagesAreLive(tables: seq<seq<Row>>, portfolio: nat, limit: nat, pages: seq<Page>, k: nat, x: Row)
    requires Traversal(tables, portfolio, limit, pages) && k < |pages| && x in pages[k].items
    ensures k < |tables| && x in tables[k] && x.portfolio == portfolio && !x.deleted
  {
    if k == |pages| - 1 {
      LastPageIsLive(tables, portfolio, limit, pages, x);
    } else {
      PagesAreLive(DropLast(tables), portfolio, limit, DropLast(pages), k, x);
    }
  }

  lemma ItemsAreInOrder(tables: seq<seq<Row>>, portfolio: nat, limit: nat, pages: seq<Page>)
    requires Traversal(tables, portfolio, limit, pages) && Descending(Items(pages))
    ensures LatestFirst(Items(pages)) && forall i, j | 0 <= i < j < |Items(pages)| :: Items(pages)[i].id != Items(pages)[j].id
  {
    var items := Items(pages);
    forall i, j | 0 <= i < j < |items|
      ensures Newer(items[i], items[j]) && items[i].id != items[j].id
    {
      if items[i].id == items[j].id {
        SameIdSameTime(tables, portfolio, limit, pages, i, j);
      }
    }
  }

  /** Whatever is created, edited or soft-deleted between pages, the cursor row included: items come in
    * strictly descending order, so no transaction is returned twice; and once there is no next cursor,
    * every transaction live from the first page to the last has been returned. */
  lemma EveryTransactionOnce(tables: seq<seq<Row>>, portfolio: nat, limit: nat, pages: seq<Page>)
    requires Traversal(tables, portfolio, limit, pages)
    ensures LatestFirst(Items(pages)) && forall i, j | 0 <= i < j < |Items(pages)| :: Items(pages)[i].id != Items(pages)[j].id
    ensures Last(pages).nextCursor.None? ==>
              forall i | 0 <= i < |tables[0]| ::
                i < |Last(tables)| &&
                (tables[0][i].portfolio == portfolio && !Last(tables)[i].deleted ==>
                   !tables[0][i].deleted && Returned(Items(pages), tables[0][i]))
  {
    TraversalSweeps(tables, portfolio, limit, pages);
    EvolvesThroughout(tables, portfolio, limit, pages);
    ItemsAreInOrder(tables, portfolio, limit, pages);
    var items := Items(pages);
    if Last(pages).nextCursor.None? {
      forall i | 0 <= i < |tables[0]| && tables[0][i].portfolio == portfolio && !Last(tables)[i].deleted
        ensures Returned(items, tables[0][i])
      {
        assert Returned(items, Last(tables)[i]);
        var k :| 0 <= k < |items| && SameKey(items[k], Last(tables)[i]);
        assert SameKey(items[k], tables[0][i]);
      }
    }
  }

  ghost predicate Recorded(rows: seq<Row>, portfolio: nat, r: Row) {
    exists c :: 0 <= c < |rows| && SameKey(rows[c], r) && rows[c].portfolio == portfolio
  }

  lemma RecordedStays(before: seq<Row>, now: seq<Row>, portfolio: nat, r: Row)
    requires Evolves(before, now) && Recorded(before, portfolio, r)
    ensures Recorded(now, portfolio, r)
  {
    var c :| 0 <= c < |before| && SameKey(before[c], r) && before[c].portfolio == portfolio;
    assert SameKey(now[c], r) && now[c].portfolio == portfolio;
  }

  lemma PageIsRecorded(rows: seq<Row>, portfolio: nat, cursor: nat, limit: nat, r: Row)
    requires UniqueIds(rows) && limit >= 1 && r in ListPage(rows, portfolio, cursor, limit).items
    ensures Recorded(rows, portfolio, r)
  {
    PageHoldsMatches(rows, portfolio, cursor, limit);
    var c :| 0 <= c < |rows| && rows[c] == r;
  }

  lemma {:induction false} ItemsAreRecorded(tables: seq<seq<Row>>, portfolio: nat, limit: nat, pages: seq<Page>, i: nat)
    requires Traversal(tables, portfolio, limit, pages) && i < |Items(pages)|
    ensures Recorded(Last(tables), portfolio, Items(pages)[i])
  {
    var before, last := Items(DropLast(pages)), Last(pages);
    assert Items(pages) == before + last.items;
    if i < |before| {
      ItemsAreRecorded(DropLast(tables), portfolio, limit, DropLast(pages), i);
      RecordedStays(Last(DropLast(tables)), Last(tables), portfolio, before[i]);
    } else {
      assert last.items[i - |before|] in last.items;
      var cursor := if |pages| == 1 then 0 else Last(DropLast(pages)).nextCursor.value;
      PageIsRecorded(Last(tables), portfolio, cursor, limit, Items(pages)[i]);
    }
  }

  /** An id has one trade time, so items in strictly descending order have different ids. */
  lemma SameIdSameTime(tables: seq<seq<Row>>, portfolio: nat, limit: nat, pages: seq<Page>, i: nat, j: nat)
    requires Traversal(tables, portfolio, limit, pages) && i < j < |Items(pages)|
    requires Items(pages)[i].id == Items(pages)[j].id
    ensures Items(pages)[i].tradedAt == Items(pages)[j].tradedAt
  {
    var r, s := Items(pages)[i], Items(pages)[j];
    ItemsAreRecorded(tables, portfolio, limit, pages, i);
    ItemsAreRecorded(tables, portfolio, limit, pages, j);
    RecordedOnce(Last(tables), portfolio, r, s);
  }

  lemma RecordedOnce(rows: seq<Row>, portfolio: nat, r: Row, s: Row)
    requires UniqueIds(rows) && Recorded(rows, portfolio, r) && Recorded(rows, portfolio, s) && r.id == s.id
    ensures r.tradedAt == s.tradedAt
  {
    var c :| 0 <= c < |rows| && SameKey(rows[c], r) && rows[c].portfolio == portfolio;
    var d :| 0 <= d < |rows| && SameKey(rows[d], s) && rows[d].portfolio == portfolio;
  }
}
