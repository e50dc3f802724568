/**
  The two listings of `src/modules/user/user.service.ts`. An id stands for a UUID by its place in the database's
  order; a table is a set of rows of which the soft-deleted ones are not listed.
 */
module Pagination {
  import opened Options
  import opened Ordering

  datatype Row = Row(id: int, email: string, name: string, deleted: bool)

  ghost predicate PrimaryKey(rows: set<Row>) {
    forall a, b | a in rows && b in rows && a.id == b.id :: a == b
  }

  /** No two rows of a table share an id. */
  type Table = rows: set<Row> | PrimaryKey(rows) witness {}

  datatype Direction = Asc | Desc

  /** `LIKE` on the two searched columns. */
  datatype Search = Search(name: Row -> bool, email: Row -> bool)

  /** The place of an id in the requested direction; no direction means ascending. */
  function Place(dir: Option<Direction>, id: int): int {
    if dir == Some(Desc) then -id else id
  }

  function ByPlace(dir: Option<Direction>): Row -> int {
    (r: Row) => Place(dir, r.id)
  }

  // ---------- Cursor listing ----------

  datatype CursorPage = CursorPage(items: seq<Row>, hasMore: bool, nextCursor: Option<int>, prevCursor: Option<int>)

  predicate After(dir: Option<Direction>, cursor: Option<int>, r: Row) {
    cursor.Some? ==> Place(dir, cursor.value) < Place(dir, r.id)
  }

  /** The condition as the query holds it: `AND` binds tighter than the search's `OR`. */
  predicate Matches(dir: Option<Direction>, cursor: Option<int>, search: Option<Search>, r: Row) {
    if search.None? then After(dir, cursor, r)
    else (After(dir, cursor, r) && search.value.name(r)) || search.value.email(r)
  }

  ghost function Selected(table: Table, dir: Option<Direction>, cursor: Option<int>, search: Option<Search>): set<Row> {
    set r | r in table && !r.deleted && Matches(dir, cursor, search, r)
  }

  ghost function FindCursor(table: Table, cursor: Option<int>, limit: nat, dir: Option<Direction>,
                            search: Option<Search>): CursorPage
    requires limit >= 1
  {
    var rows := SortBy(Selected(table, dir, cursor, search), ByPlace(dir));
    var data := rows[..if |rows| < limit then |rows| else limit];
    CursorPage(data, |data| == limit, if |data| == limit then Some(data[|data| - 1].id) else None, cursor)
  }

  /** A client following `nextCursor`, the i-th request finding the table as `tables[i]`. */
  ghost function CursorWalk(tables: seq<Table>, cursor: Option<int>, limit: nat, dir: Option<Direction>)
    : seq<CursorPage>
    requires limit >= 1
    decreases tables
  {
    if tables == [] then []
    else
      var page := FindCursor(tables[0], cursor, limit, dir, None);
      if page.nextCursor.None? then [page] else [page] + CursorWalk(tables[1..], page.nextCursor, limit, dir)
  }

  predicate Completed(pages: seq<CursorPage>) {
    pages != [] && pages[|pages| - 1].nextCursor.None?
  }

  function Listed(pages: seq<CursorPage>): seq<Row> {
    if pages == [] then [] else pages[0].items + Listed(pages[1..])
  }

  predicate HasLive(table: Table, id: int) {
    exists r | r in table :: r.id == id && !r.deleted
  }

  ghost function Beyond(table: Table, dir: Option<Direction>, cursor: Option<int>): set<Row> {
    Selected(table, dir, cursor, None)
  }

  /**
    A page is the first rows, in order, of those beyond its cursor; it says that there are more, and offers a next
    page, exactly if it is full; and it gives its cursor back.
   */
  lemma PageIsPrefix(table: Table, cursor: Option<int>, limit: nat, dir: Option<Direction>)
    requires limit >= 1
    ensures var page := FindCursor(table, cursor, limit, dir, None);
            && Increasing(page.items, ByPlace(dir)) && |page.items| <= limit
            && (page.nextCursor.None? <==> |page.items| < limit)
            && (page.nextCursor.Some? ==> page.nextCursor == Some(page.items[limit - 1].id))
            && Elements(page.items) <= Beyond(table, dir, cursor)
            && (page.hasMore <==> |Beyond(table, dir, cursor)| >= limit) && (page.hasMore <==> page.nextCursor.Some?)
            && page.prevCursor == cursor
  {
    var rows := SortBy(Beyond(table, dir, cursor), ByPlace(dir));
    IncreasingSize(rows, ByPlace(dir));
    FirstKeepOrder(rows, if |rows| < limit then |rows| else limit, ByPlace(dir));
  }

  /** What a page leaves out comes after it. */
  lemma PageSkipsNothing(table: Table, cursor: Option<int>, limit: nat, dir: Option<Direction>)
    requires limit >= 1
    ensures var page := FindCursor(table, cursor, limit, dir, None);
            forall r | r in Beyond(table, dir, cursor) ::
              r in Elements(page.items) || (page.nextCursor.Some? && After(dir, page.nextCursor, r))
  {
    var rows := SortBy(Beyond(table, dir, cursor), ByPlace(dir));
    var page := FindCursor(table, cursor, limit, dir, None);
    forall r | r in Beyond(table, dir, cursor)
      ensures r in Elements(page.items) || (page.nextCursor.Some? && After(dir, page.nextCursor, r))
    {
      assert r in Elements(rows);
      var i :| 0 <= i < |rows| && rows[i] == r;
      if i < |page.items| {
        assert page.items[i] == r;
      } else {
        assert ByPlace(dir)(rows[limit - 1]) < ByPlace(dir)(rows[i]);
      }
    }
  }

  ghost predicate AllAfter(dir: Option<Direction>, cursor: Option<int>, rows: seq<Row>) {
    forall r | r in rows :: After(dir, cursor, r)
  }

  lemma IncreasingJoins(s: seq<Row>, t: seq<Row>, dir: Option<Direction>)
    requires Increasing(s, ByPlace(dir)) && Increasing(t, ByPlace(dir))
    requires s != [] && AllAfter(dir, Some(s[|s| - 1].id), t)
    ensures Increasing(s + t, ByPlace(dir))
  {
    var rank := ByPlace(dir);
    forall i, j | 0 <= i < j < |s + t| ensures rank((s + t)[i]) < rank((s + t)[j]) {
      if i < |s| <= j {
        assert t[j - |s|] in t;
        assert i == |s| - 1 || rank(s[i]) < rank(s[|s| - 1]);
      }
    }
  }

  /** Rows after a page's next cursor are after the page's own cursor. */
  lemma NextIsFurther(table: Table, cursor: Option<int>, limit: nat, dir: Option<Direction>, rows: seq<Row>)
    requires limit >= 1
    ensures var page := FindCursor(table, cursor, limit, dir, None);
            && AllAfter(dir, cursor, page.items)
            && (page.nextCursor.Some? && AllAfter(dir, page.nextCursor, rows) ==>
                  AllAfter(dir, cursor, page.items + rows))
  {
    var page := FindCursor(table, cursor, limit, dir, None);
    PageIsPrefix(table, cursor, limit, dir);
    forall r | r in page.items ensures After(dir, cursor, r) {
      assert r in Elements(page.items);
    }
    if page.nextCursor.Some? {
      assert page.items[limit - 1] in page.items;
    }
  }

  /** The first request of a walk and the walk from its next cursor. */
  lemma WalkUnfolds(tables: seq<Table>, cursor: Option<int>, limit: nat, dir: Option<Direction>)
    requires limit >= 1 && tables != []
    ensures var page, pages := FindCursor(tables[0], cursor, limit, dir, None), CursorWalk(tables, cursor, limit, dir);
            if page.nextCursor.None? then pages == [page] && Listed(pages) == page.items
            else
              var rest := CursorWalk(tables[1..], page.nextCursor, limit, dir);
              && pages == [page] + rest && |pages| == 1 + |rest| && Listed(pages) == page.items + Listed(rest)
              && (Completed(pages) <==> Completed(rest))
  {
    var page, pages := FindCursor(tables[0], cursor, limit, dir, None), CursorWalk(tables, cursor, limit, dir);
    if page.nextCursor.None? {
      assert Listed(pages[1..]) == [];
    } else {
      assert pages[1..] == CursorWalk(tables[1..], page.nextCursor, limit, dir);
    }
  }

  lemma {:induction false} WalkIsAfterCursor(tables: seq<Table>, cursor: Option<int>, limit: nat,
                                             dir: Option<Direction>)
    requires limit >= 1
    ensures AllAfter(dir, cursor, Listed(CursorWalk(tables, cursor, limit, dir)))
    decreases tables
  {
    if tables != [] {
      var page := FindCursor(tables[0], cursor, limit, dir, None);
      WalkUnfolds(tables, cursor, limit, dir);
      if page.nextCursor.None? {
        NextIsFurther(tables[0], cursor, limit, dir, []);
      } else {
        WalkIsAfterCursor(tables[1..], page.nextCursor, limit, dir);
        NextIsFurther(tables[0], cursor, limit, dir, Listed(CursorWalk(tables[1..], page.nextCursor, limit, dir)));
      }
    }
  }

  lemma {:induction false} WalkIsIncreasing(tables: seq<Table>, cursor: Option<int>, limit: nat, dir: Option<Direction>)
    requires limit >= 1
    ensures Increasing(Listed(CursorWalk(tables, cursor, limit, dir)), ByPlace(dir))
    decreases tables
  {
    if tables != [] {
      var page := FindCursor(tables[0], cursor, limit, dir, None);
      PageIsPrefix(tables[0], cursor, limit, dir);
      WalkUnfolds(tables, cursor, limit, dir);
      if page.nextCursor.Some? {
        WalkIsIncreasing(tables[1..], page.nextCursor, limit, dir);
        WalkIsAfterCursor(tables[1..], page.nextCursor, limit, dir);
        IncreasingJoins(page.items, Listed(CursorWalk(tables[1..], page.nextCursor, limit, dir)), dir);
      }
    }
  }

  /** Every listed row was live in the table its request found. */
  ghost predicate Faithful(tables: seq<Table>, pages: seq<CursorPage>) {
    |pages| <= |tables| && forall i | 0 <= i < |pages| :: Elements(pages[i].items) <= Beyond(tables[i], None, None)
  }

  lemma {:induction false} WalkIsFaithful(tables: seq<Table>, cursor: Option<int>, limit: nat, dir: Option<Direction>)
    requires limit >= 1
    ensures Faithful(tables, CursorWalk(tables, cursor, limit, dir))
    decreases tables
  {
    if tables != [] {
      PageIsPrefix(tables[0], cursor, limit, dir);
      var page := FindCursor(tables[0], cursor, limit, dir, None);
      if page.nextCursor.Some? {
        WalkIsFaithful(tables[1..], page.nextCursor, limit, dir);
      }
    }
  }

  ghost predicate LiveThroughout(tables: seq<Table>, n: nat, id: int)
    requires n <= |tables|
  {
    forall i | 0 <= i < n :: HasLive(tables[i], id)
  }

  predicate Lists(rows: seq<Row>, id: int) {
    exists r | r in rows :: r.id == id
  }

  lemma {:induction false} WalkIsComplete(tables: seq<Table>, cursor: Option<int>, limit: nat, dir: Option<Direction>,
                                          id: int)
    requires limit >= 1
    requires var pages := CursorWalk(tables, cursor, limit, dir);
             Completed(pages) && |pages| <= |tables| && LiveThroughout(tables, |pages|, id)
    requires cursor.Some? ==> Place(dir, cursor.value) < Place(dir, id)
    ensures Lists(Listed(CursorWalk(tables, cursor, limit, dir)), id)
    decreases tables
  {
    var page := FindCursor(tables[0], cursor, limit, dir, None);
    var pages := CursorWalk(tables, cursor, limit, dir);
    PageSkipsNothing(tables[0], cursor, limit, dir);
    WalkUnfolds(tables, cursor, limit, dir);
    assert HasLive(tables[0], id);
    var r :| r in tables[0] && r.id == id && !r.deleted;
    assert r in Beyond(tables[0], dir, cursor);
    if r in Elements(page.items) {
      assert r in Listed(pages);
    } else {
      var rest := CursorWalk(tables[1..], page.nextCursor, limit, dir);
      forall i | 0 <= i < |rest| ensures HasLive(tables[1..][i], id) {
        assert HasLive(tables[i + 1], id);
      }
      WalkIsComplete(tables[1..], page.nextCursor, limit, dir, id);
      var found :| found in Listed(rest) && found.id == id;
      assert found in Listed(pages);
    }
  }

  /**
    Whatever inserts, updates, deletions and restores happen between requests: the rows listed come strictly in
    the requested direction, so no id comes twice; each was live in the table of its request; and a walk that ends
    has listed every id that was live at all its requests.
   */
  lemma WalkOfChangingTable(tables: seq<Table>, limit: nat, dir: Option<Direction>)
    requires limit >= 1
    ensures var pages := CursorWalk(tables, None, limit, dir);
            && (forall i, j | 0 <= i < j < |Listed(pages)| ::
                  if dir == Some(Desc) then Listed(pages)[i].id > Listed(pages)[j].id
                  else Listed(pages)[i].id < Listed(pages)[j].id)
            && Faithful(tables, pages)
            && (Completed(pages) ==> forall id | LiveThroughout(tables, |pages|, id) :: Lists(Listed(pages), id))
  {
    var pages := CursorWalk(tables, None, limit, dir);
    WalkIsIncreasing(tables, None, limit, dir);
    WalkIsFaithful(tables, None, limit, dir);
    forall i, j | 0 <= i < j < |Listed(pages)|
      ensures if dir == Some(Desc) then Listed(pages)[i].id > Listed(pages)[j].id
              else Listed(pages)[i].id < Listed(pages)[j].id
    {
      assert ByPlace(dir)(Listed(pages)[i]) < ByPlace(dir)(Listed(pages)[j]);
    }
    forall id | Completed(pages) && LiveThroughout(tables, |pages|, id) ensures Lists(Listed(pages), id) {
      WalkIsComplete(tables, None, limit, dir, id);
    }
  }

  // ---------- A table that stays as it is ----------

  /** Nothing on a full page comes after its own next cursor. */
  lemma FullPageEndsAtCursor(table: Table, cursor: Option<int>, limit: nat, dir: Option<Direction>, r: Row)
    requires limit >= 1
    requires var page := FindCursor(table, cursor, limit, dir, None);
             page.nextCursor.Some? && r in Elements(page.items)
    ensures !After(dir, FindCursor(table, cursor, limit, dir, None).nextCursor, r)
  {
    var page := FindCursor(table, cursor, limit, dir, None);
    PageIsPrefix(table, cursor, limit, dir);
    var i :| 0 <= i < limit && page.items[i] == r;
    assert i < limit - 1 ==> ByPlace(dir)(page.items[i]) < ByPlace(dir)(page.items[limit - 1]);
  }

  /** A full page takes its rows from those beyond its cursor and leaves the others beyond the next one. */
  lemma FullPageLeavesRest(table: Table, cursor: Option<int>, limit: nat, dir: Option<Direction>)
    requires limit >= 1 && FindCursor(table, cursor, limit, dir, None).nextCursor.Some?
    ensures var page, rows := FindCursor(table, cursor, limit, dir, None), Beyond(table, dir, cursor);
            && Beyond(table, dir, page.nextCursor) == rows - Elements(page.items)
            && Elements(page.items) <= rows && |rows - Elements(page.items)| == |rows| - limit
  {
    var page, rows := FindCursor(table, cursor, limit, dir, None), Beyond(table, dir, cursor);
    PageIsPrefix(table, cursor, limit, dir);
    PageSkipsNothing(table, cursor, limit, dir);
    IncreasingSize(page.items, ByPlace(dir));
    var last := page.items[limit - 1];
    assert last in Elements(page.items);
    forall r ensures r in Beyond(table, dir, page.nextCursor) <==> r in rows - Elements(page.items) {
      if r in Elements(page.items) {
        FullPageEndsAtCursor(table, cursor, limit, dir, r);
      } else if After(dir, page.nextCursor, r) {
        assert After(dir, cursor, last);
      }
    }
  }

  /** A page that says there are more is wrong exactly if its rows were the last: then the next page is empty. */
  lemma NextPageIsEmptyExactly(table: Table, cursor: Option<int>, limit: nat, dir: Option<Direction>)
    requires limit >= 1 && FindCursor(table, cursor, limit, dir, None).hasMore
    ensures var next := FindCursor(table, FindCursor(table, cursor, limit, dir, None).nextCursor, limit, dir, None);
            next.items == [] <==> |Beyond(table, dir, cursor)| == limit
  {
    var page, rows := FindCursor(table, cursor, limit, dir, None), Beyond(table, dir, cursor);
    PageIsPrefix(table, cursor, limit, dir);
    FullPageLeavesRest(table, cursor, limit, dir);
    IncreasingSize(page.items, ByPlace(dir));
    var rest := SortBy(Beyond(table, dir, page.nextCursor), ByPlace(dir));
    IncreasingSize(rest, ByPlace(dir));
    assert |rows - Elements(page.items)| == |rows| - |Elements(page.items)|;
  }

  lemma ShortPageIsAll(table: Table, cursor: Option<int>, limit: nat, dir: Option<Direction>)
    requires limit >= 1 && FindCursor(table, cursor, limit, dir, None).nextCursor.None?
    ensures var page, rows := FindCursor(table, cursor, limit, dir, None), Beyond(table, dir, cursor);
            page.items == SortBy(rows, ByPlace(dir)) && |rows| < limit
  {
    var page, rows := FindCursor(table, cursor, limit, dir, None), Beyond(table, dir, cursor);
    PageIsPrefix(table, cursor, limit, dir);
    PageSkipsNothing(table, cursor, limit, dir);
    assert Elements(page.items) == rows;
    IncreasingSize(page.items, ByPlace(dir));
    OneOrder(page.items, SortBy(rows, ByPlace(dir)), ByPlace(dir));
  }

  /** A client following `nextCursor` through a table that stays as it is; each request leaves fewer rows to list. */
  ghost function StillWalk(table: Table, cursor: Option<int>, limit: nat, dir: Option<Direction>): seq<CursorPage>
    requires limit >= 1
    decreases |Beyond(table, dir, cursor)|
  {
    var page := FindCursor(table, cursor, limit, dir, None);
    if page.nextCursor.None? then [page]
    else
      FullPageLeavesRest(table, cursor, limit, dir);
      [page] + StillWalk(table, page.nextCursor, limit, dir)
  }

  function Requests(rows: nat, limit: nat): nat
    requires limit >= 1
  {
    if rows < limit then 1 else 1 + Requests(rows - limit, limit)
  }

  lemma {:induction false} RequestsAre(rows: nat, limit: nat, full: nat)
    requires limit >= 1 && full * limit <= rows < full * limit + limit
    ensures Requests(rows, limit) == full + 1
  {
    FullPages(full, limit, rows);
    if full > 0 {
      RequestsAre(rows - limit, limit, full - 1);
    }
  }

  lemma {:induction false} StillWalkLength(table: Table, cursor: Option<int>, limit: nat, dir: Option<Direction>)
    requires limit >= 1
    ensures |StillWalk(table, cursor, limit, dir)| == Requests(|Beyond(table, dir, cursor)|, limit)
    decreases |Beyond(table, dir, cursor)|
  {
    var page := FindCursor(table, cursor, limit, dir, None);
    if page.nextCursor.None? {
      ShortPageIsAll(table, cursor, limit, dir);
    } else {
      FullPageLeavesRest(table, cursor, limit, dir);
      StillWalkLength(table, page.nextCursor, limit, dir);
    }
  }

  lemma StillUnfolds(table: Table, cursor: Option<int>, limit: nat, dir: Option<Direction>)
    requires limit >= 1
    ensures var page, pages := FindCursor(table, cursor, limit, dir, None), StillWalk(table, cursor, limit, dir);
            if page.nextCursor.None? then Completed(pages) && Listed(pages) == page.items
            else
              var rest := StillWalk(table, page.nextCursor, limit, dir);
              (Completed(rest) ==> Completed(pages)) && Listed(pages) == page.items + Listed(rest)
  {
    var page, pages := FindCursor(table, cursor, limit, dir, None), StillWalk(table, cursor, limit, dir);
    if page.nextCursor.None? {
      assert Listed(pages[1..]) == [];
    } else {
      assert pages[1..] == StillWalk(table, page.nextCursor, limit, dir);
    }
  }

  lemma {:induction false} StillWalkLists(table: Table, cursor: Option<int>, limit: nat, dir: Option<Direction>)
    requires limit >= 1
    ensures Completed(StillWalk(table, cursor, limit, dir))
    ensures Listed(StillWalk(table, cursor, limit, dir)) == SortBy(Beyond(table, dir, cursor), ByPlace(dir))
    decreases |Beyond(table, dir, cursor)|
  {
    var page := FindCursor(table, cursor, limit, dir, None);
    StillUnfolds(table, cursor, limit, dir);
    if page.nextCursor.None? {
      ShortPageIsAll(table, cursor, limit, dir);
    } else {
      FullPageLeavesRest(table, cursor, limit, dir);
      StillWalkLists(table, page.nextCursor, limit, dir);
      RestFollowsFullPage(table, cursor, limit, dir);
    }
  }

  lemma RestFollowsFullPage(table: Table, cursor: Option<int>, limit: nat, dir: Option<Direction>)
    requires limit >= 1 && FindCursor(table, cursor, limit, dir, None).nextCursor.Some?
    ensures var page := FindCursor(table, cursor, limit, dir, None);
            page.items + SortBy(Beyond(table, dir, page.nextCursor), ByPlace(dir))
              == SortBy(Beyond(table, dir, cursor), ByPlace(dir))
  {
    var page := FindCursor(table, cursor, limit, dir, None);
    FullPageLeavesRest(table, cursor, limit, dir);
    PageIsPrefix(table, cursor, limit, dir);
    RestFollowsPage(page.items, Beyond(table, dir, page.nextCursor), Beyond(table, dir, cursor), dir);
  }

  /** Rows in order after the last of other rows in order make one ordered list of them all. */
  lemma RestFollowsPage(items: seq<Row>, rest: set<Row>, rows: set<Row>, dir: Option<Direction>)
    requires NoTies(rows, ByPlace(dir)) && Increasing(items, ByPlace(dir)) && items != []
    requires Elements(items) <= rows && rest == rows - Elements(items)
    requires forall r | r in rest :: After(dir, Some(items[|items| - 1].id), r)
    ensures items + SortBy(rest, ByPlace(dir)) == SortBy(rows, ByPlace(dir))
  {
    var tail := SortBy(rest, ByPlace(dir));
    forall r | r in tail ensures r in rest {
      assert r in Elements(tail);
    }
    IncreasingJoins(items, tail, dir);
    assert Elements(items + tail) == Elements(items) + Elements(tail);
    OneOrder(items + tail, SortBy(rows, ByPlace(dir)), ByPlace(dir));
  }

  lemma FullPages(full: nat, limit: nat, count: nat)
    requires full * limit <= count < full * limit + limit
    ensures count < limit <==> full == 0
    ensures full > 0 ==> (full - 1) * limit <= count - limit < (full - 1) * limit + limit
  {
    if full > 0 {
      MulKeepsOrder(1, full, limit);
      assert (full - 1) * limit == full * limit - limit;
    }
  }

  /** A walk of a still table ends after floor(rows / limit) + 1 requests and lists exactly its live rows, in order. */
  lemma CursorWalkListsTable(table: Table, limit: nat, dir: Option<Direction>)
    requires limit >= 1
    ensures var pages, live := StillWalk(table, None, limit, dir), set r | r in table && !r.deleted;
            && Completed(pages) && |pages| == |live| / limit + 1 && Listed(pages) == SortBy(live, ByPlace(dir))
  {
    var count := |Beyond(table, dir, None)|;
    assert (count / limit) * limit <= count < (count / limit) * limit + limit;
    StillWalkLength(table, None, limit, dir);
    RequestsAre(count, limit, count / limit);
    StillWalkLists(table, None, limit, dir);
    assert Beyond(table, dir, None) == set r | r in table && !r.deleted;
  }

  // ---------- Search in the cursor listing ----------

  /**
    With a search text, a request answers as if the search were applied to the rows after its cursor exactly if no
    live row at or before the cursor matches by e-mail: such a row is selected whatever the cursor.
   */
  lemma SearchRespectsCursorExactly(table: Table, dir: Option<Direction>, cursor: Option<int>, search: Search)
    ensures Selected(table, dir, cursor, Some(search))
              == (set r | r in table && !r.deleted && After(dir, cursor, r) && (search.name(r) || search.email(r)))
            <==> forall r | r in table && !r.deleted && search.email(r) :: After(dir, cursor, r)
  {
    var wanted := set r | r in table && !r.deleted && After(dir, cursor, r) && (search.name(r) || search.email(r));
    forall r | r in table && !r.deleted && search.email(r) ensures r in Selected(table, dir, cursor, Some(search)) {
    }
  }

  /** So a search by e-mail can offer its own page as the next one for ever. */
  lemma SearchCanRepeat(r: Row, dir: Option<Direction>)
    requires !r.deleted
    ensures var search := Search((x: Row) => false, (x: Row) => x.email == r.email);
            var page := FindCursor({r}, Some(r.id), 1, dir, Some(search));
            page.items == [r] && page.nextCursor == Some(r.id)
  {
    var search := Search((x: Row) => false, (x: Row) => x.email == r.email);
    var rows := SortBy(Selected({r}, dir, Some(r.id), Some(search)), ByPlace(dir));
    assert Selected({r}, dir, Some(r.id), Some(search)) == {r};
    OneOrder(rows, [r], ByPlace(dir));
  }

  // ---------- Offset listing ----------

  datatype OffsetPage = OffsetPage(items: seq<Row>, page: nat, limit: nat, total: nat, totalPages: nat,
                                   nextPage: Option<nat>, prevPage: Option<nat>)

  ghost function Filtered(table: Table, filter: Row -> bool): set<Row> {
    set r | r in table && !r.deleted && filter(r)
  }

  function Least(a: int, b: int): int {
    if a < b then a else b
  }

  function CeilDiv(a: nat, b: nat): nat
    requires b >= 1
  {
    (a + b - 1) / b
  }

  /** What the query ranges over: the rows that pass the filter, ordered by the requested column and direction. */
  ghost function Ordered(table: Table, filter: Row -> bool, rank: Row -> int): seq<Row>
    requires NoTies(Filtered(table, filter), rank)
  {
    SortBy(Filtered(table, filter), rank)
  }

  /** `skip`, `take` and the count over the query's rows; the DTO demands page and limit from 1. */
  function FindAll(rows: seq<Row>, page: nat, limit: nat): OffsetPage
    requires page >= 1 && limit >= 1
  {
    var lo := Least(limit * (page - 1), |rows|);
    OffsetPage(rows[lo..Least(lo + limit, |rows|)], page, limit, |rows|, CeilDiv(|rows|, limit),
               if page * limit < |rows| then Some(page + 1) else None, if page > 1 then Some(page - 1) else None)
  }

  /** A client following `nextPage`. */
  function OffsetWalk(rows: seq<Row>, page: nat, limit: nat): seq<OffsetPage>
    requires page >= 1 && limit >= 1
    decreases |rows| - page * limit
  {
    var found := FindAll(rows, page, limit);
    if found.nextPage.None? then [found] else [found] + OffsetWalk(rows, page + 1, limit)
  }

  function Concatenated(pages: seq<OffsetPage>): seq<Row> {
    if pages == [] then [] else pages[0].items + Concatenated(pages[1..])
  }

  /** What is multiplied by the page size keeps its order. */
  lemma PagesBefore(page: nat, limit: nat, total: nat)
    requires limit >= 1
    ensures page * limit < total <==> page < CeilDiv(total, limit)
  {
    var q := CeilDiv(total, limit);
    assert q * limit <= total + limit - 1 < (q + 1) * limit;
    assert (q - 1) * limit == q * limit - limit;
    if page < q {
      MulKeepsOrder(page, q - 1, limit);
    } else {
      MulKeepsOrder(q, page, limit);
    }
  }

  lemma MulKeepsOrder(a: nat, b: nat, limit: nat)
    requires a <= b
    ensures a * limit <= b * limit
  {
  }

  /** There is a next page exactly before the last, and going on from a page within range and back returns to it. */
  lemma NextAndPrevious(rows: seq<Row>, page: nat, limit: nat)
    requires page >= 1 && limit >= 1
    ensures var found := FindAll(rows, page, limit);
            && (found.nextPage == if page < found.totalPages then Some(page + 1) else None)
            && (found.nextPage.Some? ==> FindAll(rows, found.nextPage.value, limit).prevPage == Some(page))
            && (found.prevPage.Some? && page <= found.totalPages ==>
                  FindAll(rows, found.prevPage.value, limit).nextPage == Some(page))
  {
    PagesBefore(page, limit, |rows|);
    if page > 1 {
      PagesBefore(page - 1, limit, |rows|);
    }
  }

  lemma Skips(page: nat, limit: nat)
    requires page >= 1
    ensures limit * (page + 1 - 1) == page * limit == limit * (page - 1) + limit
  {
  }

  /**
    What a page says of itself and of the whole: the request's page and limit, the number of rows that pass the filter,
    the least number of pages that hold them, and the neighbours that exist. Its rows are those at its places.
   */
  lemma PageSaysWhere(table: Table, filter: Row -> bool, rank: Row -> int, page: nat, limit: nat)
    requires NoTies(Filtered(table, filter), rank) && page >= 1 && limit >= 1
    ensures var rows, total := Ordered(table, filter, rank), |Filtered(table, filter)|;
            var found := FindAll(rows, page, limit);
            && found.page == page && found.limit == limit && found.total == total
            && (forall pages: nat :: total <= pages * limit <==> found.totalPages <= pages)
            && (found.nextPage == if page * limit < total then Some(page + 1) else None)
            && (found.prevPage == if page > 1 then Some(page - 1) else None)
            && |rows| == total
            && (var left := total - limit * (page - 1);
                |found.items| == if left <= 0 then 0 else if left < limit then left else limit)
            && (forall k | 0 <= k < |found.items| :: found.items[k] == rows[limit * (page - 1) + k])
  {
    var rows := Ordered(table, filter, rank);
    IncreasingSize(rows, rank);
    forall pages: nat ensures |rows| <= pages * limit <==> CeilDiv(|rows|, limit) <= pages {
      PagesBefore(pages, limit, |rows|);
    }
  }

  /** A page that starts within the list at row `lo` holds the next `limit` rows, or all the rest. */
  lemma PageOfRows(rows: seq<Row>, page: nat, limit: nat, lo: nat)
    requires page >= 1 && limit >= 1 && lo == limit * (page - 1) && lo <= |rows|
    ensures var found := FindAll(rows, page, limit);
            if lo + limit < |rows| then found.items == rows[lo..lo + limit] && found.nextPage == Some(page + 1)
            else found.items == rows[lo..] && found.nextPage.None?
  {
    Skips(page, limit);
  }

  /** The walk from a page lists the rest, from that page's first row on. */
  lemma {:induction false} OffsetWalkFrom(rows: seq<Row>, page: nat, limit: nat, lo: nat)
    requires page >= 1 && limit >= 1 && lo == limit * (page - 1) && lo <= |rows|
    ensures Concatenated(OffsetWalk(rows, page, limit)) == rows[lo..]
    decreases |rows| - lo
  {
    var pages := OffsetWalk(rows, page, limit);
    PageOfRows(rows, page, limit, lo);
    if lo + limit < |rows| {
      Skips(page, limit);
      OffsetWalkFrom(rows, page + 1, limit, lo + limit);
      assert pages[1..] == OffsetWalk(rows, page + 1, limit);
      assert rows[lo..] == rows[lo..lo + limit] + rows[lo + limit..];
    } else {
      assert Concatenated(pages[1..]) == [];
    }
  }

  lemma {:induction false} OffsetWalkLength(rows: seq<Row>, page: nat, limit: nat)
    requires page >= 1 && limit >= 1
    ensures var total := CeilDiv(|rows|, limit);
            |OffsetWalk(rows, page, limit)| == if page < total then total - page + 1 else 1
    decreases |rows| - page * limit
  {
    PagesBefore(page, limit, |rows|);
    Skips(page + 1, limit);
    if page < CeilDiv(|rows|, limit) {
      OffsetWalkLength(rows, page + 1, limit);
    }
  }

  /** From page 1 the walk visits max(1, totalPages) pages, and together they are the whole list. */
  lemma OffsetWalkListsAll(table: Table, filter: Row -> bool, rank: Row -> int, limit: nat)
    requires NoTies(Filtered(table, filter), rank) && limit >= 1
    ensures var rows := Ordered(table, filter, rank);
            var pages := OffsetWalk(rows, 1, limit);
            && Concatenated(pages) == rows && Increasing(rows, rank)
            && (forall r :: r in rows <==> r in table && !r.deleted && filter(r))
            && |pages| == if CeilDiv(|rows|, limit) > 1 then CeilDiv(|rows|, limit) else 1
  {
    var rows := Ordered(table, filter, rank);
    OffsetWalkFrom(rows, 1, limit, 0);
    OffsetWalkLength(rows, 1, limit);
    assert forall r :: r in rows <==> r in Elements(rows);
  }

  /** Ordered by id and unfiltered, both listings walk through the same rows in the same order, whatever the limits. */
  lemma WalksAgree(table: Table, dir: Option<Direction>, cursorLimit: nat, pageLimit: nat)
    requires cursorLimit >= 1 && pageLimit >= 1
    ensures NoTies(Filtered(table, (r: Row) => true), ByPlace(dir))
    ensures Listed(StillWalk(table, None, cursorLimit, dir))
              == Concatenated(OffsetWalk(Ordered(table, (r: Row) => true, ByPlace(dir)), 1, pageLimit))
  {
    CursorWalkListsTable(table, cursorLimit, dir);
    OffsetWalkListsAll(table, (r: Row) => true, ByPlace(dir), pageLimit);
    assert Filtered(table, (r: Row) => true) == set r | r in table && !r.deleted;
  }
}
