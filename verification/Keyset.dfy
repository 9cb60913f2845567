/**
 Keyset pagination (app/helpers.ts) as a whole traversal of a table that changes between pages.
 The first page is sorted by the cursor column, as every paging caller asks.
 */
module Keyset {
  import opened Wrappers

  /** One listed row: its id and its cursor column, which may be null. */
  datatype Row = Row(id: int, value: Option<int>)

  datatype Direction = Before | After

  datatype Order = Asc | Desc

  /** The cursor options and the direction of the first page; `orderDir` may be any text. */
  datatype Config = Config(direction: Direction, orderDir: Option<string>, sortDir: Order)

  /** The filters a cursor travels in. */
  datatype Filters = Filters(value: Option<int>, id: Option<int>)

  datatype Cursor = NoCursor | Cursor(value: int, id: int)

  /** getListCursorState: both parts have to be there. */
  function CursorState(filters: Filters): Cursor {
    if filters.value.Some? && filters.id.Some? then Cursor(filters.value.value, filters.id.value) else NoCursor
  }

  /** getNextCursorFromRows then getCursorFiltersFromCursor. */
  function NextFilters(page: seq<Row>, limit: nat): Filters
    requires limit > 0
  {
    if |page| != limit then Filters(None, None) else Filters(page[limit - 1].value, Some(page[limit - 1].id))
  }

  /** toUpperCase, as far as it can give a letter of the two words: besides a-z only the long s does. */
  function UpperChar(c: char): char {
    if 'a' <= c <= 'z' then c - 'a' + 'A' else if c == '\U{17F}' then 'S' else c
  }

  function Upper(s: string): (r: string)
    ensures |r| == |s| && forall i :: 0 <= i < |s| ==> r[i] == UpperChar(s[i])
  {
    seq(|s|, i requires 0 <= i < |s| => UpperChar(s[i]))
  }

  function SanitizeSortDir(text: string, fallback: Order): Order {
    if Upper(text) == "ASC" then Asc else if Upper(text) == "DESC" then Desc else fallback
  }

  /** getCursorListOrder */
  function ListOrder(config: Config, cursor: Cursor): Order {
    if cursor.NoCursor? then config.sortDir
    else if config.orderDir == None || config.orderDir == Some("") then Desc
    else SanitizeSortDir(config.orderDir.value, config.sortDir)
  }

  // ---------------------------------------------------------------- the database's side

  predicate Compare(direction: Direction, a: int, b: int) {
    if direction.After? then a > b else a < b
  }

  /** The clause addCursorWhere appends; a comparison with null selects nothing. */
  predicate Selects(direction: Direction, cursor: Cursor, row: Row) {
    || cursor.NoCursor?
    || (row.value.Some? && (|| Compare(direction, row.value.value, cursor.value)
                            || (row.value.value == cursor.value && Compare(direction, row.id, cursor.id))))
  }

  /** Ascending order by value then id; null sorts above every value. */
  predicate Below(a: Row, b: Row) {
    if a.value == b.value then a.id < b.id
    else a.value.Some? && (b.value.None? || a.value.value < b.value.value)
  }

  predicate Comes(order: Order, a: Row, b: Row) {
    if order.Asc? then Below(a, b) else Below(b, a)
  }

  ghost predicate InOrder(order: Order, rows: seq<Row>) {
    forall i, j :: 0 <= i < j < |rows| ==> Comes(order, rows[i], rows[j])
  }

  /** `page` is what SELECT ... WHERE clause ORDER BY order LIMIT limit returns on this table. */
  ghost predicate IsPage(table: set<Row>, direction: Direction, cursor: Cursor, order: Order, limit: nat, page: seq<Row>) {
    && |page| <= limit && InOrder(order, page)
    && (forall i :: 0 <= i < |page| ==> page[i] in table && Selects(direction, cursor, page[i]))
    && (forall row :: row in table && Selects(direction, cursor, row) && row !in page ==>
          |page| == limit && forall i :: 0 <= i < |page| ==> Comes(order, page[i], row))
  }

  // ---------------------------------------------------------------- a traversal

  /** Before page i: no cursor for the first page, then the one made from the page before. */
  function CursorAt(pages: seq<seq<Row>>, limit: nat, i: nat): Cursor
    requires limit > 0 && i <= |pages|
  {
    if i == 0 then NoCursor else CursorState(NextFilters(pages[i - 1], limit))
  }

  /** Page i is read from tables[i]; the traversal goes on only after a full page. */
  ghost predicate Traversal(config: Config, limit: nat, tables: seq<set<Row>>, pages: seq<seq<Row>>) {
    && limit > 0 && |tables| == |pages| > 0
    && forall i :: 0 <= i < |pages| ==> PageAt(config, limit, tables, pages, i)
  }

  ghost predicate PageAt(config: Config, limit: nat, tables: seq<set<Row>>, pages: seq<seq<Row>>, i: nat)
    requires limit > 0 && |tables| == |pages| && i < |pages|
  {
    var cursor := CursorAt(pages, limit, i);
    && IsPage(tables[i], config.direction, cursor, ListOrder(config, cursor), limit, pages[i])
    && (i > 0 ==> |pages[i - 1]| == limit)
  }

  /** The last page was short, so there is no next cursor. */
  predicate Finished(limit: nat, pages: seq<seq<Row>>) {
    pages != [] && |pages[|pages| - 1]| < limit
  }

  function Listed(pages: seq<seq<Row>>): seq<Row> {
    if pages == [] then [] else Listed(pages[..|pages| - 1]) + pages[|pages| - 1]
  }

  function NaturalOrder(direction: Direction): Order {
    if direction.After? then Asc else Desc
  }

  /** Every page is sorted the way the cursor moves. */
  predicate Matching(config: Config) {
    config.sortDir == NaturalOrder(config.direction) && ListOrder(config, Cursor(0, 0)) == NaturalOrder(config.direction)
  }

  ghost predicate NonNull(tables: seq<set<Row>>) {
    forall i, row :: 0 <= i < |tables| && row in tables[i] ==> row.value.Some?
  }

  ghost predicate PresentThroughout(tables: seq<set<Row>>, row: Row) {
    forall i :: 0 <= i < |tables| ==> row in tables[i]
  }

  lemma OrderIsTotal(order: Order, a: Row, b: Row, c: Row)
    ensures a == b || Comes(order, a, b) || Comes(order, b, a)
    ensures Comes(order, a, b) && Comes(order, b, c) ==> Comes(order, a, c)
    ensures !(Comes(order, a, b) && Comes(order, b, a))
  {}

  /** The cursor clause selects exactly what comes after the row the cursor was made from. */
  lemma ClauseContinues(direction: Direction, last: Row, row: Row)
    requires last.value.Some? && row.value.Some?
    ensures Selects(direction, Cursor(last.value.value, last.id), row) <==> Comes(NaturalOrder(direction), last, row)
  {}

  lemma ListedPush(pages: seq<seq<Row>>, n: nat)
    requires n < |pages|
    ensures Listed(pages[..n + 1]) == Listed(pages[..n]) + pages[n]
  {
    assert pages[..n + 1][..n] == pages[..n];
  }

  /** The first page, when it is full, hands on a cursor; it does exactly when its last row is not null in the cursor column. */
  ghost predicate GoesOn(limit: nat, pages: seq<seq<Row>>)
    requires limit > 0
  {
    |pages| > 1 ==> CursorAt(pages, limit, 1).Cursor?
  }

  /** A full page hands on a cursor exactly when its last row has a value. */
  lemma CursorIffValue(limit: nat, pages: seq<seq<Row>>, n: nat)
    requires limit > 0 && 0 < n <= |pages| && |pages[n - 1]| == limit
    ensures CursorAt(pages, limit, n).NoCursor? <==> pages[n - 1][limit - 1].value.None?
  {}

  lemma FullBefore(config: Config, limit: nat, tables: seq<set<Row>>, pages: seq<seq<Row>>, n: nat)
    requires Traversal(config, limit, tables, pages) && 0 < n < |pages|
    ensures |pages[n - 1]| == limit
  {
    assert PageAt(config, limit, tables, pages, n);
    hide IsPage;
  }

  /** From the first cursor on, every page has one, and holds no null row. */
  lemma {:induction false} CursorsGoOn(config: Config, limit: nat, tables: seq<set<Row>>, pages: seq<seq<Row>>, n: nat)
    requires Traversal(config, limit, tables, pages) && GoesOn(limit, pages) && 0 < n < |pages|
    ensures |pages[n - 1]| == limit && pages[n - 1][limit - 1].value.Some? && CursorAt(pages, limit, n).Cursor?
    ensures forall j :: 0 <= j < |pages[n]| ==> pages[n][j].value.Some?
  {
    FullBefore(config, limit, tables, pages, n);
    if n == 1 {
      CursorIffValue(limit, pages, 1);
    } else {
      CursorsGoOn(config, limit, tables, pages, n - 1);
      CursorIffValue(limit, pages, n);
    }
    assert PageAt(config, limit, tables, pages, n);
    hide InOrder, Comes, CursorAt;
  }

  lemma NonNullGoesOn(config: Config, limit: nat, tables: seq<set<Row>>, pages: seq<seq<Row>>)
    requires Traversal(config, limit, tables, pages) && NonNull(tables)
    ensures GoesOn(limit, pages)
  {
    assert PageAt(config, limit, tables, pages, 0);
    if |pages| > 1 { FullBefore(config, limit, tables, pages, 1); }
    hide InOrder, Selects;
  }

  /** What page n + 1 is, in a matching traversal. */
  lemma NextPage(config: Config, limit: nat, tables: seq<set<Row>>, pages: seq<seq<Row>>, n: nat)
    requires Traversal(config, limit, tables, pages) && Matching(config) && GoesOn(limit, pages) && 0 < n < |pages|
    ensures |pages[n - 1]| == limit && pages[n - 1][limit - 1].value.Some?
    ensures var last := pages[n - 1][limit - 1];
            IsPage(tables[n], config.direction, Cursor(last.value.value, last.id), NaturalOrder(config.direction), limit, pages[n])
  {
    CursorsGoOn(config, limit, tables, pages, n);
    assert PageAt(config, limit, tables, pages, n);
    hide InOrder, Selects;
  }

  lemma FirstPage(config: Config, limit: nat, tables: seq<set<Row>>, pages: seq<seq<Row>>)
    requires Traversal(config, limit, tables, pages) && Matching(config)
    ensures IsPage(tables[0], config.direction, NoCursor, NaturalOrder(config.direction), limit, pages[0])
  {
    assert PageAt(config, limit, tables, pages, 0);
    hide IsPage;
  }

  lemma JoinInOrder(order: Order, a: seq<Row>, b: seq<Row>)
    requires InOrder(order, a) && InOrder(order, b)
    requires a != [] ==> forall j :: 0 <= j < |b| ==> Comes(order, a[|a| - 1], b[j])
    ensures InOrder(order, a + b)
  {
    forall i, j | 0 <= i < j < |a + b| ensures Comes(order, (a + b)[i], (a + b)[j]) {
      if i < |a| <= j {
        OrderIsTotal(order, a[i], a[|a| - 1], b[j - |a|]);
      }
    }
  }

  /** The rows listed are in order and end in the last row of the last full page. */
  ghost predicate EndsIn(listed: seq<Row>, last: Row) {
    listed != [] && listed[|listed| - 1] == last
  }

  /** All rows listed so far are in order, so they hold no row twice. */
  lemma {:induction false} ListedInOrder(config: Config, limit: nat, tables: seq<set<Row>>, pages: seq<seq<Row>>, n: nat)
    requires Traversal(config, limit, tables, pages) && Matching(config) && GoesOn(limit, pages) && n <= |pages|
    ensures InOrder(NaturalOrder(config.direction), Listed(pages[..n]))
    ensures 0 < n < |pages| ==> |pages[n - 1]| == limit && EndsIn(Listed(pages[..n]), pages[n - 1][limit - 1])
  {
    if n == 0 {
      assert Listed(pages[..0]) == [];
    } else {
      hide InOrder, Selects, Comes, Listed, CursorAt, GoesOn, Matching;
      ListedInOrder(config, limit, tables, pages, n - 1);
      ListedPush(pages, n - 1);
      if n == 1 {
        FirstPage(config, limit, tables, pages);
        NothingListed(pages);
        assert [] + pages[0] == pages[0];
      } else {
        NextPage(config, limit, tables, pages, n - 1);
        PageContinues(config, limit, tables, pages, n - 1);
        JoinInOrder(NaturalOrder(config.direction), Listed(pages[..n - 1]), pages[n - 1]);
      }
      if n < |pages| { NextPage(config, limit, tables, pages, n); }
    }
  }

  lemma NothingListed(pages: seq<seq<Row>>)
    ensures Listed(pages[..0]) == []
  {}

  lemma PageContinues(config: Config, limit: nat, tables: seq<set<Row>>, pages: seq<seq<Row>>, n: nat)
    requires Traversal(config, limit, tables, pages) && Matching(config) && GoesOn(limit, pages) && 0 < n < |pages|
    ensures |pages[n - 1]| == limit
    ensures forall j :: 0 <= j < |pages[n]| ==> Comes(NaturalOrder(config.direction), pages[n - 1][limit - 1], pages[n][j])
  {
    NextPage(config, limit, tables, pages, n);
    CursorsGoOn(config, limit, tables, pages, n);
    hide InOrder, Selects, Comes, CursorAt, Matching, Traversal;
    var last := pages[n - 1][limit - 1];
    forall j | 0 <= j < |pages[n]| ensures Comes(NaturalOrder(config.direction), last, pages[n][j]) {
      ClauseContinues(config.direction, last, pages[n][j]);
    }
  }

  /** Rows that a matching traversal can reach behind its first page: all but the nulls that sort last. */
  predicate Reachable(config: Config, row: Row) {
    row.value.Some? || config.direction.Before?
  }

  lemma NullsComeFirst(last: Row, row: Row)
    requires last.value.Some? && row.value.None?
    ensures !Comes(Desc, last, row)
  {}

  /** A row that stays is either listed by now or comes after everything listed. */
  lemma {:induction false} ListedOrAhead(config: Config, limit: nat, tables: seq<set<Row>>, pages: seq<seq<Row>>, row: Row, n: nat)
    requires Traversal(config, limit, tables, pages) && Matching(config) && GoesOn(limit, pages)
    requires PresentThroughout(tables, row) && Reachable(config, row) && 0 < n <= |pages|
    ensures row in Listed(pages[..n]) ||
            (|pages[n - 1]| == limit && Comes(NaturalOrder(config.direction), pages[n - 1][limit - 1], row))
  {
    hide InOrder, Selects, Comes, CursorAt, Matching;
    ListedPush(pages, n - 1);
    assert row in tables[n - 1];
    if n == 1 {
      FirstPage(config, limit, tables, pages);
      SelectsAll(config.direction, row);
    } else {
      ListedOrAhead(config, limit, tables, pages, row, n - 1);
      NextPage(config, limit, tables, pages, n - 1);
      if row.value.Some? {
        ClauseContinues(config.direction, pages[n - 2][limit - 1], row);
      } else {
        NullsComeFirst(pages[n - 2][limit - 1], row);
      }
    }
  }

  lemma SelectsAll(direction: Direction, row: Row)
    ensures Selects(direction, NoCursor, row)
  {}

  ghost predicate OnceIn(rows: seq<Row>, row: Row) {
    row in rows && forall i, j :: 0 <= i < |rows| && 0 <= j < |rows| && rows[i] == row && rows[j] == row ==> i == j
  }

  lemma InOrderIsDistinct(order: Order, rows: seq<Row>)
    requires InOrder(order, rows)
    ensures forall i, j :: 0 <= i < j < |rows| ==> rows[i] != rows[j]
  {
    forall i, j | 0 <= i < j < |rows| ensures rows[i] != rows[j] {
      OrderIsTotal(order, rows[i], rows[j], rows[i]);
      assert Comes(order, rows[i], rows[j]);
    }
  }

  lemma {:induction false} DistinctFits(rows: seq<Row>, universe: set<Row>)
    requires forall i, j :: 0 <= i < j < |rows| ==> rows[i] != rows[j]
    requires forall i :: 0 <= i < |rows| ==> rows[i] in universe
    ensures |rows| <= |universe|
  {
    if rows == [] {
    } else {
      var front, last := rows[..|rows| - 1], rows[|rows| - 1];
      DistinctFits(front, universe - {last});
    }
  }

  /**
   Following cursors to the end lists, in order and exactly once, every row that stays in the table
   unchanged, whatever is inserted or deleted between the pages; null rows too when they sort first. When they
   sort last they are listed exactly when the first page is the only one.
   */
  lemma TraversalListsEachOnce(config: Config, limit: nat, tables: seq<set<Row>>, pages: seq<seq<Row>>, row: Row)
    requires Traversal(config, limit, tables, pages) && Finished(limit, pages) && Matching(config) && GoesOn(limit, pages)
    requires PresentThroughout(tables, row)
    ensures InOrder(NaturalOrder(config.direction), Listed(pages))
    ensures OnceIn(Listed(pages), row) <==> Reachable(config, row) || |tables[0]| < limit
    ensures row in Listed(pages) ==> OnceIn(Listed(pages), row)
  {
    ListedInOrder(config, limit, tables, pages, |pages|);
    assert pages[..|pages|] == pages;
    InOrderIsDistinct(NaturalOrder(config.direction), Listed(pages));
    ShortIffSmall(config, limit, tables, pages);
    if Reachable(config, row) {
      ListedOrAhead(config, limit, tables, pages, row, |pages|);
    } else if |pages| == 1 {
      FirstPage(config, limit, tables, pages);
      SelectsAll(config.direction, row);
      NothingListed(pages);
      ListedPush(pages, 0);
    } else {
      NullStaysBehind(config, limit, tables, pages, row, |pages|);
    }
    hide Traversal, InOrder, Matching, GoesOn, Listed, Reachable;
  }

  /** A finished traversal has one page exactly when its table had fewer rows than a page holds. */
  lemma ShortIffSmall(config: Config, limit: nat, tables: seq<set<Row>>, pages: seq<seq<Row>>)
    requires Traversal(config, limit, tables, pages) && Finished(limit, pages) && Matching(config)
    ensures |pages| == 1 <==> |tables[0]| < limit
  {
    FirstPage(config, limit, tables, pages);
    InOrderIsDistinct(NaturalOrder(config.direction), pages[0]);
    hide Matching, InOrder, Comes;
    DistinctFits(pages[0], tables[0]);
    if |pages| == 1 {
      forall row | row in tables[0] ensures row in pages[0] { SelectsAll(config.direction, row); }
      CoveredFits(tables[0], pages[0]);
    } else {
      FullBefore(config, limit, tables, pages, 1);
    }
  }

  lemma {:induction false} CoveredFits(rows: set<Row>, page: seq<Row>)
    requires forall row :: row in rows ==> row in page
    ensures |rows| <= |page|
  {
    if page == [] {
      assert rows == {};
    } else {
      var front, last := page[..|page| - 1], page[|page| - 1];
      assert page == front + [last];
      CoveredFits(rows - {last}, front);
    }
  }

  lemma NullSortsLast(page: seq<Row>, row: Row)
    requires InOrder(Asc, page) && page != [] && page[|page| - 1].value.Some? && row.value.None?
    ensures row !in page
  {}

  lemma {:induction false} NullStaysBehind(config: Config, limit: nat, tables: seq<set<Row>>, pages: seq<seq<Row>>, row: Row, n: nat)
    requires Traversal(config, limit, tables, pages) && Matching(config) && GoesOn(limit, pages)
    requires !Reachable(config, row) && |pages| > 1 && n <= |pages|
    ensures row !in Listed(pages[..n])
  {
    if n == 0 {
      NothingListed(pages);
    } else {
      NullStaysBehind(config, limit, tables, pages, row, n - 1);
      ListedPush(pages, n - 1);
      if n == 1 {
        FirstPage(config, limit, tables, pages);
        CursorsGoOn(config, limit, tables, pages, 1);
        NullSortsLast(pages[0], row);
      } else {
        CursorsGoOn(config, limit, tables, pages, n - 1);
      }
    }
  }

  // ---------------------------------------------------------------- null values in the cursor column

  function Nulls(table: set<Row>): set<Row> {
    set row | row in table && row.value.None?
  }

  function Values(table: set<Row>): set<Row> {
    set row | row in table && row.value.Some?
  }

  /** The rows that sort before all others: the nulls in descending order, the values in ascending order. */
  function Early(direction: Direction, table: set<Row>): set<Row> {
    if direction.Before? then Nulls(table) else Values(table)
  }

  lemma EarlyComesFirst(direction: Direction, table: set<Row>, a: Row, b: Row)
    requires a in table && b in table && b in Early(direction, table) && Comes(NaturalOrder(direction), a, b)
    ensures a in Early(direction, table)
  {}

  /** A full first page ends among the early rows exactly when they fill it. */
  lemma PageEndsEarly(direction: Direction, table: set<Row>, limit: nat, page: seq<Row>)
    requires limit > 0 && IsPage(table, direction, NoCursor, NaturalOrder(direction), limit, page) && |page| == limit
    ensures page[limit - 1] in Early(direction, table) <==> |Early(direction, table)| >= limit
  {
    var early, last := Early(direction, table), page[limit - 1];
    InOrderIsDistinct(NaturalOrder(direction), page);
    if last in early {
      forall i | 0 <= i < limit ensures page[i] in early {
        if i < limit - 1 { EarlyComesFirst(direction, table, page[i], last); }
      }
      DistinctFits(page, early);
    } else {
      assert page == page[..limit - 1] + [last];
      forall row | row in early ensures row in page[..limit - 1] {
        SelectsAll(direction, row);
        if row !in page { EarlyComesFirst(direction, table, last, row); }
        assert row != last;
      }
      CoveredFits(early, page[..limit - 1]);
    }
  }

  /**
   When the second page starts from the beginning again, for every matching configuration: with nulls first,
   exactly when at least a page of rows is null; with nulls last, exactly when fewer than a page of
   rows have a value.
   */
  lemma RestartsIff(config: Config, limit: nat, tables: seq<set<Row>>, pages: seq<seq<Row>>)
    requires Traversal(config, limit, tables, pages) && Matching(config) && |pages| > 1
    ensures !GoesOn(limit, pages) <==>
            if config.direction.Before? then |Nulls(tables[0])| >= limit else |Values(tables[0])| < limit
  {
    FirstPage(config, limit, tables, pages);
    FullBefore(config, limit, tables, pages, 1);
    CursorIffValue(limit, pages, 1);
    PageEndsEarly(config.direction, tables[0], limit, pages[0]);
    hide InOrder, Comes, Matching, Traversal;
    assert pages[0][limit - 1] in tables[0];
  }

  ghost predicate Constant(tables: seq<set<Row>>, table: set<Row>) {
    forall i :: 0 <= i < |tables| ==> tables[i] == table
  }

  lemma RestartedPage(config: Config, limit: nat, tables: seq<set<Row>>, pages: seq<seq<Row>>, n: nat)
    requires Traversal(config, limit, tables, pages) && Matching(config) && n < |pages| && CursorAt(pages, limit, n).NoCursor?
    ensures IsPage(tables[n], config.direction, NoCursor, NaturalOrder(config.direction), limit, pages[n])
  {
    assert PageAt(config, limit, tables, pages, n);
    hide IsPage;
  }

  lemma FirstPageOf(direction: Direction, table: set<Row>, limit: nat, page: seq<Row>)
    requires limit > 0 && IsPage(table, direction, NoCursor, NaturalOrder(direction), limit, page) && |table| >= limit
    ensures |page| == limit && page[limit - 1] in table
  {
    if |page| < limit {
      forall row | row in table ensures row in page { SelectsAll(direction, row); }
      CoveredFits(table, page);
    }
  }

  /** Over a table that does not change, a traversal that restarts once does so after every page, and never finishes. */
  lemma {:induction false} RestartsForEver(config: Config, limit: nat, tables: seq<set<Row>>, pages: seq<seq<Row>>, table: set<Row>, n: nat)
    requires Traversal(config, limit, tables, pages) && Matching(config) && Constant(tables, table)
    requires |pages| > 1 && !GoesOn(limit, pages) && n < |pages|
    ensures CursorAt(pages, limit, n).NoCursor? && |pages[n]| == limit && pages[n][limit - 1].value.None?
  {
    RestartsIff(config, limit, tables, pages);
    FirstPage(config, limit, tables, pages);
    InOrderIsDistinct(NaturalOrder(config.direction), pages[0]);
    FullBefore(config, limit, tables, pages, 1);
    DistinctFits(pages[0], table);
    if n > 0 {
      RestartsForEver(config, limit, tables, pages, table, n - 1);
      CursorIffValue(limit, pages, n);
    }
    RestartedPage(config, limit, tables, pages, n);
    hide InOrder, Comes, Matching, Traversal, GoesOn;
    FirstPageOf(config.direction, table, limit, pages[n]);
    PageEndsEarly(config.direction, table, limit, pages[n]);
  }

  /**
   The whole effect of nulls on a table that does not change, for every matching configuration: a
   traversal of more than one page that cannot go on never finishes; one that finishes lists every row
   exactly when nulls sort first, or there are none, or one page holds the table.
   */
  lemma ConstantTableIff(config: Config, limit: nat, tables: seq<set<Row>>, pages: seq<seq<Row>>, table: set<Row>)
    requires Traversal(config, limit, tables, pages) && Matching(config) && Constant(tables, table)
    ensures |pages| > 1 && !GoesOn(limit, pages) ==> !Finished(limit, pages)
    ensures Finished(limit, pages) ==>
            ((forall row :: row in table ==> OnceIn(Listed(pages), row)) <==>
             config.direction.Before? || Nulls(table) == {} || |table| < limit)
  {
    if |pages| > 1 && !GoesOn(limit, pages) { RestartsForEver(config, limit, tables, pages, table, |pages| - 1); }
    if Finished(limit, pages) {
      hide Traversal, Matching, OnceIn, Listed, GoesOn;
      forall row | row in table
        ensures OnceIn(Listed(pages), row) <==> Reachable(config, row) || |table| < limit
      {
        SinglePageGoesOn(limit, pages);
        TraversalListsEachOnce(config, limit, tables, pages, row);
      }
      if Nulls(table) != {} && !config.direction.Before? && |table| >= limit {
        var row :| row in Nulls(table);
        assert row in table && !Reachable(config, row);
        assert !OnceIn(Listed(pages), row);
      }
      assert forall row :: row in table ==> row.value.Some? || row in Nulls(table);
    }
  }

  lemma SinglePageGoesOn(limit: nat, pages: seq<seq<Row>>)
    requires limit > 0
    ensures |pages| <= 1 ==> GoesOn(limit, pages)
  {}

  // ---------------------------------------------------------------- termination

  lemma {:induction false} FullPagesListed(limit: nat, pages: seq<seq<Row>>, n: nat)
    requires n <= |pages| && forall i :: 0 <= i < n ==> |pages[i]| == limit
    ensures |Listed(pages[..n])| == n * limit
  {
    if n > 0 {
      FullPagesListed(limit, pages, n - 1);
      ListedPush(pages, n - 1);
    } else {
      assert pages[..0] == [];
    }
  }

  lemma {:induction false} ListedComesFrom(pages: seq<seq<Row>>, universe: set<Row>, n: nat)
    requires n <= |pages| && forall i, j :: 0 <= i < n && 0 <= j < |pages[i]| ==> pages[i][j] in universe
    ensures forall i :: 0 <= i < |Listed(pages[..n])| ==> Listed(pages[..n])[i] in universe
  {
    if n > 0 {
      ListedComesFrom(pages, universe, n - 1);
      ListedPush(pages, n - 1);
    } else {
      assert pages[..0] == [];
    }
  }

  lemma RowComesFrom(config: Config, limit: nat, tables: seq<set<Row>>, pages: seq<seq<Row>>, i: nat, j: nat)
    requires Traversal(config, limit, tables, pages) && i < |pages| && j < |pages[i]|
    ensures pages[i][j] in tables[i]
  {
    assert PageAt(config, limit, tables, pages, i);
  }

  /** When all rows ever inserted form a finite set, the pages before the last are bounded by it: the traversal ends. */
  lemma TraversalIsBounded(config: Config, limit: nat, tables: seq<set<Row>>, pages: seq<seq<Row>>, universe: set<Row>)
    requires Traversal(config, limit, tables, pages) && Matching(config) && GoesOn(limit, pages)
    requires forall i :: 0 <= i < |tables| ==> tables[i] <= universe
    ensures (|pages| - 1) * limit <= |universe|
  {
    var n := |pages| - 1;
    ListedInOrder(config, limit, tables, pages, n);
    InOrderIsDistinct(NaturalOrder(config.direction), Listed(pages[..n]));
    hide InOrder, Listed, Matching, IsPage;
    forall i | 0 <= i < n ensures |pages[i]| == limit {
      assert PageAt(config, limit, tables, pages, i + 1);
    }
    forall i, j | 0 <= i < n && 0 <= j < |pages[i]| ensures pages[i][j] in universe {
      RowComesFrom(config, limit, tables, pages, i, j);
    }
    FullPagesListed(limit, pages, n);
    ListedComesFrom(pages, universe, n);
    DistinctFits(Listed(pages[..n]), universe);
  }

  // ---------------------------------------------------------------- exactly the matching orders work

  /** Every finished traversal of non-null rows lists every row that stays. */
  ghost predicate AlwaysLists(config: Config) {
    forall limit: nat, tables, pages, row ::
      Traversal(config, limit, tables, pages) && Finished(limit, pages) && NonNull(tables) && PresentThroughout(tables, row)
      ==> row in Listed(pages)
  }

  const ONE := Row(1, Some(1))
  const TWO := Row(2, Some(2))
  const THREE := Row(3, Some(3))
  const TABLE := {ONE, TWO, THREE}

  lemma OnlyPage(direction: Direction, cursor: Cursor, order: Order, row: Row)
    requires row in TABLE && Selects(direction, cursor, row)
    requires forall r :: r in TABLE && Selects(direction, cursor, r) && r != row ==> Comes(order, row, r)
    ensures IsPage(TABLE, direction, cursor, order, 1, [row])
  {}

  lemma LastPage(direction: Direction, cursor: Cursor, order: Order)
    requires forall r :: r in TABLE ==> !Selects(direction, cursor, r)
    ensures IsPage(TABLE, direction, cursor, order, 1, [])
  {}

  lemma ListedTwo(a: seq<Row>, b: seq<Row>)
    ensures Listed([a, b]) == a + b
  {
    assert [a, b][..1] == [a] && [a][..0] == [];
    assert Listed([a]) == a;
  }

  /** Three rows, one to a page: with any mismatched configuration the middle row is never listed. */
  lemma MismatchLosesRow(config: Config) returns (tables: seq<set<Row>>, pages: seq<seq<Row>>)
    requires !Matching(config)
    ensures Traversal(config, 1, tables, pages) && Finished(1, pages) && NonNull(tables)
    ensures PresentThroughout(tables, TWO) && TWO !in Listed(pages)
  {
    hide IsPage;
    var first := if config.sortDir.Asc? then ONE else THREE;
    OnlyPage(config.direction, NoCursor, config.sortDir, first);
    var cursor := Cursor(first.value.value, first.id);
    var order := ListOrder(config, cursor);
    if config.sortDir == NaturalOrder(config.direction) {
      var second := if config.sortDir.Asc? then THREE else ONE;
      OnlyPage(config.direction, cursor, order, second);
      LastPage(config.direction, Cursor(second.value.value, second.id), order);
      tables, pages := [TABLE, TABLE, TABLE], [[first], [second], []];
      ListedTwo([first], [second]);
      assert pages[..2] == [[first], [second]];
      assert PageAt(config, 1, tables, pages, 1) && PageAt(config, 1, tables, pages, 2);
    } else {
      LastPage(config.direction, cursor, order);
      tables, pages := [TABLE, TABLE], [[first], []];
      ListedTwo([first], []);
      assert PageAt(config, 1, tables, pages, 1);
    }
  }

  lemma ListsEverythingIffMatching(config: Config)
    ensures AlwaysLists(config) <==> Matching(config)
  {
    if Matching(config) {
      forall limit: nat, tables, pages, row |
        Traversal(config, limit, tables, pages) && Finished(limit, pages) && NonNull(tables) && PresentThroughout(tables, row)
        ensures row in Listed(pages)
      {
        NonNullGoesOn(config, limit, tables, pages);
        assert row in tables[0];
        TraversalListsEachOnce(config, limit, tables, pages, row);
      }
    } else {
      var tables, pages := MismatchLosesRow(config);
      hide Traversal, Finished, NonNull, PresentThroughout, Listed, Matching;
      assert !AlwaysLists(config);
    }
  }

  /** The word asc in any mixture of cases; an upper-cased long s is an S too. */
  predicate ReadsAsc(text: string) {
    |text| == 3 && text[0] in "aA" && text[1] in ['s', 'S', '\U{17F}'] && text[2] in "cC"
  }

  predicate ReadsDesc(text: string) {
    |text| == 4 && text[0] in "dD" && text[1] in "eE" && text[2] in ['s', 'S', '\U{17F}'] && text[3] in "cC"
  }

  /** What a caller can look up: pages before the cursor must not be asked for in ascending order, pages after it must be. */
  predicate OrdersFit(config: Config) {
    match config.direction
    case Before => config.sortDir == Desc && (config.orderDir.None? || !ReadsAsc(config.orderDir.value))
    case After => config.sortDir == Asc && config.orderDir.Some? && config.orderDir.value != "" && !ReadsDesc(config.orderDir.value)
  }

  lemma UpperIs(text: string)
    ensures Upper(text) == "ASC" <==> ReadsAsc(text)
    ensures Upper(text) == "DESC" <==> ReadsDesc(text)
  {
    var upper := Upper(text);
    hide Upper;
    if upper == "ASC" { assert upper[0] == 'A' && upper[1] == 'S' && upper[2] == 'C'; }
    if upper == "DESC" { assert upper[0] == 'D' && upper[1] == 'E' && upper[2] == 'S' && upper[3] == 'C'; }
    if ReadsAsc(text) { assert upper == [upper[0], upper[1], upper[2]]; }
    if ReadsDesc(text) { assert upper == [upper[0], upper[1], upper[2], upper[3]]; }
  }

  /**
   Which options list everything. Before a cursor: a descending first page, and an order that is absent, empty or
   anything but asc. After a cursor: an ascending first page, and an order that is given and not desc.
   */
  lemma ListsEverythingIff(config: Config)
    ensures AlwaysLists(config) <==> OrdersFit(config)
  {
    ListsEverythingIffMatching(config);
    if config.orderDir.Some? { UpperIs(config.orderDir.value); }
    hide AlwaysLists, Upper, ReadsAsc, ReadsDesc;
  }

  /** The default options, and those of a caller that walks forward. */
  lemma UsualOptionsListEverything()
    ensures AlwaysLists(Config(Before, None, Desc)) && AlwaysLists(Config(After, Some("ASC"), Asc))
    ensures !AlwaysLists(Config(After, None, Asc)) && !AlwaysLists(Config(Before, None, Asc))
  {
    ListsEverythingIff(Config(Before, None, Desc));
    ListsEverythingIff(Config(After, Some("ASC"), Asc));
    ListsEverythingIff(Config(After, None, Asc));
    ListsEverythingIff(Config(Before, None, Asc));
    hide AlwaysLists;
  }

  // ---------------------------------------------------------------- the where object

  datatype Clause = Clause(direction: Direction, cursor: Cursor)

  ghost predicate AllSelect(clauses: seq<Clause>, row: Row) {
    forall i :: 0 <= i < |clauses| ==> Selects(clauses[i].direction, clauses[i].cursor, row)
  }

  lemma AllSelectPush(clauses: seq<Clause>, clause: Clause)
    ensures forall row :: AllSelect(clauses + [clause], row) <==>
              AllSelect(clauses, row) && Selects(clause.direction, clause.cursor, row)
  {
    hide Selects;
    forall row
      ensures AllSelect(clauses + [clause], row) <==> AllSelect(clauses, row) && Selects(clause.direction, clause.cursor, row)
    {
      if AllSelect(clauses + [clause], row) {
        assert (clauses + [clause])[|clauses|] == clause;
        assert forall i :: 0 <= i < |clauses| ==> (clauses + [clause])[i] == clauses[i];
      }
    }
  }

  /** The caller's own conditions, and the Op.and list if there is one. */
  class Where {
    const base: Row -> bool
    var conjuncts: Option<seq<Clause>>

    constructor (base: Row -> bool)
      ensures this.base == base && conjuncts == None
    {
      this.base := base;
      conjuncts := None;
    }

    ghost predicate Admits(row: Row)
      reads this
    {
      base(row) && AllSelect(conjuncts.GetOr([]), row)
    }

    method AppendAndWhereClause(clause: Clause)
      modifies this`conjuncts
      ensures conjuncts == Some(old(conjuncts).GetOr([]) + [clause])
      ensures forall row :: Admits(row) <==> old(Admits(row)) && Selects(clause.direction, clause.cursor, row)
    {
      AllSelectPush(conjuncts.GetOr([]), clause);
      hide AllSelect, Selects;
      if conjuncts.Some? {
        conjuncts := Some(conjuncts.value + [clause]);
      } else {
        assert [] + [clause] == [clause];
        conjuncts := Some([clause]);
      }
    }

    /** addCursorWhere narrows what is selected by the cursor, and by nothing else. */
    method AddCursorWhere(filters: Filters, direction: Direction) returns (cursor: Cursor)
      modifies this`conjuncts
      ensures cursor == CursorState(filters)
      ensures forall row :: Admits(row) <==> old(Admits(row)) && Selects(direction, cursor, row)
    {
      cursor := CursorState(filters);
      if cursor.NoCursor? {
        return;
      }
      AppendAndWhereClause(Clause(direction, cursor));
    }

    /** The where of getPostsWhere: with both cursors the rows strictly between them. */
    method AddBothCursors(before: Filters, after: Filters)
      modifies this`conjuncts
      ensures forall row :: Admits(row) <==>
                old(Admits(row)) && Selects(Before, CursorState(before), row) && Selects(After, CursorState(after), row)
    {
      var _ := AddCursorWhere(before, Before);
      var _ := AddCursorWhere(after, After);
    }
  }
}
