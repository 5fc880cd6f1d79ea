/**
 * Keyset paging (packages/db/src/queries/catalog.ts): each request sees whatever rows match its
 * filters at that moment, ordered by id, and the reader follows `nextCursor` from page to page while
 * rows come and go.
 */
module Paging {
  import opened Wrappers
  import opened Arith

  const MAX_PAGE_SIZE: nat := 100
  const DEFAULT_PAGE_SIZE: nat := 25

  /** Ids are UUIDs, of which only the order matters; the data of a row may change while its id cannot. */
  type Id = nat

  datatype Row = Row(id: Id, data: string)

  ghost predicate Ascending(rows: seq<Row>) {
    forall i, j :: 0 <= i < j < |rows| ==> rows[i].id < rows[j].id
  }

  datatype Page = Page(items: seq<Row>, nextCursor: Option<Id>)

  /** What a caller asks for; a number can also be NaN or infinite. */
  datatype Requested = Default | NotFinite | Finite(limit: real)

  function ClampLimit(requested: Requested): (limit: nat)
    ensures 1 <= limit <= 100
    ensures !requested.Finite? || requested.limit < 1.0 ==> limit == 25
    ensures requested.Finite? && requested.limit >= 101.0 ==> limit == 100
    ensures requested.Finite? && 1.0 <= requested.limit < 101.0 ==>
              limit as real <= requested.limit < limit as real + 1.0
  {
    match requested
    case Default => DEFAULT_PAGE_SIZE
    case NotFinite => DEFAULT_PAGE_SIZE
    case Finite(limit) =>
      if limit < 1.0 then DEFAULT_PAGE_SIZE
      else if limit.Floor < MAX_PAGE_SIZE then limit.Floor else MAX_PAGE_SIZE
  }

  function Paginate(rows: seq<Row>, limit: nat): Page
    requires limit >= 1
  {
    var hasMore := |rows| > limit;
    var items := if hasMore then rows[..limit] else rows;
    Page(items, if hasMore then Some(items[|items| - 1].id) else None)
  }

  predicate Beyond(cursor: Option<Id>, id: Id) {
    cursor == None || id > cursor.value
  }

  /** The matching rows past the cursor. */
  function After(table: seq<Row>, cursor: Option<Id>): seq<Row> {
    if |table| == 0 then []
    else if Beyond(cursor, table[0].id) then [table[0]] + After(table[1..], cursor)
    else After(table[1..], cursor)
  }

  function Take(rows: seq<Row>, n: nat): seq<Row> {
    if n < |rows| then rows[..n] else rows
  }

  /** `where id > cursor order by id limit n + 1`, then the page. */
  function Fetch(table: seq<Row>, cursor: Option<Id>, limit: nat): Page
    requires limit >= 1
  {
    Paginate(Take(After(table, cursor), limit + 1), limit)
  }

  datatype Request = Request(table: seq<Row>, asked: Requested)

  /** The pages a reader gets by following the cursor until it is null or they stop asking. */
  function Follow(requests: seq<Request>, cursor: Option<Id>): seq<Page> {
    if |requests| == 0 then []
    else
      var page := Fetch(requests[0].table, cursor, ClampLimit(requests[0].asked));
      if page.nextCursor == None then [page] else [page] + Follow(requests[1..], page.nextCursor)
  }

  function Items(pages: seq<Page>): seq<Row> {
    if |pages| == 0 then [] else pages[0].items + Items(pages[1..])
  }

  predicate Finished(pages: seq<Page>) {
    |pages| > 0 && pages[|pages| - 1].nextCursor == None
  }

  ghost predicate Tables(requests: seq<Request>) {
    forall k :: 0 <= k < |requests| ==> Ascending(requests[k].table)
  }

  // ------------------------------------------------------------------ //
  // One page
  // ------------------------------------------------------------------ //

  predicate HasId(rows: seq<Row>, id: Id) {
    exists k :: 0 <= k < |rows| && rows[k].id == id
  }

  lemma {:induction false} AfterFacts(table: seq<Row>, cursor: Option<Id>)
    requires Ascending(table)
    ensures Ascending(After(table, cursor))
    ensures forall k :: 0 <= k < |After(table, cursor)| ==> Beyond(cursor, After(table, cursor)[k].id)
    ensures |table| > 0 && |After(table, cursor)| > 0 ==> After(table, cursor)[0].id >= table[0].id
    decreases |table|
  {
    if |table| == 0 {
    } else {
      AfterFacts(table[1..], cursor);
      var rest := After(table[1..], cursor);
      assert |rest| > 0 ==> table[0].id < rest[0].id;
      assert Ascending([table[0]] + rest);
    }
  }

  lemma {:induction false} AfterHas(table: seq<Row>, cursor: Option<Id>, id: Id)
    requires HasId(table, id) && Beyond(cursor, id)
    ensures HasId(After(table, cursor), id)
    decreases |table|
  {
    var k :| 0 <= k < |table| && table[k].id == id;
    var rest := After(table[1..], cursor);
    if k == 0 {
      assert ([table[0]] + rest)[0].id == id;
    } else {
      assert table[1..][k - 1].id == id;
      AfterHas(table[1..], cursor, id);
      var j :| 0 <= j < |rest| && rest[j].id == id;
      assert ([table[0]] + rest)[j + 1].id == id;
    }
  }

  /** A page is the smallest rows past the cursor, and says there is more exactly when there is. */
  lemma PageFacts(table: seq<Row>, cursor: Option<Id>, limit: nat)
    requires Ascending(table) && limit >= 1
    ensures var page := Fetch(table, cursor, limit); var rest := After(table, cursor);
            && |page.items| <= limit && page.items <= rest && Ascending(page.items)
            && (page.nextCursor == None <==> page.items == rest)
            && (page.nextCursor.Some? ==> |page.items| == limit && page.nextCursor == Some(page.items[limit - 1].id))
  {
    AfterFacts(table, cursor);
  }

  lemma {:induction false} AfterIsFromTable(table: seq<Row>, cursor: Option<Id>, k: nat)
    requires k < |After(table, cursor)|
    ensures After(table, cursor)[k] in table
    decreases |table|
  {
    var rest := After(table[1..], cursor);
    if !Beyond(cursor, table[0].id) {
      AfterIsFromTable(table[1..], cursor, k);
      assert rest[k] in table[1..];
    } else if k > 0 {
      AfterIsFromTable(table[1..], cursor, k - 1);
      assert rest[k - 1] in table[1..];
    }
    assert table == [table[0]] + table[1..];
  }

  /** A page shows rows as they are when it is fetched, and no others. */
  lemma PageIsFromTable(table: seq<Row>, cursor: Option<Id>, limit: nat, k: nat)
    requires Ascending(table) && limit >= 1 && k < |Fetch(table, cursor, limit).items|
    ensures Fetch(table, cursor, limit).items[k] in table && Beyond(cursor, Fetch(table, cursor, limit).items[k].id)
  {
    hide Fetch, After;
    PageFacts(table, cursor, limit);
    AfterFacts(table, cursor);
    AfterIsFromTable(table, cursor, k);
  }

  lemma {:induction false} AllBeyond(rows: seq<Row>, id: Id)
    requires forall k :: 0 <= k < |rows| ==> rows[k].id > id
    ensures After(rows, Some(id)) == rows
    decreases |rows|
  {
    if |rows| == 0 {
    } else {
      AllBeyond(rows[1..], id);
      assert rows == [rows[0]] + rows[1..];
    }
  }

  lemma {:induction false} AfterDrops(rows: seq<Row>, k: nat)
    requires Ascending(rows) && k < |rows|
    ensures After(rows, Some(rows[k].id)) == rows[k + 1..]
    decreases |rows|
  {
    if k == 0 {
      AllBeyond(rows[1..], rows[0].id);
    } else {
      AfterDrops(rows[1..], k - 1);
      assert rows[1..][k..] == rows[k + 1..];
    }
  }

  lemma {:induction false} AfterTwice(table: seq<Row>, cursor: Option<Id>, later: Id)
    requires Beyond(cursor, later)
    ensures After(After(table, cursor), Some(later)) == After(table, Some(later))
    decreases |table|
  {
    if |table| == 0 {
    } else {
      AfterTwice(table[1..], cursor, later);
      var rest := After(table[1..], cursor);
      assert ([table[0]] + rest)[1..] == rest;
    }
  }

  /** What the next page starts from: everything past this one. */
  lemma NextPageResumes(table: seq<Row>, cursor: Option<Id>, limit: nat)
    requires Ascending(table) && limit >= 1 && Fetch(table, cursor, limit).nextCursor.Some?
    ensures var page := Fetch(table, cursor, limit);
            After(table, cursor) == page.items + After(table, page.nextCursor)
  {
    hide Fetch, After;
    PageFacts(table, cursor, limit);
    AfterFacts(table, cursor);
    var page, rest := Fetch(table, cursor, limit), After(table, cursor);
    var last := rest[limit - 1];
    assert last == page.items[limit - 1];
    AfterTwice(table, cursor, last.id);
    AfterDrops(rest, limit - 1);
  }

  // ------------------------------------------------------------------ //
  // Whole runs over a changing table
  // ------------------------------------------------------------------ //

  /** What is read comes in strictly increasing id order, past the cursor: no row is ever repeated. */
  lemma {:induction false} NeverRepeats(requests: seq<Request>, cursor: Option<Id>)
    requires Tables(requests)
    ensures var items := Items(Follow(requests, cursor));
            Ascending(items) && forall k :: 0 <= k < |items| ==> Beyond(cursor, items[k].id)
    decreases |requests|
  {
    hide Fetch, After, ClampLimit;
    if |requests| == 0 {
    } else {
      var table, limit := requests[0].table, ClampLimit(requests[0].asked);
      var page := Fetch(table, cursor, limit);
      PageFacts(table, cursor, limit);
      AfterFacts(table, cursor);
      if page.nextCursor == None {
        assert Items([page]) == page.items + Items([page][1..]) == page.items;
      } else {
        var rest := Follow(requests[1..], page.nextCursor);
        NeverRepeats(requests[1..], page.nextCursor);
        assert ([page] + rest)[1..] == rest;
        Joined(page.items, Items(rest), page.nextCursor.value);
      }
    }
  }

  lemma Joined(a: seq<Row>, b: seq<Row>, mid: Id)
    requires Ascending(a) && Ascending(b) && |a| > 0 && a[|a| - 1].id == mid
    requires forall k :: 0 <= k < |b| ==> b[k].id > mid
    ensures Ascending(a + b)
  {
    assert forall k :: 0 <= k < |a| ==> a[k].id <= mid;
  }

  /** A row with this id matched whenever a page was fetched, whatever its data was at the time. */
  ghost predicate PresentThroughout(requests: seq<Request>, pages: nat, id: Id) {
    forall k :: 0 <= k < pages && k < |requests| ==> HasId(requests[k].table, id)
  }

  /** A row past the cursor is on the page, or past the cursor the page hands on. */
  lemma OnPageOrPast(table: seq<Row>, cursor: Option<Id>, limit: nat, id: Id)
    requires Ascending(table) && limit >= 1 && HasId(table, id) && Beyond(cursor, id)
    ensures var page := Fetch(table, cursor, limit);
            HasId(page.items, id) || (page.nextCursor.Some? && Beyond(page.nextCursor, id))
  {
    hide Fetch, After;
    PageFacts(table, cursor, limit);
    AfterFacts(table, cursor);
    AfterHas(table, cursor, id);
    var page, rest := Fetch(table, cursor, limit), After(table, cursor);
    var k :| 0 <= k < |rest| && rest[k].id == id;
    if k < |page.items| {
      assert page.items[k].id == id;
    } else {
      assert rest[limit - 1].id < rest[k].id;
    }
  }

  lemma HasIdJoins(a: seq<Row>, b: seq<Row>, id: Id)
    requires HasId(a, id) || HasId(b, id)
    ensures HasId(a + b, id)
  {
    if k :| 0 <= k < |a| && a[k].id == id {
      assert (a + b)[k].id == id;
    } else {
      var k :| 0 <= k < |b| && b[k].id == id;
      assert (a + b)[|a| + k].id == id;
    }
  }

  /** Every row that is there throughout is returned, however the rest of the table changes between pages. */
  lemma {:induction false} NothingIsSkipped(requests: seq<Request>, cursor: Option<Id>, id: Id)
    requires Tables(requests) && Finished(Follow(requests, cursor)) && Beyond(cursor, id)
    requires PresentThroughout(requests, |Follow(requests, cursor)|, id)
    ensures HasId(Items(Follow(requests, cursor)), id)
    decreases |requests|
  {
    hide Fetch, After, ClampLimit, HasId;
    var table, limit := requests[0].table, ClampLimit(requests[0].asked);
    var page := Fetch(table, cursor, limit);
    var pages := Follow(requests, cursor);
    OnPageOrPast(table, cursor, limit, id);
    if page.nextCursor == None {
      assert pages == [page];
      HasIdJoins(page.items, Items(pages[1..]), id);
    } else {
      var rest := Follow(requests[1..], page.nextCursor);
      assert pages == [page] + rest && pages[1..] == rest;
      if !HasId(page.items, id) {
        assert pages[|pages| - 1] == rest[|rest| - 1];
        forall k | 0 <= k < |rest| && k < |requests| - 1 ensures HasId(requests[1..][k].table, id) {
          assert HasId(requests[k + 1].table, id);
        }
        NothingIsSkipped(requests[1..], page.nextCursor, id);
      }
      HasIdJoins(page.items, Items(rest), id);
    }
  }

  lemma IdsAreUnique(rows: seq<Row>, j: nat, k: nat)
    requires Ascending(rows) && j < |rows| && k < |rows| && rows[j].id == rows[k].id
    ensures j == k
  {
  }

  /** Exactly once, then. */
  lemma PresentRowsAppearOnce(requests: seq<Request>, id: Id)
    requires Tables(requests) && Finished(Follow(requests, None))
    requires PresentThroughout(requests, |Follow(requests, None)|, id)
    ensures var items := Items(Follow(requests, None));
            exists k :: 0 <= k < |items| && items[k].id == id && forall j :: 0 <= j < |items| && items[j].id == id ==>
              j == k
  {
    hide Follow, Items, Fetch, After, PresentThroughout;
    NothingIsSkipped(requests, None, id);
    NeverRepeats(requests, None);
    var items := Items(Follow(requests, None));
    var k :| 0 <= k < |items| && items[k].id == id;
    forall j | 0 <= j < |items| && items[j].id == id ensures j == k {
      IdsAreUnique(items, j, k);
    }
  }

  // ------------------------------------------------------------------ //
  // A fixed table
  // ------------------------------------------------------------------ //

  /** How many pages of `limit` hold n rows, an empty list being one empty page. */
  function PagesFor(n: nat, limit: nat): nat
    requires limit >= 1
  {
    if n <= limit then 1 else 1 + PagesFor(n - limit, limit)
  }

  /** max(1, ceil(n / limit)). */
  lemma {:induction false} PagesForIs(n: nat, limit: nat)
    requires limit >= 1
    ensures PagesFor(n, limit) == if n == 0 then 1 else (n + limit - 1) / limit
    decreases n
  {
    if n > limit {
      PagesForIs(n - limit, limit);
      var m := n + limit - 1;
      var q, r := (m - limit) / limit, (m - limit) % limit;
      assert m - limit == q * limit + r;
      MulStep(q, limit);
      DivModUnique(m, limit, q + 1, r);
    } else if n > 0 {
      DivModUnique(n + limit - 1, limit, 1, n - 1);
    }
  }

  ghost predicate AllAsk(requests: seq<Request>, table: seq<Row>, limit: nat) {
    forall k :: 0 <= k < |requests| ==> requests[k].table == table && ClampLimit(requests[k].asked) == limit
  }

  /** On a table that stays put the pages concatenate to the rows past the cursor, in as few pages as they fit in. */
  lemma {:induction false} FixedTablePages(requests: seq<Request>, table: seq<Row>, cursor: Option<Id>, limit: nat)
    requires Ascending(table) && limit >= 1 && AllAsk(requests, table, limit)
    requires |requests| >= PagesFor(|After(table, cursor)|, limit)
    ensures var pages := Follow(requests, cursor);
            Finished(pages) && Items(pages) == After(table, cursor)
              && |pages| == PagesFor(|After(table, cursor)|, limit)
    decreases |requests|
  {
    assert requests[0].table == table && ClampLimit(requests[0].asked) == limit;
    var page := Fetch(table, cursor, limit);
    var pages := Follow(requests, cursor);
    PageFacts(table, cursor, limit);
    if page.nextCursor == None {
      assert Items([page][1..]) == [];
    } else {
      NextPageResumes(table, cursor, limit);
      hide Fetch, ClampLimit;
      FixedTablePages(requests[1..], table, page.nextCursor, limit);
      assert pages[1..] == Follow(requests[1..], page.nextCursor);
      assert pages[|pages| - 1] == pages[1..][|pages| - 2];
    }
  }

  /** The whole table, from the first page. */
  lemma WholeTableIsRead(requests: seq<Request>, table: seq<Row>, limit: nat)
    requires Ascending(table) && limit >= 1 && AllAsk(requests, table, limit) && |requests| >= |table| + 1
    ensures var pages := Follow(requests, None);
            && Finished(pages) && Items(pages) == table
            && |pages| == if |table| == 0 then 1 else (|table| + limit - 1) / limit
  {
    AllBeyondNone(table);
    PagesForIs(|table|, limit);
    FewPages(|table|, limit);
    FixedTablePages(requests, table, None, limit);
  }

  lemma {:induction false} AllBeyondNone(table: seq<Row>)
    ensures After(table, None) == table
    decreases |table|
  {
    if |table| == 0 {
    } else {
      AllBeyondNone(table[1..]);
      assert table == [table[0]] + table[1..];
    }
  }

  lemma {:induction false} FewPages(n: nat, limit: nat)
    requires limit >= 1
    ensures PagesFor(n, limit) <= n + 1
    decreases n
  {
    if n <= limit {
    } else {
      FewPages(n - limit, limit);
    }
  }
}
