/** Walking the ledger page by page: newest first, each page starting strictly after the last row of
    the one before. Texts are compared by `lt`, whichever total order the database collates by. */
module Keyset {
  import opened Domain
  import opened Wallet
  import opened Timestamps
  import opened Chronology
  import opened Instants
  import opened Cursor

  /** The columns of a ledger row that listing depends on, as stored. */
  datatype Row = Row(ref: string, ownerID: string, occurredAt: string, recordedAt: string)

  /** The columns a ledger row is stored with. */
  function RowOf(t: Transaction): Row {
    Row(t.ref, t.ownerID, FormatTime(t.occurredAt), FormatTime(t.recordedAt))
  }

  /** A row as the caller gets it, its timestamps parsed. */
  datatype Listed = Listed(ref: string, ownerID: string, occurredAt: Time, recordedAt: Time)

  function CursorOf(last: Listed): string {
    Encode(FormatTime(last.recordedAt), last.ref)
  }

  datatype Response = Response(transactions: seq<Listed>, nextCursor: string)

  const DEFAULT_PAGE_SIZE := 50
  const MAX_PAGE_SIZE := 200

  function ClampPageSize(n: int): (limit: nat)
    ensures 1 <= limit <= MAX_PAGE_SIZE
    ensures 0 < n <= MAX_PAGE_SIZE ==> limit == n
  {
    if n <= 0 then DEFAULT_PAGE_SIZE else if n > MAX_PAGE_SIZE then MAX_PAGE_SIZE else n
  }

  ghost predicate StrictTotal(lt: (string, string) -> bool) {
    && (forall a :: !lt(a, a))
    && (forall a, b, c :: lt(a, b) && lt(b, c) ==> lt(a, c))
    && (forall a, b :: a == b || lt(a, b) || lt(b, a))
  }

  ghost predicate DistinctRefs(s: seq<Row>) {
    forall i, j :: 0 <= i < j < |s| ==> s[i].ref != s[j].ref
  }
  ghost predicate WellStored(r: Row) {
    r.ref != "" && Stored(r.occurredAt) && Stored(r.recordedAt)
  }

  /** Refs are present and unique, and timestamps are texts the program wrote. */
  ghost predicate WellKept(table: seq<Row>) {
    && (forall r :: r in table ==> WellStored(r))
    && DistinctRefs(table)
  }

  function KeyOf(r: Row): Position {
    Position(r.recordedAt, r.ref)
  }

  /** ORDER BY recorded_at DESC, ref. */
  predicate Before(lt: (string, string) -> bool, a: Position, b: Position) {
    lt(b.recordedAt, a.recordedAt) || (a.recordedAt == b.recordedAt && lt(a.ref, b.ref))
  }

  predicate InScope(r: Row, claims: seq<string>, userID: string) {
    IsGranted(claims, PERM_TRANSACTION_READ_ALL) || r.ownerID == userID
  }

  predicate Past(lt: (string, string) -> bool, cursor: Option<Position>, r: Row) {
    cursor.Some? ==> Before(lt, cursor.value, KeyOf(r))
  }

  /** The WHERE clause. */
  function Select(lt: (string, string) -> bool, table: seq<Row>, claims: seq<string>, userID: string, cursor: Option<Position>):
    (s: seq<Row>)
    ensures forall r :: r in s <==> r in table && InScope(r, claims, userID) && Past(lt, cursor, r)
  {
    if table == [] then []
    else
      assert table == [table[0]] + table[1..];
      (if InScope(table[0], claims, userID) && Past(lt, cursor, table[0]) then [table[0]] else [])
      + Select(lt, table[1..], claims, userID, cursor)
  }

  function InsertRow(lt: (string, string) -> bool, r: Row, s: seq<Row>): (t: seq<Row>)
    ensures forall x :: x in t <==> x == r || x in s
    ensures |t| == |s| + 1
  {
    if s == [] then [r]
    else
      assert s == [s[0]] + s[1..];
      if Before(lt, KeyOf(s[0]), KeyOf(r)) then [s[0]] + InsertRow(lt, r, s[1..]) else [r] + s
  }

  function OrderBy(lt: (string, string) -> bool, s: seq<Row>): (t: seq<Row>)
    ensures forall r :: r in t <==> r in s
    ensures |t| == |s|
  {
    if s == [] then []
    else
      assert s == [s[0]] + s[1..];
      InsertRow(lt, s[0], OrderBy(lt, s[1..]))
  }

  function Limit<T>(s: seq<T>, n: nat): seq<T> {
    if |s| <= n then s else s[..n]
  }

  function Query(lt: (string, string) -> bool, table: seq<Row>, claims: seq<string>, userID: string, cursor: Option<Position>):
    seq<Row>
  {
    OrderBy(lt, Select(lt, table, claims, userID, cursor))
  }

  /** Reading a row back: both timestamps have to parse. */
  function Scan(r: Row): Option<Listed> {
    if Parse(r.occurredAt).Some? && Parse(r.recordedAt).Some?
    then Some(Listed(r.ref, r.ownerID, InstantOf(Parse(r.occurredAt).value), InstantOf(Parse(r.recordedAt).value)))
    else None
  }

  /** A ledger row reads back exactly when its times lie in years of four digits, and then as it was. */
  lemma ScanStored(t: Transaction)
    ensures Scan(RowOf(t)) == if InReadableYears(t) then Some(Listed(t.ref, t.ownerID, t.occurredAt, t.recordedAt)) else None
  {
    ReadBack(t.occurredAt);
    ReadBack(t.recordedAt);
  }

  predicate AllScan(rows: seq<Row>) {
    forall k :: 0 <= k < |rows| ==> Scan(rows[k]).Some?
  }

  /** A page, and the position the next one starts past; none when this is the last. */
  datatype Page = Page(rows: seq<Row>, next: Option<Position>)

  /** At most a page of rows, and the key of the last of them when the query found one row more. */
  function PageOf(
    lt: (string, string) -> bool, table: seq<Row>, claims: seq<string>, userID: string, pageSize: int,
    position: Option<Position>): Page
  {
    var limit := ClampPageSize(pageSize);
    var found := Query(lt, table, claims, userID, position);
    if |found| <= limit then Page(found, None) else Page(found[..limit], Some(KeyOf(found[limit - 1])))
  }

  /** The position a cursor stands for; no cursor starts from the top. */
  function PositionOf(cursor: string): Option<Position> {
    if cursor == "" then None else Decode(cursor)
  }

  /** The rows and what they were scanned to. */
  ghost predicate Shows(transactions: seq<Listed>, rows: seq<Row>) {
    Matches(Scan, transactions, rows)
  }

  ghost predicate Matches<A, B>(f: A -> Option<B>, outs: seq<B>, ins: seq<A>) {
    |outs| == |ins| && forall k :: 0 <= k < |ins| ==> f(ins[k]) == Some(outs[k])
  }

  predicate RefTaken(table: seq<Row>, ref: string) {
    exists i :: 0 <= i < |table| && table[i].ref == ref
  }

  lemma ShowsLimited(transactions: seq<Listed>, all: seq<Row>, limit: nat)
    requires Shows(transactions, Limit(all, limit + 1))
    ensures Shows(Limit(transactions, limit), Limit(all, limit))
    ensures |transactions| > limit <==> |all| > limit
  {
  }

  /** At most a page of rows, and a cursor for the last of them when there are more. */
  ghost predicate IsTrimmed(response: Response, scanned: seq<Listed>, limit: nat)
    requires limit > 0
  {
    && response.transactions == Limit(scanned, limit)
    && response.nextCursor
       == if |scanned| <= limit then "" else CursorOf(response.transactions[|response.transactions| - 1])
  }

  /** Trimmed to a page, with a cursor for the row it ends in, the rows that came back answer the page. */
  lemma TrimAnswers(found: seq<Listed>, all: seq<Row>, limit: nat, page: Page, response: Response)
    requires limit > 0 && Shows(found, Limit(all, limit + 1)) && IsTrimmed(response, found, limit)
    requires page.rows == Limit(all, limit) && (page.next.Some? <==> |all| > limit)
    ensures Answers(response, page)
  {
    ShowsLimited(found, all, limit);
  }

  lemma PageTrims(
    lt: (string, string) -> bool, table: seq<Row>, claims: seq<string>, userID: string, pageSize: int,
    position: Option<Position>)
    ensures var all, limit := Query(lt, table, claims, userID, position), ClampPageSize(pageSize);
            var page := PageOf(lt, table, claims, userID, pageSize, position);
            page.rows == Limit(all, limit) && (page.next.Some? <==> |all| > limit)
  {
  }

  lemma DistinctAppend(table: seq<Row>, r: Row)
    requires DistinctRefs(table) && !RefTaken(table, r.ref)
    ensures DistinctRefs(table + [r])
  {
    var more := table + [r];
    forall i, j | 0 <= i < j < |more|
      ensures more[i].ref != more[j].ref
    {
      assert table[i].ref != r.ref;
    }
  }

  lemma WellKeptAppend(table: seq<Row>, r: Row)
    requires WellKept(table) && !RefTaken(table, r.ref) && WellStored(r)
    ensures WellKept(table + [r])
  {
    DistinctAppend(table, r);
    forall x | x in table + [r]
      ensures WellStored(x)
    {
      if x !in table {
        assert x == r;
      }
    }
  }

  class TransactionTable {
    var rows: seq<Row>

    constructor ()
      ensures rows == []
    {
      rows := [];
    }

    /** INSERT .. ON CONFLICT (ref) DO NOTHING. */
    method Create(r: Row) returns (created: bool)
      requires WellKept(rows) && WellStored(r)
      modifies this
      ensures WellKept(rows)
      ensures created <==> !RefTaken(old(rows), r.ref)
      ensures rows == if created then old(rows) + [r] else old(rows)
    {
      created := !RefTaken(rows, r.ref);
      if created {
        WellKeptAppend(rows, r);
        rows := rows + [r];
      }
    }

    /** Parses the timestamps of the rows that came back; one that does not parse fails them all. */
    method ScanRows(found: seq<Row>) returns (transactions: Option<seq<Listed>>)
      ensures transactions.Some? <==> AllScan(found)
      ensures transactions.Some? ==> Shows(transactions.value, found)
    {
      var scanned: seq<Listed> := [];
      for i := 0 to |found|
        invariant Shows(scanned, found[..i])
      {
        var transaction := Scan(found[i]);
        if transaction.None? {
          return None;
        }
        ShowsOneMore(scanned, found, i, transaction.value);
        scanned := scanned + [transaction.value];
      }
      assert found[..|found|] == found;
      return Some(scanned);
    }

    /** Runs the query for one row more than the page holds, scans what comes back, trims the extra
        row and turns the last one kept into the cursor. */
    method List(lt: (string, string) -> bool, claims: seq<string>, userID: string, pageSize: int, cursor: string)
      returns (r: Result<Response>)
      ensures r.Ok? <==> Asked(userID, pageSize, cursor) && AllScan(Fetched(lt, rows, claims, userID, pageSize, PositionOf(cursor)))
      ensures r.Ok? ==> Replied(lt, rows, claims, userID, pageSize, cursor, r.value)
      ensures r.Ok? ==> Sized(r.value, pageSize) && Scoped(r.value, claims, userID)
      ensures r.Err? ==> if Asked(userID, pageSize, cursor) then r.error == Unreadable else r.error.Invalid?
    {
      var reasons := [];
      if userID == "" {
        reasons := reasons + ["UserID is required"];
      }
      if pageSize < 0 {
        reasons := reasons + ["PageSize must be >= 0"];
      }
      if reasons != [] {
        return Err(Invalid("List", reasons));
      }
      var position: Option<Position> := None;
      if cursor != "" {
        position := Decode(cursor);
        if position.None? {
          return Err(Invalid("List", ["malformed cursor"]));
        }
      }
      r := ReadPage(lt, claims, userID, pageSize, position);
      if r.Ok? {
        ReplySized(lt, rows, claims, userID, pageSize, PositionOf(cursor), r.value);
        ReplyScoped(lt, rows, claims, userID, pageSize, PositionOf(cursor), r.value);
      }
    }

    method ReadPage(
      lt: (string, string) -> bool, claims: seq<string>, userID: string, pageSize: int, position: Option<Position>)
      returns (r: Result<Response>)
      ensures r.Ok? <==> AllScan(Fetched(lt, rows, claims, userID, pageSize, position))
      ensures r.Ok? ==> Answers(r.value, PageOf(lt, rows, claims, userID, pageSize, position))
      ensures r.Err? ==> r.error == Unreadable
    {
      var limit := ClampPageSize(pageSize);
      var found := Limit(Query(lt, rows, claims, userID, position), limit + 1);
      assert found == Fetched(lt, rows, claims, userID, pageSize, position);
      var scanned := ScanRows(found);
      if scanned.None? {
        return Err(Unreadable);
      }
      var response := Trim(scanned.value, limit);
      PageTrims(lt, rows, claims, userID, pageSize, position);
      TrimAnswers(scanned.value, Query(lt, rows, claims, userID, position), limit,
                  PageOf(lt, rows, claims, userID, pageSize, position), response);
      return Ok(response);
    }

    /** The extra row means there is a further page; the last row kept becomes the cursor. */
    method Trim(scanned: seq<Listed>, limit: nat) returns (response: Response)
      requires limit > 0
      ensures IsTrimmed(response, scanned, limit)
    {
      response := Response(scanned, "");
      if |scanned| > limit {
        var transactions := scanned[..limit];
        var last := transactions[|transactions| - 1];
        response := Response(transactions, CursorOf(last));
      }
    }
  }

  /** A page is as long as was asked, 50 rows when nothing was and never more than 200; only the last may be
      shorter. */
  ghost predicate Sized(response: Response, pageSize: int) {
    var size := if pageSize == 0 then 50 else if pageSize > 200 then 200 else pageSize;
    |response.transactions| <= size && (response.nextCursor != "" ==> |response.transactions| == size)
  }

  /** Every row of a reply is the caller's own, unless they read everybody's. */
  ghost predicate Scoped(response: Response, claims: seq<string>, userID: string) {
    forall k :: 0 <= k < |response.transactions| ==> MaySee(claims, userID, response.transactions[k].ownerID)
  }

  lemma ReplySized(
    lt: (string, string) -> bool, table: seq<Row>, claims: seq<string>, userID: string, pageSize: int,
    position: Option<Position>, response: Response)
    requires pageSize >= 0 && Answers(response, PageOf(lt, table, claims, userID, pageSize, position))
    ensures Sized(response, pageSize)
  {
  }

  lemma ReplyScoped(
    lt: (string, string) -> bool, table: seq<Row>, claims: seq<string>, userID: string, pageSize: int,
    position: Option<Position>, response: Response)
    requires Answers(response, PageOf(lt, table, claims, userID, pageSize, position))
    ensures Scoped(response, claims, userID)
  {
    var page := PageOf(lt, table, claims, userID, pageSize, position);
    forall k | 0 <= k < |page.rows|
      ensures MaySee(claims, userID, response.transactions[k].ownerID)
    {
      assert page.rows[k] in Query(lt, table, claims, userID, position);
      assert Scan(page.rows[k]) == Some(response.transactions[k]);
    }
  }

  lemma ShowsOneMore(scanned: seq<Listed>, found: seq<Row>, i: nat, transaction: Listed)
    requires i < |found| && Shows(scanned, found[..i]) && Scan(found[i]) == Some(transaction)
    ensures Shows(scanned + [transaction], found[..i + 1])
  {
    forall k | 0 <= k < i + 1
      ensures Scan(found[..i + 1][k]) == Some((scanned + [transaction])[k])
    {
      assert k < i ==> found[..i][k] == found[k];
    }
  }

  /** The request is one that reaches the table. */
  predicate Asked(userID: string, pageSize: int, cursor: string) {
    userID != "" && pageSize >= 0 && (cursor != "" ==> Decode(cursor).Some?)
  }

  /** The rows a request reads: a page, and one more to see whether there is another. */
  function Fetched(
    lt: (string, string) -> bool, table: seq<Row>, claims: seq<string>, userID: string, pageSize: int,
    position: Option<Position>): seq<Row>
  {
    Limit(Query(lt, table, claims, userID, position), ClampPageSize(pageSize) + 1)
  }

  /** A request of `List` that was answered, and its reply. */
  ghost predicate Replied(
    lt: (string, string) -> bool, table: seq<Row>, claims: seq<string>, userID: string, pageSize: int, cursor: string,
    response: Response)
  {
    && Asked(userID, pageSize, cursor)
    && AllScan(Fetched(lt, table, claims, userID, pageSize, PositionOf(cursor)))
    && Answers(response, PageOf(lt, table, claims, userID, pageSize, PositionOf(cursor)))
  }

  /** The cursor is rebuilt from the scanned row, and names the stored one. */
  lemma CursorNamesRow(row: Row, last: Listed)
    requires row.ref != "" && Stored(row.recordedAt) && Scan(row) == Some(last)
    ensures PositionOf(CursorOf(last)) == Some(KeyOf(row))
  {
    RebuiltCursor(row.recordedAt, row.ref);
  }

  // ---------------------------------------------------------------- the order

  ghost predicate Ordered(lt: (string, string) -> bool, s: seq<Row>) {
    forall i, j :: 0 <= i < j < |s| ==> Before(lt, KeyOf(s[i]), KeyOf(s[j]))
  }

  lemma BeforeIsStrictTotal(lt: (string, string) -> bool)
    requires StrictTotal(lt)
    ensures forall a: Position :: !Before(lt, a, a)
    ensures forall a: Position, b: Position, c: Position :: Before(lt, a, b) && Before(lt, b, c) ==> Before(lt, a, c)
    ensures forall a: Position, b: Position :: a == b || Before(lt, a, b) || Before(lt, b, a)
  {
  }

  lemma {:induction false} InsertRowOrdered(lt: (string, string) -> bool, r: Row, s: seq<Row>)
    requires StrictTotal(lt) && Ordered(lt, s) && forall x :: x in s ==> x.ref != r.ref
    ensures Ordered(lt, InsertRow(lt, r, s))
  {
    BeforeIsStrictTotal(lt);
    if s != [] {
      if Before(lt, KeyOf(s[0]), KeyOf(r)) {
        InsertRowOrdered(lt, r, s[1..]);
        var rest := InsertRow(lt, r, s[1..]);
        forall j | 0 <= j < |rest|
          ensures Before(lt, KeyOf(s[0]), KeyOf(rest[j]))
        {
          assert rest[j] in rest;
        }
      } else {
        assert s[0].ref != r.ref;
        assert Before(lt, KeyOf(r), KeyOf(s[0]));
      }
    }
  }

  lemma {:induction false} OrderByOrdered(lt: (string, string) -> bool, s: seq<Row>)
    requires StrictTotal(lt) && DistinctRefs(s)
    ensures Ordered(lt, OrderBy(lt, s))
  {
    if s != [] {
      OrderByOrdered(lt, s[1..]);
      InsertRowOrdered(lt, s[0], OrderBy(lt, s[1..]));
    }
  }

  lemma {:induction false} SelectDistinct(
    lt: (string, string) -> bool, table: seq<Row>, claims: seq<string>, userID: string, cursor: Option<Position>)
    requires DistinctRefs(table)
    ensures DistinctRefs(Select(lt, table, claims, userID, cursor))
    ensures |Select(lt, table, claims, userID, cursor)| <= |table|
  {
    if table != [] {
      SelectDistinct(lt, table[1..], claims, userID, cursor);
      var rest := Select(lt, table[1..], claims, userID, cursor);
      forall j | 0 <= j < |rest|
        ensures rest[j].ref != table[0].ref
      {
        assert rest[j] in table[1..];
      }
    }
  }

  /** Two ordered lists of the same rows are the same list. */
  lemma {:induction false} OrderedUnique(lt: (string, string) -> bool, t: seq<Row>, u: seq<Row>)
    requires StrictTotal(lt) && Ordered(lt, t) && Ordered(lt, u) && forall r :: r in t <==> r in u
    ensures t == u
  {
    BeforeIsStrictTotal(lt);
    assert u == [] || u[0] in u;
    if t != [] {
      assert t[0] in u && u[0] in t;
      assert t[0] == u[0];
      OrderedTail(lt, t);
      OrderedTail(lt, u);
      OrderedUnique(lt, t[1..], u[1..]);
      assert t == [t[0]] + t[1..] && u == [u[0]] + u[1..];
    }
  }

  lemma OrderedTail(lt: (string, string) -> bool, t: seq<Row>)
    requires StrictTotal(lt) && Ordered(lt, t) && t != []
    ensures forall r :: r in t[1..] <==> r in t && r != t[0]
  {
    BeforeIsStrictTotal(lt);
    assert t == [t[0]] + t[1..];
  }

  // ---------------------------------------------------------------- walking

  /** A walk by one caller: each page is read from the table of its own moment, past the position the
      page before gave; rows may be added in between, and pages may differ in size. */
  ghost predicate Walk(
    lt: (string, string) -> bool, tables: seq<seq<Row>>, claims: seq<string>, userID: string,
    sizes: seq<int>, pages: seq<Page>)
  {
    && |tables| == |sizes| == |pages|
    && (forall i :: 0 <= i < |tables| ==> DistinctRefs(tables[i]))
    && (forall i :: 0 <= i < |tables| - 1 ==> tables[i] <= tables[i + 1])
    && (forall i :: 0 <= i < |pages| ==> pages[i] == PageOf(lt, tables[i], claims, userID, sizes[i], PositionFor(pages, i)))
    && (forall i :: 0 <= i < |pages| - 1 ==> pages[i].next.Some?)
  }

  function PositionFor(pages: seq<Page>, i: nat): Option<Position>
    requires i <= |pages|
  {
    if i == 0 then None else pages[i - 1].next
  }

  function Flat(pages: seq<Page>): seq<Row> {
    if pages == [] then [] else Flat(pages[..|pages| - 1]) + pages[|pages| - 1].rows
  }

  lemma Trimming(lt: (string, string) -> bool, found: seq<Row>, limit: nat)
    requires Ordered(lt, found) && 0 < limit < |found|
    ensures Ordered(lt, found[..limit])
    ensures forall r :: r in found[..limit] ==> r in found
    ensures forall r :: r in found ==> r in found[..limit] || Before(lt, KeyOf(found[limit - 1]), KeyOf(r))
  {
    forall r | r in found
      ensures r in found[..limit] || Before(lt, KeyOf(found[limit - 1]), KeyOf(r))
    {
      var k :| 0 <= k < |found| && found[k] == r;
      if k < limit {
        assert found[..limit][k] == r;
      }
    }
  }

  lemma QueryOrdered(lt: (string, string) -> bool, table: seq<Row>, claims: seq<string>, userID: string, position: Option<Position>)
    requires StrictTotal(lt) && DistinctRefs(table)
    ensures Ordered(lt, Query(lt, table, claims, userID, position))
    ensures |Query(lt, table, claims, userID, position)| <= |table|
  {
    SelectDistinct(lt, table, claims, userID, position);
    OrderByOrdered(lt, Select(lt, table, claims, userID, position));
  }

  /** The caller may see the row: it is theirs, or they read every transaction. */
  ghost predicate MaySee(claims: seq<string>, userID: string, ownerID: string) {
    PERM_TRANSACTION_READ_ALL in claims || ownerID == userID
  }

  /** The visible rows past a position: older, or as old under a later ref. */
  ghost predicate Wanted(
    lt: (string, string) -> bool, table: seq<Row>, claims: seq<string>, userID: string, position: Option<Position>, r: Row)
  {
    && r in table && MaySee(claims, userID, r.ownerID)
    && (position.Some? ==>
          || lt(r.recordedAt, position.value.recordedAt)
          || (r.recordedAt == position.value.recordedAt && lt(position.value.ref, r.ref)))
  }

  /** The first rows past the position, in order, and the key of the last of them whenever more are
      left. */
  ghost predicate FirstPast(
    lt: (string, string) -> bool, table: seq<Row>, claims: seq<string>, userID: string, position: Option<Position>,
    page: Page)
  {
    && Ordered(lt, page.rows)
    && (forall r :: r in page.rows ==> Wanted(lt, table, claims, userID, position, r))
    && (page.next.None? ==>
          forall r :: Wanted(lt, table, claims, userID, position, r) ==> r in page.rows)
    && (page.next.Some? ==>
          && page.rows != [] && page.next == Some(KeyOf(page.rows[|page.rows| - 1]))
          && forall r :: Wanted(lt, table, claims, userID, position, r) ==>
               r in page.rows || Past(lt, page.next, r))
  }

  lemma PageFacts(
    lt: (string, string) -> bool, table: seq<Row>, claims: seq<string>, userID: string, pageSize: int,
    position: Option<Position>)
    requires StrictTotal(lt) && DistinctRefs(table)
    ensures FirstPast(lt, table, claims, userID, position, PageOf(lt, table, claims, userID, pageSize, position))
  {
    var found := Query(lt, table, claims, userID, position);
    QueryOrdered(lt, table, claims, userID, position);
    WantedFound(lt, table, claims, userID, position);
    if |found| > ClampPageSize(pageSize) {
      TrimmedFirstPast(lt, table, claims, userID, position, found, ClampPageSize(pageSize));
    }
  }

  lemma WantedFound(
    lt: (string, string) -> bool, table: seq<Row>, claims: seq<string>, userID: string, position: Option<Position>)
    ensures forall r :: r in Query(lt, table, claims, userID, position) <==> Wanted(lt, table, claims, userID, position, r)
  {
  }

  lemma TrimmedFirstPast(
    lt: (string, string) -> bool, table: seq<Row>, claims: seq<string>, userID: string, position: Option<Position>,
    found: seq<Row>, limit: nat)
    requires Ordered(lt, found) && 0 < limit < |found|
    requires forall r :: r in found <==> Wanted(lt, table, claims, userID, position, r)
    ensures FirstPast(lt, table, claims, userID, position, Page(found[..limit], Some(KeyOf(found[limit - 1]))))
  {
    Trimming(lt, found, limit);
  }

  /** What `List` promises about its reply. */
  ghost predicate Answers(response: Response, page: Page) {
    && Shows(response.transactions, page.rows)
    && (page.next.Some? ==> page.rows != [])
    && response.nextCursor == if page.next.None? then "" else CursorOf(response.transactions[|response.transactions| - 1])
  }

  lemma CursorOfPage(response: Response, page: Page)
    requires Answers(response, page)
    requires page.next.Some? ==>
               var last := page.rows[|page.rows| - 1];
               page.next == Some(KeyOf(last)) && last.ref != "" && Stored(last.recordedAt)
    ensures PositionOf(response.nextCursor) == page.next
  {
    if page.next.Some? {
      var last := |page.rows| - 1;
      CursorNamesRow(page.rows[last], response.transactions[last]);
    }
  }

  /** A reply whose cursor is echoed goes on past the last row it showed, and one without a cursor was
      the last. */
  lemma EchoedCursor(
    lt: (string, string) -> bool, table: seq<Row>, claims: seq<string>, userID: string, pageSize: int,
    position: Option<Position>, response: Response)
    requires StrictTotal(lt) && WellKept(table)
    requires Answers(response, PageOf(lt, table, claims, userID, pageSize, position))
    ensures PositionOf(response.nextCursor) == PageOf(lt, table, claims, userID, pageSize, position).next
  {
    var page := PageOf(lt, table, claims, userID, pageSize, position);
    PageFacts(lt, table, claims, userID, pageSize, position);
    if page.next.Some? {
      assert page.rows[|page.rows| - 1] in page.rows;
    }
    CursorOfPage(response, page);
  }

  /** What a walk has returned so far: ordered, hence without repetition; visible; and up to its
      position nothing the first table held is missing. */
  ghost predicate Covered(
    lt: (string, string) -> bool, first: seq<Row>, latest: seq<Row>, claims: seq<string>, userID: string,
    flat: seq<Row>, position: Option<Position>)
  {
    && Ordered(lt, flat)
    && (forall r :: r in flat ==> r in latest && MaySee(claims, userID, r.ownerID))
    && (position.Some? ==> flat != [] && position == Some(KeyOf(flat[|flat| - 1])))
    && (forall r :: Wanted(lt, first, claims, userID, None, r) ==>
          r in flat || (position.Some? && Past(lt, position, r)))
  }

  ghost predicate WalkedOk(lt: (string, string) -> bool, tables: seq<seq<Row>>, claims: seq<string>, userID: string, pages: seq<Page>)
    requires 0 < |pages| <= |tables|
  {
    Covered(lt, tables[0], tables[|pages| - 1], claims, userID, Flat(pages), PositionFor(pages, |pages|))
  }

  lemma {:induction false} TablesGrow(tables: seq<seq<Row>>, i: nat, j: nat)
    requires i <= j < |tables| && forall k :: 0 <= k < |tables| - 1 ==> tables[k] <= tables[k + 1]
    ensures tables[i] <= tables[j]
  {
    if i < j {
      TablesGrow(tables, i, j - 1);
    }
  }

  lemma CoveredFirst(lt: (string, string) -> bool, table: seq<Row>, claims: seq<string>, userID: string, page: Page)
    requires FirstPast(lt, table, claims, userID, None, page)
    ensures Covered(lt, table, table, claims, userID, [] + page.rows, page.next)
  {
    assert [] + page.rows == page.rows;
  }

  /** A page carries the coverage on from the position it was asked for. */
  lemma CoveredNext(
    lt: (string, string) -> bool, first: seq<Row>, latest: seq<Row>, table: seq<Row>, claims: seq<string>,
    userID: string, flat: seq<Row>, position: Option<Position>, page: Page)
    requires StrictTotal(lt) && first <= table && latest <= table && position.Some?
    requires Covered(lt, first, latest, claims, userID, flat, position)
    requires FirstPast(lt, table, claims, userID, position, page)
    ensures Covered(lt, first, table, claims, userID, flat + page.rows, page.next)
  {
    FlatOrdered(lt, flat, page.rows, position);
    NothingMissed(lt, first, table, claims, userID, flat, position, page);
  }

  /** What a page adds to the rows returned before it closes the gap up to the page's own end. */
  lemma NothingMissed(
    lt: (string, string) -> bool, first: seq<Row>, table: seq<Row>, claims: seq<string>, userID: string,
    flat: seq<Row>, position: Option<Position>, page: Page)
    requires first <= table && FirstPast(lt, table, claims, userID, position, page)
    requires forall r :: Wanted(lt, first, claims, userID, None, r) ==> r in flat || Past(lt, position, r)
    ensures forall r :: Wanted(lt, first, claims, userID, None, r) ==>
              r in flat + page.rows || (page.next.Some? && Past(lt, page.next, r))
  {
    forall r | Wanted(lt, first, claims, userID, None, r)
      ensures r in flat + page.rows || (page.next.Some? && Past(lt, page.next, r))
    {
      if r !in flat {
        assert Wanted(lt, table, claims, userID, position, r);
      }
    }
  }

  lemma FlatOrdered(lt: (string, string) -> bool, flat: seq<Row>, rows: seq<Row>, position: Option<Position>)
    requires StrictTotal(lt) && Ordered(lt, flat) && Ordered(lt, rows)
    requires flat != [] ==> position == Some(KeyOf(flat[|flat| - 1]))
    requires forall r :: r in rows ==> Past(lt, position, r)
    ensures Ordered(lt, flat + rows)
  {
    BeforeIsStrictTotal(lt);
    forall i, j | 0 <= i < |flat| && 0 <= j < |rows|
      ensures Before(lt, KeyOf(flat[i]), KeyOf(rows[j]))
    {
      assert rows[j] in rows;
      assert i == |flat| - 1 || Before(lt, KeyOf(flat[i]), KeyOf(flat[|flat| - 1]));
    }
  }

  /** What the walk says of its page n. */
  lemma WalkedPage(
    lt: (string, string) -> bool, tables: seq<seq<Row>>, claims: seq<string>, userID: string,
    sizes: seq<int>, pages: seq<Page>, n: nat)
    requires StrictTotal(lt) && Walk(lt, tables, claims, userID, sizes, pages) && n < |pages|
    ensures FirstPast(lt, tables[n], claims, userID, PositionFor(pages, n), pages[n])
    ensures tables[0] <= tables[n] && (n > 0 ==> tables[n - 1] <= tables[n] && PositionFor(pages, n).Some?)
  {
    PageFacts(lt, tables[n], claims, userID, sizes[n], PositionFor(pages, n));
    TablesGrow(tables, 0, n);
  }

  lemma FlatStep(pages: seq<Page>, n: nat)
    requires n < |pages|
    ensures Flat(pages[..n + 1]) == Flat(pages[..n]) + pages[n].rows
  {
    assert pages[..n + 1][..n] == pages[..n];
  }

  lemma {:induction false} Walked(
    lt: (string, string) -> bool, tables: seq<seq<Row>>, claims: seq<string>, userID: string,
    sizes: seq<int>, pages: seq<Page>, n: nat)
    requires StrictTotal(lt) && Walk(lt, tables, claims, userID, sizes, pages) && n < |pages|
    ensures WalkedOk(lt, tables, claims, userID, pages[..n + 1])
  {
    WalkedPage(lt, tables, claims, userID, sizes, pages, n);
    FlatStep(pages, n);
    if n == 0 {
      CoveredFirst(lt, tables[0], claims, userID, pages[0]);
    } else {
      Walked(lt, tables, claims, userID, sizes, pages, n - 1);
      CoveredNext(lt, tables[0], tables[n - 1], tables[n], claims, userID, Flat(pages[..n]), PositionFor(pages, n), pages[n]);
    }
  }

  /** The walk under concurrent inserts: its pages, end to end, are strictly ordered, so no row comes
      twice; every row returned is visible to the caller; and once a page comes without a cursor,
      every visible row that was there at the start has been returned. */
  lemma WalkIsComplete(
    lt: (string, string) -> bool, tables: seq<seq<Row>>, claims: seq<string>, userID: string,
    sizes: seq<int>, pages: seq<Page>)
    requires StrictTotal(lt) && Walk(lt, tables, claims, userID, sizes, pages) && pages != []
    ensures Ordered(lt, Flat(pages))
    ensures forall i, j :: 0 <= i < j < |Flat(pages)| ==> Flat(pages)[i] != Flat(pages)[j]
    ensures forall r :: r in Flat(pages) ==> r in tables[|tables| - 1] && MaySee(claims, userID, r.ownerID)
    ensures pages[|pages| - 1].next.None? ==>
              forall r :: r in tables[0] && MaySee(claims, userID, r.ownerID) ==> r in Flat(pages)
  {
    Walked(lt, tables, claims, userID, sizes, pages, |pages| - 1);
    assert pages[..|pages|] == pages;
    OrderedDistinct(lt, Flat(pages));
    assert forall r :: r in tables[0] && MaySee(claims, userID, r.ownerID) ==> Wanted(lt, tables[0], claims, userID, None, r);
  }

  lemma OrderedDistinct(lt: (string, string) -> bool, s: seq<Row>)
    requires StrictTotal(lt) && Ordered(lt, s)
    ensures forall i, j :: 0 <= i < j < |s| ==> s[i] != s[j]
  {
  }

  lemma {:induction false} FlatLength(pages: seq<Page>)
    requires forall i :: 0 <= i < |pages| ==> pages[i].rows != []
    ensures |Flat(pages)| >= |pages|
  {
    if pages != [] {
      FlatLength(pages[..|pages| - 1]);
    }
  }

  ghost predicate FixedWalk(
    lt: (string, string) -> bool, table: seq<Row>, tables: seq<seq<Row>>, claims: seq<string>, userID: string,
    sizes: seq<int>, pages: seq<Page>)
  {
    Walk(lt, tables, claims, userID, sizes, pages) && pages != [] && forall i :: 0 <= i < |tables| ==> tables[i] == table
  }

  /** Walking a table that does not change: when the walk has ended, its pages put end to end are
      exactly the sorted, scope-filtered list. */
  lemma FixedWalkIsTheList(
    lt: (string, string) -> bool, table: seq<Row>, tables: seq<seq<Row>>, claims: seq<string>, userID: string,
    sizes: seq<int>, pages: seq<Page>)
    requires StrictTotal(lt) && FixedWalk(lt, table, tables, claims, userID, sizes, pages)
    requires pages[|pages| - 1].next.None?
    ensures Flat(pages) == Query(lt, table, claims, userID, None)
  {
    assert tables[0] == table && tables[|tables| - 1] == table;
    WalkIsComplete(lt, tables, claims, userID, sizes, pages);
    QueryOrdered(lt, table, claims, userID, None);
    OrderedUnique(lt, Flat(pages), Query(lt, table, claims, userID, None));
  }

  /** And it does end: every page but the last brings a row, so there is at most one page more than
      there are visible rows. */
  lemma FixedWalkEnds(
    lt: (string, string) -> bool, table: seq<Row>, tables: seq<seq<Row>>, claims: seq<string>, userID: string,
    sizes: seq<int>, pages: seq<Page>)
    requires StrictTotal(lt) && FixedWalk(lt, table, tables, claims, userID, sizes, pages)
    ensures |pages| <= |Query(lt, table, claims, userID, None)| + 1
  {
    var n := |pages| - 1;
    var earlier := pages[..n];
    forall i | 0 <= i < n
      ensures earlier[i].rows != []
    {
      PageFacts(lt, tables[i], claims, userID, sizes[i], PositionFor(pages, i));
    }
    FlatLength(earlier);
    if n > 0 {
      Walked(lt, tables, claims, userID, sizes, pages, n - 1);
      assert tables[n - 1] == table && tables[0] == table;
      QueryOrdered(lt, table, claims, userID, None);
      NoMoreThan(lt, Flat(earlier), Query(lt, table, claims, userID, None));
    }
  }

  lemma {:induction false} NoMoreThan(lt: (string, string) -> bool, t: seq<Row>, u: seq<Row>)
    requires StrictTotal(lt) && Ordered(lt, t) && Ordered(lt, u) && forall r :: r in t ==> r in u
    ensures |t| <= |u|
    decreases |u|
  {
    BeforeIsStrictTotal(lt);
    if t != [] {
      assert t[0] in u;
      OrderedTail(lt, t);
      OrderedTail(lt, u);
      if t[0] == u[0] {
        NoMoreThan(lt, t[1..], u[1..]);
      } else {
        assert Before(lt, KeyOf(u[0]), KeyOf(t[0]));
        assert forall r :: r in t ==> r == t[0] || Before(lt, KeyOf(t[0]), KeyOf(r));
        NoMoreThan(lt, t, u[1..]);
      }
    }
  }

  // ---------------------------------------------------------------- following the cursors

  function CursorFor(replies: seq<Response>, i: nat): string
    requires i <= |replies|
  {
    if i == 0 then "" else replies[i - 1].nextCursor
  }

  /** Request i of a client that follows the cursors: it is sent with the cursor of the reply before
      it, the first with none, and is answered from the table of its own moment. */
  ghost predicate ReplyAt(
    lt: (string, string) -> bool, tables: seq<seq<Row>>, claims: seq<string>, userID: string,
    sizes: seq<int>, replies: seq<Response>, i: nat)
    requires |tables| == |sizes| == |replies|
  {
    i < |replies| ==>
      && WellKept(tables[i])
      && Replied(lt, tables[i], claims, userID, sizes[i], CursorFor(replies, i), replies[i])
      && (i + 1 < |replies| ==> tables[i] <= tables[i + 1] && replies[i].nextCursor != "")
  }

  /** A client that follows the cursors while rows may be added in between; pages may differ in size. */
  ghost predicate Chain(
    lt: (string, string) -> bool, tables: seq<seq<Row>>, claims: seq<string>, userID: string,
    sizes: seq<int>, replies: seq<Response>)
  {
    && |tables| == |sizes| == |replies|
    && forall i: nat {:trigger ReplyAt(lt, tables, claims, userID, sizes, replies, i)} ::
         ReplyAt(lt, tables, claims, userID, sizes, replies, i)
  }

  function PagesOf(
    lt: (string, string) -> bool, tables: seq<seq<Row>>, claims: seq<string>, userID: string,
    sizes: seq<int>, replies: seq<Response>): (pages: seq<Page>)
    requires |tables| == |sizes| == |replies|
    ensures |pages| == |replies|
  {
    seq(|replies|, i requires 0 <= i < |replies| =>
      PageOf(lt, tables[i], claims, userID, sizes[i], PositionOf(CursorFor(replies, i))))
  }

  /** The reply shows the page, and says whether there is another. */
  ghost predicate Presents(response: Response, page: Page) {
    && Shows(response.transactions, page.rows)
    && (response.nextCursor == "" <==> page.next.None?)
    && PositionOf(response.nextCursor) == page.next
  }

  lemma RepliesPresent(
    lt: (string, string) -> bool, tables: seq<seq<Row>>, claims: seq<string>, userID: string,
    sizes: seq<int>, replies: seq<Response>, i: nat)
    requires StrictTotal(lt) && |tables| == |sizes| == |replies| && i < |replies|
    requires ReplyAt(lt, tables, claims, userID, sizes, replies, i)
    ensures Presents(replies[i], PagesOf(lt, tables, claims, userID, sizes, replies)[i])
  {
    EchoedCursor(lt, tables[i], claims, userID, sizes[i], PositionOf(CursorFor(replies, i)), replies[i]);
  }

  ghost predicate AllPresent(replies: seq<Response>, pages: seq<Page>) {
    |replies| == |pages| &&
    forall i {:trigger Presents(replies[i], pages[i])} :: 0 <= i < |pages| ==> Presents(replies[i], pages[i])
  }

  lemma ChainPresents(
    lt: (string, string) -> bool, tables: seq<seq<Row>>, claims: seq<string>, userID: string,
    sizes: seq<int>, replies: seq<Response>)
    requires StrictTotal(lt) && Chain(lt, tables, claims, userID, sizes, replies)
    ensures AllPresent(replies, PagesOf(lt, tables, claims, userID, sizes, replies))
  {
    forall i | 0 <= i < |replies|
      ensures Presents(replies[i], PagesOf(lt, tables, claims, userID, sizes, replies)[i])
    {
      assert ReplyAt(lt, tables, claims, userID, sizes, replies, i);
      RepliesPresent(lt, tables, claims, userID, sizes, replies, i);
    }
  }

  /** The position a request starts from is the one the page before ended at. */
  lemma PositionsAgree(replies: seq<Response>, pages: seq<Page>, i: nat)
    requires AllPresent(replies, pages) && i <= |pages|
    ensures PositionOf(CursorFor(replies, i)) == PositionFor(pages, i)
  {
    if i > 0 {
      assert Presents(replies[i - 1], pages[i - 1]);
    }
  }

  lemma ChainTables(
    lt: (string, string) -> bool, tables: seq<seq<Row>>, claims: seq<string>, userID: string,
    sizes: seq<int>, replies: seq<Response>)
    requires Chain(lt, tables, claims, userID, sizes, replies)
    ensures forall i :: 0 <= i < |tables| ==> DistinctRefs(tables[i])
    ensures forall i :: 0 <= i < |tables| - 1 ==> tables[i] <= tables[i + 1]
  {
    forall i | 0 <= i < |tables|
      ensures DistinctRefs(tables[i]) && (i < |tables| - 1 ==> tables[i] <= tables[i + 1])
    {
      assert ReplyAt(lt, tables, claims, userID, sizes, replies, i);
    }
  }

  lemma ChainGoesOn(
    lt: (string, string) -> bool, tables: seq<seq<Row>>, claims: seq<string>, userID: string,
    sizes: seq<int>, replies: seq<Response>, i: nat)
    requires Chain(lt, tables, claims, userID, sizes, replies) && i + 1 < |replies|
    ensures replies[i].nextCursor != ""
  {
    assert ReplyAt(lt, tables, claims, userID, sizes, replies, i);
  }

  lemma PagesAt(
    lt: (string, string) -> bool, tables: seq<seq<Row>>, claims: seq<string>, userID: string,
    sizes: seq<int>, replies: seq<Response>, i: nat)
    requires |tables| == |sizes| == |replies| && i < |replies|
    requires AllPresent(replies, PagesOf(lt, tables, claims, userID, sizes, replies))
    ensures var pages := PagesOf(lt, tables, claims, userID, sizes, replies);
            && pages[i] == PageOf(lt, tables[i], claims, userID, sizes[i], PositionFor(pages, i))
            && (replies[i].nextCursor != "" ==> pages[i].next.Some?)
  {
    var pages := PagesOf(lt, tables, claims, userID, sizes, replies);
    PositionsAgree(replies, pages, i);
    assert Presents(replies[i], pages[i]);
  }

  /** Following the cursors is a walk. */
  lemma ChainIsWalk(
    lt: (string, string) -> bool, tables: seq<seq<Row>>, claims: seq<string>, userID: string,
    sizes: seq<int>, replies: seq<Response>)
    requires StrictTotal(lt) && Chain(lt, tables, claims, userID, sizes, replies)
    ensures AllPresent(replies, PagesOf(lt, tables, claims, userID, sizes, replies))
    ensures Walk(lt, tables, claims, userID, sizes, PagesOf(lt, tables, claims, userID, sizes, replies))
  {
    var pages := PagesOf(lt, tables, claims, userID, sizes, replies);
    ChainPresents(lt, tables, claims, userID, sizes, replies);
    ChainTables(lt, tables, claims, userID, sizes, replies);
    forall i | 0 <= i < |pages|
      ensures pages[i] == PageOf(lt, tables[i], claims, userID, sizes[i], PositionFor(pages, i))
    {
      PagesAt(lt, tables, claims, userID, sizes, replies, i);
    }
    forall i | 0 <= i < |pages| - 1
      ensures pages[i].next.Some?
    {
      ChainGoesOn(lt, tables, claims, userID, sizes, replies, i);
      PagesAt(lt, tables, claims, userID, sizes, replies, i);
    }
  }

  /** Everything the client was shown. */
  function Told(replies: seq<Response>): seq<Listed> {
    if replies == [] then [] else Told(replies[..|replies| - 1]) + replies[|replies| - 1].transactions
  }

  lemma MatchesConcat<A, B>(f: A -> Option<B>, a: seq<B>, x: seq<A>, b: seq<B>, y: seq<A>)
    requires Matches(f, a, x) && Matches(f, b, y)
    ensures Matches(f, a + b, x + y)
  {
  }

  lemma {:induction false} ToldShowsFlat(replies: seq<Response>, pages: seq<Page>)
    requires AllPresent(replies, pages)
    ensures Shows(Told(replies), Flat(pages))
  {
    if replies != [] {
      var last := |replies| - 1;
      assert AllPresent(replies[..last], pages[..last]) by {
        forall i | 0 <= i < last
          ensures Presents(replies[..last][i], pages[..last][i])
        {
          assert Presents(replies[i], pages[i]);
        }
      }
      ToldShowsFlat(replies[..last], pages[..last]);
      assert Presents(replies[last], pages[last]);
      MatchesConcat(Scan, Told(replies[..last]), Flat(pages[..last]), replies[last].transactions, pages[last].rows);
    }
  }

  /** Where a row that was shown stands in the order. */
  function PlaceOf(l: Listed): Position {
    Position(FormatTime(l.recordedAt), l.ref)
  }

  lemma ShownInPlace(r: Row, l: Listed)
    requires Stored(r.recordedAt) && Scan(r) == Some(l)
    ensures PlaceOf(l) == KeyOf(r)
  {
    FormatParse(r.recordedAt);
  }

  lemma RefNamesRow(table: seq<Row>, r: Row, s: Row)
    requires WellKept(table) && r in table && s in table && r.ref == s.ref
    ensures r == s
  {
    var i :| 0 <= i < |table| && table[i] == r;
    var j :| 0 <= j < |table| && table[j] == s;
    assert i == j || i < j || j < i;
  }

  lemma ShownPair(lt: (string, string) -> bool, table: seq<Row>, r: Row, s: Row, l: Listed, m: Listed)
    requires WellKept(table) && r in table && s in table && r != s && Before(lt, KeyOf(r), KeyOf(s))
    requires Scan(r) == Some(l) && Scan(s) == Some(m)
    ensures Before(lt, PlaceOf(l), PlaceOf(m)) && l.ref != m.ref
  {
    ShownInPlace(r, l);
    ShownInPlace(s, m);
    if r.ref == s.ref {
      RefNamesRow(table, r, s);
    }
  }

  /** Newest first: the one was recorded later, or at the same time under an earlier ref; and the refs
      differ. */
  ghost predicate InOrder(lt: (string, string) -> bool, l: Listed, m: Listed) {
    var x, y := FormatTime(l.recordedAt), FormatTime(m.recordedAt);
    (lt(y, x) || (x == y && lt(l.ref, m.ref))) && l.ref != m.ref
  }

  lemma ShownInOrder(lt: (string, string) -> bool, table: seq<Row>, told: seq<Listed>, flat: seq<Row>)
    requires WellKept(table) && Shows(told, flat) && Ordered(lt, flat)
    requires (forall r :: r in flat ==> r in table) && forall i, j :: 0 <= i < j < |flat| ==> flat[i] != flat[j]
    ensures forall i, j :: 0 <= i < j < |told| ==> InOrder(lt, told[i], told[j])
  {
    forall i, j | 0 <= i < j < |told|
      ensures InOrder(lt, told[i], told[j])
    {
      assert flat[i] in table && flat[j] in table;
      ShownPair(lt, table, flat[i], flat[j], told[i], told[j]);
    }
  }

  /** The client has been shown the row. */
  ghost predicate WasShown(told: seq<Listed>, r: Row) {
    Scan(r).Some? && Scan(r).value in told
  }

  /** What was shown is a visible row of the table. */
  ghost predicate IsOfTable(l: Listed, table: seq<Row>, claims: seq<string>, userID: string) {
    MaySee(claims, userID, l.ownerID) && exists r :: r in table && r.ownerID == l.ownerID && Scan(r) == Some(l)
  }

  /** Following NextCursor from the empty cursor while rows are being inserted: what the replies show,
      one after the other, is in strict order and never the same ref twice; all of it is visible to
      the caller; and once a reply comes without a cursor, every visible row that was there at the
      start has been shown. */
  lemma FollowedWalkIsComplete(
    lt: (string, string) -> bool, tables: seq<seq<Row>>, claims: seq<string>, userID: string,
    sizes: seq<int>, replies: seq<Response>)
    requires StrictTotal(lt) && Chain(lt, tables, claims, userID, sizes, replies) && replies != []
    ensures forall i, j :: 0 <= i < j < |Told(replies)| ==> InOrder(lt, Told(replies)[i], Told(replies)[j])
    ensures forall l :: l in Told(replies) ==> IsOfTable(l, tables[|tables| - 1], claims, userID)
    ensures replies[|replies| - 1].nextCursor == "" ==>
              forall r :: r in tables[0] && MaySee(claims, userID, r.ownerID) ==> WasShown(Told(replies), r)
  {
    var pages := PagesOf(lt, tables, claims, userID, sizes, replies);
    ChainIsWalk(lt, tables, claims, userID, sizes, replies);
    assert ReplyAt(lt, tables, claims, userID, sizes, replies, |replies| - 1);
    ShownWalk(lt, tables, claims, userID, sizes, replies, pages);
  }

  /** The same of any walk and the replies that present it. */
  lemma ShownWalk(
    lt: (string, string) -> bool, tables: seq<seq<Row>>, claims: seq<string>, userID: string,
    sizes: seq<int>, replies: seq<Response>, pages: seq<Page>)
    requires StrictTotal(lt) && Walk(lt, tables, claims, userID, sizes, pages) && pages != []
    requires AllPresent(replies, pages) && WellKept(tables[|tables| - 1])
    ensures forall i, j :: 0 <= i < j < |Told(replies)| ==> InOrder(lt, Told(replies)[i], Told(replies)[j])
    ensures forall l :: l in Told(replies) ==> IsOfTable(l, tables[|tables| - 1], claims, userID)
    ensures replies[|replies| - 1].nextCursor == "" ==>
              forall r :: r in tables[0] && MaySee(claims, userID, r.ownerID) ==> WasShown(Told(replies), r)
  {
    var told, flat := Told(replies), Flat(pages);
    WalkIsComplete(lt, tables, claims, userID, sizes, pages);
    ToldShowsFlat(replies, pages);
    ShownInOrder(lt, tables[|tables| - 1], told, flat);
    ShownOfTable(told, flat, tables[|tables| - 1], claims, userID);
    assert Presents(replies[|replies| - 1], pages[|pages| - 1]);
    AllShown(told, flat);
  }

  lemma ShownOfTable(told: seq<Listed>, flat: seq<Row>, table: seq<Row>, claims: seq<string>, userID: string)
    requires Shows(told, flat) && forall r :: r in flat ==> r in table && MaySee(claims, userID, r.ownerID)
    ensures forall l :: l in told ==> IsOfTable(l, table, claims, userID)
  {
    forall l | l in told
      ensures IsOfTable(l, table, claims, userID)
    {
      var k :| 0 <= k < |told| && told[k] == l;
      assert flat[k] in flat;
    }
  }

  lemma AllShown(told: seq<Listed>, flat: seq<Row>)
    requires Shows(told, flat)
    ensures forall r :: r in flat ==> WasShown(told, r)
  {
    forall r | r in flat
      ensures WasShown(told, r)
    {
      var k :| 0 <= k < |flat| && flat[k] == r;
      assert told[k] in told;
    }
  }

  /** A member is shown their own rows and nobody else's, and at the end all of them; an administrator is
      shown everybody's. */
  lemma RolesSee(
    lt: (string, string) -> bool, tables: seq<seq<Row>>, role: Role, userID: string,
    sizes: seq<int>, replies: seq<Response>)
    requires StrictTotal(lt) && Chain(lt, tables, PermissionsForRole(role), userID, sizes, replies) && replies != []
    ensures role == Member ==> forall l :: l in Told(replies) ==> l.ownerID == userID
    ensures replies[|replies| - 1].nextCursor == "" ==>
              forall r :: r in tables[0] && (role == Admin || r.ownerID == userID) ==> WasShown(Told(replies), r)
  {
    RoleScopes();
    FollowedWalkIsComplete(lt, tables, PermissionsForRole(role), userID, sizes, replies);
    assert forall l :: l in Told(replies) ==> IsOfTable(l, tables[|tables| - 1], PermissionsForRole(role), userID);
  }

  // ---------------------------------------------------------------- a table that does not change

  /** The replies follow one another's cursors, each in a relation to the cursor it was asked with. */
  ghost predicate Follow(step: (string, Response) -> bool, replies: seq<Response>) {
    forall i: nat {:trigger FollowAt(step, replies, i)} :: FollowAt(step, replies, i)
  }

  ghost predicate FollowAt(step: (string, Response) -> bool, replies: seq<Response>, i: nat) {
    i < |replies| ==>
      step(CursorFor(replies, i), replies[i]) && (i + 1 < |replies| ==> replies[i].nextCursor != "")
  }

  lemma FollowExtends(step: (string, Response) -> bool, replies: seq<Response>, response: Response)
    requires Follow(step, replies) && step(CursorFor(replies, |replies|), response)
    requires replies == [] || replies[|replies| - 1].nextCursor != ""
    ensures Follow(step, replies + [response])
  {
    var more := replies + [response];
    forall i: nat
      ensures FollowAt(step, more, i)
    {
      assert FollowAt(step, replies, i);
      assert i <= |replies| ==> CursorFor(more, i) == CursorFor(replies, i);
    }
  }

  /** Following the cursors over one table, in pages of one size. */
  ghost predicate FixedChain(
    lt: (string, string) -> bool, table: seq<Row>, claims: seq<string>, userID: string, pageSize: int,
    replies: seq<Response>)
  {
    Follow((cursor, response) => Replied(lt, table, claims, userID, pageSize, cursor, response), replies)
  }

  lemma FixedIsChain(
    lt: (string, string) -> bool, table: seq<Row>, claims: seq<string>, userID: string, pageSize: int,
    replies: seq<Response>)
    requires WellKept(table) && FixedChain(lt, table, claims, userID, pageSize, replies)
    ensures Chain(lt, seq(|replies|, _ => table), claims, userID, seq(|replies|, _ => pageSize), replies)
  {
    var tables, sizes := seq(|replies|, _ => table), seq(|replies|, _ => pageSize);
    forall i: nat
      ensures ReplyAt(lt, tables, claims, userID, sizes, replies, i)
    {
      assert FollowAt((cursor, response) => Replied(lt, table, claims, userID, pageSize, cursor, response), replies, i);
    }
  }

  ghost predicate Ended(replies: seq<Response>) {
    replies != [] && replies[|replies| - 1].nextCursor == ""
  }

  /** Over a table that does not change a finished walk has shown exactly the sorted, scope-filtered
      list, and no walk, finished or not, takes more than one page more than there are visible rows. */
  lemma FollowedWalkIsTheList(
    lt: (string, string) -> bool, table: seq<Row>, claims: seq<string>, userID: string, pageSize: int,
    replies: seq<Response>)
    requires StrictTotal(lt) && WellKept(table) && FixedChain(lt, table, claims, userID, pageSize, replies) && replies != []
    ensures Ended(replies) ==> Shows(Told(replies), Query(lt, table, claims, userID, None))
    ensures |replies| <= |Query(lt, table, claims, userID, None)| + 1
  {
    var n := |replies|;
    var tables, sizes := seq(n, _ => table), seq(n, _ => pageSize);
    var pages := PagesOf(lt, tables, claims, userID, sizes, replies);
    FixedIsChain(lt, table, claims, userID, pageSize, replies);
    ChainIsWalk(lt, tables, claims, userID, sizes, replies);
    ShownFixedWalk(lt, table, tables, claims, userID, sizes, replies, pages);
  }

  lemma ShownFixedWalk(
    lt: (string, string) -> bool, table: seq<Row>, tables: seq<seq<Row>>, claims: seq<string>, userID: string,
    sizes: seq<int>, replies: seq<Response>, pages: seq<Page>)
    requires StrictTotal(lt) && FixedWalk(lt, table, tables, claims, userID, sizes, pages) && AllPresent(replies, pages)
    ensures Ended(replies) ==> Shows(Told(replies), Query(lt, table, claims, userID, None))
    ensures |replies| <= |Query(lt, table, claims, userID, None)| + 1
  {
    FixedWalkEnds(lt, table, tables, claims, userID, sizes, pages);
    if Ended(replies) {
      EndsTogether(replies, pages);
      ToldShowsFlat(replies, pages);
      FixedWalkIsTheList(lt, table, tables, claims, userID, sizes, pages);
    }
  }

  lemma EndsTogether(replies: seq<Response>, pages: seq<Page>)
    requires AllPresent(replies, pages) && Ended(replies)
    ensures pages != [] && pages[|pages| - 1].next.None?
  {
    assert Presents(replies[|replies| - 1], pages[|pages| - 1]);
  }

  /** Every row the caller may see reads back. */
  ghost predicate AllReadable(table: seq<Row>, claims: seq<string>, userID: string) {
    forall r :: r in table && MaySee(claims, userID, r.ownerID) ==> Scan(r).Some?
  }

  function ScanAll(rows: seq<Row>): (listed: seq<Listed>)
    requires AllScan(rows)
    ensures Shows(listed, rows)
  {
    seq(|rows|, k requires 0 <= k < |rows| => Scan(rows[k]).value)
  }

  lemma ReplyExists(
    lt: (string, string) -> bool, table: seq<Row>, claims: seq<string>, userID: string, pageSize: int, cursor: string)
    returns (response: Response)
    requires AllReadable(table, claims, userID) && Asked(userID, pageSize, cursor)
    ensures Replied(lt, table, claims, userID, pageSize, cursor, response)
  {
    var found := Fetched(lt, table, claims, userID, pageSize, PositionOf(cursor));
    forall k | 0 <= k < |found|
      ensures Scan(found[k]).Some?
    {
      assert found[k] in Query(lt, table, claims, userID, PositionOf(cursor));
    }
    var page := PageOf(lt, table, claims, userID, pageSize, PositionOf(cursor));
    assert forall k :: 0 <= k < |page.rows| ==> page.rows[k] == found[k];
    var shown := ScanAll(page.rows);
    response := Response(shown, if page.next.None? then "" else CursorOf(shown[|shown| - 1]));
  }

  lemma CursorIsAsked(
    lt: (string, string) -> bool, table: seq<Row>, claims: seq<string>, userID: string, pageSize: int,
    replies: seq<Response>)
    requires StrictTotal(lt) && WellKept(table) && userID != "" && pageSize >= 0
    requires FixedChain(lt, table, claims, userID, pageSize, replies)
    ensures Asked(userID, pageSize, CursorFor(replies, |replies|))
  {
    if replies != [] {
      var tables, sizes := seq(|replies|, _ => table), seq(|replies|, _ => pageSize);
      FixedIsChain(lt, table, claims, userID, pageSize, replies);
      ChainPresents(lt, tables, claims, userID, sizes, replies);
      assert Presents(replies[|replies| - 1], PagesOf(lt, tables, claims, userID, sizes, replies)[|replies| - 1]);
    }
  }

  /** When every visible row reads back, each request of a walk is answered, so it can be carried to
      its end. */
  lemma {:induction false} WalkToEnd(
    lt: (string, string) -> bool, table: seq<Row>, claims: seq<string>, userID: string, pageSize: int,
    replies: seq<Response>) returns (all: seq<Response>)
    requires StrictTotal(lt) && WellKept(table) && AllReadable(table, claims, userID) && userID != "" && pageSize >= 0
    requires FixedChain(lt, table, claims, userID, pageSize, replies)
    requires replies == [] || replies[|replies| - 1].nextCursor != ""
    ensures replies <= all && FixedChain(lt, table, claims, userID, pageSize, all) && Ended(all)
    decreases |Query(lt, table, claims, userID, None)| + 1 - |replies|
  {
    var cursor := CursorFor(replies, |replies|);
    CursorIsAsked(lt, table, claims, userID, pageSize, replies);
    var response := ReplyExists(lt, table, claims, userID, pageSize, cursor);
    FollowExtends((c, r) => Replied(lt, table, claims, userID, pageSize, c, r), replies, response);
    all := replies + [response];
    FollowedWalkIsTheList(lt, table, claims, userID, pageSize, all);
    if response.nextCursor != "" {
      all := WalkToEnd(lt, table, claims, userID, pageSize, all);
    }
  }

  /** A table can be walked to its end exactly when every row the caller may see has times that read
      back: one row that does not stops every walk at the page that meets it. */
  lemma WalkEndsIff(lt: (string, string) -> bool, table: seq<Row>, claims: seq<string>, userID: string, pageSize: int)
    requires StrictTotal(lt) && WellKept(table) && userID != "" && pageSize >= 0
    ensures (exists replies :: FixedChain(lt, table, claims, userID, pageSize, replies) && Ended(replies))
            <==> AllReadable(table, claims, userID)
  {
    if AllReadable(table, claims, userID) {
      var replies := WalkToEnd(lt, table, claims, userID, pageSize, []);
    }
    if replies :| FixedChain(lt, table, claims, userID, pageSize, replies) && Ended(replies) {
      FixedIsChain(lt, table, claims, userID, pageSize, replies);
      FollowedWalkIsComplete(lt, seq(|replies|, _ => table), claims, userID, seq(|replies|, _ => pageSize), replies);
      assert AllReadable(table, claims, userID) by {
        assert forall r :: r in table && MaySee(claims, userID, r.ownerID) ==> WasShown(Told(replies), r);
      }
    }
  }
}
