/** Cursor and offset paging, backend/lib/pagination.js, over a fixed table of rows. */
module Pagination {
  import opened Wrappers

  // ---- Rows and their order ----

  datatype Row = Row(id: string, values: map<string, int>)

  datatype Direction = Asc | Desc

  /** The sort field and direction; the id breaks ties, in the same direction. */
  datatype Order = Order(field: string, dir: Direction)

  predicate Less(a: string, b: string)
    decreases |a|
  {
    b != "" && (a == "" || a[0] < b[0] || (a[0] == b[0] && Less(a[1..], b[1..])))
  }

  lemma {:induction false} LessIsTotal(a: string, b: string)
    ensures a == b || Less(a, b) || Less(b, a)
    ensures !(Less(a, b) && Less(b, a))
    decreases |a|
  {
    if a != "" && b != "" && a[0] == b[0] {
      LessIsTotal(a[1..], b[1..]);
      assert a == [a[0]] + a[1..] && b == [b[0]] + b[1..];
    }
  }

  lemma {:induction false} LessIsTransitive(a: string, b: string, c: string)
    requires Less(a, b) && Less(b, c)
    ensures Less(a, c)
    decreases |a|
  {
    if a != "" && a[0] == b[0] == c[0] {
      LessIsTransitive(a[1..], b[1..], c[1..]);
    }
  }

  function Value(r: Row, field: string): int {
    if field in r.values then r.values[field] else 0
  }

  predicate Below(x: Row, y: Row, field: string) {
    if field == "id" then Less(x.id, y.id)
    else Value(x, field) < Value(y, field) || (Value(x, field) == Value(y, field) && Less(x.id, y.id))
  }

  predicate Before(x: Row, y: Row, o: Order) {
    if o.dir == Asc then Below(x, y, o.field) else Below(y, x, o.field)
  }

  lemma BeforeIsTotal(x: Row, y: Row, o: Order)
    requires x.id != y.id
    ensures Before(x, y, o) != Before(y, x, o)
  {
    LessIsTotal(x.id, y.id);
  }

  lemma BeforeIsTransitive(x: Row, y: Row, z: Row, o: Order)
    requires Before(x, y, o) && Before(y, z, o)
    ensures Before(x, z, o)
  {
    if Less(x.id, y.id) && Less(y.id, z.id) {
      LessIsTransitive(x.id, y.id, z.id);
    }
    if Less(z.id, y.id) && Less(y.id, x.id) {
      LessIsTransitive(z.id, y.id, x.id);
    }
  }

  predicate UniqueIds(rows: seq<Row>) {
    forall i, j :: 0 <= i < j < |rows| ==> rows[i].id != rows[j].id
  }

  predicate Ordered(rows: seq<Row>, o: Order) {
    forall i, j :: 0 <= i < j < |rows| ==> Before(rows[i], rows[j], o)
  }

  function Insert(x: Row, rows: seq<Row>, o: Order): (r: seq<Row>)
    ensures |r| == |rows| + 1
  {
    if rows == [] || Before(x, rows[0], o) then [x] + rows else [rows[0]] + Insert(x, rows[1..], o)
  }

  /** The rows as the database orders them. */
  function Sort(rows: seq<Row>, o: Order): (r: seq<Row>)
    ensures |r| == |rows|
  {
    if rows == [] then [] else Insert(rows[0], Sort(rows[1..], o), o)
  }

  lemma {:induction false} InsertAdds(x: Row, rows: seq<Row>, o: Order)
    ensures multiset(Insert(x, rows, o)) == multiset(rows) + multiset{x}
  {
    if rows != [] && !Before(x, rows[0], o) {
      InsertAdds(x, rows[1..], o);
      assert rows == [rows[0]] + rows[1..];
    }
  }

  lemma {:induction false} SortPermutes(rows: seq<Row>, o: Order)
    ensures multiset(Sort(rows, o)) == multiset(rows)
  {
    if rows != [] {
      SortPermutes(rows[1..], o);
      InsertAdds(rows[0], Sort(rows[1..], o), o);
      assert rows == [rows[0]] + rows[1..];
    }
  }

  lemma InsertedIsOneOf(x: Row, rows: seq<Row>, o: Order)
    ensures forall i :: 0 <= i < |Insert(x, rows, o)| ==> Insert(x, rows, o)[i] == x || Insert(x, rows, o)[i] in rows
  {
    var inserted := Insert(x, rows, o);
    InsertAdds(x, rows, o);
    forall i | 0 <= i < |inserted|
      ensures inserted[i] == x || inserted[i] in rows
    {
      assert inserted[i] in multiset(inserted);
    }
  }

  lemma {:induction false} InsertKeepsOrder(x: Row, rows: seq<Row>, o: Order)
    requires Ordered(rows, o) && forall i :: 0 <= i < |rows| ==> rows[i].id != x.id
    ensures Ordered(Insert(x, rows, o), o)
  {
    if rows != [] {
      BeforeIsTotal(x, rows[0], o);
      if Before(x, rows[0], o) {
        forall i | 0 < i < |rows|
          ensures Before(x, rows[i], o)
        {
          BeforeIsTransitive(x, rows[0], rows[i], o);
        }
      } else {
        InsertKeepsOrder(x, rows[1..], o);
        InsertedIsOneOf(x, rows[1..], o);
      }
    }
  }

  lemma {:induction false} InsertKeepsIds(x: Row, rows: seq<Row>, o: Order)
    requires UniqueIds(rows) && forall i :: 0 <= i < |rows| ==> rows[i].id != x.id
    ensures UniqueIds(Insert(x, rows, o))
  {
    if rows != [] && !Before(x, rows[0], o) {
      InsertKeepsIds(x, rows[1..], o);
      InsertedIsOneOf(x, rows[1..], o);
    }
  }

  /** The database's order lists the table's rows, each once, strictly by sort field and then id. */
  lemma {:induction false} SortOrders(rows: seq<Row>, o: Order)
    requires UniqueIds(rows)
    ensures multiset(Sort(rows, o)) == multiset(rows) && Ordered(Sort(rows, o), o) && UniqueIds(Sort(rows, o))
  {
    SortPermutes(rows, o);
    if rows != [] {
      var more := Sort(rows[1..], o);
      SortOrders(rows[1..], o);
      forall i | 0 <= i < |more|
        ensures more[i].id != rows[0].id
      {
        assert more[i] in multiset(more) && more[i] in rows[1..];
      }
      InsertKeepsOrder(rows[0], more, o);
      InsertKeepsIds(rows[0], more, o);
    }
  }

  // ---- Cursor paging ----

  const DEFAULT_LIMIT := 20
  const MAX_LIMIT := 100

  /** The payload of a cursor token; its sort value is not read back. */
  datatype Cursor = Cursor(id: string, order: Order)

  /** The query string; None where a number does not parse or a token does not decode. */
  datatype Query = Query(limit: Option<int>, cursor: Option<Cursor>, sortBy: Option<string>, ascending: bool)

  datatype Parsed = Parsed(take: int, cursor: Option<Cursor>, order: Order)

  function Clamp(limit: Option<int>): (r: int)
    ensures 1 <= r <= MAX_LIMIT
  {
    var n := match limit case None => DEFAULT_LIMIT case Some(v) => v;
    if n < 1 then 1 else if n > MAX_LIMIT then MAX_LIMIT else n
  }

  /** A decoded cursor overrides the sort parameters of the query. */
  function ParseCursorPagination(q: Query, default: Order): Parsed {
    var order := match q.cursor
                 case Some(c) => c.order
                 case None => Order(match q.sortBy case Some(f) => f case None => default.field,
                                    if q.ascending then Asc else default.dir);
    Parsed(Clamp(q.limit), q.cursor, order)
  }

  datatype FindArgs = FindArgs(take: int, skip: int, cursor: Option<string>, orderBy: Order)

  function BuildPrismaFindArgs(p: Parsed): FindArgs {
    match p.cursor
    case None => FindArgs(p.take, 0, None, p.order)
    case Some(c) => FindArgs(p.take, 1, Some(c.id), p.order)
  }

  function IndexOf(rows: seq<Row>, id: string): (n: nat)
    ensures n <= |rows| && (n < |rows| ==> rows[n].id == id)
  {
    if rows == [] || rows[0].id == id then 0 else 1 + IndexOf(rows[1..], id)
  }

  function Slice(rows: seq<Row>, start: int, take: int): seq<Row>
    requires 0 <= start && 0 <= take
  {
    if start >= |rows| then [] else if start + take <= |rows| then rows[start..start + take] else rows[start..]
  }

  /** From the cursor's row on, skipping and then taking. */
  function FindSorted(sorted: seq<Row>, args: FindArgs): seq<Row>
    requires args.skip >= 0 && args.take >= 0
  {
    var start := match args.cursor case None => 0 case Some(id) => IndexOf(sorted, id);
    Slice(sorted, start + args.skip, args.take)
  }

  /** The database's answer. */
  function FindMany(table: seq<Row>, args: FindArgs): seq<Row>
    requires args.skip >= 0 && args.take >= 0
  {
    FindSorted(Sort(table, args.orderBy), args)
  }

  datatype Response = Response(data: seq<Row>, nextCursor: Option<Cursor>, hasMore: bool)

  function BuildCursorResponse(data: seq<Row>, take: int, order: Order): Response
    requires take >= 1
  {
    if |data| == take then Response(data, Some(Cursor(data[|data| - 1].id, order)), true)
    else Response(data, None, false)
  }

  /** One request to a paged endpoint. */
  function Page(table: seq<Row>, q: Query, default: Order): Response {
    var p := ParseCursorPagination(q, default);
    BuildCursorResponse(FindMany(table, BuildPrismaFindArgs(p)), p.take, p.order)
  }

  // ---- Following next_cursor ----

  /** The endpoint, as what it answers to each query. */
  function Endpoint(table: seq<Row>, default: Order): Query -> Response {
    q => Page(table, q, default)
  }

  /** The first request has no cursor; each later one carries the cursor of the answer before it, with any
      limit and any sort parameters. */
  predicate Follows(endpoint: Query -> Response, queries: seq<Query>) {
    queries == [] ||
    (var front, cursor := queries[..|queries| - 1], queries[|queries| - 1].cursor;
     if front == [] then cursor.None?
     else
       var answer := endpoint(front[|front| - 1]);
       Follows(endpoint, front) && answer.hasMore && cursor == answer.nextCursor)
  }

  /** All rows received. */
  function Received(endpoint: Query -> Response, queries: seq<Query>): seq<Row> {
    if queries == [] then []
    else Received(endpoint, queries[..|queries| - 1]) + endpoint(queries[|queries| - 1]).data
  }

  function TakeSum(queries: seq<Query>): nat {
    if queries == [] then 0 else TakeSum(queries[..|queries| - 1]) + Clamp(queries[|queries| - 1].limit)
  }

  lemma {:induction false} IndexOfRow(rows: seq<Row>, k: nat)
    requires UniqueIds(rows) && k < |rows|
    ensures IndexOf(rows, rows[k].id) == k
  {
    if k > 0 {
      IndexOfRow(rows[1..], k - 1);
    }
  }

  /** A request that starts after the first m rows of the order answers with the next `take`. */
  lemma FoundAfter(sorted: seq<Row>, p: Parsed, m: nat)
    requires UniqueIds(sorted) && m <= |sorted| && p.take >= 1
    requires if m == 0 then p.cursor.None? else p.cursor == Some(Cursor(sorted[m - 1].id, p.order))
    ensures FindSorted(sorted, BuildPrismaFindArgs(p)) == Slice(sorted, m, p.take)
  {
    if m > 0 {
      IndexOfRow(sorted, m - 1);
    }
  }

  lemma PageAfter(table: seq<Row>, q: Query, default: Order, order: Order, m: nat) returns (data: seq<Row>, take: nat)
    requires UniqueIds(table) && m <= |table| && ParseCursorPagination(q, default).order == order
    requires if m == 0 then q.cursor.None? else q.cursor == Some(Cursor(Sort(table, order)[m - 1].id, order))
    ensures take >= 1 && take == Clamp(q.limit) && data == Slice(Sort(table, order), m, take)
    ensures Page(table, q, default) == BuildCursorResponse(data, take, order)
  {
    var p := ParseCursorPagination(q, default);
    SortOrders(table, order);
    FoundAfter(Sort(table, order), p, m);
    data, take := FindMany(table, BuildPrismaFindArgs(p)), p.take;
  }

  lemma SliceExtends(rows: seq<Row>, m: nat, take: nat)
    requires m <= |rows|
    ensures rows[..m] + Slice(rows, m, take) == if m + take <= |rows| then rows[..m + take] else rows
    ensures |Slice(rows, m, take)| == take <==> m + take <= |rows|
    ensures take > 0 && m + take <= |rows| ==> Slice(rows, m, take)[take - 1] == rows[m + take - 1]
  {
  }

  lemma SliceFromStart(rows: seq<Row>, m: int)
    requires 0 <= m
    ensures Slice(rows, 0, m) == if m <= |rows| then rows[..m] else rows
  {
  }

  /** The client has received the first m rows of the order, and its last answer says how to go on. */
  predicate Reached(sorted: seq<Row>, order: Order, received: seq<Row>, answer: Response, m: nat) {
    && m >= 1
    && received == Slice(sorted, 0, m)
    && (answer.hasMore <==> m <= |sorted|)
    && (answer.hasMore ==> answer.nextCursor == Some(Cursor(sorted[m - 1].id, order)))
  }

  /** The query of a request that comes after m rows. */
  predicate Resumes(sorted: seq<Row>, order: Order, opening: Query, q: Query, m: nat) {
    m <= |sorted| && if m == 0 then q == opening else q.cursor == Some(Cursor(sorted[m - 1].id, order))
  }

  /** The endpoint answers the opening request with the first rows of the order, and a request that
      resumes after m rows with the rows after them. */
  ghost predicate Serves(endpoint: Query -> Response, sorted: seq<Row>, order: Order, opening: Query) {
    forall q, m: nat :: Resumes(sorted, order, opening, q, m) ==>
      endpoint(q) == BuildCursorResponse(Slice(sorted, m, Clamp(q.limit)), Clamp(q.limit), order)
  }

  lemma EndpointServes(table: seq<Row>, default: Order, order: Order, opening: Query)
    requires UniqueIds(table) && opening.cursor.None? && ParseCursorPagination(opening, default).order == order
    ensures Serves(Endpoint(table, default), Sort(table, order), order, opening)
  {
    var sorted := Sort(table, order);
    forall q, m: nat | Resumes(sorted, order, opening, q, m)
      ensures Page(table, q, default) == BuildCursorResponse(Slice(sorted, m, Clamp(q.limit)), Clamp(q.limit), order)
    {
      var _, _ := PageAfter(table, q, default, order, m);
    }
  }

  lemma ReachMore(sorted: seq<Row>, order: Order, received: seq<Row>, m: nat, take: nat) returns (answer: Response)
    requires m <= |sorted| && take >= 1 && received == Slice(sorted, 0, m)
    ensures answer == BuildCursorResponse(Slice(sorted, m, take), take, order)
    ensures Reached(sorted, order, received + answer.data, answer, m + take)
  {
    answer := BuildCursorResponse(Slice(sorted, m, take), take, order);
    SliceExtends(sorted, m, take);
    SliceFromStart(sorted, m);
    SliceFromStart(sorted, m + take);
  }

  lemma OneMoreRequest(endpoint: Query -> Response, queries: seq<Query>) returns (front: seq<Query>, q: Query)
    requires queries != [] && Follows(endpoint, queries)
    ensures |front| == |queries| - 1 && queries == front + [q]
    ensures front == [] ==> q.cursor.None?
    ensures front != [] ==> var last := endpoint(front[|front| - 1]);
                            Follows(endpoint, front) && last.hasMore && q.cursor == last.nextCursor
    ensures Received(endpoint, queries) == Received(endpoint, front) + endpoint(q).data
    ensures TakeSum(queries) == TakeSum(front) + Clamp(q.limit)
  {
    front, q := queries[..|queries| - 1], queries[|queries| - 1];
  }

  /** What a client has received, and the cursor it holds, after any number of requests. */
  lemma {:induction false} WalkSoFar(endpoint: Query -> Response, queries: seq<Query>, sorted: seq<Row>, order: Order)
    returns (m: nat)
    requires queries != [] && Follows(endpoint, queries) && Serves(endpoint, sorted, order, queries[0])
    ensures m == TakeSum(queries) >= |queries|
    ensures Reached(sorted, order, Received(endpoint, queries), endpoint(queries[|queries| - 1]), m)
    decreases |queries|
  {
    var front, q := OneMoreRequest(endpoint, queries);
    var before := 0;
    if front == [] {
      assert Received(endpoint, front) == [] && queries[0] == q;
    } else {
      assert front[0] == queries[0];
      before := WalkSoFar(endpoint, front, sorted, order);
    }
    assert Resumes(sorted, order, queries[0], q, before);
    var _ := ReachMore(sorted, order, Received(endpoint, front), before, Clamp(q.limit));
    m := before + Clamp(q.limit);
  }

  lemma FirstHasNoCursor(endpoint: Query -> Response, queries: seq<Query>)
    requires queries != [] && Follows(endpoint, queries)
    ensures queries[0].cursor.None?
    decreases |queries|
  {
    var front, _ := OneMoreRequest(endpoint, queries);
    if front != [] {
      FirstHasNoCursor(endpoint, front);
    }
  }

  /** The walk over a table: `m` rows have been asked for. */
  lemma WalkOverTable(table: seq<Row>, queries: seq<Query>, default: Order, endpoint: Query -> Response, order: Order)
    returns (m: nat)
    requires UniqueIds(table) && endpoint == Endpoint(table, default) && queries != [] && Follows(endpoint, queries)
    requires order == ParseCursorPagination(queries[0], default).order
    ensures m == TakeSum(queries) >= |queries|
    ensures Reached(Sort(table, order), order, Received(endpoint, queries), endpoint(queries[|queries| - 1]), m)
  {
    FirstHasNoCursor(endpoint, queries);
    EndpointServes(table, default, order, queries[0]);
    m := WalkSoFar(endpoint, queries, Sort(table, order), order);
  }

  /** A client that follows next_cursor to the end has received every row of the table exactly once, in
      the composite order of its first request. */
  lemma WalkReceivesEveryRow(table: seq<Row>, queries: seq<Query>, default: Order)
    requires UniqueIds(table) && queries != [] && Follows(Endpoint(table, default), queries)
    requires !Page(table, queries[|queries| - 1], default).hasMore
    ensures var order := ParseCursorPagination(queries[0], default).order;
            var received := Received(Endpoint(table, default), queries);
            received == Sort(table, order) && multiset(received) == multiset(table) && Ordered(received, order)
  {
    var order := ParseCursorPagination(queries[0], default).order;
    var m := WalkOverTable(table, queries, default, Endpoint(table, default), order);
    SortOrders(table, order);
    SliceFromStart(Sort(table, order), m);
  }

  /** The last answer promises more exactly while the pages asked for fit into the table. */
  lemma MoreIff(table: seq<Row>, queries: seq<Query>, default: Order, endpoint: Query -> Response)
    requires UniqueIds(table) && endpoint == Endpoint(table, default) && queries != [] && Follows(endpoint, queries)
    ensures endpoint(queries[|queries| - 1]).hasMore <==> TakeSum(queries) <= |table|
    ensures TakeSum(queries) >= |queries|
  {
    var m := WalkOverTable(table, queries, default, endpoint, ParseCursorPagination(queries[0], default).order);
  }

  /** Every walk stops: a client whose k answers all promised more has a table of at least k rows. */
  lemma WalkStops(table: seq<Row>, queries: seq<Query>, default: Order)
    requires UniqueIds(table) && queries != [] && Follows(Endpoint(table, default), queries)
    requires Page(table, queries[|queries| - 1], default).hasMore
    ensures |queries| <= |table|
  {
    MoreIff(table, queries, default, Endpoint(table, default));
  }

  lemma {:induction false} EqualTakes(queries: seq<Query>, take: nat)
    requires forall i :: 0 <= i < |queries| ==> Clamp(queries[i].limit) == take
    ensures TakeSum(queries) == take * |queries|
  {
    if queries != [] {
      EqualTakes(queries[..|queries| - 1], take);
    }
  }

  lemma ProductOrder(d: nat, a: int, b: int)
    requires d >= 1 && a <= b
    ensures d * a <= d * b
  {
  }

  lemma QuotientBetween(n: nat, take: nat, k: nat)
    requires take >= 1 && k >= 1 && take * (k - 1) <= n < take * k
    ensures k == n / take + 1
  {
    var q := n / take;
    assert take * q <= n < take * (q + 1);
    if q + 1 <= k - 1 {
      ProductOrder(take, q + 1, k - 1);
    } else if k <= q {
      ProductOrder(take, k, q);
    }
  }

  lemma WalkBounds(table: seq<Row>, queries: seq<Query>, default: Order, endpoint: Query -> Response)
    requires UniqueIds(table) && endpoint == Endpoint(table, default) && queries != [] && Follows(endpoint, queries)
    requires !endpoint(queries[|queries| - 1]).hasMore
    ensures TakeSum(queries[..|queries| - 1]) <= |table| < TakeSum(queries)
  {
    var front, _ := OneMoreRequest(endpoint, queries);
    MoreIff(table, queries, default, endpoint);
    if front != [] {
      MoreIff(table, front, default, endpoint);
    }
    assert queries[..|queries| - 1] == front;
  }

  /** With one page size throughout, the walk takes exactly floor(n / take) + 1 requests. */
  lemma WalkLength(table: seq<Row>, queries: seq<Query>, default: Order, take: nat)
    requires UniqueIds(table) && queries != [] && Follows(Endpoint(table, default), queries)
    requires !Page(table, queries[|queries| - 1], default).hasMore
    requires take >= 1 && forall i :: 0 <= i < |queries| ==> Clamp(queries[i].limit) == take
    ensures |queries| == |table| / take + 1
  {
    WalkBounds(table, queries, default, Endpoint(table, default));
    EqualTakes(queries, take);
    EqualTakes(queries[..|queries| - 1], take);
    QuotientBetween(|table|, take, |queries|);
  }

  // ---- Offset paging ----

  datatype Offset = Offset(page: int, limit: int, skip: int)

  function ParsePagination(page: Option<int>, limit: Option<int>): (r: Offset)
    ensures r.page >= 1 && 1 <= r.limit <= MAX_LIMIT && r.skip >= 0
  {
    var p := match page case None => 1 case Some(v) => if v < 1 then 1 else v;
    var l := Clamp(limit);
    SkipIsNatural(p - 1, l);
    Offset(p, l, (p - 1) * l)
  }

  lemma SkipIsNatural(a: nat, b: nat)
    ensures a * b >= 0
  {
  }

  /** The rounded-up quotient. */
  function TotalPages(total: nat, limit: int): int
    requires limit >= 1
  {
    if total == 0 then 0 else (total + limit - 1) / limit
  }

  datatype Envelope = Envelope(data: seq<Row>, totalPages: int, hasNextPage: bool, hasPreviousPage: bool)

  function BuildPaginatedResponse(data: seq<Row>, o: Offset, total: nat): Envelope
    requires o.limit >= 1
  {
    var totalPages := TotalPages(total, o.limit);
    Envelope(data, totalPages, o.page < totalPages, o.page > 1)
  }

  /** The rows of one page of an ordered table. */
  function OffsetPage(sorted: seq<Row>, page: Option<int>, limit: Option<int>): seq<Row> {
    var o := ParsePagination(page, limit);
    Slice(sorted, o.skip, o.limit)
  }

  /** Pages 1 to n, one after the other. */
  function OffsetPages(sorted: seq<Row>, n: nat, limit: Option<int>): seq<Row> {
    if n == 0 then [] else OffsetPages(sorted, n - 1, limit) + OffsetPage(sorted, Some(n), limit)
  }

  lemma TotalPagesBounds(total: nat, limit: nat) returns (pages: nat)
    requires limit >= 1
    ensures pages == TotalPages(total, limit) && total <= limit * pages
    ensures total > 0 ==> limit * (pages - 1) < total
  {
    var p := TotalPages(total, limit);
    if total > 0 {
      assert limit * p <= total + limit - 1 < limit * p + limit;
      assert limit * (p - 1) == limit * p - limit;
      if p <= 0 {
        ProductOrder(limit, p, 0);
      }
    }
    pages := p;
  }

  lemma NextPageIff(page: int, pages: int, limit: nat, total: nat)
    requires limit >= 1 && limit * (pages - 1) < total <= limit * pages
    ensures page < pages <==> limit * page < total
  {
    if page < pages {
      ProductOrder(limit, page, pages - 1);
    } else {
      ProductOrder(limit, pages, page);
    }
  }

  /** There is a next page exactly when the rows up to this page's end are not all. */
  lemma HasNextPageIff(data: seq<Row>, o: Offset, total: nat)
    requires o.page >= 1 && o.limit >= 1
    ensures BuildPaginatedResponse(data, o, total).hasNextPage <==> o.page * o.limit < total
  {
    var pages := TotalPagesBounds(total, o.limit);
    SkipIsNatural(o.page, o.limit);
    if total > 0 {
      NextPageIff(o.page, pages, o.limit, total);
    }
  }

  lemma OnePage(sorted: seq<Row>, page: nat, limit: Option<int>, take: nat, skip: nat)
    requires page >= 1 && take == Clamp(limit) && skip == (page - 1) * take
    ensures OffsetPage(sorted, Some(page), limit) == Slice(sorted, skip, take)
  {
  }

  lemma NextSlice(sorted: seq<Row>, m: nat, take: nat)
    ensures Slice(sorted, 0, m) + Slice(sorted, m, take) == Slice(sorted, 0, m + take)
  {
    if m <= |sorted| {
      SliceExtends(sorted, m, take);
    }
  }

  lemma OneMoreProduct(n: nat, take: nat)
    requires n >= 1
    ensures n * take == (n - 1) * take + take
  {
  }

  lemma {:induction false} PagesSoFar(sorted: seq<Row>, n: nat, limit: Option<int>, take: nat) returns (m: nat)
    requires take == Clamp(limit)
    ensures m == n * take && OffsetPages(sorted, n, limit) == Slice(sorted, 0, m)
  {
    m := 0;
    if n > 0 {
      var before := PagesSoFar(sorted, n - 1, limit, take);
      OnePage(sorted, n, limit, take, before);
      NextSlice(sorted, before, take);
      OneMoreProduct(n, take);
      m := before + take;
    }
  }

  lemma PastTheEnd(sorted: seq<Row>, take: nat, pages: nat, beyond: nat) returns (skip: nat)
    requires take >= 1 && |sorted| <= take * pages && beyond > pages
    ensures skip == (beyond - 1) * take && Slice(sorted, skip, take) == []
  {
    ProductOrder(take, pages, beyond - 1);
    SkipIsNatural(beyond - 1, take);
    skip := (beyond - 1) * take;
  }

  /** Pages 1 to totalPages list every row of the ordered table exactly once and in order; every later page
      is empty. */
  lemma OffsetPagesPartition(sorted: seq<Row>, limit: Option<int>, beyond: int) returns (pages: nat)
    ensures pages == BuildPaginatedResponse([], ParsePagination(Some(1), limit), |sorted|).totalPages
    ensures OffsetPages(sorted, pages, limit) == sorted
    ensures beyond > pages ==> OffsetPage(sorted, Some(beyond), limit) == []
  {
    var take := Clamp(limit);
    pages := TotalPagesBounds(|sorted|, take);
    var m := PagesSoFar(sorted, pages, limit, take);
    SliceFromStart(sorted, m);
    if beyond > pages {
      var skip := PastTheEnd(sorted, take, pages, beyond);
      OnePage(sorted, beyond, limit, take, skip);
    }
  }

  /** A limit from 1 to 100 is used as given, a smaller one is 1, a larger one 100, and none is 20. */
  lemma LimitIsUsed(limit: Option<int>)
    ensures match limit
            case None => Clamp(limit) == 20
            case Some(v) => 1 <= Clamp(limit) <= 100 && (1 <= v <= 100 ==> Clamp(limit) == v)
                            && (v < 1 ==> Clamp(limit) == 1) && (v > 100 ==> Clamp(limit) == 100)
  {
  }

  /** Page p of size v holds the rows from (p - 1) * v on, v of them or as many as there are. */
  lemma PageHasItsRows(sorted: seq<Row>, p: nat, v: nat, k: nat)
    requires p >= 1 && 1 <= v <= 100
    ensures (p - 1) * v >= 0
    ensures k < |OffsetPage(sorted, Some(p), Some(v))| <==> k < v && (p - 1) * v + k < |sorted|
    ensures k < v && (p - 1) * v + k < |sorted| ==>
              OffsetPage(sorted, Some(p), Some(v))[k] == sorted[(p - 1) * v + k]
  {
    SkipIsNatural(p - 1, v);
    OnePage(sorted, p, Some(v), v, (p - 1) * v);
  }

  /** Without a page, or with one below 1, the first page is meant. */
  lemma PageIsUsed(page: Option<int>, limit: Option<int>)
    ensures ParsePagination(page, limit).page
         == (match page case None => 1 case Some(v) => if v >= 1 then v else 1)
  {
  }

  /** totalPages is the least number of pages that hold all rows, none for an empty table; there is a previous page
      exactly when rows are skipped; and the rows are passed on. */
  lemma EnvelopeMeans(data: seq<Row>, page: Option<int>, limit: Option<int>, total: nat)
    ensures var o := ParsePagination(page, limit);
            var e := BuildPaginatedResponse(data, o, total);
            && e.data == data && (e.hasPreviousPage <==> o.skip > 0)
            && total <= o.limit * e.totalPages && (total > 0 ==> o.limit * (e.totalPages - 1) < total)
            && (total == 0 <==> e.totalPages == 0)
  {
    var o := ParsePagination(page, limit);
    var pages := TotalPagesBounds(total, o.limit);
    if o.page > 1 {
      ProductOrder(o.limit, 1, o.page - 1);
    }
  }

  /** Sorted ascending by a field, rows with smaller values come first and equal values are ordered by id; descending
      the other way round. */
  lemma SortFollowsField(rows: seq<Row>, field: string, dir: Direction, i: nat, j: nat)
    requires UniqueIds(rows) && field != "id" && i < j < |rows|
    requires forall r :: r in rows ==> field in r.values
    ensures var sorted := Sort(rows, Order(field, dir));
            && field in sorted[i].values && field in sorted[j].values
            && var (x, y) := if dir == Asc then (sorted[i], sorted[j]) else (sorted[j], sorted[i]);
               x.values[field] < y.values[field] || (x.values[field] == y.values[field] && Less(x.id, y.id))
  {
    var o := Order(field, dir);
    SortOrders(rows, o);
    var sorted := Sort(rows, o);
    assert sorted[i] in multiset(sorted) && sorted[j] in multiset(sorted);
    assert sorted[i] in rows && sorted[j] in rows;
    assert Before(sorted[i], sorted[j], o);
  }

  /** Sorted by id, rows come in the order of their ids, or in reverse. */
  lemma SortFollowsId(rows: seq<Row>, dir: Direction, i: nat, j: nat)
    requires UniqueIds(rows) && i < j < |rows|
    ensures var sorted := Sort(rows, Order("id", dir));
            if dir == Asc then Less(sorted[i].id, sorted[j].id) else Less(sorted[j].id, sorted[i].id)
  {
    SortOrders(rows, Order("id", dir));
    assert Before(Sort(rows, Order("id", dir))[i], Sort(rows, Order("id", dir))[j], Order("id", dir));
  }

  /** Ids are ordered by their first difference, and a proper prefix comes first. */
  lemma {:induction false} LessByFirstDifference(p: string, x: string, y: string)
    ensures Less(p + x, p + y) <==> Less(x, y)
    ensures x != "" && y != "" && x[0] < y[0] ==> Less(x, y)
    ensures x == "" && y != "" ==> Less(x, y)
  {
    if p == "" {
      assert p + x == x && p + y == y;
    } else {
      assert (p + x)[1..] == p[1..] + x && (p + y)[1..] == p[1..] + y;
      LessByFirstDifference(p[1..], x, y);
    }
  }
}
