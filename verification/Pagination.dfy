/** Page arithmetic, the pages a client sees by following HasNext, and the query behind every list. */
module Pagination {
  import opened Wrappers

  datatype PageQuery = PageQuery(page: int, pageSize: int)

  datatype PageResult<T> = PageResult(
    items: seq<T>, total: nat, page: int, pageSize: int, totalPages: int, hasNext: bool, hasPrev: bool)

  function Validate(q: PageQuery, maxPageSize: int): (r: Result<Unit>)
    ensures r.Ok? <==> 1 <= q.page && 1 <= q.pageSize && (0 < maxPageSize ==> q.pageSize <= maxPageSize)
  {
    if q.page < 1 || q.pageSize < 1 || (maxPageSize > 0 && q.pageSize > maxPageSize) then Err(ValidationFailed)
    else Ok(Unit.Unit)
  }

  /** What validation buys: exactly the accepted queries have a size and an offset that SQLite takes as
      they are, and then a page, of whatever rows, has at most page_size rows and none but those from the
      offset on; a page size over the maximum is the only other reason to refuse. */
  lemma ValidPages<T>(rows: seq<T>, q: PageQuery, maxPageSize: int)
    ensures Validate(q, maxPageSize).Ok? <==>
      1 <= q.pageSize && 0 <= Offset(q) && (0 < maxPageSize ==> q.pageSize <= maxPageSize)
    ensures Validate(q, maxPageSize).Ok? ==>
      var items := List(rows, q).items;
      && |items| <= q.pageSize && (0 < maxPageSize ==> |items| <= maxPageSize)
      && (Offset(q) <= |rows| ==> items <= rows[Offset(q)..]) && (Offset(q) > |rows| ==> items == [])
  {
    if q.pageSize >= 1 {
      Scale(if q.page >= 1 then 0 else q.page - 1, if q.page >= 1 then q.page - 1 else -1, q.pageSize);
    }
  }

  /** What a refused query would list: a page below 1 repeats page 1; a negative size lists every row from
      the offset on, so all of them from page 1 on; a size of zero lists none. */
  lemma InvalidPages<T>(rows: seq<T>, q: PageQuery)
    ensures q.page < 1 && q.pageSize >= 1 ==> List(rows, q).items == List(rows, q.(page := 1)).items
    ensures q.pageSize < 0 ==>
      List(rows, q).items == if q.page >= 1 then rows else if Offset(q) > |rows| then [] else rows[Offset(q)..]
    ensures q.pageSize == 0 ==> List(rows, q).items == []
  {
    OffsetSign(q);
  }

  lemma OffsetSign(q: PageQuery)
    ensures q.page < 1 && q.pageSize >= 1 ==> Offset(q) < 0
    ensures q.page >= 1 && q.pageSize < 0 ==> Offset(q) <= 0
    ensures q.page < 1 && q.pageSize < 0 ==> Offset(q) > 0
  {
    if q.pageSize >= 1 {
      SignOfProduct(1 - q.page, q.pageSize);
      assert Offset(q) == -((1 - q.page) * q.pageSize);
    } else if q.page >= 1 {
      SignOfProduct(q.page - 1, -q.pageSize);
      assert Offset(q) == -((q.page - 1) * -q.pageSize);
    } else {
      SignOfProduct(1 - q.page, -q.pageSize);
      assert Offset(q) == (1 - q.page) * -q.pageSize;
    }
  }

  lemma SignOfProduct(a: int, b: int)
    ensures a >= 0 && b >= 0 ==> a * b >= 0
    ensures a >= 1 && b >= 1 ==> a * b >= 1
  {
  }

  function Offset(q: PageQuery): int { (q.page - 1) * q.pageSize }

  function NewPageResult<T>(items: seq<T>, total: nat, page: int, pageSize: int): PageResult<T> {
    var totalPages := if pageSize > 0 then PageCount(total, pageSize) else 0;
    PageResult(items, total, page, pageSize, totalPages, page < totalPages, page > 1)
  }

  /** LIMIT ? OFFSET ? in SQLite: a negative offset counts as zero, a negative limit as none. */
  function Slice<T>(rows: seq<T>, limit: int, offset: int): seq<T> {
    var from := if offset < 0 then 0 else if offset > |rows| then |rows| else offset;
    if limit < 0 || limit > |rows| - from then rows[from..] else rows[from..from + limit]
  }

  function List<T>(rows: seq<T>, q: PageQuery): PageResult<T> {
    NewPageResult(Slice(rows, q.pageSize, Offset(q)), |rows|, q.page, q.pageSize)
  }

  /** The pages a client gets, from q's page on, while the last one says there is a next. */
  function Follow<T>(rows: seq<T>, q: PageQuery): seq<PageResult<T>>
    decreases List(rows, q).totalPages - q.page
  {
    var r := List(rows, q);
    [r] + if r.hasNext then Follow(rows, q.(page := q.page + 1)) else []
  }

  function Flatten<T>(pages: seq<PageResult<T>>): seq<T> {
    if pages == [] then [] else pages[0].items + Flatten(pages[1..])
  }

  /** Where page p starts, clamped to the end of the list. */
  function StartOf(total: nat, size: int, p: int): int {
    if (p - 1) * size < total then (p - 1) * size else total
  }

  function PageCount(total: nat, size: int): int
    requires size >= 1
  {
    (total + size - 1) / size
  }

  lemma Scale(a: int, b: int, size: int)
    requires a <= b && size >= 1
    ensures a * size <= b * size
  {
  }

  /** A page has a next one exactly when it ends before the list does. */
  lemma NextExactly(total: nat, size: int, p: int)
    requires size >= 1
    ensures p < PageCount(total, size) <==> p * size < total
    ensures (p - 1) * size + size == p * size
  {
    var n := PageCount(total, size);
    assert n * size <= total + size - 1 < n * size + size;
    if p < n {
      Scale(p + 1, n, size);
    } else {
      Scale(n, p, size);
    }
  }

  /** Main result 1. A page holds exactly the rows from its start to the next page's start: page_size of
      them, the rest on the last page, and none on a page past the last. */
  lemma PageItems<T>(rows: seq<T>, q: PageQuery)
    requires q.page >= 1 && q.pageSize >= 1
    ensures 0 <= StartOf(|rows|, q.pageSize, q.page) <= StartOf(|rows|, q.pageSize, q.page + 1) <= |rows|
    ensures List(rows, q).items == rows[StartOf(|rows|, q.pageSize, q.page)..StartOf(|rows|, q.pageSize, q.page + 1)]
    ensures var n := |List(rows, q).items|;
      if List(rows, q).hasNext then n == q.pageSize
      else if q.page == List(rows, q).totalPages then 1 <= n <= q.pageSize
      else n == 0
  {
    NextExactly(|rows|, q.pageSize, q.page);
    NextExactly(|rows|, q.pageSize, q.page - 1);
    Scale(0, q.page - 1, q.pageSize);
  }

  /** Main result 2. Whatever the total and the page size, following HasNext from page 1 ends after
      TotalPages pages (one empty page for an empty list), and the pages put together are the list:
      no row is lost, repeated or moved. HasPrev is false on the first page only, HasNext on the last. */
  lemma PagesPartition<T>(rows: seq<T>, size: int)
    requires size >= 1
    ensures var pages, n := Follow(rows, PageQuery(1, size)), PageCount(|rows|, size);
      && |pages| == (if n == 0 then 1 else n)
      && Flatten(pages) == rows
      && InOrder(rows, PageQuery(1, size), pages)
      && forall i :: 0 <= i < |pages| ==> (pages[i].hasPrev <==> i > 0) && (pages[i].hasNext <==> i < |pages| - 1)
  {
    FollowOrder(rows, PageQuery(1, size));
    FollowRows(rows, PageQuery(1, size));
    assert rows[0..] == rows;
    NextExactly(|rows|, size, 0);
  }

  lemma {:induction false} FollowOrder<T>(rows: seq<T>, q: PageQuery)
    requires q.page >= 1 && q.pageSize >= 1
    ensures var n := PageCount(|rows|, q.pageSize);
      |Follow(rows, q)| == if q.page < n then n - q.page + 1 else 1
    ensures InOrder(rows, q, Follow(rows, q))
    decreases PageCount(|rows|, q.pageSize) - q.page
  {
    if q.page < PageCount(|rows|, q.pageSize) {
      var next := q.(page := q.page + 1);
      FollowOrder(rows, next);
      FollowAhead(rows, q, Follow(rows, next));
    }
  }

  lemma {:induction false} FollowRows<T>(rows: seq<T>, q: PageQuery)
    requires q.page >= 1 && q.pageSize >= 1
    ensures 0 <= StartOf(|rows|, q.pageSize, q.page) <= |rows|
    ensures Flatten(Follow(rows, q)) == rows[StartOf(|rows|, q.pageSize, q.page)..]
    decreases PageCount(|rows|, q.pageSize) - q.page
  {
    var r, next := List(rows, q), q.(page := q.page + 1);
    PageItems(rows, q);
    if r.hasNext {
      FollowRows(rows, next);
      FlattenMore(r, Follow(rows, next));
      Rejoin(rows, StartOf(|rows|, q.pageSize, q.page), StartOf(|rows|, q.pageSize, next.page));
    } else {
      NextExactly(|rows|, q.pageSize, q.page);
      FlattenMore(r, []);
    }
  }

  lemma FlattenMore<T>(r: PageResult<T>, rest: seq<PageResult<T>>)
    ensures Flatten([r] + rest) == r.items + Flatten(rest)
  {
    assert ([r] + rest)[1..] == rest;
  }

  lemma Rejoin<T>(rows: seq<T>, a: nat, b: nat)
    requires a <= b <= |rows|
    ensures rows[a..b] + rows[b..] == rows[a..]
  {
  }

  /** The i-th page followed from q is page q.page + i. */
  ghost predicate InOrder<T>(rows: seq<T>, q: PageQuery, pages: seq<PageResult<T>>) {
    forall i :: 0 <= i < |pages| ==> pages[i] == List(rows, q.(page := q.page + i))
  }

  lemma FollowAhead<T>(rows: seq<T>, q: PageQuery, rest: seq<PageResult<T>>)
    requires InOrder(rows, q.(page := q.page + 1), rest)
    ensures InOrder(rows, q, [List(rows, q)] + rest)
  {
    var next := q.(page := q.page + 1);
    forall i | 0 <= i < |rest| ensures rest[i] == List(rows, q.(page := q.page + (i + 1))) {
      assert next.(page := next.page + i) == q.(page := q.page + (i + 1));
    }
  }

  // ---- the query text

  datatype Arg = Text(value: string) | Number(n: int)

  datatype PageParams = PageParams(
    pageSize: int, offset: int, orderBy: string, orderDir: string, filters: map<string, string>)

  function Join(parts: seq<string>): string {
    if |parts| == 0 then "" else if |parts| == 1 then parts[0]
    else Join(parts[..|parts| - 1]) + " AND " + parts[|parts| - 1]
  }

  method JoinAnd(parts: seq<string>) returns (result: string)
    ensures result == Join(parts)
  {
    result := "";
    for i := 0 to |parts|
      invariant result == Join(parts[..i])
    {
      if i > 0 {
        result := result + " AND ";
      }
      result := result + parts[i];
      assert parts[..i + 1][..i] == parts[..i];
    }
    assert parts[..|parts|] == parts;
  }

  function Clauses(columns: seq<string>): (clauses: seq<string>)
    ensures |clauses| == |columns|
  {
    seq(|columns|, i requires 0 <= i < |columns| => columns[i] + " = ?")
  }

  function Values(columns: seq<string>, filters: map<string, string>): (args: seq<Arg>)
    requires forall c :: c in columns ==> c in filters
    ensures |args| == |columns|
  {
    seq(|columns|, i requires 0 <= i < |columns| => Text(filters[columns[i]]))
  }

  /** An enumeration of a map's keys, each once. */
  ghost predicate Enumerates(columns: seq<string>, filters: map<string, string>) {
    && (forall c :: c in columns <==> c in filters)
    && NoTwice(columns)
  }

  ghost predicate NoTwice(columns: seq<string>) {
    forall i, j :: 0 <= i < j < |columns| ==> columns[i] != columns[j]
  }

  function Where(columns: seq<string>): string {
    if columns == [] then "" else " WHERE " + Join(Clauses(columns))
  }

  function OrderText(q: PageParams): string {
    if q.orderBy != "" then " ORDER BY " + q.orderBy + " " + q.orderDir else " ORDER BY created_at DESC"
  }

  function Query(base: string, columns: seq<string>, q: PageParams): string {
    base + Where(columns) + OrderText(q) + " LIMIT ? OFFSET ?"
  }

  lemma AppendColumn(columns: seq<string>, col: string, filters: map<string, string>)
    requires col in filters && forall c :: c in columns ==> c in filters
    requires NoTwice(columns) && col !in columns
    ensures NoTwice(columns + [col])
    ensures Clauses(columns + [col]) == Clauses(columns) + [col + " = ?"]
    ensures Values(columns + [col], filters) == Values(columns, filters) + [Text(filters[col])]
  {
    forall i | 0 <= i < |columns| ensures columns[i] != col {
      assert columns[i] in columns;
    }
  }

  /** The loop over the filters. A map is walked in no particular order. */
  method Conditions(filters: map<string, string>)
    returns (clauses: seq<string>, args: seq<Arg>, ghost columns: seq<string>)
    ensures Enumerates(columns, filters)
    ensures clauses == Clauses(columns) && args == Values(columns, filters)
  {
    clauses, args, columns := [], [], [];
    var rest := filters.Keys;
    while rest != {}
      invariant rest <= filters.Keys
      invariant forall c :: c in columns <==> c in filters.Keys - rest
      invariant NoTwice(columns)
      invariant clauses == Clauses(columns) && args == Values(columns, filters)
      decreases |rest|
    {
      var col :| col in rest;
      AppendColumn(columns, col, filters);
      clauses := clauses + [col + " = ?"];
      args := args + [Text(filters[col])];
      columns := columns + [col];
      rest := rest - {col};
    }
  }

  /** Every filter becomes one clause, and the arguments are the filters' values in the order of their
      clauses, then the page size and the offset. */
  method BuildListQuery(base: string, q: PageParams) returns (query: string, args: seq<Arg>)
    ensures exists columns :: Enumerates(columns, q.filters) && query == Query(base, columns, q)
              && args == Values(columns, q.filters) + [Number(q.pageSize), Number(q.offset)]
  {
    args, query := [], base;
    ghost var columns := [];
    if |q.filters| > 0 {
      var clauses;
      clauses, args, columns := Conditions(q.filters);
      var conditions := JoinAnd(clauses);
      ghost var some :| some in q.filters;
      assert some in columns;
      query := query + " WHERE ";
      query := query + conditions;
      assert query == base + Where(columns);
    }
    if q.orderBy != "" {
      query := query + (" ORDER BY " + q.orderBy + " " + q.orderDir);
    } else {
      query := query + " ORDER BY created_at DESC";
    }
    args := args + [Number(q.pageSize), Number(q.offset)];
    query := query + " LIMIT ? OFFSET ?";
    assert Enumerates(columns, q.filters) && query == Query(base, columns, q);
  }

  /** The text for no filter and for two. */
  lemma QueryText(base: string, a: string, b: string, q: PageParams)
    ensures var order := if q.orderBy == "" then " ORDER BY created_at DESC"
                         else " ORDER BY " + q.orderBy + " " + q.orderDir;
      && Query(base, [], q) == base + order + " LIMIT ? OFFSET ?"
      && Query(base, [a, b], q) ==
           base + (" WHERE " + (a + " = ?" + " AND " + (b + " = ?"))) + order + " LIMIT ? OFFSET ?"
  {
    var clauses := Clauses([a, b]);
    assert clauses == [a + " = ?", b + " = ?"];
    assert Join(clauses[..1]) == a + " = ?";
    assert base + "" == base;
  }

  function Marks(s: string): nat { multiset(s)['?'] }

  lemma {:induction false} MarksJoin(columns: seq<string>)
    requires forall i :: 0 <= i < |columns| ==> Marks(columns[i]) == 0
    ensures Marks(Join(Clauses(columns))) == |columns|
  {
    if columns != [] {
      var init, last := columns[..|columns| - 1], columns[|columns| - 1];
      assert Clauses(columns)[..|columns| - 1] == Clauses(init);
      MarksJoin(init);
      FixedTextMarks();
      MarksOfFour(Join(Clauses(init)), " AND ", last, " = ?");
    }
  }

  lemma MarksOfFour(a: string, b: string, c: string, d: string)
    ensures Marks(a + b + c + d) == Marks(a) + Marks(b) + Marks(c) + Marks(d)
  {
  }

  lemma NoMarks(s: string)
    requires '?' !in s
    ensures Marks(s) == 0
  {
  }

  lemma PageMarks()
    ensures Marks(" LIMIT ? OFFSET ?") == 2
  {
  }

  lemma FixedTextMarks()
    ensures Marks(" WHERE ") == Marks(" AND ") == 0 && Marks(" = ?") == 1
  {
    NoMarks(" WHERE ");
    NoMarks(" AND ");
  }

  lemma WhereMarks(columns: seq<string>)
    requires forall i :: 0 <= i < |columns| ==> Marks(columns[i]) == 0
    ensures Marks(Where(columns)) == |columns|
  {
    MarksJoin(columns);
    FixedTextMarks();
    MarksOfFour(" WHERE ", Join(Clauses(columns)), "", "");
  }

  lemma OrderMarks(q: PageParams)
    requires Marks(q.orderBy) == Marks(q.orderDir) == 0
    ensures Marks(OrderText(q)) == 0
  {
    if q.orderBy != "" {
      NoMarks(" ORDER BY ");
      NoMarks(" ");
      MarksOfFour(" ORDER BY ", q.orderBy, " ", q.orderDir);
    } else {
      NoMarks(" ORDER BY created_at DESC");
    }
  }

  /** Main result 3. The statement has a place for each argument and no more, if no '?' is hidden in the
      texts that are pasted in. */
  lemma PlacesMatchArguments(base: string, columns: seq<string>, q: PageParams)
    requires Enumerates(columns, q.filters) && Marks(base) == Marks(q.orderBy) == Marks(q.orderDir) == 0
    requires forall i :: 0 <= i < |columns| ==> Marks(columns[i]) == 0
    ensures Marks(Query(base, columns, q)) == |Values(columns, q.filters)| + 2
  {
    WhereMarks(columns);
    OrderMarks(q);
    MarksOfFour(base, Where(columns), OrderText(q), " LIMIT ? OFFSET ?");
    PageMarks();
  }
}
