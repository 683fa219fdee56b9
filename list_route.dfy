/**
 * `GET /api/admin/list` (`src/app/api/admin/list/route.ts`): the admin gate,
 * the query parameters with their defaults, the filter conditions, the row
 * range of the requested page and the page count sent back. The database is
 * a parameter: it answers the query the route builds.
 */
module ListRoute {
  import opened Wrappers
  import opened JsText
  import opened Http
  import opened AdminAuth
  import opened Submissions

  /** `searchParams.get(name)` for the four parameters: `None` when absent. */
  datatype Params = Params(filter: Option<string>, search: Option<string>,
                           page: Option<string>, pageSize: Option<string>)

  /** The parameters as the route reads them; `parseInt` may give NaN. */
  datatype Settings = Settings(filter: string, search: string, page: Num, pageSize: Num)

  function ReadParams(p: Params): (s: Settings)
    ensures p.filter.None? || p.filter.value == "" ==> s.filter == "all"
    ensures p.filter.Some? && p.filter.value != "" ==> s.filter == p.filter.value
    ensures s.search == p.search.GetOr("")
    ensures p.page.Some? && p.page.value != "" ==> s.page == ParseInt(p.page.value)
    ensures p.page.None? || p.page.value == "" ==> s.page == Int(1)
    ensures p.pageSize.Some? && p.pageSize.value != "" ==> s.pageSize == ParseInt(p.pageSize.value)
    ensures p.pageSize.None? || p.pageSize.value == "" ==> s.pageSize == Int(10)
  {
    ParseIntDecimal(1);
    ParseIntDecimal(10);
    assert DecimalString(1) == "1";
    assert DecimalString(10) == "10";
    Settings(OrElse(p.filter, "all"), OrElse(p.search, ""),
             ParseInt(OrElse(p.page, "1")), ParseInt(OrElse(p.pageSize, "10")))
  }

  /** With no parameters: every status, no search, page 1 of 10 rows. */
  lemma Defaults()
    ensures ReadParams(Params(None, None, None, None)) == Settings("all", "", Int(1), Int(10))
  {
    ParseIntDecimal(1);
    ParseIntDecimal(10);
    assert DecimalString(1) == "1";
    assert DecimalString(10) == "10";
  }

  /** A page number written in decimal is read back exactly. */
  lemma DecimalParams(filter: string, search: string, page: nat, pageSize: nat)
    ensures ReadParams(Params(Some(filter), Some(search), Some(DecimalString(page)),
                              Some(DecimalString(pageSize))))
            == Settings(OrElse(Some(filter), "all"), search, Int(page), Int(pageSize))
  {
    ParseIntDecimal(page);
    ParseIntDecimal(pageSize);
  }

  // ---------------------------------------------------------------------------
  // Filter conditions

  /** The conditions added to the base query (ordered by newest first). */
  datatype Condition = StatusIs(status: string) | Matches(search: string)

  /** `eq('status', filter)` unless the filter is 'all'; the `ilike` pair on
      handle and wallet when the search text is not empty. */
  function Conditions(filter: string, search: string): (cs: seq<Condition>)
    ensures StatusIs(filter) in cs <==> filter != "all"
    ensures Matches(search) in cs <==> search != ""
    ensures forall c :: c in cs ==> c == StatusIs(filter) || c == Matches(search)
  {
    (if filter != "all" then [StatusIs(filter)] else [])
    + (if search != "" then [Matches(search)] else [])
  }

  // ---------------------------------------------------------------------------
  // Page range

  /** The first row index of a page, counted from 0. */
  function From(page: int, pageSize: int): int {
    (page - 1) * pageSize
  }

  /** The last row index of a page, inclusive. */
  function To(page: int, pageSize: int): int {
    From(page, pageSize) + pageSize - 1
  }

  /** A page spans exactly `pageSize` indices, and the next one starts right after it. */
  lemma PagesTile(page: int, pageSize: int)
    ensures To(page, pageSize) - From(page, pageSize) + 1 == pageSize
    ensures To(page, pageSize) + 1 == From(page + 1, pageSize)
  {
    assert page * pageSize == (page - 1) * pageSize + pageSize;
  }

  /** Every row index lies on exactly one page, for a positive page size. */
  lemma PageOfRow(i: nat, pageSize: int) returns (page: int)
    requires pageSize > 0
    ensures page >= 1 && From(page, pageSize) <= i <= To(page, pageSize)
    ensures forall p :: From(p, pageSize) <= i <= To(p, pageSize) ==> p == page
  {
    page := i / pageSize + 1;
    assert From(page, pageSize) == (i / pageSize) * pageSize;
    forall p | From(p, pageSize) <= i <= To(p, pageSize)
      ensures p == page
    {
      if p < page {
        MulMonotone(p, page - 1, pageSize);
      } else if p > page {
        MulMonotone(page, p - 1, pageSize);
      }
    }
  }

  lemma MulMonotone(a: int, b: int, c: int)
    requires a <= b && c > 0
    ensures a * c <= b * c
  {
  }

  /** `(from, to)` of `range(from, to)`; `None` when either number is NaN. */
  function PageRange(page: Num, pageSize: Num): (r: Option<(int, int)>)
    ensures r.Some? <==> page.Int? && pageSize.Int?
    ensures r.Some? ==> r.value.1 - r.value.0 + 1 == pageSize.value
  {
    if page.Int? && pageSize.Int? then
      PagesTile(page.value, pageSize.value);
      Some((From(page.value, pageSize.value), To(page.value, pageSize.value)))
    else None
  }

  /** The query sent to the database: the conditions and the row range. */
  datatype Query = Query(conditions: seq<Condition>, range: Option<(int, int)>)

  function ListQuery(s: Settings): Query {
    Query(Conditions(s.filter, s.search), PageRange(s.page, s.pageSize))
  }

  // ---------------------------------------------------------------------------
  // Page count

  /** `Math.ceil(count / pageSize)` for a non-zero divisor. */
  function CeilDiv(count: nat, pageSize: int): (t: int)
    requires pageSize != 0
    ensures pageSize > 0 ==> t >= 0 && (t - 1) * pageSize < count <= t * pageSize
    ensures pageSize < 0 ==> t <= 0 && t * pageSize <= count < (t - 1) * pageSize
  {
    if pageSize > 0 then
      var t := (count + pageSize - 1) / pageSize;
      CeilBounds(count, pageSize, t, (count + pageSize - 1) % pageSize);
      t
    else
      var d := -pageSize;
      var q := count / d;
      FloorBounds(count, d, q, count % d);
      -q
  }

  lemma CeilBounds(c: nat, d: int, t: int, m: int)
    requires d > 0 && c + d - 1 == t * d + m && 0 <= m < d
    ensures t >= 0 && (t - 1) * d < c <= t * d
  {
    assert (t - 1) * d == t * d - d;
    if t < 0 {
      MulMonotone(t, -1, d);
    }
  }

  lemma FloorBounds(c: nat, d: int, q: int, m: int)
    requires d > 0 && c == q * d + m && 0 <= m < d
    ensures -q <= 0 && (-q) * (-d) <= c < (-q - 1) * (-d)
  {
    assert (-q) * (-d) == q * d;
    assert (-q - 1) * (-d) == q * d + d;
    if q < 0 {
      MulMonotone(q, -1, d);
    }
  }

  /** `Math.ceil((count || 0) / pageSize)`; `None` is NaN or an infinity
      (a zero or NaN page size), which the JSON body carries as null. */
  function TotalPages(count: Option<nat>, pageSize: Num): (t: Option<int>)
    ensures pageSize.NaN? || pageSize == Int(0) ==> t.None?
    ensures pageSize.Int? && pageSize.value != 0 ==> t == Some(CeilDiv(count.GetOr(0), pageSize.value))
  {
    match pageSize
    case NaN => None
    case Int(size) => if size == 0 then None else Some(CeilDiv(count.GetOr(0), size))
  }

  /** For a positive page size: no rows give no pages, otherwise the last page
      is the one holding the last row. */
  lemma TotalPagesBounds(count: Option<nat>, pageSize: int)
    requires pageSize > 0
    ensures var t := TotalPages(count, Int(pageSize));
            t.Some? && t.value >= 0
            && (count.GetOr(0) == 0 <==> t.value == 0)
            && (count.GetOr(0) > 0 ==> From(t.value, pageSize) < count.GetOr(0) <= To(t.value, pageSize) + 1)
  {
    var c := count.GetOr(0);
    var t := CeilDiv(c, pageSize);
    if c == 0 && t != 0 {
      MulMonotone(1, t, pageSize);
    }
  }

  // ---------------------------------------------------------------------------
  // The handler

  /** What the database answered: an error, or the rows and the exact count. */
  datatype QueryResult = QueryFailed | Rows(data: Option<seq<Submission>>, count: Option<nat>)

  datatype ListBody = ListBody(submissions: seq<Submission>, count: nat, totalPages: Option<int>)

  function List(user: Option<string>, lookup: AdminLookup, params: Params,
                database: Query -> QueryResult): (r: Response<ListBody>)
    ensures user.None? ==> r == Fail(401, "Unauthorized")
    ensures user.Some? && lookup != AdminRow ==> r == Fail(403, "Forbidden: Admin access required")
    ensures user.Some? && lookup == AdminRow ==>
              var s := ReadParams(params);
              match database(ListQuery(s))
              case QueryFailed => r == Fail(500, InternalError)
              case Rows(data, count) =>
                r == Ok(ListBody(data.GetOr([]), count.GetOr(0), TotalPages(count, s.pageSize)))
  {
    match AdminGate(user, lookup)
    case Some(denial) => Fail(denial.status, denial.error)
    case None =>
      var s := ReadParams(params);
      match database(ListQuery(s))
      case QueryFailed => Fail(500, InternalError)
      case Rows(data, count) => Ok(ListBody(data.GetOr([]), count.GetOr(0), TotalPages(count, s.pageSize)))
  }

  /** A denied request is decided before any parameter is read or any query is run. */
  lemma DeniedBeforeParameters(user: Option<string>, lookup: AdminLookup,
                               p1: Params, db1: Query -> QueryResult,
                               p2: Params, db2: Query -> QueryResult)
    requires user.None? || lookup != AdminRow
    ensures List(user, lookup, p1, db1) == List(user, lookup, p2, db2)
    ensures List(user, lookup, p1, db1).Fail?
  {
  }
}
