/**
 * The admin dashboard's client state (`src/app/admin/page.tsx`): the status
 * filter, the search text, the page and the page count, the loading and
 * login flags, the rows on screen and the status tally. Each handler and
 * each settled request is a method of `Dashboard`; the requests themselves
 * are not modelled, only what their answers do to the state.
 */
module AdminDashboard {
  import opened Wrappers
  import opened JsText
  import opened Submissions
  import ListRoute

  /** The filter tabs: every status, or one. */
  datatype Filter = All | Only(status: Status)

  /** The tab's value as sent in the `filter` parameter. */
  function FilterName(f: Filter): (name: string)
    ensures name != ""
    ensures f == All <==> name == "all"
  {
    match f
    case All => "all"
    case Only(s) => StatusName(s)
  }

  datatype Stats = Stats(total: nat, pending: nat, approved: nat, rejected: nat)

  const PageSize: nat := 10
  const LoginFailed: string := "Login failed"
  const NetworkError: string := "A network error occurred. Please check your connection."

  // ---------------------------------------------------------------------------
  // The status tally of the rows on screen

  /** `rows.filter(s => s.status === status).length`. */
  function CountStatus(rows: seq<Submission>, status: Status): (n: nat)
    ensures n <= |rows|
  {
    if rows == [] then 0
    else CountStatus(rows[..|rows| - 1], status) + (if rows[|rows| - 1].status == status then 1 else 0)
  }

  /** Every row has exactly one of the three statuses, so the three counts
      add up to the number of rows. */
  lemma {:induction false} TallyCoversRows(rows: seq<Submission>)
    ensures CountStatus(rows, Pending) + CountStatus(rows, Approved) + CountStatus(rows, Rejected) == |rows|
  {
    if rows != [] {
      TallyCoversRows(rows[..|rows| - 1]);
    }
  }

  /** Counting over two runs of rows adds the counts. */
  lemma {:induction false} CountStatusAppend(a: seq<Submission>, b: seq<Submission>, status: Status)
    ensures CountStatus(a + b, status) == CountStatus(a, status) + CountStatus(b, status)
  {
    if b != [] {
      assert (a + b)[..|a + b| - 1] == a + b[..|b| - 1];
      assert (a + b)[|a + b| - 1] == b[|b| - 1];
      CountStatusAppend(a, b[..|b| - 1], status);
    } else {
      assert a + b == a;
    }
  }

  /** The stats set from a list answer: `count || rows.length` as the total,
      the per-status counts of the rows on screen. */
  function LocalTally(rows: seq<Submission>, count: Option<nat>): (st: Stats)
    ensures st.pending == CountStatus(rows, Pending) && st.approved == CountStatus(rows, Approved)
            && st.rejected == CountStatus(rows, Rejected)
    ensures st.pending + st.approved + st.rejected == |rows|
    ensures count.Some? && count.value != 0 ==> st.total == count.value
    ensures count.None? || count.value == 0 ==> st.total == |rows|
  {
    TallyCoversRows(rows);
    var total := if count.Some? && count.value != 0 then count.value else |rows|;
    Stats(total, CountStatus(rows, Pending), CountStatus(rows, Approved), CountStatus(rows, Rejected))
  }

  /** `res.totalPages || 1`: an absent (null) or zero count of pages shows as one page. */
  function PagesOrOne(totalPages: Option<int>): (n: int)
    ensures totalPages.None? || totalPages.value == 0 ==> n == 1
    ensures totalPages.Some? && totalPages.value != 0 ==> n == totalPages.value
    ensures totalPages.None? || totalPages.value >= 0 ==> n >= 1
  {
    match totalPages
    case None => 1
    case Some(t) => if t == 0 then 1 else t
  }

  /** The pagination bar shows once loading is over and there is more than one page. */
  predicate PaginationShown(isLoading: bool, totalPages: int) {
    !isLoading && totalPages > 1
  }

  /** With 10 rows a page, the bar shows after a list answer exactly when
      the filter matches more than 10 rows. */
  lemma PaginationNeedsElevenRows(count: nat)
    ensures PaginationShown(false, PagesOrOne(ListRoute.TotalPages(Some(count), Int(PageSize)))) <==> count > PageSize
  {
    var t := ListRoute.CeilDiv(count, PageSize);
    assert (t - 1) * 10 < count <= t * 10;
  }

  // ---------------------------------------------------------------------------
  // What a row offers

  datatype Action = EditNote | Approve | Reject

  /** The buttons of a table row: the note button always, approve and
      reject only while the row is pending. */
  function RowActions(row: Submission): (actions: seq<Action>)
    ensures EditNote in actions
    ensures Approve in actions <==> row.status == Pending
    ensures Reject in actions <==> row.status == Pending
  {
    if row.status == Pending then [EditNote, Approve, Reject] else [EditNote]
  }

  /** How a login request settled: success, a refusal with the server's
      `error` text (possibly absent), or a thrown network error. */
  datatype LoginOutcome = LoggedIn | Refused(error: Option<string>) | Unreachable

  // ---------------------------------------------------------------------------
  // The dashboard

  class Dashboard {
    var filter: Filter
    var search: string
    var page: int
    var totalPages: int
    var isLoading: bool
    var isLoggingIn: bool
    var loginError: Option<string>
    var submissions: seq<Submission>
    var stats: Stats

    /** Page numbers and page counts are at least 1. */
    ghost predicate Valid()
      reads this
    {
      1 <= page && 1 <= totalPages
    }

    /** The page lies within the known page count. */
    ghost predicate InRange()
      reads this
    {
      1 <= page <= totalPages
    }

    constructor()
      ensures Valid() && InRange()
      ensures filter == All && search == "" && page == 1 && totalPages == 1
      ensures isLoading && !isLoggingIn && loginError.None?
      ensures submissions == [] && stats == Stats(0, 0, 0, 0)
    {
      filter := All;
      search := "";
      page := 1;
      totalPages := 1;
      isLoading := true;
      isLoggingIn := false;
      loginError := None;
      submissions := [];
      stats := Stats(0, 0, 0, 0);
    }

    /** A filter tab: the filter changes and the page goes back to 1. */
    method SelectFilter(f: Filter)
      requires Valid()
      modifies this
      ensures Valid() && InRange() && filter == f && page == 1
      ensures search == old(search) && totalPages == old(totalPages) && isLoading == old(isLoading)
      ensures isLoggingIn == old(isLoggingIn) && loginError == old(loginError)
      ensures submissions == old(submissions) && stats == old(stats)
    {
      filter := f;
      page := 1;
    }

    /** Typing in the search box: the text changes and the page goes back to 1. */
    method EditSearch(text: string)
      requires Valid()
      modifies this
      ensures Valid() && InRange() && search == text && page == 1
      ensures filter == old(filter) && totalPages == old(totalPages) && isLoading == old(isLoading)
      ensures isLoggingIn == old(isLoggingIn) && loginError == old(loginError)
      ensures submissions == old(submissions) && stats == old(stats)
    {
      search := text;
      page := 1;
    }

    /** `setPage(p => Math.max(1, p - 1))`. */
    method PreviousPage()
      requires Valid()
      modifies `page
      ensures Valid()
      ensures page == if old(page) - 1 >= 1 then old(page) - 1 else 1
      ensures old(InRange()) ==> InRange()
    {
      page := if page - 1 >= 1 then page - 1 else 1;
    }

    /** `setPage(p => Math.min(totalPages, p + 1))`. */
    method NextPage()
      requires Valid()
      modifies `page
      ensures Valid()
      ensures page == if old(page) + 1 <= totalPages then old(page) + 1 else totalPages
      ensures old(InRange()) ==> InRange() && page >= old(page)
    {
      page := if page + 1 <= totalPages then page + 1 else totalPages;
    }

    /** A list request goes out. */
    method FetchStarted()
      requires Valid()
      modifies `isLoading
      ensures Valid()
      ensures isLoading
    {
      isLoading := true;
    }

    /** The list answered: its rows, `count` and `totalPages`. The page
        number is left as it is, even when the new count is smaller. */
    method ListLoaded(rows: Option<seq<Submission>>, count: Option<nat>, resTotalPages: Option<int>)
      requires Valid()
      requires resTotalPages.None? || resTotalPages.value >= 0
      modifies this
      ensures Valid()
      ensures submissions == rows.GetOr([])
      ensures totalPages == PagesOrOne(resTotalPages)
      ensures stats == LocalTally(rows.GetOr([]), count)
      ensures page == old(page) && filter == old(filter) && search == old(search)
      ensures isLoading == old(isLoading) && isLoggingIn == old(isLoggingIn) && loginError == old(loginError)
    {
      submissions := rows.GetOr([]);
      totalPages := PagesOrOne(resTotalPages);
      stats := LocalTally(submissions, count);
    }

    /** The global stats answered; an answer without a numeric total is ignored. */
    method GlobalStatsLoaded(global: Option<Stats>)
      requires Valid()
      modifies `stats
      ensures Valid()
      ensures stats == if global.Some? then global.value else old(stats)
    {
      if global.Some? {
        stats := global.value;
      }
    }

    /** The list request settled, by success or failure. */
    method FetchSettled()
      requires Valid()
      modifies `isLoading
      ensures Valid()
      ensures !isLoading
    {
      isLoading := false;
    }

    /** The login form is submitted: ignored while a login is in flight,
        otherwise the flag is raised and the old error cleared. */
    method LoginSubmitted() returns (started: bool)
      requires Valid()
      modifies `isLoggingIn, `loginError
      ensures Valid()
      ensures started <==> !old(isLoggingIn)
      ensures isLoggingIn
      ensures started ==> loginError.None?
      ensures !started ==> loginError == old(loginError)
    {
      if isLoggingIn {
        return false;
      }
      isLoggingIn := true;
      loginError := None;
      started := true;
    }

    /** The login request settled: the flag drops, and a failure leaves its message. */
    method LoginFinished(outcome: LoginOutcome)
      requires Valid()
      modifies `isLoggingIn, `loginError
      ensures Valid()
      ensures !isLoggingIn
      ensures outcome.LoggedIn? ==> loginError == old(loginError)
      ensures outcome.Refused? ==> loginError == Some(OrElse(outcome.error, LoginFailed))
      ensures outcome.Unreachable? ==> loginError == Some(NetworkError)
    {
      isLoggingIn := false;
      match outcome
      case LoggedIn =>
      case Refused(error) => loginError := Some(OrElse(error, LoginFailed));
      case Unreachable => loginError := Some(NetworkError);
    }

    /** The list request of the current state:
        `filter`, `search`, `page` and a page size of 10. */
    function ListRequest(): (p: ListRoute.Params)
      reads this
      requires Valid()
      ensures p.filter == Some(FilterName(filter)) && p.search == Some(search)
      ensures p.page == Some(DecimalString(page)) && p.pageSize == Some(DecimalString(PageSize))
    {
      ListRoute.Params(Some(FilterName(filter)), Some(search), Some(DecimalString(page)),
                       Some(DecimalString(PageSize)))
    }
  }

  /** The list route reads the dashboard's request back as sent: the tab's
      filter, the search text, the page and 10 rows a page. */
  lemma RequestReadBack(f: Filter, search: string, page: nat)
    ensures ListRoute.ReadParams(ListRoute.Params(Some(FilterName(f)), Some(search),
                                                  Some(DecimalString(page)), Some(DecimalString(PageSize))))
            == ListRoute.Settings(FilterName(f), search, Int(page), Int(PageSize))
  {
    ListRoute.DecimalParams(FilterName(f), search, page, PageSize);
  }

  /** With the page size of 10 the route's page count is present and not
      negative, which is what `ListLoaded` expects. */
  lemma RouteTotalMeetsListLoaded(count: Option<nat>)
    ensures var t := ListRoute.TotalPages(count, Int(PageSize));
            t.Some? && t.value >= 0 && PagesOrOne(t) >= 1
  {
    ListRoute.TotalPagesBounds(count, PageSize);
  }

  /** A page beyond the new count is kept: after three pages of rows shrink
      to two, the dashboard shows page 3 of 2 with the pagination bar up, and
      Next (enabled, since the page is not the last) then moves back to 2. */
  method StalePageScenario() returns (stale: int, total: int, barShown: bool, afterNext: int)
    ensures stale == 3 && total == 2 && barShown && afterNext == 2
  {
    var d := new Dashboard();
    d.ListLoaded(None, Some(30), Some(3));
    d.FetchSettled();
    d.NextPage();
    d.NextPage();
    d.FetchStarted();
    d.ListLoaded(None, Some(15), Some(2));
    d.FetchSettled();
    stale, total := d.page, d.totalPages;
    barShown := PaginationShown(d.isLoading, d.totalPages);
    d.NextPage();
    afterNext := d.page;
  }
}
