/**
 * `POST /api/status` (`src/app/api/status/route.ts`): the presence check on
 * the query, the lower-cased query `q` and its '@' form, the filter string
 * sent to the database, and the response built from the lookup. The
 * database is a parameter that answers the filter string.
 */
module StatusRoute {
  import opened Wrappers
  import opened JsText
  import opened Http
  import opened Submissions
  import SubmitRoute

  const QueryRequired: string := "Search query is required"
  const LookupError: string := "Database lookup failed"
  const NoSubmission: string := "No submission found"

  /** The JSON body: `None` when it does not parse or is `null`, whose
      property read throws; any other value that is not an object reads as
      an absent query. */
  datatype StatusBody = StatusBody(query: Option<string>)

  /** No ASCII capital letter in `s`. */
  ghost predicate NoCapitals(s: string) {
    forall i :: 0 <= i < |s| ==> !('A' <= s[i] <= 'Z')
  }

  /** `query.trim().toLowerCase()`. */
  function NormalizeQuery(query: string): (q: string)
    ensures Trimmed(q) && NoCapitals(q)
    ensures |q| == |Trim(query)| <= |query|
  {
    var t := Trim(query);
    LowerKeepsTrimmed(t);
    ToLower(t)
  }

  /** Lower-casing touches no whitespace, so a trimmed string stays trimmed. */
  lemma LowerKeepsTrimmed(t: string)
    requires Trimmed(t)
    ensures Trimmed(ToLower(t))
  {
    if t != [] {
      LowerCharWhitespace(t[0]);
      LowerCharWhitespace(t[|t| - 1]);
    }
  }

  lemma LowerCharWhitespace(c: char)
    ensures IsWhitespace(LowerChar(c)) <==> IsWhitespace(c)
  {
  }

  /** Searching for a query already in normal form searches for the same text. */
  lemma NormalizeQueryIdempotent(query: string)
    ensures NormalizeQuery(NormalizeQuery(query)) == NormalizeQuery(query)
  {
    var q := NormalizeQuery(query);
    TrimOfTrimmed(q);
    assert ToLower(q) == q;
  }

  /** `q` when it starts with '@', otherwise '@' in front of it. */
  function TwitterQuery(q: string): (tq: string)
    ensures StartsWith(tq, "@")
    ensures StartsWith(q, "@") ==> tq == q
    ensures !StartsWith(q, "@") ==> |tq| == |q| + 1 && tq[1..] == q
    ensures NoCapitals(q) ==> NoCapitals(tq)
  {
    if StartsWith(q, "@") then q else "@" + q
  }

  lemma TwitterQueryIdempotent(q: string)
    ensures TwitterQuery(TwitterQuery(q)) == TwitterQuery(q)
  {
  }

  /** The `or` filter: the wallet or the handle equal to `q`, or the handle equal to `twitterQ`. */
  function FilterString(q: string): (f: string)
    ensures f == Join(["wallet_address.eq." + q, "twitter_username.eq." + q,
                       "twitter_username.eq." + TwitterQuery(q)], ",")
  {
    JoinThree("wallet_address.eq." + q, "twitter_username.eq." + q,
              "twitter_username.eq." + TwitterQuery(q), ",");
    "wallet_address.eq." + q + "," + "twitter_username.eq." + q + ","
    + "twitter_username.eq." + TwitterQuery(q)
  }

  /** A query without a comma yields exactly the three intended terms. */
  lemma FilterTerms(q: string)
    requires ',' !in q
    ensures Split(FilterString(q), ',') == ["wallet_address.eq." + q, "twitter_username.eq." + q,
                                            "twitter_username.eq." + TwitterQuery(q)]
  {
    var tq := TwitterQuery(q);
    assert ',' !in tq by {
      if !StartsWith(q, "@") {
        assert tq == "@" + q;
      }
    }
    SplitJoin(["wallet_address.eq." + q, "twitter_username.eq." + q, "twitter_username.eq." + tq], ',');
  }

  /** The query is interpolated unescaped: a comma in it ends the wallet
      term early, and what follows the comma becomes a filter term of the
      caller's choosing. */
  lemma CommaInQueryAddsTerms(a: string, b: string)
    requires ',' !in a && ',' !in b
    ensures var terms := Split(FilterString(a + "," + b), ',');
            |terms| >= 2 && terms[0] == "wallet_address.eq." + a && terms[1] == b
  {
    var x := "wallet_address.eq." + a;
    var rest := FilterAfterComma(a, b);
    assert ',' !in x;
    TwoLeadingTerms(x, b, rest);
  }

  /** The filter of `a,b` is the wallet term of `a`, a comma, `b`, a comma and the rest. */
  lemma FilterAfterComma(a: string, b: string) returns (rest: string)
    ensures FilterString(a + "," + b) == ("wallet_address.eq." + a) + ([','] + (b + ([','] + rest)))
  {
    var q := a + "," + b;
    rest := "twitter_username.eq." + q + "," + "twitter_username.eq." + TwitterQuery(q);
    assert FilterString(q) == ("wallet_address.eq." + q) + ([','] + rest);
    assert "wallet_address.eq." + q == ("wallet_address.eq." + a) + ([','] + b);
  }

  lemma TwoLeadingTerms(x: string, b: string, rest: string)
    requires ',' !in x && ',' !in b
    ensures var terms := Split(x + ([','] + (b + ([','] + rest))), ',');
            |terms| >= 2 && terms[0] == x && terms[1] == b
  {
    SplitAfterSegment(x, b + ([','] + rest), ',');
    SplitAfterSegment(b, rest, ',');
  }

  // ---------------------------------------------------------------------------
  // The lookup and the response

  /** What `maybeSingle()` answered: an error (several matching rows
      included), no row, or the one matching row. */
  datatype Lookup = LookupFailed | NotFound | Found(row: Submission)

  /** The four columns the route selects and sends back. */
  datatype StatusView = StatusView(status: string, adminNote: Option<string>,
                                   twitterUsername: string, walletAddress: string)

  function View(row: Submission): (v: StatusView)
    ensures v.status in {"pending", "approved", "rejected"}
    ensures v.status == "approved" <==> row.status == Approved
    ensures v.status == "pending" <==> row.status == Pending
    ensures v.adminNote == row.adminNote
    ensures v.twitterUsername == row.twitterUsername && v.walletAddress == row.walletAddress
  {
    StatusView(StatusName(row.status), row.adminNote, row.twitterUsername, row.walletAddress)
  }

  /** The view shows exactly the status, the note, the handle and the
      wallet: rows that differ elsewhere (id, tweet URL, creation time) look
      the same, and rows that differ in one of these four do not. */
  lemma ViewShowsFourColumns(r1: Submission, r2: Submission)
    ensures View(r1) == View(r2) <==>
              r1.status == r2.status && r1.adminNote == r2.adminNote
              && r1.twitterUsername == r2.twitterUsername && r1.walletAddress == r2.walletAddress
  {
  }

  function Status(body: Option<StatusBody>, database: string -> Lookup): (r: Response<StatusView>)
    ensures body.None? ==> r == Fail(500, InternalError)
    ensures body.Some? && SubmitRoute.Blank(body.value.query) ==> r == Fail(400, QueryRequired)
    ensures body.Some? && !SubmitRoute.Blank(body.value.query) ==>
              match database(FilterString(NormalizeQuery(body.value.query.value)))
              case LookupFailed => r == Fail(500, LookupError)
              case NotFound => r == Fail(404, NoSubmission)
              case Found(row) => r == Ok(View(row))
  {
    match body
    case None => Fail(500, InternalError)
    case Some(StatusBody(query)) =>
      if query.None? || query.value == "" then Fail(400, QueryRequired)
      else
        match database(FilterString(NormalizeQuery(query.value)))
        case LookupFailed => Fail(500, LookupError)
        case NotFound => Fail(404, NoSubmission)
        case Found(row) => Ok(View(row))
  }

  /** A missing or empty query is answered before the database is asked. */
  lemma QueryCheckedBeforeLookup(body: StatusBody, db1: string -> Lookup, db2: string -> Lookup)
    requires SubmitRoute.Blank(body.query)
    ensures Status(Some(body), db1) == Status(Some(body), db2) == Fail(400, QueryRequired)
  {
  }

  /** A query of whitespace alone is not empty: it passes the `!query` guard and
      searches for "" and "@". */
  lemma WhitespaceQuerySearchesEmpty(query: string)
    requires query != "" && AllWhitespace(query)
    ensures NormalizeQuery(query) == "" && TwitterQuery(NormalizeQuery(query)) == "@"
    ensures Status(Some(StatusBody(Some(query))), _ => NotFound) == Fail(404, NoSubmission)
  {
    assert TrimStart(query) == [];
  }

  /** The '@' form of the query is the lower-cased handle the submit route
      would store for the same input. */
  lemma TwitterQueryOfSubmittedHandle(input: string)
    ensures TwitterQuery(NormalizeQuery(input)) == ToLower(SubmitRoute.NormalizeHandle(input))
  {
    var t := Trim(input);
    var q := ToLower(t);
    assert StartsWith(q, "@") <==> StartsWith(t, "@") by {
      if t != [] {
        assert q[0] == LowerChar(t[0]);
      }
    }
    if !StartsWith(t, "@") {
      assert ToLower("@" + t) == "@" + q;
    }
  }

  /** `q` and `twitterQ` hold no capital letter, so a stored handle or
      wallet with one is never matched by equality. */
  lemma CapitalisedValueNeverMatched(query: string, stored: string, i: nat)
    requires i < |stored| && 'A' <= stored[i] <= 'Z'
    ensures NormalizeQuery(query) != stored && TwitterQuery(NormalizeQuery(query)) != stored
  {
  }
}
