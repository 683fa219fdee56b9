/**
 * `GET /api/admin/export` (`src/app/api/admin/export/route.ts`): the admin
 * gate, the 404 for an empty result, and the CSV text built from the
 * approved rows. Date formatting (`toLocaleDateString`) and the clock are
 * parameters.
 */
module ExportRoute {
  import opened Wrappers
  import opened JsText
  import opened Http
  import opened AdminAuth

  /** The selected columns of one approved submission, newest first. */
  datatype ApprovedRow = ApprovedRow(walletAddress: string, twitterUsername: string, createdAt: string)

  const Header: string := "Wallet,Twitter,Date"

  /** One data line: the three cells joined by commas, inserted verbatim. */
  function Line(row: ApprovedRow, formatDate: string -> string): (line: string)
    ensures line == row.walletAddress + "," + row.twitterUsername + "," + formatDate(row.createdAt)
  {
    JoinThree(row.walletAddress, row.twitterUsername, formatDate(row.createdAt), ",");
    Join([row.walletAddress, row.twitterUsername, formatDate(row.createdAt)], ",")
  }

  /** One line per row, in result order. */
  function Lines(rows: seq<ApprovedRow>, formatDate: string -> string): (lines: seq<string>)
    ensures |lines| == |rows|
    ensures forall i :: 0 <= i < |rows| ==> lines[i] == Line(rows[i], formatDate)
  {
    seq(|rows|, i requires 0 <= i < |rows| => Line(rows[i], formatDate))
  }

  /** The header line, then the data lines, joined by "\n". */
  function Csv(rows: seq<ApprovedRow>, formatDate: string -> string): (csv: string)
    ensures StartsWith(csv, Header)
  {
    var lines := [Header] + Lines(rows, formatDate);
    JoinStartsWithFirst(lines, "\n");
    Join(lines, "\n")
  }

  /** No cell of any row contains `c`. */
  ghost predicate CellsWithout(rows: seq<ApprovedRow>, formatDate: string -> string, c: char) {
    forall i :: 0 <= i < |rows| ==>
      c !in rows[i].walletAddress && c !in rows[i].twitterUsername
      && c !in formatDate(rows[i].createdAt)
  }

  lemma LineWithout(row: ApprovedRow, formatDate: string -> string, c: char)
    requires c != ',' && c !in row.walletAddress && c !in row.twitterUsername
    requires c !in formatDate(row.createdAt)
    ensures c !in Line(row, formatDate)
  {
    var cells := [row.walletAddress, row.twitterUsername, formatDate(row.createdAt)];
    JoinExcludes(cells, ",", c);
  }

  /** Without line breaks in the cells, the text splits back into the header
      and one line per row: `rows + 1` lines. */
  lemma CsvLines(rows: seq<ApprovedRow>, formatDate: string -> string)
    requires CellsWithout(rows, formatDate, '\n')
    ensures Split(Csv(rows, formatDate), '\n') == [Header] + Lines(rows, formatDate)
    ensures |Split(Csv(rows, formatDate), '\n')| == |rows| + 1
  {
    var lines := [Header] + Lines(rows, formatDate);
    forall i | 0 <= i < |lines|
      ensures '\n' !in lines[i]
    {
      if i > 0 {
        LineWithout(rows[i - 1], formatDate, '\n');
      }
    }
    SplitJoin(lines, '\n');
  }

  /** Without line breaks in the cells, the text does not end in a line break. */
  lemma NoTrailingNewline(rows: seq<ApprovedRow>, formatDate: string -> string)
    requires CellsWithout(rows, formatDate, '\n')
    ensures var csv := Csv(rows, formatDate); csv != [] && csv[|csv| - 1] != '\n'
  {
    var lines := [Header] + Lines(rows, formatDate);
    var last := lines[|lines| - 1];
    JoinEndsWithLast(lines, "\n");
    if rows != [] {
      LineWithout(rows[|rows| - 1], formatDate, '\n');
    }
    var csv := Join(lines, "\n");
    assert csv[|csv| - 1] == last[|last| - 1];
  }

  /** Without commas in the cells, each data line splits into its three cells. */
  lemma LineCells(row: ApprovedRow, formatDate: string -> string)
    requires ',' !in row.walletAddress && ',' !in row.twitterUsername
    requires ',' !in formatDate(row.createdAt)
    ensures Split(Line(row, formatDate), ',') == [row.walletAddress, row.twitterUsername, formatDate(row.createdAt)]
  {
    SplitJoin([row.walletAddress, row.twitterUsername, formatDate(row.createdAt)], ',');
  }

  /** Cells are not quoted: a comma inside a wallet cell yields a line of four
      columns, the wallet's two halves in the first two. */
  lemma CommaInCellShiftsColumns(a: string, b: string, row: ApprovedRow, formatDate: string -> string)
    requires row.walletAddress == a + "," + b
    requires ',' !in a && ',' !in b && ',' !in row.twitterUsername
    requires ',' !in formatDate(row.createdAt)
    ensures Split(Line(row, formatDate), ',') == [a, b, row.twitterUsername, formatDate(row.createdAt)]
  {
    var t, d := row.twitterUsername, formatDate(row.createdAt);
    var four := [a, b, t, d];
    assert four[1..] == [b, t, d];
    JoinThree(b, t, d, ",");
    assert Join(four, ",") == a + "," + (b + "," + t + "," + d);
    assert Line(row, formatDate) == Join(four, ",");
    SplitJoin(four, ',');
  }

  // ---------------------------------------------------------------------------
  // The handler

  /** What the approved-rows query answered: an error, or the rows (possibly null). */
  datatype QueryResult = QueryFailed | Approved(data: Option<seq<ApprovedRow>>)

  datatype CsvFile = CsvFile(content: string, filename: string)

  /** `approved_wallets_<date>.csv`, the date being the part of the ISO
      timestamp before its 'T'. */
  function Filename(isoNow: string): (name: string)
    ensures StartsWith(name, "approved_wallets_")
    ensures name == "approved_wallets_" + FirstSegment(isoNow, 'T') + ".csv"
    ensures 'T' !in FirstSegment(isoNow, 'T') && name[|name| - 4..] == ".csv"
  {
    SplitHead(isoNow, 'T');
    "approved_wallets_" + Split(isoNow, 'T')[0] + ".csv"
  }

  function Export(user: Option<string>, lookup: AdminLookup, result: QueryResult,
                  formatDate: string -> string, isoNow: string): (r: Response<CsvFile>)
    ensures user.None? ==> r == Fail(401, "Unauthorized")
    ensures user.Some? && lookup != AdminRow ==> r == Fail(403, "Forbidden: Admin access required")
    ensures user.Some? && lookup == AdminRow ==>
              match result
              case QueryFailed => r == Fail(500, InternalError)
              case Approved(data) =>
                if data.None? || data.value == [] then r == Fail(404, "No approved wallets found")
                else r == Ok(CsvFile(Csv(data.value, formatDate), Filename(isoNow)))
  {
    match AdminGate(user, lookup)
    case Some(denial) => Fail(denial.status, denial.error)
    case None =>
      match result
      case QueryFailed => Fail(500, InternalError)
      case Approved(data) =>
        if data.None? || |data.value| == 0 then Fail(404, "No approved wallets found")
        else Ok(CsvFile(Csv(data.value, formatDate), Filename(isoNow)))
  }

  /** An exported file always holds the header and at least one data line. */
  lemma ExportedFileHasRows(user: Option<string>, lookup: AdminLookup, result: QueryResult,
                            formatDate: string -> string, isoNow: string)
    requires Export(user, lookup, result, formatDate, isoNow).Ok?
    requires result.Approved? && result.data.Some?
    requires CellsWithout(result.data.value, formatDate, '\n')
    ensures var csv := Export(user, lookup, result, formatDate, isoNow).body.content;
            StartsWith(csv, Header) && |Split(csv, '\n')| >= 2
  {
    CsvLines(result.data.value, formatDate);
  }
}
