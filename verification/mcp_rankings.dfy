/** The MCP server rankings crawler: records from the matched rows of the rankings page,
    the Markdown table, and the upload-or-skip decision. A row arrives as the texts of the
    first name, description and stars elements it contains, each absent when no element
    matched. */
module McpRankings {
  import opened Wrappers
  import opened Seqs
  import opened Text
  import opened Storage
  import opened Crawler
  import opened Pipeline
  import opened Rankings

  /** The largest `u32`. */
  const U32Max: nat := 4294967295

  datatype McpRow = McpRow(name: Option<string>, description: Option<string>, stars: Option<string>)

  /** `McpServer` without its `fetched_at` clock stamp. */
  datatype McpServer = McpServer(rank: nat, name: string, description: string, stars: nat)

  /** A row is kept under the trimmed text of its name element, unless that is blank. */
  function ServerName(row: McpRow): Option<string> {
    KeptName(row.name)
  }

  /** `parse::<u32>` of a string of ASCII digits: no value for the empty string or one
      beyond the `u32` range. */
  function ParseU32(digits: string): (r: Option<nat>)
    requires forall i :: 0 <= i < |digits| ==> IsDigit(digits[i])
    ensures r.Some? <==> digits != "" && DigitsValue(digits) <= U32Max
    ensures r.Some? ==> r.value == DigitsValue(digits)
  {
    if digits == "" then None
    else if DigitsValue(digits) <= U32Max then Some(DigitsValue(digits))
    else None
  }

  /** The stars count: the ASCII digits of the element's text, in order, read as a `u32`; 0
      when the element is absent, has no digit, or its digits overflow. */
  function Stars(text: Option<string>): (n: nat)
    ensures n <= U32Max
    ensures text.None? ==> n == 0
  {
    match text
    case None => 0
    case Some(t) => ParseU32(Filter(IsDigit, t)).GetOr(0)
  }

  /** The description: the trimmed text of its element, or empty when there is none. */
  function Description(text: Option<string>): (r: string)
    ensures text.None? ==> r == ""
    ensures text.Some? ==> r == Trim(text.value)
  {
    match text
    case None => ""
    case Some(t) => Trim(t)
  }

  /** `parse_rankings`: the records are the rows with a non-blank name, in document order,
      each ranked by its position among all rows: ranks strictly increase within
      `1 .. |rows|`, skipped rows leave gaps, and each record carries its row's fields. */
  function ParseRankings(rows: seq<McpRow>): (servers: seq<McpServer>)
    ensures |servers| <= |rows|
    ensures forall j, k :: 0 <= j < k < |servers| ==> servers[j].rank < servers[k].rank
    ensures forall j :: 0 <= j < |servers| ==> 1 <= servers[j].rank <= |rows|
    ensures forall j :: 0 <= j < |servers| ==>
      var row := rows[servers[j].rank - 1];
      && row.name.Some? && servers[j].name == Trim(row.name.value) != ""
      && servers[j].description == Description(row.description)
      && servers[j].stars == Stars(row.stars)
    ensures forall i :: 0 <= i < |rows| ==>
      ((rows[i].name.Some? && Trim(rows[i].name.value) != "") <==>
       exists j :: 0 <= j < |servers| && servers[j].rank == i + 1)
  {
    ServerRecordsSelect(rows);
    ServerRecords(rows)
  }

  function ToServer(e: Ranking<McpRow>): McpServer {
    McpServer(e.rank, e.name, Description(e.row.description), Stars(e.row.stars))
  }

  /** The converted entries of the kept rows. */
  function ServerRecords(rows: seq<McpRow>): (r: seq<McpServer>)
    ensures |r| == |Ranked(ServerName, rows)|
    ensures forall j :: 0 <= j < |r| ==> r[j] == ToServer(Ranked(ServerName, rows)[j])
  {
    Map(ToServer, Ranked(ServerName, rows))
  }

  /** The record list satisfies every clause of `ParseRankings`' contract. */
  lemma ServerRecordsSelect(rows: seq<McpRow>)
    ensures var servers := ServerRecords(rows);
      && |servers| <= |rows|
      && (forall j, k :: 0 <= j < k < |servers| ==> servers[j].rank < servers[k].rank)
      && (forall j :: 0 <= j < |servers| ==> 1 <= servers[j].rank <= |rows|)
      && (forall j :: 0 <= j < |servers| ==>
            var row := rows[servers[j].rank - 1];
            && row.name.Some? && servers[j].name == Trim(row.name.value) != ""
            && servers[j].description == Description(row.description)
            && servers[j].stars == Stars(row.stars))
      && (forall i :: 0 <= i < |rows| ==>
            ((rows[i].name.Some? && Trim(rows[i].name.value) != "") <==>
             exists j :: 0 <= j < |servers| && servers[j].rank == i + 1))
  {
    ServerRecordsMatchRows(rows);
    ServerRecordsOrdered(rows);
    ServerRecordsCoverRows(rows);
  }

  /** Each record lies in range and carries its row's fields. */
  lemma ServerRecordsMatchRows(rows: seq<McpRow>)
    ensures var servers := ServerRecords(rows);
      && (forall j :: 0 <= j < |servers| ==> 1 <= servers[j].rank <= |rows|)
      && (forall j :: 0 <= j < |servers| ==>
            var row := rows[servers[j].rank - 1];
            && row.name.Some? && servers[j].name == Trim(row.name.value) != ""
            && servers[j].description == Description(row.description)
            && servers[j].stars == Stars(row.stars))
  {
    var servers := ServerRecords(rows);
    forall j | 0 <= j < |servers|
      ensures 1 <= servers[j].rank <= |rows|
      ensures var row := rows[servers[j].rank - 1];
        && row.name.Some? && servers[j].name == Trim(row.name.value) != ""
        && servers[j].description == Description(row.description)
        && servers[j].stars == Stars(row.stars)
    {
      ServerAt(rows, j);
    }
  }

  lemma ServerRecordsOrdered(rows: seq<McpRow>)
    ensures var servers := ServerRecords(rows);
      forall j, k :: 0 <= j < k < |servers| ==> servers[j].rank < servers[k].rank
  {
    var servers := ServerRecords(rows);
    forall j, k | 0 <= j < k < |servers|
      ensures servers[j].rank < servers[k].rank
    {
      ServerRanksIncrease(rows, j, k);
    }
  }

  lemma ServerRecordsCoverRows(rows: seq<McpRow>)
    ensures var servers := ServerRecords(rows);
      forall i :: 0 <= i < |rows| ==>
        ((rows[i].name.Some? && Trim(rows[i].name.value) != "") <==>
         exists j :: 0 <= j < |servers| && servers[j].rank == i + 1)
  {
    var servers := ServerRecords(rows);
    forall i | 0 <= i < |rows|
      ensures (rows[i].name.Some? && Trim(rows[i].name.value) != "") <==>
              exists j :: 0 <= j < |servers| && servers[j].rank == i + 1
    {
      RowHasServer(rows, i);
    }
  }

  /** The record at `j` is its entry's row, converted. */
  lemma ServerAt(rows: seq<McpRow>, j: nat)
    requires j < |ServerRecords(rows)|
    ensures var e := Ranked(ServerName, rows)[j];
      && ServerRecords(rows)[j] == ToServer(e)
      && 1 <= e.rank <= |rows|
      && e.row == rows[e.rank - 1]
      && e.row.name.Some? && e.name == Trim(e.row.name.value) != ""
  {
    RankedIsKeptRows(ServerName, rows);
    var e := Ranked(ServerName, rows)[j];
    assert |ServerRecords(rows)| == |Ranked(ServerName, rows)|;
    assert KeptName(e.row.name) == Some(e.name);
  }

  /** Records are ordered by rank. */
  lemma ServerRanksIncrease(rows: seq<McpRow>, j: nat, k: nat)
    requires j < k < |ServerRecords(rows)|
    ensures ServerRecords(rows)[j].rank < ServerRecords(rows)[k].rank
  {
    RankedIsKeptRows(ServerName, rows);
    ServerAt(rows, j);
    ServerAt(rows, k);
  }

  /** A row has a record exactly when its trimmed name is non-empty. */
  lemma RowHasServer(rows: seq<McpRow>, i: nat)
    requires i < |rows|
    ensures (rows[i].name.Some? && Trim(rows[i].name.value) != "") <==>
            exists j :: 0 <= j < |ServerRecords(rows)| && ServerRecords(rows)[j].rank == i + 1
  {
    var r, servers := Ranked(ServerName, rows), ServerRecords(rows);
    RankedHasRow(ServerName, rows, i);
    assert ServerName(rows[i]).Some? <==> rows[i].name.Some? && Trim(rows[i].name.value) != "";
    if exists j :: 0 <= j < |r| && r[j].rank == i + 1 {
      var j :| 0 <= j < |r| && r[j].rank == i + 1;
      ServerAt(rows, j);
      assert servers[j].rank == i + 1;
    }
    if exists j :: 0 <= j < |servers| && servers[j].rank == i + 1 {
      var j :| 0 <= j < |servers| && servers[j].rank == i + 1;
      ServerAt(rows, j);
      assert r[j].rank == i + 1;
    }
  }

  /** Stars written as a `u32` in decimal read back as that number. */
  lemma StarsOfNumber(n: nat)
    requires n <= U32Max
    ensures Stars(Some(NatToString(n))) == n
  {
    FilterAll(IsDigit, NatToString(n));
    NatToStringRoundTrip(n);
  }

  /** A count beyond the `u32` range does not parse and counts as 0. */
  lemma StarsOverflowIsZero(n: nat)
    requires n > U32Max
    ensures Stars(Some(NatToString(n))) == 0
  {
    FilterAll(IsDigit, NatToString(n));
    NatToStringRoundTrip(n);
  }

  /** Only the digits of the text matter: separators, spaces and words are dropped. */
  lemma StarsReadsDigitsOnly(t: string)
    ensures Stars(Some(t)) == Stars(Some(Filter(IsDigit, t)))
  {
    FilterIdempotent(IsDigit, t);
  }

  // ---------------------------------------------------------------------------
  // The Markdown table

  const Title: string := "# MCP Server Rankings"
  const Header: string := "| Rank | Server Name | Description | Stars |"
  const Rule: string := "|------|-------------|-------------|-------|"

  /** One table row, `| rank | name | description | stars |`. */
  function ServerRow(s: McpServer): string {
    "| " + NatToString(s.rank) + " | " + s.name + " | " + s.description + " | " + NatToString(s.stars) + " |"
  }

  /** `format_servers_markdown`. */
  function FormatMarkdown(servers: seq<McpServer>, today: string): string {
    Table(Title, today, Header, Rule, Map(ServerRow, servers))
  }

  lemma ServerRowPlain(s: McpServer)
    requires '\n' !in s.name && '\n' !in s.description
    ensures PlainLine(ServerRow(s))
  {
    var rank, stars := NatToString(s.rank), NatToString(s.stars);
    assert '\n' !in rank && '\n' !in stars by {
      forall i | 0 <= i < |rank| ensures rank[i] != '\n' { assert IsDigit(rank[i]); }
      forall i | 0 <= i < |stars| ensures stars[i] != '\n' { assert IsDigit(stars[i]); }
    }
    var row := ServerRow(s);
    assert row[|row| - 1] == '|';
  }

  /** The document is the title, the date line and the table header, then exactly one row
      per server, in order, when no name or description holds a line break. */
  lemma MarkdownHasOneRowPerServer(servers: seq<McpServer>, today: string)
    requires '\n' !in today
    requires forall j :: 0 <= j < |servers| ==> '\n' !in servers[j].name && '\n' !in servers[j].description
    ensures Lines(FormatMarkdown(servers, today)) ==
      [Title, "", "*Fetched on " + today + "*", "", Header, Rule] + Map(ServerRow, servers)
  {
    var rows := Map(ServerRow, servers);
    forall j | 0 <= j < |rows|
      ensures PlainLine(rows[j])
    {
      ServerRowPlain(servers[j]);
    }
    TableLines(Title, today, Header, Rule, rows);
  }

  // ---------------------------------------------------------------------------
  // Processing

  /** `process_rankings`: a failed fetch fails the run; no record means no upload; otherwise
      the table is uploaded under the day's folder, an upload failure becoming a storage
      error. */
  function ProcessRankings(client: StorageClient, fetched: Result<seq<McpRow>, CrawlerError>, today: string,
                           response: Response): (r: Report<CrawlerError>)
    ensures fetched.Err? ==> r == Report(None, Err(fetched.error))
    ensures fetched.Ok? ==> (r.upload.None? <==> ParseRankings(fetched.value) == [])
    ensures r.upload.Some? ==>
      r.upload.value == Upload(today + "/mcp-rankings.md", FormatMarkdown(ParseRankings(fetched.value), today))
    ensures fetched.Ok? ==> (r.result.Ok? <==> r.upload.None? || (response.HttpResponse? && IsSuccess(response.status)))
    ensures fetched.Ok? && r.result.Err? ==>
      r.result.error == StorageUpload(UploadResult(client, today + "/mcp-rankings.md", response).error)
  {
    match fetched
    case Err(e) => Report(None, Err(e))
    case Ok(rows) =>
      var servers := ParseRankings(rows);
      if servers == [] then Skipped()
      else Store(client, today + "/mcp-rankings.md", FormatMarkdown(servers, today), response,
                 (m: string) => StorageUpload(m))
  }

  /** The run uploads exactly when some row has a non-blank name. */
  lemma UploadsIffSomeNamedRow(client: StorageClient, rows: seq<McpRow>, today: string, response: Response)
    ensures ProcessRankings(client, Ok(rows), today, response).upload.Some? <==>
      exists i :: 0 <= i < |rows| && rows[i].name.Some? && Trim(rows[i].name.value) != ""
  {
  }

  /** Skipped rows still use up a rank: a named row, a row with no name element, a row with a
      blank name and another named row are ranked 1 and 4. */
  lemma SkippedRowsLeaveRankGaps(a: string, blank: string, b: string)
    requires Trim(a) != "" && Trim(blank) == "" && Trim(b) != ""
    ensures var servers := ParseRankings([McpRow(Some(a), None, None), McpRow(None, None, None),
                                          McpRow(Some(blank), None, None), McpRow(Some(b), None, None)]);
      && |servers| == 2 && servers[0].rank == 1 && servers[1].rank == 4
  {
    var rows := [McpRow(Some(a), None, None), McpRow(None, None, None), McpRow(Some(blank), None, None),
                 McpRow(Some(b), None, None)];
    RankedFromKeep(ServerName, rows, 3);
    assert RankedFrom(ServerName, rows, 4) == [];
    RankedFromSkip(ServerName, rows, 2);
    RankedFromSkip(ServerName, rows, 1);
    RankedFromKeep(ServerName, rows, 0);
  }
}
