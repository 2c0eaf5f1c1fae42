/** The OpenRouter model rankings crawler: records from the matched rows of the rankings
    page, the Markdown table, and the upload-or-skip decision. A row arrives as the texts of
    its first name and score elements, each absent when no element matched. The score's
    reading as a float and its two-decimal rendering are not modelled: a record keeps the
    trimmed score text and the table shows it through `showScore`. */
module OpenRouter {
  import opened Wrappers
  import opened Seqs
  import opened Text
  import opened Storage
  import opened Crawler
  import opened Pipeline
  import opened Rankings

  datatype ModelRow = ModelRow(name: Option<string>, score: Option<string>)

  /** `ModelRanking` without its `fetched_at` clock stamp; `score` is the trimmed text the
      floating-point score is read from, absent when the row has no score element. */
  datatype ModelRanking = ModelRanking(rank: nat, name: string, score: Option<string>)

  /** A row is kept under the trimmed text of its name element, unless that is blank. */
  function ModelName(row: ModelRow): Option<string> {
    KeptName(row.name)
  }

  function ScoreText(text: Option<string>): (r: Option<string>)
    ensures r.None? <==> text.None?
    ensures r.Some? ==> r.value == Trim(text.value)
  {
    match text
    case None => None
    case Some(t) => Some(Trim(t))
  }

  function ToRanking(e: Ranking<ModelRow>): ModelRanking {
    ModelRanking(e.rank, e.name, ScoreText(e.row.score))
  }

  /** `parse_rankings`: the records are the rows with a non-blank name, in document order,
      each ranked by its position among all rows: ranks strictly increase within
      `1 .. |rows|`, skipped rows leave gaps, and each record carries its row's fields. */
  /** The converted entries of the kept rows. */
  function ModelRecords(rows: seq<ModelRow>): (r: seq<ModelRanking>)
    ensures |r| == |Ranked(ModelName, rows)|
    ensures forall j :: 0 <= j < |r| ==> r[j] == ToRanking(Ranked(ModelName, rows)[j])
  {
    Map(ToRanking, Ranked(ModelName, rows))
  }

  function ParseRankings(rows: seq<ModelRow>): (rankings: seq<ModelRanking>)
    ensures |rankings| <= |rows|
    ensures forall j, k :: 0 <= j < k < |rankings| ==> rankings[j].rank < rankings[k].rank
    ensures forall j :: 0 <= j < |rankings| ==> 1 <= rankings[j].rank <= |rows|
    ensures forall j :: 0 <= j < |rankings| ==>
      var row := rows[rankings[j].rank - 1];
      && row.name.Some? && rankings[j].name == Trim(row.name.value) != ""
      && rankings[j].score == ScoreText(row.score)
    ensures forall i :: 0 <= i < |rows| ==>
      ((rows[i].name.Some? && Trim(rows[i].name.value) != "") <==>
       exists j :: 0 <= j < |rankings| && rankings[j].rank == i + 1)
  {
    ModelRecordsSelect(rows);
    ModelRecords(rows)
  }

  /** The record list satisfies every clause of `ParseRankings`' contract. */
  lemma ModelRecordsSelect(rows: seq<ModelRow>)
    ensures var rankings := ModelRecords(rows);
      && |rankings| <= |rows|
      && (forall j, k :: 0 <= j < k < |rankings| ==> rankings[j].rank < rankings[k].rank)
      && (forall j :: 0 <= j < |rankings| ==> 1 <= rankings[j].rank <= |rows|)
      && (forall j :: 0 <= j < |rankings| ==>
            var row := rows[rankings[j].rank - 1];
            && row.name.Some? && rankings[j].name == Trim(row.name.value) != ""
            && rankings[j].score == ScoreText(row.score))
      && (forall i :: 0 <= i < |rows| ==>
            ((rows[i].name.Some? && Trim(rows[i].name.value) != "") <==>
             exists j :: 0 <= j < |rankings| && rankings[j].rank == i + 1))
  {
    ModelRecordsMatchRows(rows);
    ModelRecordsOrdered(rows);
    ModelRecordsCoverRows(rows);
  }

  /** Each record lies in range and carries its row's fields. */
  lemma ModelRecordsMatchRows(rows: seq<ModelRow>)
    ensures var rankings := ModelRecords(rows);
      && (forall j :: 0 <= j < |rankings| ==> 1 <= rankings[j].rank <= |rows|)
      && (forall j :: 0 <= j < |rankings| ==>
            var row := rows[rankings[j].rank - 1];
            && row.name.Some? && rankings[j].name == Trim(row.name.value) != ""
            && rankings[j].score == ScoreText(row.score))
  {
    var rankings := ModelRecords(rows);
    forall j | 0 <= j < |rankings|
      ensures 1 <= rankings[j].rank <= |rows|
      ensures var row := rows[rankings[j].rank - 1];
        && row.name.Some? && rankings[j].name == Trim(row.name.value) != ""
        && rankings[j].score == ScoreText(row.score)
    {
      ModelAt(rows, j);
    }
  }

  lemma ModelRecordsOrdered(rows: seq<ModelRow>)
    ensures var rankings := ModelRecords(rows);
      forall j, k :: 0 <= j < k < |rankings| ==> rankings[j].rank < rankings[k].rank
  {
    var rankings := ModelRecords(rows);
    forall j, k | 0 <= j < k < |rankings|
      ensures rankings[j].rank < rankings[k].rank
    {
      ModelRanksIncrease(rows, j, k);
    }
  }

  lemma ModelRecordsCoverRows(rows: seq<ModelRow>)
    ensures var rankings := ModelRecords(rows);
      forall i :: 0 <= i < |rows| ==>
        ((rows[i].name.Some? && Trim(rows[i].name.value) != "") <==>
         exists j :: 0 <= j < |rankings| && rankings[j].rank == i + 1)
  {
    var rankings := ModelRecords(rows);
    forall i | 0 <= i < |rows|
      ensures (rows[i].name.Some? && Trim(rows[i].name.value) != "") <==>
              exists j :: 0 <= j < |rankings| && rankings[j].rank == i + 1
    {
      RowHasModel(rows, i);
    }
  }

  /** The record at `j` is its entry's row, converted. */
  lemma ModelAt(rows: seq<ModelRow>, j: nat)
    requires j < |ModelRecords(rows)|
    ensures var e := Ranked(ModelName, rows)[j];
      && ModelRecords(rows)[j] == ToRanking(e)
      && 1 <= e.rank <= |rows|
      && e.row == rows[e.rank - 1]
      && e.row.name.Some? && e.name == Trim(e.row.name.value) != ""
  {
    RankedIsKeptRows(ModelName, rows);
    var e := Ranked(ModelName, rows)[j];
    assert |ModelRecords(rows)| == |Ranked(ModelName, rows)|;
    assert KeptName(e.row.name) == Some(e.name);
  }

  /** Records are ordered by rank. */
  lemma ModelRanksIncrease(rows: seq<ModelRow>, j: nat, k: nat)
    requires j < k < |ModelRecords(rows)|
    ensures ModelRecords(rows)[j].rank < ModelRecords(rows)[k].rank
  {
    RankedIsKeptRows(ModelName, rows);
    ModelAt(rows, j);
    ModelAt(rows, k);
  }

  /** A row has a record exactly when its trimmed name is non-empty. */
  lemma RowHasModel(rows: seq<ModelRow>, i: nat)
    requires i < |rows|
    ensures (rows[i].name.Some? && Trim(rows[i].name.value) != "") <==>
            exists j :: 0 <= j < |ModelRecords(rows)| && ModelRecords(rows)[j].rank == i + 1
  {
    var r, rankings := Ranked(ModelName, rows), ModelRecords(rows);
    RankedHasRow(ModelName, rows, i);
    assert ModelName(rows[i]).Some? <==> rows[i].name.Some? && Trim(rows[i].name.value) != "";
    if exists j :: 0 <= j < |r| && r[j].rank == i + 1 {
      var j :| 0 <= j < |r| && r[j].rank == i + 1;
      ModelAt(rows, j);
      assert rankings[j].rank == i + 1;
    }
    if exists j :: 0 <= j < |rankings| && rankings[j].rank == i + 1 {
      var j :| 0 <= j < |rankings| && rankings[j].rank == i + 1;
      ModelAt(rows, j);
      assert r[j].rank == i + 1;
    }
  }

  // ---------------------------------------------------------------------------
  // The Markdown table

  const Title: string := "# OpenRouter Model Rankings"
  const Header: string := "| Rank | Model Name | Score |"
  const Rule: string := "|------|------------|-------|"

  /** One table row, `| rank | name | score |`. */
  function RankingRow(r: ModelRanking, showScore: Option<string> -> string): string {
    "| " + NatToString(r.rank) + " | " + r.name + " | " + showScore(r.score) + " |"
  }

  /** `format_rankings_markdown`. */
  function FormatMarkdown(rankings: seq<ModelRanking>, today: string, showScore: Option<string> -> string): string {
    Table(Title, today, Header, Rule, Map(r => RankingRow(r, showScore), rankings))
  }

  lemma RankingRowPlain(r: ModelRanking, showScore: Option<string> -> string)
    requires '\n' !in r.name && '\n' !in showScore(r.score)
    ensures PlainLine(RankingRow(r, showScore))
  {
    var rank := NatToString(r.rank);
    assert '\n' !in rank by {
      forall i | 0 <= i < |rank| ensures rank[i] != '\n' { assert IsDigit(rank[i]); }
    }
    var row := RankingRow(r, showScore);
    assert row[|row| - 1] == '|';
  }

  /** The document is the title, the date line and the table header, then exactly one row
      per ranking, in order, when no name or rendered score holds a line break. */
  lemma MarkdownHasOneRowPerRanking(rankings: seq<ModelRanking>, today: string, showScore: Option<string> -> string)
    requires '\n' !in today
    requires forall j :: 0 <= j < |rankings| ==> '\n' !in rankings[j].name && '\n' !in showScore(rankings[j].score)
    ensures var lines := Lines(FormatMarkdown(rankings, today, showScore));
      && |lines| == 6 + |rankings|
      && lines[..6] == [Title, "", "*Fetched on " + today + "*", "", Header, Rule]
      && forall j :: 0 <= j < |rankings| ==> lines[6 + j] == RankingRow(rankings[j], showScore)
  {
    var rows := Map(r => RankingRow(r, showScore), rankings);
    forall j | 0 <= j < |rows|
      ensures PlainLine(rows[j])
    {
      RankingRowPlain(rankings[j], showScore);
    }
    TableLines(Title, today, Header, Rule, rows);
  }

  // ---------------------------------------------------------------------------
  // Processing

  /** `process_rankings`: a failed fetch fails the run; no record means no upload; otherwise
      the table is uploaded under the day's folder, an upload failure becoming a storage
      error. */
  function ProcessRankings(client: StorageClient, fetched: Result<seq<ModelRow>, CrawlerError>, today: string,
                           showScore: Option<string> -> string, response: Response): (r: Report<CrawlerError>)
    ensures fetched.Err? ==> r == Report(None, Err(fetched.error))
    ensures fetched.Ok? ==> (r.upload.None? <==> ParseRankings(fetched.value) == [])
    ensures r.upload.Some? ==>
      r.upload.value == Upload(today + "/openrouter-rankings.md", FormatMarkdown(ParseRankings(fetched.value), today, showScore))
    ensures fetched.Ok? ==> (r.result.Ok? <==> r.upload.None? || (response.HttpResponse? && IsSuccess(response.status)))
    ensures fetched.Ok? && r.result.Err? ==>
      r.result.error == StorageUpload(UploadResult(client, today + "/openrouter-rankings.md", response).error)
  {
    match fetched
    case Err(e) => Report(None, Err(e))
    case Ok(rows) =>
      var rankings := ParseRankings(rows);
      if rankings == [] then Skipped()
      else Store(client, today + "/openrouter-rankings.md", FormatMarkdown(rankings, today, showScore), response,
                 (m: string) => StorageUpload(m))
  }

  /** The run uploads exactly when some row has a non-blank name. */
  lemma UploadsIffSomeNamedRow(client: StorageClient, rows: seq<ModelRow>, today: string,
                               showScore: Option<string> -> string, response: Response)
    ensures ProcessRankings(client, Ok(rows), today, showScore, response).upload.Some? <==>
      exists i :: 0 <= i < |rows| && rows[i].name.Some? && Trim(rows[i].name.value) != ""
  {
  }
}
