/** What the two ranking-table crawlers (MCP servers and OpenRouter models) share: numbering
    matched rows by position, and the Markdown table they upload. A page arrives as its
    matched rows in document order; a row's name is the text of its first name element, if
    any. */
module Rankings {
  import opened Wrappers
  import opened Seqs
  import opened Text

  /** A kept row with its rank and trimmed name. */
  datatype Ranking<T> = Ranking(rank: nat, name: string, row: T)

  /** The name a row is kept under: the trimmed text of its name element, when there is one
      and that text is not blank. */
  function KeptName(text: Option<string>): (r: Option<string>)
    ensures r.Some? <==> text.Some? && Trim(text.value) != ""
    ensures r.Some? ==> r.value == Trim(text.value)
  {
    match text
    case None => None
    case Some(t) => if Trim(t) == "" then None else Some(Trim(t))
  }

  /** The loop `for (index, row) in rows.enumerate()` from position `lo` on: a row `pick`
      keeps gets rank `index + 1`, its position among all matched rows, skipped rows
      included. */
  function RankedFrom<T>(pick: T -> Option<string>, rows: seq<T>, lo: nat): (r: seq<Ranking<T>>)
    requires lo <= |rows|
    ensures |r| <= |rows| - lo
    ensures forall j :: 0 <= j < |r| ==>
      && lo < r[j].rank <= |rows|
      && r[j].row == rows[r[j].rank - 1]
      && pick(r[j].row) == Some(r[j].name)
    ensures forall j, k :: 0 <= j < k < |r| ==> r[j].rank < r[k].rank
    decreases |rows| - lo
  {
    if lo == |rows| then []
    else
      var rest := RankedFrom(pick, rows, lo + 1);
      match pick(rows[lo])
      case None => rest
      case Some(name) =>
        var r := [Ranking(lo + 1, name, rows[lo])] + rest;
        assert forall j :: 1 <= j < |r| ==> r[j] == rest[j - 1];
        r
  }

  /** Every row `pick` keeps from position `lo` on has its entry. */
  lemma {:induction false} RankedFromComplete<T>(pick: T -> Option<string>, rows: seq<T>, lo: nat, i: nat)
    requires lo <= i < |rows| && pick(rows[i]).Some?
    ensures Ranking(i + 1, pick(rows[i]).value, rows[i]) in RankedFrom(pick, rows, lo)
    decreases |rows| - lo
  {
    if lo < i {
      RankedFromComplete(pick, rows, lo + 1, i);
    }
  }

  /** A skipped row adds no entry. */
  lemma RankedFromSkip<T>(pick: T -> Option<string>, rows: seq<T>, lo: nat)
    requires lo < |rows| && pick(rows[lo]).None?
    ensures RankedFrom(pick, rows, lo) == RankedFrom(pick, rows, lo + 1)
  {
  }

  /** A kept row adds its entry, ranked by its position, in front of the later ones. */
  lemma RankedFromKeep<T>(pick: T -> Option<string>, rows: seq<T>, lo: nat)
    requires lo < |rows| && pick(rows[lo]).Some?
    ensures RankedFrom(pick, rows, lo) == [Ranking(lo + 1, pick(rows[lo]).value, rows[lo])] + RankedFrom(pick, rows, lo + 1)
  {
  }

  /** The kept rows of a page, ranked; `pick` gives a row's kept name. */
  function Ranked<T>(pick: T -> Option<string>, rows: seq<T>): seq<Ranking<T>> {
    RankedFrom(pick, rows, 0)
  }

  /** The entries are exactly the kept rows, in document order: each entry's rank names its
      row and carries its kept name, ranks strictly increase, and a row has an entry exactly
      when it is kept. */
  lemma RankedIsKeptRows<T>(pick: T -> Option<string>, rows: seq<T>)
    ensures var r := Ranked(pick, rows);
      && |r| <= |rows|
      && (forall j, k :: 0 <= j < k < |r| ==> r[j].rank < r[k].rank)
      && (forall j :: 0 <= j < |r| ==>
            1 <= r[j].rank <= |rows| && r[j].row == rows[r[j].rank - 1] && pick(r[j].row) == Some(r[j].name))
      && (forall i :: 0 <= i < |rows| ==>
            (pick(rows[i]).Some? <==> exists j :: 0 <= j < |r| && r[j].rank == i + 1))
  {
    var r := Ranked(pick, rows);
    forall i | 0 <= i < |rows|
      ensures pick(rows[i]).Some? <==> exists j :: 0 <= j < |r| && r[j].rank == i + 1
    {
      RankedHasRow(pick, rows, i);
    }
  }

  /** A row is kept exactly when some entry carries its rank. */
  lemma RankedHasRow<T>(pick: T -> Option<string>, rows: seq<T>, i: nat)
    requires i < |rows|
    ensures pick(rows[i]).Some? <==> exists j :: 0 <= j < |Ranked(pick, rows)| && Ranked(pick, rows)[j].rank == i + 1
  {
    var r := Ranked(pick, rows);
    if exists j :: 0 <= j < |r| && r[j].rank == i + 1 {
      var j :| 0 <= j < |r| && r[j].rank == i + 1;
      assert r[j].row == rows[i];
    }
    if pick(rows[i]).Some? {
      var x := Ranking(i + 1, pick(rows[i]).value, rows[i]);
      RankedFromComplete(pick, rows, 0, i);
      var j :| 0 <= j < |r| && r[j] == x;
      assert r[j].rank == i + 1;
    }
  }

  /** The Markdown document both crawlers upload: a title, the date it was fetched on, a
      table header and rule, then one row per entry. */
  function Table(title: string, today: string, header: string, rule: string, rows: seq<string>): string {
    title + "\n\n" + "*Fetched on " + today + "*\n\n" + header + "\n" + rule + "\n" + Terminated(rows)
  }

  lemma FetchedLinePlain(today: string)
    requires '\n' !in today
    ensures PlainLine("*Fetched on " + today + "*")
  {
    var fetched := "*Fetched on " + today + "*";
    assert fetched[|fetched| - 1] == '*';
    forall i | 0 <= i < |fetched|
      ensures fetched[i] != '\n'
    {
      if 12 <= i < |fetched| - 1 {
        assert fetched[i] == today[i - 12];
      }
    }
  }

  lemma TableTerminated(title: string, today: string, header: string, rule: string, rows: seq<string>)
    ensures Table(title, today, header, rule, rows) ==
      Terminated([title, "", "*Fetched on " + today + "*", "", header, rule] + rows)
  {
    var fetched := "*Fetched on " + today + "*";
    var lines := [title, "", fetched, "", header, rule] + rows;
    assert lines[6..] == rows;
    assert Terminated(lines[5..]) == rule + "\n" + Terminated(rows) by { assert lines[5..][1..] == rows; }
    assert Terminated(lines[4..]) == header + "\n" + Terminated(lines[5..]) by { assert lines[4..][1..] == lines[5..]; }
    assert Terminated(lines[3..]) == "" + "\n" + Terminated(lines[4..]) by { assert lines[3..][1..] == lines[4..]; }
    assert Terminated(lines[2..]) == fetched + "\n" + Terminated(lines[3..]) by { assert lines[2..][1..] == lines[3..]; }
    assert Terminated(lines[1..]) == "" + "\n" + Terminated(lines[2..]) by { assert lines[1..][1..] == lines[2..]; }
    assert Terminated(lines) == title + "\n" + Terminated(lines[1..]);
  }

  /** Read back line by line, the table is its six header lines followed by exactly its
      rows, in order, when no piece holds a line break. */
  lemma TableLines(title: string, today: string, header: string, rule: string, rows: seq<string>)
    requires PlainLine(title) && PlainLine(header) && PlainLine(rule) && '\n' !in today
    requires forall i :: 0 <= i < |rows| ==> PlainLine(rows[i])
    ensures Lines(Table(title, today, header, rule, rows)) ==
      [title, "", "*Fetched on " + today + "*", "", header, rule] + rows
  {
    var lines := [title, "", "*Fetched on " + today + "*", "", header, rule] + rows;
    FetchedLinePlain(today);
    TableTerminated(title, today, header, rule, rows);
    assert forall i :: 0 <= i < |lines| ==> PlainLine(lines[i]) by {
      forall i | 0 <= i < |lines|
        ensures PlainLine(lines[i])
      {
        if i >= 6 {
          assert lines[i] == rows[i - 6];
        }
      }
    }
    LinesOfTerminated(lines);
  }
}
