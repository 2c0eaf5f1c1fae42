/** The body-text extractor of the arXiv crate: a line-filtering heuristic that skips the
    author/affiliation block at the top of a scraped paper and keeps the long lines after it.
    HTML parsing is not modelled: a document is given as the text nodes of its `body`
    element, in document order, or `None` when it has no `body`. */
module BodyText {
  import opened Wrappers
  import opened Seqs
  import opened Text

  /** The mis-decoding artifact replaced by a space in every kept line: the two characters
      U+00C3 U+201A. */
  const Artifact: string := "\U{00C3}\U{201A}"

  /** Affiliation words that disqualify a line, matched in the lower-cased line. */
  const Keywords: seq<string> := ["university", "lab", "department", "institute", "corresponding author"]

  /** Byte length a trimmed line needs to be kept, and to be considered as the body start. */
  const MinLineBytes: nat := 40

  /** Byte length the body-start line needs. */
  const MinStartBytes: nat := 100

  /** Whether `lower` contains one of `keywords`. */
  function ContainsKeyword(lower: string, keywords: seq<string>): (b: bool)
    ensures b <==> exists k :: 0 <= k < |keywords| && Contains(lower, keywords[k])
    decreases |keywords|
  {
    if |keywords| == 0 then false
    else if Contains(lower, keywords[0]) then true
    else
      var b := ContainsKeyword(lower, keywords[1..]);
      assert forall k :: 1 <= k < |keywords| ==> keywords[k] == keywords[1..][k - 1];
      b
  }

  /** `is_valid_body_line`: the early-return checks in the order the crate makes them. */
  function IsValidBodyLine(line: string, minLength: nat): bool {
    if '@' in line then false
    else if ContainsKeyword(ToLower(line), Keywords) then false
    else if ByteLen(line) < minLength then false
    else '.' in line
  }

  /** A line is valid exactly when it has no `@`, none of the five affiliation words in any
      (ASCII) case, at least `minLength` bytes, and a full stop. */
  lemma ValidBodyLineIff(line: string, minLength: nat)
    ensures IsValidBodyLine(line, minLength) <==>
      && '@' !in line
      && !Contains(ToLower(line), "university")
      && !Contains(ToLower(line), "lab")
      && !Contains(ToLower(line), "department")
      && !Contains(ToLower(line), "institute")
      && !Contains(ToLower(line), "corresponding author")
      && ByteLen(line) >= minLength
      && '.' in line
  {
    var lower := ToLower(line);
    assert Keywords[0] == "university" && Keywords[1] == "lab" && Keywords[2] == "department";
    assert Keywords[3] == "institute" && Keywords[4] == "corresponding author";
    if ContainsKeyword(lower, Keywords) {
      var k :| 0 <= k < |Keywords| && Contains(lower, Keywords[k]);
      assert k == 0 || k == 1 || k == 2 || k == 3 || k == 4;
    }
  }

  /** A line containing `@` is never valid, whatever its length or punctuation. */
  lemma AtSignInvalid(line: string, minLength: nat)
    requires '@' in line
    ensures !IsValidBodyLine(line, minLength)
  {
  }

  /** The first-pass test: the trimmed line is long enough to look at and a valid start line. */
  predicate StartsBody(line: string) {
    var clean := Trim(line);
    ByteLen(clean) >= MinLineBytes && IsValidBodyLine(clean, MinStartBytes)
  }

  /** The position of the first line that starts the body, or 0 when no line does. */
  function StartIndex(lines: seq<string>): (k: nat)
    ensures k == 0 || k < |lines|
    ensures (exists j :: 0 <= j < |lines| && StartsBody(lines[j])) ==>
      k < |lines| && StartsBody(lines[k]) && forall j :: 0 <= j < k ==> !StartsBody(lines[j])
  {
    FirstIndex(StartsBody, lines, 0).GetOr(0)
  }

  /** The first pass as the crate writes it: a loop that skips short lines and stops at the
      first valid one. */
  method ScanForStart(lines: seq<string>) returns (start: nat)
    ensures start == StartIndex(lines)
  {
    start := 0;
    var i := 0;
    while i < |lines|
      invariant 0 <= i <= |lines|
      invariant FirstIndex(StartsBody, lines, 0) == FirstIndex(StartsBody, lines, i)
    {
      var clean := Trim(lines[i]);
      if ByteLen(clean) < MinLineBytes {
        assert !StartsBody(lines[i]);
        i := i + 1;
        continue;
      }
      if IsValidBodyLine(clean, MinStartBytes) {
        assert StartsBody(lines[i]);
        start := i;
        return;
      }
      assert !StartsBody(lines[i]);
      i := i + 1;
    }
  }

  /** The second pass on one line: its trim, with the artifact replaced, if it is long
      enough. The validity predicate is not applied again. */
  function KeepLine(line: string): Option<string> {
    var clean := Trim(line);
    if ByteLen(clean) >= MinLineBytes then Some(ReplaceAll(clean, Artifact, " ")) else None
  }

  /** The kept lines from the start line on. */
  function BodyLines(lines: seq<string>): seq<string> {
    var start := StartIndex(lines);
    FilterMap(KeepLine, lines[start..])
  }

  /** `extract_body_text`: the body's text nodes joined by newlines, split into lines, and
      the kept lines joined by newlines. */
  function ExtractBodyText(body: Option<seq<string>>): string {
    var fullText := match body case None => "" case Some(nodes) => Join(nodes, "\n");
    Join(BodyLines(Lines(fullText)), "\n")
  }

  /** The output lines are exactly the long trimmed lines at or after the start index, in
      their input order, each with the artifact replaced after the length check; lines
      failing the validity predicate there are kept too. */
  lemma BodyLinesSelect(lines: seq<string>)
    ensures var start, out, picked := StartIndex(lines), BodyLines(lines), Kept(KeepLine, lines, StartIndex(lines));
      && |out| == |picked|
      && StrictlyIncreasing(picked)
      && (forall j :: 0 <= j < |picked| ==>
            && start <= picked[j] < |lines|
            && ByteLen(Trim(lines[picked[j]])) >= MinLineBytes
            && out[j] == ReplaceAll(Trim(lines[picked[j]]), Artifact, " "))
      && (forall i :: start <= i < |lines| && ByteLen(Trim(lines[i])) >= MinLineBytes ==> i in picked)
  {
    var start := StartIndex(lines);
    FilterMapSelects(KeepLine, lines, start);
  }

  /** When some line starts the body, that line (long enough by construction) is the first
      output line. */
  lemma StartLineIsFirst(lines: seq<string>)
    requires exists j :: 0 <= j < |lines| && StartsBody(lines[j])
    ensures var start := StartIndex(lines);
      && |BodyLines(lines)| > 0
      && BodyLines(lines)[0] == ReplaceAll(Trim(lines[start]), Artifact, " ")
  {
    var start := StartIndex(lines);
    assert lines[start..][0] == lines[start];
  }

  /** When no line starts the body, the whole text is filtered from line 0. */
  lemma FallbackToWholeText(lines: seq<string>)
    requires forall j :: 0 <= j < |lines| ==> !StartsBody(lines[j])
    ensures BodyLines(lines) == FilterMap(KeepLine, lines)
  {
    assert lines[0..] == lines;
  }

  /** A document without a `body` element yields the empty string. */
  lemma NoBodyIsEmpty()
    ensures ExtractBodyText(None) == ""
  {
    assert Lines("") == [];
  }

  /** A body that is one clean paragraph (at least 100 bytes, a full stop, no `@`, no
      affiliation word, no surrounding whitespace, no artifact) comes back unchanged. */
  lemma SingleParagraphRoundTrip(p: string)
    requires p != "" && '\n' !in p
    requires p[0] !in WhiteSpace && p[|p| - 1] !in WhiteSpace
    requires IsValidBodyLine(p, MinStartBytes)
    requires Artifact[0] !in p
    ensures ExtractBodyText(Some([p])) == p
  {
    assert Join([p], "\n") == p;
    LinesOfOneLine(p);
    TrimOfTrimmed(p);
    assert StartsBody(p);
    assert StartIndex([p]) == 0;
    NotContainsFirst(p, Artifact);
    assert KeepLine(p) == Some(p);
    assert [p][0..] == [p];
    assert FilterMap(KeepLine, [p]) == [p] + FilterMap(KeepLine, [p][1..]);
  }
}
