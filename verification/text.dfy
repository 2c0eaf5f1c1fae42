/** The string operations of Rust's `str` that the crawlers use, on `seq<char>` (a `char` is a
    Unicode scalar value, as in Rust). */
module Text {
  import opened Seqs

  /** The characters with the Unicode White_Space property: what `str::trim` removes. */
  const WhiteSpace: set<char> := {
    '\t', '\n', '\U{000B}', '\U{000C}', '\r', ' ', '\U{0085}', '\U{00A0}', '\U{1680}',
    '\U{2000}', '\U{2001}', '\U{2002}', '\U{2003}', '\U{2004}', '\U{2005}', '\U{2006}',
    '\U{2007}', '\U{2008}', '\U{2009}', '\U{200A}', '\U{2028}', '\U{2029}', '\U{202F}',
    '\U{205F}', '\U{3000}'
  }

  // ---------------------------------------------------------------------------
  // Trimming

  /** `trim_start_matches`: drops every leading character in `cs`. */
  function TrimStartBy(s: string, cs: set<char>): (r: string)
    ensures |r| <= |s| && r == s[|s| - |r|..]
    ensures |r| > 0 ==> r[0] !in cs
    ensures forall i :: 0 <= i < |s| - |r| ==> s[i] in cs
    ensures forall i :: 0 <= i < |s| && s[i] !in cs ==> s[i] in r
    decreases |s|
  {
    if |s| > 0 && s[0] in cs then
      var r := TrimStartBy(s[1..], cs);
      assert forall i :: 1 <= i < |s| ==> s[i] == s[1..][i - 1];
      r
    else s
  }

  /** `trim_end_matches`: drops every trailing character in `cs`. */
  function TrimEndBy(s: string, cs: set<char>): (r: string)
    ensures |r| <= |s| && r == s[..|r|]
    ensures |r| > 0 ==> r[|r| - 1] !in cs
    ensures forall i :: |r| <= i < |s| ==> s[i] in cs
    ensures forall i :: 0 <= i < |s| && s[i] !in cs ==> s[i] in r
    decreases |s|
  {
    if |s| > 0 && s[|s| - 1] in cs then
      var r := TrimEndBy(s[..|s| - 1], cs);
      assert forall i :: 0 <= i < |s| - 1 ==> s[i] == s[..|s| - 1][i];
      r
    else s
  }

  /** Nothing to trim when the last character is not in `cs`. */
  lemma TrimEndKeeps(s: string, cs: set<char>)
    requires |s| > 0 && s[|s| - 1] !in cs
    ensures TrimEndBy(s, cs) == s
  {
  }

  /** `str::trim`. */
  function Trim(s: string): (r: string)
    ensures |r| > 0 ==> r[0] !in WhiteSpace && r[|r| - 1] !in WhiteSpace
    ensures var k := TrimOffset(s); k + |r| <= |s| && r == s[k..k + |r|]
  {
    TrimEndBy(TrimStartBy(s, WhiteSpace), WhiteSpace)
  }

  /** The number of leading whitespace characters `Trim` drops. */
  function TrimOffset(s: string): (k: nat)
    ensures k <= |s|
  {
    |s| - |TrimStartBy(s, WhiteSpace)|
  }

  /** Every character of the trim is a character of the string. */
  lemma TrimChars(s: string)
    ensures forall i :: 0 <= i < |Trim(s)| ==> Trim(s)[i] in s
  {
    var k, r := TrimOffset(s), Trim(s);
    forall i | 0 <= i < |r|
      ensures r[i] in s
    {
      assert r[i] == s[k + i];
    }
  }

  /** Every character of the string that is not whitespace survives the trim. */
  lemma TrimKeeps(s: string)
    ensures forall i :: 0 <= i < |s| && s[i] !in WhiteSpace ==> s[i] in Trim(s)
  {
    var t := TrimStartBy(s, WhiteSpace);
    var r := TrimEndBy(t, WhiteSpace);
    forall i | 0 <= i < |s| && s[i] !in WhiteSpace
      ensures s[i] in r
    {
      assert s[i] in t;
      var j :| 0 <= j < |t| && t[j] == s[i];
      assert t[j] in r;
    }
  }

  /** A string with no whitespace at either end is its own trim. */
  lemma TrimOfTrimmed(s: string)
    requires |s| > 0 ==> s[0] !in WhiteSpace && s[|s| - 1] !in WhiteSpace
    ensures Trim(s) == s
  {
  }

  /** Trimming twice is trimming once. */
  lemma TrimIdempotent(s: string)
    ensures Trim(Trim(s)) == Trim(s)
  {
    TrimOfTrimmed(Trim(s));
  }

  /** The trim is empty exactly when the string is all whitespace. */
  lemma TrimEmptyIff(s: string)
    ensures Trim(s) == "" <==> forall i :: 0 <= i < |s| ==> s[i] in WhiteSpace
  {
    var t := TrimStartBy(s, WhiteSpace);
    if Trim(s) == "" {
      assert t == "";
    }
  }

  // ---------------------------------------------------------------------------
  // Lengths

  /** Bytes of one character in UTF-8. */
  function Utf8Width(c: char): nat {
    if c as int < 0x80 then 1
    else if c as int < 0x800 then 2
    else if c as int < 0x1_0000 then 3
    else 4
  }

  /** `str::len`: the length in UTF-8 bytes. */
  function ByteLen(s: string): (n: nat)
    ensures |s| <= n <= 4 * |s|
    decreases |s|
  {
    if |s| == 0 then 0 else Utf8Width(s[0]) + ByteLen(s[1..])
  }

  /** An ASCII string is as long in bytes as in characters. */
  lemma {:induction false} ByteLenAscii(s: string)
    requires forall i :: 0 <= i < |s| ==> s[i] as int < 0x80
    ensures ByteLen(s) == |s|
    decreases |s|
  {
    if |s| > 0 {
      ByteLenAscii(s[1..]);
    }
  }

  // ---------------------------------------------------------------------------
  // Case and substrings

  /** ASCII lower-casing of one character. */
  function LowerChar(c: char): char {
    if 'A' <= c <= 'Z' then (c as int + 32) as char else c
  }

  /** Lower-casing, folding ASCII letters only. */
  function ToLower(s: string): (r: string)
    ensures |r| == |s|
  {
    Map(LowerChar, s)
  }

  predicate StartsWith(s: string, prefix: string) {
    |prefix| <= |s| && s[..|prefix|] == prefix
  }

  /** `str::contains` with a string pattern. */
  predicate Contains(s: string, sub: string)
    decreases |s|
  {
    StartsWith(s, sub) || (|s| > 0 && Contains(s[1..], sub))
  }

  /** `Contains` means an occurrence at some position. */
  lemma {:induction false} ContainsIff(s: string, sub: string)
    ensures Contains(s, sub) <==> exists i :: 0 <= i <= |s| && StartsWith(s[i..], sub)
    decreases |s|
  {
    if |s| > 0 {
      ContainsIff(s[1..], sub);
      if Contains(s[1..], sub) {
        var i :| 0 <= i <= |s| - 1 && StartsWith(s[1..][i..], sub);
        assert s[1..][i..] == s[i + 1..];
        assert StartsWith(s[i + 1..], sub);
      }
      if StartsWith(s, sub) {
        assert s[0..] == s;
        assert StartsWith(s[0..], sub);
      }
      if exists i :: 0 <= i <= |s| && StartsWith(s[i..], sub) {
        var i :| 0 <= i <= |s| && StartsWith(s[i..], sub);
        if i > 0 {
          assert s[1..][i - 1..] == s[i..];
          assert StartsWith(s[1..][i - 1..], sub);
          assert Contains(s[1..], sub);
        } else {
          assert s[0..] == s;
          assert StartsWith(s, sub);
        }
      }
    } else {
      assert Contains(s, sub) == StartsWith(s, sub);
      if exists i :: 0 <= i <= |s| && StartsWith(s[i..], sub) {
        var i :| 0 <= i <= |s| && StartsWith(s[i..], sub);
        assert i == 0 && s[i..] == s;
      }
      if StartsWith(s, sub) {
        assert s[0..] == s;
        assert StartsWith(s[0..], sub);
      }
    }
  }

  /** A pattern whose first character is absent does not occur. */
  lemma {:induction false} NotContainsFirst(s: string, sub: string)
    requires |sub| > 0 && sub[0] !in s
    ensures !Contains(s, sub)
    decreases |s|
  {
    if |s| > 0 {
      assert s[0] != sub[0];
      NotContainsFirst(s[1..], sub);
    }
  }

  // ---------------------------------------------------------------------------
  // Splitting and joining

  /** `str::split(sep)` with a character separator: always at least one field. */
  function Split(s: string, sep: char): (r: seq<string>)
    ensures |r| >= 1
    ensures forall i :: 0 <= i < |r| ==> sep !in r[i]
    ensures forall i, j :: 0 <= i < |r| && 0 <= j < |r[i]| ==> r[i][j] in s
    decreases |s|
  {
    if |s| == 0 then [""]
    else
      var rest := Split(s[1..], sep);
      if s[0] == sep then [""] + rest
      else [[s[0]] + rest[0]] + rest[1..]
  }

  /** `join(sep)`. */
  function Join(parts: seq<string>, sep: string): string
    decreases |parts|
  {
    if |parts| == 0 then ""
    else if |parts| == 1 then parts[0]
    else parts[0] + sep + Join(parts[1..], sep)
  }

  /** Joining the fields of a split with the separator gives back the string. */
  lemma {:induction false} JoinSplit(s: string, sep: char)
    ensures Join(Split(s, sep), [sep]) == s
    decreases |s|
  {
    if |s| > 0 {
      var rest := Split(s[1..], sep);
      JoinSplit(s[1..], sep);
      if s[0] == sep {
        assert Join(Split(s, sep), [sep]) == "" + [sep] + Join(rest, [sep]);
      } else {
        var parts := Split(s, sep);
        if |rest| == 1 {
          assert parts == [[s[0]] + rest[0]];
        } else {
          assert parts[1..] == rest[1..];
          assert Join(rest, [sep]) == rest[0] + [sep] + Join(rest[1..], [sep]);
        }
      }
    }
  }

  /** A separator splits a string into the fields on its left followed by those on its right. */
  lemma {:induction false} SplitAppend(a: string, b: string, sep: char)
    ensures Split(a + [sep] + b, sep) == Split(a, sep) + Split(b, sep)
    decreases |a|
  {
    if |a| == 0 {
      assert a + [sep] + b == [sep] + b;
      assert ([sep] + b)[1..] == b;
    } else {
      assert (a + [sep] + b)[0] == a[0];
      assert (a + [sep] + b)[1..] == a[1..] + [sep] + b;
      SplitAppend(a[1..], b, sep);
    }
  }

  /** Splitting fields joined by the separator gives them back, when none contains it. */
  lemma {:induction false} SplitJoin(parts: seq<string>, sep: char)
    requires |parts| >= 1
    requires forall i :: 0 <= i < |parts| ==> sep !in parts[i]
    ensures Split(Join(parts, [sep]), sep) == parts
    decreases |parts|
  {
    SplitNoSep(parts[0], sep);
    if |parts| > 1 {
      SplitJoin(parts[1..], sep);
      SplitAppend(parts[0], Join(parts[1..], [sep]), sep);
      assert parts == [parts[0]] + parts[1..];
    }
  }

  /** Every character of the string other than the separator lies in some field. */
  lemma {:induction false} SplitCovers(s: string, sep: char, i: nat)
    requires i < |s| && s[i] != sep
    ensures exists j :: 0 <= j < |Split(s, sep)| && s[i] in Split(s, sep)[j]
    decreases |s|
  {
    var rest := Split(s[1..], sep);
    if i == 0 {
      assert s[0] in Split(s, sep)[0];
    } else {
      assert s[1..][i - 1] == s[i];
      SplitCovers(s[1..], sep, i - 1);
      var j :| 0 <= j < |rest| && s[i] in rest[j];
      if s[0] == sep {
        assert Split(s, sep)[j + 1] == rest[j];
      } else if j == 0 {
        assert s[i] in Split(s, sep)[0];
      } else {
        assert Split(s, sep)[j] == rest[j];
      }
    }
  }

  /** A string without the separator is a single field. */
  lemma {:induction false} SplitNoSep(s: string, sep: char)
    requires sep !in s
    ensures Split(s, sep) == [s]
    decreases |s|
  {
    if |s| > 0 {
      assert s[0] != sep;
      SplitNoSep(s[1..], sep);
      assert s == [s[0]] + s[1..];
    }
  }

  // ---------------------------------------------------------------------------
  // Lines

  function StripCR(line: string): string {
    if |line| > 0 && line[|line| - 1] == '\r' then line[..|line| - 1] else line
  }

  /** `str::lines`: splits at `\n`, drops one `\r` before each `\n`, and yields no final empty
      line for a string ending in `\n` (nor any line for the empty string). */
  function Lines(s: string): (r: seq<string>)
    ensures forall i :: 0 <= i < |r| ==> '\n' !in r[i]
  {
    var fields := Split(s, '\n');
    var last := fields[|fields| - 1];
    Map(StripCR, fields[..|fields| - 1]) + (if last == "" then [] else [last])
  }

  /** Each line followed by a newline. */
  function Terminated(lines: seq<string>): string
    decreases |lines|
  {
    if |lines| == 0 then "" else lines[0] + "\n" + Terminated(lines[1..])
  }

  predicate PlainLine(line: string) {
    '\n' !in line && (|line| > 0 ==> line[|line| - 1] != '\r')
  }

  lemma SplitTerminated(lines: seq<string>)
    requires forall i :: 0 <= i < |lines| ==> '\n' !in lines[i]
    ensures Split(Terminated(lines), '\n') == lines + [""]
  {
    var empty := "";
    SplitAfterLines(lines, empty);
    assert Terminated(lines) + empty == Terminated(lines);
    assert Split(empty, '\n') == [""];
  }

  /** Lines written ahead of some text are the first fields of the split. */
  lemma {:induction false} SplitAfterLines(lines: seq<string>, rest: string)
    requires forall i :: 0 <= i < |lines| ==> '\n' !in lines[i]
    ensures Split(Terminated(lines) + rest, '\n') == lines + Split(rest, '\n')
    decreases |lines|
  {
    if |lines| == 0 {
      assert Terminated(lines) + rest == rest;
    } else {
      SplitAfterLines(lines[1..], rest);
      assert Terminated(lines) + rest == lines[0] + "\n" + (Terminated(lines[1..]) + rest);
      SplitAppend(lines[0], Terminated(lines[1..]) + rest, '\n');
      SplitNoSep(lines[0], '\n');
      assert lines + Split(rest, '\n') == [lines[0]] + (lines[1..] + Split(rest, '\n'));
    }
  }

  /** Four lines written out one after another. */
  lemma TerminatedFour(a: string, b: string, c: string, d: string)
    ensures Terminated([a, b, c, d]) == a + "\n" + b + "\n" + c + "\n" + d + "\n"
  {
    var f := [a, b, c, d];
    assert f[1..] == [b, c, d];
    assert f[2..] == [c, d];
    assert f[3..] == [d];
    assert f[3..][1..] == [];
    assert Terminated(f[3..]) == d + "\n";
    assert Terminated(f[2..]) == c + "\n" + (d + "\n");
    assert Terminated(f[1..]) == b + "\n" + (c + "\n" + (d + "\n"));
  }

  /** A document of four header lines and a body: its split is those lines followed by the
      body's own lines. */
  lemma SplitFourThenBody(a: string, b: string, c: string, d: string, body: string)
    requires '\n' !in a && '\n' !in b && '\n' !in c && '\n' !in d
    ensures Split(a + "\n" + b + "\n" + c + "\n" + d + "\n" + body, '\n') == [a, b, c, d] + Split(body, '\n')
  {
    var f := [a, b, c, d];
    TerminatedFour(a, b, c, d);
    assert forall i :: 0 <= i < |f| ==> '\n' !in f[i];
    SplitAfterLines(f, body);
  }

  /** `Lines` reads back exactly the lines a newline-terminated rendering wrote. */
  lemma LinesOfTerminated(lines: seq<string>)
    requires forall i :: 0 <= i < |lines| ==> PlainLine(lines[i])
    ensures Lines(Terminated(lines)) == lines
  {
    var text := Terminated(lines);
    SplitTerminated(lines);
    var fields := Split(text, '\n');
    assert fields[..|fields| - 1] == lines;
    assert fields[|fields| - 1] == "";
    MapStripCRPlain(lines);
    assert Lines(text) == Map(StripCR, lines) + [];
  }

  lemma MapStripCRPlain(lines: seq<string>)
    requires forall i :: 0 <= i < |lines| ==> PlainLine(lines[i])
    ensures Map(StripCR, lines) == lines
  {
    var stripped := Map(StripCR, lines);
    forall i | 0 <= i < |lines|
      ensures stripped[i] == lines[i]
    {
      assert PlainLine(lines[i]);
    }
  }

  /** A non-empty string without a newline is one line. */
  lemma LinesOfOneLine(s: string)
    requires s != "" && '\n' !in s
    ensures Lines(s) == [s]
  {
    SplitNoSep(s, '\n');
  }

  // ---------------------------------------------------------------------------
  // Replacement

  /** `str::replace(pat, rep)`: replaces the non-overlapping occurrences of `pat`, scanning
      from the left. */
  function ReplaceAll(s: string, pat: string, rep: string): (r: string)
    requires |pat| > 0
    ensures !Contains(s, pat) ==> r == s
    decreases |s|
  {
    if |s| == 0 then ""
    else if StartsWith(s, pat) then rep + ReplaceAll(s[|pat|..], pat, rep)
    else [s[0]] + ReplaceAll(s[1..], pat, rep)
  }

  /** An occurrence at the front is replaced. */
  lemma ReplaceHit(pat: string, t: string, rep: string)
    requires |pat| > 0
    ensures ReplaceAll(pat + t, pat, rep) == rep + ReplaceAll(t, pat, rep)
  {
    assert (pat + t)[..|pat|] == pat;
    assert (pat + t)[|pat|..] == t;
  }

  /** A prefix free of the pattern's first character is copied unchanged. */
  lemma {:induction false} ReplaceSkip(a: string, t: string, pat: string, rep: string)
    requires |pat| > 0 && pat[0] !in a
    ensures ReplaceAll(a + t, pat, rep) == a + ReplaceAll(t, pat, rep)
    decreases |a|
  {
    if |a| == 0 {
      assert a + t == t;
    } else {
      var s := a + t;
      assert s[0] == a[0] != pat[0];
      assert !StartsWith(s, pat);
      assert s[1..] == a[1..] + t;
      ReplaceSkip(a[1..], t, pat, rep);
    }
  }

  /** A prefix free of the pattern's second character, and not followed by it, is copied
      unchanged (for patterns such as "/{language}" whose first character is common). */
  lemma {:induction false} ReplaceSkipSecond(a: string, t: string, pat: string, rep: string)
    requires |pat| > 1 && pat[1] !in a
    requires |t| > 0 ==> t[0] != pat[1]
    ensures ReplaceAll(a + t, pat, rep) == a + ReplaceAll(t, pat, rep)
    decreases |a|
  {
    if |a| == 0 {
      assert a + t == t;
    } else {
      var s := a + t;
      if |s| >= 2 {
        assert s[1] != pat[1] by {
          if |a| >= 2 { assert s[1] == a[1]; } else { assert s[1] == t[0]; }
        }
      }
      assert !StartsWith(s, pat);
      assert s[1..] == a[1..] + t;
      ReplaceSkipSecond(a[1..], t, pat, rep);
    }
  }

  /** A different placeholder of the same shape ("{x}" against "{y}") is copied unchanged. */
  lemma ReplaceOtherPlaceholder(h: string, t: string, pat: string, rep: string)
    requires |h| > 1 && |pat| > 1 && h[0] == pat[0] && h[1] != pat[1] && pat[0] !in h[1..]
    ensures ReplaceAll(h + t, pat, rep) == h + ReplaceAll(t, pat, rep)
  {
    var s := h + t;
    assert s[1] == h[1];
    if |pat| <= |s| {
      assert s[..|pat|][1] == s[1];
    }
    assert !StartsWith(s, pat);
    assert s[1..] == h[1..] + t;
    assert ReplaceAll(s, pat, rep) == [s[0]] + ReplaceAll(s[1..], pat, rep);
    ReplaceSkip(h[1..], t, pat, rep);
    assert h == [h[0]] + h[1..];
  }

  /** A template with a single occurrence of the placeholder, whose first character appears
      nowhere else, is filled in place. */
  lemma ReplaceSingle(head: string, pat: string, tail: string, rep: string)
    requires |pat| > 0 && pat[0] !in head && pat[0] !in tail
    ensures ReplaceAll(head + (pat + tail), pat, rep) == head + rep + tail
  {
    ReplaceSkip(head, pat + tail, pat, rep);
    ReplaceHit(pat, tail, rep);
    NotContainsFirst(tail, pat);
  }

  /** The same when it is the placeholder's second character that appears nowhere else
      before it (a placeholder such as "/{language}" inside a URL full of slashes). */
  lemma ReplaceSingleSecond(head: string, pat: string, tail: string, rep: string)
    requires |pat| > 1 && pat[0] != pat[1] && pat[1] !in head && pat[0] !in tail
    ensures ReplaceAll(head + (pat + tail), pat, rep) == head + rep + tail
  {
    ReplaceSkipSecond(head, pat + tail, pat, rep);
    ReplaceHit(pat, tail, rep);
    NotContainsFirst(tail, pat);
  }

  /** Concatenation of string pieces. */
  function Concat(pieces: seq<string>): string
    decreases |pieces|
  {
    if |pieces| == 0 then "" else pieces[0] + Concat(pieces[1..])
  }

  /** The pieces with every piece equal to `pat` replaced by `rep`. */
  function Substitute(pieces: seq<string>, pat: string, rep: string): (r: seq<string>)
    ensures |r| == |pieces|
    ensures forall i :: 0 <= i < |pieces| ==> r[i] == if pieces[i] == pat then rep else pieces[i]
  {
    seq(|pieces|, i requires 0 <= i < |pieces| => if pieces[i] == pat then rep else pieces[i])
  }

  /** A piece `replace` passes over without a match starting inside it: it lacks the
      pattern's first character, or it is a different placeholder of the same shape. */
  predicate Inert(piece: string, pat: string) {
    || (|pat| > 0 && pat[0] !in piece)
    || (|piece| > 1 && |pat| > 1 && piece[0] == pat[0] && piece[1] != pat[1] && pat[0] !in piece[1..])
  }

  /** Filling a template: when every piece is the placeholder `pat` or inert for it,
      `replace` substitutes exactly the placeholder pieces. */
  lemma {:induction false} ReplacePieces(pieces: seq<string>, pat: string, rep: string)
    requires |pat| > 0
    requires forall i :: 0 <= i < |pieces| ==> pieces[i] == pat || Inert(pieces[i], pat)
    ensures ReplaceAll(Concat(pieces), pat, rep) == Concat(Substitute(pieces, pat, rep))
    decreases |pieces|
  {
    if |pieces| == 0 {
    } else {
      var head, tail := pieces[0], Concat(pieces[1..]);
      ReplacePieces(pieces[1..], pat, rep);
      assert Substitute(pieces, pat, rep)[1..] == Substitute(pieces[1..], pat, rep);
      if head == pat {
        ReplaceHit(pat, tail, rep);
      } else if pat[0] !in head {
        ReplaceSkip(head, tail, pat, rep);
      } else {
        ReplaceOtherPlaceholder(head, tail, pat, rep);
      }
    }
  }

  /** `s` with every `c` removed, the other characters kept in order. */
  function Without(s: string, c: char): (r: string)
    ensures c !in r
    ensures multiset(r) == multiset(s)[c := 0]
    decreases |s|
  {
    if |s| == 0 then ""
    else
      assert s == [s[0]] + s[1..];
      (if s[0] == c then "" else [s[0]]) + Without(s[1..], c)
  }

  /** Replacing a one-character pattern by nothing removes that character. */
  lemma {:induction false} ReplaceDeletes(s: string, c: char)
    ensures ReplaceAll(s, [c], "") == Without(s, c)
    decreases |s|
  {
    if |s| > 0 {
      ReplaceDeletes(s[1..], c);
      var pat := [c];
      if s[0] == c {
        assert StartsWith(s, pat);
        assert s[|pat|..] == s[1..];
        assert ReplaceAll(s, pat, "") == "" + ReplaceAll(s[1..], pat, "");
      } else {
        assert !StartsWith(s, pat);
        assert ReplaceAll(s, pat, "") == [s[0]] + ReplaceAll(s[1..], pat, "");
      }
    }
  }

  // ---------------------------------------------------------------------------
  // Decimal numbers

  predicate IsDigit(c: char) {
    '0' <= c <= '9'
  }

  function DigitChar(d: nat): (c: char)
    requires d < 10
    ensures IsDigit(c)
  {
    ('0' as int + d) as char
  }

  /** The value of a string of decimal digits (0 for the empty string). */
  function DigitsValue(s: string): nat
    requires forall i :: 0 <= i < |s| ==> IsDigit(s[i])
    decreases |s|
  {
    if |s| == 0 then 0
    else
      assert IsDigit(s[|s| - 1]);
      DigitsValue(s[..|s| - 1]) * 10 + (s[|s| - 1] as int - '0' as int)
  }

  /** `Display` for an unsigned integer: decimal digits, no leading zero. */
  function NatToString(n: nat): (r: string)
    ensures |r| >= 1
    ensures forall i :: 0 <= i < |r| ==> IsDigit(r[i])
    ensures r[0] == '0' ==> n == 0
    decreases n
  {
    if n < 10 then [DigitChar(n)] else NatToString(n / 10) + [DigitChar(n % 10)]
  }

  /** Reading back the digits of a number gives the number. */
  lemma {:induction false} NatToStringRoundTrip(n: nat)
    ensures DigitsValue(NatToString(n)) == n
    decreases n
  {
    if n >= 10 {
      NatToStringRoundTrip(n / 10);
      var r := NatToString(n);
      assert r[..|r| - 1] == NatToString(n / 10);
    }
  }

  /** `Display` for a signed integer. */
  function IntToString(n: int): (r: string)
    ensures |r| >= 1
    ensures (r[0] == '-') <==> n < 0
  {
    if n < 0 then "-" + NatToString(-n) else NatToString(n)
  }

  /** A rendered integer is a sign and digits: in particular it holds no line break. */
  lemma IntToStringChars(n: int)
    ensures forall i :: 0 <= i < |IntToString(n)| ==> IntToString(n)[i] == '-' || IsDigit(IntToString(n)[i])
    ensures '\n' !in IntToString(n)
  {
    var r := IntToString(n);
    if n < 0 {
      var digits := NatToString(-n);
      assert r == "-" + digits;
      assert forall i :: 1 <= i < |r| ==> r[i] == digits[i - 1];
    }
  }
}
