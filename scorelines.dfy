/**
 * The text format of the score file: one `name-score` line per entry, as
 * ScoresScene writes it with string concatenation and reads it back with
 * `split("-")` and `Integer.valueOf` / `Integer.parseInt`.
 */
module ScoreLines {
  import opened Wrappers

  /** The range of a Java `int`. */
  const IntMin := -0x8000_0000
  const IntMax := 0x7FFF_FFFF

  /** One row of the score table: a player name and a score. */
  datatype Entry = Entry(name: string, score: int)

  /** The pieces of s between its dashes, empty pieces included. */
  function SplitAll(s: string): seq<string>
  {
    if |s| == 0 then [""]
    else
      var rest := SplitAll(s[1..]);
      if s[0] == '-' then [""] + rest
      else [[s[0]] + rest[0]] + rest[1..]
  }

  /** There is always a piece, at most one more than the characters, and no piece holds a dash. */
  lemma {:induction false} SplitAllLaws(s: string)
    ensures 1 <= |SplitAll(s)| <= |s| + 1
    ensures forall k :: 0 <= k < |SplitAll(s)| ==> '-' !in SplitAll(s)[k]
  {
    if |s| > 0 {
      SplitAllLaws(s[1..]);
      var rest := SplitAll(s[1..]);
      if s[0] != '-' {
        assert '-' !in [s[0]] + rest[0];
        assert forall k :: 1 <= k < |SplitAll(s)| ==> SplitAll(s)[k] == rest[k];
      }
    }
  }

  /** fs without its trailing empty strings. */
  function DropTrailingEmpty(fs: seq<string>): seq<string>
  {
    if |fs| == 0 then []
    else if fs[|fs| - 1] == "" then DropTrailingEmpty(fs[..|fs| - 1])
    else fs
  }

  /** What is dropped is a run of empty strings at the end, and what is kept is a prefix ending in a non-empty one. */
  lemma {:induction false} DropTrailingEmptyLaws(fs: seq<string>)
    ensures var r := DropTrailingEmpty(fs);
      && |r| <= |fs| && r == fs[..|r|]
      && (|r| > 0 ==> r[|r| - 1] != "")
      && (forall k :: |r| <= k < |fs| ==> fs[k] == "")
  {
    if |fs| > 0 && fs[|fs| - 1] == "" {
      var front := fs[..|fs| - 1];
      DropTrailingEmptyLaws(front);
      var r := DropTrailingEmpty(front);
      assert fs[..|r|] == front[..|r|];
    } else if |fs| > 0 {
      assert fs[..|fs|] == fs;
    }
  }

  /**
   * Java's `s.split("-")`: the whole string when there is no dash, otherwise
   * the pieces between dashes with trailing empty pieces removed.
   */
  function Split(s: string): (fields: seq<string>)
    ensures '-' !in s ==> fields == [s]
    ensures |fields| <= |s| + 1
  {
    if '-' !in s then [s]
    else
      SplitAllLaws(s);
      DropTrailingEmptyLaws(SplitAll(s));
      DropTrailingEmpty(SplitAll(s))
  }

  /** No field of a split holds a dash. */
  lemma SplitLaws(s: string)
    ensures forall k :: 0 <= k < |Split(s)| ==> '-' !in Split(s)[k]
  {
    if '-' in s {
      SplitAllLaws(s);
      DropTrailingEmptyLaws(SplitAll(s));
      var r := DropTrailingEmpty(SplitAll(s));
      assert forall k :: 0 <= k < |r| ==> r[k] == SplitAll(s)[k];
    }
  }

  predicate IsDigit(c: char)
  {
    '0' <= c <= '9'
  }

  predicate AllDigits(s: string)
  {
    forall k :: 0 <= k < |s| ==> IsDigit(s[k])
  }

  /** The number a string of decimal digits denotes. */
  function DigitsValue(s: string): (v: nat)
    requires AllDigits(s)
  {
    if |s| == 0 then 0
    else DigitsValue(s[..|s| - 1]) * 10 + (s[|s| - 1] as int - '0' as int)
  }

  /**
   * `Integer.parseInt(s)`: an optional sign, then at least one decimal digit,
   * and a value inside the `int` range; anything else is an error (None).
   */
  function ParseInt(s: string): (r: Option<int>)
    ensures r.Some? ==> IntMin <= r.value <= IntMax
    ensures r.Some? && '-' !in s ==> r.value >= 0
  {
    if |s| == 0 then None
    else
      assert s[0] == '-' ==> '-' in s;
      var negative := s[0] == '-';
      var digits := if s[0] == '-' || s[0] == '+' then s[1..] else s;
      if |digits| == 0 || !AllDigits(digits) then None
      else
        var magnitude: int := DigitsValue(digits);
        var v := if negative then 0 - magnitude else magnitude;
        if IntMin <= v <= IntMax then Some(v) else None
  }

  /** Plain decimal digits within the `int` range parse to the number they denote. */
  lemma ParseIntLaws(s: string)
    ensures AllDigits(s) && |s| > 0 && DigitsValue(s) <= IntMax ==> ParseInt(s) == Some(DigitsValue(s))
  {
    if AllDigits(s) && |s| > 0 {
      assert IsDigit(s[0]);
    }
  }

  /** The decimal digits of n, without leading zeros. */
  function NatDigits(n: nat): (r: string)
    ensures |r| >= 1 && AllDigits(r)
  {
    if n < 10 then [('0' as int + n) as char]
    else NatDigits(n / 10) + [('0' as int + n % 10) as char]
  }

  /** `Integer.toString(i)`: a leading '-' for negative values, then the digits. */
  function FormatInt(i: int): (r: string)
    ensures |r| >= 1
    ensures i >= 0 <==> AllDigits(r)
  {
    if i < 0 then
      var r := "-" + NatDigits(-i);
      assert !IsDigit(r[0]);
      r
    else NatDigits(i)
  }

  /** The line writeScores emits for an entry. */
  function FormatEntry(e: Entry): (line: string)
    ensures |line| > |e.name| + 1 && line[..|e.name|] == e.name && line[|e.name|] == '-'
    ensures e.score >= 0 <==> AllDigits(line[|e.name| + 1..])
  {
    var line := e.name + "-" + FormatInt(e.score);
    assert line[|e.name| + 1..] == FormatInt(e.score);
    line
  }

  /**
   * How loadScores and getHighScore read a line: the first field is the
   * name, the second the score; a missing field or a malformed number is an
   * error (None), and any further fields are ignored.
   */
  function ParseLine(line: string): (r: Option<Entry>)
    ensures r.Some? ==> '-' !in r.value.name && 0 <= r.value.score <= IntMax
  {
    var fields := Split(line);
    SplitLaws(line);
    if |fields| < 2 then None
    else
      match ParseInt(fields[1])
      case None => None
      case Some(v) => Some(Entry(fields[0], v))
  }

  lemma {:induction false} DigitsRoundTrip(n: nat)
    ensures DigitsValue(NatDigits(n)) == n
  {
    if n >= 10 {
      DigitsRoundTrip(n / 10);
      var s := NatDigits(n);
      assert s[..|s| - 1] == NatDigits(n / 10);
    }
  }

  /** A dash-free string splits into itself alone. */
  lemma {:induction false} SplitAllNoDash(s: string)
    requires '-' !in s
    ensures SplitAll(s) == [s]
  {
    if |s| > 0 {
      SplitAllNoDash(s[1..]);
      assert [s[0]] + s[1..] == s;
    }
  }

  /** Splitting at the first dash. */
  lemma {:induction false} SplitAllFirstDash(a: string, b: string)
    requires '-' !in a
    ensures SplitAll(a + "-" + b) == [a] + SplitAll(b)
  {
    if |a| == 0 {
      assert (a + "-" + b)[1..] == b;
    } else {
      assert (a + "-" + b)[1..] == a[1..] + "-" + b;
      SplitAllFirstDash(a[1..], b);
      assert [a[0]] + a[1..] == a;
    }
  }

  /** A name without dashes and a non-negative score read back as written. */
  lemma FormatParseRoundTrip(e: Entry)
    requires '-' !in e.name && 0 <= e.score <= IntMax
    ensures ParseLine(FormatEntry(e)) == Some(e)
  {
    var digits := NatDigits(e.score);
    assert FormatInt(e.score) == digits;
    assert '-' !in digits by {
      forall k | 0 <= k < |digits| ensures digits[k] != '-' {
        assert IsDigit(digits[k]);
      }
    }
    var line := FormatEntry(e);
    assert '-' in line by {
      assert line[|e.name|] == '-';
    }
    SplitAllFirstDash(e.name, digits);
    SplitAllNoDash(digits);
    assert Split(line) == [e.name, digits];
    DigitsRoundTrip(e.score);
    ParseIntLaws(digits);
  }

  /** Every line that reads successfully reads the same after being written back. */
  lemma ParsedLineRewrites(line: string, e: Entry)
    requires ParseLine(line) == Some(e)
    ensures ParseLine(FormatEntry(e)) == Some(e)
  {
    FormatParseRoundTrip(e);
  }

  /** A name with a dash does not survive the round trip: the score field is then "b". */
  lemma DashedNameUnreadable()
    ensures ParseLine(FormatEntry(Entry("a-b", 50))) == None
  {
    var line := FormatEntry(Entry("a-b", 50));
    assert NatDigits(50) == "50";
    assert line == "a" + "-" + ("b" + "-" + "50");
    SplitAllFirstDash("a", "b" + "-" + "50");
    SplitAllFirstDash("b", "50");
    SplitAllNoDash("50");
    assert SplitAll(line) == ["a", "b", "50"];
    assert DropTrailingEmpty(["a", "b", "50"]) == ["a", "b", "50"];
    assert line[1] == '-';
    assert Split(line) == ["a", "b", "50"];
    assert ParseInt("b") == None;
  }

  /** A negative score does not survive the round trip: it leaves an empty score field. */
  lemma NegativeScoreUnreadable()
    ensures ParseLine(FormatEntry(Entry("a", -5))) == None
  {
    var line := FormatEntry(Entry("a", -5));
    assert NatDigits(5) == "5";
    assert line == "a" + "-" + ("" + "-" + "5");
    SplitAllFirstDash("a", "" + "-" + "5");
    SplitAllFirstDash("", "5");
    SplitAllNoDash("5");
    assert SplitAll(line) == ["a", "", "5"];
    assert DropTrailingEmpty(["a", "", "5"]) == ["a", "", "5"];
    assert line[1] == '-';
    assert Split(line) == ["a", "", "5"];
    assert ParseInt("") == None;
  }

  /** The characters at which `Scanner.nextLine` ends a line. */
  predicate IsLineTerminator(c: char)
  {
    c == '\n' || c == '\r' || c == '\U{0085}' || c == '\U{2028}' || c == '\U{2029}'
  }

  predicate NoLineTerminator(s: string)
  {
    forall k :: 0 <= k < |s| ==> !IsLineTerminator(s[k])
  }

  /** Where the first line of text ends: its first line terminator, or the end of the text. */
  function LineEnd(text: string): (k: nat)
    ensures k <= |text|
    ensures k < |text| ==> IsLineTerminator(text[k])
    ensures forall i :: 0 <= i < k ==> !IsLineTerminator(text[i])
  {
    if |text| == 0 || IsLineTerminator(text[0]) then 0 else 1 + LineEnd(text[1..])
  }

  /**
   * The lines a `Scanner` yields with `hasNextLine` / `nextLine`: each ends at
   * a line terminator ("\r\n" counting as one), which is dropped, and a
   * terminator at the very end does not start another line.
   */
  function ScannerLines(text: string): (lines: seq<string>)
    ensures |lines| <= |text|
    ensures |lines| == 0 <==> |text| == 0
    decreases |text|
  {
    if |text| == 0 then []
    else
      var k := LineEnd(text);
      if k == |text| then [text]
      else
        var next := if text[k] == '\r' && k + 1 < |text| && text[k + 1] == '\n' then k + 2 else k + 1;
        [text[..k]] + ScannerLines(text[next..])
  }

  /** The text a `BufferedWriter` receives: each line, then `newLine()` ("\n"). */
  function FileText(lines: seq<string>): (text: string)
    ensures |text| >= |lines|
  {
    if |lines| == 0 then "" else lines[0] + "\n" + FileText(lines[1..])
  }

  /** Writing one more line appends it and a newline to the text. */
  lemma {:induction false} FileTextSnoc(lines: seq<string>, line: string)
    ensures FileText(lines + [line]) == FileText(lines) + line + "\n"
  {
    if |lines| == 0 {
      assert lines + [line] == [line];
    } else {
      assert (lines + [line])[1..] == lines[1..] + [line];
      FileTextSnoc(lines[1..], line);
    }
  }

  /** A line without terminators, then a terminator t: the first line ends at t. */
  lemma {:induction false} LineEndAt(a: string, t: char, b: string)
    requires NoLineTerminator(a) && IsLineTerminator(t)
    ensures LineEnd(a + [t] + b) == |a|
  {
    if |a| > 0 {
      assert (a + [t] + b)[1..] == a[1..] + [t] + b;
      LineEndAt(a[1..], t, b);
    }
  }

  /** A line without terminators, then a terminator other than '\r', is scanned as that line. */
  lemma ScannerLinesCons(a: string, t: char, b: string)
    requires NoLineTerminator(a) && IsLineTerminator(t) && t != '\r'
    ensures ScannerLines(a + [t] + b) == [a] + ScannerLines(b)
  {
    var text := a + [t] + b;
    LineEndAt(a, t, b);
    assert text[..|a|] == a;
    assert text[|a|] == t;
    assert text[|a| + 1..] == b;
  }

  /** A line without terminators, then "\r\n", is scanned as that line: the pair counts as one terminator. */
  lemma ScannerLinesCrLf(a: string, b: string)
    requires NoLineTerminator(a)
    ensures ScannerLines(a + ['\r', '\n'] + b) == [a] + ScannerLines(b)
  {
    var text := a + ['\r', '\n'] + b;
    assert text == a + ['\r'] + (['\n'] + b);
    LineEndAt(a, '\r', ['\n'] + b);
    assert text[..|a|] == a;
    assert text[|a|] == '\r' && text[|a| + 1] == '\n';
    assert text[|a| + 2..] == b;
  }

  /** A line without terminators, then a '\r' not followed by '\n', is scanned as that line. */
  lemma ScannerLinesLoneCr(a: string, b: string)
    requires NoLineTerminator(a) && (|b| == 0 || b[0] != '\n')
    ensures ScannerLines(a + ['\r'] + b) == [a] + ScannerLines(b)
  {
    var text := a + ['\r'] + b;
    LineEndAt(a, '\r', b);
    assert text[..|a|] == a;
    assert text[|a|] == '\r';
    assert |a| + 1 < |text| ==> text[|a| + 1] == b[0];
    assert text[|a| + 1..] == b;
  }

  /** A text without terminators has no line end before its end. */
  lemma {:induction false} LineEndNone(a: string)
    requires NoLineTerminator(a)
    ensures LineEnd(a) == |a|
  {
    if |a| > 0 {
      assert NoLineTerminator(a[1..]) by {
        forall k | 0 <= k < |a| - 1 ensures !IsLineTerminator(a[1..][k]) {
          assert a[1..][k] == a[k + 1];
        }
      }
      LineEndNone(a[1..]);
    }
  }

  /** An empty text has no lines; a non-empty text without terminators is one line. */
  lemma ScannerLinesLast(a: string)
    requires NoLineTerminator(a)
    ensures ScannerLines(a) == if |a| == 0 then [] else [a]
  {
    LineEndNone(a);
  }

  /** The text written where `newLine()` is "\r\n": each line, then "\r\n". */
  function FileTextCrLf(lines: seq<string>): (text: string)
    ensures |text| >= 2 * |lines|
  {
    if |lines| == 0 then "" else lines[0] + "\r\n" + FileTextCrLf(lines[1..])
  }

  /** The first line of a "\r\n"-written text is scanned first. */
  lemma ScannerLinesCrLfStep(lines: seq<string>)
    requires |lines| > 0 && NoLineTerminator(lines[0])
    ensures ScannerLines(FileTextCrLf(lines)) == [lines[0]] + ScannerLines(FileTextCrLf(lines[1..]))
  {
    var rest := FileTextCrLf(lines[1..]);
    assert FileTextCrLf(lines) == lines[0] + ['\r', '\n'] + rest;
    ScannerLinesCrLf(lines[0], rest);
  }

  /** Lines without terminators, written with "\r\n" and scanned, come back as they were. */
  lemma {:induction false} ScannerLinesRoundTripCrLf(lines: seq<string>)
    requires forall k :: 0 <= k < |lines| ==> NoLineTerminator(lines[k])
    ensures ScannerLines(FileTextCrLf(lines)) == lines
  {
    if |lines| > 0 {
      var tail := lines[1..];
      ScannerLinesCrLfStep(lines);
      assert forall k :: 0 <= k < |tail| ==> tail[k] == lines[k + 1];
      ScannerLinesRoundTripCrLf(tail);
      assert lines == [lines[0]] + tail;
    }
  }

  /** The first line of a written text is scanned first. */
  lemma ScannerLinesStep(lines: seq<string>)
    requires |lines| > 0 && NoLineTerminator(lines[0])
    ensures ScannerLines(FileText(lines)) == [lines[0]] + ScannerLines(FileText(lines[1..]))
  {
    var rest := FileText(lines[1..]);
    assert FileText(lines) == lines[0] + ['\n'] + rest;
    ScannerLinesCons(lines[0], '\n', rest);
  }

  /** Lines without terminators, written and scanned, come back as they were. */
  lemma {:induction false} ScannerLinesRoundTrip(lines: seq<string>)
    requires forall k :: 0 <= k < |lines| ==> NoLineTerminator(lines[k])
    ensures ScannerLines(FileText(lines)) == lines
  {
    if |lines| > 0 {
      var tail := lines[1..];
      ScannerLinesStep(lines);
      assert forall k :: 0 <= k < |tail| ==> tail[k] == lines[k + 1];
      ScannerLinesRoundTrip(tail);
      assert lines == [lines[0]] + tail;
    }
  }

  /** A name without terminators gives a written line without terminators. */
  lemma FormatEntryOneLine(e: Entry)
    requires NoLineTerminator(e.name)
    ensures NoLineTerminator(FormatEntry(e))
  {
    var digits := FormatInt(e.score);
    var line := FormatEntry(e);
    forall k | 0 <= k < |line| ensures !IsLineTerminator(line[k]) {
      if k < |e.name| {
        assert line[k] == e.name[k];
      } else if k > |e.name| {
        assert line[k] == digits[k - |e.name| - 1];
        if e.score >= 0 {
          assert IsDigit(digits[k - |e.name| - 1]);
        } else if k > |e.name| + 1 {
          assert digits[k - |e.name| - 1] == NatDigits(-e.score)[k - |e.name| - 2];
          assert AllDigits(NatDigits(-e.score));
        }
      }
    }
  }

  /** The file text written for the name "a", U+2028, "b" with score 5. */
  lemma SeparatorNameText()
    ensures FileText([FormatEntry(Entry("a\U{2028}b", 5))]) == "a" + ['\U{2028}'] + ("b-5" + ['\n'] + "")
  {
    var line := FormatEntry(Entry("a\U{2028}b", 5));
    assert NatDigits(5) == "5";
    assert line == "a\U{2028}b-5";
    assert [line][1..] == [] && FileText([]) == "";
  }

  /**
   * A name holding U+2028 is written as one line but scanned as two, and the
   * first of them has no score field.
   */
  lemma SeparatorNameSplits()
    ensures ScannerLines(FileText([FormatEntry(Entry("a\U{2028}b", 5))])) == ["a", "b-5"]
  {
    SeparatorNameText();
    SeparatorTextScans();
  }

  /** "a", U+2028, "b-5" and a newline scan as the lines "a" and "b-5". */
  lemma SeparatorTextScans()
    ensures ScannerLines("a" + ['\U{2028}'] + ("b-5" + ['\n'] + "")) == ["a", "b-5"]
  {
    assert NoLineTerminator("a") && NoLineTerminator("b-5");
    LastLineScans("b-5");
    ScannerLinesCons("a", '\U{2028}', "b-5" + ['\n'] + "");
  }

  /** A line without terminators and a newline scan as that single line. */
  lemma LastLineScans(a: string)
    requires NoLineTerminator(a)
    ensures ScannerLines(a + ['\n'] + "") == [a]
  {
    ScannerLinesCons(a, '\n', "");
    assert ScannerLines("") == [];
  }

  /** The file text written for the name "x-3", U+2028, "y" with score 5. */
  lemma DashedSeparatorNameText()
    ensures FileText([FormatEntry(Entry("x-3\U{2028}y", 5))]) == "x-3" + ['\U{2028}'] + ("y-5" + ['\n'] + "")
  {
    var line := FormatEntry(Entry("x-3\U{2028}y", 5));
    assert NatDigits(5) == "5";
    assert line == "x-3\U{2028}y-5";
    assert [line][1..] == [] && FileText([]) == "";
  }

  /** A name holding a dash and U+2028 is scanned as two lines, each with a score field. */
  lemma DashedSeparatorNameSplits()
    ensures ScannerLines(FileText([FormatEntry(Entry("x-3\U{2028}y", 5))])) == ["x-3", "y-5"]
  {
    DashedSeparatorNameText();
    DashedTextScans();
  }

  /** "x-3", U+2028, "y-5" and a newline scan as the lines "x-3" and "y-5". */
  lemma DashedTextScans()
    ensures ScannerLines("x-3" + ['\U{2028}'] + ("y-5" + ['\n'] + "")) == ["x-3", "y-5"]
  {
    assert NoLineTerminator("x-3") && NoLineTerminator("y-5");
    LastLineScans("y-5");
    ScannerLinesCons("x-3", '\U{2028}', "y-5" + ['\n'] + "");
  }


  /** The two halves of that name read as entries of their own. */
  lemma DashedHalvesRead()
    ensures ParseLine("x-3") == Some(Entry("x", 3))
    ensures ParseLine("y-5") == Some(Entry("y", 5))
  {
    assert NatDigits(3) == "3" && NatDigits(5) == "5";
    assert FormatEntry(Entry("x", 3)) == "x-3";
    FormatParseRoundTrip(Entry("x", 3));
    assert FormatEntry(Entry("y", 5)) == "y-5";
    FormatParseRoundTrip(Entry("y", 5));
  }

  /** A line without a dash has no score field, so it does not read. */
  lemma LoneNameUnreadable()
    ensures ParseLine("a") == None
  {
    assert Split("a") == ["a"];
  }
}
