/**
 * The Marker extractor (marker_extractor.py): which text extract_pdf
 * returns when Marker and OCR both may produce one, and the statistics
 * get_extraction_stats reports about Markdown text.
 *
 * Marker's converter and the OCR pass are oracles: the model takes the
 * text each produced, with None where it was unavailable or raised.
 */
module MarkerExtractor {
  import opened Text

  /** config.OCR_MIN_TEXT_THRESHOLD, and extract_pdf's default when config lacks it. */
  const OCR_MIN_TEXT_THRESHOLD: nat := 100

  // ---------------------------------------------------------------------------
  // extract_pdf: choosing between Marker and OCR
  // ---------------------------------------------------------------------------

  /** Marker's text is kept outright when it is non-empty and long enough once stripped. */
  predicate Sufficient(t: Option<string>) {
    t.Some? && t.value != [] && |Strip(t.value)| >= OCR_MIN_TEXT_THRESHOLD
  }

  /** Python truthiness of an Optional[str]. */
  predicate HasText(t: Option<string>) {
    t.Some? && t.value != []
  }

  /**
   * extract_pdf: None for a missing file; Marker's text when sufficient;
   * otherwise, with the fallback requested and OCR available, OCR's text
   * when Marker gave nothing or OCR's stripped text is strictly longer;
   * otherwise Marker's text as it is, possibly None or empty.
   */
  function ExtractPdf(found: bool, marker: Option<string>, useOcrFallback: bool, ocrAvailable: bool,
                      ocr: Option<string>): (r: Option<string>)
    ensures !found ==> r.None?
    ensures found ==> r == marker || r == ocr
    ensures found && Sufficient(marker) ==> r == marker
    ensures found && r != marker ==>
              useOcrFallback && ocrAvailable && HasText(ocr) && !Sufficient(marker)
              && (!HasText(marker) || |Strip(ocr.value)| > |Strip(marker.value)|)
  {
    if !found then None
    else if Sufficient(marker) then marker
    else if useOcrFallback && ocrAvailable && (!HasText(marker) || |Strip(marker.value)| < OCR_MIN_TEXT_THRESHOLD) then
      if HasText(ocr) && (!HasText(marker) || |Strip(ocr.value)| > |Strip(marker.value)|) then ocr
      else marker
    else marker
  }

  /**
   * OCR never makes the result worse than Marker's: when Marker produced
   * text, the text returned is at least as long once stripped.
   */
  lemma NeverWorseThanMarker(marker: Option<string>, useOcrFallback: bool, ocrAvailable: bool, ocr: Option<string>)
    requires marker.Some?
    ensures var r := ExtractPdf(true, marker, useOcrFallback, ocrAvailable, ocr);
            r.Some? && |Strip(r.value)| >= |Strip(marker.value)|
  {
  }

  /**
   * Conversely, OCR is taken whenever it may be: the fallback requested,
   * OCR available and non-empty, and Marker insufficient and either empty
   * or strictly shorter once stripped.
   */
  lemma OcrTakenWhenBetter(marker: Option<string>, ocr: Option<string>)
    requires !Sufficient(marker) && HasText(ocr)
    requires !HasText(marker) || |Strip(ocr.value)| > |Strip(marker.value)|
    ensures ExtractPdf(true, marker, true, true, ocr) == ocr
  {
  }

  // ---------------------------------------------------------------------------
  // get_extraction_stats
  // ---------------------------------------------------------------------------

  /** The statistics get_extraction_stats reports for a non-empty text. */
  datatype Stats = Stats(totalChars: nat, totalLines: nat, totalWords: nat, sectionsFound: nat,
                         tablesDetected: bool, tableRows: nat, listsDetected: bool, listItems: nat,
                         codeBlocks: nat)

  /** s.count(c) for one character. */
  function CharCount(s: string, c: char): (r: nat)
    ensures r <= |s|
    ensures c !in s ==> r == 0
  {
    if s == [] then 0 else (if s[0] == c then 1 else 0) + CharCount(s[1..], c)
  }

  /** A Markdown header line. */
  predicate IsSection(line: string) {
    line != [] && line[0] == '#'
  }

  /** A Markdown table row: at least two '|'. */
  predicate IsTableRow(line: string) {
    '|' in line && CharCount(line, '|') >= 2
  }

  /** A list item: the stripped line starts with '-', '*' or '+'. */
  predicate IsListItem(line: string) {
    var t := Strip(line);
    t != [] && t[0] in "-*+"
  }

  /** [line for line in lines if keep(line)] */
  function Keep(lines: seq<string>, keep: string -> bool): (r: seq<string>)
    ensures |r| <= |lines|
    ensures forall k :: 0 <= k < |r| ==> keep(r[k])
    ensures forall x :: x in r <==> x in lines && keep(x)
  {
    if lines == [] then []
    else
      var rest := Keep(lines[1..], keep);
      assert forall x :: x in lines <==> x == lines[0] || x in lines[1..];
      if keep(lines[0]) then [lines[0]] + rest else rest
  }

  /**
   * get_extraction_stats: {} (None) for empty text; otherwise the counts
   * of characters, '\n'-separated lines, whitespace-separated words,
   * header lines, table rows, list items and fenced code blocks (half the
   * non-overlapping occurrences of three backquotes).
   */
  function ExtractionStats(text: string): (r: Option<Stats>)
    ensures r.None? <==> text == []
    ensures r.Some? ==>
              var st := r.value;
              st.totalChars == |text| && st.totalLines == CharCount(text, '\n') + 1
              && st.totalWords <= st.totalChars
              && st.sectionsFound <= st.totalLines && st.tableRows <= st.totalLines && st.listItems <= st.totalLines
              && (st.tablesDetected <==> st.tableRows > 0) && (st.listsDetected <==> st.listItems > 0)
              && 6 * st.codeBlocks <= st.totalChars
    ensures r.Some? ==>
              var st := r.value;
              var lines := SplitOn(text, '\n');
              st.totalWords == |Words(text)|
              && st.sectionsFound == |Keep(lines, IsSection)| && st.tableRows == |Keep(lines, IsTableRow)|
              && st.listItems == |Keep(lines, IsListItem)| && st.codeBlocks == CountFrom(text, "```", 0) / 2
  {
    if text == [] then None
    else
      var lines := SplitOn(text, '\n');
      var words := Words(text);
      var sections := Keep(lines, IsSection);
      var tableLines := Keep(lines, IsTableRow);
      var listLines := Keep(lines, IsListItem);
      var codeBlocks := CountFrom(text, "```", 0);
      LinesCounted(text, '\n');
      WordsBound(text);
      CountFromBound(text, "```", 0);
      HalfOfThirds(codeBlocks, |text|);
      Some(Stats(|text|, |lines|, |words|, |sections|, |tableLines| > 0, |tableLines|, |listLines| > 0, |listLines|,
                 if codeBlocks > 0 then codeBlocks / 2 else 0))
  }

  lemma {:induction false} CharCountAppend(a: string, b: string, c: char)
    ensures CharCount(a + b, c) == CharCount(a, c) + CharCount(b, c)
  {
    if a != [] {
      assert (a + b)[1..] == a[1..] + b;
      CharCountAppend(a[1..], b, c);
    } else {
      assert a + b == b;
    }
  }

  /** Splitting on a character gives one more piece than it has occurrences. */
  lemma {:induction false} LinesCounted(s: string, c: char)
    ensures |SplitOn(s, c)| == CharCount(s, c) + 1
    decreases |s|
  {
    var i := CharFrom(s, c, 0);
    NoneBefore(s, c);
    if i < |s| {
      LinesCounted(s[i + 1..], c);
      assert SplitOn(s, c) == [s[..i]] + SplitOn(s[i + 1..], c);
      CountAfter(s, c, i);
    } else {
      assert s[..i] == s;
    }
  }

  /** No occurrence of c precedes the one CharFrom finds. */
  lemma NoneBefore(s: string, c: char)
    ensures CharCount(s[..CharFrom(s, c, 0)], c) == 0
  {
    CharFromFirst(s, c, 0);
    assert s[0..CharFrom(s, c, 0)] == s[..CharFrom(s, c, 0)];
  }

  /** With none before the c at i, the occurrences of c are that one and those after it. */
  lemma CountAfter(s: string, c: char, i: nat)
    requires i < |s| && s[i] == c && CharCount(s[..i], c) == 0
    ensures CharCount(s, c) == 1 + CharCount(s[i + 1..], c)
  {
    assert s[i..][1..] == s[i + 1..];
    assert s == s[..i] + s[i..];
    CharCountAppend(s[..i], s[i..], c);
  }

  /** There are no more words than characters. */
  lemma {:induction false} WordsBound(s: string)
    ensures |Words(s)| <= |s|
    decreases |s|
  {
    var i := SkipLeft(s, 0, IsSpace);
    if i < |s| {
      var j := WordEnd(s, i);
      WordsBound(s[j..]);
    }
  }

  /** Occurrences of three characters each, paired up: six characters per pair. */
  lemma HalfOfThirds(n: nat, m: nat)
    requires n * 3 <= m
    ensures 6 * (n / 2) <= m
  {
    assert 2 * (n / 2) <= n;
  }

  lemma MulSucc(c: nat, n: nat)
    ensures (1 + c) * n == n + c * n
  {
  }

  /** Each counted occurrence takes up |t| characters of its own. */
  lemma {:induction false} CountFromBound(s: string, t: string, i: nat)
    requires t != [] && i <= |s|
    ensures CountFrom(s, t, i) * |t| <= |s| - i
    decreases |s| - i
  {
    var n := |t|;
    if i + n <= |s| {
      if s[i..i + n] == t {
        var c := CountFrom(s, t, i + n);
        CountFromBound(s, t, i + n);
        assert CountFrom(s, t, i) == 1 + c;
        MulSucc(c, n);
      } else {
        CountFromBound(s, t, i + 1);
        assert CountFrom(s, t, i) == CountFrom(s, t, i + 1);
      }
    } else {
      assert CountFrom(s, t, i) == 0;
    }
  }
  /** Positions whose character cannot start t add nothing to the count. */
  lemma {:induction false} CountFromSkip(s: string, t: string, i: nat, j: nat)
    requires t != [] && i <= j <= |s|
    requires forall m :: i <= m < j ==> s[m] != t[0]
    ensures CountFrom(s, t, i) == CountFrom(s, t, j)
    decreases j - i
  {
    if i < j {
      if i + |t| <= |s| {
        assert s[i..i + |t|][0] == s[i];
      }
      CountFromSkip(s, t, i + 1, j);
    }
  }


  /** Lines none of which satisfies keep are all dropped. */
  lemma {:induction false} KeepNone(lines: seq<string>, keep: string -> bool)
    requires forall k :: 0 <= k < |lines| ==> !keep(lines[k])
    ensures Keep(lines, keep) == []
    decreases |lines|
  {
    if lines != [] {
      KeepNone(lines[1..], keep);
    }
  }

  /** When only the line at n satisfies keep, that line alone is kept. */
  lemma {:induction false} KeepOnly(lines: seq<string>, keep: string -> bool, n: nat)
    requires n < |lines| && keep(lines[n])
    requires forall k :: 0 <= k < |lines| && k != n ==> !keep(lines[k])
    ensures Keep(lines, keep) == [lines[n]]
    decreases |lines|
  {
    if n == 0 {
      KeepNone(lines[1..], keep);
    } else {
      KeepOnly(lines[1..], keep, n - 1);
    }
  }

  /** Fences at 0 and b with no backquote elsewhere: the three backquotes occur twice. */
  lemma TwoFences(s: string, b: nat)
    requires 3 <= b && b + 3 <= |s| && s[0..3] == "```" && s[b..b + 3] == "```"
    requires forall m :: 3 <= m < b ==> s[m] != '`'
    requires forall m :: b + 3 <= m < |s| ==> s[m] != '`'
    ensures CountFrom(s, "```", 0) == 2
  {
    CountFromSkip(s, "```", 3, b);
    CountFromSkip(s, "```", b + 3, |s|);
  }

  /** Where the backquotes of a fenced block followed by a newline and fence-free text are. */
  lemma FencePieces(body: string, rest: string)
    requires forall m :: 0 <= m < |body| ==> body[m] != '`'
    requires forall m :: 0 <= m < |rest| ==> rest[m] != '`'
    ensures var s := "```" + body + "```" + "\n" + rest;
            var b := 3 + |body|;
            b + 3 <= |s| && s[0..3] == "```" && s[b..b + 3] == "```"
            && (forall m :: 3 <= m < b ==> s[m] != '`')
            && (forall m :: b + 3 <= m < |s| ==> s[m] != '`')
  {
    var x := "```" + body + "```";
    var s := x + "\n" + rest;
    var b := 3 + |body|;
    forall m | 3 <= m < b
      ensures s[m] != '`'
    {
      assert s[m] == x[m] == body[m - 3];
    }
    forall m | b + 3 <= m < |s|
      ensures s[m] != '`'
    {
      if m == |x| {
        assert s[m] == '\n';
      } else {
        assert s[m] == rest[m - |x| - 1];
      }
    }
    assert s[0..3] == x[0..3];
    assert s[b..b + 3] == x[b..b + 3];
  }

  /** A fenced block, a newline, then fence-free text: the three backquotes occur twice. */
  lemma FenceCount(body: string, rest: string)
    requires forall m :: 0 <= m < |body| ==> body[m] != '`'
    requires forall m :: 0 <= m < |rest| ==> rest[m] != '`'
    ensures CountFrom("```" + body + "```" + "\n" + rest, "```", 0) == 2
  {
    FencePieces(body, rest);
    TwoFences("```" + body + "```" + "\n" + rest, 3 + |body|);
  }

  /** A line with no space at either end is a list item iff it starts with '-', '*' or '+'. */
  lemma ListItemLead(line: string)
    requires line != [] && !IsSpace(line[0]) && !IsSpace(line[|line| - 1])
    ensures IsListItem(line) <==> line[0] in "-*+"
  {
    StripUnspaced(line);
  }

  /** The sample Markdown text: a fenced block, a header, a table row and a list item. */
  const SampleLines: seq<string> := ["```c```", "# A", "|a|", "- b"]

  lemma SampleSplit()
    ensures SplitOn("```c```\n# A\n|a|\n- b", '\n') == SampleLines
  {
    assert "```c```\n# A\n|a|\n- b" == Join("\n", SampleLines);
    JoinSplitOn(SampleLines, '\n');
  }

  lemma SampleSections()
    ensures Keep(SampleLines, IsSection) == ["# A"]
  {
    KeepOnly(SampleLines, IsSection, 1);
  }

  lemma SampleTableRows()
    ensures Keep(SampleLines, IsTableRow) == ["|a|"]
  {
    assert CharCount("|a|", '|') == 2;
    KeepOnly(SampleLines, IsTableRow, 2);
  }

  lemma SampleListItems()
    ensures Keep(SampleLines, IsListItem) == ["- b"]
  {
    ListItemLead(SampleLines[0]);
    ListItemLead(SampleLines[1]);
    ListItemLead(SampleLines[2]);
    ListItemLead(SampleLines[3]);
    KeepOnly(SampleLines, IsListItem, 3);
  }

  lemma SampleFences()
    ensures CountFrom("```c```\n# A\n|a|\n- b", "```", 0) == 2
  {
    assert "```c```\n# A\n|a|\n- b" == "```" + "c" + "```" + "\n" + "# A\n|a|\n- b";
    FenceCount("c", "# A\n|a|\n- b");
  }

  /** The sample is counted as one code block, one header, one table row and one list item. */
  lemma ExtractionStatsExample()
    ensures var r := ExtractionStats("```c```\n# A\n|a|\n- b");
            r.Some? && r.value.totalLines == 4
            && r.value.sectionsFound == 1 && r.value.tableRows == 1 && r.value.tablesDetected
            && r.value.listItems == 1 && r.value.listsDetected && r.value.codeBlocks == 1
  {
    SampleSplit();
    SampleSections();
    SampleTableRows();
    SampleListItems();
    SampleFences();
  }
}
