/**
 * `Report`: composes the text report from the analyzer's metrics and the
 * ranked top ten, and decides whether there is anything to chart. Writing
 * files and drawing are not modelled; the report is returned as a string.
 */
module Reporting {
  import opened Optional
  import opened Chars
  import opened Lines
  import opened Tokens
  import opened Analysis
  import opened Frequency
  import opened WordFreq
  import opened Decimal

  /** `os.path.basename` on a POSIX path: what follows the last '/'. */
  function Basename(path: string): (name: string)
    ensures '/' !in name
    ensures |name| <= |path| && name == path[|path| - |name|..]
    ensures |name| < |path| ==> path[|path| - |name| - 1] == '/'
  {
    if path == [] || path[|path| - 1] == '/' then []
    else
      var init := path[..|path| - 1];
      var name := Basename(init);
      assert init[|init| - |name|..] + [path[|path| - 1]] == path[|path| - |name| - 1..];
      name + [path[|path| - 1]]
  }

  /**
   * A per-line ratio as `generate_text_report` computes it, before rounding:
   * the integer 0 when there are no lines, otherwise `amount / lines`.
   */
  function PerLine(amount: nat, lines: nat): Number {
    if lines > 0 then Quotient(amount, lines) else Whole(0)
  }

  /**
   * A number as the report prints it: an integer in decimal; a quotient
   * through `formatQuotient`, which stands for `str(round(num / den, 1))`.
   */
  function Render(x: Number, formatQuotient: (nat, nat) -> string): string {
    match x
    case Whole(n) => NatToString(n)
    case Quotient(num, den) => formatQuotient(num, den)
  }

  /** The analyzer's metrics, as the report reads them. */
  datatype Statistics = Statistics(lines: nat, words: nat, chars: nat, unique: nat, avgLength: Number)

  function StatisticsOf(a: TextAnalyzer): Statistics {
    Statistics(a.CountLines(), a.CountWords(), a.CountCharacters(), a.CountUniqueWords(), a.AvgWordLength())
  }

  /** The lines of the report before the ranked words. */
  function HeaderLines(name: string, s: Statistics, formatQuotient: (nat, nat) -> string): seq<string> {
    [ "TEXT FILE ANALYZER",
      "File: " + name,
      "",
      "STATISTICS:",
      "Total Lines: " + NatToString(s.lines),
      "Total Words: " + NatToString(s.words),
      "Total Characters: " + NatToString(s.chars),
      "Unique Words: " + NatToString(s.unique),
      "Average Word Length: " + Render(s.avgLength, formatQuotient) + " characters",
      "",
      "ANALYSIS:",
      "Lines per page: " + NatToString(s.lines) + " (Assumed 1 page for single file context, or N/A)",
      "Words per line: " + Render(PerLine(s.words, s.lines), formatQuotient),
      "Characters per line: " + Render(PerLine(s.chars, s.lines), formatQuotient),
      "",
      "TOP 10 MOST COMMON WORDS:" ]
  }

  /** One ranked line, without its terminator: `<rank>. <word> - <count> occurrences`. */
  function RankText(rank: nat, row: Row): string {
    NatToString(rank) + ". " + row.word + " - " + NatToString(row.count) + " occurrences"
  }

  /** The ranked lines of `rows`, ranks counting up from 1. */
  function RankTexts(rows: Table): (ls: seq<string>)
    ensures |ls| == |rows|
  {
    seq(|rows|, k requires 0 <= k < |rows| => RankText(k + 1, rows[k]))
  }

  /** The whole report text. */
  function ReportText(name: string, s: Statistics, formatQuotient: (nat, nat) -> string, top: Table): string {
    JoinLines(HeaderLines(name, s, formatQuotient) + RankTexts(top))
  }

  /**
   * Each ratio is the integer 0 exactly when the text is empty (no lines),
   * and otherwise the amount over the line count; words per line never
   * exceed characters per line.
   */
  lemma RatiosOfAnalyzer(a: TextAnalyzer)
    ensures var s := StatisticsOf(a);
      && (PerLine(s.words, s.lines) == Whole(0) <==> a.content == [])
      && (PerLine(s.chars, s.lines) == Whole(0) <==> a.content == [])
      && (a.content != [] ==>
            && PerLine(s.words, s.lines) == Quotient(s.words, s.lines)
            && PerLine(s.chars, s.lines) == Quotient(s.chars, s.lines)
            && s.words <= s.chars)
  {
  }

  lemma JoinNoBreak(a: string, b: string)
    requires NoLineBreak(a) && NoLineBreak(b)
    ensures NoLineBreak(a + b)
  {
    forall i | 0 <= i < |a + b| ensures !IsLineBreak((a + b)[i]) {
      if i >= |a| {
        assert (a + b)[i] == b[i - |a|];
      }
    }
  }

  lemma NumberHasNoBreak(n: nat)
    ensures NoLineBreak(NatToString(n))
  {
    var r := NatToString(n);
    assert forall i :: 0 <= i < |r| ==> IsDigit(r[i]);
  }

  /** A ranked line holds no line boundary when its word holds none. */
  lemma RankTextHasNoBreak(rank: nat, row: Row)
    requires NoLineBreak(row.word)
    ensures NoLineBreak(RankText(rank, row))
  {
    var r := NatToString(rank);
    var c := NatToString(row.count);
    NumberHasNoBreak(rank);
    NumberHasNoBreak(row.count);
    assert NoLineBreak(". ") by { assert ". "[0] == '.' && ". "[1] == ' '; }
    assert NoLineBreak(" - ") by { assert " - "[0] == ' ' && " - "[1] == '-' && " - "[2] == ' '; }
    assert NoLineBreak(" occurrences") by {
      forall i | 0 <= i < |" occurrences"| ensures ' ' <= " occurrences"[i] <= 'z' {
      }
    }
    JoinNoBreak(r, ". ");
    JoinNoBreak(r + ". ", row.word);
    JoinNoBreak(r + ". " + row.word, " - ");
    JoinNoBreak(r + ". " + row.word + " - ", c);
    JoinNoBreak(r + ". " + row.word + " - " + c, " occurrences");
  }

  lemma RankTextsSnoc(rows: Table, i: nat)
    requires i < |rows|
    ensures RankTexts(rows[..i + 1]) == RankTexts(rows[..i]) + [RankText(i + 1, rows[i])]
  {
  }

  /**
   * Read back line by line, the report is the header's lines followed by one
   * line per top row, in table order, ranks counting up from 1 in steps of one.
   */
  lemma {:induction false} ReportLines(name: string, s: Statistics, formatQuotient: (nat, nat) -> string, top: Table)
    requires forall k :: 0 <= k < |top| ==> NoLineBreak(top[k].word)
    ensures var header := HeaderLines(name, s, formatQuotient);
      && ReportText(name, s, formatQuotient, top) == JoinLines(header) + JoinLines(RankTexts(top))
      && SplitLines(ReportText(name, s, formatQuotient, top)) == SplitLines(JoinLines(header)) + RankTexts(top)
  {
    var header := HeaderLines(name, s, formatQuotient);
    JoinLinesAppend(header, RankTexts(top));
    forall k | 0 <= k < |top| ensures NoLineBreak(RankTexts(top)[k]) {
      RankTextHasNoBreak(k + 1, top[k]);
    }
    SplitJoinLines(RankTexts(top));
    var h := JoinLines(header);
    JoinLinesEndsWithNewline(header);
    SplitLinesAppend(h, JoinLines(RankTexts(top)));
  }

  /** Table words are tokens, so a top-ten line never breaks inside a word. */
  lemma TableWordsHaveNoBreak(content: string)
    ensures var t := FrequencyTable(FrequencyTokens(content));
      forall k :: 0 <= k < |t| ==> IsToken(t[k].word) && NoLineBreak(t[k].word)
  {
    var ws := FrequencyTokens(content);
    var t := FrequencyTable(ws);
    SameTokens(content);
    AnalyzerTokensShape(content);
    FrequencyTableRows(ws);
    forall k | 0 <= k < |t| ensures IsToken(t[k].word) {
      var w := t[k].word;
      assert w in ws;
    }
  }

  /**
   * The report built from a text's top ten reads back as the header's lines
   * followed by exactly one ranked line per top row, in table order.
   */
  lemma GeneratedReportLines(name: string, s: Statistics, formatQuotient: (nat, nat) -> string, content: string)
    ensures var top := Head(FrequencyTable(FrequencyTokens(content)), 10);
      SplitLines(ReportText(name, s, formatQuotient, top)) ==
        SplitLines(JoinLines(HeaderLines(name, s, formatQuotient))) + RankTexts(top)
  {
    var t := FrequencyTable(FrequencyTokens(content));
    var top := Head(t, 10);
    TableWordsHaveNoBreak(content);
    assert forall k :: 0 <= k < |top| ==> top[k] == t[k];
    ReportLines(name, s, formatQuotient, top);
  }

  /**
   * The loop of `generate_text_report`: appends one line
   * `<rank>. <word> - <count> occurrences` per row, the rank starting at 1
   * and going up by one per line.
   */
  method AppendRankedLines(report: string, top: Table) returns (text: string)
    ensures text == report + JoinLines(RankTexts(top))
  {
    text := report;
    var rank := 1;
    for i := 0 to |top|
      invariant rank == i + 1
      invariant text == report + JoinLines(RankTexts(top[..i]))
    {
      RankTextsSnoc(top, i);
      JoinLinesAppend(RankTexts(top[..i]), [RankText(rank, top[i])]);
      text := text + (RankText(rank, top[i]) + "\n");
      rank := rank + 1;
    }
    assert top[..|top|] == top;
  }

  class Report {
    const filename: string
    const analyzer: TextAnalyzer
    const wordFreq: WordFrequency

    constructor (filename: string, analyzer: TextAnalyzer, wordFreq: WordFrequency)
      ensures this.filename == filename && this.analyzer == analyzer && this.wordFreq == wordFreq
    {
      this.filename := filename;
      this.analyzer := analyzer;
      this.wordFreq := wordFreq;
    }

    /**
     * `generate_text_report` up to the file write: fetches the top ten (which
     * builds the table if needed), then the header with the metrics and the
     * two ratios, then one ranked line per top row.
     */
    method GenerateTextReport(formatQuotient: (nat, nat) -> string) returns (text: string)
      requires wordFreq.Valid()
      modifies wordFreq
      ensures wordFreq.Valid()
      ensures wordFreq.df == Some(FrequencyTable(wordFreq.words))
      ensures text == ReportText(Basename(filename), StatisticsOf(analyzer), formatQuotient,
                                 Head(FrequencyTable(wordFreq.words), 10))
      ensures SplitLines(text) ==
        SplitLines(JoinLines(HeaderLines(Basename(filename), StatisticsOf(analyzer), formatQuotient)))
        + RankTexts(Head(FrequencyTable(wordFreq.words), 10))
    {
      var top := wordFreq.GetTop10();
      var stats := StatisticsOf(analyzer);
      var header := HeaderLines(Basename(filename), stats, formatQuotient);
      text := AppendRankedLines(JoinLines(header), top);
      JoinLinesAppend(header, RankTexts(top));
      GeneratedReportLines(Basename(filename), stats, formatQuotient, wordFreq.content);
    }

    /**
     * `generate_chart` up to the drawing: nothing to plot (`None`) exactly when
     * the top ten is empty, otherwise the bars to draw, one per top row.
     */
    method GenerateChart() returns (bars: Option<Table>)
      requires wordFreq.Valid()
      modifies wordFreq
      ensures wordFreq.Valid()
      ensures wordFreq.df == Some(FrequencyTable(wordFreq.words))
      ensures bars == None <==> wordFreq.words == []
      ensures bars.Some? ==> bars.value == Head(FrequencyTable(wordFreq.words), 10)
    {
      var top := wordFreq.GetTop10();
      FrequencyTableRows(wordFreq.words);
      if top == [] {
        bars := None;
      } else {
        bars := Some(top);
      }
    }
  }
}
