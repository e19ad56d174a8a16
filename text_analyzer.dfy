/**
 * `TextAnalyzer`: scalar metrics of one text. The object only stores the text
 * (and its cleaned form), so each metric is a function of the text.
 */
module Analysis {
  import opened Optional
  import opened Chars
  import opened Lines
  import opened Tokens

  /**
   * A number as the source returns it: the integer literal `0` of a zero
   * guard, or the true quotient `num / den` (den > 0) before it is rounded.
   */
  datatype Number = Whole(n: nat) | Quotient(num: nat, den: nat)

  /** Non-empty words are together at least as long as there are words. */
  lemma {:induction false} TotalLengthAtLeastCount(ws: seq<string>)
    requires forall k :: 0 <= k < |ws| ==> ws[k] != []
    ensures TotalLength(ws) >= |ws|
  {
    if ws != [] {
      TotalLengthAtLeastCount(ws[1..]);
    }
  }

  datatype TextAnalyzer = TextAnalyzer(content: string) {

    /**
     * The stored cleaned text: punctuation removed, then lower-cased. It is
     * no longer than the text, holds only word characters and whitespace and
     * no upper-case letter, and equals the lower-case-first order of cleaning
     * that `WordFrequency` uses.
     */
    function CleanText(): (r: string)
      ensures |r| <= |content|
      ensures forall i :: 0 <= i < |r| ==> IsKept(r[i]) && !IsUpper(r[i])
      ensures r == Clean(Lower(content))
    {
      CleanLowerCommute(content);
      Lower(Clean(content))
    }

    /** `count_lines`: 0 for empty text, else the number of `splitlines` lines. */
    function CountLines(): (n: nat)
      ensures n == LineBreaks(content) + (if HasOpenLastLine(content) then 1 else 0)
      ensures n == 0 <==> content == []
    {
      SplitLinesCount(content);
      if content == [] then 0 else |SplitLines(content)|
    }

    /**
     * `count_words`: the number of normalised tokens, which is the number of
     * maximal runs of non-whitespace in the cleaned text.
     */
    function CountWords(): (n: nat)
      ensures n == |AnalyzerTokens(content)|
      ensures n == RunStarts(CleanText())
      ensures n == 0 <==> forall i :: 0 <= i < |content| ==> !IsWordChar(content[i])
      ensures n <= CountCharacters()
    {
      NoTokensIffNoWordChar(content);
      TotalLengthAtLeastCount(AnalyzerTokens(content));
      SplitWordsAreRuns(CleanText());
      if CleanText() == [] then 0 else |AnalyzerTokens(content)|
    }

    /** `count_characters`: the raw length, punctuation, whitespace and case included. */
    function CountCharacters(): (n: nat)
      ensures TotalLength(AnalyzerTokens(content)) <= n
    {
      |content|
    }

    /** `count_unique_words`: the number of distinct tokens. */
    function CountUniqueWords(): (n: nat)
      ensures n == |Elements(AnalyzerTokens(content))|
      ensures n <= CountWords()
      ensures n == 0 <==> CountWords() == 0
    {
      ElementsBound(AnalyzerTokens(content));
      if CleanText() == [] then 0 else |Elements(AnalyzerTokens(content))|
    }

    /**
     * `avg_word_length` before rounding: 0 without tokens, otherwise the total
     * token length over the token count; that mean is at least 1 (tokens are
     * non-empty) and the total is at most the raw character count.
     */
    function AvgWordLength(): (r: Number)
      ensures AnalyzerTokens(content) == [] ==> r == Whole(0)
      ensures AnalyzerTokens(content) != [] ==>
        && r == Quotient(TotalLength(AnalyzerTokens(content)), CountWords())
        && r.num >= r.den > 0
        && r.num <= CountCharacters()
    {
      var words := AnalyzerTokens(content);
      TotalLengthAtLeastCount(words);
      if words == [] then Whole(0) else Quotient(TotalLength(words), |words|)
    }
  }

  /** `TextAnalyzer(content)`: a missing text is analysed as the empty text. */
  function Analyze(content: Option<string>): (a: TextAnalyzer)
    ensures content == None ==> a.content == []
    ensures content.Some? ==> a.content == content.value
  {
    TextAnalyzer(content.GetOr(""))
  }

  /** A missing or empty text gives zero for every metric. */
  lemma NoContentGivesZeros(content: Option<string>)
    requires content == None || content == Some("")
    ensures Analyze(content).CountLines() == 0
    ensures Analyze(content).CountWords() == 0
    ensures Analyze(content).CountCharacters() == 0
    ensures Analyze(content).CountUniqueWords() == 0
    ensures Analyze(content).AvgWordLength() == Whole(0)
  {
  }
}
