/**
 * `WordFrequency`: holds the token list of one text and a frequency table
 * `df` that is `None` until first built and then kept for later queries.
 */
module WordFreq {
  import opened Optional
  import opened Tokens
  import opened Frequency

  class WordFrequency {
    const content: string
    const words: seq<string>
    var df: Option<Table>

    /** The token list is the normalised text, and a table once built is the table of those tokens. */
    ghost predicate Valid()
      reads this
    {
      && words == FrequencyTokens(content)
      && (df.Some? ==> df.value == FrequencyTable(words))
    }

    /** `WordFrequency(content)`: a missing text is the empty text; no table yet. */
    constructor (text: Option<string>)
      ensures Valid()
      ensures content == text.GetOr("")
      ensures df == None
    {
      content := text.GetOr("");
      words := ProcessText(text.GetOr(""));
      df := None;
    }

    /** `_process_text`: lower-case, drop punctuation, split on whitespace. */
    static function ProcessText(text: string): (ws: seq<string>)
      ensures ws == AnalyzerTokens(text)
      ensures forall k :: 0 <= k < |ws| ==> IsToken(ws[k])
    {
      SameTokens(text);
      AnalyzerTokensShape(text);
      FrequencyTokens(text)
    }

    /** `get_frequency_dist`: (re)builds the table, stores it in `df` and returns it. */
    method GetFrequencyDist() returns (t: Table)
      requires Valid()
      modifies this
      ensures Valid()
      ensures t == FrequencyTable(words)
      ensures df == Some(t)
    {
      if words == [] {
        t := [];
        assert FrequencyTable(words) == [];
      } else {
        var rows := CountOccurrences(words);
        t := SortByCount(rows);
      }
      df := Some(t);
    }

    /** `get_top_10`: builds the table only when `df` is `None`, then returns its first ten rows. */
    method GetTop10() returns (t: Table)
      requires Valid()
      modifies this
      ensures Valid()
      ensures df == Some(FrequencyTable(words))
      ensures old(df).Some? ==> df == old(df)
      ensures t == Head(FrequencyTable(words), 10)
    {
      if df.None? {
        var _ := GetFrequencyDist();
      }
      t := Head(df.value, 10);
    }

    /**
     * `filter_words`: builds the table only when `df` is `None`; an empty
     * table is returned as it is, without applying `keep`; otherwise the rows
     * whose word satisfies `keep`.
     */
    method FilterWords(keep: string -> bool) returns (t: Table)
      requires Valid()
      modifies this
      ensures Valid()
      ensures df == Some(FrequencyTable(words))
      ensures old(df).Some? ==> df == old(df)
      ensures t == FilterRows(keep, FrequencyTable(words))
      ensures words == [] ==> t == []
    {
      if df.None? {
        var _ := GetFrequencyDist();
      }
      if df.value == [] {
        t := df.value;
      } else {
        t := FilterRows(keep, df.value);
      }
      FrequencyTableRows(words);
    }
  }
}
