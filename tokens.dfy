/**
 * The normalisation that decides what a word is: drop every character that is
 * neither a word character nor whitespace (`re.sub(r'[^\w\s]', '', text)`),
 * lower-case, and split on runs of whitespace (`str.split()`).
 */
module Tokens {
  import opened Chars

  predicate IsKept(c: char) {
    IsWordChar(c) || IsSpace(c)
  }

  /** `re.sub(r'[^\w\s]', '', s)`: the kept characters of `s`, in order. */
  function Clean(s: string): (r: string)
    ensures |r| <= |s|
    ensures forall i :: 0 <= i < |r| ==> IsKept(r[i])
  {
    if s == [] then [] else (if IsKept(s[0]) then [s[0]] else []) + Clean(s[1..])
  }

  /**
   * Cleaning removes exactly the characters that are neither word characters
   * nor whitespace, and leaves a text made only of such characters unchanged.
   */
  lemma {:induction false} CleanMembers(s: string)
    ensures forall c :: c in Clean(s) <==> c in s && IsKept(c)
    ensures (forall i :: 0 <= i < |s| ==> IsKept(s[i])) ==> Clean(s) == s
  {
    if s != [] {
      CleanMembers(s[1..]);
      assert s == [s[0]] + s[1..];
    }
  }

  /**
   * Cleaning works character by character: it distributes over
   * concatenation, and a single character is kept or dropped on its own.
   */
  lemma {:induction false} CleanAppend(a: string, b: string)
    ensures Clean(a + b) == Clean(a) + Clean(b)
    ensures |a| == 1 ==> Clean(a) == (if IsKept(a[0]) then a else [])
  {
    if a != [] {
      var head := if IsKept(a[0]) then [a[0]] else [];
      assert Clean(a + b) == head + Clean(a[1..] + b) by {
        assert (a + b)[0] == a[0];
        assert (a + b)[1..] == a[1..] + b;
      }
      CleanAppend(a[1..], b);
      assert head + (Clean(a[1..]) + Clean(b)) == (head + Clean(a[1..])) + Clean(b);
    } else {
      assert a + b == b;
    }
  }

  /** `str.lower()` on ASCII: each character through `ToLower`. */
  function Lower(s: string): (r: string)
    ensures |r| == |s|
    ensures forall i :: 0 <= i < |s| ==> r[i] == ToLower(s[i])
  {
    if s == [] then [] else [ToLower(s[0])] + Lower(s[1..])
  }

  /** Length of the leading run of non-whitespace characters of `s`. */
  function WordRun(s: string): (n: nat)
    ensures n <= |s|
    ensures forall i :: 0 <= i < n ==> !IsSpace(s[i])
    ensures n < |s| ==> IsSpace(s[n])
  {
    if s == [] || IsSpace(s[0]) then 0 else 1 + WordRun(s[1..])
  }

  predicate AllSpace(s: string) {
    forall i :: 0 <= i < |s| ==> IsSpace(s[i])
  }

  /** Sum of the lengths of `ws`. */
  function TotalLength(ws: seq<string>): nat {
    if ws == [] then 0 else |ws[0]| + TotalLength(ws[1..])
  }

  /**
   * `str.split()` without arguments: the maximal runs of non-whitespace, in
   * order. Every token is non-empty, holds no whitespace and is made of
   * characters of `s`; there is none exactly when `s` is all whitespace; and
   * the tokens together are no longer than `s`.
   */
  function SplitWords(s: string): (r: seq<string>)
    ensures forall k :: 0 <= k < |r| ==> r[k] != []
    ensures forall k, i :: 0 <= k < |r| && 0 <= i < |r[k]| ==> !IsSpace(r[k][i]) && r[k][i] in s
    ensures r == [] <==> AllSpace(s)
    ensures TotalLength(r) <= |s|
    decreases |s|
  {
    if s == [] then []
    else if IsSpace(s[0]) then
      assert forall i :: 0 <= i < |s[1..]| ==> s[1..][i] == s[i + 1];
      SplitWords(s[1..])
    else
      var n := WordRun(s);
      var rest := SplitWords(s[n..]);
      assert forall k :: 1 <= k < |[s[..n]] + rest| ==> ([s[..n]] + rest)[k] == rest[k - 1];
      assert ([s[..n]] + rest)[1..] == rest;
      [s[..n]] + rest
  }

  /** The text with its whitespace removed, in order. */
  function NonSpace(s: string): string {
    if s == [] then [] else (if IsSpace(s[0]) then [] else [s[0]]) + NonSpace(s[1..])
  }

  /** The words of `ws` written one after another. */
  function Concat(ws: seq<string>): string {
    if ws == [] then [] else ws[0] + Concat(ws[1..])
  }

  /** Position `i` of `s` starts a run of non-whitespace. */
  predicate IsRunStart(s: string, i: nat)
    requires i < |s|
  {
    !IsSpace(s[i]) && (i == 0 || IsSpace(s[i - 1]))
  }

  /** The number of positions from `lo` on that start a run of non-whitespace. */
  function RunStartsFrom(s: string, lo: nat): nat
    requires lo <= |s|
    decreases |s| - lo
  {
    if lo == |s| then 0 else (if IsRunStart(s, lo) then 1 else 0) + RunStartsFrom(s, lo + 1)
  }

  /** The number of maximal runs of non-whitespace in `s`. */
  function RunStarts(s: string): nat {
    RunStartsFrom(s, 0)
  }

  lemma {:induction false} NonSpaceAppend(a: string, b: string)
    ensures NonSpace(a + b) == NonSpace(a) + NonSpace(b)
  {
    if a != [] {
      NonSpaceAppend(a[1..], b);
      assert (a + b)[1..] == a[1..] + b;
    } else {
      assert a + b == b;
    }
  }

  lemma {:induction false} NonSpaceOfRun(a: string)
    requires forall i :: 0 <= i < |a| ==> !IsSpace(a[i])
    ensures NonSpace(a) == a
  {
    if a != [] {
      NonSpaceOfRun(a[1..]);
      assert a == [a[0]] + a[1..];
    }
  }

  /**
   * The run starts of `t` when the character before it was whitespace
   * (`afterSpace`) or not: `RunStartsFrom` counted along the text instead of
   * by position.
   */
  function RunsAfter(t: string, afterSpace: bool): nat {
    if t == [] then 0
    else (if afterSpace && !IsSpace(t[0]) then 1 else 0) + RunsAfter(t[1..], IsSpace(t[0]))
  }

  lemma {:induction false} RunStartsFromSuffix(s: string, lo: nat)
    requires lo <= |s|
    ensures RunStartsFrom(s, lo) == RunsAfter(s[lo..], lo == 0 || IsSpace(s[lo - 1]))
    decreases |s| - lo
  {
    if lo < |s| {
      RunStartsFromSuffix(s, lo + 1);
      assert s[lo..][0] == s[lo];
      assert s[lo..][1..] == s[lo + 1..];
    } else {
      assert s[lo..] == [];
    }
  }

  /** Reading a whole run `t[..m]` from its start adds no run start. */
  lemma {:induction false} RunsAfterRun(t: string, m: nat)
    requires 0 < m <= |t|
    requires forall i :: 0 <= i < m ==> !IsSpace(t[i])
    requires m < |t| ==> IsSpace(t[m])
    ensures RunsAfter(t, false) == RunsAfter(t[m..], true)
    decreases m
  {
    var u := t[1..];
    if m == 1 {
      assert u == t[m..];
      if u != [] {
        assert u[0] == t[1];
      }
    } else {
      assert forall i :: 0 <= i < m - 1 ==> u[i] == t[i + 1];
      if m - 1 < |u| {
        assert u[m - 1] == t[m];
      }
      RunsAfterRun(u, m - 1);
      assert u[m - 1..] == t[m..];
    }
  }

  /** `str.split()` gives one word per run start. */
  lemma {:induction false} SplitWordsCount(s: string)
    ensures |SplitWords(s)| == RunsAfter(s, true)
    decreases |s|
  {
    if s != [] {
      if IsSpace(s[0]) {
        SplitWordsCount(s[1..]);
      } else {
        var n := WordRun(s);
        SplitWordsCount(s[n..]);
        RunsAfterRun(s, n);
      }
    }
  }

  /**
   * `str.split()` keeps every non-whitespace character, in order, and gives
   * exactly one token per maximal run of non-whitespace.
   */
  lemma {:induction false} SplitWordsAreRuns(s: string)
    ensures Concat(SplitWords(s)) == NonSpace(s)
    ensures |SplitWords(s)| == RunStarts(s)
    decreases |s|
  {
    assert s[0..] == s;
    RunStartsFromSuffix(s, 0);
    SplitWordsCount(s);
    if s != [] {
      if IsSpace(s[0]) {
        SplitWordsAreRuns(s[1..]);
      } else {
        var n := WordRun(s);
        var rest := SplitWords(s[n..]);
        SplitWordsAreRuns(s[n..]);
        assert ([s[..n]] + rest)[0] == s[..n] && ([s[..n]] + rest)[1..] == rest;
        assert s == s[..n] + s[n..];
        NonSpaceAppend(s[..n], s[n..]);
        NonSpaceOfRun(s[..n]);
      }
    }
  }

  /** A run of non-whitespace that ends at whitespace or at the end is read whole. */
  lemma {:induction false} WordRunOfRun(w: string, rest: string)
    requires forall i :: 0 <= i < |w| ==> !IsSpace(w[i])
    requires rest == [] || IsSpace(rest[0])
    ensures WordRun(w + rest) == |w|
  {
    if w == [] {
      assert w + rest == rest;
    } else {
      assert (w + rest)[0] == w[0];
      assert (w + rest)[1..] == w[1..] + rest;
      WordRunOfRun(w[1..], rest);
    }
  }

  /**
   * `str.split()` by its two defining cases, which fix the boundary of every
   * token: whitespace alone gives no token, and whitespace `sp`, then a
   * maximal run `w`, then `rest` (empty or starting with whitespace) give the
   * token `w` followed by the tokens of `rest`.
   */
  lemma {:induction false} SplitWordsCases(sp: string, w: string, rest: string)
    requires AllSpace(sp)
    requires w != [] && forall i :: 0 <= i < |w| ==> !IsSpace(w[i])
    requires rest == [] || IsSpace(rest[0])
    ensures SplitWords(sp) == []
    ensures SplitWords(sp + w + rest) == [w] + SplitWords(rest)
    decreases |sp|
  {
    var s := sp + w + rest;
    if sp == [] {
      assert s == w + rest;
      assert s[0] == w[0];
      WordRunOfRun(w, rest);
      assert s[..|w|] == w;
      assert s[|w|..] == rest;
    } else {
      assert s[0] == sp[0];
      assert s[1..] == sp[1..] + w + rest;
      assert AllSpace(sp[1..]) by {
        forall i | 0 <= i < |sp[1..]| ensures IsSpace(sp[1..][i]) {
          assert sp[1..][i] == sp[i + 1];
        }
      }
      SplitWordsCases(sp[1..], w, rest);
    }
  }

  /** The distinct elements of `ws` (Python's `set(ws)`). */
  function Elements(ws: seq<string>): set<string> {
    set w | w in ws
  }

  /** A list has at most as many distinct elements as entries. */
  lemma {:induction false} ElementsBound(ws: seq<string>)
    ensures |Elements(ws)| <= |ws|
    ensures ws != [] ==> |Elements(ws)| >= 1
  {
    if ws != [] {
      ElementsBound(ws[1..]);
      assert Elements(ws) == {ws[0]} + Elements(ws[1..]);
    }
  }

  /** The word list of `TextAnalyzer`: clean first, then lower-case. */
  function AnalyzerTokens(content: string): seq<string> {
    SplitWords(Lower(Clean(content)))
  }

  /** The word list of `WordFrequency._process_text`: lower-case first, then clean. */
  function FrequencyTokens(content: string): seq<string> {
    SplitWords(Clean(Lower(content)))
  }

  /** Cleaning and lower-casing commute, since lower-casing keeps each character's class. */
  lemma {:induction false} CleanLowerCommute(s: string)
    ensures Clean(Lower(s)) == Lower(Clean(s))
  {
    if s != [] {
      CleanLowerCommute(s[1..]);
      assert Lower(s)[1..] == Lower(s[1..]);
    }
  }

  /** Both components of the analyzer see the same words. */
  lemma SameTokens(content: string)
    ensures AnalyzerTokens(content) == FrequencyTokens(content)
  {
    CleanLowerCommute(content);
  }

  /** A normalised token: non-empty, word characters only, no upper case. */
  predicate IsToken(t: string) {
    t != [] && forall i :: 0 <= i < |t| ==> IsWordChar(t[i]) && !IsUpper(t[i])
  }

  /**
   * Every normalised token is non-empty, lower-case and made of word characters
   * only (so holds no whitespace): punctuation never survives into a token.
   */
  lemma {:induction false} AnalyzerTokensShape(content: string)
    ensures forall k :: 0 <= k < |AnalyzerTokens(content)| ==> IsToken(AnalyzerTokens(content)[k])
  {
    var cleaned := Clean(content);
    var s := Lower(cleaned);
    var r := SplitWords(s);
    forall k, i | 0 <= k < |r| && 0 <= i < |r[k]|
      ensures IsWordChar(r[k][i]) && !IsUpper(r[k][i])
    {
      var c := r[k][i];
      var j :| 0 <= j < |s| && s[j] == c;
      assert s[j] == ToLower(cleaned[j]) && IsKept(cleaned[j]);
    }
  }

  /** There are no tokens exactly when the text holds no word character. */
  lemma {:induction false} NoTokensIffNoWordChar(content: string)
    ensures AnalyzerTokens(content) == [] <==> forall i :: 0 <= i < |content| ==> !IsWordChar(content[i])
  {
    var cleaned := Clean(content);
    var s := Lower(cleaned);
    CleanMembers(content);
    if i :| 0 <= i < |content| && IsWordChar(content[i]) {
      var c := content[i];
      assert c in cleaned;
      var j :| 0 <= j < |cleaned| && cleaned[j] == c;
      assert !IsSpace(s[j]);
    } else {
      forall j | 0 <= j < |s| ensures IsSpace(s[j]) {
        var c := cleaned[j];
        assert c in cleaned;
      }
    }
  }
}
