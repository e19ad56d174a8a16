/**
 * The word-frequency table: one row per distinct token with its number of
 * occurrences (`Counter(words).items()`, rows in first-occurrence order),
 * ranked by count, highest first. The ranking is a stable sort, so rows with
 * equal counts keep first-occurrence order.
 */
module Frequency {
  import opened Tokens

  datatype Row = Row(word: string, count: nat)

  type Table = seq<Row>

  function Occurrences(ws: seq<string>, w: string): nat {
    multiset(ws)[w]
  }

  predicate Distinct(d: seq<string>) {
    forall i, j :: 0 <= i < j < |d| ==> d[i] != d[j]
  }

  /** Index of the first occurrence of `w` in `ws`, or `|ws|` when it does not occur. */
  function FirstIndex(ws: seq<string>, w: string): (k: nat)
    ensures k <= |ws|
    ensures k < |ws| <==> w in ws
    ensures k < |ws| ==> ws[k] == w
  {
    if ws == [] then 0 else if ws[0] == w then 0 else 1 + FirstIndex(ws[1..], w)
  }

  /** Appending to a list does not move the first occurrence of a word already in it. */
  lemma {:induction false} FirstIndexAppend(ws: seq<string>, x: string, w: string)
    requires w in ws
    ensures FirstIndex(ws + [x], w) == FirstIndex(ws, w)
  {
    if ws[0] != w {
      assert (ws + [x])[1..] == ws[1..] + [x];
      FirstIndexAppend(ws[1..], x, w);
    }
  }

  /** The distinct words of `ws`, each once, in order of first occurrence. */
  function FirstOccurrences(ws: seq<string>): (d: seq<string>)
    ensures Distinct(d)
    ensures forall w :: w in d <==> w in ws
    decreases |ws|
  {
    if ws == [] then []
    else
      var init := ws[..|ws| - 1];
      var last := ws[|ws| - 1];
      assert ws == init + [last];
      var d := FirstOccurrences(init);
      if last in init then d else d + [last]
  }

  /** The distinct words appear in the order of their first occurrence. */
  lemma {:induction false} FirstOccurrencesOrder(ws: seq<string>)
    ensures forall i, j :: 0 <= i < j < |FirstOccurrences(ws)| ==>
      FirstIndex(ws, FirstOccurrences(ws)[i]) < FirstIndex(ws, FirstOccurrences(ws)[j])
    decreases |ws|
  {
    if ws != [] {
      var init := ws[..|ws| - 1];
      var last := ws[|ws| - 1];
      assert ws == init + [last];
      FirstOccurrencesOrder(init);
      var d := FirstOccurrences(init);
      forall w | w in d ensures FirstIndex(ws, w) == FirstIndex(init, w) {
        FirstIndexAppend(init, last, w);
      }
      if last !in init {
        assert FirstIndex(ws, last) == |init|;
      }
    }
  }

  /** A list without repetitions has as many distinct elements as entries. */
  lemma {:induction false} DistinctCardinality(d: seq<string>)
    requires Distinct(d)
    ensures |Elements(d)| == |d|
  {
    if d != [] {
      DistinctCardinality(d[1..]);
      assert Elements(d) == {d[0]} + Elements(d[1..]);
      assert d[0] !in Elements(d[1..]);
    }
  }

  /** One row per word of `d`, counting its occurrences in `ws`. */
  function CountRows(ws: seq<string>, d: seq<string>): (t: Table)
    ensures |t| == |d|
    ensures forall i :: 0 <= i < |d| ==> t[i] == Row(d[i], Occurrences(ws, d[i]))
  {
    if d == [] then [] else [Row(d[0], Occurrences(ws, d[0]))] + CountRows(ws, d[1..])
  }

  /** `Counter(ws).items()`: the distinct words with their counts, in first-occurrence order. */
  function Counted(ws: seq<string>): Table {
    CountRows(ws, FirstOccurrences(ws))
  }

  function TotalCount(t: Table): nat {
    if t == [] then 0 else t[0].count + TotalCount(t[1..])
  }

  predicate DistinctWords(t: Table) {
    forall i, j :: 0 <= i < j < |t| ==> t[i].word != t[j].word
  }

  predicate SortedByCount(t: Table) {
    forall i, j :: 0 <= i < j < |t| ==> t[i].count >= t[j].count
  }

  /** Rows with equal counts are in the order in which their words first occur in `ws`. */
  predicate TiesByFirstOccurrence(ws: seq<string>, t: Table) {
    forall i, j :: 0 <= i < j < |t| && t[i].count == t[j].count ==>
      FirstIndex(ws, t[i].word) < FirstIndex(ws, t[j].word)
  }

  /**
   * Inserts `r` before the first row whose count is at most `r.count`, so
   * ahead of the rows it ties with.
   */
  function Insert(r: Row, t: Table): (u: Table)
    ensures multiset(u) == multiset(t) + multiset{r}
    ensures |u| == |t| + 1
  {
    if t == [] then [r]
    else if r.count >= t[0].count then [r] + t
    else
      assert t == [t[0]] + t[1..];
      [t[0]] + Insert(r, t[1..])
  }

  /** `sort_values(by='Frequency', ascending=False)`, as a stable insertion sort. */
  function SortByCount(t: Table): (u: Table)
    ensures multiset(u) == multiset(t)
    ensures |u| == |t|
  {
    if t == [] then []
    else
      assert t == [t[0]] + t[1..];
      Insert(t[0], SortByCount(t[1..]))
  }

  /** `get_frequency_dist`: the counted rows, ranked by count. */
  function FrequencyTable(ws: seq<string>): Table {
    SortByCount(Counted(ws))
  }

  /** A row with at least the count of every row of a ranked table can lead it. */
  lemma SortedCons(h: Row, t: Table)
    requires SortedByCount(t)
    requires forall x :: x in t ==> x.count <= h.count
    ensures SortedByCount([h] + t)
  {
    var r := [h] + t;
    forall i, j | 0 <= i < j < |r| ensures r[i].count >= r[j].count {
      assert r[j] == t[j - 1];
      if i > 0 {
        assert r[i] == t[i - 1];
      }
    }
  }

  lemma {:induction false} InsertSorted(r: Row, t: Table)
    requires SortedByCount(t)
    ensures SortedByCount(Insert(r, t))
  {
    if t == [] {
    } else if r.count >= t[0].count {
      forall x | x in t ensures x.count <= r.count {
        var k :| 0 <= k < |t| && t[k] == x;
      }
      SortedCons(r, t);
    } else {
      assert SortedByCount(t[1..]);
      InsertSorted(r, t[1..]);
      var u := Insert(r, t[1..]);
      forall x | x in u ensures x.count <= t[0].count {
        assert x in multiset(u);
        if x != r {
          var k :| 0 <= k < |t[1..]| && t[1..][k] == x;
          assert t[k + 1] == x;
        }
      }
      SortedCons(t[0], u);
    }
  }

  lemma {:induction false} InsertTotal(r: Row, t: Table)
    ensures TotalCount(Insert(r, t)) == r.count + TotalCount(t)
  {
    if t != [] && r.count < t[0].count {
      InsertTotal(r, t[1..]);
      assert ([t[0]] + Insert(r, t[1..]))[1..] == Insert(r, t[1..]);
    } else if t != [] {
      assert ([r] + t)[1..] == t;
    }
  }

  lemma {:induction false} InsertDistinct(r: Row, t: Table)
    requires DistinctWords(t)
    requires forall x :: x in t ==> x.word != r.word
    ensures DistinctWords(Insert(r, t))
  {
    if t != [] && r.count < t[0].count {
      InsertDistinct(r, t[1..]);
      var u := Insert(r, t[1..]);
      forall x | x in u ensures x.word != t[0].word {
        assert x in multiset(u);
      }
    }
  }

  /**
   * A row whose word occurs before the words of all rows with its count can
   * lead a table whose ties are in first-occurrence order.
   */
  lemma TiesCons(ws: seq<string>, h: Row, t: Table)
    requires TiesByFirstOccurrence(ws, t)
    requires forall x :: x in t && x.count == h.count ==> FirstIndex(ws, h.word) < FirstIndex(ws, x.word)
    ensures TiesByFirstOccurrence(ws, [h] + t)
  {
    var r := [h] + t;
    forall i, j | 0 <= i < j < |r| && r[i].count == r[j].count
      ensures FirstIndex(ws, r[i].word) < FirstIndex(ws, r[j].word)
    {
      assert r[j] == t[j - 1];
      if i > 0 {
        assert r[i] == t[i - 1];
      }
    }
  }

  /** Every row of `Insert(r, t)` is `r` or a row of `t`. */
  lemma InsertMembers(r: Row, t: Table)
    ensures forall x :: x in Insert(r, t) ==> x == r || x in t
  {
    forall x | x in Insert(r, t) ensures x == r || x in t {
      assert x in multiset(Insert(r, t));
    }
  }

  /** The rows after the first keep their tie order, and the first precedes its ties. */
  lemma TiesTail(ws: seq<string>, t: Table)
    requires t != [] && TiesByFirstOccurrence(ws, t)
    ensures TiesByFirstOccurrence(ws, t[1..])
    ensures forall x :: x in t[1..] && x.count == t[0].count ==>
      FirstIndex(ws, t[0].word) < FirstIndex(ws, x.word)
  {
    forall x | x in t[1..] && x.count == t[0].count
      ensures FirstIndex(ws, t[0].word) < FirstIndex(ws, x.word)
    {
      var k :| 0 <= k < |t[1..]| && t[1..][k] == x;
      assert t[k + 1] == x;
    }
  }

  lemma {:induction false} InsertTies(ws: seq<string>, r: Row, t: Table)
    requires TiesByFirstOccurrence(ws, t)
    requires forall x :: x in t ==> FirstIndex(ws, r.word) < FirstIndex(ws, x.word)
    ensures TiesByFirstOccurrence(ws, Insert(r, t))
  {
    if t == [] {
    } else if r.count >= t[0].count {
      TiesCons(ws, r, t);
    } else {
      TiesTail(ws, t);
      InsertTies(ws, r, t[1..]);
      InsertMembers(r, t[1..]);
      TiesCons(ws, t[0], Insert(r, t[1..]));
    }
  }

  /** Sorting ranks the rows by count, highest first. */
  lemma {:induction false} SortByCountSorted(t: Table)
    ensures SortedByCount(SortByCount(t))
  {
    if t != [] {
      SortByCountSorted(t[1..]);
      InsertSorted(t[0], SortByCount(t[1..]));
    }
  }

  /** Sorting keeps the total of the counts. */
  lemma {:induction false} SortByCountTotal(t: Table)
    ensures TotalCount(SortByCount(t)) == TotalCount(t)
  {
    if t != [] {
      SortByCountTotal(t[1..]);
      InsertTotal(t[0], SortByCount(t[1..]));
    }
  }

  /** Sorting rows with distinct words leaves them distinct. */
  lemma {:induction false} SortByCountDistinct(t: Table)
    requires DistinctWords(t)
    ensures DistinctWords(SortByCount(t))
  {
    if t != [] {
      var rest := SortByCount(t[1..]);
      assert DistinctWords(t[1..]);
      SortByCountDistinct(t[1..]);
      forall x | x in rest ensures x.word != t[0].word {
        assert x in multiset(rest);
        var k :| 0 <= k < |t[1..]| && t[1..][k] == x;
        assert t[k + 1] == x;
      }
      InsertDistinct(t[0], rest);
    }
  }

  /**
   * Sorting is stable: rows given in first-occurrence order of their words
   * keep that order among equal counts.
   */
  lemma {:induction false} SortByCountTies(ws: seq<string>, t: Table)
    requires forall i, j :: 0 <= i < j < |t| ==> FirstIndex(ws, t[i].word) < FirstIndex(ws, t[j].word)
    ensures TiesByFirstOccurrence(ws, SortByCount(t))
  {
    if t != [] {
      var rest := SortByCount(t[1..]);
      assert forall i, j :: 0 <= i < j < |t[1..]| ==>
        FirstIndex(ws, t[1..][i].word) < FirstIndex(ws, t[1..][j].word) by {
        forall i, j | 0 <= i < j < |t[1..]|
          ensures FirstIndex(ws, t[1..][i].word) < FirstIndex(ws, t[1..][j].word)
        {
          assert t[1..][i] == t[i + 1] && t[1..][j] == t[j + 1];
        }
      }
      SortByCountTies(ws, t[1..]);
      forall x | x in rest ensures FirstIndex(ws, t[0].word) < FirstIndex(ws, x.word) {
        assert x in multiset(rest);
        var k :| 0 <= k < |t[1..]| && t[1..][k] == x;
        assert t[k + 1] == x;
      }
      InsertTies(ws, t[0], rest);
    }
  }

  lemma {:induction false} TotalCountAddWord(ws: seq<string>, x: string, d: seq<string>)
    requires Distinct(d)
    ensures TotalCount(CountRows(ws + [x], d)) == TotalCount(CountRows(ws, d)) + (if x in d then 1 else 0)
  {
    if d != [] {
      TotalCountAddWord(ws, x, d[1..]);
      assert multiset(ws + [x]) == multiset(ws) + multiset{x};
      assert x == d[0] ==> x !in d[1..];
    }
  }

  lemma {:induction false} TotalCountAddRow(ws: seq<string>, d: seq<string>, x: string)
    ensures TotalCount(CountRows(ws, d + [x])) == TotalCount(CountRows(ws, d)) + Occurrences(ws, x)
  {
    if d != [] {
      assert (d + [x])[1..] == d[1..] + [x];
      TotalCountAddRow(ws, d[1..], x);
    } else {
      assert d + [x] == [x];
    }
  }

  /** Every occurrence of every word is counted exactly once. */
  lemma {:induction false} CountedTotal(ws: seq<string>)
    ensures TotalCount(Counted(ws)) == |ws|
    decreases |ws|
  {
    if ws != [] {
      var init := ws[..|ws| - 1];
      var last := ws[|ws| - 1];
      assert ws == init + [last];
      var d := FirstOccurrences(init);
      CountedTotal(init);
      TotalCountAddWord(init, last, d);
      if last !in init {
        TotalCountAddRow(ws, d, last);
        assert last !in d;
        assert Occurrences(ws, last) == 1;
      }
    }
  }

  /** Ranking only reorders the counted rows. */
  lemma FrequencyTableHoldsCounted(ws: seq<string>)
    ensures |FrequencyTable(ws)| == |Counted(ws)|
    ensures forall x :: x in FrequencyTable(ws) <==> x in Counted(ws)
  {
    var c := Counted(ws);
    var t := FrequencyTable(ws);
    forall x ensures x in t <==> x in c {
      assert x in t <==> x in multiset(t);
      assert x in c <==> x in multiset(c);
    }
  }

  /** True when some row of `t` is about `w`. */
  predicate HasRow(t: Table, w: string) {
    exists i :: 0 <= i < |t| && t[i].word == w
  }

  /**
   * The table has exactly one row per distinct token and each row counts that
   * token's occurrences, so at least one; no tokens give an empty table.
   */
  lemma FrequencyTableRows(ws: seq<string>)
    ensures DistinctWords(FrequencyTable(ws))
    ensures forall w :: HasRow(FrequencyTable(ws), w) <==> w in ws
    ensures forall i :: 0 <= i < |FrequencyTable(ws)| ==>
      FrequencyTable(ws)[i].count == Occurrences(ws, FrequencyTable(ws)[i].word) >= 1
    ensures FrequencyTable(ws) == [] <==> ws == []
  {
    var c := Counted(ws);
    var t := FrequencyTable(ws);
    var d := FirstOccurrences(ws);
    assert DistinctWords(c);
    SortByCountDistinct(c);
    FrequencyTableHoldsCounted(ws);
    forall w | w in ws ensures HasRow(t, w) {
      var k :| 0 <= k < |d| && d[k] == w;
      assert c[k] in t;
    }
    forall i | 0 <= i < |t| ensures t[i].word in ws && t[i].count == Occurrences(ws, t[i].word) >= 1 {
      assert t[i] in c;
    }
  }

  /** There are as many rows as distinct tokens, and the counts add up to the number of tokens. */
  lemma FrequencyTableTotals(ws: seq<string>)
    ensures |FrequencyTable(ws)| == |Elements(ws)|
    ensures TotalCount(FrequencyTable(ws)) == |ws|
  {
    var d := FirstOccurrences(ws);
    SortByCountTotal(Counted(ws));
    CountedTotal(ws);
    DistinctCardinality(d);
    assert Elements(d) == Elements(ws);
  }

  /** The table is ranked by count, highest first, and ties keep first-occurrence order. */
  lemma FrequencyTableOrder(ws: seq<string>)
    ensures SortedByCount(FrequencyTable(ws))
    ensures TiesByFirstOccurrence(ws, FrequencyTable(ws))
  {
    FirstOccurrencesOrder(ws);
    SortByCountSorted(Counted(ws));
    SortByCountTies(ws, Counted(ws));
  }

  /** `DataFrame.head(n)`: the first `n` rows, or all of them when there are fewer. */
  function Head(t: Table, n: nat): (h: Table)
    ensures |h| == (if |t| < n then |t| else n)
    ensures h == t[..|h|]
  {
    if |t| <= n then t else t[..n]
  }

  /**
   * The top ten are the first min(10, rows) rows of the table, still ranked,
   * and no row left out has a higher count than a row kept.
   */
  lemma TopTenAreMostFrequent(ws: seq<string>)
    ensures var t := FrequencyTable(ws);
      && |Head(t, 10)| == (if |t| < 10 then |t| else 10)
      && Head(t, 10) == t[..|Head(t, 10)|]
      && SortedByCount(Head(t, 10))
      && forall i, j :: 0 <= i < |Head(t, 10)| <= j < |t| ==> Head(t, 10)[i].count >= t[j].count
  {
    FrequencyTableOrder(ws);
  }

  /**
   * `df[df['Word'].apply(keep)]`: exactly the rows whose word satisfies
   * `keep`, counts unchanged.
   */
  function FilterRows(keep: string -> bool, t: Table): (r: Table)
    ensures forall x :: x in r <==> x in t && keep(x.word)
  {
    if t == [] then []
    else
      assert t == [t[0]] + t[1..];
      (if keep(t[0].word) then [t[0]] else []) + FilterRows(keep, t[1..])
  }

  /** `r` is `t` with some rows left out, the others in their order. */
  predicate IsSubsequence(r: Table, t: Table)
    decreases |t|
  {
    || r == []
    || (t != [] && ((r[0] == t[0] && IsSubsequence(r[1..], t[1..])) || IsSubsequence(r, t[1..])))
  }

  /** Filtering keeps the surviving rows in table order. */
  lemma {:induction false} FilterRowsInOrder(keep: string -> bool, t: Table)
    ensures IsSubsequence(FilterRows(keep, t), t)
  {
    if t != [] {
      var rest := FilterRows(keep, t[1..]);
      FilterRowsInOrder(keep, t[1..]);
      if keep(t[0].word) {
        assert ([t[0]] + rest)[1..] == rest;
      } else {
        assert FilterRows(keep, t) == rest;
      }
    }
  }

  /** A ranked table stays ranked when filtered. */
  lemma {:induction false} FilterRowsSorted(keep: string -> bool, t: Table)
    requires SortedByCount(t)
    ensures SortedByCount(FilterRows(keep, t))
  {
    if t != [] {
      var rest := FilterRows(keep, t[1..]);
      assert SortedByCount(t[1..]);
      FilterRowsSorted(keep, t[1..]);
      if keep(t[0].word) {
        forall x | x in rest ensures x.count <= t[0].count {
          var k :| 0 <= k < |t[1..]| && t[1..][k] == x;
          assert t[k + 1] == x;
        }
        SortedCons(t[0], rest);
      }
    }
  }

  /** Filtering a table with distinct words leaves the words distinct. */
  lemma {:induction false} FilterRowsDistinct(keep: string -> bool, t: Table)
    requires DistinctWords(t)
    ensures DistinctWords(FilterRows(keep, t))
  {
    if t != [] {
      var rest := FilterRows(keep, t[1..]);
      FilterRowsDistinct(keep, t[1..]);
      if keep(t[0].word) {
        var r := [t[0]] + rest;
        forall i, j | 0 <= i < j < |r| ensures r[i].word != r[j].word {
          if i == 0 {
            assert r[j] == rest[j - 1];
            var k :| 0 <= k < |t[1..]| && t[1..][k] == r[j];
            assert t[k + 1] == r[j];
          } else {
            assert r[i] == rest[i - 1] && r[j] == rest[j - 1];
          }
        }
      }
    }
  }

  /** Reading one more word adds it to the distinct words unless it was seen already. */
  lemma FirstOccurrencesSnoc(ws: seq<string>, w: string)
    ensures FirstOccurrences(ws + [w]) ==
      if w in ws then FirstOccurrences(ws) else FirstOccurrences(ws) + [w]
  {
    assert (ws + [w])[..|ws|] == ws;
  }

  /** Reading one more word adds one occurrence of that word and of no other. */
  lemma OccurrencesSnoc(ws: seq<string>, w: string)
    ensures forall v :: Occurrences(ws + [w], v) == Occurrences(ws, v) + (if v == w then 1 else 0)
  {
    assert multiset(ws + [w]) == multiset(ws) + multiset{w};
  }

  /** The dictionary built by reading `ws` left to right and bumping one entry per word. */
  function Tallied(ws: seq<string>): map<string, nat>
    decreases |ws|
  {
    if ws == [] then map[]
    else
      var m := Tallied(ws[..|ws| - 1]);
      var w := ws[|ws| - 1];
      m[w := (if w in m then m[w] else 0) + 1]
  }

  /** Reading one more word bumps its entry, starting from zero. */
  lemma TalliedSnoc(ws: seq<string>, w: string)
    ensures Tallied(ws + [w]) == Tallied(ws)[w := (if w in Tallied(ws) then Tallied(ws)[w] else 0) + 1]
  {
    assert (ws + [w])[..|ws|] == ws;
  }

  /** The dictionary has a key per word read, and each key maps to that word's count. */
  lemma {:induction false} TalliedCounts(ws: seq<string>)
    ensures forall w :: w in Tallied(ws) <==> w in ws
    ensures forall w :: w in Tallied(ws) ==> Tallied(ws)[w] == Occurrences(ws, w)
    decreases |ws|
  {
    if ws != [] {
      var init := ws[..|ws| - 1];
      var last := ws[|ws| - 1];
      assert ws == init + [last];
      TalliedCounts(init);
      OccurrencesSnoc(init, last);
      if last !in init {
        assert last !in multiset(init);
      }
    }
  }

  /**
   * `Counter(words)`: one pass that bumps a dictionary entry per word and
   * remembers the order in which keys were first inserted.
   */
  method Tally(words: seq<string>) returns (counts: map<string, nat>, order: seq<string>)
    ensures order == FirstOccurrences(words)
    ensures forall w :: w in counts <==> w in words
    ensures forall w :: w in counts ==> counts[w] == Occurrences(words, w)
  {
    counts, order := map[], [];
    for i := 0 to |words|
      invariant order == FirstOccurrences(words[..i])
      invariant counts == Tallied(words[..i])
    {
      var w := words[i];
      TalliedSnoc(words[..i], w);
      TalliedCounts(words[..i]);
      FirstOccurrencesSnoc(words[..i], w);
      assert words[..i + 1] == words[..i] + [w];
      if w in counts {
        counts := counts[w := counts[w] + 1];
      } else {
        counts := counts[w := 1];
        order := order + [w];
      }
    }
    assert words[..|words|] == words;
    TalliedCounts(words);
  }

  /** `Counter(words).items()`: one row per key, in insertion order. */
  method CountOccurrences(words: seq<string>) returns (rows: Table)
    ensures rows == Counted(words)
  {
    var counts, order := Tally(words);
    rows := [];
    for j := 0 to |order|
      invariant |rows| == j
      invariant forall k :: 0 <= k < j ==> rows[k] == Row(order[k], Occurrences(words, order[k]))
    {
      rows := rows + [Row(order[j], counts[order[j]])];
    }
  }

  /** In `b a a b` the distinct words first occur in the order b, a. */
  lemma FirstOccurrencesPrefixExample(a: string, b: string)
    requires a != b
    ensures FirstOccurrences([b, a, a, b]) == [b, a]
  {
    assert FirstOccurrences([b, a, a]) == [b, a] by {
      assert FirstOccurrences([b, a]) == [b, a] by {
        FirstOccurrencesSnoc([], b);
        assert [] + [b] == [b];
        FirstOccurrencesSnoc([b], a);
        assert [b] + [a] == [b, a];
      }
      FirstOccurrencesSnoc([b, a], a);
      assert [b, a] + [a] == [b, a, a];
    }
    FirstOccurrencesSnoc([b, a, a], b);
    assert [b, a, a] + [b] == [b, a, a, b];
  }

  /** In `b a a b c` the distinct words first occur in the order b, a, c. */
  lemma FirstOccurrencesExample(a: string, b: string, c: string)
    requires a != b && a != c && b != c
    ensures FirstOccurrences([b, a, a, b, c]) == [b, a, c]
  {
    FirstOccurrencesPrefixExample(a, b);
    FirstOccurrencesSnoc([b, a, a, b], c);
    assert [b, a, a, b] + [c] == [b, a, a, b, c];
  }

  /** Counting `b a a b c`: b twice, a twice, c once, in first-occurrence order. */
  lemma CountedExample(a: string, b: string, c: string)
    requires a != b && a != c && b != c
    ensures Counted([b, a, a, b, c]) == [Row(b, 2), Row(a, 2), Row(c, 1)]
  {
    var ws := [b, a, a, b, c];
    FirstOccurrencesExample(a, b, c);
    assert multiset(ws)[b] == 2 && multiset(ws)[a] == 2 && multiset(ws)[c] == 1;
  }

  /** Ranking `b a a b c`: b and a tie at two and keep first-occurrence order, then c. */
  lemma RankingExample(a: string, b: string, c: string)
    requires a != b && a != c && b != c
    ensures FrequencyTable([b, a, a, b, c]) == [Row(b, 2), Row(a, 2), Row(c, 1)]
  {
    CountedExample(a, b, c);
    var t := [Row(b, 2), Row(a, 2), Row(c, 1)];
    assert SortByCount(t[2..]) == [Row(c, 1)];
    assert SortByCount(t[1..]) == [Row(a, 2), Row(c, 1)];
  }
}
