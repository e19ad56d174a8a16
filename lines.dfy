/**
 * `str.splitlines()` without `keepends`: the text is cut at every line
 * boundary, "\r\n" counts as one boundary, and a boundary at the very end does
 * not open an empty last line.
 */
module Lines {
  import opened Chars

  predicate NoLineBreak(s: string) {
    forall i :: 0 <= i < |s| ==> !IsLineBreak(s[i])
  }

  /** Index of the first line boundary in `s`, or `|s|` when there is none. */
  function LineEnd(s: string): (k: nat)
    ensures k <= |s|
    ensures k < |s| ==> IsLineBreak(s[k])
  {
    if s == [] || IsLineBreak(s[0]) then 0 else 1 + LineEnd(s[1..])
  }

  /** No boundary comes before the first one. */
  lemma {:induction false} LineEndNoBreak(s: string)
    ensures NoLineBreak(s[..LineEnd(s)])
  {
    if s != [] && !IsLineBreak(s[0]) {
      LineEndNoBreak(s[1..]);
      forall i | 0 <= i < LineEnd(s) ensures !IsLineBreak(s[..LineEnd(s)][i]) {
        if i > 0 {
          assert s[..LineEnd(s)][i] == s[1..][..LineEnd(s[1..])][i - 1];
        }
      }
    }
  }

  /** Width of the boundary at `k`: two for "\r\n", one otherwise. */
  function BreakWidth(s: string, k: nat): (w: nat)
    requires k < |s|
    ensures 1 <= w && k + w <= |s|
  {
    if s[k] == '\r' && k + 1 < |s| && s[k + 1] == '\n' then 2 else 1
  }

  /** The lines of `s`, without their terminators. */
  function SplitLines(s: string): seq<string>
    decreases |s|
  {
    if s == [] then []
    else
      var k := LineEnd(s);
      if k == |s| then [s] else [s[..k]] + SplitLines(s[k + BreakWidth(s, k)..])
  }

  /** Number of line boundaries in `s`, reading left to right ("\r\n" is one). */
  function LineBreaks(s: string): nat
    decreases |s|
  {
    if s == [] then 0
    else if s[0] == '\r' && |s| > 1 && s[1] == '\n' then 1 + LineBreaks(s[2..])
    else (if IsLineBreak(s[0]) then 1 else 0) + LineBreaks(s[1..])
  }

  /** True when the text after the last boundary is non-empty. */
  predicate HasOpenLastLine(s: string) {
    s != [] && !IsLineBreak(s[|s| - 1])
  }

  lemma {:induction false} LineBreaksSkip(s: string, k: nat)
    requires k <= |s| && NoLineBreak(s[..k])
    ensures LineBreaks(s) == LineBreaks(s[k..])
    decreases k
  {
    if k > 0 {
      assert !IsLineBreak(s[0]);
      assert s[1..][..k - 1] == s[1..k];
      LineBreaksSkip(s[1..], k - 1);
      assert s[1..][k - 1..] == s[k..];
    }
  }

  /**
   * The number of lines is the number of boundaries, plus one when the text
   * after the last boundary is non-empty: no empty line is made up at the end.
   */
  lemma {:induction false} SplitLinesCount(s: string)
    ensures |SplitLines(s)| == LineBreaks(s) + (if HasOpenLastLine(s) then 1 else 0)
    decreases |s|
  {
    if s != [] {
      var k := LineEnd(s);
      LineEndNoBreak(s);
      LineBreaksSkip(s, k);
      if k == |s| {
        assert s[k..] == [];
        assert !IsLineBreak(s[|s| - 1]) by { assert s[..k][|s| - 1] == s[|s| - 1]; }
      } else {
        var w := BreakWidth(s, k);
        var rest := s[k + w..];
        var t := s[k..];
        if w == 2 {
          assert t[0] == '\r' && t[1] == '\n' && t[2..] == rest;
        } else {
          assert t[1..] == rest;
          assert !(t[0] == '\r' && |t| > 1 && t[1] == '\n');
        }
        assert LineBreaks(s) == 1 + LineBreaks(rest);
        SplitLinesCount(rest);
        if rest == [] {
          assert IsLineBreak(s[|s| - 1]);
        } else {
          assert rest[|rest| - 1] == s[|s| - 1];
        }
      }
    }
  }

  /** No line contains a boundary character. */
  lemma {:induction false} SplitLinesHaveNoBreaks(s: string)
    ensures forall i :: 0 <= i < |SplitLines(s)| ==> NoLineBreak(SplitLines(s)[i])
    decreases |s|
  {
    if s != [] {
      var k := LineEnd(s);
      LineEndNoBreak(s);
      if k < |s| {
        SplitLinesHaveNoBreaks(s[k + BreakWidth(s, k)..]);
      }
    }
  }

  lemma {:induction false} LineEndAfter(a: string, b: string)
    requires NoLineBreak(a)
    ensures LineEnd(a + b) == |a| + LineEnd(b)
    decreases |a|
  {
    if a != [] {
      assert (a + b)[0] == a[0];
      assert (a + b)[1..] == a[1..] + b;
      LineEndAfter(a[1..], b);
    } else {
      assert a + b == b;
    }
  }

  /** A line without boundaries followed by "\n" is split off as the first line. */
  lemma {:induction false} SplitLinesCons(line: string, rest: string)
    requires NoLineBreak(line)
    ensures SplitLines(line + "\n" + rest) == [line] + SplitLines(rest)
  {
    var s := line + "\n" + rest;
    LineEndAfter(line, "\n" + rest);
    assert s == line + ("\n" + rest);
    assert LineEnd(s) == |line|;
    assert s[|line|] == '\n';
    assert s[..|line|] == line;
    assert s[|line| + 1..] == rest;
  }

  /** The lines `ls`, each followed by "\n". */
  function JoinLines(ls: seq<string>): string {
    if ls == [] then [] else ls[0] + "\n" + JoinLines(ls[1..])
  }

  lemma {:induction false} JoinLinesAppend(a: seq<string>, b: seq<string>)
    ensures JoinLines(a + b) == JoinLines(a) + JoinLines(b)
  {
    if a == [] {
      assert a + b == b;
    } else {
      assert (a + b)[1..] == a[1..] + b;
      JoinLinesAppend(a[1..], b);
    }
  }

  lemma {:induction false} JoinLinesEndsWithNewline(ls: seq<string>)
    ensures JoinLines(ls) == [] || JoinLines(ls)[|JoinLines(ls)| - 1] == '\n'
  {
    if ls != [] {
      JoinLinesEndsWithNewline(ls[1..]);
    }
  }

  /** Splitting lines that were each terminated by "\n" gives them back. */
  lemma {:induction false} SplitJoinLines(ls: seq<string>)
    requires forall k :: 0 <= k < |ls| ==> NoLineBreak(ls[k])
    ensures SplitLines(JoinLines(ls)) == ls
  {
    if ls != [] {
      SplitLinesCons(ls[0], JoinLines(ls[1..]));
      SplitJoinLines(ls[1..]);
    }
  }

  lemma {:induction false} LineEndBefore(a: string, b: string)
    requires LineEnd(a) < |a|
    ensures LineEnd(a + b) == LineEnd(a)
    decreases |a|
  {
    assert (a + b)[0] == a[0];
    if !IsLineBreak(a[0]) {
      assert (a + b)[1..] == a[1..] + b;
      LineEndBefore(a[1..], b);
    }
  }

  /** Text that ends in a boundary character has a first boundary inside it. */
  lemma {:induction false} LineEndOfBreakEnded(a: string)
    requires a != [] && IsLineBreak(a[|a| - 1])
    ensures LineEnd(a) < |a|
  {
    if !IsLineBreak(a[0]) {
      assert a[1..][|a| - 2] == a[|a| - 1];
      LineEndOfBreakEnded(a[1..]);
    }
  }

  /**
   * One step of splitting text that ends with "\n", alone and followed by
   * `b`: the first line is cut off the same way, and what is left still ends
   * with "\n".
   */
  lemma SplitLinesStep(a: string, b: string) returns (line: string, rest: string)
    requires a != [] && a[|a| - 1] == '\n'
    ensures |rest| < |a|
    ensures rest == [] || rest[|rest| - 1] == '\n'
    ensures SplitLines(a) == [line] + SplitLines(rest)
    ensures SplitLines(a + b) == [line] + SplitLines(rest + b)
  {
    var k := LineEnd(a);
    LineEndOfBreakEnded(a);
    var w := BreakWidth(a, k);
    line, rest := a[..k], a[k + w..];
    assert rest != [] ==> rest[|rest| - 1] == a[|a| - 1];
    LineEndBefore(a, b);
    assert BreakWidth(a + b, k) == w;
    assert (a + b)[..k] == line;
    assert (a + b)[k + w..] == rest + b;
  }

  /**
   * Regrouping `[h] + (t + m)` as `([h] + t) + m`, stated apart so that the
   * proof of `SplitLinesAppend` does not reason about sequences of lines.
   */
  lemma ConsAppend<T>(x: seq<T>, h: T, y: seq<T>, z: seq<T>, t: seq<T>, m: seq<T>)
    requires x == [h] + y && y == t + m && z == [h] + t
    ensures x == z + m
  {
    assert [h] + (t + m) == ([h] + t) + m;
  }

  /**
   * Text that ends with "\n" splits independently of what follows it: the
   * lines of the whole are the lines of the first part, then those of the rest.
   */
  lemma {:induction false} SplitLinesAppend(a: string, b: string)
    requires a == [] || a[|a| - 1] == '\n'
    ensures SplitLines(a + b) == SplitLines(a) + SplitLines(b)
    decreases |a|
  {
    if a == [] {
      assert a + b == b;
    } else {
      var line, rest := SplitLinesStep(a, b);
      SplitLinesAppend(rest, b);
      ConsAppend(SplitLines(a + b), line, SplitLines(rest + b), SplitLines(a), SplitLines(rest), SplitLines(b));
    }
  }
}
