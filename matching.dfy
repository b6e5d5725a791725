/** What the line matcher computes: the numbered lines of a buffer that
    contain the needle, in file order, and their `"<n>: <line>"` rendering. */
module Matching {
  import opened Strings
  import opened Decimal
  import opened Wrappers

  /** Exact comparison (`search`) or comparison of lower-cased text
      (`search_case_insensitive`). */
  datatype Mode = CaseSensitive | CaseInsensitive

  /** A matching line: its 1-based number and its original text. */
  datatype Match = Match(lineNo: nat, text: string)

  /** Whether `line` is kept under `mode`. In the case-insensitive mode both
      the line and the needle are lowered before the containment test. */
  predicate Selected(line: string, needle: string, mode: Mode)
  {
    match mode
    case CaseSensitive => Contains(line, needle)
    case CaseInsensitive => Contains(Lower(line), Lower(needle))
  }

  /** The kept lines of `lines`, numbered from 1, in the order they appear. */
  function MatchesIn(lines: seq<string>, needle: string, mode: Mode): seq<Match>
    decreases |lines|
  {
    if |lines| == 0 then []
    else
      var k := |lines| - 1;
      MatchesIn(lines[..k], needle, mode)
        + (if Selected(lines[k], needle, mode) then [Match(k + 1, lines[k])] else [])
  }

  /** The indices (0-based) of the kept lines. */
  ghost function SelectedIndices(lines: seq<string>, needle: string, mode: Mode): set<nat>
  {
    set k: nat | k < |lines| && Selected(lines[k], needle, mode)
  }

  /** Soundness of a result `r`: every entry names a line of `lines` by its
      1-based number, carries that line's original text, and that line is
      kept. */
  ghost predicate Sound(r: seq<Match>, lines: seq<string>, needle: string, mode: Mode)
  {
    forall j :: 0 <= j < |r| ==>
      && 1 <= r[j].lineNo <= |lines|
      && r[j].text == lines[r[j].lineNo - 1]
      && Selected(r[j].text, needle, mode)
  }

  /** Completeness of a result `r`: every kept line appears, under its
      1-based number. */
  ghost predicate Complete(r: seq<Match>, lines: seq<string>, needle: string, mode: Mode)
  {
    forall k :: 0 <= k < |lines| && Selected(lines[k], needle, mode) ==> Match(k + 1, lines[k]) in r
  }

  /** File order: line numbers strictly increase along `r`. */
  ghost predicate Increasing(r: seq<Match>)
  {
    forall i, j :: 0 <= i < j < |r| ==> r[i].lineNo < r[j].lineNo
  }

  /** Every entry of the result is a kept line, under its number. */
  lemma {:induction false} MatchesSound(lines: seq<string>, needle: string, mode: Mode)
    ensures Sound(MatchesIn(lines, needle, mode), lines, needle, mode)
    decreases |lines|
  {
    if |lines| > 0 {
      var k := |lines| - 1;
      var pre := lines[..k];
      MatchesSound(pre, needle, mode);
      var r, rp := MatchesIn(lines, needle, mode), MatchesIn(pre, needle, mode);
      forall j | 0 <= j < |rp|
        ensures r[j] == rp[j] && 1 <= r[j].lineNo <= |lines| && r[j].text == lines[r[j].lineNo - 1]
      {
        assert pre[rp[j].lineNo - 1] == lines[rp[j].lineNo - 1];
      }
    }
  }

  /** Every kept line is an entry of the result. */
  lemma {:induction false} MatchesComplete(lines: seq<string>, needle: string, mode: Mode)
    ensures Complete(MatchesIn(lines, needle, mode), lines, needle, mode)
    decreases |lines|
  {
    if |lines| > 0 {
      var n := |lines| - 1;
      MatchesComplete(lines[..n], needle, mode);
      forall k | 0 <= k < n && Selected(lines[k], needle, mode)
        ensures Match(k + 1, lines[k]) in MatchesIn(lines, needle, mode)
      {
        assert lines[..n][k] == lines[k];
      }
    }
  }

  /** Line numbers strictly increase along the result, so the entries come
      in file order and no line is reported twice. */
  lemma {:induction false} MatchesOrdered(lines: seq<string>, needle: string, mode: Mode)
    ensures Increasing(MatchesIn(lines, needle, mode))
    decreases |lines|
  {
    if |lines| > 0 {
      var n := |lines| - 1;
      MatchesOrdered(lines[..n], needle, mode);
      MatchesSound(lines[..n], needle, mode);
      var r, rp := MatchesIn(lines, needle, mode), MatchesIn(lines[..n], needle, mode);
      assert forall j :: 0 <= j < |rp| ==> r[j] == rp[j] && r[j].lineNo <= n;
    }
  }

  /** Strictly increasing 1-based numbers: the entry at index `j` numbers
      line `j + 1` or a later one. */
  lemma {:induction false} LineNoAtLeastIndex(r: seq<Match>, j: nat)
    requires Increasing(r)
    requires forall k :: 0 <= k < |r| ==> r[k].lineNo >= 1
    requires j < |r|
    ensures r[j].lineNo >= j + 1
    decreases j
  {
    if j > 0 {
      LineNoAtLeastIndex(r, j - 1);
    }
  }

  /** A sound result in file order has at most one entry per line. */
  lemma ResultNoLongerThanLines(r: seq<Match>, lines: seq<string>, needle: string, mode: Mode)
    requires Sound(r, lines, needle, mode) && Increasing(r)
    ensures |r| <= |lines|
  {
    if |r| > 0 {
      LineNoAtLeastIndex(r, |r| - 1);
    }
  }

  /** In a sound, complete, increasing result over `lines`, the last line
      (number `n + 1`) is the last entry when it is kept, and every other
      entry numbers an earlier line. */
  lemma LastLineEntry(r: seq<Match>, lines: seq<string>, needle: string, mode: Mode, n: nat)
    requires n + 1 == |lines|
    requires Sound(r, lines, needle, mode) && Complete(r, lines, needle, mode) && Increasing(r)
    ensures Selected(lines[n], needle, mode) ==> |r| > 0 && r[|r| - 1] == Match(n + 1, lines[n])
    ensures forall j :: 0 <= j < |r| && r[j].lineNo == n + 1 ==> j == |r| - 1
    ensures !Selected(lines[n], needle, mode) ==> forall j :: 0 <= j < |r| ==> r[j].lineNo <= n
  {
    if Selected(lines[n], needle, mode) {
      var j :| 0 <= j < |r| && r[j] == Match(n + 1, lines[n]);
    }
  }

  /** Dropping the entries for the last line leaves a sound, complete,
      increasing result over the other lines. */
  lemma DropLastLine(r: seq<Match>, m: nat, lines: seq<string>, needle: string, mode: Mode, n: nat)
    requires n + 1 == |lines| && m <= |r|
    requires Sound(r, lines, needle, mode) && Complete(r, lines, needle, mode) && Increasing(r)
    requires forall j :: 0 <= j < m ==> r[j].lineNo <= n
    requires forall j :: m <= j < |r| ==> r[j].lineNo == n + 1
    ensures Sound(r[..m], lines[..n], needle, mode)
    ensures Complete(r[..m], lines[..n], needle, mode)
    ensures Increasing(r[..m])
  {
    var pre := lines[..n];
    forall k | 0 <= k < n && Selected(pre[k], needle, mode)
      ensures Match(k + 1, pre[k]) in r[..m]
    {
      assert Match(k + 1, lines[k]) in r;
      var j :| 0 <= j < |r| && r[j] == Match(k + 1, lines[k]);
      assert r[..m][j] == r[j];
    }
  }

  /** Soundness, completeness and file order determine the result: any
      sequence of entries with all three is the matcher's result. */
  lemma {:induction false} MatchesUnique(r: seq<Match>, lines: seq<string>, needle: string, mode: Mode)
    requires Sound(r, lines, needle, mode)
    requires Complete(r, lines, needle, mode)
    requires Increasing(r)
    ensures r == MatchesIn(lines, needle, mode)
    decreases |lines|
  {
    if |lines| == 0 {
      ResultNoLongerThanLines(r, lines, needle, mode);
    } else {
      var n := |lines| - 1;
      LastLineEntry(r, lines, needle, mode, n);
      var m := if Selected(lines[n], needle, mode) then |r| - 1 else |r|;
      DropLastLine(r, m, lines, needle, mode, n);
      MatchesUnique(r[..m], lines[..n], needle, mode);
      if Selected(lines[n], needle, mode) {
        assert r == r[..m] + [Match(n + 1, lines[n])];
      } else {
        assert r[..m] == r;
      }
    }
  }

  /** There are as many entries as there are kept lines. */
  lemma {:induction false} MatchesCount(lines: seq<string>, needle: string, mode: Mode)
    ensures |MatchesIn(lines, needle, mode)| == |SelectedIndices(lines, needle, mode)|
    decreases |lines|
  {
    if |lines| > 0 {
      var n := |lines| - 1;
      MatchesCount(lines[..n], needle, mode);
      var before := SelectedIndices(lines[..n], needle, mode);
      var all := SelectedIndices(lines, needle, mode);
      assert n !in before;
      if Selected(lines[n], needle, mode) {
        assert all == before + {n};
      } else {
        assert all == before;
      }
    }
  }

  /** The empty needle keeps every line, in either mode: one entry per
      line, numbered 1 to the number of lines. */
  lemma {:induction false} EmptyNeedleSelectsAll(lines: seq<string>, mode: Mode)
    ensures MatchesIn(lines, "", mode) == seq(|lines|, k requires 0 <= k < |lines| => Match(k + 1, lines[k]))
    decreases |lines|
  {
    if |lines| > 0 {
      var n := |lines| - 1;
      EmptyNeedleSelectsAll(lines[..n], mode);
      assert Lower("") == "";
      assert Contains(Lower(lines[n]), "");
    }
  }

  /** With ASCII lower-casing, every entry of the exact search is also an
      entry of the case-insensitive search over the same lines. */
  lemma InsensitiveCoversSensitive(lines: seq<string>, needle: string)
    ensures forall m :: m in MatchesIn(lines, needle, CaseSensitive) ==>
      m in MatchesIn(lines, needle, CaseInsensitive)
  {
    var r := MatchesIn(lines, needle, CaseSensitive);
    MatchesSound(lines, needle, CaseSensitive);
    MatchesComplete(lines, needle, CaseInsensitive);
    forall m | m in r
      ensures m in MatchesIn(lines, needle, CaseInsensitive)
    {
      var j :| 0 <= j < |r| && r[j] == m;
      ContainsLowered(m.text, needle);
    }
  }

  /** One result row, `format!("{}: {}", line_no + 1, line)`. */
  function FormatRow(m: Match): string
  {
    NatToString(m.lineNo) + ": " + m.text
  }

  /** The rows of a result, in order. */
  function Render(ms: seq<Match>): (rows: seq<string>)
    ensures |rows| == |ms|
  {
    seq(|ms|, j requires 0 <= j < |ms| => FormatRow(ms[j]))
  }

  /** The length of the run of digits that starts `s`. */
  function DigitPrefixLen(s: string): (k: nat)
    ensures k <= |s|
    decreases |s|
  {
    if |s| == 0 || !IsDigit(s[0]) then 0 else 1 + DigitPrefixLen(s[1..])
  }

  /** Reads a row back: a run of digits, then ": ", then the line. */
  function ParseRow(s: string): Option<Match>
  {
    var k := DigitPrefixLen(s);
    if 1 <= k && k + 2 <= |s| && s[k..k + 2] == ": " then
      assert AllDigits(s[..k]) by { DigitPrefixAllDigits(s); }
      Some(Match(DigitsValue(s[..k]), s[k + 2..]))
    else None
  }

  lemma {:induction false} DigitPrefixAllDigits(s: string)
    ensures AllDigits(s[..DigitPrefixLen(s)])
    decreases |s|
  {
    if |s| > 0 && IsDigit(s[0]) {
      DigitPrefixAllDigits(s[1..]);
      assert s[..DigitPrefixLen(s)] == [s[0]] + s[1..][..DigitPrefixLen(s[1..])];
    }
  }

  /** The digit run of `d + t` is exactly `d` when `d` is all digits and
      `t` does not start with one. */
  lemma {:induction false} DigitPrefixOfDigits(d: string, t: string)
    requires AllDigits(d)
    requires |t| > 0 && !IsDigit(t[0])
    ensures DigitPrefixLen(d + t) == |d|
    decreases |d|
  {
    if |d| > 0 {
      assert (d + t)[1..] == d[1..] + t;
      DigitPrefixOfDigits(d[1..], t);
    }
  }

  /** A row determines the match it was rendered from: the number and the
      line text can be read back, whatever the line contains. */
  lemma ParseFormatRow(m: Match)
    ensures ParseRow(FormatRow(m)) == Some(m)
  {
    var d := NatToString(m.lineNo);
    NatToStringRoundTrip(m.lineNo);
    var s := FormatRow(m);
    assert s == d + (": " + m.text);
    DigitPrefixOfDigits(d, ": " + m.text);
    assert s[..|d|] == d;
    assert s[|d| + 2..] == m.text;
  }

  /** Every rendered row reads back as `"k: L"` where `L` is the k-th line
      (1-based) and `L` is kept under `mode`. */
  lemma RowsDescribeKeptLines(lines: seq<string>, needle: string, mode: Mode)
    ensures var rows := Render(MatchesIn(lines, needle, mode));
      forall j :: 0 <= j < |rows| ==>
        && ParseRow(rows[j]).Some?
        && var m := ParseRow(rows[j]).value;
        && 1 <= m.lineNo <= |lines|
        && m.text == lines[m.lineNo - 1]
        && Selected(m.text, needle, mode)
  {
    var r := MatchesIn(lines, needle, mode);
    MatchesSound(lines, needle, mode);
    forall j | 0 <= j < |r| ensures ParseRow(Render(r)[j]) == Some(r[j]) {
      ParseFormatRow(r[j]);
    }
  }
}
