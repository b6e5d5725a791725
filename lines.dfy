/** Splitting a text buffer into lines on the line-feed character, as Rust's
    `str::split("\n")` does: every segment is kept, empty ones included, and a
    carriage return stays part of its line. */
module Lines {

  const LF: char := '\n'

  /** The segments of `s` between line feeds, first to last. */
  function Split(s: string): (r: seq<string>)
    ensures |r| >= 1
    decreases |s|
  {
    if |s| == 0 then [""]
    else if s[0] == LF then [""] + Split(s[1..])
    else
      var rest := Split(s[1..]);
      [[s[0]] + rest[0]] + rest[1..]
  }

  /** The segments glued back together with a line feed between neighbours. */
  function Join(segs: seq<string>): (s: string)
    requires |segs| >= 1
  {
    if |segs| == 1 then segs[0] else segs[0] + [LF] + Join(segs[1..])
  }

  /** The number of line feeds in `s`. */
  function CountLF(s: string): nat
  {
    if |s| == 0 then 0 else (if s[0] == LF then 1 else 0) + CountLF(s[1..])
  }

  /** No segment contains a line feed. */
  lemma {:induction false} SplitSegmentsHaveNoLF(s: string)
    ensures forall k :: 0 <= k < |Split(s)| ==> LF !in Split(s)[k]
    decreases |s|
  {
    if |s| > 0 {
      SplitSegmentsHaveNoLF(s[1..]);
    }
  }

  /** There is one more segment than there are line feeds. */
  lemma {:induction false} SplitCount(s: string)
    ensures |Split(s)| == CountLF(s) + 1
    decreases |s|
  {
    if |s| > 0 {
      SplitCount(s[1..]);
    }
  }

  /** Joining the segments with line feeds gives back the buffer. */
  lemma {:induction false} JoinSplit(s: string)
    ensures Join(Split(s)) == s
    decreases |s|
  {
    if |s| > 0 {
      var rest := Split(s[1..]);
      JoinSplit(s[1..]);
      if s[0] == LF {
        assert Split(s)[1..] == rest;
        assert s == [LF] + s[1..];
      } else {
        var r := Split(s);
        if |rest| == 1 {
          assert s == [s[0]] + s[1..];
        } else {
          assert r[1..] == rest[1..];
          assert s == [s[0]] + (rest[0] + [LF] + Join(rest[1..]));
        }
      }
    }
  }

  /** Splitting the join of line-feed-free segments gives back the segments,
      so a buffer determines its lines and the lines determine the buffer. */
  lemma {:induction false} SplitJoin(segs: seq<string>)
    requires |segs| >= 1
    requires forall k :: 0 <= k < |segs| ==> LF !in segs[k]
    ensures Split(Join(segs)) == segs
    decreases |segs|, |segs[0]|
  {
    var h := segs[0];
    if |h| == 0 {
      if |segs| > 1 {
        SplitJoin(segs[1..]);
        assert Join(segs) == [LF] + Join(segs[1..]);
        assert Join(segs)[1..] == Join(segs[1..]);
      }
    } else {
      var segs' := [h[1..]] + segs[1..];
      assert segs'[1..] == segs[1..];
      assert LF !in segs'[0] by {
        assert forall c :: c in h[1..] ==> c in h;
      }
      SplitJoin(segs');
      if |segs| == 1 {
        assert Join(segs)[1..] == Join(segs');
      } else {
        assert Join(segs) == [h[0]] + Join(segs') by {
          assert h == [h[0]] + h[1..];
        }
        assert Join(segs)[1..] == Join(segs');
      }
      assert h == [h[0]] + h[1..];
      assert Split(Join(segs)) == [[h[0]] + h[1..]] + segs[1..];
    }
  }

  /** A buffer that ends with a line feed has at least two segments, and
      the last one is empty. */
  lemma {:induction false} TrailingLFGivesEmptyLast(s: string)
    requires |s| > 0 && s[|s| - 1] == LF
    ensures |Split(s)| >= 2 && Split(s)[|Split(s)| - 1] == ""
    decreases |s|
  {
    if |s| == 1 {
      assert s[1..] == "";
    } else {
      TrailingLFGivesEmptyLast(s[1..]);
    }
  }

  /** A carriage return before a line feed is not a delimiter: it stays at
      the end of its line. */
  lemma CarriageReturnKept(a: string, b: string)
    requires LF !in a && LF !in b
    ensures Split(a + "\r\n" + b) == [a + "\r", b]
  {
    var segs := [a + "\r", b];
    assert segs[1..] == [b];
    assert Join(segs) == a + "\r\n" + b;
    SplitJoin(segs);
  }
}
