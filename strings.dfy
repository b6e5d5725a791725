/** Substring containment and lower-casing, the two string operations the
    matcher relies on (Rust's `str::contains` and `str::to_lowercase`). */
module Strings {

  /** `p` is a prefix of `s`. */
  predicate IsPrefix(p: string, s: string)
  {
    |p| <= |s| && s[..|p|] == p
  }

  /** `needle` occurs in `line` as a contiguous substring: some suffix of
      `line` starts with `needle`. */
  ghost predicate Occurs(needle: string, line: string)
  {
    exists i :: 0 <= i <= |line| && IsPrefix(needle, line[i..])
  }

  /** Substring test, scanning the start positions of `line` from the left. */
  function Contains(line: string, needle: string): bool
    decreases |line|
  {
    IsPrefix(needle, line) || (|line| > 0 && Contains(line[1..], needle))
  }

  /** The scan finds the needle exactly when it occurs somewhere. */
  lemma {:induction false} ContainsIffOccurs(line: string, needle: string)
    ensures Contains(line, needle) <==> Occurs(needle, line)
    decreases |line|
  {
    if IsPrefix(needle, line) {
      assert line[0..] == line;
    } else if |line| == 0 {
      assert !Occurs(needle, line) by {
        forall i | 0 <= i <= |line| ensures !IsPrefix(needle, line[i..]) {
          assert line[i..] == line;
        }
      }
    } else {
      var tail := line[1..];
      ContainsIffOccurs(tail, needle);
      if Occurs(needle, tail) {
        var i :| 0 <= i <= |tail| && IsPrefix(needle, tail[i..]);
        assert line[i + 1..] == tail[i..];
      }
      if Occurs(needle, line) {
        var i :| 0 <= i <= |line| && IsPrefix(needle, line[i..]);
        assert i != 0 by { assert line[0..] == line; }
        assert tail[i - 1..] == line[i..];
      }
    }
  }

  /** ASCII lower-casing of one character; every other character is kept. */
  function LowerChar(c: char): (d: char)
  {
    if 'A' <= c <= 'Z' then (c as int - 'A' as int + 'a' as int) as char else c
  }

  /** Character-wise lower-casing of a string: same length, no ASCII capital
      left, and every character that is not an ASCII capital kept. */
  function Lower(s: string): (r: string)
    ensures |r| == |s|
    ensures forall i :: 0 <= i < |s| ==> r[i] == LowerChar(s[i])
    ensures forall i :: 0 <= i < |r| ==> !('A' <= r[i] <= 'Z')
    ensures forall i :: 0 <= i < |s| && !('A' <= s[i] <= 'Z') ==> r[i] == s[i]
  {
    seq(|s|, i requires 0 <= i < |s| => LowerChar(s[i]))
  }

  /** Lower-casing commutes with taking a slice. */
  lemma LowerSlice(s: string, i: nat, j: nat)
    requires i <= j <= |s|
    ensures Lower(s)[i..j] == Lower(s[i..j])
  {
  }

  /** Under ASCII lower-casing, an exact occurrence of the needle is also an
      occurrence of the lowered needle in the lowered line. */
  lemma {:induction false} ContainsLowered(line: string, needle: string)
    requires Contains(line, needle)
    ensures Contains(Lower(line), Lower(needle))
  {
    ContainsIffOccurs(line, needle);
    var i :| 0 <= i <= |line| && IsPrefix(needle, line[i..]);
    var n := |needle|;
    assert line[i..][..n] == line[i..i + n];
    LowerSlice(line, i, i + n);
    assert Lower(line)[i..][..n] == Lower(line)[i..i + n];
    assert IsPrefix(Lower(needle), Lower(line)[i..]);
    ContainsIffOccurs(Lower(line), Lower(needle));
  }
}
