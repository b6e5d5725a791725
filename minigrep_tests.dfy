/** The unit tests of the library crate, stated as facts about the rows the
    matchers return (both `Search` methods return exactly these rows). */
module MinigrepTests {
  import opened Strings
  import opened Lines
  import opened Matching

  const Poem: string := "Rust:\nsafe, fast, productive.\nPick three."
  const Animals: string := "abicus\nanteater\natlas"

  /** A needle whose first character appears nowhere in the line is not
      contained in it. */
  lemma {:induction false} FirstCharAbsent(line: string, needle: string)
    requires |needle| > 0
    requires forall i :: 0 <= i < |line| ==> line[i] != needle[0]
    ensures !Contains(line, needle)
    decreases |line|
  {
    if |line| > 0 {
      FirstCharAbsent(line[1..], needle);
      assert !IsPrefix(needle, line) by {
        if |needle| <= |line| {
          assert line[..|needle|][0] == line[0];
        }
      }
    }
  }

  /** The three-line buffer `a\nb\nc` splits into its three lines. */
  lemma ThreeLines(a: string, b: string, c: string)
    requires LF !in a && LF !in b && LF !in c
    ensures Split(a + "\n" + b + "\n" + c) == [a, b, c]
  {
    var segs := [a, b, c];
    assert segs[1..] == [b, c] && segs[1..][1..] == [c];
    assert Join([c]) == c;
    assert Join([b, c]) == b + [LF] + c;
    assert Join(segs) == a + [LF] + (b + [LF] + c);
    assert a + "\n" + b + "\n" + c == a + [LF] + (b + [LF] + c);
    SplitJoin(segs);
  }

  /** The matches over three lines, line by line. */
  lemma MatchesOfThree(a: string, b: string, c: string, needle: string, mode: Mode)
    ensures MatchesIn([a, b, c], needle, mode)
      == (if Selected(a, needle, mode) then [Match(1, a)] else [])
       + (if Selected(b, needle, mode) then [Match(2, b)] else [])
       + (if Selected(c, needle, mode) then [Match(3, c)] else [])
  {
    var ls := [a, b, c];
    assert ls[..2] == [a, b] && [a, b][..1] == [a] && [a][..0] == [];
    assert MatchesIn([a], needle, mode) == if Selected(a, needle, mode) then [Match(1, a)] else [];
    assert MatchesIn([a, b], needle, mode) == MatchesIn([a], needle, mode)
      + (if Selected(b, needle, mode) then [Match(2, b)] else []);
  }

  lemma PoemLines()
    ensures Split(Poem) == ["Rust:", "safe, fast, productive.", "Pick three."]
  {
    assert Poem == "Rust:" + "\n" + "safe, fast, productive." + "\n" + "Pick three.";
    ThreeLines("Rust:", "safe, fast, productive.", "Pick three.");
  }

  lemma AnimalLines()
    ensures Split(Animals) == ["abicus", "anteater", "atlas"]
  {
    assert Animals == "abicus" + "\n" + "anteater" + "\n" + "atlas";
    ThreeLines("abicus", "anteater", "atlas");
  }

  /** Exactly the second of three lines is kept. */
  lemma OnlySecondKept(a: string, b: string, c: string, needle: string, mode: Mode)
    requires !Selected(a, needle, mode) && Selected(b, needle, mode) && !Selected(c, needle, mode)
    ensures Render(MatchesIn([a, b, c], needle, mode)) == [FormatRow(Match(2, b))]
  {
    MatchesOfThree(a, b, c, needle, mode);
  }

  /** None of three lines is kept. */
  lemma NoneKept(a: string, b: string, c: string, needle: string, mode: Mode)
    requires !Selected(a, needle, mode) && !Selected(b, needle, mode) && !Selected(c, needle, mode)
    ensures Render(MatchesIn([a, b, c], needle, mode)) == []
  {
    MatchesOfThree(a, b, c, needle, mode);
  }

  /** All three lines are kept. */
  lemma AllKept(a: string, b: string, c: string, needle: string, mode: Mode)
    requires Selected(a, needle, mode) && Selected(b, needle, mode) && Selected(c, needle, mode)
    ensures Render(MatchesIn([a, b, c], needle, mode))
      == [FormatRow(Match(1, a)), FormatRow(Match(2, b)), FormatRow(Match(3, c))]
  {
    MatchesOfThree(a, b, c, needle, mode);
  }

  lemma DuctInSecond()
    ensures Contains("safe, fast, productive.", "duct")
  {
    var l := "safe, fast, productive.";
    assert IsPrefix("duct", l[15..]);
    ContainsIffOccurs(l, "duct");
  }

  lemma DuctNotInFirst() ensures !Contains("Rust:", "duct") { FirstCharAbsent("Rust:", "duct"); }
  lemma DuctNotInThird() ensures !Contains("Pick three.", "duct") { FirstCharAbsent("Pick three.", "duct"); }
  lemma NothereNotInFirst() ensures !Contains("Rust:", "nothere") { FirstCharAbsent("Rust:", "nothere"); }
  lemma NothereNotInSecond() ensures !Contains("safe, fast, productive.", "nothere")
  {
    FirstCharAbsent("safe, fast, productive.", "nothere");
  }
  lemma NothereNotInThird() ensures !Contains("Pick three.", "nothere") { FirstCharAbsent("Pick three.", "nothere"); }
  lemma DuctNotInLoweredFirst() ensures !Contains("rust:", "duct") { FirstCharAbsent("rust:", "duct"); }
  lemma DuctNotInLoweredThird() ensures !Contains("pick three.", "duct") { FirstCharAbsent("pick three.", "duct"); }
  lemma NoNotInLoweredFirst() ensures !Contains("rust:", "no") { FirstCharAbsent("rust:", "no"); }
  lemma NoNotInLoweredSecond() ensures !Contains("safe, fast, productive.", "no")
  {
    FirstCharAbsent("safe, fast, productive.", "no");
  }
  lemma NoNotInLoweredThird() ensures !Contains("pick three.", "no") { FirstCharAbsent("pick three.", "no"); }

  lemma RowOne()
    ensures FormatRow(Match(1, "abicus")) == "1: abicus"
  {
  }

  lemma RowTwo()
    ensures FormatRow(Match(2, "safe, fast, productive.")) == "2: safe, fast, productive."
    ensures FormatRow(Match(2, "anteater")) == "2: anteater"
  {
  }

  lemma RowThree()
    ensures FormatRow(Match(3, "atlas")) == "3: atlas"
  {
  }

  lemma PoemDuctRows()
    ensures Render(MatchesIn(["Rust:", "safe, fast, productive.", "Pick three."], "duct", CaseSensitive))
      == [FormatRow(Match(2, "safe, fast, productive."))]
  {
    DuctNotInFirst();
    DuctInSecond();
    DuctNotInThird();
    OnlySecondKept("Rust:", "safe, fast, productive.", "Pick three.", "duct", CaseSensitive);
  }

  lemma PoemNothereRows()
    ensures Render(MatchesIn(["Rust:", "safe, fast, productive.", "Pick three."], "nothere", CaseSensitive)) == []
  {
    NothereNotInFirst();
    NothereNotInSecond();
    NothereNotInThird();
    NoneKept("Rust:", "safe, fast, productive.", "Pick three.", "nothere", CaseSensitive);
  }

  lemma AFirstInAnimals()
    ensures Contains("abicus", "a") && Contains("anteater", "a") && Contains("atlas", "a")
  {
  }

  lemma AnimalsLowered()
    ensures Lower("A") == "a"
    ensures Lower("abicus") == "abicus" && Lower("anteater") == "anteater" && Lower("atlas") == "atlas"
  {
  }

  lemma AnimalRowsSensitive()
    ensures Render(MatchesIn(["abicus", "anteater", "atlas"], "a", CaseSensitive))
      == [FormatRow(Match(1, "abicus")), FormatRow(Match(2, "anteater")), FormatRow(Match(3, "atlas"))]
  {
    AFirstInAnimals();
    AllKept("abicus", "anteater", "atlas", "a", CaseSensitive);
  }

  lemma AnimalRowsInsensitive()
    ensures Render(MatchesIn(["abicus", "anteater", "atlas"], "A", CaseInsensitive))
      == [FormatRow(Match(1, "abicus")), FormatRow(Match(2, "anteater")), FormatRow(Match(3, "atlas"))]
  {
    AFirstInAnimals();
    AnimalsLowered();
    AllKept("abicus", "anteater", "atlas", "A", CaseInsensitive);
  }

  lemma PoemLowered()
    ensures Lower("Rust:") == "rust:" && Lower("Pick three.") == "pick three."
    ensures Lower("safe, fast, productive.") == "safe, fast, productive."
    ensures Lower("DuCt") == "duct" && Lower("NO") == "no"
  {
  }

  lemma PoemDuctInsensitiveRows()
    ensures Render(MatchesIn(["Rust:", "safe, fast, productive.", "Pick three."], "DuCt", CaseInsensitive))
      == [FormatRow(Match(2, "safe, fast, productive."))]
  {
    PoemLowered();
    DuctNotInLoweredFirst();
    DuctInSecond();
    DuctNotInLoweredThird();
    OnlySecondKept("Rust:", "safe, fast, productive.", "Pick three.", "DuCt", CaseInsensitive);
  }

  lemma PoemNoInsensitiveRows()
    ensures Render(MatchesIn(["Rust:", "safe, fast, productive.", "Pick three."], "NO", CaseInsensitive)) == []
  {
    PoemLowered();
    NoNotInLoweredFirst();
    NoNotInLoweredSecond();
    NoNotInLoweredThird();
    NoneKept("Rust:", "safe, fast, productive.", "Pick three.", "NO", CaseInsensitive);
  }

  /** `case_sensitive_one_result`. */
  lemma CaseSensitiveOneResult()
    ensures Render(MatchesIn(Split(Poem), "duct", CaseSensitive)) == ["2: safe, fast, productive."]
  {
    PoemLines();
    PoemDuctRows();
    RowTwo();
  }

  /** `case_sensitive_no_result`. */
  lemma CaseSensitiveNoResult()
    ensures Render(MatchesIn(Split(Poem), "nothere", CaseSensitive)) == []
  {
    PoemLines();
    PoemNothereRows();
  }

  /** `case_sensitive_all_result`. */
  lemma CaseSensitiveAllResult()
    ensures Render(MatchesIn(Split(Animals), "a", CaseSensitive)) == ["1: abicus", "2: anteater", "3: atlas"]
  {
    AnimalLines();
    AnimalRowsSensitive();
    RowOne();
    RowTwo();
    RowThree();
  }

  /** `case_insensitive_one_result`. */
  lemma CaseInsensitiveOneResult()
    ensures Render(MatchesIn(Split(Poem), "DuCt", CaseInsensitive)) == ["2: safe, fast, productive."]
  {
    PoemLines();
    PoemDuctInsensitiveRows();
    RowTwo();
  }

  /** `case_insensitive_no_result`. */
  lemma CaseInsensitiveNoResult()
    ensures Render(MatchesIn(Split(Poem), "NO", CaseInsensitive)) == []
  {
    PoemLines();
    PoemNoInsensitiveRows();
  }

  /** `case_insensitive_all_result`. */
  lemma CaseInsensitiveAllResult()
    ensures Render(MatchesIn(Split(Animals), "A", CaseInsensitive)) == ["1: abicus", "2: anteater", "3: atlas"]
  {
    AnimalLines();
    AnimalRowsInsensitive();
    RowOne();
    RowTwo();
    RowThree();
  }
}
