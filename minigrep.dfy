/** The library crate (src/lib.rs): configuration from the command line and
    the environment, the two line matchers, and the mode dispatch of `run`. */
module Minigrep {
  import opened Strings
  import opened Lines
  import opened Matching
  import opened Wrappers

  const MissingNeedle: string := "missing required parameter `needle`"
  const MissingHaystack: string := "missing required parameter `haystack`"

  /** What to search for, where, and in which case mode. */
  datatype Config = Config(needle: string, haystack: string, caseSensitive: bool)

  /** The process arguments as an iterator: the argument vector (program
      name first) and how many of its items have been taken. */
  class ArgsIter {
    const items: seq<string>
    var pos: nat

    ghost predicate Valid()
      reads this
    {
      pos <= |items|
    }

    /** The items not yet taken. */
    function Remaining(): seq<string>
      reads this
      requires Valid()
    {
      items[pos..]
    }

    constructor (args: seq<string>)
      ensures Valid() && items == args && Remaining() == args
    {
      items := args;
      pos := 0;
    }

    /** Takes the next item, or gives `None` once all are taken. */
    method Next() returns (x: Option<string>)
      requires Valid()
      modifies this
      ensures Valid()
      ensures old(Remaining()) == [] ==> x == None && Remaining() == []
      ensures old(Remaining()) != [] ==> x == Some(old(Remaining())[0]) && Remaining() == old(Remaining())[1..]
    {
      if pos == |items| {
        x := None;
      } else {
        x := Some(items[pos]);
        pos := pos + 1;
      }
    }
  }

  /** `Config::new`: skips the program name, takes the needle and then the
      haystack, each with its own error when missing, and ignores anything
      after them. `caseInsensitiveSet` says whether the `CASE_INSENSITIVE`
      lookup succeeded; matching is case-sensitive exactly when it did not. */
  method NewConfig(args: seq<string>, caseInsensitiveSet: bool) returns (r: Result<Config, string>)
    ensures |args| <= 1 ==> r == Err(MissingNeedle)
    ensures |args| == 2 ==> r == Err(MissingHaystack)
    ensures |args| >= 3 ==> r == Ok(Config(args[1], args[2], !caseInsensitiveSet))
  {
    var it := new ArgsIter(args);
    var programName := it.Next();
    var needle := it.Next();
    if needle.None? {
      return Err(MissingNeedle);
    }
    var haystack := it.Next();
    if haystack.None? {
      return Err(MissingHaystack);
    }
    r := Ok(Config(needle.value, haystack.value, !caseInsensitiveSet));
  }

  /** The rows for the first `i + 1` lines are those for the first `i` lines,
      followed by the row of line `i + 1` when it is kept. */
  lemma RowsExtend(lines: seq<string>, i: nat, needle: string, mode: Mode)
    requires i < |lines|
    ensures Render(MatchesIn(lines[..i + 1], needle, mode))
      == Render(MatchesIn(lines[..i], needle, mode))
        + (if Selected(lines[i], needle, mode) then [FormatRow(Match(i + 1, lines[i]))] else [])
  {
    assert lines[..i + 1][..i] == lines[..i];
  }

  /** `search`: the `"<n>: <line>"` rows of the lines that contain `needle`. */
  method Search(content: string, needle: string) returns (results: seq<string>)
    ensures results == Render(MatchesIn(Split(content), needle, CaseSensitive))
  {
    results := [];
    var lines := Split(content);
    for lineNo := 0 to |lines|
      invariant results == Render(MatchesIn(lines[..lineNo], needle, CaseSensitive))
    {
      var line := lines[lineNo];
      RowsExtend(lines, lineNo, needle, CaseSensitive);
      if Contains(line, needle) {
        results := results + [FormatRow(Match(lineNo + 1, line))];
      }
    }
    assert lines[..|lines|] == lines;
  }

  /** `search_case_insensitive`: the needle is lowered once, each line is
      lowered for the test, and the row carries the line as it was. */
  method SearchCaseInsensitive(content: string, needle: string) returns (results: seq<string>)
    ensures results == Render(MatchesIn(Split(content), needle, CaseInsensitive))
  {
    results := [];
    var query := Lower(needle);
    var lines := Split(content);
    for lineNo := 0 to |lines|
      invariant results == Render(MatchesIn(lines[..lineNo], needle, CaseInsensitive))
    {
      var line := lines[lineNo];
      RowsExtend(lines, lineNo, needle, CaseInsensitive);
      if Contains(Lower(line), query) {
        results := results + [FormatRow(Match(lineNo + 1, line))];
      }
    }
    assert lines[..|lines|] == lines;
  }

  /** The matching step of `run` on the haystack's text: `search` when the
      configuration is case-sensitive, `search_case_insensitive` otherwise. */
  method Run(config: Config, content: string) returns (rows: seq<string>)
    ensures config.caseSensitive ==> rows == Render(MatchesIn(Split(content), config.needle, CaseSensitive))
    ensures !config.caseSensitive ==> rows == Render(MatchesIn(Split(content), config.needle, CaseInsensitive))
  {
    if config.caseSensitive {
      rows := Search(content, config.needle);
    } else {
      rows := SearchCaseInsensitive(content, config.needle);
    }
  }
}
