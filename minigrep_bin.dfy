/** The binary crate (src/main.rs), an older copy of the pipeline that does
    not use the library: it checks the argument count itself and prints the
    matching lines as it finds them. */
module MinigrepBin {
  import opened Strings
  import opened Lines
  import opened Matching

  /** What to search for and where. */
  datatype Config = Config(needle: string, haystack: string)

  /** The two panics of `Config::new`: the first with its message, the
      second with the whole argument vector, which its message prints. */
  datatype Panic = MissingParameters(message: string) | TooManyParameters(args: seq<string>)

  datatype Outcome = Built(config: Config) | Panicked(panic: Panic)

  const MissingParametersMessage: string := "Missing required parameters: needle, haystack"

  /** The collected argument vector, a growable array of strings. */
  class ArgVec {
    var items: seq<string>

    constructor (args: seq<string>)
      ensures items == args
    {
      items := args;
    }

    /** `Vec::remove`: takes out the item at `i` and shifts the later ones
        down by one place. */
    method Remove(i: nat) returns (x: string)
      requires i < |items|
      modifies this
      ensures x == old(items)[i]
      ensures items == old(items)[..i] + old(items)[i + 1..]
    {
      x := items[i];
      items := items[..i] + items[i + 1..];
    }
  }

  /** `Config::new`: succeeds exactly when the vector holds the program name
      and two arguments. Both arguments are taken with `remove(1)`: the first
      removal shifts the haystack down to index 1, where the second finds it. */
  method NewConfig(argv: seq<string>) returns (r: Outcome)
    ensures r.Built? <==> |argv| == 3
    ensures |argv| == 3 ==> r == Built(Config(argv[1], argv[2]))
    ensures |argv| <= 2 ==> r == Panicked(MissingParameters(MissingParametersMessage))
    ensures |argv| > 3 ==> r == Panicked(TooManyParameters(argv))
  {
    var args := new ArgVec(argv);
    if |args.items| == 3 {
      var needle := args.Remove(1);
      var haystack := args.Remove(1);
      return Built(Config(needle, haystack));
    } else if |args.items| <= 2 {
      return Panicked(MissingParameters(MissingParametersMessage));
    }
    return Panicked(TooManyParameters(args.items));
  }

  /** `print_matches`: the lines it prints, in the order it prints them.
      They are the rows the library's case-sensitive `search` returns. */
  method PrintMatches(content: string, needle: string) returns (printed: seq<string>)
    ensures printed == Render(MatchesIn(Split(content), needle, CaseSensitive))
  {
    printed := [];
    var lines := Split(content);
    for lineNo := 0 to |lines|
      invariant printed == Render(MatchesIn(lines[..lineNo], needle, CaseSensitive))
    {
      var line := lines[lineNo];
      assert lines[..lineNo + 1][..lineNo] == lines[..lineNo];
      if Contains(line, needle) {
        printed := printed + [FormatRow(Match(lineNo + 1, line))];
      }
    }
    assert lines[..|lines|] == lines;
  }
}
