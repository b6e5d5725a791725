# minigrep in Dafny

A model of minigrep, a small command-line search tool. It prints each line of a
file that contains a search term (the *needle*), prefixed with the line's
1-based number. The repository has two crates that do not share code:

- the library (`src/lib.rs`). `Config::new` takes the needle and the file path
  (the *haystack*) from the command line. It reads the `CASE_INSENSITIVE`
  variable to pick a mode. `run` then calls `search` or
  `search_case_insensitive`.
- an older binary (`src/main.rs`). Its `Config::new` insists on exactly two
  arguments, and its `print_matches` prints matches as it scans.

The modules follow that structure:

| file | module | what it holds |
|---|---|---|
| `wrappers.dfy` | `Wrappers` | the `Option` and `Result` values the source's `next()` and `Config::new` return |
| `strings.dfy` | `Strings` | substring containment (`str::contains`) and lower-casing (`str::to_lowercase`) |
| `lines.dfy` | `Lines` | `split("\n")` as a recursive function, with its inverse `Join` |
| `decimal.dfy` | `Decimal` | the decimal rendering of a line number, and reading it back |
| `matching.dfy` | `Matching` | what the matcher computes: `MatchesIn`, the rows `"<n>: <line>"`, and what is proved about them |
| `minigrep.dfy` | `Minigrep` | `src/lib.rs`: the argument iterator, `Config::new`, `search`, `search_case_insensitive` and the mode dispatch of `run` |
| `minigrep_tests.dfy` | `MinigrepTests` | the six unit tests of `src/lib.rs`, as facts about the rows the matchers return |
| `minigrep_bin.dfy` | `MinigrepBin` | `src/main.rs`: the argument vector with `remove`, `Config::new` and `print_matches` |

Both search loops are methods. Each is proved to return
`Render(MatchesIn(Split(content), needle, mode))`. `MatchesIn` keeps the lines
that are `Selected`, numbers them from 1 and keeps them in file order. The
lemmas in `Matching` show that this result is sound, complete and strictly
increasing. `MatchesUnique` shows that these three properties determine it.
The binary's `print_matches` is proved to print exactly the rows of the
library's case-sensitive `search`.

The process environment is passed in as parameters:

- `env::args()` becomes a `seq<string>`, program name first.
- The outcome of `env::var("CASE_INSENSITIVE")` becomes a boolean.
- The file's text becomes a `string` argument of `Run`.
- Printing becomes a returned sequence of lines.

The library's `Config::new` ignores arguments after the haystack. Only the
binary's `Config::new` rejects extra arguments.

## Model

| member | source | states |
|---|---|---|
| `Strings.ContainsIffOccurs` | src/lib.rs:57 | the containment test holds exactly when some suffix of the line starts with the needle, i.e. the needle is a contiguous substring |
| `Strings.Lower` | src/lib.rs:67-69 | lower-casing keeps the length, leaves no ASCII capital, lowers each capital and keeps every other character |
| `Strings.ContainsLowered` | src/lib.rs:67-69 | under the model's ASCII lower-casing, a line containing the needle still contains it once both are lowered |
| `Lines.Split` | src/lib.rs:56 | splitting always yields at least one segment, also for the empty buffer |
| `Lines.SplitSegmentsHaveNoLF` | src/lib.rs:56 | no segment contains a line feed |
| `Lines.SplitCount` | src/lib.rs:56 | there is one more segment than there are line feeds |
| `Lines.JoinSplit` | src/lib.rs:56 | joining the segments with line feeds gives back the buffer, so no segment and no character (a carriage return included) is lost or moved |
| `Lines.SplitJoin` | src/lib.rs:56 | splitting the join of line-feed-free segments gives back those segments, so the split is the unique such decomposition |
| `Lines.TrailingLFGivesEmptyLast` | src/lib.rs:56 | a buffer ending in a line feed has at least two segments and its last segment is empty |
| `Lines.CarriageReturnKept` | src/lib.rs:56 | `a\r\nb` splits into `a\r` and `b`: a carriage return stays at the end of its line |
| `Decimal.NatToStringRoundTrip` | src/lib.rs:58 | the rendered line number is a non-empty run of digits without a leading zero that denotes the number |
| `Decimal.NatToStringInjective` | src/lib.rs:58 | different line numbers render differently |
| `Matching.MatchesSound` | src/lib.rs:56-59 | every entry names a line by its 1-based number, carries that line's original text, and that line is selected (contains the needle, or contains it after lowering in the case-insensitive mode) |
| `Matching.MatchesComplete` | src/lib.rs:56-60 | every selected line appears as an entry under its 1-based number |
| `Matching.MatchesOrdered` | src/lib.rs:56-61 | line numbers strictly increase along the result, so it is in file order with no duplicates |
| `Matching.MatchesCount` | src/lib.rs:56-60 | the result has exactly as many entries as there are selected lines |
| `Matching.ResultNoLongerThanLines` | src/lib.rs:56-61 | a sound result in file order has at most one entry per line |
| `Matching.MatchesUnique` | src/lib.rs:54-63 | any sequence of entries that is sound, complete and in file order equals the matcher's result |
| `Matching.EmptyNeedleSelectsAll` | src/lib.rs:57 | the empty needle selects every line in either mode: entry k is line k+1 under number k+1 |
| `Matching.InsensitiveCoversSensitive` | src/lib.rs:65-75 | with ASCII lower-casing, every entry of the case-sensitive result is also an entry of the case-insensitive result |
| `Matching.ParseFormatRow` | src/lib.rs:58 | a row `"<n>: <line>"` reads back as the number and the line, whatever the line contains |
| `Matching.RowsDescribeKeptLines` | src/lib.rs:56-59 | every returned row reads back as `"k: L"` where L is the k-th line (1-based) and L is selected |
| `Minigrep.ArgsIter.Next` | src/lib.rs:16-25 | `next()` yields the first argument not yet taken and advances past it, or yields nothing once all are taken |
| `Minigrep.NewConfig` | src/lib.rs:13-35 | with no argument after the program name it fails with the `needle` message, with one it fails with the `haystack` message, and with two or more it succeeds with the first two and ignores the rest; `case_sensitive` holds exactly when the `CASE_INSENSITIVE` lookup failed |
| `Minigrep.Search` | src/lib.rs:54-63 | the loop returns the rows `"<n>: <line>"` of the lines that contain the needle, numbered from 1, in file order |
| `Minigrep.SearchCaseInsensitive` | src/lib.rs:65-75 | the loop returns the rows of the lines whose lowered text contains the lowered needle, with the original unlowered text and the same numbering |
| `Minigrep.Run` | src/lib.rs:43-47 | when the configuration is case-sensitive the rows are those of the exact matcher, otherwise those of the lowered matcher |
| `MinigrepTests.CaseSensitiveOneResult` | src/lib.rs:101-110 | `"duct"` selects only `"2: safe, fast, productive."` |
| `MinigrepTests.CaseSensitiveNoResult` | src/lib.rs:112-121 | `"nothere"` selects nothing |
| `MinigrepTests.CaseSensitiveAllResult` | src/lib.rs:123-135 | `"a"` selects all three lines |
| `MinigrepTests.CaseInsensitiveOneResult` | src/lib.rs:137-149 | `"DuCt"`, case-insensitively, selects only line 2 |
| `MinigrepTests.CaseInsensitiveNoResult` | src/lib.rs:151-160 | `"NO"`, case-insensitively, selects nothing |
| `MinigrepTests.CaseInsensitiveAllResult` | src/lib.rs:162-174 | `"A"`, case-insensitively, selects all three lines |
| `MinigrepBin.ArgVec.Remove` | src/main.rs:15-16 | `remove(i)` returns the item at `i` and shifts the later items down by one place |
| `MinigrepBin.NewConfig` | src/main.rs:9-24 | it succeeds exactly when the vector has 3 items, program name included. The needle is the original `args[1]` and the haystack is the original `args[2]`. With 2 or fewer items it panics with the "Missing required parameters: needle, haystack" message. With more than 3 it panics with "Too many parameters" and carries the vector |
| `MinigrepBin.PrintMatches` | src/main.rs:38-45 | it prints exactly the `"<n>: <line>"` rows of the lines that contain the needle, in file order. These are the rows the library's case-sensitive `search` returns |

## Left out

- `get_content` in both crates (src/lib.rs:87-95, src/main.rs:47-52): reading the file is I/O. Its text is a parameter of `Run` and `PrintMatches`, and a read failure (exit status 1, or a panic) is not modelled.
- The library's `print_matches` (src/lib.rs:77-85): console output. It prints "Pattern not found!" to standard error when there are no rows, and otherwise prints each row in order. `Run` returns the rows it would print.
- The start-up announcements "Searching for … in …" (src/lib.rs:33 on standard error, src/main.rs:18 on standard output): console output.
- `main` in the binary and its exit codes (src/main.rs:27-36): orchestration of the pieces above.
- `env::args()` and `env::var("CASE_INSENSITIVE")` (src/lib.rs:15, src/lib.rs:30, src/main.rs:12): these reads of the process environment are parameters. `env::var` also fails for a value that is not valid Unicode, and that case also gives the case-sensitive mode.
- The text of the "Too many parameters passed: {:?}" panic (src/main.rs:23): the model carries the argument vector instead of its `Debug` rendering.
- `Strings.Lower`: lowers ASCII capitals only. Rust's `str::to_lowercase` follows full Unicode, which can change a string's length and depends on context (a Greek final sigma, for one). `Strings.ContainsLowered` and `Matching.InsensitiveCoversSensitive` hold for this model only; they are not claimed for full Unicode.
- `Strings.Contains`: substring search is given by its meaning, not by the algorithm Rust's standard library uses.
