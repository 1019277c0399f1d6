# minigrep in Dafny

minigrep is a small command-line search tool. It is called as
`minigrep QUERY FILENAME`, reads the file, and prints every line that
contains `QUERY`. Each printed line has its surrounding whitespace trimmed,
and lines come out in file order. When the environment variable
`CASE_INSENSITIVE` is set, the search ignores case.

This project models the library part of the program, `src/lib.rs`:

- `Config::new`, which turns the command line into a configuration or one of
  two error messages;
- `search` and `search_case_insensitive`, which pick out the matching lines;
- the choice `run` makes between the two searches.

It proves what each of these computes.

The project has four modules:

- `Str` (`str.dfy`): the parts of Rust's string library the search uses,
  written out over `seq<char>`. These are `str::lines`, `str::trim`,
  `str::to_lowercase` (ASCII letters only) and `str::contains`, each with
  lemmas that pin down its meaning.
- `Seqs` (`seqs.dfy`): the iterator adapters `filter` and `map` as functions
  on sequences, with lemmas saying which positions a filter keeps and in what
  order.
- `Minigrep` (`minigrep.dfy`): `Config` and its construction, both searches,
  and the dispatch in `run`.
  - `Config::new` appears twice. `Resolve` is a function over the whole
    argument list. `NewConfig` is a method that calls `next()` on an
    argument iterator, as the source does, and is proved to compute `Resolve`.
  - The search pipeline `lines().filter(..).map(trim).collect()` becomes
    `Map(Trim, Filter(Lines(contents), ..))`.
- `MinigrepTests` (`minigrep_tests.dfy`): the two unit tests in
  `src/lib.rs` stated as lemmas and proved.

A `Config` (`Minigrep.Config`, the struct at src/lib.rs:19-23) holds the
query, the file name and the `case_sensitive` flag. Two facts about the code
shape the model:

- `case_sensitive` is `env::var("CASE_INSENSITIVE").is_err()`
  (src/lib.rs:39). When the variable is unset the search is exact. When it is
  set to any value, including the empty string, the search ignores case.
  `Resolve` and `RunSearchMode` state this polarity.
- Both test literals open with a `\` line continuation (src/lib.rs:64, 76).
  That removes the indentation of the first line only, so lines 2 to 4 keep
  eight leading spaces. The test lemmas use that text, and this is why the
  expected results are the trimmed lines.

## Model

| member | source | states |
|---|---|---|
| Minigrep.Resolve | src/lib.rs:26-41 | fewer than two arguments gives exactly `Err("didnt get a query string")`; exactly two gives exactly `Err("didnt get filename")`; three or more gives `Ok(config)` with the query and file name taken from the second and third arguments; `caseSensitive` holds exactly when `CASE_INSENSITIVE` is not set |
| Minigrep.ResolveIgnoresExtra | src/lib.rs:27-37 | arguments after the file name do not change the result |
| Minigrep.ArgIterator.constructor | src/lib.rs:26 | the iterator starts with all the process arguments |
| Minigrep.ArgIterator.Next | src/lib.rs:27-35 | `next()` returns the first remaining argument and removes it, or returns `None` and changes nothing when none remain |
| Minigrep.NewConfig | src/lib.rs:26-41 | the three `next()` calls with their early returns compute `Resolve` of the arguments; the iterator loses at most its first three arguments |
| Minigrep.Search | src/lib.rs:54-56 | no more results than lines, and every result is trimmed |
| Minigrep.SearchCaseInsensitive | src/lib.rs:44-52 | no more results than lines, and every result is trimmed |
| Minigrep.SearchLines | src/lib.rs:54-56 | the k-th result of `search` is the trimmed line at the k-th of a strictly increasing list of positions; a line's position is in that list exactly when the untrimmed line contains the query |
| Minigrep.SearchCaseInsensitiveLines | src/lib.rs:44-52 | the same for `search_case_insensitive`: a line is kept exactly when its lowercase form contains the lowercase query, and it is reported in its original case, trimmed |
| Minigrep.SearchEmptyContents | src/lib.rs:44-56 | empty contents give no results for either search |
| Minigrep.SearchEmptyQuery | src/lib.rs:44-56 | the empty query makes both searches return every line, trimmed |
| Minigrep.SearchWithinCaseInsensitive | src/lib.rs:44-56 | with the model's ASCII lowercasing, the case-sensitive results are a subsequence of the case-insensitive ones for the same query and contents, so there are never more of them |
| Minigrep.TwoLines | src/lib.rs:55 | the text `"x \ny"` has the lines `"x "` and `"y"` |
| Minigrep.TrimTrailingSpace | src/lib.rs:55 | `"x "` trims to `"x"` |
| Minigrep.KeptBeforeTrimming | src/lib.rs:55 | the line `"x "` passes the containment test for `"x "` and the line `"y"` fails it, while the trimmed `"x"` would fail it |
| Minigrep.SearchMatchesBeforeTrimming | src/lib.rs:55 | the query is tested against the untrimmed line (`"x "` matches the line `"x "`) and trimming happens afterwards (the reported `"x"` no longer contains `"x "`) |
| Minigrep.Results | src/lib.rs:7-11 | `run` uses `search` when the configuration is case sensitive and `search_case_insensitive` otherwise |
| Minigrep.RunSearchMode | src/lib.rs:7-11 | from the command line: the search is exact when `CASE_INSENSITIVE` is unset and ignores case when it is set; either way it looks for the second argument |
| Seqs.Filter | src/lib.rs:55 | `filter` keeps no more elements than it is given, and every kept element is from the input and passes the test |
| Seqs.Map | src/lib.rs:55 | `map` keeps the length and applies the function at every position |
| Seqs.FilterPositions | src/lib.rs:55 | `filter` keeps exactly the elements that pass the test, at strictly increasing positions, in input order |
| Seqs.FilterAll | src/lib.rs:55 | a filter that every element passes changes nothing |
| Seqs.FilterWeaker | src/lib.rs:49 | a weaker test keeps a supersequence of what a stronger test keeps |
| Seqs.MapSubsequence | src/lib.rs:50 | `map` preserves being a subsequence |
| Seqs.SubsequenceLength | src/lib.rs:44-56 | a subsequence is never longer than its supersequence |
| Str.Lines | src/lib.rs:55 | `str::lines` gives no more lines than there are characters, none exactly for the empty text, and no line containing `\n` |
| Str.LinesCons | src/lib.rs:55 | text split at its first `\n` gives the line before it, without a final `\r`, followed by the lines after it |
| Str.LinesUnlines | src/lib.rs:55 | lines joined with a `\n` after each are read back unchanged, with no extra empty line at the end |
| Str.LinesLast | src/lib.rs:55 | text without `\n` is a single line |
| Str.LinesUnlinesLast | src/lib.rs:55 | terminated lines followed by one unterminated line are read back unchanged |
| Str.IndexOf | src/lib.rs:55 | the position of the first `\n` (or the end), with none before it |
| Str.StripCr | src/lib.rs:55 | one trailing `\r` is removed and nothing else |
| Str.Trim | src/lib.rs:55 | `trim` returns a slice of the line that neither starts nor ends with whitespace, with only whitespace cut off before and after it |
| Str.TrimStart | src/lib.rs:55 | the suffix left once leading whitespace is removed, with no whitespace at its start |
| Str.TrimEnd | src/lib.rs:55 | the prefix left once trailing whitespace is removed, with no whitespace at its end |
| Str.LeadingWhitespace | src/lib.rs:55 | the length of the longest whitespace prefix |
| Str.TrailingWhitespace | src/lib.rs:55 | the length of the longest whitespace suffix |
| Str.LeadingOfPadded | src/lib.rs:55 | the leading whitespace of whitespace padding in front of non-whitespace is exactly the padding |
| Str.TrailingOfPadded | src/lib.rs:55 | the trailing whitespace of non-whitespace followed by whitespace padding is exactly the padding |
| Str.TrimPadded | src/lib.rs:55 | trimming removes exactly the whitespace padding around an already trimmed string |
| Str.TrimIdempotent | src/lib.rs:55 | trimming twice is the same as trimming once |
| Str.TrimOfTrimmed | src/lib.rs:55 | a trimmed string is its own trim |
| Str.IsWhitespace | src/lib.rs:55 | `char::is_whitespace`, the set `trim` removes: among ASCII characters exactly tab, line feed, vertical tab, form feed, carriage return and space, plus the other Unicode White_Space characters |
| Str.TrimEndOfTrimStart | src/lib.rs:55 | cutting the leading and then the trailing whitespace leaves a trimmed slice with only whitespace around it |
| Str.LowerChar | src/lib.rs:49 | the lowercase of one character: never an ASCII capital; a capital `A`..`Z` moves to its small letter, anything else is unchanged |
| Str.Lower | src/lib.rs:49 | `str::to_lowercase` (ASCII model): same length, each character lowercased on its own |
| Str.Contains | src/lib.rs:49 | `str::contains` with a string pattern: some slice of the text equals the pattern, so the pattern is no longer than the text |
| Minigrep.ContainsQuery | src/lib.rs:55 | the `filter` closure of `search` keeps a line exactly when it contains the query |
| Minigrep.ContainsQueryIgnoringCase | src/lib.rs:49 | the `filter` closure of `search_case_insensitive` keeps a line exactly when its lowercase form contains the lowercase query |
| Seqs.MapPair | src/lib.rs:50 | `map` over one or two elements gives the function's value at each |
| Seqs.ConsElements | src/lib.rs:55 | one step of `FilterPositions`: the shifted positions pick out the filter's results |
| Seqs.ConsMembership | src/lib.rs:55 | one step of `FilterPositions`: a position is kept exactly when its element passes the test |
| Str.LowerIsLowercase | src/lib.rs:49 | `to_lowercase` leaves no uppercase ASCII letter, and applying it twice is the same as once |
| Str.LowerUnchanged | src/lib.rs:49 | a string without uppercase letters is unchanged by `to_lowercase` |
| Str.LowerAppend | src/lib.rs:49 | `to_lowercase` distributes over concatenation |
| Str.ContainsInfix | src/lib.rs:49 | `contains` holds for any text that has the pattern written between a prefix and a suffix |
| Str.ContainsSplit | src/lib.rs:49 | conversely, text that `contains` the pattern is a prefix, the pattern and a suffix |
| Str.ContainsLower | src/lib.rs:49 | an exact match is still a match once both sides are lowercased |
| Str.NotContainsAppend | src/lib.rs:49 | a pattern cannot start inside a prefix that lacks its first character |
| Str.NotContainsWithoutFirst | src/lib.rs:49 | text without the pattern's first character does not contain the pattern |
| Str.NotContainsCons | src/lib.rs:49 | a pattern whose second character differs from the text's second character cannot match at its front |
| MinigrepTests.OpeningLines | src/lib.rs:64-67 | the first three lines of the test contents, each followed by `\n` |
| MinigrepTests.DuctLines | src/lib.rs:64-68 | the `one_result` contents have the four lines `Rust:` and the three indented ones |
| MinigrepTests.TrustLines | src/lib.rs:76-80 | the `case_insensitive` contents have the four lines `Rust:` and the three indented ones |
| MinigrepTests.DuctMatches | src/lib.rs:63-68 | of those four lines, only the one with `productive.` contains `duct` |
| MinigrepTests.TrimSafe | src/lib.rs:66 | that line trims to `safe, fast, productive.` |
| MinigrepTests.OneResult | src/lib.rs:62-71 | `search("duct", ..)` returns exactly `["safe, fast, productive."]`; `Duct tape.` is not matched because of its case |
| MinigrepTests.LowerCapitalized | src/lib.rs:49 | lowercasing a word with one leading capital changes only that letter |
| MinigrepTests.LowerQuery | src/lib.rs:75 | the query `RuSt` lowercases to `rust` |
| MinigrepTests.NoRustInSafe | src/lib.rs:78 | the lowercased line `safe, fast, productive.` does not contain `rust` |
| MinigrepTests.NoRustInPick | src/lib.rs:79 | the lowercased line `Pick three.` does not contain `rust` |
| MinigrepTests.RustInRust | src/lib.rs:77 | the lowercased line `Rust:` contains `rust` |
| MinigrepTests.RustInTrust | src/lib.rs:80 | the lowercased line `Trust me.` contains `rust` |
| MinigrepTests.TrustMatches | src/lib.rs:75-80 | ignoring case, `RuSt` matches the first and the last line only |
| MinigrepTests.TrimRust | src/lib.rs:77 | `Rust:` is already trimmed |
| MinigrepTests.TrimTrust | src/lib.rs:80 | the last line trims to `Trust me.` |
| MinigrepTests.CaseInsensitive | src/lib.rs:73-83 | `search_case_insensitive("RuSt", ..)` returns exactly `["Rust:", "Trust me."]`, in the lines' own case |

## Left out

- Reading the file (`fs::read_to_string`, src/lib.rs:6) is left out, and so is the error it can return. The contents are a parameter of `Results`.
- Printing the results (src/lib.rs:13-15) is left out; `Results` is the sequence `run` prints.
- `src/main.rs` is not part of this model: its error messages on standard error and its exit codes 1 and 2.
- Reading the environment is left out. Whether `CASE_INSENSITIVE` is set is a boolean parameter. A value that is not valid Unicode makes `env::var` fail, and so counts as unset; the boolean stands for the outcome of that call.
- Arguments that are not valid Unicode are left out: `env::Args` panics while iterating over one, so `Config::new` (src/lib.rs:27-33) panics instead of returning a `Result`. A `seq<string>` cannot hold such an argument, so `Resolve` and `NewConfig` always return.
- Str.Lower: covers only the ASCII letters, one character at a time. Rust's `str::to_lowercase` also lowercases non-ASCII letters, sometimes into several characters, and it depends on context: a capital sigma `Σ` at the end of a word becomes `ς`, elsewhere `σ`. The Unicode tables and that rule are not part of this model.
- Minigrep.SearchWithinCaseInsensitive: holds for the ASCII, character-by-character `Lower` of this model, not for Rust's `to_lowercase`. With query `Σ` and contents `ΑΣ`, `search` keeps the line, but `search_case_insensitive` drops it, because `ας` does not contain `σ`.
- Str.Lines: follows the long-standing behaviour of `str::lines`, which removes a final `\r` from every line, including an unterminated last line. Recent Rust versions keep a lone `\r` at the very end of the text.
- Borrowing and lifetimes are left out: results are strings, not slices borrowed from `contents`. `Str.Trim` does state that each result is a slice of its line.
