/**
 minigrep: resolve the command line into a configuration, then report the
 lines of a file's contents that contain the query, trimmed, in file order,
 either exactly or ignoring case.
 */
module Minigrep {
  import opened Str
  import opened Seqs

  datatype Option<T> = None | Some(value: T)

  datatype Result<T, E> = Ok(value: T) | Err(error: E)

  /** What the program was asked to do. */
  datatype Config = Config(query: string, filename: string, caseSensitive: bool)

  /** The two messages `Config::new` fails with. */
  const MissingQuery: string := "didnt get a query string"
  const MissingFilename: string := "didnt get filename"

  // ---------------------------------------------------------------------
  // Argument resolution
  // ---------------------------------------------------------------------

  /**
   `Config::new` over the whole argument list `args` (the program name
   first). `caseInsensitiveSet` says whether `env::var("CASE_INSENSITIVE")`
   succeeds, that is, whether the variable is set to a Unicode value. The
   program name is skipped, the next two arguments are the query and the file
   name, and anything after them is ignored.
   */
  function Resolve(args: seq<string>, caseInsensitiveSet: bool): (r: Result<Config, string>)
    ensures r == Err(MissingQuery) <==> |args| < 2
    ensures r == Err(MissingFilename) <==> |args| == 2
    ensures r.Ok? <==> |args| >= 3
    ensures r.Ok? ==> r.value.query == args[1] && r.value.filename == args[2]
    ensures r.Ok? ==> (r.value.caseSensitive <==> !caseInsensitiveSet)
  {
    if |args| < 2 then Err(MissingQuery)
    else if |args| < 3 then Err(MissingFilename)
    else Ok(Config(args[1], args[2], !caseInsensitiveSet))
  }

  /** Arguments after the file name make no difference. */
  lemma ResolveIgnoresExtra(args: seq<string>, extra: seq<string>, caseInsensitiveSet: bool)
    requires |args| >= 3
    ensures Resolve(args + extra, caseInsensitiveSet) == Resolve(args, caseInsensitiveSet)
  {
    assert (args + extra)[1] == args[1] && (args + extra)[2] == args[2];
  }

  /** The process arguments, consumed front to back as `env::Args` is. */
  class ArgIterator {
    var rest: seq<string>

    constructor (args: seq<string>)
      ensures rest == args
    {
      rest := args;
    }

    /** `Iterator::next`: the next argument, or `None` once all are taken. */
    method Next() returns (arg: Option<string>)
      modifies this
      ensures old(rest) == [] ==> arg == None && rest == []
      ensures old(rest) != [] ==> arg == Some(old(rest)[0]) && rest == old(rest)[1..]
    {
      if rest == [] {
        arg := None;
      } else {
        arg := Some(rest[0]);
        rest := rest[1..];
      }
    }
  }

  /**
   `Config::new` as the source writes it: one `next()` for the program name,
   one for the query, one for the file name, returning early when an argument
   is missing. It computes `Resolve` of the arguments it was given, and takes
   no more of them than the three it reads.
   */
  method NewConfig(args: ArgIterator, caseInsensitiveSet: bool) returns (r: Result<Config, string>)
    modifies args
    ensures r == Resolve(old(args.rest), caseInsensitiveSet)
    ensures args.rest == old(args.rest)[if |old(args.rest)| < 3 then |old(args.rest)| else 3..]
  {
    var name := args.Next();
    var query := args.Next();
    if query.None? {
      return Err(MissingQuery);
    }
    var filename := args.Next();
    if filename.None? {
      return Err(MissingFilename);
    }
    r := Ok(Config(query.value, filename.value, !caseInsensitiveSet));
  }

  // ---------------------------------------------------------------------
  // Search
  // ---------------------------------------------------------------------

  /** The test `search` applies to each line: it contains the query exactly. */
  function ContainsQuery(query: string): (keep: string -> bool)
    ensures forall line :: keep(line) <==> Contains(line, query)
  {
    line => Contains(line, query)
  }

  /** The test `search_case_insensitive` applies: the lowercased line contains the lowercased query. */
  function ContainsQueryIgnoringCase(query: string): (keep: string -> bool)
    ensures forall line :: keep(line) <==> Contains(Lower(line), Lower(query))
  {
    line => Contains(Lower(line), Lower(query))
  }

  /** `search`: the lines of `contents` that contain `query`, each trimmed. */
  function Search(query: string, contents: string): (r: seq<string>)
    ensures |r| <= |Lines(contents)|
    ensures forall k :: 0 <= k < |r| ==> IsTrimmed(r[k])
  {
    Map(Trim, Filter(Lines(contents), ContainsQuery(query)))
  }

  /**
   `search_case_insensitive`: the lines of `contents` whose lowercase form
   contains the lowercase query, each trimmed in its original case.
   */
  function SearchCaseInsensitive(query: string, contents: string): (r: seq<string>)
    ensures |r| <= |Lines(contents)|
    ensures forall k :: 0 <= k < |r| ==> IsTrimmed(r[k])
  {
    Map(Trim, Filter(Lines(contents), ContainsQueryIgnoringCase(query)))
  }

  /**
   The result of `search`, line by line: `idx` lists, in increasing order,
   the positions of the lines of `contents` that contain `query` (before they
   are trimmed), every such position and no other, and the k-th result is the
   line at `idx[k]`, trimmed.
   */
  lemma {:induction false} SearchLines(query: string, contents: string) returns (idx: seq<nat>)
    ensures StrictlyIncreasing(idx)
    ensures |Search(query, contents)| == |idx|
    ensures forall k :: 0 <= k < |idx| ==>
              idx[k] < |Lines(contents)| && Search(query, contents)[k] == Trim(Lines(contents)[idx[k]])
    ensures forall i :: 0 <= i < |Lines(contents)| ==>
              (Contains(Lines(contents)[i], query) <==> i in idx)
  {
    var ls := Lines(contents);
    idx := FilterPositions(ls, ContainsQuery(query));
    forall i | 0 <= i < |ls| ensures ContainsQuery(query)(ls[i]) == Contains(ls[i], query) { }
  }

  /**
   The result of `search_case_insensitive`, line by line: as for `search`,
   with a line kept exactly when its lowercase form contains the lowercase
   query, and the line reported in its original case, trimmed.
   */
  lemma {:induction false} SearchCaseInsensitiveLines(query: string, contents: string) returns (idx: seq<nat>)
    ensures StrictlyIncreasing(idx)
    ensures |SearchCaseInsensitive(query, contents)| == |idx|
    ensures forall k :: 0 <= k < |idx| ==>
              idx[k] < |Lines(contents)|
              && SearchCaseInsensitive(query, contents)[k] == Trim(Lines(contents)[idx[k]])
    ensures forall i :: 0 <= i < |Lines(contents)| ==>
              (Contains(Lower(Lines(contents)[i]), Lower(query)) <==> i in idx)
  {
    var ls := Lines(contents);
    idx := FilterPositions(ls, ContainsQueryIgnoringCase(query));
    forall i | 0 <= i < |ls|
      ensures ContainsQueryIgnoringCase(query)(ls[i]) == Contains(Lower(ls[i]), Lower(query))
    { }
  }

  /** Empty contents have no lines, so nothing matches whatever the query. */
  lemma SearchEmptyContents(query: string)
    ensures Search(query, "") == []
    ensures SearchCaseInsensitive(query, "") == []
  {
  }

  /** The empty query occurs in every line: both searches return every line, trimmed. */
  lemma {:induction false} SearchEmptyQuery(contents: string)
    ensures Search("", contents) == Map(Trim, Lines(contents))
    ensures SearchCaseInsensitive("", contents) == Map(Trim, Lines(contents))
  {
    var ls := Lines(contents);
    forall k | 0 <= k < |ls| ensures ContainsQuery("")(ls[k]) {
      assert OccursAt(ls[k], "", 0);
    }
    FilterAll(ls, ContainsQuery(""));
    assert Lower("") == "";
    forall k | 0 <= k < |ls| ensures ContainsQueryIgnoringCase("")(ls[k]) {
      assert OccursAt(Lower(ls[k]), "", 0);
    }
    FilterAll(ls, ContainsQueryIgnoringCase(""));
  }

  /**
   Ignoring case loses no match: the case-sensitive result is the
   case-insensitive one with some lines left out and none reordered, so it is
   never longer.
   */
  lemma {:induction false} SearchWithinCaseInsensitive(query: string, contents: string)
    ensures SubsequenceOf(Search(query, contents), SearchCaseInsensitive(query, contents))
    ensures |Search(query, contents)| <= |SearchCaseInsensitive(query, contents)|
  {
    var ls := Lines(contents);
    forall k | 0 <= k < |ls|
      ensures ContainsQuery(query)(ls[k]) ==> ContainsQueryIgnoringCase(query)(ls[k])
    {
      if Contains(ls[k], query) {
        ContainsLower(ls[k], query);
      }
    }
    FilterWeaker(ls, ContainsQuery(query), ContainsQueryIgnoringCase(query));
    MapSubsequence(Trim, Filter(ls, ContainsQuery(query)), Filter(ls, ContainsQueryIgnoringCase(query)));
    SubsequenceLength(Search(query, contents), SearchCaseInsensitive(query, contents));
  }

  lemma TwoLines()
    ensures Lines("x \ny") == ["x ", "y"]
  {
    LinesCons("x ", "y");
    LinesLast("y");
    assert "x \ny" == "x " + "\n" + "y";
    assert StripCr("x ") == "x " && StripCr("y") == "y";
  }

  lemma TrimTrailingSpace()
    ensures Trim("x ") == "x"
  {
    assert "" + "x" + " " == "x ";
    TrimPadded("", "x", " ");
  }

  lemma {:induction false} KeptBeforeTrimming()
    ensures Filter(["x ", "y"], ContainsQuery("x ")) == ["x "]
    ensures !Contains("x", "x ")
  {
    assert Contains("x ", "x ") by { assert OccursAt("x ", "x ", 0); }
    NotContainsWithoutFirst("y", "x ");
    assert ["x ", "y"][1..] == ["y"] && ["y"][1..] == [];
  }

  /**
   The query is looked for in the line as it stands, and only the kept line
   is trimmed: "x " matches the line "x " and is reported as "x", which
   itself does not contain "x ".
   */
  lemma {:induction false} SearchMatchesBeforeTrimming()
    ensures Search("x ", "x \ny") == ["x"]
    ensures !Contains("x", "x ")
  {
    TwoLines();
    KeptBeforeTrimming();
    TrimTrailingSpace();
    MapPair(Trim, "x ", "x ");
  }

  // ---------------------------------------------------------------------
  // Dispatch in `run`
  // ---------------------------------------------------------------------

  /**
   The results `run` prints for the file contents `contents`: `search` when
   the configuration is case sensitive, `search_case_insensitive` otherwise.
   */
  function Results(config: Config, contents: string): (r: seq<string>)
    ensures config.caseSensitive ==> r == Search(config.query, contents)
    ensures !config.caseSensitive ==> r == SearchCaseInsensitive(config.query, contents)
  {
    if config.caseSensitive then Search(config.query, contents)
    else SearchCaseInsensitive(config.query, contents)
  }

  /**
   From the command line to the results: with CASE_INSENSITIVE unset the
   search is exact, with it set the search ignores case, and in both cases it
   looks for the first argument after the program name.
   */
  lemma RunSearchMode(args: seq<string>, caseInsensitiveSet: bool, contents: string)
    requires Resolve(args, caseInsensitiveSet).Ok?
    ensures !caseInsensitiveSet ==>
              Results(Resolve(args, caseInsensitiveSet).value, contents) == Search(args[1], contents)
    ensures caseInsensitiveSet ==>
              Results(Resolve(args, caseInsensitiveSet).value, contents) == SearchCaseInsensitive(args[1], contents)
  {
  }
}
