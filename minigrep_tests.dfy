/**
 The two unit tests of the search functions, stated as lemmas about the
 model. The test contents are written with a `\` line continuation, so the
 first line has no indentation and each later line starts with eight spaces;
 the constants below spell out the same text line by line.
 */
module MinigrepTests {
  import opened Str
  import opened Seqs
  import opened Minigrep

  const Indent: string := "        "

  /** The three lines both tests start with, as they appear in the contents. */
  const Rust: string := "Rust:"
  const Safe: string := Indent + "safe, fast, productive."
  const Pick: string := Indent + "Pick three."

  /** The last line of each test's contents. */
  const Duct: string := Indent + "Duct tape."
  const Trust: string := Indent + "Trust me."

  const Opening: string := "Rust:\n" + Indent + "safe, fast, productive.\n" + Indent + "Pick three.\n"

  /** The contents of the test `one_result`. */
  const DuctContents: string := Opening + Indent + "Duct tape."

  /** The contents of the test `case_insensitive`. */
  const TrustContents: string := Opening + Indent + "Trust me."

  lemma OpeningLines()
    ensures Opening == Unlines([Rust, Safe, Pick])
  {
    assert Unlines([Pick]) == Pick + "\n" by { assert [Pick][1..] == []; assert Pick + "\n" + [] == Pick + "\n"; }
    assert Unlines([Safe, Pick]) == Safe + "\n" + (Pick + "\n") by { assert [Safe, Pick][1..] == [Pick]; }
    assert [Rust, Safe, Pick][1..] == [Safe, Pick];
    assert "Rust:\n" == Rust + "\n";
    assert "safe, fast, productive.\n" == "safe, fast, productive." + "\n";
    assert "Pick three.\n" == "Pick three." + "\n";
  }

  lemma {:induction false} DuctLines()
    ensures Lines(DuctContents) == [Rust, Safe, Pick, Duct]
  {
    OpeningLines();
    assert DuctContents == Unlines([Rust, Safe, Pick]) + Duct;
    LinesUnlinesLast([Rust, Safe, Pick], Duct);
  }

  lemma {:induction false} TrustLines()
    ensures Lines(TrustContents) == [Rust, Safe, Pick, Trust]
  {
    OpeningLines();
    assert TrustContents == Unlines([Rust, Safe, Pick]) + Trust;
    LinesUnlinesLast([Rust, Safe, Pick], Trust);
  }

  /** Only the second line contains "duct"; the others have no "d" at all. */
  lemma {:induction false} DuctMatches()
    ensures Filter([Rust, Safe, Pick, Duct], ContainsQuery("duct")) == [Safe]
  {
    var keep := ContainsQuery("duct");
    NotContainsWithoutFirst(Rust, "duct");
    NotContainsWithoutFirst(Pick, "duct");
    NotContainsWithoutFirst(Duct, "duct");
    assert !keep(Rust) && !keep(Pick) && !keep(Duct);
    assert keep(Safe) by { assert OccursAt(Safe, "duct", 23); }
    var ls := [Rust, Safe, Pick, Duct];
    assert Filter([Duct], keep) == [] by { assert [Duct][1..] == []; }
    assert Filter([Pick, Duct], keep) == [] by { assert [Pick, Duct][1..] == [Duct]; }
    assert Filter([Safe, Pick, Duct], keep) == [Safe] by { assert [Safe, Pick, Duct][1..] == [Pick, Duct]; }
    assert ls[1..] == [Safe, Pick, Duct];
  }

  lemma TrimSafe()
    ensures Trim(Safe) == "safe, fast, productive."
  {
    TrimPadded(Indent, "safe, fast, productive.", "");
    assert Safe + "" == Safe;
  }

  /** `one_result`: "duct" picks out the second line only; "Duct tape." differs in case. */
  lemma {:induction false} OneResult()
    ensures Search("duct", DuctContents) == ["safe, fast, productive."]
  {
    DuctLines();
    DuctMatches();
    TrimSafe();
    MapPair(Trim, Safe, Safe);
  }

  /** Lowercasing a word that starts with a capital letter. */
  lemma LowerCapitalized(first: char, rest: string, prefix: string)
    requires 'A' <= first <= 'Z'
    requires forall i :: 0 <= i < |rest| ==> !IsAsciiUpper(rest[i])
    requires forall i :: 0 <= i < |prefix| ==> !IsAsciiUpper(prefix[i])
    ensures Lower(prefix + [first] + rest) == prefix + [(first as int + 32) as char] + rest
  {
    LowerAppend(prefix + [first], rest);
    LowerAppend(prefix, [first]);
    LowerUnchanged(prefix);
    LowerUnchanged(rest);
  }

  lemma LowerQuery()
    ensures Lower("RuSt") == "rust"
  {
    LowerAppend("R", "uSt");
    LowerAppend("u", "St");
    LowerAppend("S", "t");
  }

  /** "r" starts "roductive." but is followed by "o". */
  lemma NoRustInSafe()
    ensures !Contains(Lower(Safe), "rust")
  {
    LowerUnchanged(Safe);
    var q := "roductive.";
    NotContainsWithoutFirst("oductive.", "rust");
    NotContainsCons('r', "oductive.", "rust");
    assert q == ['r'] + "oductive.";
    assert Safe == Indent + "safe, fast, p" + q;
    NotContainsAppend(Indent + "safe, fast, p", q, "rust");
  }

  /** "r" in "three" is followed by "e". */
  lemma NoRustInPick()
    ensures !Contains(Lower(Pick), "rust")
  {
    LowerCapitalized('P', "ick three.", Indent);
    assert Lower(Pick) == Indent + "pick th" + "ree.";
    var q := "ree.";
    NotContainsWithoutFirst("ee.", "rust");
    NotContainsCons('r', "ee.", "rust");
    assert q == ['r'] + "ee.";
    NotContainsAppend(Indent + "pick th", q, "rust");
  }

  lemma RustInRust()
    ensures Contains(Lower(Rust), "rust")
  {
    LowerCapitalized('R', "ust:", "");
    assert Lower(Rust) == "rust:";
    assert OccursAt("rust:", "rust", 0);
  }

  lemma RustInTrust()
    ensures Contains(Lower(Trust), "rust")
  {
    LowerCapitalized('T', "rust me.", Indent);
    assert Lower(Trust) == Indent + "trust me.";
    assert Indent + "trust me." == Indent + "t" + "rust" + " me.";
    ContainsInfix(Indent + "t", "rust", " me.");
  }

  /** Ignoring case, "RuSt" occurs in the first and the last line only. */
  lemma {:induction false} TrustMatches()
    ensures Filter([Rust, Safe, Pick, Trust], ContainsQueryIgnoringCase("RuSt")) == [Rust, Trust]
  {
    var keep := ContainsQueryIgnoringCase("RuSt");
    LowerQuery();
    RustInRust();
    NoRustInSafe();
    NoRustInPick();
    RustInTrust();
    assert keep(Rust) && !keep(Safe) && !keep(Pick) && keep(Trust);
    var ls := [Rust, Safe, Pick, Trust];
    assert Filter([Trust], keep) == [Trust] by { assert [Trust][1..] == []; }
    assert Filter([Pick, Trust], keep) == [Trust] by { assert [Pick, Trust][1..] == [Trust]; }
    assert Filter([Safe, Pick, Trust], keep) == [Trust] by { assert [Safe, Pick, Trust][1..] == [Pick, Trust]; }
    assert ls[1..] == [Safe, Pick, Trust];
  }

  lemma TrimRust()
    ensures Trim(Rust) == "Rust:"
  {
    TrimOfTrimmed(Rust);
  }

  lemma TrimTrust()
    ensures Trim(Trust) == "Trust me."
  {
    TrimPadded(Indent, "Trust me.", "");
    assert Trust + "" == Trust;
  }

  /** `case_insensitive`: "RuSt" finds "Rust:" and "Trust me.", reported in their own case. */
  lemma {:induction false} CaseInsensitive()
    ensures SearchCaseInsensitive("RuSt", TrustContents) == ["Rust:", "Trust me."]
  {
    TrustLines();
    TrustMatches();
    TrimRust();
    TrimTrust();
    MapPair(Trim, Rust, Trust);
  }
}
