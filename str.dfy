/**
 The string operations of Rust's standard library that the search relies on:
 `str::lines`, `str::trim`, `str::to_lowercase` and `str::contains`, written
 out over `seq<char>`.
 */
module Str {

  /** Rust's `char::is_whitespace`: the Unicode White_Space property. */
  predicate IsWhitespace(c: char)
    ensures ('\t' <= c <= '\r' || c == ' ') ==> IsWhitespace(c)
    ensures IsWhitespace(c) && c < '\U{80}' ==> ('\t' <= c <= '\r' || c == ' ')
  {
    || ('\t' <= c <= '\r')                 // U+0009 .. U+000D
    || c == ' '
    || c == '\U{85}' || c == '\U{A0}' || c == '\U{1680}'
    || ('\U{2000}' <= c <= '\U{200A}')
    || c == '\U{2028}' || c == '\U{2029}' || c == '\U{202F}'
    || c == '\U{205F}' || c == '\U{3000}'
  }

  predicate AllWhitespace(s: string) {
    forall i :: 0 <= i < |s| ==> IsWhitespace(s[i])
  }

  /** Neither end of `s` is whitespace. */
  predicate IsTrimmed(s: string) {
    s == [] || (!IsWhitespace(s[0]) && !IsWhitespace(s[|s| - 1]))
  }

  /** Length of the whitespace run that starts `s`. */
  function LeadingWhitespace(s: string): (n: nat)
    ensures n <= |s| && AllWhitespace(s[..n])
    ensures n < |s| ==> !IsWhitespace(s[n])
  {
    if s == [] || !IsWhitespace(s[0]) then 0
    else
      var n' := LeadingWhitespace(s[1..]);
      assert s[1..][..n'] == s[1..n' + 1];
      n' + 1
  }

  /** Length of the whitespace run that ends `s`. */
  function TrailingWhitespace(s: string): (n: nat)
    ensures n <= |s| && AllWhitespace(s[|s| - n..])
    ensures n < |s| ==> !IsWhitespace(s[|s| - n - 1])
  {
    if s == [] || !IsWhitespace(s[|s| - 1]) then 0
    else
      var n' := TrailingWhitespace(s[..|s| - 1]);
      assert s[..|s| - 1][|s| - 1 - n'..] == s[|s| - 1 - n'..|s| - 1];
      n' + 1
  }

  /** Rust's `str::trim_start`: `s` without its leading whitespace. */
  function TrimStart(s: string): (r: string)
    ensures |r| <= |s| && r == s[|s| - |r|..] && AllWhitespace(s[..|s| - |r|])
    ensures r != [] ==> !IsWhitespace(r[0])
  {
    s[LeadingWhitespace(s)..]
  }

  /** Rust's `str::trim_end`: `s` without its trailing whitespace. */
  function TrimEnd(s: string): (r: string)
    ensures |r| <= |s| && r == s[..|r|] && AllWhitespace(s[|r|..])
    ensures r != [] ==> !IsWhitespace(r[|r| - 1])
  {
    s[..|s| - TrailingWhitespace(s)]
  }

  /**
   Rust's `str::trim`: `s` without its leading and trailing whitespace. The
   result is the slice of `s` that is left once a whitespace prefix and a
   whitespace suffix are cut off, and it neither starts nor ends with
   whitespace, which determines it.
   */
  function Trim(s: string): (r: string)
    ensures |r| <= |s| && IsTrimmed(r)
    ensures exists i :: 0 <= i <= |s| - |r| && s[i..i + |r|] == r
                        && AllWhitespace(s[..i]) && AllWhitespace(s[i + |r|..])
  {
    var t := TrimStart(s);
    var r := TrimEnd(t);
    TrimEndOfTrimStart(s, t, r);
    r
  }

  /** Cutting the leading whitespace and then the trailing whitespace leaves a trimmed slice. */
  lemma TrimEndOfTrimStart(s: string, t: string, r: string)
    requires t == TrimStart(s) && r == TrimEnd(t)
    ensures |r| <= |s| && IsTrimmed(r)
    ensures exists i :: 0 <= i <= |s| - |r| && s[i..i + |r|] == r
                        && AllWhitespace(s[..i]) && AllWhitespace(s[i + |r|..])
  {
    var i := |s| - |t|;
    assert s[i + |r|..] == t[|r|..];
    assert s[i..i + |r|] == t[..|r|] == r;
    assert r != [] ==> r[0] == t[0];
    assert AllWhitespace(s[..i]) && AllWhitespace(s[i + |r|..]);
  }

  /** Leading whitespace is exactly the padding `w` in front of a string that starts otherwise. */
  lemma {:induction false} LeadingOfPadded(w: string, t: string)
    requires AllWhitespace(w)
    requires t == [] || !IsWhitespace(t[0])
    ensures LeadingWhitespace(w + t) == |w|
  {
    if w != [] {
      assert (w + t)[1..] == w[1..] + t;
      assert IsWhitespace(w[0]);
      LeadingOfPadded(w[1..], t);
    }
  }

  /** Trailing whitespace is exactly the padding `w` behind a string that ends otherwise. */
  lemma {:induction false} TrailingOfPadded(t: string, w: string)
    requires AllWhitespace(w)
    requires t == [] || !IsWhitespace(t[|t| - 1])
    ensures TrailingWhitespace(t + w) == |w|
  {
    if w != [] {
      var w' := w[..|w| - 1];
      assert (t + w)[..|t + w| - 1] == t + w';
      assert IsWhitespace(w[|w| - 1]);
      TrailingOfPadded(t, w');
    }
  }

  /** `trim` removes exactly the whitespace padding around a trimmed string. */
  lemma {:induction false} TrimPadded(before: string, s: string, after: string)
    requires AllWhitespace(before) && AllWhitespace(after) && IsTrimmed(s)
    ensures Trim(before + s + after) == s
  {
    var whole := before + s + after;
    if s == [] {
      assert whole == before + after;
      LeadingOfPadded(before + after, []);
      assert whole + [] == whole;
      assert TrimStart(whole) == [];
    } else {
      assert whole == before + (s + after);
      LeadingOfPadded(before, s + after);
      assert TrimStart(whole) == s + after;
      TrailingOfPadded(s, after);
    }
  }

  lemma {:induction false} TrimIdempotent(s: string)
    ensures Trim(Trim(s)) == Trim(s)
  {
    TrimOfTrimmed(Trim(s));
  }

  /** A string that is already trimmed is its own trim. */
  lemma {:induction false} TrimOfTrimmed(s: string)
    requires IsTrimmed(s)
    ensures Trim(s) == s
  {
    assert LeadingWhitespace(s) == 0;
    assert TrimStart(s) == s;
    assert TrailingWhitespace(s) == 0;
  }

  /**
   Rust's `char::to_lowercase`, restricted to ASCII: `A`..`Z` become
   `a`..`z`, every other character is unchanged.
   */
  function LowerChar(c: char): (r: char)
    ensures !IsAsciiUpper(r)
    ensures IsAsciiUpper(c) ==> r as int == c as int + 32
    ensures !IsAsciiUpper(c) ==> r == c
  {
    if 'A' <= c <= 'Z' then (c as int + 32) as char else c
  }

  predicate IsAsciiUpper(c: char) {
    'A' <= c <= 'Z'
  }

  /** Rust's `str::to_lowercase` on the ASCII letters, character by character. */
  function Lower(s: string): (r: string)
    ensures |r| == |s|
    ensures forall i :: 0 <= i < |s| ==> r[i] == LowerChar(s[i])
  {
    seq(|s|, i requires 0 <= i < |s| => LowerChar(s[i]))
  }

  /** Lowercasing leaves no uppercase letter and does nothing to a lowercased string. */
  lemma LowerIsLowercase(s: string)
    ensures forall i :: 0 <= i < |s| ==> !IsAsciiUpper(Lower(s)[i])
    ensures Lower(Lower(s)) == Lower(s)
  {
  }

  /** A string without uppercase letters is its own lowercase form. */
  lemma LowerUnchanged(s: string)
    requires forall i :: 0 <= i < |s| ==> !IsAsciiUpper(s[i])
    ensures Lower(s) == s
  {
  }

  /** Lowercasing works character by character, so it distributes over concatenation. */
  lemma LowerAppend(a: string, b: string)
    ensures Lower(a + b) == Lower(a) + Lower(b)
  {
  }

  /** `needle` occurs in `hay` starting at position `i`. */
  predicate OccursAt(hay: string, needle: string, i: nat) {
    i + |needle| <= |hay| && hay[i..i + |needle|] == needle
  }

  /**
   Rust's `str::contains` with a string pattern: some slice of `hay` equals
   `needle`. The empty needle occurs everywhere.
   */
  predicate Contains(hay: string, needle: string)
    ensures Contains(hay, needle) ==> |needle| <= |hay|
  {
    exists i: nat | i <= |hay| - |needle| :: OccursAt(hay, needle, i)
  }

  /** `needle` is found wherever it is written in. */
  lemma ContainsInfix(p: string, needle: string, q: string)
    ensures Contains(p + needle + q, needle)
  {
    var hay := p + needle + q;
    assert hay[|p|..|p| + |needle|] == needle;
    assert OccursAt(hay, needle, |p|);
  }

  /** Conversely, a string that contains `needle` is `needle` with something before and after it. */
  lemma ContainsSplit(hay: string, needle: string) returns (p: string, q: string)
    requires Contains(hay, needle)
    ensures hay == p + needle + q
  {
    var i: nat :| i <= |hay| - |needle| && OccursAt(hay, needle, i);
    p, q := hay[..i], hay[i + |needle|..];
    assert hay == hay[..i] + hay[i..i + |needle|] + hay[i + |needle|..];
  }

  /** A case-sensitive match is also a match after lowercasing both sides. */
  lemma ContainsLower(hay: string, needle: string)
    requires Contains(hay, needle)
    ensures Contains(Lower(hay), Lower(needle))
  {
    var i: nat :| i <= |hay| - |needle| && OccursAt(hay, needle, i);
    var j := i + |needle|;
    assert j <= |hay| && hay[i..j] == needle;
    var lh, ln := Lower(hay), Lower(needle);
    forall k | 0 <= k < |needle| ensures lh[i..j][k] == ln[k] {
      assert hay[i + k] == needle[k];
    }
    assert lh[i..j] == ln;
    assert OccursAt(lh, ln, i);
  }

  /**
   `needle` can only start at a character equal to its first one: when that
   character is missing from `p`, every occurrence in `p + q` lies in `q`.
   */
  lemma NotContainsAppend(p: string, q: string, needle: string)
    requires needle != [] && needle[0] !in p
    requires !Contains(q, needle)
    ensures !Contains(p + q, needle)
  {
    var hay := p + q;
    forall i: nat | OccursAt(hay, needle, i) ensures false {
      assert hay[i] == needle[0];
      assert i >= |p|;
      assert hay[i..i + |needle|] == q[i - |p|..i - |p| + |needle|];
      assert OccursAt(q, needle, i - |p|);
    }
  }

  /** A line without the letter of `needle`'s start cannot contain it. */
  lemma NotContainsWithoutFirst(line: string, needle: string)
    requires needle != [] && needle[0] !in line
    ensures !Contains(line, needle)
  {
    NotContainsAppend(line, [], needle);
    assert line + [] == line;
  }

  /** A match at the front needs the second characters to agree, too. */
  lemma NotContainsCons(c: char, q: string, needle: string)
    requires |needle| >= 2 && q != [] && q[0] != needle[1]
    requires !Contains(q, needle)
    ensures !Contains([c] + q, needle)
  {
    var hay := [c] + q;
    forall i: nat | OccursAt(hay, needle, i) ensures false {
      assert hay[i + 1] == needle[1];
      assert i >= 1;
      assert hay[i..i + |needle|] == q[i - 1..i - 1 + |needle|];
      assert OccursAt(q, needle, i - 1);
    }
  }

  /** Position of the first `c` in `s`, or `|s|` when there is none. */
  function IndexOf(s: string, c: char): (i: nat)
    ensures i <= |s|
    ensures i < |s| ==> s[i] == c
    ensures forall j :: 0 <= j < i ==> s[j] != c
  {
    if s == [] then 0
    else if s[0] == c then 0
    else IndexOf(s[1..], c) + 1
  }

  /** One line terminator's worth of `\r` removed from the end of a line. */
  function StripCr(line: string): (r: string)
    ensures line != [] && line[|line| - 1] == '\r' ==> line == r + ['\r']
    ensures (line == [] || line[|line| - 1] != '\r') ==> r == line
  {
    if line != [] && line[|line| - 1] == '\r' then line[..|line| - 1] else line
  }

  /**
   Rust's `str::lines`: the pieces of `s` between `\n` characters, each with
   one trailing `\r` removed. A final `\n` does not start another (empty)
   line, and the empty string has no lines.
   */
  function Lines(s: string): (r: seq<string>)
    ensures |r| <= |s|
    ensures r == [] <==> s == []
    ensures forall k :: 0 <= k < |r| ==> '\n' !in r[k]
    decreases |s|
  {
    if s == [] then []
    else
      var i := IndexOf(s, '\n');
      if i == |s| then
        [StripCr(s)]
      else
        [StripCr(s[..i])] + Lines(s[i + 1..])
  }

  /** The text a sequence of lines is read from: each line followed by `\n`. */
  function Unlines(ls: seq<string>): string {
    if ls == [] then [] else ls[0] + "\n" + Unlines(ls[1..])
  }

  /** A line can be read back from a text when it has no `\n` and does not end in `\r`. */
  predicate IsPlainLine(l: string) {
    '\n' !in l && (l == [] || l[|l| - 1] != '\r')
  }

  /** Splitting at the first `\n`: the line before it, then the lines after it. */
  lemma {:induction false} LinesCons(a: string, b: string)
    requires '\n' !in a
    ensures Lines(a + "\n" + b) == [StripCr(a)] + Lines(b)
  {
    var s := a + "\n" + b;
    assert s[|a|] == '\n';
    assert forall j :: 0 <= j < |a| ==> s[j] == a[j];
    var i := IndexOf(s, '\n');
    assert i == |a|;
    assert s[..i] == a;
    assert s[i + 1..] == b;
  }

  /** `Lines` undoes `Unlines`: a terminated last line adds no extra empty line. */
  lemma {:induction false} LinesUnlines(ls: seq<string>)
    requires forall k :: 0 <= k < |ls| ==> IsPlainLine(ls[k])
    ensures Lines(Unlines(ls)) == ls
  {
    if ls != [] {
      LinesCons(ls[0], Unlines(ls[1..]));
      LinesUnlines(ls[1..]);
    }
  }

  /** An unterminated last line is a line too. */
  lemma {:induction false} LinesLast(a: string)
    requires a != [] && '\n' !in a
    ensures Lines(a) == [StripCr(a)]
  {
    assert IndexOf(a, '\n') == |a|;
  }

  lemma ConsSnoc<T>(s: seq<T>, x: T)
    requires s != []
    ensures [s[0]] + (s[1..] + [x]) == s + [x]
  {
  }

  /** Terminated lines followed by one unterminated line are read back as they were written. */
  lemma {:induction false} LinesUnlinesLast(ls: seq<string>, last: string)
    requires forall k :: 0 <= k < |ls| ==> IsPlainLine(ls[k])
    requires IsPlainLine(last) && last != []
    ensures Lines(Unlines(ls) + last) == ls + [last]
  {
    if ls == [] {
      assert Unlines(ls) + last == last;
      LinesLast(last);
    } else {
      var tail := Unlines(ls[1..]) + last;
      assert Unlines(ls) + last == ls[0] + "\n" + tail;
      LinesCons(ls[0], tail);
      LinesUnlinesLast(ls[1..], last);
      assert StripCr(ls[0]) == ls[0];
      ConsSnoc(ls, last);
    }
  }
}
