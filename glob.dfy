/** Wildcard matching of requested property values. WildCardToRegular escapes
    the value and turns "?" into "." and "*" into ".*" inside "^...$"; the
    predicates below give the meaning of Regex.IsMatch against that pattern
    directly, by recursion on the pattern, instead of building a regex. */
module Glob {

  predicate HasWildcard(value: string) {
    '*' in value || '?' in value
  }

  /** The regex "." of .NET: any character except a line feed. */
  predicate Dot(c: char) {
    c != '\n'
  }

  /** The anchored pattern, read strictly: "?" is one Dot character, "*" any
      run of Dot characters, every other character stands for itself. */
  predicate GlobMatch(pattern: string, input: string)
    decreases |pattern| + |input|
  {
    if pattern == [] then input == []
    else if pattern[0] == '*' then
      GlobMatch(pattern[1..], input) || (input != [] && Dot(input[0]) && GlobMatch(pattern, input[1..]))
    else if input == [] then false
    else if pattern[0] == '?' then Dot(input[0]) && GlobMatch(pattern[1..], input[1..])
    else pattern[0] == input[0] && GlobMatch(pattern[1..], input[1..])
  }

  /** Regex.IsMatch(input, WildCardToRegular(pattern)). The closing "$" also
      matches just before a final line feed. */
  predicate IsWildCardMatch(input: string, pattern: string) {
    GlobMatch(pattern, input)
    || (|input| > 0 && input[|input| - 1] == '\n' && GlobMatch(pattern, input[..|input| - 1]))
  }

  /** Without wildcards the pattern matches exactly itself. */
  lemma {:induction false} LiteralPatternMatchesItselfOnly(pattern: string, input: string)
    requires !HasWildcard(pattern)
    ensures GlobMatch(pattern, input) <==> pattern == input
  {
    if pattern != [] && input != [] {
      assert !HasWildcard(pattern[1..]) by {
        assert forall c :: c in pattern[1..] ==> c in pattern;
      }
      LiteralPatternMatchesItselfOnly(pattern[1..], input[1..]);
      if pattern[0] == input[0] && pattern[1..] == input[1..] {
        assert pattern == [pattern[0]] + pattern[1..];
        assert input == [input[0]] + input[1..];
      }
    }
  }

  /** "*" matches exactly the inputs that hold no line feed. */
  lemma {:induction false} StarMatchesLinesOnly(input: string)
    ensures GlobMatch("*", input) <==> forall i :: 0 <= i < |input| ==> Dot(input[i])
  {
    assert GlobMatch("", input) <==> input == [];
    if input != [] {
      StarMatchesLinesOnly(input[1..]);
      assert forall i :: 1 <= i < |input| ==> input[i] == input[1..][i - 1];
    }
  }

  /** Matches compose: a pattern split in two matches the input split the same
      way. */
  lemma {:induction false} GlobConcat(p1: string, p2: string, s1: string, s2: string)
    requires GlobMatch(p1, s1) && GlobMatch(p2, s2)
    ensures GlobMatch(p1 + p2, s1 + s2)
    decreases |p1| + |s1|
  {
    if p1 == [] {
      assert p1 + p2 == p2 && s1 + s2 == s2;
    } else if p1[0] == '*' {
      assert (p1 + p2)[0] == '*' && (p1 + p2)[1..] == p1[1..] + p2;
      if GlobMatch(p1[1..], s1) {
        GlobConcat(p1[1..], p2, s1, s2);
      } else {
        GlobConcat(p1, p2, s1[1..], s2);
        assert (s1 + s2)[0] == s1[0] && (s1 + s2)[1..] == s1[1..] + s2;
      }
    } else {
      assert (p1 + p2)[0] == p1[0] && (p1 + p2)[1..] == p1[1..] + p2;
      assert (s1 + s2)[0] == s1[0] && (s1 + s2)[1..] == s1[1..] + s2;
      GlobConcat(p1[1..], p2, s1[1..], s2);
    }
  }

  /** For a value without line feeds the trailing-newline allowance of "$"
      plays no part. */
  lemma SingleLineMatch(input: string, pattern: string)
    requires forall i :: 0 <= i < |input| ==> Dot(input[i])
    ensures IsWildCardMatch(input, pattern) <==> GlobMatch(pattern, input)
  {
  }

  /** The pattern "13.*" (the "." is literal) matches "13.4" but not "12.9". */
  lemma VersionPatternExample()
    ensures IsWildCardMatch("13.4", "13.*")
    ensures !IsWildCardMatch("12.9", "13.*")
  {
    assert GlobMatch("*", "4") by { StarMatchesLinesOnly("4"); }
    GlobConcat("13.", "*", "13.", "4");
    assert GlobMatch("13.", "13.") by { LiteralPatternMatchesItselfOnly("13.", "13."); }
    assert "13." + "*" == "13.*" && "13." + "4" == "13.4";
  }

  /** The regex-level quirk: "a?" matches the value "ab\n", although the
      strict reading does not. */
  lemma TrailingLineFeedExample()
    ensures IsWildCardMatch("ab\n", "a?") && !GlobMatch("a?", "ab\n")
  {
    assert "ab\n"[..2] == "ab";
    assert GlobMatch("", "");
    assert GlobMatch("?", "b") by { assert "?"[1..] == "" && "b"[1..] == ""; }
    assert GlobMatch("a?", "ab") by { assert "a?"[1..] == "?" && "ab"[1..] == "b"; }
  }
}
