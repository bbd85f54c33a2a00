/**
  The wildcard matcher Str::wildCardMatch of Easylogging++ (external/easylogging++/easylogging++.cc), which
  the category and module filters use. Strings are the characters before the terminating NUL.
 */
module Glob {
  import opened Sequences

  // -------------------------------------------------------------------- the glob language

  /** One pattern character stands for a piece of the text: `*` for any piece, `?` for any one
      character, and every other character for itself. */
  predicate Stands(c: char, piece: string) {
    if c == '*' then true else if c == '?' then |piece| == 1 else piece == [c]
  }

  /** A way of cutting the text into one piece per pattern character. */
  ghost predicate Cuts(parts: seq<string>, str: string, pattern: string) {
    && |parts| == |pattern|
    && Concat(parts) == str
    && forall i :: 0 <= i < |pattern| ==> Stands(pattern[i], parts[i])
  }

  ghost predicate InLanguage(str: string, pattern: string) {
    exists parts :: Cuts(parts, str, pattern)
  }

  // -------------------------------------------------------------------- how the language decomposes

  lemma EmptyPattern(str: string)
    ensures InLanguage(str, "") <==> str == ""
  {
    if str == "" { assert Cuts([], str, ""); }
  }

  lemma ConsCut(piece: string, parts: seq<string>, str: string, pattern: string)
    requires pattern != "" && Stands(pattern[0], piece) && Cuts(parts, str, pattern[1..])
    ensures Cuts([piece] + parts, piece + str, pattern)
  {
    assert ([piece] + parts)[1..] == parts;
  }

  lemma HeadCut(parts: seq<string>, str: string, pattern: string)
    requires pattern != "" && Cuts(parts, str, pattern)
    ensures Stands(pattern[0], parts[0]) && parts[0] <= str
    ensures Cuts(parts[1..], str[|parts[0]|..], pattern[1..])
  {
    assert str == parts[0] + Concat(parts[1..]);
  }

  /** A pattern that starts with anything but `*` consumes exactly one character. */
  lemma SingleStep(str: string, pattern: string)
    requires pattern != "" && pattern[0] != '*'
    ensures InLanguage(str, pattern) <==>
            str != "" && (pattern[0] == '?' || str[0] == pattern[0]) && InLanguage(str[1..], pattern[1..])
  {
    if InLanguage(str, pattern) {
      var parts :| Cuts(parts, str, pattern);
      HeadCut(parts, str, pattern);
    }
    if str != "" && (pattern[0] == '?' || str[0] == pattern[0]) && InLanguage(str[1..], pattern[1..]) {
      var parts :| Cuts(parts, str[1..], pattern[1..]);
      ConsCut([str[0]], parts, str[1..], pattern);
      assert [str[0]] + str[1..] == str;
    }
  }

  /** A `*` stands for nothing, or takes one character and is still there. */
  lemma StarStep(str: string, pattern: string)
    requires pattern != "" && pattern[0] == '*'
    ensures InLanguage(str, pattern) <==>
            InLanguage(str, pattern[1..]) || (str != "" && InLanguage(str[1..], pattern))
  {
    if InLanguage(str, pattern) {
      var parts :| Cuts(parts, str, pattern);
      HeadCut(parts, str, pattern);
      if parts[0] != "" {
        ConsCut(parts[0][1..], parts[1..], str[|parts[0]|..], pattern);
        assert parts[0][1..] + str[|parts[0]|..] == str[1..];
      }
    }
    if InLanguage(str, pattern[1..]) {
      var parts :| Cuts(parts, str, pattern[1..]);
      ConsCut("", parts, str, pattern);
      assert "" + str == str;
    }
    if str != "" && InLanguage(str[1..], pattern) {
      var parts :| Cuts(parts, str[1..], pattern);
      HeadCut(parts, str[1..], pattern);
      ConsCut([str[0]] + parts[0], parts[1..], str[1..][|parts[0]|..], pattern);
      assert ([str[0]] + parts[0]) + str[1..][|parts[0]|..] == str;
    }
  }

  // -------------------------------------------------------------------- the matcher

  /** Str::wildCardMatch: a loop over the pattern that calls itself at every `*`. */
  method WildCardMatch(str: string, pattern: string) returns (r: bool)
    ensures r <==> InLanguage(str, pattern)
    decreases |str| + |pattern|
  {
    var s, p := str, pattern;
    while p != ""
      invariant |s| + |p| <= |str| + |pattern|
      invariant InLanguage(s, p) <==> InLanguage(str, pattern)
      decreases |p|
    {
      if p[0] == '?' {
        SingleStep(s, p);
        if s == "" { return false; }
        s, p := s[1..], p[1..];
      } else if p[0] == '*' {
        StarStep(s, p);
        var rest := WildCardMatch(s, p[1..]);
        if rest { return true; }
        if s != "" {
          var more := WildCardMatch(s[1..], p);
          if more { return true; }
        }
        return false;
      } else {
        SingleStep(s, p);
        if s == "" || s[0] != p[0] { return false; }
        s, p := s[1..], p[1..];
      }
    }
    EmptyPattern(s);
    return s == "";
  }
}
