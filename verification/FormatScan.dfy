/**
  The two string edits behind log formats in external/easylogging++/easylogging++.cc: the lambda
  conditionalAddFlag of LogFormat::parseFromFormat, run once per specifier when a format is
  compiled, and Str::replaceFirstWithEscape, run once per specifier when a line is written.
  A `%` in front of a specifier escapes it.
 */
module FormatScan {
  import opened Strings

  /** `%` and then at least two characters other than `%`, as all built-in specifiers are. */
  predicate IsSpecifier(s: string) {
    |s| >= 3 && s[0] == '%' && '%' !in s[1..]
  }

  function Escaped(s: string): string {
    "%" + s
  }

  // -------------------------------------------------------------------- one left-to-right edit

  /** What an edit writes for the first unescaped occurrence, and for escaped ones before and after it. */
  datatype Marks = Marks(first: string, before: string, after: string)

  /** The text f with every occurrence of s, escaped or not, rewritten as the marks say; done tells
      that the first unescaped occurrence is already past. */
  function Edit(f: string, s: string, done: bool, m: Marks): string
    requires IsSpecifier(s)
    decreases |f|
  {
    if f == "" then ""
    else if Escaped(s) <= f then (if done then m.after else m.before) + Edit(f[|s| + 1..], s, done, m)
    else if s <= f then (if done then s else m.first) + Edit(f[|s|..], s, true, m)
    else [f[0]] + Edit(f[1..], s, done, m)
  }

  /** conditionalAddFlag: escapes are dropped after the first unescaped occurrence. */
  function CompileMarks(s: string): Marks {
    Marks(s, Escaped(s), s)
  }

  /** replaceFirstWithEscape: escapes are dropped before the first unescaped occurrence, which is replaced. */
  function ReplaceMarks(s: string, v: string): Marks {
    Marks(v, s, Escaped(s))
  }

  /** The meaning of a specifier in a format: the first unescaped occurrence stands for the value, and
      every escaped one for the specifier's own text. */
  function MeaningMarks(s: string, v: string): Marks {
    Marks(v, s, s)
  }

  /** The format has an occurrence of the specifier that is not escaped. */
  ghost predicate HasUnescaped(f: string, s: string) {
    exists p :: UnescapedAt(f, s, p)
  }

  ghost predicate UnescapedAt(f: string, s: string, p: int) {
    0 <= p && OccursAt(f, s, p) && (p == 0 || f[p - 1] != '%')
  }

  // -------------------------------------------------------------------- laws of the edit

  lemma NotBoth(f: string, s: string)
    requires IsSpecifier(s) && s <= f
    ensures !(Escaped(s) <= f)
  {
    assert s[1] in s[1..] && f[1] == s[1] && Escaped(s)[1] == '%';
  }

  /** Text without `%` passes through. */
  lemma {:induction false} EditPlain(w: string, rest: string, s: string, done: bool, m: Marks)
    requires IsSpecifier(s) && '%' !in w
    ensures Edit(w + rest, s, done, m) == w + Edit(rest, s, done, m)
    decreases |w|
  {
    if w == "" {
      assert w + rest == rest;
    } else {
      var f := w + rest;
      assert f[0] == w[0] && w[0] in w;
      assert !(Escaped(s) <= f) && !(s <= f);
      assert f[1..] == w[1..] + rest;
      EditPlain(w[1..], rest, s, done, m);
      assert [w[0]] + (w[1..] + Edit(rest, s, done, m)) == w + Edit(rest, s, done, m);
    }
  }

  lemma EditEscaped(rest: string, s: string, done: bool, m: Marks)
    requires IsSpecifier(s)
    ensures Edit(Escaped(s) + rest, s, done, m) == (if done then m.after else m.before) + Edit(rest, s, done, m)
  {
    assert (Escaped(s) + rest)[|s| + 1..] == rest;
  }

  lemma EditUnescaped(rest: string, s: string, done: bool, m: Marks)
    requires IsSpecifier(s)
    ensures Edit(s + rest, s, done, m) == (if done then s else m.first) + Edit(rest, s, true, m)
  {
    NotBoth(s + rest, s);
    assert (s + rest)[|s|..] == rest;
  }

  /** The edit leaves everything in front of the next occurrence alone. */
  lemma {:induction false} EditSkip(f: string, k: nat, s: string, done: bool, m: Marks)
    requires IsSpecifier(s) && k <= |f|
    requires forall j :: 0 <= j < k ==> !(s <= f[j..]) && !(Escaped(s) <= f[j..])
    ensures Edit(f, s, done, m) == f[..k] + Edit(f[k..], s, done, m)
    decreases k
  {
    if k == 0 {
      assert f[0..] == f;
    } else {
      assert f[0..] == f;
      forall j | 0 <= j < k - 1 ensures !(s <= f[1..][j..]) && !(Escaped(s) <= f[1..][j..]) {
        assert f[1..][j..] == f[j + 1..];
      }
      EditSkip(f[1..], k - 1, s, done, m);
      assert f[1..][k - 1..] == f[k..];
      assert [f[0]] + f[1..][..k - 1] == f[..k];
    }
  }

  lemma EditOther(f: string, s: string, done: bool, m: Marks)
    requires IsSpecifier(s) && f != "" && !(s <= f) && !(Escaped(s) <= f)
    ensures Edit(f, s, done, m) == [f[0]] + Edit(f[1..], s, done, m)
  {
  }

  lemma PrefixSplit(w: string, f: string)
    requires w <= f
    ensures f == w + f[|w|..]
  {
  }

  /** An edit whose marks repeat the text changes nothing. */
  lemma {:induction false} EditIdentity(f: string, s: string, done: bool, m: Marks)
    requires IsSpecifier(s) && m.after == Escaped(s) && (done || (m.before == Escaped(s) && m.first == s))
    ensures Edit(f, s, done, m) == f
    decreases |f|
  {
    if f == "" {
    } else if Escaped(s) <= f {
      hide Edit;
      PrefixSplit(Escaped(s), f);
      EditEscaped(f[|s| + 1..], s, done, m);
      EditIdentity(f[|s| + 1..], s, done, m);
    } else if s <= f {
      hide Edit;
      PrefixSplit(s, f);
      EditUnescaped(f[|s|..], s, done, m);
      EditIdentity(f[|s|..], s, true, m);
    } else {
      hide Edit;
      EditOther(f, s, done, m);
      EditIdentity(f[1..], s, done, m);
    }
  }

  // -------------------------------------------------------------------- compiling, then substituting

  /** Compiling moves no character in front of a run of text without `%`. */
  lemma {:induction false} CompilePrefix(f: string, s: string, done: bool, w: string)
    requires IsSpecifier(s) && '%' !in w
    ensures w <= Edit(f, s, done, CompileMarks(s)) <==> w <= f
    decreases |f|
  {
    var c := Edit(f, s, done, CompileMarks(s));
    if w != "" && f != "" {
      assert w[0] in w;
      if f[0] == '%' {
        assert c[0] == '%';
      } else {
        CompilePrefix(f[1..], s, done, w[1..]);
        assert c == [f[0]] + Edit(f[1..], s, done, CompileMarks(s));
        PrefixTail(w, c);
        PrefixTail(w, f);
      }
    }
  }

  /** Until the flag is set, compiling neither makes nor destroys an occurrence at the front. */
  lemma CompileFront(f: string, s: string)
    requires IsSpecifier(s)
    ensures var c := Edit(f, s, false, CompileMarks(s));
            (f == "" <==> c == "") && (s <= f <==> s <= c)
  {
    var c := Edit(f, s, false, CompileMarks(s));
    if f != "" {
      if Escaped(s) <= f {
        assert Escaped(s) <= c;
        assert !(s <= f) by { if s <= f { NotBoth(f, s); } }
        assert !(s <= c) by { if s <= c { NotBoth(c, s); } }
      } else if !(s <= f) {
        var d := Edit(f[1..], s, false, CompileMarks(s));
        assert c == [f[0]] + d && c[1..] == d;
        PrefixTail(s, c);
        PrefixTail(s, f);
        CompilePrefix(f[1..], s, false, s[1..]);
      }
    }
  }

  lemma CompileFrontEscaped(f: string, s: string)
    requires IsSpecifier(s) && f != "" && !(s <= f) && !(Escaped(s) <= f)
    ensures !(Escaped(s) <= Edit(f, s, false, CompileMarks(s)))
  {
    var d := Edit(f[1..], s, false, CompileMarks(s));
    var c := Edit(f, s, false, CompileMarks(s));
    assert c == [f[0]] + d && c[1..] == d && Escaped(s)[1..] == s;
    PrefixTail(Escaped(s), c);
    PrefixTail(Escaped(s), f);
    CompileFront(f[1..], s);
  }

  lemma {:induction false} CompiledTail(f: string, s: string, v: string)
    requires IsSpecifier(s)
    ensures Edit(f, s, true, CompileMarks(s)) == Edit(f, s, true, MeaningMarks(s, v))
    decreases |f|
  {
    if f != "" {
      if Escaped(s) <= f {
        CompiledTail(f[|s| + 1..], s, v);
      } else if s <= f {
        CompiledTail(f[|s|..], s, v);
      } else {
        CompiledTail(f[1..], s, v);
      }
    }
  }

  /** Compiling a format for a specifier and then substituting a value gives the meaning of the
      format: every escape of the specifier dropped, its first unescaped occurrence replaced, all
      else verbatim. Holds for every format and every value. */
  lemma {:induction false} CompileThenReplace(f: string, s: string, v: string)
    requires IsSpecifier(s)
    ensures Edit(Edit(f, s, false, CompileMarks(s)), s, false, ReplaceMarks(s, v))
            == Edit(f, s, false, MeaningMarks(s, v))
    decreases |f|
  {
    var cm, rm := CompileMarks(s), ReplaceMarks(s, v);
    if f != "" {
      if Escaped(s) <= f {
        var rest := f[|s| + 1..];
        EditEscaped(Edit(rest, s, false, cm), s, false, rm);
        CompileThenReplace(rest, s, v);
      } else if s <= f {
        var rest := f[|s|..];
        EditUnescaped(Edit(rest, s, true, cm), s, false, rm);
        EditIdentity(Edit(rest, s, true, cm), s, true, rm);
        CompiledTail(rest, s, v);
      } else {
        CompileFront(f, s);
        CompileFrontEscaped(f, s);
        CompileThenReplace(f[1..], s, v);
        var c := Edit(f, s, false, cm);
        assert c == [f[0]] + Edit(f[1..], s, false, cm) && c[1..] == Edit(f[1..], s, false, cm);
      }
    }
  }

  // -------------------------------------------------------------------- the edits in place

  /** Where the search goes on never lies just behind an escaping `%` of another occurrence. */
  ghost predicate Resumable(cur: string, s: string, from: nat)
    ensures Resumable(cur, s, from) ==> from <= |cur|
  {
    from <= |cur| && (OccursAt(cur, s, from) ==> from == 0 || cur[from - 1] != '%')
  }

  /** Between two places with no occurrence starting in between, escaped or not, the edit does nothing. */
  lemma SkipTo(cur: string, s: string, from: nat, k: nat, done: bool, m: Marks)
    requires IsSpecifier(s) && from <= k <= |cur|
    requires forall j :: from <= j < k ==> !OccursAt(cur, s, j) && !(cur[j] == '%' && OccursAt(cur, s, j + 1))
    ensures Edit(cur[from..], s, done, m) == cur[from..k] + Edit(cur[k..], s, done, m)
  {
    hide Edit;
    var g := cur[from..];
    forall j | 0 <= j < k - from ensures !(s <= g[j..]) && !(Escaped(s) <= g[j..]) {
      assert g[j..] == cur[from + j..];
      NoOccurrence(cur, s, from + j);
      NoEscaped(cur, s, from + j);
    }
    EditSkip(g, k - from, s, done, m);
    assert g[..k - from] == cur[from..k] && g[k - from..] == cur[k..];
  }

  /** The next occurrence is escaped. */
  lemma NextEscaped(cur: string, s: string, from: nat, p: nat, done: bool, m: Marks)
    requires IsSpecifier(s) && Resumable(cur, s, from)
    requires from <= p && OccursAt(cur, s, p) && forall q :: from <= q < p ==> !OccursAt(cur, s, q)
    requires p > 0 && cur[p - 1] == '%'
    ensures from < p && cur[p - 1..] == Escaped(s) + cur[p + |s|..]
    ensures Edit(cur[from..], s, done, m)
            == cur[from..p - 1] + (if done then m.after else m.before) + Edit(cur[p + |s|..], s, done, m)
  {
    hide Edit;
    SkipTo(cur, s, from, p - 1, done, m);
    assert cur[p - 1..] == Escaped(s) + cur[p + |s|..];
    EditEscaped(cur[p + |s|..], s, done, m);
  }

  /** The next occurrence is not escaped. */
  lemma NextUnescaped(cur: string, s: string, from: nat, p: nat, done: bool, m: Marks)
    requires IsSpecifier(s) && Resumable(cur, s, from)
    requires from <= p && OccursAt(cur, s, p) && forall q :: from <= q < p ==> !OccursAt(cur, s, q)
    requires p == 0 || cur[p - 1] != '%'
    ensures cur[p..] == s + cur[p + |s|..]
    ensures Edit(cur[from..], s, done, m)
            == cur[from..p] + (if done then s else m.first) + Edit(cur[p + |s|..], s, true, m)
  {
    hide Edit;
    SkipTo(cur, s, from, p, done, m);
    assert cur[p..] == s + cur[p + |s|..];
    EditUnescaped(cur[p + |s|..], s, done, m);
  }

  lemma NoOccurrence(cur: string, s: string, j: nat)
    requires j <= |cur|
    ensures s <= cur[j..] <==> OccursAt(cur, s, j)
  {
    if s <= cur[j..] { assert cur[j..j + |s|] == cur[j..][..|s|]; }
  }

  lemma NoEscaped(cur: string, s: string, j: nat)
    requires j <= |cur|
    ensures Escaped(s) <= cur[j..] <==> j < |cur| && cur[j] == '%' && OccursAt(cur, s, j + 1)
  {
    if j < |cur| {
      PrefixTail(Escaped(s), cur[j..]);
      assert cur[j..][1..] == cur[j + 1..] && Escaped(s)[1..] == s;
      NoOccurrence(cur, s, j + 1);
    }
  }

  lemma NoMoreOccurrences(cur: string, s: string, from: nat, done: bool, m: Marks)
    requires IsSpecifier(s) && from <= |cur| && forall q :: from <= q ==> !OccursAt(cur, s, q)
    ensures Edit(cur[from..], s, done, m) == cur[from..]
  {
    var g := cur[from..];
    forall j | 0 <= j < |g| ensures !(s <= g[j..]) && !(Escaped(s) <= g[j..]) {
      assert g[j..] == cur[from + j..];
      NoOccurrence(cur, s, from + j);
      NoEscaped(cur, s, from + j);
    }
    EditSkip(g, |g|, s, done, m);
  }

  /** Inside an occurrence, behind its `%`, the edit does nothing until the occurrence ends. */
  lemma InsideOccurrence(cur: string, s: string, p: nat, k: nat, done: bool, m: Marks)
    requires IsSpecifier(s) && OccursAt(cur, s, p) && 1 <= k <= |s|
    ensures Edit(cur[p + k..], s, done, m) == s[k..] + Edit(cur[p + |s|..], s, done, m)
    ensures Resumable(cur, s, p + k)
  {
    hide Edit;
    assert cur[p + k..] == s[k..] + cur[p + |s|..];
    assert forall c :: c in s[k..] ==> c in s[1..];
    EditPlain(s[k..], cur[p + |s|..], s, done, m);
    if k < |s| {
      assert cur[p + k] == cur[p..p + |s|][k] == s[k] && s[k] in s[1..];
    } else {
      assert cur[p + k - 1] == cur[p..p + |s|][k - 1] == s[k - 1] && s[k - 1] in s[1..];
    }
  }

  /** The search has stopped at p, the first occurrence not before from. */
  ghost predicate FoundAt(cur: string, s: string, from: nat, p: nat) {
    from <= p && OccursAt(cur, s, p) && forall q :: from <= q < p ==> !OccursAt(cur, s, q)
  }

  ghost predicate IsEscaped(cur: string, p: nat) {
    0 < p <= |cur| && cur[p - 1] == '%'
  }

  lemma RegroupFour(a: string, b: string, c: string, d: string)
    ensures a + (b + c + d) == (a + b) + c + d
  {
  }

  lemma SplitMiddle(a: string, s: string, t: string, k: nat)
    requires k <= |s|
    ensures a + s + t == (a + s[..k]) + (s[k..] + t)
  {
  }

  /** The edit up to an escaped occurrence. */
  lemma UpToEscaped(cur: string, s: string, from: nat, p: nat, done: bool, m: Marks)
    requires IsSpecifier(s) && Resumable(cur, s, from) && FoundAt(cur, s, from, p) && IsEscaped(cur, p)
    ensures cur[..from] + Edit(cur[from..], s, done, m)
            == cur[..p - 1] + (if done then m.after else m.before) + Edit(cur[p + |s|..], s, done, m)
  {
    hide Edit;
    NextEscaped(cur, s, from, p, done, m);
    RegroupFour(cur[..from], cur[from..p - 1], if done then m.after else m.before, Edit(cur[p + |s|..], s, done, m));
    assert cur[..from] + cur[from..p - 1] == cur[..p - 1];
  }

  /** Erasing the escape and going on three characters into the occurrence. */
  lemma EscapeDropped(cur: string, s: string, from: nat, p: nat, done: bool, m: Marks)
    requires IsSpecifier(s) && Resumable(cur, s, from) && FoundAt(cur, s, from, p) && IsEscaped(cur, p)
    requires (if done then m.after else m.before) == s
    ensures var r := cur[..p - 1] + cur[p..];
            && Resumable(r, s, p + 2)
            && cur[..from] + Edit(cur[from..], s, done, m) == r[..p + 2] + Edit(r[p + 2..], s, done, m)
  {
    hide Edit, Resumable;
    var r := cur[..p - 1] + cur[p..];
    UpToEscaped(cur, s, from, p, done, m);
    assert r[p - 1..p - 1 + |s|] == cur[p..p + |s|];
    InsideOccurrence(r, s, p - 1, 3, done, m);
    assert r[p - 1 + |s|..] == cur[p + |s|..];
    SplitMiddle(cur[..p - 1], s, Edit(cur[p + |s|..], s, done, m), 3);
    assert r[..p + 2] == cur[..p - 1] + s[..3];
  }

  lemma TwoPercent(cur: string, s: string, p: nat)
    requires IsSpecifier(s) && OccursAt(cur, s, p) && IsEscaped(cur, p)
    ensures cur[..p + 1] == cur[..p - 1] + Escaped(s)[..2] && Escaped(s)[2..] == s[1..]
  {
    assert cur[p] == cur[p..p + |s|][0] == '%';
  }

  /** Leaving the escape and going on one character into the occurrence. */
  lemma EscapeKept(cur: string, s: string, from: nat, p: nat, done: bool, m: Marks)
    requires IsSpecifier(s) && Resumable(cur, s, from) && FoundAt(cur, s, from, p) && IsEscaped(cur, p)
    requires (if done then m.after else m.before) == Escaped(s)
    ensures Resumable(cur, s, p + 1)
    ensures cur[..from] + Edit(cur[from..], s, done, m) == cur[..p + 1] + Edit(cur[p + 1..], s, done, m)
  {
    hide Edit, Resumable;
    UpToEscaped(cur, s, from, p, done, m);
    InsideOccurrence(cur, s, p, 1, done, m);
    SplitMiddle(cur[..p - 1], Escaped(s), Edit(cur[p + |s|..], s, done, m), 2);
    TwoPercent(cur, s, p);
  }

  /** Leaving an unescaped occurrence and going on one character into it. */
  lemma FirstKept(cur: string, s: string, from: nat, p: nat, done: bool, m: Marks)
    requires IsSpecifier(s) && Resumable(cur, s, from) && FoundAt(cur, s, from, p) && !IsEscaped(cur, p)
    requires done || m.first == s
    ensures Resumable(cur, s, p + 1)
    ensures cur[..from] + Edit(cur[from..], s, done, m) == cur[..p + 1] + Edit(cur[p + 1..], s, true, m)
  {
    hide Edit;
    var t := Edit(cur[p + |s|..], s, true, m);
    NextUnescaped(cur, s, from, p, done, m);
    RegroupFour(cur[..from], cur[from..p], s, t);
    assert cur[..from] + cur[from..p] == cur[..p];
    InsideOccurrence(cur, s, p, 1, true, m);
    SplitMiddle(cur[..p], s, t, 1);
    assert cur[..p + 1] == cur[..p] + s[..1];
  }

  /** Replacing the first unescaped occurrence and stopping. */
  lemma FirstReplaced(cur: string, s: string, from: nat, p: nat, m: Marks)
    requires IsSpecifier(s) && Resumable(cur, s, from) && FoundAt(cur, s, from, p) && !IsEscaped(cur, p)
    requires m.after == Escaped(s)
    ensures cur[..from] + Edit(cur[from..], s, false, m) == cur[..p] + m.first + cur[p + |s|..]
  {
    hide Edit;
    NextUnescaped(cur, s, from, p, false, m);
    EditIdentity(cur[p + |s|..], s, true, m);
    RegroupFour(cur[..from], cur[from..p], m.first, cur[p + |s|..]);
    assert cur[..from] + cur[from..p] == cur[..p];
  }

  lemma StartResumable(cur: string, s: string)
    ensures Resumable(cur, s, 0)
  {
  }

  /** What is made of a text by a search for `what`, whatever that is, from some place on. */
  function Substituted(cur: string, what: string, with: string, from: nat): string
    decreases |cur| + 3 - from
  {
    var found := Find(cur, what, from);
    if found.None? then cur
    else
      var p := found.value;
      if p > 0 && cur[p - 1] == '%' then Substituted(cur[..p - 1] + cur[p..], what, with, p + 2)
      else cur[..p] + with + cur[p + |what|..]
  }

  lemma {:induction false} SubstitutedFrom(cur: string, what: string, with: string, from: nat)
    requires IsSpecifier(what) && Resumable(cur, what, from)
    ensures Substituted(cur, what, with, from)
            == cur[..from] + Edit(cur[from..], what, false, ReplaceMarks(what, with))
    decreases |cur| + 3 - from
  {
    hide Edit, OccursAt, Resumable, IsSpecifier;
    var m, found := ReplaceMarks(what, with), Find(cur, what, from);
    if found.None? {
      NoMoreOccurrences(cur, what, from, false, m);
      assert cur[..from] + cur[from..] == cur;
    } else if found.value > 0 && cur[found.value - 1] == '%' {
      EscapeDropped(cur, what, from, found.value, false, m);
      SubstitutedFrom(cur[..found.value - 1] + cur[found.value..], what, with, found.value + 2);
    } else {
      FirstReplaced(cur, what, from, found.value, m);
    }
  }

  /** For a specifier: its escapes lose their `%` up to its first unescaped occurrence, which is replaced. */
  lemma SubstitutedIsEdit(str: string, what: string, with: string)
    requires IsSpecifier(what)
    ensures Substituted(str, what, with, 0) == Edit(str, what, false, ReplaceMarks(what, with))
  {
    hide Edit, Resumable, Substituted;
    StartResumable(str, what);
    SubstitutedFrom(str, what, with, 0);
    assert str[0..] == str && str[..0] == "";
  }

  /** Whatever is looked for: a text without it stays, and where it is first found unescaped it is replaced there. */
  lemma SubstitutedFirst(before: string, what: string, with: string, behind: string)
    ensures (forall p :: 0 <= p ==> !OccursAt(before, what, p)) ==> Substituted(before, what, with, 0) == before
    ensures (before == "" || before[|before| - 1] != '%')
            && (forall p :: 0 <= p < |before| ==> !OccursAt(before + what + behind, what, p)) ==>
              Substituted(before + what + behind, what, with, 0) == before + with + behind
  {
    var all, p := before + what + behind, |before|;
    assert OccursAt(all, what, p);
    assert all[..p] == before && all[p + |what|..] == behind;
    assert p > 0 ==> all[p - 1] == before[p - 1];
  }

  /** Str::replaceFirstWithEscape. */
  method ReplaceFirstWithEscape(str: string, what: string, with: string) returns (r: string)
    ensures r == Substituted(str, what, with, 0)
    ensures IsSpecifier(what) ==> r == Edit(str, what, false, ReplaceMarks(what, with))
  {
    hide Edit, OccursAt, IsSpecifier;
    if IsSpecifier(what) {
      SubstitutedIsEdit(str, what, with);
    }
    r := str;
    var from: nat := 0;
    while true
      invariant Substituted(str, what, with, 0) == Substituted(r, what, with, from)
      decreases |r| + 3 - from
    {
      var found := Find(r, what, from);
      if found.None? {
        return;
      }
      var p := found.value;
      if p > 0 && r[p - 1] == '%' {
        r := r[..p - 1] + r[p..];
        from := p + 2;
      } else {
        r := r[..p] + with + r[p + |what|..];
        return;
      }
    }
  }

  /** The lambda conditionalAddFlag for one specifier, on the format compiled so far. */
  method ConditionalAddFlag(format: string, specifier: string) returns (r: string, flag: bool)
    ensures IsSpecifier(specifier) ==>
              && r == Edit(format, specifier, false, CompileMarks(specifier))
              && (flag <==> HasUnescaped(format, specifier))
  {
    hide Edit, OccursAt, Resumable, IsSpecifier;
    StartResumable(format, specifier);
    r, flag := format, false;
    var from: nat := 0;
    ghost var m := CompileMarks(specifier);
    assert format[0..] == format;
    while true
      invariant IsSpecifier(specifier) ==>
          Resumable(r, specifier, from)
          && Edit(format, specifier, false, m) == r[..from] + Edit(r[from..], specifier, flag, m)
      invariant !flag ==> r == format && forall q :: 0 <= q < from ==> !UnescapedAt(format, specifier, q)
      invariant flag ==> HasUnescaped(format, specifier)
      decreases |r| + 3 - from
    {
      var found := Find(r, specifier, from);
      if found.None? {
        if IsSpecifier(specifier) { NoMoreOccurrences(r, specifier, from, flag, m); }
        return;
      }
      var p := found.value;
      assert !flag ==> forall q :: 0 <= q < p ==> !UnescapedAt(format, specifier, q);
      assert !flag ==> (UnescapedAt(format, specifier, p) <==> p == 0 || r[p - 1] != '%');
      if p > 0 && r[p - 1] == '%' {
        if flag {
          if IsSpecifier(specifier) { EscapeDropped(r, specifier, from, p, flag, m); }
          r := r[..p - 1] + r[p..];
          from := p + 2;
        } else {
          if IsSpecifier(specifier) { EscapeKept(r, specifier, from, p, flag, m); }
          from := p + 1;
        }
      } else {
        if IsSpecifier(specifier) { FirstKept(r, specifier, from, p, flag, m); }
        if !flag { flag := true; }
        from := p + 1;
      }
    }
  }
}
