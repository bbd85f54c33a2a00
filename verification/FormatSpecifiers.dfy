/**
  The built-in specifiers of log formats (external/easylogging++/easylogging++.h) and how the compilation of
  one leaves the others alone: LogFormat::parseFromFormat of external/easylogging++/easylogging++.cc finds
  the same flags whatever has been compiled before.
 */
module FormatSpecifiers {
  import opened Strings
  import opened FormatScan

  datatype Specifier =
    | App | LevelName | LevShort | LoggerId | Thread | File | FileBase | Line
    | Location | Function | User | Host | Message | VerboseLevel | DateTime

  function Text(s: Specifier): (t: string)
    ensures IsSpecifier(t) && '}' !in t
  {
    match s
    case App => "%app"
    case LevelName => "%level"
    case LevShort => "%levshort"
    case LoggerId => "%logger"
    case Thread => "%thread"
    case File => "%file"
    case FileBase => "%fbase"
    case Line => "%line"
    case Location => "%loc"
    case Function => "%func"
    case User => "%user"
    case Host => "%host"
    case Message => "%msg"
    case VerboseLevel => "%vlevel"
    case DateTime => "%datetime"
  }

  /** The specifier a text starts with, told from at most four letters. */
  function Decode(g: string): Specifier {
    if |g| < 5 then
      if |g| < 3 then App
      else match g[1] case 'a' => App case 'm' => Message case _ => Location
    else
      match g[1]
      case 'a' => App
      case 't' => Thread
      case 'd' => DateTime
      case 'u' => User
      case 'h' => Host
      case 'm' => Message
      case 'v' => VerboseLevel
      case 'f' => if g[2] == 'i' then File else if g[2] == 'b' then FileBase else Function
      case _ =>
        if g[2] == 'i' then Line
        else if g[2] == 'o' then if g[3] == 'g' then LoggerId else Location
        else if g[4] == 's' then LevShort else LevelName
  }

  lemma DecodeText(s: Specifier, g: string)
    requires Text(s) <= g
    ensures Decode(g) == s
  {
    assert forall i :: 0 <= i < |Text(s)| ==> g[i] == Text(s)[i];
  }

  /** No two specifiers start the same text. */
  lemma OneAtFront(s: Specifier, t: Specifier, g: string)
    requires Text(s) <= g && Text(t) <= g
    ensures s == t
  {
    DecodeText(s, g);
    DecodeText(t, g);
  }

  // -------------------------------------------------------------------- text that hides no specifier

  /** In front of rest, no place inside w starts an occurrence of s, escaped or not. */
  ghost predicate Passes(w: string, rest: string, s: string) {
    forall j :: 0 <= j < |w| ==> !(s <= (w + rest)[j..]) && !(Escaped(s) <= (w + rest)[j..])
  }

  lemma EditPasses(w: string, rest: string, s: Specifier, done: bool, m: Marks)
    requires Passes(w, rest, Text(s))
    ensures Edit(w + rest, Text(s), done, m) == w + Edit(rest, Text(s), done, m)
  {
    hide Text, Edit;
    EditSkip(w + rest, |w|, Text(s), done, m);
    assert (w + rest)[..|w|] == w && (w + rest)[|w|..] == rest;
  }

  lemma PassesPlain(w: string, rest: string, s: Specifier)
    requires '%' !in w
    ensures Passes(w, rest, Text(s))
  {
    hide Text;
    forall j | 0 <= j < |w| ensures !(Text(s) <= (w + rest)[j..]) && !(Escaped(Text(s)) <= (w + rest)[j..]) {
      assert (w + rest)[j..][0] == w[j] && w[j] in w;
    }
  }

  /** A `%` does no harm in front of a character of the same text that starts neither a specifier nor another escape. */
  lemma PassesLoose(w: string, rest: string, s: Specifier)
    requires forall j :: 0 <= j < |w| && w[j] == '%' ==> j + 1 < |w| && w[j + 1] != '%' && !('a' <= w[j + 1] <= 'z')
    ensures Passes(w, rest, Text(s))
  {
    var t, f := Text(s), w + rest;
    assert 'a' <= t[1] <= 'z';
    hide Text;
    forall j | 0 <= j < |w| ensures !(t <= f[j..]) && !(Escaped(t) <= f[j..]) {
      assert f[j..][0] == w[j];
      if w[j] == '%' {
        assert f[j..][1] == w[j + 1];
      }
    }
  }

  ghost predicate StartsAt(f: string, s: string, j: nat)
    requires j <= |f|
  {
    s <= f[j..] || Escaped(s) <= f[j..]
  }

  /** The first place where an occurrence starts. */
  lemma {:induction false} FirstStart(f: string, s: string, k: nat) returns (j: nat)
    requires k <= |f| && StartsAt(f, s, k)
    ensures j <= k && StartsAt(f, s, j) && forall i :: 0 <= i < j ==> !StartsAt(f, s, i)
  {
    hide StartsAt;
    j := 0;
    while !StartsAt(f, s, j)
      invariant j <= k && forall i :: 0 <= i < j ==> !StartsAt(f, s, i)
      decreases k - j
    {
      j := j + 1;
    }
  }

  /** A substitution leaves a text alone, whatever the value, if and only if nothing in it starts an occurrence. */
  lemma PassesExactly(w: string, rest: string, s: Specifier)
    ensures (forall v :: Edit(w + rest, Text(s), false, ReplaceMarks(Text(s), v))
                         == w + Edit(rest, Text(s), false, ReplaceMarks(Text(s), v)))
            <==> Passes(w, rest, Text(s))
  {
    hide Edit, Passes, Text;
    if Passes(w, rest, Text(s)) {
      forall v ensures Edit(w + rest, Text(s), false, ReplaceMarks(Text(s), v))
                       == w + Edit(rest, Text(s), false, ReplaceMarks(Text(s), v)) {
        EditPasses(w, rest, s, false, ReplaceMarks(Text(s), v));
      }
    } else {
      var k := NotPassed(w, rest, Text(s));
      var j := FirstStart(w + rest, Text(s), k);
      var v := if Escaped(Text(s)) <= (w + rest)[j..] then "%" else "x";
      EditStrikes(w, rest, Text(s), j, v);
    }
  }

  lemma NotPassed(w: string, rest: string, s: string) returns (k: nat)
    requires !Passes(w, rest, s)
    ensures k < |w| && StartsAt(w + rest, s, k)
  {
    k :| k < |w| && (s <= (w + rest)[k..] || Escaped(s) <= (w + rest)[k..]);
  }

  lemma EditStrikes(w: string, rest: string, t: string, j: nat, v: string)
    requires IsSpecifier(t) && j < |w| && StartsAt(w + rest, t, j)
    requires forall i :: 0 <= i < j ==> !StartsAt(w + rest, t, i)
    requires v == if Escaped(t) <= (w + rest)[j..] then "%" else "x"
    ensures Edit(w + rest, t, false, ReplaceMarks(t, v)) != w + Edit(rest, t, false, ReplaceMarks(t, v))
  {
    hide Edit;
    var f, m := w + rest, ReplaceMarks(t, v);
    var left, right := Edit(f, t, false, m), w + Edit(rest, t, false, m);
    forall i | 0 <= i < j ensures !(t <= f[i..]) && !(Escaped(t) <= f[i..]) {
      assert !StartsAt(f, t, i);
    }
    EditSkip(f, j, t, false, m);
    var g := f[j..];
    assert left == f[..j] + Edit(g, t, false, m) && g[0] == f[j] == w[j] == right[j];
    if Escaped(t) <= g {
      PrefixSplit(Escaped(t), g);
      EditEscaped(g[|t| + 1..], t, false, m);
      assert left[j + 1] == t[1] && t[1] in t[1..];
      assert g[1] == '%' && f[j + 1] == '%';
      if j + 1 < |w| {
        assert right[j + 1] == w[j + 1] == f[j + 1];
      } else {
        assert rest == g[1..];
        PrefixSplit(t, rest);
        EditUnescaped(rest[|t|..], t, false, m);
        assert right[j + 1] == '%';
      }
    } else {
      PrefixSplit(t, g);
      EditUnescaped(g[|t|..], t, false, m);
      assert left[j] == 'x';
    }
  }

  /** Another specifier's text. */
  lemma PassesOther(k: Specifier, rest: string, s: Specifier)
    requires k != s
    ensures Passes(Text(k), rest, Text(s))
  {
    hide Text;
    var t, f := Text(k), Text(k) + rest;
    assert f[0..] == f;
    assert !(Text(s) <= f) by { if Text(s) <= f { OneAtFront(k, s, f); } }
    assert f[1] == t[1] && t[1] in t[1..] && Escaped(Text(s))[1] == '%';
    forall j | 0 < j < |t| ensures !(Text(s) <= f[j..]) && !(Escaped(Text(s)) <= f[j..]) {
      assert f[j..][0] == t[j] && t[j] in t[1..];
    }
  }

  /** Another specifier's text behind an escape. */
  lemma PassesEscaped(k: Specifier, rest: string, s: Specifier)
    requires k != s
    ensures Passes(Escaped(Text(k)), rest, Text(s))
  {
    hide Text;
    var t, f := Text(k), Escaped(Text(k)) + rest;
    PassesOther(k, rest, s);
    assert f == "%" + (t + rest) && f[0..] == f && f[1..] == t + rest;
    assert !(Text(s) <= f) by { assert f[1] == '%' && Text(s)[1] in Text(s)[1..]; }
    assert !(Escaped(Text(s)) <= f) by {
      if Escaped(Text(s)) <= f {
        PrefixTail(Escaped(Text(s)), f);
        assert Escaped(Text(s))[1..] == Text(s);
        OneAtFront(k, s, t + rest);
      }
    }
    forall j | 0 < j < |t| + 1 ensures !(Text(s) <= f[j..]) && !(Escaped(Text(s)) <= f[j..]) {
      assert f[j..] == (t + rest)[j - 1..];
    }
  }

  /** A date format: it is closed by its first brace and holds no specifier of a log format. */
  ghost predicate Inert(fmt: string) {
    '}' !in fmt && forall s: Specifier, p :: !OccursAt(fmt, Text(s), p)
  }

  function Braces(fmt: string): string {
    "{" + fmt + "}"
  }

  lemma CharIn(t: string, i: int)
    ensures 0 <= i < |t| ==> t[i] in t
  {
  }

  /** What starts inside braces, without a brace of its own, lies between them. */
  lemma InsideBraces(fmt: string, rest: string, t: string, j: nat)
    requires j < |Braces(fmt)| && t <= (Braces(fmt) + rest)[j..]
    requires t != "" && t[0] == '%' && '}' !in t
    ensures OccursAt(fmt, t, j - 1)
  {
    var f, close := Braces(fmt) + rest, |Braces(fmt)| - 1;
    assert f[close] == '}' && f[0] == '{';
    assert forall i :: 0 <= i < |t| ==> f[j..][i] == t[i];
    CharIn(t, close - j);
    assert j > 0 && j + |t| <= close && f[j..][..|t|] == t;
    assert f[j..][..|t|] == f[j..j + |t|] == fmt[j - 1..j - 1 + |t|];
  }

  lemma NotInBraces(fmt: string, rest: string, s: Specifier, j: nat)
    requires Inert(fmt) && j < |Braces(fmt)|
    ensures !(Text(s) <= (Braces(fmt) + rest)[j..])
  {
    hide Text;
    if Text(s) <= (Braces(fmt) + rest)[j..] {
      InsideBraces(fmt, rest, Text(s), j);
    }
  }

  lemma PassesBraces(fmt: string, rest: string, s: Specifier)
    requires Inert(fmt)
    ensures Passes(Braces(fmt), rest, Text(s))
  {
    hide Text;
    var w, t := Braces(fmt), Text(s);
    var f := w + rest;
    forall j | 0 <= j < |w| ensures !(t <= f[j..]) && !(Escaped(t) <= f[j..]) {
      NotInBraces(fmt, rest, s, j);
      assert !(Escaped(t) <= f[j..]) by {
        PrefixTail(Escaped(t), f[j..]);
        assert Escaped(t)[1..] == t && f[j..][1..] == f[j + 1..];
        if j + 1 < |w| {
          NotInBraces(fmt, rest, s, j + 1);
        } else {
          assert f[j] == '}';
        }
      }
    }
  }

  // -------------------------------------------------------------------- flags do not depend on the order

  function Flagged(f: string, s: string): bool
    requires IsSpecifier(s)
    decreases |f|
  {
    if f == "" then false
    else if Escaped(s) <= f then Flagged(f[|s| + 1..], s)
    else if s <= f then true
    else Flagged(f[1..], s)
  }

  lemma {:induction false} FlaggedIsUnescaped(f: string, s: string)
    requires IsSpecifier(s)
    ensures Flagged(f, s) <==> HasUnescaped(f, s)
    decreases |f|
  {
    if f != "" {
      if Escaped(s) <= f {
        var rest := f[|s| + 1..];
        FlaggedIsUnescaped(rest, s);
        UnescapedBehindEscape(f, s);
      } else if s <= f {
        assert UnescapedAt(f, s, 0);
      } else {
        FlaggedIsUnescaped(f[1..], s);
        UnescapedBehind(f, s);
      }
    }
  }

  lemma UnescapedBehind(f: string, s: string)
    requires IsSpecifier(s) && f != "" && !(s <= f) && !(Escaped(s) <= f)
    ensures HasUnescaped(f, s) <==> HasUnescaped(f[1..], s)
  {
    NoOccurrence(f, s, 0);
    NoEscaped(f, s, 0);
    assert f[0..] == f;
    forall p | p >= 1 ensures UnescapedAt(f, s, p) <==> UnescapedAt(f[1..], s, p - 1) {
      OccursShift(f, s, 1, p);
      if p >= 2 && p <= |f| { assert f[p - 1] == f[1..][p - 2]; }
    }
    if HasUnescaped(f, s) {
      var p :| UnescapedAt(f, s, p);
      assert UnescapedAt(f[1..], s, p - 1);
    }
    if HasUnescaped(f[1..], s) {
      var p :| UnescapedAt(f[1..], s, p);
      assert UnescapedAt(f, s, p + 1);
    }
  }

  lemma OccursShift(f: string, s: string, k: nat, p: int)
    requires k <= p && k <= |f|
    ensures OccursAt(f, s, p) <==> OccursAt(f[k..], s, p - k)
  {
    if p + |s| <= |f| { assert f[p..p + |s|] == f[k..][p - k..p - k + |s|]; }
  }

  lemma OccursChars(f: string, s: string, p: int)
    requires IsSpecifier(s)
    ensures OccursAt(f, s, p) ==> f[p] == '%' && f[p + 1] != '%'
  {
    if OccursAt(f, s, p) {
      assert f[p] == f[p..p + |s|][0] && f[p + 1] == f[p..p + |s|][1];
      assert s[1] in s[1..];
    }
  }

  lemma UnescapedBehindEscape(f: string, s: string)
    requires IsSpecifier(s) && Escaped(s) <= f
    ensures HasUnescaped(f, s) <==> HasUnescaped(f[|s| + 1..], s)
  {
    var n := |s| + 1;
    var rest := f[n..];
    assert forall i :: 0 <= i < n ==> f[i] == Escaped(s)[i];
    forall p | 0 <= p < n ensures !UnescapedAt(f, s, p) {
      OccursChars(f, s, p);
      assert p > 1 ==> f[p] == s[p - 1] && s[p - 1] in s[1..];
    }
    forall p | p >= n ensures UnescapedAt(f, s, p) <==> UnescapedAt(rest, s, p - n) {
      OccursShift(f, s, n, p);
      if p == n { assert f[n - 1] == s[|s| - 1] && s[|s| - 1] in s[1..]; }
      else if p <= |f| { assert f[p - 1] == rest[p - n - 1]; }
    }
    if HasUnescaped(f, s) {
      var p :| UnescapedAt(f, s, p);
      assert UnescapedAt(rest, s, p - n);
    }
    if HasUnescaped(rest, s) {
      var p :| UnescapedAt(rest, s, p);
      assert UnescapedAt(f, s, p + n);
    }
  }

  lemma {:induction false} FlaggedPasses(w: string, rest: string, s: string)
    requires IsSpecifier(s) && Passes(w, rest, s)
    ensures Flagged(w + rest, s) == Flagged(rest, s)
    decreases |w|
  {
    if w == "" {
      assert w + rest == rest;
    } else {
      var f := w + rest;
      assert f[0..] == f && f[1..] == w[1..] + rest;
      forall j | 0 <= j < |w[1..]| ensures !(s <= f[1..][j..]) && !(Escaped(s) <= f[1..][j..]) {
        assert f[1..][j..] == f[j + 1..];
      }
      FlaggedPasses(w[1..], rest, s);
    }
  }

  /** Compiling one specifier neither makes nor destroys another's text at the front. */
  lemma CompileFrontOther(f: string, t: Specifier, done: bool, s: Specifier)
    requires s != t
    ensures Text(s) <= Edit(f, Text(t), done, CompileMarks(Text(t))) <==> Text(s) <= f
  {
    hide Text;
    var tt, m := Text(t), CompileMarks(Text(t));
    var c := Edit(f, tt, done, m);
    if f != "" {
      if Escaped(tt) <= f {
        PrefixSplit(Escaped(tt), f);
        PassesEscaped(t, f[|tt| + 1..], s);
        var rest := Edit(f[|tt| + 1..], tt, done, m);
        PassesEscaped(t, rest, s);
        PassesOther(t, rest, s);
        assert c[0..] == c && f[0..] == f;
      } else if tt <= f {
        PrefixSplit(tt, f);
        PassesOther(t, f[|tt|..], s);
        PassesOther(t, Edit(f[|tt|..], tt, true, m), s);
        assert c[0..] == c && f[0..] == f;
      } else {
        var d := Edit(f[1..], tt, done, m);
        assert c == [f[0]] + d && c[1..] == d;
        PrefixTail(Text(s), c);
        PrefixTail(Text(s), f);
        CompilePrefix(f[1..], tt, done, Text(s)[1..]);
      }
    }
  }

  lemma {:induction false} CompileKeepsFlag(f: string, t: Specifier, done: bool, s: Specifier)
    requires s != t
    ensures Flagged(Edit(f, Text(t), done, CompileMarks(Text(t))), Text(s)) == Flagged(f, Text(s))
    decreases |f|
  {
    hide Text;
    var tt, ts, m := Text(t), Text(s), CompileMarks(Text(t));
    if f == "" {
    } else if Escaped(tt) <= f {
      var rest := f[|tt| + 1..];
      PrefixSplit(Escaped(tt), f);
      CompileKeepsFlag(rest, t, done, s);
      PassesEscaped(t, rest, s);
      FlaggedPasses(Escaped(tt), rest, ts);
      var c := Edit(rest, tt, done, m);
      PassesEscaped(t, c, s);
      FlaggedPasses(Escaped(tt), c, ts);
      PassesOther(t, c, s);
      FlaggedPasses(tt, c, ts);
    } else if tt <= f {
      var rest := f[|tt|..];
      PrefixSplit(tt, f);
      CompileKeepsFlag(rest, t, true, s);
      PassesOther(t, rest, s);
      FlaggedPasses(tt, rest, ts);
      PassesOther(t, Edit(rest, tt, true, m), s);
      FlaggedPasses(tt, Edit(rest, tt, true, m), ts);
    } else {
      CompileKeepsFlagHere(f, t, done, s);
    }
  }

  /** The case of a format that does not start with the compiled specifier. */
  lemma {:induction false} CompileKeepsFlagHere(f: string, t: Specifier, done: bool, s: Specifier)
    requires s != t && f != "" && !(Text(t) <= f) && !(Escaped(Text(t)) <= f)
    ensures Flagged(Edit(f, Text(t), done, CompileMarks(Text(t))), Text(s)) == Flagged(f, Text(s))
    decreases |f|, 0
  {
    hide Text;
    var tt, ts, m := Text(t), Text(s), CompileMarks(Text(t));
    var c := Edit(f, tt, done, m);
    EditOther(f, tt, done, m);
    assert c != "";
    CompileFrontOther(f, t, done, s);
    if Escaped(ts) <= f {
      var rest := f[|ts| + 1..];
      PrefixSplit(Escaped(ts), f);
      PassesEscaped(s, rest, t);
      EditPasses(Escaped(ts), rest, t, done, m);
      CompileKeepsFlag(rest, t, done, s);
      assert c[|ts| + 1..] == Edit(rest, tt, done, m);
    } else if ts <= f {
      assert !(Escaped(ts) <= c) by { NotBoth(c, ts); }
    } else {
      CompileKeepsFlag(f[1..], t, done, s);
      assert c[1..] == Edit(f[1..], tt, done, m) && c[0] == f[0];
      assert !(Escaped(ts) <= c) by {
        CompileFrontOther(f[1..], t, done, s);
        PrefixTail(Escaped(ts), c);
        PrefixTail(Escaped(ts), f);
        assert Escaped(ts)[1..] == ts;
      }
    }
  }
}
