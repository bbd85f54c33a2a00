/**
  A log format from its text to the written line: LogFormat::parseFromFormat and updateFormatSpec,
  Logger::resolveLoggerFormatSpec and DefaultLogBuilder::build of external/easylogging++/easylogging++.cc.
  Fourteen compilations, the extraction of the date format and up to fifteen substitutions edit
  one string in turn; the theorems say what the line is, in one pass over the user's format.
 */
module FormatPipeline {
  import opened Levels
  import opened FormatScan
  import opened FormatSpecifiers

  // -------------------------------------------------------------------- formats as tokens

  /** A format as characters, specifiers, escaped specifiers and date formats in braces. */
  datatype Token = Lit(c: char) | Spec(s: Specifier) | Esc(s: Specifier) | Braced(fmt: string)

  /** A date format ends with its brace, and a brace right behind %datetime opens one. */
  ghost predicate WellBraced(toks: seq<Token>) {
    && (forall i :: 0 <= i < |toks| && toks[i].Braced? ==> '}' !in toks[i].fmt)
    && (forall i :: 0 < i < |toks| && toks[i - 1] == Spec(DateTime) ==> toks[i] != Lit('{'))
  }

  function Unparse(toks: seq<Token>): string {
    if toks == [] then "" else Source(toks[0]) + Unparse(toks[1..])
  }

  function Source(t: Token): string {
    match t
    case Lit(c) => [c]
    case Spec(s) => Text(s)
    case Esc(s) => Escaped(Text(s))
    case Braced(fmt) => Braces(fmt)
  }

  // -------------------------------------------------------------------- the edits, and the line in one pass

  datatype Op = Compile(s: Specifier) | Replace(s: Specifier, v: string)

  function OpMarks(op: Op): Marks {
    match op
    case Compile(s) => CompileMarks(Text(s))
    case Replace(s, v) => ReplaceMarks(Text(s), v)
  }

  function Apply(f: string, op: Op): string {
    Edit(f, Text(op.s), false, OpMarks(op))
  }

  function RunOps(f: string, ops: seq<Op>): string {
    if ops == [] then f else Apply(RunOps(f, ops[..|ops| - 1]), ops[|ops| - 1])
  }

  function Compiled(ops: seq<Op>, s: Specifier): bool {
    ops != [] && (ops[|ops| - 1] == Compile(s) || Compiled(ops[..|ops| - 1], s))
  }

  function Value(ops: seq<Op>, s: Specifier): Option<string> {
    if ops == [] then None
    else if ops[|ops| - 1].Replace? && ops[|ops| - 1].s == s then Some(ops[|ops| - 1].v)
    else Value(ops[..|ops| - 1], s)
  }

  /** What a token has become after some edits; seen tells that its specifier already stood unescaped to its left. */
  function Shown(t: Token, ops: seq<Op>, seen: bool): string {
    match t
    case Spec(s) => if !seen && Value(ops, s).Some? then Value(ops, s).value else Text(s)
    case Esc(s) => if (if seen then Compiled(ops, s) else Value(ops, s).Some?) then Text(s) else Escaped(Text(s))
    case _ => Source(t)
  }

  predicate SeenFor(t: Token, seen: set<Specifier>) {
    (t.Spec? || t.Esc?) && t.s in seen
  }

  function SeenAfter(t: Token, seen: set<Specifier>): set<Specifier> {
    if t.Spec? then seen + {t.s} else seen
  }

  /** The line after some edits, in one pass over the tokens: the first unescaped occurrence of a
      substituted specifier is its value, a dropped escape leaves the specifier's text, and the rest
      is as the user wrote it. */
  function Image(toks: seq<Token>, ops: seq<Op>, seen: set<Specifier>): string {
    if toks == [] then ""
    else Shown(toks[0], ops, SeenFor(toks[0], seen)) + Image(toks[1..], ops, SeenAfter(toks[0], seen))
  }

  /** Each specifier is compiled at most once, substituted at most once, and not compiled after that. */
  ghost predicate Fresh(ops: seq<Op>, op: Op) {
    Value(ops, op.s).None? && (op.Compile? ==> !Compiled(ops, op.s))
  }

  predicate Own(t: Token, s: Specifier) {
    (t.Spec? || t.Esc?) && t.s == s
  }

  /** After some edits, no other token starts an occurrence of s in front of what follows it. */
  ghost predicate Clear(toks: seq<Token>, ops: seq<Op>, s: Specifier, seen: set<Specifier>) {
    toks != [] ==>
      var t, rest := toks[0], Image(toks[1..], ops, SeenAfter(toks[0], seen));
      && (Own(t, s) || Passes(Shown(t, ops, SeenFor(t, seen)), rest, Text(s)))
      && Clear(toks[1..], ops, s, SeenAfter(t, seen))
  }

  // -------------------------------------------------------------------- one edit, token by token

  lemma LastOp(ops: seq<Op>, op: Op, s: Specifier)
    ensures Compiled(ops + [op], s) == (op == Compile(s) || Compiled(ops, s))
    ensures Value(ops + [op], s) == if op.Replace? && op.s == s then Some(op.v) else Value(ops, s)
  {
    assert (ops + [op])[..|ops|] == ops;
  }

  /** The edit at a token of its own specifier. */
  lemma EditOwn(t: Token, ops: seq<Op>, op: Op, seen: bool, rest: string)
    requires (t.Spec? || t.Esc?) && t.s == op.s && Fresh(ops, op)
    ensures Edit(Shown(t, ops, seen) + rest, Text(op.s), seen, OpMarks(op))
            == Shown(t, ops + [op], seen) + Edit(rest, Text(op.s), seen || t.Spec?, OpMarks(op))
  {
    hide Text, Edit;
    var s, m := Text(op.s), OpMarks(op);
    LastOp(ops, op, op.s);
    EditUnescaped(rest, s, seen, m);
    EditEscaped(rest, s, seen, m);
  }

  /** One edit of the string is one more edit of every token. */
  lemma {:induction false} StepImage(toks: seq<Token>, ops: seq<Op>, op: Op, seen: set<Specifier>)
    requires Clear(toks, ops, op.s, seen) && Fresh(ops, op)
    ensures Edit(Image(toks, ops, seen), Text(op.s), op.s in seen, OpMarks(op)) == Image(toks, ops + [op], seen)
    decreases |toks|
  {
    hide Text, Fresh, Passes, Shown;
    if toks != [] {
      var t := toks[0];
      var mine := SeenFor(t, seen);
      var rest := Image(toks[1..], ops, SeenAfter(t, seen));
      StepImage(toks[1..], ops, op, SeenAfter(t, seen));
      if Own(t, op.s) {
        EditOwn(t, ops, op, mine, rest);
      } else {
        EditPasses(Shown(t, ops, mine), rest, op.s, op.s in seen, OpMarks(op));
        ShownOther(t, ops, op, mine);
      }
    }
  }

  lemma ShownOther(t: Token, ops: seq<Op>, op: Op, seen: bool)
    requires (t.Spec? || t.Esc?) ==> t.s != op.s
    ensures Shown(t, ops + [op], seen) == Shown(t, ops, seen)
  {
    if t.Spec? || t.Esc? { LastOp(ops, op, t.s); }
  }

  ghost predicate FreshOps(done: seq<Op>, ops: seq<Op>) {
    forall i :: 0 <= i < |ops| ==> Fresh(done + ops[..i], ops[i])
  }

  /** A run of edits of which each finds nothing of its specifier in the other tokens. */
  ghost predicate ClearOps(toks: seq<Token>, done: seq<Op>, ops: seq<Op>) {
    forall i :: 0 <= i < |ops| ==> Clear(toks, done + ops[..i], ops[i].s, {})
  }

  lemma {:induction false} RunImage(toks: seq<Token>, done: seq<Op>, ops: seq<Op>)
    requires FreshOps(done, ops) && ClearOps(toks, done, ops)
    ensures RunOps(Image(toks, done, {}), ops) == Image(toks, done + ops, {})
    decreases |ops|
  {
    hide Fresh, Clear, Text;
    if ops == [] {
      assert done + ops == done;
    } else {
      var front, op := ops[..|ops| - 1], ops[|ops| - 1];
      forall i | 0 <= i < |front|
        ensures Fresh(done + front[..i], front[i]) && Clear(toks, done + front[..i], front[i].s, {})
      {
        assert front[..i] == ops[..i] && front[i] == ops[i];
      }
      RunImage(toks, done, front);
      StepImage(toks, done + front, op, {});
      assert done + ops == done + front + [op];
    }
  }

  // -------------------------------------------------------------------- formats and values without a stray %

  /** Every `%` belongs to a specifier, to the escape of one or to a date format that holds none. */
  ghost predicate PlainTokens(toks: seq<Token>) {
    forall i :: 0 <= i < |toks| ==> PlainToken(toks[i])
  }

  ghost predicate PlainToken(t: Token) {
    match t
    case Lit(c) => c != '%'
    case Braced(fmt) => Inert(fmt)
    case _ => true
  }

  ghost predicate PlainValues(ops: seq<Op>) {
    forall s :: Value(ops, s).Some? ==> '%' !in Value(ops, s).value
  }

  /** An edit passes over the text of every token of another specifier. */
  lemma ShownPasses(t: Token, ops: seq<Op>, seen: bool, rest: string, s: Specifier)
    requires PlainToken(t) && PlainValues(ops) && !Own(t, s)
    ensures Passes(Shown(t, ops, seen), rest, Text(s))
  {
    hide Text, Passes;
    match t
    case Lit(c) => PassesPlain([c], rest, s);
    case Braced(fmt) => PassesBraces(fmt, rest, s);
    case Spec(k) =>
      PassesOther(k, rest, s);
      if Value(ops, k).Some? { PassesPlain(Value(ops, k).value, rest, s); }
    case Esc(k) =>
      PassesOther(k, rest, s);
      PassesEscaped(k, rest, s);
  }

  lemma {:induction false} PlainIsClear(toks: seq<Token>, ops: seq<Op>, s: Specifier, seen: set<Specifier>)
    requires PlainTokens(toks) && PlainValues(ops)
    ensures Clear(toks, ops, s, seen)
    decreases |toks|
  {
    hide Text, Passes, Shown, PlainToken, PlainValues;
    if toks != [] {
      var t := toks[0];
      PlainIsClear(toks[1..], ops, s, SeenAfter(t, seen));
      if !Own(t, s) {
        ShownPasses(t, ops, SeenFor(t, seen), Image(toks[1..], ops, SeenAfter(t, seen)), s);
      }
    }
  }

  lemma {:induction false} NothingDone(toks: seq<Token>, seen: set<Specifier>)
    ensures Image(toks, [], seen) == Unparse(toks)
    decreases |toks|
  {
    if toks != [] { NothingDone(toks[1..], SeenAfter(toks[0], seen)); }
  }

  // -------------------------------------------------------------------- the date format

  /** What follows the first closing brace. */
  function AfterBrace(g: string): string {
    if g == "" then "" else if g[0] == '}' then g[1..] else AfterBrace(g[1..])
  }

  function BeforeBrace(g: string): string {
    if g == "" || g[0] == '}' then "" else [g[0]] + BeforeBrace(g[1..])
  }

  function DropBraces(g: string): string {
    if g != "" && g[0] == '{' then AfterBrace(g[1..]) else g
  }

  /** A format without the date format in braces behind its first unescaped %datetime. */
  function Cut(f: string): string
    decreases |f|
  {
    var d := Text(DateTime);
    if f == "" then ""
    else if Escaped(d) <= f then Escaped(d) + Cut(f[|d| + 1..])
    else if d <= f then d + DropBraces(f[|d|..])
    else [f[0]] + Cut(f[1..])
  }

  function CutTokens(toks: seq<Token>): seq<Token> {
    if toks == [] then []
    else if toks[0] == Spec(DateTime) then
      if |toks| > 1 && toks[1].Braced? then [toks[0]] + toks[2..] else toks
    else [toks[0]] + CutTokens(toks[1..])
  }

  lemma {:induction false} CutPasses(w: string, rest: string)
    requires Passes(w, rest, Text(DateTime))
    ensures Cut(w + rest) == w + Cut(rest)
    decreases |w|
  {
    hide Text;
    var d := Text(DateTime);
    if w == "" {
      assert w + rest == rest;
    } else {
      var f := w + rest;
      assert f[0..] == f && f[1..] == w[1..] + rest;
      forall j | 0 <= j < |w[1..]| ensures !(d <= f[1..][j..]) && !(Escaped(d) <= f[1..][j..]) {
        assert f[1..][j..] == f[j + 1..];
      }
      CutPasses(w[1..], rest);
    }
  }

  lemma CutEscaped(rest: string)
    ensures Cut(Escaped(Text(DateTime)) + rest) == Escaped(Text(DateTime)) + Cut(rest)
  {
    hide Text;
    assert (Escaped(Text(DateTime)) + rest)[|Text(DateTime)| + 1..] == rest;
  }

  lemma CutHere(rest: string)
    ensures Cut(Text(DateTime) + rest) == Text(DateTime) + DropBraces(rest)
  {
    hide Text;
    NotBoth(Text(DateTime) + rest, Text(DateTime));
    assert (Text(DateTime) + rest)[|Text(DateTime)|..] == rest;
  }

  lemma {:induction false} AfterInert(fmt: string, rest: string)
    requires '}' !in fmt
    ensures AfterBrace(fmt + "}" + rest) == rest
  {
    var g := fmt + "}" + rest;
    if fmt == "" {
      assert g[1..] == rest;
    } else {
      assert g[0] == fmt[0] && fmt[0] in fmt;
      assert g[1..] == fmt[1..] + "}" + rest;
      AfterInert(fmt[1..], rest);
    }
  }

  ghost predicate NoValues(ops: seq<Op>) {
    forall s :: Value(ops, s).None?
  }

  /** Nothing but a date format in braces starts with a brace. */
  lemma ImageFront(toks: seq<Token>, ops: seq<Op>, seen: set<Specifier>)
    requires NoValues(ops) && (toks != [] ==> !toks[0].Braced? && toks[0] != Lit('{'))
    ensures DropBraces(Image(toks, ops, seen)) == Image(toks, ops, seen)
  {
    hide Text;
    if toks != [] {
      var shown := Shown(toks[0], ops, SeenFor(toks[0], seen));
      assert shown != "" && shown[0] != '{';
      assert Image(toks, ops, seen)[0] == shown[0];
    }
  }

  /** Extracting the date format from the string takes one token out. */
  lemma {:induction false} CutImage(toks: seq<Token>, ops: seq<Op>, seen: set<Specifier>)
    requires WellBraced(toks) && Clear(toks, ops, DateTime, seen) && NoValues(ops) && DateTime !in seen
    ensures Cut(Image(toks, ops, seen)) == Image(CutTokens(toks), ops, seen)
    decreases |toks|
  {
    hide Text, Cut, NoValues, Shown, Passes;
    if toks == [] {
      CutEmpty();
    } else {
      var t, tail := toks[0], toks[1..];
      var shown, rest := Shown(t, ops, SeenFor(t, seen)), Image(tail, ops, SeenAfter(t, seen));
      BracedTail(toks);
      if t == Spec(DateTime) {
        ShownPlain(t, ops, SeenFor(t, seen));
        CutHere(rest);
        if tail != [] && tail[0].Braced? {
          ShownPlain(tail[0], ops, false);
          var more := Image(tail[1..], ops, SeenAfter(t, seen));
          assert rest == "{" + (tail[0].fmt + "}" + more) && rest[1..] == tail[0].fmt + "}" + more;
          AfterInert(tail[0].fmt, more);
          assert tail[1..] == toks[2..] && CutTokens(toks) == [t] + toks[2..];
          assert Image([t] + toks[2..], ops, seen) == shown + Image(toks[2..], ops, SeenAfter(t, seen)) by {
            assert ([t] + toks[2..])[1..] == toks[2..];
          }
        } else {
          ImageFront(tail, ops, SeenAfter(t, seen));
        }
      } else {
        CutImage(tail, ops, SeenAfter(t, seen));
        assert CutTokens(toks)[1..] == CutTokens(tail);
        if t == Esc(DateTime) {
          ShownPlain(t, ops, SeenFor(t, seen));
          CutEscaped(rest);
        } else {
          CutPasses(shown, rest);
        }
      }
    }
  }

  lemma CutEmpty()
    ensures Cut("") == ""
  {
  }

  lemma BracedTail(toks: seq<Token>)
    requires WellBraced(toks) && toks != []
    ensures WellBraced(toks[1..])
    ensures |toks| > 1 && toks[0] == Spec(DateTime) ==> toks[1] != Lit('{')
    ensures |toks| > 1 && toks[1].Braced? ==> '}' !in toks[1].fmt
  {
  }

  lemma NoValuesArePlain(ops: seq<Op>)
    requires NoValues(ops)
    ensures PlainValues(ops)
  {
  }

  lemma ShownPlain(t: Token, ops: seq<Op>, seen: bool)
    requires NoValues(ops) && (t.Spec? || t.Braced? || (t.Esc? && !seen))
    ensures Shown(t, ops, seen) == Source(t)
  {
  }

  lemma {:induction false} CutTokensPlain(toks: seq<Token>)
    requires PlainTokens(toks)
    ensures PlainTokens(CutTokens(toks))
    decreases |toks|
  {
    if toks != [] && toks[0] != Spec(DateTime) { CutTokensPlain(toks[1..]); }
  }
}
