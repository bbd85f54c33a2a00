/**
  Writing a log line: the calls of the format edits in LogFormat::parseFromFormat, LogFormat::updateFormatSpec,
  Logger::resolveLoggerFormatSpec and DefaultLogBuilder::build of external/easylogging++/easylogging++.cc, and
  what comes out of them together.
 */
module LogLine {
  import opened Levels
  import opened Strings
  import opened FormatScan
  import opened FormatSpecifiers
  import opened FormatPipeline

  // -------------------------------------------------------------------- the calls

  /** The order of the calls of conditionalAddFlag. */
  const COMPILE_ORDER: seq<Specifier> := [
    App, LevelName, LevShort, LoggerId, Thread, File, FileBase, Line,
    Location, Function, User, Host, Message, VerboseLevel
  ]

  /** A call of replaceFirstWithEscape, and whether it is made. */
  datatype Slot = Slot(s: Specifier, v: string, on: bool)

  function OpsOf(slots: seq<Slot>): seq<Op> {
    if slots == [] then []
    else
      var last := slots[|slots| - 1];
      OpsOf(slots[..|slots| - 1]) + if last.on then [Replace(last.s, last.v)] else []
  }

  function CompileOps(order: seq<Specifier>): seq<Op> {
    if order == [] then [] else CompileOps(order[..|order| - 1]) + [Compile(order[|order| - 1])]
  }

  /** Everything a line shows beside its format; the message level differs from the format's in being Verbose or not. */
  datatype Values = Values(
    user: string, host: string, loggerId: string,
    app: string, thread: string, date: string, func: string, file: string, fileBase: string,
    line: string, location: string, verboseLevel: string, message: string
  )

  /** The k...LevelLogValue constants. */
  function LevelValue(level: Level): string {
    match level
    case Info => "INFO "
    case Debug => "DEBUG"
    case Warning => "WARN "
    case Error => "ERROR"
    case Fatal => "FATAL"
    case Verbose => "VER"
    case Trace => "TRACE"
    case _ => ""
  }

  /** The k...LevelShortLogValue constants. */
  function LevelShortValue(level: Level): string {
    match level
    case Info => "I"
    case Debug => "D"
    case Warning => "W"
    case Error => "E"
    case Fatal => "F"
    case Verbose => "V"
    case Trace => "T"
    case _ => ""
  }

  /** The calls of updateFormatSpec and resolveLoggerFormatSpec. */
  function FormatSlots(level: Level, flags: set<Specifier>, v: Values): seq<Slot> {
    [
      Slot(LevelName, LevelValue(level), level in VALID_LEVELS),
      Slot(LevShort, LevelShortValue(level), level in VALID_LEVELS),
      Slot(User, v.user, User in flags),
      Slot(Host, v.host, Host in flags),
      Slot(LoggerId, v.loggerId, true)
    ]
  }

  /** The calls of build; level is the message's. */
  function LineSlots(level: Level, flags: set<Specifier>, v: Values): seq<Slot> {
    [
      Slot(App, v.app, App in flags),
      Slot(Thread, v.thread, Thread in flags),
      Slot(DateTime, v.date, DateTime in flags),
      Slot(Function, v.func, Function in flags),
      Slot(File, v.file, File in flags),
      Slot(FileBase, v.fileBase, FileBase in flags),
      Slot(Line, v.line, Line in flags),
      Slot(Location, v.location, Location in flags),
      Slot(VerboseLevel, v.verboseLevel, level == Verbose && VerboseLevel in flags),
      Slot(Message, v.message, Message in flags)
    ]
  }

  // -------------------------------------------------------------------- the calls form a valid run

  ghost predicate DistinctSlots(slots: seq<Slot>) {
    forall i, j :: 0 <= i < j < |slots| ==> slots[i].s != slots[j].s
  }

  lemma {:induction false} SlotValue(done: seq<Op>, slots: seq<Slot>, s: Specifier)
    requires NoValues(done)
    ensures Value(done + OpsOf(slots), s).Some? ==>
              exists i :: 0 <= i < |slots| && slots[i].s == s && Value(done + OpsOf(slots), s).value == slots[i].v
    decreases |slots|
  {
    if slots == [] {
      assert done + OpsOf(slots) == done;
    } else {
      var front, last := slots[..|slots| - 1], slots[|slots| - 1];
      SlotValue(done, front, s);
      if last.on {
        assert done + OpsOf(slots) == (done + OpsOf(front)) + [Replace(last.s, last.v)];
        LastOp(done + OpsOf(front), Replace(last.s, last.v), s);
      } else {
        assert OpsOf(slots) == OpsOf(front);
      }
      if Value(done + OpsOf(front), s).Some? {
        var i :| 0 <= i < |front| && front[i].s == s && Value(done + OpsOf(front), s).value == front[i].v;
        assert slots[i] == front[i];
      }
    }
  }

  /** Substitutions of different specifiers are fresh. */
  lemma {:induction false} SlotsAreFresh(done: seq<Op>, slots: seq<Slot>)
    requires NoValues(done) && DistinctSlots(slots)
    ensures FreshOps(done, OpsOf(slots))
    decreases |slots|
  {
    hide NoValues;
    if slots != [] {
      var front, last := slots[..|slots| - 1], slots[|slots| - 1];
      SlotsAreFresh(done, front);
      var ops, before := OpsOf(slots), OpsOf(front);
      if last.on {
        forall i | 0 <= i < |ops| ensures Fresh(done + ops[..i], ops[i]) {
          if i < |before| {
            assert ops[..i] == before[..i] && ops[i] == before[i];
          } else {
            assert ops[..i] == before;
            SlotValue(done, front, last.s);
          }
        }
      } else {
        assert ops == before;
      }
    }
  }

  /** Values without `%`, except perhaps the last, hide nothing in a plain format. */
  lemma {:induction false} PlainSlotsAreClear(toks: seq<Token>, done: seq<Op>, slots: seq<Slot>)
    requires PlainTokens(toks) && NoValues(done) && forall i :: 0 <= i < |slots| - 1 ==> '%' !in slots[i].v
    ensures ClearOps(toks, done, OpsOf(slots))
    decreases |slots|
  {
    hide NoValues, Clear, PlainTokens;
    if slots != [] {
      var front, last := slots[..|slots| - 1], slots[|slots| - 1];
      PlainSlotsAreClear(toks, done, front);
      var ops, before := OpsOf(slots), OpsOf(front);
      if last.on {
        forall i | 0 <= i < |ops| ensures Clear(toks, done + ops[..i], ops[i].s, {}) {
          if i < |before| {
            assert ops[..i] == before[..i] && ops[i] == before[i];
          } else {
            assert ops[..i] == before;
            forall s | Value(done + before, s).Some? ensures '%' !in Value(done + before, s).value {
              SlotValue(done, front, s);
            }
            PlainIsClear(toks, done + before, last.s, {});
          }
        }
      } else {
        assert ops == before;
      }
    }
  }

  ghost predicate DistinctOrder(order: seq<Specifier>) {
    forall i, j :: 0 <= i < j < |order| ==> order[i] != order[j]
  }

  lemma {:induction false} CompiledIn(order: seq<Specifier>, s: Specifier)
    ensures Compiled(CompileOps(order), s) <==> s in order
    ensures Value(CompileOps(order), s).None?
    decreases |order|
  {
    if order != [] {
      var front, last := order[..|order| - 1], order[|order| - 1];
      CompiledIn(front, s);
      LastOp(CompileOps(front), Compile(last), s);
      assert order == front + [last];
    }
  }

  lemma {:induction false} CompilesAreFresh(order: seq<Specifier>)
    requires DistinctOrder(order)
    ensures FreshOps([], CompileOps(order))
    decreases |order|
  {
    if order != [] {
      var front, last := order[..|order| - 1], order[|order| - 1];
      CompilesAreFresh(front);
      var ops, before := CompileOps(order), CompileOps(front);
      forall i | 0 <= i < |ops| ensures Fresh([] + ops[..i], ops[i]) {
        if i < |before| {
          assert ops[..i] == before[..i] && ops[i] == before[i];
        } else {
          assert [] + ops[..i] == before;
          CompiledIn(front, last);
        }
      }
    }
  }

  lemma {:induction false} PlainCompilesAreClear(toks: seq<Token>, order: seq<Specifier>)
    requires PlainTokens(toks)
    ensures ClearOps(toks, [], CompileOps(order))
    decreases |order|
  {
    hide Clear, PlainTokens;
    if order != [] {
      var front := order[..|order| - 1];
      PlainCompilesAreClear(toks, front);
      var ops, before := CompileOps(order), CompileOps(front);
      forall i | 0 <= i < |ops| ensures Clear(toks, [] + ops[..i], ops[i].s, {}) {
        if i < |before| {
          assert ops[..i] == before[..i] && ops[i] == before[i];
        } else {
          assert [] + ops[..i] == before;
          forall s ensures Value(before, s).None? { CompiledIn(front, s); }
          PlainIsClear(toks, before, ops[i].s, {});
        }
      }
    }
  }

  /** The place of a specifier among the substitutions. */
  function Rank(s: Specifier): nat {
    match s
    case LevelName => 0 case LevShort => 1 case User => 2 case Host => 3 case LoggerId => 4
    case App => 5 case Thread => 6 case DateTime => 7 case Function => 8 case File => 9
    case FileBase => 10 case Line => 11 case Location => 12 case VerboseLevel => 13 case Message => 14
  }

  lemma SlotsAreDistinct(level: Level, messageLevel: Level, flags: set<Specifier>, v: Values)
    ensures DistinctSlots(FormatSlots(level, flags, v) + LineSlots(messageLevel, flags, v))
  {
    var slots := FormatSlots(level, flags, v) + LineSlots(messageLevel, flags, v);
    assert forall i :: 0 <= i < |slots| ==> Rank(slots[i].s) == i;
  }

  // -------------------------------------------------------------------- the meaning of a line

  ghost function FlagsOf(format: string): set<Specifier> {
    set s: Specifier | HasUnescaped(format, Text(s))
  }

  /** The line that the calls write for a user's format. */
  ghost function WrittenLine(format: string, level: Level, messageLevel: Level, v: Values): string {
    var flags := FlagsOf(format);
    RunOps(Cut(RunOps(format, CompileOps(COMPILE_ORDER))),
           OpsOf(FormatSlots(level, flags, v) + LineSlots(messageLevel, flags, v)))
  }

  ghost predicate PlainBesideMessage(v: Values) {
    && '%' !in v.user && '%' !in v.host && '%' !in v.loggerId && '%' !in v.app && '%' !in v.thread
    && '%' !in v.date && '%' !in v.func && '%' !in v.file && '%' !in v.fileBase && '%' !in v.line
    && '%' !in v.location && '%' !in v.verboseLevel
  }

  /** All calls of replaceFirstWithEscape for a line of a format, in order. */
  ghost function AllSlots(toks: seq<Token>, level: Level, messageLevel: Level, v: Values): seq<Slot> {
    var flags := FlagsOf(Unparse(toks));
    FormatSlots(level, flags, v) + LineSlots(messageLevel, flags, v)
  }

  /**
    Each edit finds its specifier in its own tokens only: neither in the rest of the format, nor in a value that was
    substituted before, nor across the end of one.
   */
  ghost predicate ClearLine(toks: seq<Token>, level: Level, messageLevel: Level, v: Values) {
    var compiles := CompileOps(COMPILE_ORDER);
    && ClearOps(toks, [], compiles)
    && Clear(toks, compiles, DateTime, {})
    && ClearOps(CutTokens(toks), compiles, OpsOf(AllSlots(toks, level, messageLevel, v)))
  }

  /** Compiling a format and cutting its date format out, token by token. */
  lemma CompiledMeaning(toks: seq<Token>)
    requires WellBraced(toks) && ClearOps(toks, [], CompileOps(COMPILE_ORDER))
    requires Clear(toks, CompileOps(COMPILE_ORDER), DateTime, {})
    ensures NoValues(CompileOps(COMPILE_ORDER))
    ensures Cut(RunOps(Unparse(toks), CompileOps(COMPILE_ORDER)))
            == Image(CutTokens(toks), CompileOps(COMPILE_ORDER), {})
  {
    CompilesAreFresh(COMPILE_ORDER);
    hide Text, Cut, RunOps, Image, CompileOps, Unparse, Clear, ClearOps, FreshOps, WellBraced, COMPILE_ORDER;
    var compiles := CompileOps(COMPILE_ORDER);
    NothingDone(toks, {});
    RunImage(toks, [], compiles);
    assert [] + compiles == compiles;
    forall s ensures Value(compiles, s).None? { CompiledIn(COMPILE_ORDER, s); }
    CutImage(toks, compiles, {});
  }

  /** For every format, message and other values in which each edit finds its specifier in its own tokens only: the
      thirty edits in place write the line that one pass over the format writes. */
  lemma LineMeaning(toks: seq<Token>, level: Level, messageLevel: Level, v: Values)
    requires WellBraced(toks) && ClearLine(toks, level, messageLevel, v)
    ensures WrittenLine(Unparse(toks), level, messageLevel, v)
            == Image(CutTokens(toks), CompileOps(COMPILE_ORDER) + OpsOf(AllSlots(toks, level, messageLevel, v)), {})
  {
    hide Text, Cut, RunOps, Image, CompileOps, OpsOf, FlagsOf, Unparse, Clear, ClearOps, FreshOps, WellBraced;
    hide COMPILE_ORDER, FormatSlots, LineSlots, NoValues;
    var flags := FlagsOf(Unparse(toks));
    var compiles, slots := CompileOps(COMPILE_ORDER), AllSlots(toks, level, messageLevel, v);
    CompiledMeaning(toks);
    SlotsAreDistinct(level, messageLevel, flags, v);
    SlotsAreFresh(compiles, slots);
    RunImage(CutTokens(toks), compiles, OpsOf(slots));
  }

  /** So it is for every format of which each `%` has its place, every message, and other values without `%`. */
  lemma PlainLineIsClear(toks: seq<Token>, level: Level, messageLevel: Level, v: Values)
    requires PlainTokens(toks) && PlainBesideMessage(v)
    ensures ClearLine(toks, level, messageLevel, v)
  {
    hide Text, CompileOps, OpsOf, FlagsOf, Unparse, Clear, ClearOps, PlainTokens;
    var flags := FlagsOf(Unparse(toks));
    var compiles, slots := CompileOps(COMPILE_ORDER), AllSlots(toks, level, messageLevel, v);
    PlainCompilesAreClear(toks, COMPILE_ORDER);
    forall s ensures Value(compiles, s).None? { CompiledIn(COMPILE_ORDER, s); }
    NoValuesArePlain(compiles);
    PlainIsClear(toks, compiles, DateTime, {});
    CutTokensPlain(toks);
    SlotsArePlain(level, messageLevel, flags, v);
    PlainSlotsAreClear(CutTokens(toks), compiles, slots);
  }

  lemma SlotsArePlain(level: Level, messageLevel: Level, flags: set<Specifier>, v: Values)
    requires PlainBesideMessage(v)
    ensures var slots := FormatSlots(level, flags, v) + LineSlots(messageLevel, flags, v);
            forall i :: 0 <= i < |slots| - 1 ==> '%' !in slots[i].v
  {
  }

  // -------------------------------------------------------------------- the flags

  /** Whatever has been compiled before, the flag of a specifier says what the user's format says. */
  lemma {:induction false} CompilesKeepFlag(f: string, order: seq<Specifier>, s: Specifier)
    requires s !in order
    ensures HasUnescaped(RunOps(f, CompileOps(order)), Text(s)) <==> HasUnescaped(f, Text(s))
    decreases |order|
  {
    hide Text, HasUnescaped;
    if order != [] {
      var front, last := order[..|order| - 1], order[|order| - 1];
      var g := RunOps(f, CompileOps(front));
      CompilesKeepFlag(f, front, s);
      CompileKeepsFlag(g, last, false, s);
      FlaggedIsUnescaped(g, Text(s));
      FlaggedIsUnescaped(Apply(g, Compile(last)), Text(s));
      assert CompileOps(order)[..|order| - 1] == CompileOps(front) by { CompileCount(front); }
      CompileCount(order);
    }
  }

  lemma {:induction false} CompileCount(order: seq<Specifier>)
    ensures |CompileOps(order)| == |order|
    decreases |order|
  {
    if order != [] { CompileCount(order[..|order| - 1]); }
  }

  lemma CompileOneMore(f: string, order: seq<Specifier>, i: nat)
    requires i < |order|
    ensures RunOps(f, CompileOps(order[..i + 1])) == Apply(RunOps(f, CompileOps(order[..i])), Compile(order[i]))
  {
    var now := order[..i + 1];
    assert now[..|now| - 1] == order[..i];
    CompileCount(order[..i]);
    var ops := CompileOps(now);
    assert ops[..|ops| - 1] == CompileOps(order[..i]);
  }

  // -------------------------------------------------------------------- the code

  /** In a format without an unescaped %datetime there is nothing to extract. */
  lemma {:induction false} CutNothing(f: string)
    requires !Flagged(f, Text(DateTime))
    ensures Cut(f) == f
    decreases |f|
  {
    hide Text;
    var d := Text(DateTime);
    if f != "" {
      if Escaped(d) <= f {
        PrefixSplit(Escaped(d), f);
        CutNothing(f[|d| + 1..]);
      } else {
        CutNothing(f[1..]);
      }
    }
  }

  ghost predicate FirstUnescaped(f: string, s: string, p: nat) {
    UnescapedAt(f, s, p) && forall q :: 0 <= q < p ==> !UnescapedAt(f, s, q)
  }

  lemma FirstPastEscape(f: string, s: string, p: nat)
    requires IsSpecifier(s) && Escaped(s) <= f && FirstUnescaped(f, s, p)
    ensures p >= |s| + 1 && FirstUnescaped(f[|s| + 1..], s, p - |s| - 1)
  {
    EscapedFrontIsNotFirst(f, s, p);
    hide UnescapedAt, IsSpecifier;
    var rest := f[|s| + 1..];
    UnescapedPastEscape(f, s, p - |s| - 1);
    forall q | 0 <= q < p - |s| - 1 ensures !UnescapedAt(rest, s, q) {
      UnescapedPastEscape(f, s, q);
      assert !UnescapedAt(f, s, q + |s| + 1);
    }
  }

  lemma FirstPastChar(f: string, s: string, p: nat)
    requires IsSpecifier(s) && f != "" && !(Escaped(s) <= f) && !(s <= f) && FirstUnescaped(f, s, p)
    ensures p >= 1 && FirstUnescaped(f[1..], s, p - 1)
  {
    NotAtFront(f, s);
    hide UnescapedAt, IsSpecifier;
    var rest := f[1..];
    UnescapedPastChar(f, s, p - 1);
    forall q | 0 <= q < p - 1 ensures !UnescapedAt(rest, s, q) {
      UnescapedPastChar(f, s, q);
      assert !UnescapedAt(f, s, q + 1);
    }
  }

  lemma NotAtFront(f: string, s: string)
    requires IsSpecifier(s) && !(s <= f)
    ensures !UnescapedAt(f, s, 0)
  {
    NoOccurrence(f, s, 0);
    assert f[0..] == f;
  }

  lemma FirstAtFront(f: string, s: string, p: nat)
    requires IsSpecifier(s) && s <= f && FirstUnescaped(f, s, p)
    ensures p == 0
  {
    assert f[..|s|] == s && UnescapedAt(f, s, 0);
  }

  /** The extraction happens behind the first unescaped occurrence. */
  lemma {:induction false} CutAtFirst(f: string, p: nat)
    requires FirstUnescaped(f, Text(DateTime), p)
    ensures p + |Text(DateTime)| <= |f|
    ensures Cut(f) == f[..p + |Text(DateTime)|] + DropBraces(f[p + |Text(DateTime)|..])
    decreases |f|
  {
    var d := Text(DateTime);
    FirstIsWithin(f, d, p);
    hide Text, Cut, DropBraces, FirstUnescaped, IsSpecifier, Escaped;
    if Escaped(d) <= f {
      FirstPastEscape(f, d, p);
      CutAtFirst(f[|d| + 1..], p - |d| - 1);
      CutBehindEscape(f, p - 1);
    } else if d <= f {
      FirstAtFront(f, d, p);
      CutAtFront(f);
    } else {
      FirstPastChar(f, d, p);
      CutAtFirst(f[1..], p - 1);
      CutBehindChar(f, p - 1 + |d|);
    }
  }

  lemma FirstIsWithin(f: string, s: string, p: nat)
    requires FirstUnescaped(f, s, p)
    ensures p + |s| <= |f|
  {
  }

  lemma CutBehindEscape(f: string, k: nat)
    requires Escaped(Text(DateTime)) <= f && k <= |f| - |Text(DateTime)| - 1
    requires var rest := f[|Text(DateTime)| + 1..]; Cut(rest) == rest[..k] + DropBraces(rest[k..])
    ensures var n := |Text(DateTime)| + 1 + k; Cut(f) == f[..n] + DropBraces(f[n..])
  {
    hide Text, Cut, DropBraces;
    var e, rest := Escaped(Text(DateTime)), f[|Text(DateTime)| + 1..];
    PrefixSplit(e, f);
    CutEscaped(rest);
    JoinCut(e, rest, k);
  }

  lemma CutAtFront(f: string)
    requires Text(DateTime) <= f && !(Escaped(Text(DateTime)) <= f)
    ensures var n := |Text(DateTime)|; Cut(f) == f[..n] + DropBraces(f[n..])
  {
    hide Text, Cut, DropBraces, Escaped;
    var d := Text(DateTime);
    PrefixSplit(d, f);
    CutHere(f[|d|..]);
    assert f[..|d|] == d;
  }

  lemma CutBehindChar(f: string, k: nat)
    requires f != "" && !(Text(DateTime) <= f) && !(Escaped(Text(DateTime)) <= f) && k < |f|
    requires var rest := f[1..]; Cut(rest) == rest[..k] + DropBraces(rest[k..])
    ensures Cut(f) == f[..1 + k] + DropBraces(f[1 + k..])
  {
    hide Text, Cut, DropBraces, Escaped;
    CutOther(f);
    JoinCut([f[0]], f[1..], k);
    assert f == [f[0]] + f[1..];
  }

  lemma JoinCut(a: string, rest: string, k: nat)
    requires k <= |rest|
    ensures a + (rest[..k] + DropBraces(rest[k..])) == (a + rest)[..|a| + k] + DropBraces((a + rest)[|a| + k..])
  {
    hide DropBraces;
    assert (a + rest)[..|a| + k] == a + rest[..k] && (a + rest)[|a| + k..] == rest[k..];
  }

  lemma CutOther(f: string)
    requires f != "" && !(Text(DateTime) <= f) && !(Escaped(Text(DateTime)) <= f)
    ensures Cut(f) == [f[0]] + Cut(f[1..])
  {
    hide Text;
  }

  lemma EscapedFrontIsNotFirst(f: string, s: string, p: nat)
    requires IsSpecifier(s) && Escaped(s) <= f && UnescapedAt(f, s, p)
    ensures p >= |s| + 1
  {
    assert forall i :: 0 <= i < |s| + 1 ==> f[i] == Escaped(s)[i];
    OccursChars(f, s, p);
    CharIn(s[1..], p - 2);
  }

  lemma UnescapedPastEscape(f: string, s: string, q: nat)
    requires IsSpecifier(s) && Escaped(s) <= f
    ensures UnescapedAt(f[|s| + 1..], s, q) <==> UnescapedAt(f, s, q + |s| + 1)
  {
    var n := |s| + 1;
    OccursShift(f, s, n, q + n);
    assert f[n - 1] == Escaped(s)[n - 1] == s[|s| - 1] && s[|s| - 1] in s[1..];
    if 0 < q <= |f| - n { assert f[n..][q - 1] == f[q + n - 1]; }
  }

  lemma UnescapedPastChar(f: string, s: string, q: nat)
    requires IsSpecifier(s) && f != "" && !(Escaped(s) <= f)
    ensures UnescapedAt(f[1..], s, q) <==> UnescapedAt(f, s, q + 1)
  {
    OccursShift(f, s, 1, q + 1);
    NoEscaped(f, s, 0);
    assert f[0..] == f;
    if 0 < q <= |f| - 1 { assert f[1..][q - 1] == f[q]; }
  }

  /** The text in braces at the front, or the default date format. */
  function DateFormat(g: string): string {
    if g != "" && g[0] == '{' then BeforeBrace(g[1..]) else "%Y-%M-%d %H:%m:%s,%g"
  }

  /** The date format that stands behind the first unescaped %datetime. */
  ghost predicate DateIs(f: string, date: string) {
    var d := Text(DateTime);
    exists p: nat :: FirstUnescaped(f, d, p) && p + |d| <= |f| && date == DateFormat(f[p + |d|..])
  }

  /** The date part of parseFromFormat with updateDateFormat. */
  method ExtractDate(format: string) returns (r: string, date: Option<string>)
    ensures r == Cut(format)
    ensures date.Some? <==> HasUnescaped(format, Text(DateTime))
    ensures date.Some? ==> DateIs(format, date.value)
  {
    hide Text, Cut, DropBraces, FirstUnescaped, DateFormat;
    var d := Text(DateTime);
    var found := FindUnescaped(format, d);
    if found.None? {
      FlaggedIsUnescaped(format, d);
      CutNothing(format);
      return format, None;
    }
    CutAtFirst(format, found.value);
    FirstIsUnescaped(format, d, found.value);
    var index := found.value + |d|;
    var tail, fmt := TakeBraces(format[index..]);
    r := format[..index] + tail;
    date := Some(fmt);
  }

  lemma FirstIsUnescaped(f: string, s: string, p: nat)
    requires FirstUnescaped(f, s, p)
    ensures HasUnescaped(f, s)
  {
  }

  /** The search for the first occurrence that is not escaped. */
  method FindUnescaped(format: string, d: string) returns (found: Option<nat>)
    requires d != ""
    ensures found.Some? ==> FirstUnescaped(format, d, found.value)
    ensures found.None? ==> !HasUnescaped(format, d)
  {
    found := Find(format, d, 0);
    while found.Some? && found.value > 0 && format[found.value - 1] == '%'
      invariant found.Some? ==> OccursAt(format, d, found.value)
      invariant found.Some? ==> forall q :: 0 <= q < found.value ==> !UnescapedAt(format, d, q)
      invariant found.None? ==> forall q :: 0 <= q ==> !UnescapedAt(format, d, q)
      decreases if found.Some? then |format| + 1 - found.value else 0
    {
      found := Find(format, d, found.value + 1);
    }
  }

  /** updateDateFormat behind the specifier: the text in braces, or the default. */
  method TakeBraces(g: string) returns (tail: string, fmt: string)
    ensures tail == DropBraces(g)
    ensures fmt == DateFormat(g)
  {
    if g == "" || g[0] != '{' { return g, "%Y-%M-%d %H:%m:%s,%g"; }
    var i := 1;
    fmt := "";
    while i < |g| && g[i] != '}'
      invariant 1 <= i <= |g|
      invariant AfterBrace(g[1..]) == AfterBrace(g[i..])
      invariant BeforeBrace(g[1..]) == fmt + BeforeBrace(g[i..])
    {
      assert g[i..][1..] == g[i + 1..];
      fmt := fmt + [g[i]];
      i := i + 1;
    }
    if i < |g| {
      i := i + 1;
    }
    tail := g[i..];
  }

  /** The calls of replaceFirstWithEscape that are switched on, in order. */
  method RunSlots(f: string, slots: seq<Slot>) returns (r: string)
    ensures r == RunOps(f, OpsOf(slots))
  {
    hide Text, RunOps, OpsOf, Edit, Substituted;
    r := f;
    var i := 0;
    NoSlots(f);
    while i < |slots|
      invariant i <= |slots| && r == RunOps(f, OpsOf(slots[..i]))
    {
      OneMoreSlot(f, slots, i);
      if slots[i].on {
        r := ReplaceFirstWithEscape(r, Text(slots[i].s), slots[i].v);
      }
      i := i + 1;
    }
    assert slots[..i] == slots;
  }

  lemma NoSlots(f: string)
    ensures forall slots: seq<Slot> :: RunOps(f, OpsOf(slots[..0])) == f
  {
  }

  lemma OneMoreSlot(f: string, slots: seq<Slot>, i: nat)
    requires i < |slots|
    ensures var before := RunOps(f, OpsOf(slots[..i]));
      RunOps(f, OpsOf(slots[..i + 1])) == if slots[i].on then Apply(before, Replace(slots[i].s, slots[i].v)) else before
  {
    hide Apply;
    assert slots[..i + 1][..i] == slots[..i];
    if slots[i].on {
      var ops := OpsOf(slots[..i + 1]);
      assert ops[..|ops| - 1] == OpsOf(slots[..i]) && ops[|ops| - 1] == Replace(slots[i].s, slots[i].v);
    } else {
      assert OpsOf(slots[..i + 1]) == OpsOf(slots[..i]);
    }
  }

  /** The constructor of LogFormat (parseFromFormat and updateFormatSpec) and resolveLoggerFormatSpec. */
  method CompileFormat(userFormat: string, level: Level, v: Values)
    returns (format: string, flags: set<Specifier>, date: Option<string>)
    ensures flags == FlagsOf(userFormat)
    ensures format == RunOps(Cut(RunOps(userFormat, CompileOps(COMPILE_ORDER))), OpsOf(FormatSlots(level, flags, v)))
    ensures date.Some? <==> DateTime in flags
    ensures date.Some? ==> DateIs(RunOps(userFormat, CompileOps(COMPILE_ORDER)), date.value)
  {
    hide DateIs, Text, RunOps, CompileOps, HasUnescaped, OpsOf;
    format, flags := userFormat, {};
    assert RunOps(userFormat, CompileOps([])) == userFormat by { NoCompiles(userFormat); }
    var i := 0;
    while i < |COMPILE_ORDER|
      invariant 0 <= i <= |COMPILE_ORDER|
      invariant format == RunOps(userFormat, CompileOps(COMPILE_ORDER[..i]))
      invariant flags == set s | s in COMPILE_ORDER[..i] && HasUnescaped(userFormat, Text(s))
    {
      var s := COMPILE_ORDER[i];
      assert s !in COMPILE_ORDER[..i];
      CompilesKeepFlag(userFormat, COMPILE_ORDER[..i], s);
      CompileOneMore(userFormat, COMPILE_ORDER, i);
      var flag;
      format, flag := ConditionalAddFlag(format, Text(s));
      if flag { flags := flags + {s}; }
      assert COMPILE_ORDER[..i + 1] == COMPILE_ORDER[..i] + [s];
      i := i + 1;
    }
    assert COMPILE_ORDER[..i] == COMPILE_ORDER;
    CompilesKeepFlag(userFormat, COMPILE_ORDER, DateTime);
    format, date := ExtractDate(format);
    if date.Some? { flags := flags + {DateTime}; }
    OrderIsComplete();
    assert flags == FlagsOf(userFormat);
    format := RunSlots(format, FormatSlots(level, flags, v));
  }

  lemma NoCompiles(f: string)
    ensures RunOps(f, CompileOps([])) == f
  {
  }

  lemma OrderIsComplete()
    ensures forall s :: s in COMPILE_ORDER || s == DateTime
  {
    forall s ensures s in COMPILE_ORDER || s == DateTime {
      var i := match s
        case App => 0 case LevelName => 1 case LevShort => 2 case LoggerId => 3 case Thread => 4 case File => 5
        case FileBase => 6 case Line => 7 case Location => 8 case Function => 9 case User => 10 case Host => 11
        case Message => 12 case _ => 13;
      assert COMPILE_ORDER[i] == s || s == DateTime;
    }
  }

  lemma {:induction false} RunOpsAppend(f: string, a: seq<Op>, b: seq<Op>)
    ensures RunOps(f, a + b) == RunOps(RunOps(f, a), b)
    decreases |b|
  {
    if b == [] {
      assert a + b == a;
    } else {
      assert (a + b)[..|a + b| - 1] == a + b[..|b| - 1];
      RunOpsAppend(f, a, b[..|b| - 1]);
    }
  }

  lemma {:induction false} OpsOfAppend(a: seq<Slot>, b: seq<Slot>)
    ensures OpsOf(a + b) == OpsOf(a) + OpsOf(b)
    decreases |b|
  {
    if b == [] {
      assert a + b == a;
    } else {
      assert (a + b)[..|a + b| - 1] == a + b[..|b| - 1];
      OpsOfAppend(a, b[..|b| - 1]);
    }
  }

  /** The custom specifiers, each with the text its resolver gives for the message, in the order of installation. */
  function WithCustom(line: string, custom: seq<(string, string)>): string {
    if custom == [] then line
    else
      var n := |custom| - 1;
      Substituted(WithCustom(line, custom[..n]), custom[n].0, custom[n].1, 0)
  }

  /** DefaultLogBuilder::build on a compiled format. */
  method BuildLine(format: string, flags: set<Specifier>, messageLevel: Level, v: Values, custom: seq<(string, string)>,
                   appendNewLine: bool) returns (line: string)
    ensures line == WithCustom(RunOps(format, OpsOf(LineSlots(messageLevel, flags, v))), custom)
                    + if appendNewLine then "\n" else ""
  {
    hide RunOps, OpsOf, LineSlots, Substituted;
    line := RunSlots(format, LineSlots(messageLevel, flags, v));
    ghost var start := line;
    for k := 0 to |custom|
      invariant line == WithCustom(start, custom[..k])
    {
      assert custom[..k + 1][..k] == custom[..k];
      line := ReplaceFirstWithEscape(line, custom[k].0, custom[k].1);
    }
    assert custom[..|custom|] == custom;
    if appendNewLine { line := line + "\n"; } else { assert line + "" == line; }
  }

  /** From the user's format to the line. */
  method WriteLine(userFormat: string, level: Level, messageLevel: Level, v: Values) returns (line: string)
    ensures line == WrittenLine(userFormat, level, messageLevel, v)
  {
    hide RunOps, OpsOf, CompileOps, FlagsOf, FormatSlots, LineSlots, Cut;
    var format, flags, date := CompileFormat(userFormat, level, v);
    line := BuildLine(format, flags, messageLevel, v, [], false);
    ghost var start := Cut(RunOps(userFormat, CompileOps(COMPILE_ORDER)));
    OpsOfAppend(FormatSlots(level, flags, v), LineSlots(messageLevel, flags, v));
    RunOpsAppend(start, OpsOf(FormatSlots(level, flags, v)), OpsOf(LineSlots(messageLevel, flags, v)));
    assert line == line + "";
  }

  // -------------------------------------------------------------------- the message in the line

  /** The text in front of the place where a specifier is substituted. */
  function Before(f: string, s: string): string
    requires IsSpecifier(s)
    decreases |f|
  {
    if f == "" then ""
    else if Escaped(s) <= f then s + Before(f[|s| + 1..], s)
    else if s <= f then ""
    else [f[0]] + Before(f[1..], s)
  }

  /** The text behind it. */
  function Behind(f: string, s: string): string
    requires IsSpecifier(s)
    decreases |f|
  {
    if f == "" then ""
    else if Escaped(s) <= f then Behind(f[|s| + 1..], s)
    else if s <= f then f[|s|..]
    else Behind(f[1..], s)
  }

  /** Substituting a value changes nothing around its place, whatever the value contains; without an
      unescaped occurrence the value does not appear at all. */
  lemma {:induction false} ValueInPlace(f: string, s: string, v: string)
    requires IsSpecifier(s)
    ensures Edit(f, s, false, ReplaceMarks(s, v))
            == if Flagged(f, s) then Before(f, s) + v + Behind(f, s) else Before(f, s)
    decreases |f|
  {
    var m := ReplaceMarks(s, v);
    if f == "" {
    } else if Escaped(s) <= f {
      hide Edit;
      var rest := f[|s| + 1..];
      PrefixSplit(Escaped(s), f);
      EditEscaped(rest, s, false, m);
      ValueInPlace(rest, s, v);
      RegroupFour(s, Before(rest, s), v, Behind(rest, s));
    } else if s <= f {
      hide Edit;
      PrefixSplit(s, f);
      EditUnescaped(f[|s|..], s, false, m);
      EditIdentity(f[|s|..], s, true, m);
      assert "" + v == v;
    } else {
      hide Edit;
      EditOther(f, s, false, m);
      ValueInPlace(f[1..], s, v);
      RegroupFour([f[0]], Before(f[1..], s), v, Behind(f[1..], s));
    }
  }

  /** Two messages that differ only in their text give lines that differ only in that text, which
      stands verbatim between the same prefix and suffix: exactly when the line still has an unescaped
      %msg at the moment it is substituted. */
  lemma MessageIsVerbatim(format: string, flags: set<Specifier>, messageLevel: Level, v: Values, message: string)
    requires Message in flags
    ensures var slots := LineSlots(messageLevel, flags, v);
            var line := RunOps(format, OpsOf(slots[..|slots| - 1]));
            RunOps(format, OpsOf(LineSlots(messageLevel, flags, v.(message := message))))
            == if HasUnescaped(line, Text(Message))
               then Before(line, Text(Message)) + message + Behind(line, Text(Message))
               else Before(line, Text(Message))
  {
    hide Text;
    var w := v.(message := message);
    var slots, slots' := LineSlots(messageLevel, flags, v), LineSlots(messageLevel, flags, w);
    var line := RunOps(format, OpsOf(slots[..|slots| - 1]));
    assert slots'[..|slots'| - 1] == slots[..|slots| - 1];
    var ops := OpsOf(slots');
    assert ops == OpsOf(slots[..|slots| - 1]) + [Replace(Message, message)];
    assert ops[..|ops| - 1] == OpsOf(slots[..|slots| - 1]);
    ValueInPlace(line, Text(Message), message);
    FlaggedIsUnescaped(line, Text(Message));
  }

  /** A value that ends in `%`, right in front of another specifier, escapes it, and that specifier's
      own value is lost. */
  lemma PercentAtEndOfValue(a: Specifier, b: Specifier, x: string, w: string)
    requires a != b && '%' !in x
    ensures RunOps(Text(a) + Text(b), [Replace(a, x + "%"), Replace(b, w)]) == x + Text(b)
  {
    hide Text, Edit;
    var ta, tb, opA, opB := Text(a), Text(b), Replace(a, x + "%"), Replace(b, w);
    TwoOps(ta + tb, opA, opB);
    EditUnescaped(tb, ta, false, OpMarks(opA));
    EditIdentity(tb, ta, true, OpMarks(opA));
    assert Apply(ta + tb, opA) == x + (Escaped(tb) + "");
    EditPlain(x, Escaped(tb) + "", tb, false, OpMarks(opB));
    EditEscaped("", tb, false, OpMarks(opB));
    EditNothing(tb, OpMarks(opB));
  }

  lemma EditNothing(s: string, m: Marks)
    requires IsSpecifier(s)
    ensures Edit("", s, false, m) == ""
  {
  }

  lemma TwoOps(f: string, a: Op, b: Op)
    ensures RunOps(f, [a, b]) == Apply(Apply(f, a), b)
  {
    hide Apply;
    assert [a, b][..1] == [a] && [a][..0] == [];
    assert RunOps(f, [a]) == Apply(f, a);
  }
}
