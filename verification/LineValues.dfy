/**
  What each specifier of a log format shows: for a format with one specifier and plain text around it, the line that
  external/easylogging++/easylogging++.cc writes, specifier by specifier.
 */
module LineValues {
  import opened Levels
  import opened Strings
  import opened Sequences
  import opened FormatScan
  import opened FormatSpecifiers
  import opened FormatPipeline
  import opened LogLine

  // -------------------------------------------------------------------- edits that find nothing

  /** Edits of other specifiers leave a text with one specifier alone. */
  lemma OthersPass(a: string, s: Specifier, b: string, k: Specifier, m: Marks)
    requires '%' !in a && '%' !in b && k != s
    ensures Edit(a + Text(s) + b, Text(k), false, m) == a + Text(s) + b
  {
    hide Text, Edit, Passes;
    Regroup(a, Text(s), b);
    PassesPlain(a, Text(s) + b, k);
    EditPasses(a, Text(s) + b, k, false, m);
    PassesOther(s, b, k);
    EditPasses(Text(s), b, k, false, m);
    PlainPasses(b, k, m);
  }

  /** A text without `%` is left alone. */
  lemma PlainPasses(b: string, k: Specifier, m: Marks)
    requires '%' !in b
    ensures forall done :: Edit(b, Text(k), done, m) == b
  {
    hide Text, Edit;
    assert b + "" == b;
    forall done ensures Edit(b, Text(k), done, m) == b {
      EditPlain(b, "", Text(k), done, m);
      EmptyEdit(Text(k), done, m);
    }
  }

  lemma EmptyEdit(s: string, done: bool, m: Marks)
    requires IsSpecifier(s)
    ensures Edit("", s, done, m) == ""
  {
  }

  /** The edit of the specifier itself rewrites it. */
  lemma OwnIsMarked(a: string, s: Specifier, b: string, m: Marks)
    requires '%' !in a && '%' !in b
    ensures Edit(a + Text(s) + b, Text(s), false, m) == a + m.first + b
  {
    hide Text, Edit;
    Regroup(a, Text(s), b);
    EditPlain(a, Text(s) + b, Text(s), false, m);
    EditUnescaped(b, Text(s), false, m);
    PlainPasses(b, s, m);
    Regroup(a, m.first, b);
  }

  // -------------------------------------------------------------------- runs of edits

  /** Compiling leaves such a format as it is. */
  lemma {:induction false} CompiledIsSame(a: string, s: Specifier, b: string, order: seq<Specifier>)
    requires '%' !in a && '%' !in b
    ensures RunOps(a + Text(s) + b, CompileOps(order)) == a + Text(s) + b
    decreases |order|
  {
    hide Text, Edit;
    if order != [] {
      var n := |order| - 1;
      CompiledIsSame(a, s, b, order[..n]);
      assert order[..n + 1] == order;
      CompileOneMore(a + Text(s) + b, order, n);
      if order[n] == s {
        OwnIsMarked(a, s, b, CompileMarks(Text(s)));
      } else {
        OthersPass(a, s, b, order[n], CompileMarks(Text(order[n])));
      }
    }
  }

  /** The date format behind a %datetime goes. */
  lemma CutIs(a: string, s: Specifier, b: string)
    requires '%' !in a && '%' !in b
    ensures Cut(a + Text(s) + b) == a + Text(s) + if s == DateTime then DropBraces(b) else b
  {
    hide Text, Cut, Passes, DropBraces;
    Regroup(a, Text(s), b);
    PassesPlain(a, Text(s) + b, DateTime);
    CutPasses(a, Text(s) + b);
    if s == DateTime {
      CutHere(b);
      Regroup(a, Text(s), DropBraces(b));
    } else {
      PassesOther(s, b, DateTime);
      CutPasses(Text(s), b);
      PassesPlain(b, "", DateTime);
      assert b + "" == b;
      CutPasses(b, "");
      CutEmpty();
    }
  }

  lemma {:induction false} AfterBracePlain(b: string)
    requires '%' !in b
    ensures '%' !in AfterBrace(b)
    decreases |b|
  {
    if b != "" && b[0] != '}' {
      AfterBracePlain(b[1..]);
    }
  }

  lemma DropBracesPlain(b: string)
    requires '%' !in b
    ensures '%' !in DropBraces(b)
  {
    if b != "" && b[0] == '{' {
      AfterBracePlain(b[1..]);
    }
  }

  lemma {:induction false} BeforeBraceIs(fmt: string, rest: string)
    requires '}' !in fmt
    ensures BeforeBrace(fmt + ("}" + rest)) == fmt
  {
    var g := fmt + ("}" + rest);
    if fmt != "" {
      assert g[0] == fmt[0] && fmt[0] in fmt && g[1..] == fmt[1..] + ("}" + rest);
      BeforeBraceIs(fmt[1..], rest);
      assert fmt == [fmt[0]] + fmt[1..];
    } else {
      assert g == "}" + rest;
    }
  }

  /** The format of dates stands in braces right behind %datetime, and goes; else it is the usual one. */
  lemma DateFormatIs(fmt: string, rest: string)
    requires '}' !in fmt
    ensures DateFormat("{" + (fmt + ("}" + rest))) == fmt && DropBraces("{" + (fmt + ("}" + rest))) == rest
    ensures rest == "" || rest[0] != '{' ==> DateFormat(rest) == "%Y-%M-%d %H:%m:%s,%g" && DropBraces(rest) == rest
  {
    hide BeforeBrace, AfterBrace;
    var g := fmt + ("}" + rest);
    assert ("{" + g)[1..] == g;
    BeforeBraceIs(fmt, rest);
    Regroup(fmt, "}", rest);
    AfterInert(fmt, rest);
  }

  /** The one flag of such a format. */
  lemma FlagIs(a: string, s: Specifier, b: string)
    requires '%' !in a && '%' !in b
    ensures FlagsOf(a + Text(s) + b) == {s}
  {
    hide Text;
    var f := a + Text(s) + b;
    assert OccursAt(f, Text(s), |a|) && (|a| > 0 ==> f[|a| - 1] == a[|a| - 1] && f[|a| - 1] in a);
    assert UnescapedAt(f, Text(s), |a|);
    forall k | HasUnescaped(f, Text(k)) ensures k == s {
      var p :| UnescapedAt(f, Text(k), p);
      OnlyThere(a, s, b, k, p);
    }
  }

  /** Elsewhere there is no `%`. */
  lemma NoPercent(a: string, t: string, b: string, p: nat)
    requires '%' !in a && '%' !in b && IsSpecifier(t) && p < |a + t + b| && p != |a|
    ensures (a + t + b)[p] != '%'
  {
    var f := a + t + b;
    if p < |a| {
      assert f[p] in a;
    } else if p >= |a| + |t| {
      assert f[p] in b;
    } else {
      assert f[p] == t[1..][p - |a| - 1];
    }
  }

  lemma OnlyThere(a: string, s: Specifier, b: string, k: Specifier, p: int)
    requires '%' !in a && '%' !in b && OccursAt(a + Text(s) + b, Text(k), p)
    ensures k == s
  {
    hide Text;
    var f, t := a + Text(s) + b, Text(s);
    assert f[p] == Text(k)[0] == '%';
    if p != |a| {
      NoPercent(a, t, b, p);
    }
    var g := f[p..];
    assert g == t + b;
    assert Text(k) <= g;
    OneAtFront(s, k, g);
  }

  /** Substitutions that find nothing. */
  lemma {:induction false} NothingFound(f: string, slots: seq<Slot>)
    requires forall i :: 0 <= i < |slots| && slots[i].on ==> Apply(f, Replace(slots[i].s, slots[i].v)) == f
    ensures RunOps(f, OpsOf(slots)) == f
    decreases |slots|
  {
    hide Apply;
    if slots != [] {
      var n := |slots| - 1;
      NothingFound(f, slots[..n]);
      OneMoreSlot(f, slots, n);
      assert slots[..n + 1] == slots;
    }
  }

  /** All the substitutions of a line. */
  function Slots(level: Level, messageLevel: Level, flags: set<Specifier>, v: Values): seq<Slot> {
    FormatSlots(level, flags, v) + LineSlots(messageLevel, flags, v)
  }

  lemma SlotsAt(level: Level, messageLevel: Level, flags: set<Specifier>, v: Values)
    ensures var slots := Slots(level, messageLevel, flags, v);
      && |slots| == 15 && forall i :: 0 <= i < 15 ==> Rank(slots[i].s) == i
  {
  }

  /** Substitutions up to that of a specifier, that one, and those behind it. */
  lemma SlotsSplit(f: string, slots: seq<Slot>, r: nat)
    requires r < |slots|
    ensures RunOps(f, OpsOf(slots)) ==
            RunOps(RunOps(RunOps(f, OpsOf(slots[..r])), OpsOf([slots[r]])), OpsOf(slots[r + 1..]))
  {
    hide RunOps, OpsOf;
    var front, here, behind := slots[..r], [slots[r]], slots[r + 1..];
    assert slots == (front + here) + behind;
    OpsOfAppend(front + here, behind);
    OpsOfAppend(front, here);
    RunOpsAppend(f, OpsOf(front + here), OpsOf(behind));
    RunOpsAppend(f, OpsOf(front), OpsOf(here));
  }

  lemma OneSlot(f: string, slot: Slot)
    ensures RunOps(f, OpsOf([slot])) == if slot.on then Apply(f, Replace(slot.s, slot.v)) else f
  {
    hide Apply;
    OneMoreSlot(f, [slot], 0);
    NoSlots(f);
    assert [slot][..1] == [slot];
    assert RunOps(f, OpsOf([slot][..0])) == f;
  }

  /** The substitutions on a text with one specifier: its own, and what those behind it find in its value. */
  lemma OneSpecifier(a: string, s: Specifier, b: string, slots: seq<Slot>)
    requires '%' !in a && '%' !in b && |slots| == 15 && forall i :: 0 <= i < 15 ==> Rank(slots[i].s) == i
    ensures var slot := slots[Rank(s)];
      RunOps(a + Text(s) + b, OpsOf(slots)) ==
      if slot.on then RunOps(a + slot.v + b, OpsOf(slots[Rank(s) + 1..])) else a + Text(s) + b
  {
    hide Text, RunOps, OpsOf, Edit;
    var f, r := a + Text(s) + b, Rank(s);
    forall i | 0 <= i < 15 && i != r ensures Apply(f, Replace(slots[i].s, slots[i].v)) == f {
      OthersPass(a, s, b, slots[i].s, ReplaceMarks(Text(slots[i].s), slots[i].v));
    }
    RankIsOne(slots[r].s, s);
    OwnIsMarked(a, s, b, ReplaceMarks(Text(s), slots[r].v));
    hide Apply, Rank;
    SlotsSplit(f, slots, r);
    NothingFound(f, slots[..r]);
    OneSlot(f, slots[r]);
    if !slots[r].on {
      NothingFound(f, slots[r + 1..]);
    }
  }

  lemma RankIsOne(s: Specifier, k: Specifier)
    requires Rank(s) == Rank(k)
    ensures s == k
  {
  }

  // -------------------------------------------------------------------- what the user sees

  /** The substitution of a specifier that stands alone. */
  function SlotFor(s: Specifier, level: Level, messageLevel: Level, v: Values): Slot {
    var slots := Slots(level, messageLevel, {s}, v);
    slots[Rank(s)]
  }

  /** What the substitutions behind that of a specifier make of its value. */
  function Then(s: Specifier, level: Level, messageLevel: Level, v: Values, line: string): string {
    var slots := Slots(level, messageLevel, {s}, v);
    RunOps(line, OpsOf(slots[Rank(s) + 1..]))
  }

  /** The line of a format with one specifier. */
  lemma LineOfOne(a: string, s: Specifier, b: string, level: Level, messageLevel: Level, v: Values)
    requires '%' !in a && '%' !in b
    ensures var slot, rest := SlotFor(s, level, messageLevel, v), if s == DateTime then DropBraces(b) else b;
      WrittenLine(a + Text(s) + b, level, messageLevel, v) ==
      if slot.on then Then(s, level, messageLevel, v, a + slot.v + rest) else a + Text(s) + rest
  {
    hide Text, RunOps, OpsOf, Cut, DropBraces, CompileOps, FlagsOf, FormatSlots, LineSlots;
    FlagIs(a, s, b);
    CompiledIsSame(a, s, b, COMPILE_ORDER);
    CutIs(a, s, b);
    DropBracesPlain(b);
    SlotsAt(level, messageLevel, {s}, v);
    hide Rank;
    OneSpecifier(a, s, if s == DateTime then DropBraces(b) else b, Slots(level, messageLevel, {s}, v));
  }

  /** Behind the logger's id, only what the format has is substituted. */
  lemma NothingBehind(s: Specifier, level: Level, messageLevel: Level, v: Values, line: string)
    requires Rank(s) >= 4
    ensures Then(s, level, messageLevel, v, line) == line
  {
    var slots := Slots(level, messageLevel, {s}, v);
    SlotsAt(level, messageLevel, {s}, v);
    OnlyOwn(s, level, messageLevel, v);
    hide Slots, RunOps, OpsOf, Apply;
    NothingFound(line, slots[Rank(s) + 1..]);
  }

  /** Of the substitutions from the user's on, only that of the logger's id and the specifier's own are on. */
  lemma OnlyOwn(s: Specifier, level: Level, messageLevel: Level, v: Values)
    ensures var slots := Slots(level, messageLevel, {s}, v);
      && |slots| == 15 && slots[4] == Slot(LoggerId, v.loggerId, true)
      && forall i :: 2 <= i < 15 && i != 4 && i != Rank(s) ==> !slots[i].on
  {
    SlotsAt(level, messageLevel, {s}, v);
  }

  /** The name of a level is plain text. */
  lemma NothingInPlain(s: Specifier, level: Level, messageLevel: Level, v: Values, line: string)
    requires '%' !in line
    ensures Then(s, level, messageLevel, v, line) == line
  {
    SlotsAt(level, messageLevel, {s}, v);
    hide Text, Edit, RunOps, OpsOf, Slots;
    var slots := Slots(level, messageLevel, {s}, v)[Rank(s) + 1..];
    forall i | 0 <= i < |slots| ensures Apply(line, Replace(slots[i].s, slots[i].v)) == line {
      PlainPasses(line, slots[i].s, ReplaceMarks(Text(slots[i].s), slots[i].v));
    }
    NothingFound(line, slots);
  }

  /** Behind the user and the host the logger's id is substituted, also where they bring in its specifier. */
  lemma LoggerBehind(s: Specifier, level: Level, messageLevel: Level, v: Values, line: string)
    requires s == User || s == Host
    ensures Then(s, level, messageLevel, v, line) == Apply(line, Replace(LoggerId, v.loggerId))
  {
    OnlyOwn(s, level, messageLevel, v);
    hide Slots, RunOps, OpsOf, Apply;
    var r := 3 - Rank(s);
    var slots := Slots(level, messageLevel, {s}, v)[Rank(s) + 1..];
    assert slots[r] == Slot(LoggerId, v.loggerId, true);
    SlotsSplit(line, slots, r);
    NothingFound(line, slots[..r]);
    OneSlot(line, slots[r]);
    NothingFound(Apply(line, Replace(LoggerId, v.loggerId)), slots[r + 1..]);
  }

  /** What a message is about, where it was logged and when. */
  lemma LineShows(a: string, b: string, level: Level, messageLevel: Level, v: Values)
    requires '%' !in a && '%' !in b
    ensures WrittenLine(a + "%app" + b, level, messageLevel, v) == a + v.app + b
    ensures WrittenLine(a + "%thread" + b, level, messageLevel, v) == a + v.thread + b
    ensures WrittenLine(a + "%datetime" + b, level, messageLevel, v) == a + v.date + DropBraces(b)
    ensures WrittenLine(a + "%func" + b, level, messageLevel, v) == a + v.func + b
    ensures WrittenLine(a + "%file" + b, level, messageLevel, v) == a + v.file + b
    ensures WrittenLine(a + "%fbase" + b, level, messageLevel, v) == a + v.fileBase + b
    ensures WrittenLine(a + "%line" + b, level, messageLevel, v) == a + v.line + b
    ensures WrittenLine(a + "%loc" + b, level, messageLevel, v) == a + v.location + b
    ensures WrittenLine(a + "%logger" + b, level, messageLevel, v) == a + v.loggerId + b
    ensures WrittenLine(a + "%msg" + b, level, messageLevel, v) == a + v.message + b
  {
    hide WrittenLine, DropBraces, SlotFor, Text;
    SlotsAre(level, messageLevel, v);
    TextsAre();
    ShowsOne(a, App, b, level, messageLevel, v);
    ShowsOne(a, Thread, b, level, messageLevel, v);
    ShowsOne(a, DateTime, b, level, messageLevel, v);
    ShowsOne(a, Function, b, level, messageLevel, v);
    ShowsOne(a, File, b, level, messageLevel, v);
    ShowsOne(a, FileBase, b, level, messageLevel, v);
    ShowsOne(a, Line, b, level, messageLevel, v);
    ShowsOne(a, Location, b, level, messageLevel, v);
    ShowsOne(a, LoggerId, b, level, messageLevel, v);
    ShowsOne(a, Message, b, level, messageLevel, v);
  }

  lemma SlotsAre(level: Level, messageLevel: Level, v: Values)
    ensures SlotFor(App, level, messageLevel, v) == Slot(App, v.app, true)
    ensures SlotFor(Thread, level, messageLevel, v) == Slot(Thread, v.thread, true)
    ensures SlotFor(DateTime, level, messageLevel, v) == Slot(DateTime, v.date, true)
    ensures SlotFor(Function, level, messageLevel, v) == Slot(Function, v.func, true)
    ensures SlotFor(File, level, messageLevel, v) == Slot(File, v.file, true)
    ensures SlotFor(FileBase, level, messageLevel, v) == Slot(FileBase, v.fileBase, true)
    ensures SlotFor(Line, level, messageLevel, v) == Slot(Line, v.line, true)
    ensures SlotFor(Location, level, messageLevel, v) == Slot(Location, v.location, true)
    ensures SlotFor(LoggerId, level, messageLevel, v) == Slot(LoggerId, v.loggerId, true)
    ensures SlotFor(Message, level, messageLevel, v) == Slot(Message, v.message, true)
  {
    hide Slots, SlotFor;
    LoggerSlot(level, messageLevel, v);
    PlaceSlots(level, messageLevel, v);
    LineSlotFor(App, level, messageLevel, v);
    LineSlotFor(Thread, level, messageLevel, v);
    LineSlotFor(DateTime, level, messageLevel, v);
    LineSlotFor(Message, level, messageLevel, v);
  }

  lemma PlaceSlots(level: Level, messageLevel: Level, v: Values)
    ensures SlotFor(Function, level, messageLevel, v) == Slot(Function, v.func, true)
    ensures SlotFor(File, level, messageLevel, v) == Slot(File, v.file, true)
    ensures SlotFor(FileBase, level, messageLevel, v) == Slot(FileBase, v.fileBase, true)
    ensures SlotFor(Line, level, messageLevel, v) == Slot(Line, v.line, true)
    ensures SlotFor(Location, level, messageLevel, v) == Slot(Location, v.location, true)
  {
    hide Slots, SlotFor;
    LineSlotFor(Function, level, messageLevel, v);
    LineSlotFor(File, level, messageLevel, v);
    LineSlotFor(FileBase, level, messageLevel, v);
    LineSlotFor(Line, level, messageLevel, v);
    LineSlotFor(Location, level, messageLevel, v);
  }

  lemma LoggerSlot(level: Level, messageLevel: Level, v: Values)
    ensures SlotFor(LoggerId, level, messageLevel, v) == Slot(LoggerId, v.loggerId, true)
  {
    assert FormatSlots(level, {LoggerId}, v)[4] == Slot(LoggerId, v.loggerId, true);
  }

  lemma LineSlotFor(s: Specifier, level: Level, messageLevel: Level, v: Values)
    requires Rank(s) >= 5
    ensures SlotFor(s, level, messageLevel, v) == LineSlots(messageLevel, {s}, v)[Rank(s) - 5]
  {
  }

  lemma TextsAre()
    ensures Text(App) == "%app" && Text(Thread) == "%thread" && Text(DateTime) == "%datetime"
    ensures Text(Function) == "%func" && Text(File) == "%file" && Text(FileBase) == "%fbase" && Text(Line) == "%line"
    ensures Text(Location) == "%loc" && Text(LoggerId) == "%logger" && Text(Message) == "%msg"
  {
  }

  /** One of the later specifiers. */
  lemma ShowsOne(a: string, s: Specifier, b: string, level: Level, messageLevel: Level, v: Values)
    requires '%' !in a && '%' !in b && Rank(s) >= 4
    ensures var slot := SlotFor(s, level, messageLevel, v);
      WrittenLine(a + Text(s) + b, level, messageLevel, v) ==
      a + (if slot.on then slot.v else Text(s)) + if s == DateTime then DropBraces(b) else b
  {
    hide WrittenLine, Text, DropBraces, SlotFor, Then;
    var rest := if s == DateTime then DropBraces(b) else b;
    NothingBehind(s, level, messageLevel, v, a + SlotFor(s, level, messageLevel, v).v + rest);
    LineOfOne(a, s, b, level, messageLevel, v);
  }

  /** The verbose level is shown for verbose messages only; for others the specifier stays. */
  lemma VerboseLevelShows(a: string, b: string, level: Level, messageLevel: Level, v: Values)
    requires '%' !in a && '%' !in b
    ensures WrittenLine(a + "%vlevel" + b, level, messageLevel, v) ==
            a + (if messageLevel == Verbose then v.verboseLevel else "%vlevel") + b
  {
    hide WrittenLine;
    ShowsOne(a, VerboseLevel, b, level, messageLevel, v);
  }

  /**
    Behind the user or the host the logger's id is substituted once more, so that they are shown as they are wherever
    they do not bring in its specifier; PassesExactly says when that is so for all ids.
   */
  lemma NamesShow(a: string, b: string, level: Level, messageLevel: Level, v: Values)
    requires '%' !in a && '%' !in b
    ensures WrittenLine(a + "%user" + b, level, messageLevel, v) ==
            Edit(a + v.user + b, "%logger", false, ReplaceMarks("%logger", v.loggerId))
    ensures WrittenLine(a + "%host" + b, level, messageLevel, v) ==
            Edit(a + v.host + b, "%logger", false, ReplaceMarks("%logger", v.loggerId))
    ensures Passes(v.user, b, "%logger") ==> WrittenLine(a + "%user" + b, level, messageLevel, v) == a + v.user + b
    ensures Passes(v.host, b, "%logger") ==> WrittenLine(a + "%host" + b, level, messageLevel, v) == a + v.host + b
  {
    hide WrittenLine, Passes, Then, Edit;
    LoggerBehind(User, level, messageLevel, v, a + v.user + b);
    LineOfOne(a, User, b, level, messageLevel, v);
    LoggerBehind(Host, level, messageLevel, v, a + v.host + b);
    LineOfOne(a, Host, b, level, messageLevel, v);
    if Passes(v.user, b, "%logger") {
      NameStays(a, v.user, b, v.loggerId);
    }
    if Passes(v.host, b, "%logger") {
      NameStays(a, v.host, b, v.loggerId);
    }
  }

  lemma NameStays(a: string, w: string, b: string, id: string)
    requires '%' !in a && '%' !in b && Passes(w, b, Text(LoggerId))
    ensures Edit(a + w + b, Text(LoggerId), false, ReplaceMarks(Text(LoggerId), id)) == a + w + b
  {
    hide Text, Edit, Passes;
    var m := ReplaceMarks(Text(LoggerId), id);
    Regroup(a, w, b);
    EditPlain(a, w + b, Text(LoggerId), false, m);
    EditPasses(w, b, LoggerId, false, m);
    PlainPasses(b, LoggerId, m);
  }

  lemma PlainLevels(level: Level)
    ensures '%' !in LevelValue(level) && '%' !in LevelShortValue(level)
  {
  }

  /** The level is that of the format, and a format for no level in particular keeps the specifiers. */
  lemma LevelShows(a: string, b: string, level: Level, messageLevel: Level, v: Values)
    requires '%' !in a && '%' !in b
    ensures WrittenLine(a + "%level" + b, level, messageLevel, v) ==
            a + (if level in VALID_LEVELS then LevelValue(level) else "%level") + b
    ensures WrittenLine(a + "%levshort" + b, level, messageLevel, v) ==
            a + (if level in VALID_LEVELS then LevelShortValue(level) else "%levshort") + b
  {
    PlainLevels(level);
    hide WrittenLine, Then, LevelValue, LevelShortValue;
    NothingInPlain(LevelName, level, messageLevel, v, a + LevelValue(level) + b);
    LineOfOne(a, LevelName, b, level, messageLevel, v);
    NothingInPlain(LevShort, level, messageLevel, v, a + LevelShortValue(level) + b);
    LineOfOne(a, LevShort, b, level, messageLevel, v);
  }

  /** What is shown for a level is the beginning of its name, padded with a blank, or the first letter of it. */
  lemma LevelValuesAreNames(level: Level)
    requires level in VALID_LEVELS
    ensures TrimRight(LevelValue(level)) <= ToString(level) && |TrimRight(LevelValue(level))| >= 3
    ensures LevelShortValue(level) == ToString(level)[..1]
  {
    var s := LevelValue(level);
    if level == Info || level == Warning {
      assert TrimRight(s) == TrimRight(s[..|s| - 1]) == s[..|s| - 1];
    } else {
      assert TrimRight(s) == s;
    }
  }
}
