/**
  The configuration registry of Easylogging++ (class Configurations in external/easylogging++/easylogging++.cc):
  a list of (level, type, value) entries in which a value set for the level Global is copied to every level.
 */
module Configurations {
  import opened Levels

  datatype ConfigType =
    | Enabled | ToFile | ToStandardOutput | Format | Filename
    | SubsecondPrecision | PerformanceTracking | MaxLogFileSize | LogFlushThreshold
    | UnknownType

  datatype Configuration = Configuration(level: Level, ctype: ConfigType, value: string)

  // -------------------------------------------------------------------- the registry as a list

  /** Configuration::Predicate. */
  predicate Is(c: Configuration, level: Level, ctype: ConfigType) {
    c.level == level && c.ctype == ctype
  }

  /** The value of the first entry for a level and a type. */
  function Lookup(list: seq<Configuration>, level: Level, ctype: ConfigType): Option<string> {
    if list == [] then None
    else if Is(list[0], level, ctype) then Some(list[0].value)
    else Lookup(list[1..], level, ctype)
  }

  /** The first entry of a type. */
  function FirstOf(list: seq<Configuration>, ctype: ConfigType): Option<Configuration> {
    if list == [] then None
    else if list[0].ctype == ctype then Some(list[0])
    else FirstOf(list[1..], ctype)
  }

  ghost predicate UniqueKeys(list: seq<Configuration>) {
    forall i, j :: 0 <= i < j < |list| ==> !Is(list[j], list[i].level, list[i].ctype)
  }

  /** One entry written: the first match is changed in place, or a new entry goes to the end. */
  function Put(list: seq<Configuration>, c: Configuration): seq<Configuration> {
    if list == [] then [c]
    else if Is(list[0], c.level, c.ctype) then [c] + list[1..]
    else [list[0]] + Put(list[1..], c)
  }

  function PutAll(list: seq<Configuration>, levels: seq<Level>, ctype: ConfigType, value: string): seq<Configuration>
    decreases |levels|
  {
    if levels == [] then list
    else PutAll(Put(list, Configuration(levels[0], ctype, value)), levels[1..], ctype, value)
  }

  /** What one call of set does to the list. */
  function AfterSet(list: seq<Configuration>, c: Configuration): seq<Configuration> {
    var once := Put(list, c);
    if c.level == Global then PutAll(once, VALID_LEVELS, c.ctype, c.value) else once
  }

  /** What a run of calls of set does. */
  function Run(list: seq<Configuration>, calls: seq<Configuration>): seq<Configuration> {
    if calls == [] then list else AfterSet(Run(list, calls[..|calls| - 1]), calls[|calls| - 1])
  }

  // -------------------------------------------------------------------- what a write does

  lemma {:induction false} PutLookup(list: seq<Configuration>, c: Configuration, level: Level, ctype: ConfigType)
    ensures Lookup(Put(list, c), level, ctype)
            == if Is(c, level, ctype) then Some(c.value) else Lookup(list, level, ctype)
  {
    if list != [] {
      if Is(list[0], c.level, c.ctype) {
        assert ([c] + list[1..])[1..] == list[1..];
      } else {
        PutLookup(list[1..], c, level, ctype);
      }
    }
  }

  lemma {:induction false} PutFirst(list: seq<Configuration>, c: Configuration, ctype: ConfigType)
    ensures var first := FirstOf(list, ctype);
            var now := FirstOf(Put(list, c), ctype);
            && (first.Some? ==> now.Some? && now.value.level == first.value.level)
            && (first.None? ==> now == if c.ctype == ctype then Some(c) else None)
  {
    if list != [] {
      if Is(list[0], c.level, c.ctype) {
        assert ([c] + list[1..])[1..] == list[1..];
      } else {
        PutFirst(list[1..], c, ctype);
      }
    }
  }

  lemma {:induction false} LookupNone(list: seq<Configuration>, level: Level, ctype: ConfigType)
    ensures Lookup(list, level, ctype).None? <==> forall i :: 0 <= i < |list| ==> !Is(list[i], level, ctype)
  {
    if list != [] {
      LookupNone(list[1..], level, ctype);
      assert forall i :: 0 < i < |list| ==> list[i] == list[1..][i - 1];
    }
  }

  lemma {:induction false} PutUnique(list: seq<Configuration>, c: Configuration)
    requires UniqueKeys(list)
    ensures UniqueKeys(Put(list, c))
  {
    if list != [] {
      if Is(list[0], c.level, c.ctype) {
      } else {
        var tail := list[1..];
        PutUnique(tail, c);
        PutLookup(tail, c, list[0].level, list[0].ctype);
        LookupNone(tail, list[0].level, list[0].ctype);
        LookupNone(Put(tail, c), list[0].level, list[0].ctype);
      }
    }
  }

  /** Writing the value an entry already has changes nothing. */
  lemma {:induction false} PutIdle(list: seq<Configuration>, c: Configuration)
    requires Lookup(list, c.level, c.ctype) == Some(c.value)
    ensures Put(list, c) == list
  {
    if Is(list[0], c.level, c.ctype) {
      assert list[0] == c;
    } else {
      PutIdle(list[1..], c);
    }
  }

  // -------------------------------------------------------------------- what a call of set does

  /** A write for level c reaches this level. */
  predicate Reaches(c: Configuration, level: Level, ctype: ConfigType) {
    c.ctype == ctype && (c.level == level || (c.level == Global && level in VALID_LEVELS))
  }

  lemma {:induction false} PutAllLookup(list: seq<Configuration>, levels: seq<Level>, t: ConfigType, v: string,
                                        level: Level, ctype: ConfigType)
    ensures Lookup(PutAll(list, levels, t, v), level, ctype)
            == if t == ctype && level in levels then Some(v) else Lookup(list, level, ctype)
    decreases |levels|
  {
    if levels != [] {
      var c := Configuration(levels[0], t, v);
      PutLookup(list, c, level, ctype);
      PutAllLookup(Put(list, c), levels[1..], t, v, level, ctype);
    }
  }

  lemma {:induction false} PutAllKeeps(list: seq<Configuration>, levels: seq<Level>, t: ConfigType, v: string,
                                       ctype: ConfigType)
    requires FirstOf(list, t).Some?
    ensures UniqueKeys(list) ==> UniqueKeys(PutAll(list, levels, t, v))
    ensures var first := FirstOf(list, ctype);
            var now := FirstOf(PutAll(list, levels, t, v), ctype);
            && (first.Some? <==> now.Some?)
            && (first.Some? ==> now.value.level == first.value.level)
    decreases |levels|
  {
    if levels != [] {
      var c := Configuration(levels[0], t, v);
      PutFirst(list, c, ctype);
      PutFirst(list, c, t);
      if UniqueKeys(list) { PutUnique(list, c); }
      PutAllKeeps(Put(list, c), levels[1..], t, v, ctype);
    }
  }

  lemma {:induction false} PutAllIdle(list: seq<Configuration>, levels: seq<Level>, t: ConfigType, v: string)
    requires forall l :: l in levels ==> Lookup(list, l, t) == Some(v)
    ensures PutAll(list, levels, t, v) == list
    decreases |levels|
  {
    if levels != [] {
      PutIdle(list, Configuration(levels[0], t, v));
      PutAllIdle(list, levels[1..], t, v);
    }
  }

  /** set broadcasts a Global value twice; the second broadcast changes nothing. */
  lemma BroadcastIsIdempotent(list: seq<Configuration>, t: ConfigType, v: string)
    ensures var once := PutAll(list, VALID_LEVELS, t, v);
            PutAll(once, VALID_LEVELS, t, v) == once
  {
    var once := PutAll(list, VALID_LEVELS, t, v);
    forall l | l in VALID_LEVELS ensures Lookup(once, l, t) == Some(v) {
      PutAllLookup(list, VALID_LEVELS, t, v, l, t);
    }
    PutAllIdle(once, VALID_LEVELS, t, v);
  }

  lemma SetLookup(list: seq<Configuration>, c: Configuration, level: Level, ctype: ConfigType)
    ensures Lookup(AfterSet(list, c), level, ctype)
            == if Reaches(c, level, ctype) then Some(c.value) else Lookup(list, level, ctype)
  {
    PutLookup(list, c, level, ctype);
    PutAllLookup(Put(list, c), VALID_LEVELS, c.ctype, c.value, level, ctype);
  }

  lemma SetKeeps(list: seq<Configuration>, c: Configuration, ctype: ConfigType)
    ensures UniqueKeys(list) ==> UniqueKeys(AfterSet(list, c))
    ensures var first := FirstOf(list, ctype);
            var now := FirstOf(AfterSet(list, c), ctype);
            && (first.Some? ==> now.Some? && now.value.level == first.value.level)
            && (first.None? ==> (now.Some? <==> c.ctype == ctype) && (now.Some? ==> now.value.level == c.level))
  {
    hide VALID_LEVELS, Put, PutAll, UniqueKeys, FirstOf;
    PutFirst(list, c, ctype);
    PutFirst(list, c, c.ctype);
    if UniqueKeys(list) { PutUnique(list, c); }
    PutAllKeeps(Put(list, c), VALID_LEVELS, c.ctype, c.value, ctype);
  }

  // -------------------------------------------------------------------- whole runs

  /** The value of the last call that reaches a level, for a type. */
  function LastWrite(calls: seq<Configuration>, level: Level, ctype: ConfigType): Option<string> {
    if calls == [] then None
    else if Reaches(calls[|calls| - 1], level, ctype) then Some(calls[|calls| - 1].value)
    else LastWrite(calls[..|calls| - 1], level, ctype)
  }

  /** After any run of calls of set, every level holds the value last written to it or to Global. */
  lemma {:induction false} RunLookup(list: seq<Configuration>, calls: seq<Configuration>, level: Level,
                                     ctype: ConfigType)
    ensures Lookup(Run(list, calls), level, ctype)
            == if LastWrite(calls, level, ctype).Some? then LastWrite(calls, level, ctype)
               else Lookup(list, level, ctype)
    decreases |calls|
  {
    if calls != [] {
      RunLookup(list, calls[..|calls| - 1], level, ctype);
      SetLookup(Run(list, calls[..|calls| - 1]), calls[|calls| - 1], level, ctype);
    }
  }

  lemma {:induction false} RunUnique(list: seq<Configuration>, calls: seq<Configuration>)
    requires UniqueKeys(list)
    ensures UniqueKeys(Run(list, calls))
    decreases |calls|
  {
    if calls != [] {
      RunUnique(list, calls[..|calls| - 1]);
      SetKeeps(Run(list, calls[..|calls| - 1]), calls[|calls| - 1], Enabled);
    }
  }

  /** In a registry built from nothing, the first entry of a type has the level of the first call about that type. */
  lemma {:induction false} RunFirst(calls: seq<Configuration>, ctype: ConfigType)
    ensures var first, call := FirstOf(Run([], calls), ctype), FirstOf(calls, ctype);
            (first.Some? <==> call.Some?) && (first.Some? ==> first.value.level == call.value.level)
    decreases |calls|
  {
    if calls != [] {
      var front, c := calls[..|calls| - 1], calls[|calls| - 1];
      RunFirst(front, ctype);
      SetKeeps(Run([], front), c, ctype);
      FirstOfAppend(front, [c], ctype);
      assert calls == front + [c];
    }
  }

  lemma {:induction false} FirstOfAppend(a: seq<Configuration>, b: seq<Configuration>, ctype: ConfigType)
    ensures FirstOf(a + b, ctype) == if FirstOf(a, ctype).Some? then FirstOf(a, ctype) else FirstOf(b, ctype)
  {
    if a == [] {
      assert a + b == b;
    } else {
      assert (a + b)[1..] == a[1..] + b;
      FirstOfAppend(a[1..], b, ctype);
    }
  }

  lemma {:induction false} LastWriteAppend(a: seq<Configuration>, b: seq<Configuration>, level: Level,
                                           ctype: ConfigType)
    ensures LastWrite(a + b, level, ctype)
            == if LastWrite(b, level, ctype).Some? then LastWrite(b, level, ctype) else LastWrite(a, level, ctype)
    decreases |b|
  {
    if b == [] {
      assert a + b == a;
    } else {
      assert (a + b)[..|a + b| - 1] == a + b[..|b| - 1];
      LastWriteAppend(a, b[..|b| - 1], level, ctype);
    }
  }

  lemma {:induction false} RunAppend(list: seq<Configuration>, a: seq<Configuration>, b: seq<Configuration>)
    ensures Run(list, a + b) == Run(Run(list, a), b)
    decreases |b|
  {
    if b == [] {
      assert a + b == a;
    } else {
      assert (a + b)[..|a + b| - 1] == a + b[..|b| - 1];
      RunAppend(list, a, b[..|b| - 1]);
    }
  }

  // -------------------------------------------------------------------- the defaults

  function ForLevels(levels: seq<Level>, ctype: ConfigType, value: string): (calls: seq<Configuration>)
    ensures |calls| == |levels|
  {
    seq(|levels|, i requires 0 <= i < |levels| => Configuration(levels[i], ctype, value))
  }

  /** The calls of set that setGlobally makes. */
  function Globally(ctype: ConfigType, value: string): (calls: seq<Configuration>)
    ensures |calls| > 0 && calls[0] == Configuration(Global, ctype, value)
    ensures forall i :: 0 <= i < |calls| ==> calls[i].ctype == ctype
  {
    [Configuration(Global, ctype, value)] + ForLevels(VALID_LEVELS, ctype, value)
  }

  /** The calls of setGlobally in setToDefault; the default log file is the empty name of ea_config.h. */
  const DEFAULTS: seq<(ConfigType, string)> := [
    (Enabled, "true"), (Filename, ""), (ToFile, "true"), (ToStandardOutput, "true"),
    (SubsecondPrecision, "3"), (PerformanceTracking, "true"), (MaxLogFileSize, "0"),
    (LogFlushThreshold, "0"), (Format, "%datetime %level [%logger] %msg")
  ]

  /** The calls of set at the end of setToDefault. */
  const LEVEL_FORMATS: seq<Configuration> := [
    Configuration(Debug, Format, "%datetime %level [%logger] [%user@%host] [%func] [%loc] %msg"),
    Configuration(Error, Format, "%datetime %level [%logger] %msg"),
    Configuration(Fatal, Format, "%datetime %level [%logger] %msg"),
    Configuration(Verbose, Format, "%datetime %level-%vlevel [%logger] %msg"),
    Configuration(Trace, Format, "%datetime %level [%logger] [%func] [%loc] %msg")
  ]

  function AllGlobally(settings: seq<(ConfigType, string)>): seq<Configuration> {
    if settings == [] then [] else Globally(settings[0].0, settings[0].1) + AllGlobally(settings[1..])
  }

  /** All calls of set that setToDefault makes, in order. */
  function DefaultCalls(): seq<Configuration> {
    AllGlobally(DEFAULTS) + LEVEL_FORMATS
  }

  lemma {:induction false} GloballyWrites(calls: seq<Configuration>, ctype: ConfigType, level: Level)
    requires calls != [] && calls[0].level == Global && level in VALID_LEVELS + [Global]
    requires forall i :: 0 <= i < |calls| ==> calls[i].ctype == ctype
    ensures FirstOf(calls, ctype) == Some(calls[0])
    ensures LastWrite(calls, level, ctype).Some?
    decreases |calls|
  {
    if |calls| > 1 {
      GloballyWrites(calls[..|calls| - 1], ctype, level);
    }
  }

  lemma {:induction false} OtherTypes(calls: seq<Configuration>, ctype: ConfigType)
    requires forall i :: 0 <= i < |calls| ==> calls[i].ctype != ctype
    ensures FirstOf(calls, ctype) == None
  {
    if calls != [] { OtherTypes(calls[1..], ctype); }
  }

  lemma {:induction false} AllGloballyWrites(settings: seq<(ConfigType, string)>, ctype: ConfigType, level: Level)
    requires exists i :: 0 <= i < |settings| && settings[i].0 == ctype
    requires level in VALID_LEVELS + [Global]
    ensures var first := FirstOf(AllGlobally(settings), ctype); first.Some? && first.value.level == Global
    ensures LastWrite(AllGlobally(settings), level, ctype).Some?
    decreases |settings|
  {
    var head, tail := Globally(settings[0].0, settings[0].1), settings[1..];
    FirstOfAppend(head, AllGlobally(tail), ctype);
    LastWriteAppend(head, AllGlobally(tail), level, ctype);
    if settings[0].0 == ctype {
      GloballyWrites(head, ctype, level);
    } else {
      OtherTypes(head, ctype);
      var i :| 0 <= i < |settings| && settings[i].0 == ctype;
      assert tail[i - 1].0 == ctype;
      AllGloballyWrites(tail, ctype, level);
    }
  }

  lemma DefaultsCover(ctype: ConfigType)
    requires ctype != UnknownType
    ensures exists i :: 0 <= i < |DEFAULTS| && DEFAULTS[i].0 == ctype
  {
    var i := match ctype
      case Enabled => 0 case Filename => 1 case ToFile => 2 case ToStandardOutput => 3
      case SubsecondPrecision => 4 case PerformanceTracking => 5 case MaxLogFileSize => 6
      case LogFlushThreshold => 7 case _ => 8;
    assert DEFAULTS[i].0 == ctype;
  }

  /** After setToDefault on an empty registry and any calls of set: one entry per level and type, the
      Global entry of a type in front of its others, and each entry holding the value last written
      to its level or to Global. */
  lemma DefaultsThenCalls(calls: seq<Configuration>, level: Level, ctype: ConfigType)
    requires ctype != UnknownType && level in VALID_LEVELS + [Global]
    ensures var all := DefaultCalls() + calls;
            var list := Run([], all);
            && UniqueKeys(list)
            && FirstOf(list, ctype).Some? && FirstOf(list, ctype).value.level == Global
            && LastWrite(all, level, ctype).Some? && Lookup(list, level, ctype) == LastWrite(all, level, ctype)
  {
    hide VALID_LEVELS;
    var all := DefaultCalls() + calls;
    RunUnique([], all);
    RunFirst(all, ctype);
    RunLookup([], all, level, ctype);
    DefaultsCover(ctype);
    AllGloballyWrites(DEFAULTS, ctype, level);
    FirstOfAppend(AllGlobally(DEFAULTS), LEVEL_FORMATS, ctype);
    FirstOfAppend(DefaultCalls(), calls, ctype);
    LastWriteAppend(AllGlobally(DEFAULTS), LEVEL_FORMATS, level, ctype);
    LastWriteAppend(DefaultCalls(), calls, level, ctype);
  }

  // -------------------------------------------------------------------- copying from a base registry

  /** The list has the type's Global entry somewhere behind its entry for the level. */
  ghost predicate GlobalBehind(list: seq<Configuration>, level: Level, ctype: ConfigType) {
    exists i, j :: 0 <= i < j < |list| && Is(list[i], level, ctype) && Is(list[j], Global, ctype)
  }

  /** A replay of the list overwrites its entry for the level with the Global one. */
  ghost predicate Overwritten(list: seq<Configuration>, level: Level, ctype: ConfigType) {
    level in VALID_LEVELS && GlobalBehind(list, level, ctype)
  }

  lemma {:induction false} LookupAppend(list: seq<Configuration>, c: Configuration, level: Level, ctype: ConfigType)
    ensures Lookup(list + [c], level, ctype)
            == if Lookup(list, level, ctype).Some? then Lookup(list, level, ctype)
               else if Is(c, level, ctype) then Some(c.value) else None
  {
    if list != [] {
      assert (list + [c])[1..] == list[1..] + [c];
      LookupAppend(list[1..], c, level, ctype);
    }
  }

  /** A key occurs once in a list of distinct keys: the last entry is the only one with its key. */
  lemma LastKeyIsNew(front: seq<Configuration>, c: Configuration)
    requires UniqueKeys(front + [c])
    ensures UniqueKeys(front) && Lookup(front, c.level, c.ctype).None?
    ensures Lookup(front + [c], c.level, c.ctype) == Some(c.value)
  {
    var list := front + [c];
    forall i | 0 <= i < |front| ensures !Is(front[i], c.level, c.ctype) {
      assert list[i] == front[i] && list[|front|] == c;
    }
    assert forall i :: 0 <= i < |front| ==> list[i] == front[i];
    LookupNone(front, c.level, c.ctype);
    LookupAppend(front, c, c.level, c.ctype);
  }

  lemma NothingBehindLast(front: seq<Configuration>, c: Configuration)
    requires Lookup(front, c.level, c.ctype).None?
    ensures !GlobalBehind(front + [c], c.level, c.ctype)
  {
    LookupNone(front, c.level, c.ctype);
    var list := front + [c];
    forall i, j | 0 <= i < j < |list| ensures !(Is(list[i], c.level, c.ctype) && Is(list[j], Global, c.ctype)) {
      assert list[i] == front[i];
    }
  }

  lemma LastGlobalIsBehind(front: seq<Configuration>, c: Configuration, level: Level)
    requires Lookup(front, level, c.ctype).Some? && c.level == Global
    ensures GlobalBehind(front + [c], level, c.ctype)
  {
    LookupNone(front, level, c.ctype);
    var i :| 0 <= i < |front| && Is(front[i], level, c.ctype);
    var list := front + [c];
    assert Is(list[i], level, c.ctype) && Is(list[|front|], Global, c.ctype);
  }

  /** What replaying a list of distinct keys leaves at a level: the level's own value, unless the
      Global entry comes later and overwrites it. */
  lemma {:induction false} ReplayedValue(base: seq<Configuration>, level: Level, ctype: ConfigType)
    requires UniqueKeys(base) && Lookup(base, level, ctype).Some?
    ensures LastWrite(base, level, ctype)
            == if Overwritten(base, level, ctype) then Lookup(base, Global, ctype) else Lookup(base, level, ctype)
    decreases |base|
  {
    hide UniqueKeys, GlobalBehind, VALID_LEVELS;
    var front, c := base[..|base| - 1], base[|base| - 1];
    assert base == front + [c];
    LastKeyIsNew(front, c);
    LookupAppend(front, c, level, ctype);
    if Is(c, level, ctype) {
      NothingBehindLast(front, c);
    } else if Is(c, Global, ctype) && level in VALID_LEVELS {
      LastGlobalIsBehind(front, c, level);
    } else {
      LookupAppend(front, c, Global, ctype);
      ReplayedValue(front, level, ctype);
      if level in VALID_LEVELS { GlobalBehindFront(front, c, level, ctype); }
    }
  }

  lemma GlobalBehindFront(front: seq<Configuration>, c: Configuration, level: Level, ctype: ConfigType)
    requires !Is(c, Global, ctype)
    ensures GlobalBehind(front + [c], level, ctype) <==> GlobalBehind(front, level, ctype)
  {
    if GlobalBehind(front, level, ctype) {
      var i, j :| 0 <= i < j < |front| && Is(front[i], level, ctype) && Is(front[j], Global, ctype);
      assert Is((front + [c])[i], level, ctype) && Is((front + [c])[j], Global, ctype);
    }
  }

  /** setFromBase makes the target agree with the base on an entry of the base exactly when the base
      does not keep a different Global value of that type behind it. */
  lemma AgreesWithBase(list: seq<Configuration>, base: seq<Configuration>, level: Level, ctype: ConfigType)
    requires UniqueKeys(base) && Lookup(base, level, ctype).Some?
    ensures Lookup(Run(list, base), level, ctype) == Lookup(base, level, ctype) <==>
            (Overwritten(base, level, ctype) ==> Lookup(base, Global, ctype) == Lookup(base, level, ctype))
  {
    ReplayedValue(base, level, ctype);
    RunLookup(list, base, level, ctype);
    if Overwritten(base, level, ctype) {
      LookupNone(base, Global, ctype);
    }
  }

  /** setFromBase leaves alone every type the base does not have. */
  lemma {:induction false} AbsentTypeUntouched(list: seq<Configuration>, base: seq<Configuration>, level: Level,
                                               ctype: ConfigType)
    requires FirstOf(base, ctype).None?
    ensures Lookup(Run(list, base), level, ctype) == Lookup(list, level, ctype)
    decreases |base|
  {
    RunLookup(list, base, level, ctype);
    NoWrites(base, level, ctype);
  }

  lemma {:induction false} NoWrites(calls: seq<Configuration>, level: Level, ctype: ConfigType)
    requires FirstOf(calls, ctype).None?
    ensures LastWrite(calls, level, ctype).None?
    decreases |calls|
  {
    if calls != [] {
      var front, c := calls[..|calls| - 1], calls[|calls| - 1];
      assert calls == front + [c];
      FirstOfAppend(front, [c], ctype);
      NoWrites(front, level, ctype);
    }
  }

  // -------------------------------------------------------------------- the registry class

  lemma {:induction false} PutAt(list: seq<Configuration>, c: Configuration, i: nat)
    requires i <= |list| && forall j :: 0 <= j < i ==> !Is(list[j], c.level, c.ctype)
    requires i < |list| ==> Is(list[i], c.level, c.ctype)
    ensures Put(list, c) == if i < |list| then list[i := c] else list + [c]
  {
    if i > 0 {
      PutAt(list[1..], c, i - 1);
    }
  }

  class Registry {
    var list: seq<Configuration>

    constructor ()
      ensures list == []
    {
      list := [];
    }

    /** RegistryWithPred::get: the first entry for the level and type, or the end of the list. */
    method Get(level: Level, ctype: ConfigType) returns (i: nat)
      ensures i <= |list| && forall j :: 0 <= j < i ==> !Is(list[j], level, ctype)
      ensures i < |list| ==> Is(list[i], level, ctype)
    {
      i := 0;
      while i < |list| && !Is(list[i], level, ctype)
        invariant i <= |list| && forall j :: 0 <= j < i ==> !Is(list[j], level, ctype)
      {
        i := i + 1;
      }
    }

    method UnsafeSet(level: Level, ctype: ConfigType, value: string)
      modifies this
      ensures list == AfterSet(old(list), Configuration(level, ctype, value))
      decreases if level == Global then 2 else 0
    {
      var c := Configuration(level, ctype, value);
      var i := Get(level, ctype);
      PutAt(list, c, i);
      if i == |list| {
        list := list + [c];
      } else {
        list := list[i := c];
      }
      if level == Global {
        UnsafeSetGlobally(ctype, value, false);
      }
    }

    method UnsafeSetGlobally(ctype: ConfigType, value: string, includeGlobalLevel: bool)
      modifies this
      ensures list == PutAll(if includeGlobalLevel then AfterSet(old(list), Configuration(Global, ctype, value))
                             else old(list),
                             VALID_LEVELS, ctype, value)
      decreases if includeGlobalLevel then 3 else 1
    {
      if includeGlobalLevel {
        UnsafeSet(Global, ctype, value);
      }
      ghost var start := list;
      var levels := VALID_LEVELS;
      while levels != []
        invariant Global !in levels
        invariant PutAll(list, levels, ctype, value) == PutAll(start, VALID_LEVELS, ctype, value)
        decreases |levels|
      {
        UnsafeSet(levels[0], ctype, value);
        levels := levels[1..];
      }
    }

    method Set(level: Level, ctype: ConfigType, value: string)
      modifies this
      ensures list == AfterSet(old(list), Configuration(level, ctype, value))
    {
      UnsafeSet(level, ctype, value);
      if level == Global {
        BroadcastIsIdempotent(Put(old(list), Configuration(level, ctype, value)), ctype, value);
        UnsafeSetGlobally(ctype, value, false);
      }
    }

    method SetGlobally(ctype: ConfigType, value: string, includeGlobalLevel: bool)
      modifies this
      ensures list == Run(old(list), if includeGlobalLevel then Globally(ctype, value)
                                     else ForLevels(VALID_LEVELS, ctype, value))
    {
      if includeGlobalLevel {
        Set(Global, ctype, value);
      }
      SetEach(ForLevels(VALID_LEVELS, ctype, value));
      ghost var g := Configuration(Global, ctype, value);
      RunAppend(old(list), [g], ForLevels(VALID_LEVELS, ctype, value));
      assert [g][..0] == [];
    }

    method SetAllGlobally(settings: seq<(ConfigType, string)>)
      modifies this
      ensures list == Run(old(list), AllGlobally(settings))
      decreases |settings|
    {
      if settings != [] {
        SetGlobally(settings[0].0, settings[0].1, true);
        RunAppend(old(list), Globally(settings[0].0, settings[0].1), AllGlobally(settings[1..]));
        SetAllGlobally(settings[1..]);
      }
    }

    /** setToDefault, as the run of its calls of set. */
    method SetToDefault()
      modifies this
      ensures list == Run(old(list), DefaultCalls())
    {
      SetAllGlobally(DEFAULTS);
      SetEach(LEVEL_FORMATS);
      RunAppend(old(list), AllGlobally(DEFAULTS), LEVEL_FORMATS);
    }

    method SetEach(calls: seq<Configuration>)
      modifies this
      ensures list == Run(old(list), calls)
    {
      var i := 0;
      while i < |calls|
        invariant 0 <= i <= |calls| && list == Run(old(list), calls[..i])
      {
        Set(calls[i].level, calls[i].ctype, calls[i].value);
        assert calls[..i + 1][..i] == calls[..i];
        i := i + 1;
      }
      assert calls[..i] == calls;
    }

    /** setFromBase: nothing for a missing base or for the registry itself, else a replay of the base's entries. */
    method SetFromBase(base: Registry?)
      modifies this
      ensures list == if base == null || base == this then old(list) else Run(old(list), base.list)
    {
      if base == null || base == this { return; }
      SetEach(base.list);
    }
  }
}
