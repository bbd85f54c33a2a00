/**
  The typed view of a configuration registry (class TypedConfigurations in external/easylogging++/easylogging++.h
  and .cc): per type, a sparse map from levels to parsed values that falls back to the level Global.
 */
module TypedConfigurations {
  import opened Arithmetic
  import opened Decimals
  import opened Levels
  import opened Configurations
  import opened Strings

  // -------------------------------------------------------------------- the sparse maps

  /** TypedConfigurations::setValue. */
  function SetValue<T(==)>(m: map<Level, T>, level: Level, value: T): map<Level, T> {
    if m == map[] then map[Global := value]
    else if Global in m && m[Global] == value then m
    else m[level := value]
  }

  /** TypedConfigurations::unsafeGetConfigByVal; default is the value-initialised Conf_T(). */
  function GetValue<T>(m: map<Level, T>, level: Level, default: T): T {
    if level in m then m[level] else if Global in m then m[Global] else default
  }

  /** The map that build makes for one type, from the values its levels parse to: one setValue per entry, in order. */
  function BuildMap<T(==)>(list: seq<Configuration>, ctype: ConfigType, parse: (Level, string) -> T): map<Level, T> {
    if list == [] then map[]
    else
      var m, c := BuildMap(list[..|list| - 1], ctype, parse), list[|list| - 1];
      if c.ctype == ctype then SetValue(m, c.level, parse(c.level, c.value)) else m
  }

  /** The types whose every entry is stored under Global: SubsecondPrecision and PerformanceTracking. */
  function BuildGlobalMap<T(==)>(list: seq<Configuration>, ctype: ConfigType, parse: string -> T): map<Level, T> {
    if list == [] then map[]
    else
      var m, c := BuildGlobalMap(list[..|list| - 1], ctype, parse), list[|list| - 1];
      if c.ctype == ctype then SetValue(m, Global, parse(c.value)) else m
  }

  // -------------------------------------------------------------------- the maps against the registry

  /** The level's registered value, parsed, is what the map returns. */
  ghost predicate AgreesAt<T>(list: seq<Configuration>, ctype: ConfigType, parse: (Level, string) -> T, level: Level,
                              default: T) {
    Lookup(list, level, ctype).Some? ==>
      GetValue(BuildMap(list, ctype, parse), level, default) == parse(level, Lookup(list, level, ctype).value)
  }

  /** What build maintains: m[Global] is the Global value once there is one and the first value until
      then; a level is missing from the map only if it is not registered, or has the value that
      stood under Global when it came. */
  ghost predicate Built<T>(list: seq<Configuration>, ctype: ConfigType, parse: (Level, string) -> T, m: map<Level, T>) {
    var first, global := FirstOf(list, ctype), Lookup(list, Global, ctype);
    && (first.None? <==> m == map[])
    && (first.Some? ==>
          && Global in m
          && m[Global] == (if global.Some? then parse(Global, global.value)
                           else parse(first.value.level, first.value.value))
          && (first.value.level != Global ==> first.value.level !in m)
          && forall level :: level != Global ==> BuiltAt(list, ctype, parse, m, level))
  }

  ghost predicate BuiltAt<T>(list: seq<Configuration>, ctype: ConfigType, parse: (Level, string) -> T,
                             m: map<Level, T>, level: Level) {
    var first, own := FirstOf(list, ctype), Lookup(list, level, ctype);
    if level in m then own.Some? && m[level] == parse(level, own.value)
    else
      own.Some? ==>
        && first.Some? && Global in m
        && (|| parse(level, own.value) == parse(first.value.level, first.value.value)
            || parse(level, own.value) == m[Global])
  }

  lemma {:induction false} FirstIsRegistered(list: seq<Configuration>, ctype: ConfigType)
    requires FirstOf(list, ctype).Some?
    ensures var f := FirstOf(list, ctype).value; f.ctype == ctype && Lookup(list, f.level, ctype) == Some(f.value)
  {
    if list[0].ctype != ctype { FirstIsRegistered(list[1..], ctype); }
  }

  /** One more entry of the type. */
  lemma BuildStep<T>(front: seq<Configuration>, c: Configuration, parse: (Level, string) -> T, m: map<Level, T>)
    requires Built(front, c.ctype, parse, m) && Lookup(front, c.level, c.ctype).None?
    ensures Built(front + [c], c.ctype, parse, SetValue(m, c.level, parse(c.level, c.value)))
  {
    hide FirstOf, Lookup;
    var list, m', t := front + [c], SetValue(m, c.level, parse(c.level, c.value)), c.ctype;
    FirstOfAppend(front, [c], t);
    assert FirstOf([c], t) == Some(c) by { OnlyFirst(c); }
    LookupAppend(front, c, Global, t);
    if FirstOf(front, t).Some? {
      FirstIsRegistered(front, t);
      forall level | level != Global ensures BuiltAt(list, t, parse, m', level) {
        LookupAppend(front, c, level, t);
        assert BuiltAt(front, t, parse, m, level);
      }
    } else {
      forall level ensures Lookup(front, level, t).None? {
        NotRegistered(front, level, t);
      }
      forall level | level != Global ensures BuiltAt(list, t, parse, m', level) {
        LookupAppend(front, c, level, t);
      }
    }
  }

  lemma OnlyFirst(c: Configuration)
    ensures FirstOf([c], c.ctype) == Some(c)
  {
  }

  lemma {:induction false} NotRegistered(list: seq<Configuration>, level: Level, ctype: ConfigType)
    requires FirstOf(list, ctype).None?
    ensures Lookup(list, level, ctype).None?
  {
    if list != [] { NotRegistered(list[1..], level, ctype); }
  }

  /** An entry of another type. */
  lemma SkipStep<T>(front: seq<Configuration>, c: Configuration, ctype: ConfigType, parse: (Level, string) -> T,
                    m: map<Level, T>)
    requires Built(front, ctype, parse, m) && c.ctype != ctype
    ensures Built(front + [c], ctype, parse, m)
  {
    FirstOfAppend(front, [c], ctype);
    LookupAppend(front, c, Global, ctype);
    forall level | level != Global && FirstOf(front, ctype).Some? ensures BuiltAt(front + [c], ctype, parse, m, level) {
      LookupAppend(front, c, level, ctype);
      assert BuiltAt(front, ctype, parse, m, level);
    }
  }

  lemma {:induction false} BuildIsBuilt<T>(list: seq<Configuration>, ctype: ConfigType, parse: (Level, string) -> T)
    requires UniqueKeys(list)
    ensures Built(list, ctype, parse, BuildMap(list, ctype, parse))
    decreases |list|
  {
    if list != [] {
      var front, c := list[..|list| - 1], list[|list| - 1];
      assert list == front + [c];
      LastKeyIsNew(front, c);
      BuildIsBuilt(front, ctype, parse);
      if c.ctype == ctype {
        BuildStep(front, c, parse, BuildMap(front, ctype, parse));
      } else {
        SkipStep(front, c, ctype, parse, BuildMap(front, ctype, parse));
      }
    }
  }

  /** The typed map returns the registered value of every level exactly when the type's Global value,
      if there is one, parses like the value of the type's first entry. */
  lemma MapAgreesWithRegistry<T>(list: seq<Configuration>, ctype: ConfigType, parse: (Level, string) -> T, default: T)
    requires UniqueKeys(list) && FirstOf(list, ctype).Some?
    ensures (forall level :: AgreesAt(list, ctype, parse, level, default)) <==>
            (Lookup(list, Global, ctype).Some? ==>
               parse(FirstOf(list, ctype).value.level, FirstOf(list, ctype).value.value)
               == parse(Global, Lookup(list, Global, ctype).value))
  {
    var m, first, global := BuildMap(list, ctype, parse), FirstOf(list, ctype).value, Lookup(list, Global, ctype);
    BuildIsBuilt(list, ctype, parse);
    FirstIsRegistered(list, ctype);
    if global.Some? ==> parse(first.level, first.value) == parse(Global, global.value) {
      forall level ensures AgreesAt(list, ctype, parse, level, default) {
        assert level != Global ==> BuiltAt(list, ctype, parse, m, level);
      }
    } else {
      assert !AgreesAt(list, ctype, parse, first.level, default);
    }
  }

  /** With the Global entry in front, the map is a faithful index: registered levels give their own
      parsed value, all others that of Global. */
  lemma GlobalFirstIsFaithful<T>(list: seq<Configuration>, ctype: ConfigType, parse: (Level, string) -> T,
                                 level: Level, default: T)
    requires UniqueKeys(list) && FirstOf(list, ctype).Some? && FirstOf(list, ctype).value.level == Global
    ensures GetValue(BuildMap(list, ctype, parse), level, default)
            == if Lookup(list, level, ctype).Some? then parse(level, Lookup(list, level, ctype).value)
               else parse(Global, FirstOf(list, ctype).value.value)
  {
    FirstIsRegistered(list, ctype);
    BuildIsBuilt(list, ctype, parse);
    var m := BuildMap(list, ctype, parse);
    assert level != Global ==> BuiltAt(list, ctype, parse, m, level);
  }

  /** The types with a value of their own for each level. */
  predicate PerLevel(ctype: ConfigType) {
    || ctype.Enabled? || ctype.ToFile? || ctype.ToStandardOutput?
    || ctype.Format? || ctype.MaxLogFileSize? || ctype.LogFlushThreshold?
  }

  /** After setToDefault and any calls of set, the typed map of such a type returns for every level the
      parsed value last written to that level or to Global. */
  lemma TypedValueIsLastWrite<T>(calls: seq<Configuration>, ctype: ConfigType, parse: (Level, string) -> T,
                                 level: Level, default: T)
    requires PerLevel(ctype) && level in VALID_LEVELS + [Global]
    ensures var all := DefaultCalls() + calls;
            && LastWrite(all, level, ctype).Some?
            && GetValue(BuildMap(Run([], all), ctype, parse), level, default)
               == parse(level, LastWrite(all, level, ctype).value)
  {
    hide DefaultCalls, VALID_LEVELS;
    DefaultsThenCalls(calls, level, ctype);
    GlobalFirstIsFaithful(Run([], DefaultCalls() + calls), ctype, parse, level, default);
  }

  // -------------------------------------------------------------------- types stored under Global only

  /** The last entry of a type. */
  function LastOf(list: seq<Configuration>, ctype: ConfigType): Option<Configuration> {
    if list == [] then None
    else if list[|list| - 1].ctype == ctype then Some(list[|list| - 1])
    else LastOf(list[..|list| - 1], ctype)
  }

  /** Such a map holds the value of the type's last entry, whatever its level, and returns it for every level. */
  lemma {:induction false} GlobalMapIsLastEntry<T>(list: seq<Configuration>, ctype: ConfigType, parse: string -> T,
                                                   level: Level, default: T)
    ensures var m, last := BuildGlobalMap(list, ctype, parse), LastOf(list, ctype);
            && (last.None? ==> m == map[])
            && (last.Some? ==>
                  && m == map[Global := parse(last.value.value)]
                  && GetValue(m, level, default) == parse(last.value.value))
    decreases |list|
  {
    if list != [] {
      GlobalMapIsLastEntry(list[..|list| - 1], ctype, parse, level, default);
    }
  }

  lemma {:induction false} LastOfCons(c: Configuration, list: seq<Configuration>, ctype: ConfigType)
    ensures LastOf([c] + list, ctype)
            == if LastOf(list, ctype).Some? then LastOf(list, ctype) else if c.ctype == ctype then Some(c) else None
    decreases |list|
  {
    if list == [] {
      assert ([c] + list)[..0] == [];
    } else {
      assert ([c] + list)[..|list|] == [c] + list[..|list| - 1];
      LastOfCons(c, list[..|list| - 1], ctype);
    }
  }

  /** The last entry of a type keeps its level until a new level is registered behind it. */
  lemma {:induction false} PutLast(list: seq<Configuration>, c: Configuration, ctype: ConfigType)
    ensures var last, now := LastOf(list, ctype), LastOf(Put(list, c), ctype);
            if Lookup(list, c.level, c.ctype).None? && c.ctype == ctype then now == Some(c)
            else (last.Some? <==> now.Some?) && (last.Some? ==> now.value.level == last.value.level)
  {
    if list == [] {
      assert [c][..0] == [];
    } else {
      assert list == [list[0]] + list[1..];
      LastOfCons(list[0], list[1..], ctype);
      if Is(list[0], c.level, c.ctype) {
        LastOfCons(c, list[1..], ctype);
      } else {
        PutLast(list[1..], c, ctype);
        LastOfCons(list[0], Put(list[1..], c), ctype);
      }
    }
  }

  ghost predicate Distinct(levels: seq<Level>) {
    forall i, j :: 0 <= i < j < |levels| ==> levels[i] != levels[j]
  }

  /** Broadcasting to levels that are all new leaves the last of them last. */
  lemma {:induction false} PutAllNew(list: seq<Configuration>, levels: seq<Level>, t: ConfigType, v: string)
    requires levels != [] && Distinct(levels) && forall l :: l in levels ==> Lookup(list, l, t).None?
    ensures var now := LastOf(PutAll(list, levels, t, v), t);
            now.Some? && now.value.level == levels[|levels| - 1]
    decreases |levels|
  {
    hide Lookup, Put, LastOf;
    var c := Configuration(levels[0], t, v);
    PutLast(list, c, t);
    if |levels| == 1 {
      assert PutAll(Put(list, c), levels[1..], t, v) == Put(list, c);
    } else {
      forall l | l in levels[1..] ensures Lookup(Put(list, c), l, t).None? {
        PutLookup(list, c, l, t);
        assert l in levels;
      }
      PutAllNew(Put(list, c), levels[1..], t, v);
    }
  }

  /** Broadcasting to levels that are all registered leaves the last entry where it is. */
  lemma {:induction false} PutAllOld(list: seq<Configuration>, levels: seq<Level>, t: ConfigType, v: string)
    requires LastOf(list, t).Some? && forall l :: l in levels ==> Lookup(list, l, t).Some?
    ensures var now := LastOf(PutAll(list, levels, t, v), t);
            now.Some? && now.value.level == LastOf(list, t).value.level
    decreases |levels|
  {
    hide Lookup, Put, LastOf;
    if levels != [] {
      var c := Configuration(levels[0], t, v);
      PutLast(list, c, t);
      forall l | l in levels[1..] ensures Lookup(Put(list, c), l, t).Some? {
        PutLookup(list, c, l, t);
        assert l in levels;
      }
      PutAllOld(Put(list, c), levels[1..], t, v);
    }
  }

  /** Every level has been written once the first call about a type was for Global. */
  lemma {:induction false} GlobalReachesAll(calls: seq<Configuration>, ctype: ConfigType, level: Level)
    requires FirstOf(calls, ctype).Some? && FirstOf(calls, ctype).value.level == Global
    requires level in VALID_LEVELS + [Global]
    ensures LastWrite(calls, level, ctype).Some?
    decreases |calls|
  {
    hide VALID_LEVELS;
    var front, c := calls[..|calls| - 1], calls[|calls| - 1];
    assert calls == front + [c];
    FirstOfAppend(front, [c], ctype);
    if FirstOf(front, ctype).Some? {
      GlobalReachesAll(front, ctype, level);
    } else {
      assert [c][0] == c;
    }
  }

  ghost predicate KnownLevels(calls: seq<Configuration>, ctype: ConfigType) {
    forall i :: 0 <= i < |calls| && calls[i].ctype == ctype ==> calls[i].level != Unknown
  }

  lemma LevelsOfSet(level: Level)
    requires level != Unknown
    ensures level in VALID_LEVELS + [Global]
  {
  }

  lemma SetFirstGlobal(list: seq<Configuration>, c: Configuration)
    requires c.level == Global && FirstOf(list, c.ctype).None?
    ensures var now := LastOf(AfterSet(list, c), c.ctype); now.Some? && now.value.level == Info
  {
    hide Lookup, Put, LastOf, PutAll;
    forall l | l in VALID_LEVELS ensures Lookup(Put(list, c), l, c.ctype).None? {
      PutLookup(list, c, l, c.ctype);
      NotRegistered(list, l, c.ctype);
    }
    PutAllNew(Put(list, c), VALID_LEVELS, c.ctype, c.value);
  }

  lemma SetRegistered(list: seq<Configuration>, c: Configuration)
    requires c.level != Unknown && LastOf(list, c.ctype).Some?
    requires forall l :: l in VALID_LEVELS + [Global] ==> Lookup(list, l, c.ctype).Some?
    ensures var now := LastOf(AfterSet(list, c), c.ctype);
            now.Some? && now.value.level == LastOf(list, c.ctype).value.level
  {
    hide Lookup, Put, LastOf, PutAll;
    LevelsOfSet(c.level);
    PutLast(list, c, c.ctype);
    if c.level == Global {
      forall l | l in VALID_LEVELS ensures Lookup(Put(list, c), l, c.ctype).Some? {
        PutLookup(list, c, l, c.ctype);
        assert l in VALID_LEVELS + [Global];
      }
      PutAllOld(Put(list, c), VALID_LEVELS, c.ctype, c.value);
    }
  }

  /** In a registry that was given a Global value of a type first, the last entry of the type is that of Info. */
  lemma {:induction false} InfoStaysLast(calls: seq<Configuration>, ctype: ConfigType)
    requires FirstOf(calls, ctype).Some? && FirstOf(calls, ctype).value.level == Global && KnownLevels(calls, ctype)
    ensures var last := LastOf(Run([], calls), ctype); last.Some? && last.value.level == Info
    decreases |calls|
  {
    hide VALID_LEVELS, AfterSet, LastOf, Lookup, LastWrite;
    var front, c := calls[..|calls| - 1], calls[|calls| - 1];
    assert calls == front + [c];
    FirstOfAppend(front, [c], ctype);
    RunFirst(front, ctype);
    var list := Run([], front);
    if c.ctype == ctype {
      if FirstOf(front, ctype).Some? {
        forall l | l in VALID_LEVELS + [Global] ensures Lookup(list, l, ctype).Some? {
          GlobalReachesAll(front, ctype, l);
          RunLookup([], front, l, ctype);
        }
        InfoStaysLast(front, ctype);
        SetRegistered(list, c);
      } else {
        SetFirstGlobal(list, c);
      }
    } else {
      InfoStaysLast(front, ctype);
      SetOther(list, c, ctype);
    }
  }

  lemma {:induction false} SetOther(list: seq<Configuration>, c: Configuration, ctype: ConfigType)
    requires c.ctype != ctype && LastOf(list, ctype).Some?
    ensures var now := LastOf(AfterSet(list, c), ctype); now.Some? && now.value.level == LastOf(list, ctype).value.level
  {
    hide VALID_LEVELS, Put, LastOf, Lookup;
    PutLast(list, c, ctype);
    PutAllOther(Put(list, c), VALID_LEVELS, c.ctype, c.value, ctype);
  }

  lemma {:induction false} PutAllOther(list: seq<Configuration>, levels: seq<Level>, t: ConfigType, v: string,
                                       ctype: ConfigType)
    requires t != ctype && LastOf(list, ctype).Some?
    ensures var now := LastOf(PutAll(list, levels, t, v), ctype);
            now.Some? && now.value.level == LastOf(list, ctype).value.level
    decreases |levels|
  {
    if levels != [] {
      PutLast(list, Configuration(levels[0], t, v), ctype);
      PutAllOther(Put(list, Configuration(levels[0], t, v)), levels[1..], t, v, ctype);
    }
  }

  /** After setToDefault and calls of set for known levels, a type that build stores under Global only
      has, for every level, the value last written to Info or to Global: writes to the other levels
      of such a type have no effect. */
  lemma GlobalOnlyValueIsInfo<T>(calls: seq<Configuration>, ctype: ConfigType, parse: string -> T, level: Level,
                                 default: T)
    requires (ctype.SubsecondPrecision? || ctype.PerformanceTracking?) && KnownLevels(DefaultCalls() + calls, ctype)
    ensures var all := DefaultCalls() + calls;
            && LastWrite(all, Info, ctype).Some?
            && GetValue(BuildGlobalMap(Run([], all), ctype, parse), level, default)
               == parse(LastWrite(all, Info, ctype).value)
  {
    hide DefaultCalls;
    var all := DefaultCalls() + calls;
    var list := Run([], all);
    DefaultsThenCalls(calls, Info, ctype);
    RunFirst(all, ctype);
    InfoStaysLast(all, ctype);
    GlobalMapIsLastEntry(list, ctype, parse, level, default);
    LastIsRegistered(list, ctype);
  }

  /** In a list of distinct keys the last entry of a type is the one Lookup finds for its level. */
  lemma {:induction false} LastIsRegistered(list: seq<Configuration>, ctype: ConfigType)
    requires UniqueKeys(list) && LastOf(list, ctype).Some?
    ensures var c := LastOf(list, ctype).value; Lookup(list, c.level, ctype) == Some(c.value)
    decreases |list|
  {
    var front, c := list[..|list| - 1], list[|list| - 1];
    assert list == front + [c];
    LastKeyIsNew(front, c);
    if c.ctype != ctype {
      LastIsRegistered(front, ctype);
      LookupAppend(front, c, LastOf(front, ctype).value.level, ctype);
    }
  }

  // -------------------------------------------------------------------- parsing values, and build itself

  /** The lambda getBool of build. */
  function GetBool(value: string): bool {
    var s := Trim(value);
    s == "TRUE" || s == "true" || s == "1"
  }

  const MAX_LONG := 0x7fff_ffff_ffff_ffff

  /** TypedConfigurations::getULong; atol is taken to stop at the largest 64-bit long. */
  function GetULong(value: string): nat {
    var s := Trim(value);
    if s != "" && AllDigits(s) then Min(Val(s), MAX_LONG)
    else 0
  }

  /** SubsecondPrecision::init. */
  datatype Precision = Precision(width: int, offset: int)

  function MakePrecision(width: int): (p: Precision)
    ensures 1 <= p.width <= 6 && (1 <= width <= 6 ==> p.width == width)
  {
    var w := if width < 1 || width > 6 then 3 else width;
    Precision(w, match w case 4 => 100 case 5 => 10 case 6 => 1 case _ => 1000)
  }

  /** The cast of an unsigned long to int, then the constructor. */
  function GetPrecision(value: string): Precision {
    var low := GetULong(value) % 0x1_0000_0000;
    MakePrecision(if low < 0x8000_0000 then low else low - 0x1_0000_0000)
  }

  /** A format remembers the level it was made for, and differs from that of any other level. */
  datatype LevelFormat = LevelFormat(level: Level, format: string)

  function BoolAt(level: Level, value: string): bool {
    GetBool(value)
  }

  function ULongAt(level: Level, value: string): nat {
    GetULong(value)
  }

  function FormatAt(level: Level, value: string): LevelFormat {
    LevelFormat(level, value)
  }

  lemma BuildLast<T>(front: seq<Configuration>, c: Configuration, ctype: ConfigType, parse: (Level, string) -> T)
    ensures BuildMap(front + [c], ctype, parse)
            == if c.ctype == ctype then SetValue(BuildMap(front, ctype, parse), c.level, parse(c.level, c.value))
               else BuildMap(front, ctype, parse)
  {
    assert (front + [c])[..|front|] == front;
  }

  lemma BuildGlobalLast<T>(front: seq<Configuration>, c: Configuration, ctype: ConfigType, parse: string -> T)
    ensures BuildGlobalMap(front + [c], ctype, parse)
            == if c.ctype == ctype then SetValue(BuildGlobalMap(front, ctype, parse), Global, parse(c.value))
               else BuildGlobalMap(front, ctype, parse)
  {
    assert (front + [c])[..|front|] == front;
  }

  class TypedView {
    var enabled: map<Level, bool>
    var toFile: map<Level, bool>
    var toStandardOutput: map<Level, bool>
    var logFormat: map<Level, LevelFormat>
    var precision: map<Level, Precision>
    var performanceTracking: map<Level, bool>
    var maxLogFileSize: map<Level, nat>
    var logFlushThreshold: map<Level, nat>

    /** What build has done after the entries of list. */
    ghost predicate BuiltFrom(list: seq<Configuration>)
      reads this
    {
      && enabled == BuildMap(list, Enabled, BoolAt)
      && toFile == BuildMap(list, ToFile, BoolAt)
      && toStandardOutput == BuildMap(list, ToStandardOutput, BoolAt)
      && logFormat == BuildMap(list, Format, FormatAt)
      && precision == BuildGlobalMap(list, SubsecondPrecision, GetPrecision)
      && performanceTracking == BuildGlobalMap(list, PerformanceTracking, GetBool)
      && maxLogFileSize == BuildMap(list, MaxLogFileSize, ULongAt)
      && logFlushThreshold == BuildMap(list, LogFlushThreshold, ULongAt)
    }

    /** The constructor with its call of build, without the log files. */
    constructor (configurations: Registry)
      ensures BuiltFrom(configurations.list)
    {
      enabled, toFile, toStandardOutput, logFormat := map[], map[], map[], map[];
      precision, performanceTracking := map[], map[];
      maxLogFileSize, logFlushThreshold := map[], map[];
      new;
      var list := configurations.list;
      var i := 0;
      while i < |list|
        invariant 0 <= i <= |list| && configurations.list == list
        invariant BuiltFrom(list[..i])
      {
        AddEntry(list[..i], list[i]);
        assert list[..i + 1] == list[..i] + [list[i]];
        i := i + 1;
      }
      assert list[..i] == list;
    }

    /** One turn of build's loop over the entries. */
    method AddEntry(ghost front: seq<Configuration>, conf: Configuration)
      requires BuiltFrom(front)
      modifies this
      ensures BuiltFrom(front + [conf])
    {
      hide GetBool, GetULong, GetPrecision, SetValue, BuildMap, BuildGlobalMap;
      BuildLast(front, conf, Enabled, BoolAt);
      BuildLast(front, conf, ToFile, BoolAt);
      BuildLast(front, conf, ToStandardOutput, BoolAt);
      BuildLast(front, conf, Format, FormatAt);
      BuildGlobalLast(front, conf, SubsecondPrecision, GetPrecision);
      BuildGlobalLast(front, conf, PerformanceTracking, GetBool);
      BuildLast(front, conf, MaxLogFileSize, ULongAt);
      BuildLast(front, conf, LogFlushThreshold, ULongAt);
      match conf.ctype
      case Enabled => enabled := SetValue(enabled, conf.level, GetBool(conf.value));
      case ToFile => toFile := SetValue(toFile, conf.level, GetBool(conf.value));
      case ToStandardOutput => toStandardOutput := SetValue(toStandardOutput, conf.level, GetBool(conf.value));
      case Format => logFormat := SetValue(logFormat, conf.level, LevelFormat(conf.level, conf.value));
      case SubsecondPrecision => precision := SetValue(precision, Global, GetPrecision(conf.value));
      case PerformanceTracking => performanceTracking := SetValue(performanceTracking, Global, GetBool(conf.value));
      case MaxLogFileSize => maxLogFileSize := SetValue(maxLogFileSize, conf.level, GetULong(conf.value));
      case LogFlushThreshold => logFlushThreshold := SetValue(logFlushThreshold, conf.level, GetULong(conf.value));
      case _ =>
    }
  }
}
