/**
  Registry, text parser and typed view together: what a configuration text means for a logger that
  starts from the defaults.
 */
module ConfiguredLogger {
  import opened Levels
  import opened Strings
  import opened Configurations
  import opened TypedConfigurations
  import opened ConfigValues
  import opened ConfigParser

  /** What a document says last of a type, for a level or for Global, and else the default. */
  ghost function Says(doc: seq<DocLine>, level: Level, ctype: ConfigType): string
    requires ctype != UnknownType && level in VALID_LEVELS + [Global]
  {
    var written := LastWrite(DocProgress(doc, Progress(false, Unknown, [])).calls, level, ctype);
    if written.Some? then written.value
    else
      HasDefault(level, ctype);
      LastWrite(DefaultCalls(), level, ctype).value
  }

  lemma HasDefault(level: Level, ctype: ConfigType)
    requires ctype != UnknownType && level in VALID_LEVELS + [Global]
    ensures LastWrite(DefaultCalls(), level, ctype).Some?
  {
    hide DefaultCalls, VALID_LEVELS;
    DefaultsThenCalls([], level, ctype);
    assert DefaultCalls() + [] == DefaultCalls();
  }

  lemma SaysLast(doc: seq<DocLine>, level: Level, ctype: ConfigType)
    requires ctype != UnknownType && level in VALID_LEVELS + [Global]
    ensures var all := DefaultCalls() + DocProgress(doc, Progress(false, Unknown, [])).calls;
      LastWrite(all, level, ctype) == Some(Says(doc, level, ctype))
  {
    hide DefaultCalls, VALID_LEVELS;
    HasDefault(level, ctype);
    LastWriteAppend(DefaultCalls(), DocProgress(doc, Progress(false, Unknown, [])).calls, level, ctype);
  }

  /** After setToDefault and parseFromText of a document, the typed value of a type with values per level is the one
      the document sets last for that level or for Global, or else the default. */
  lemma DocumentDecides<T>(doc: seq<DocLine>, ctype: ConfigType, parse: (Level, string) -> T, level: Level, default: T)
    requires ValidDoc(doc) && NoQuotes(doc) && PerLevel(ctype) && level in VALID_LEVELS + [Global]
    ensures var list := Run(Run([], DefaultCalls()), ParseText(PrintDoc(doc)).calls);
      GetValue(BuildMap(list, ctype, parse), level, default) == parse(level, Says(doc, level, ctype))
  {
    hide DefaultCalls, VALID_LEVELS, ParseText, PrintDoc, ValidDoc, NoQuotes, Says;
    var calls := DocProgress(doc, Progress(false, Unknown, [])).calls;
    ParseUndoesPrint(doc);
    RunAppend([], DefaultCalls(), calls);
    TypedValueIsLastWrite(calls, ctype, parse, level, default);
    SaysLast(doc, level, ctype);
  }

  /** For a type that is stored under Global only, it is what the document says of Info or Global, for all levels. */
  lemma DocumentDecidesGlobal<T>(doc: seq<DocLine>, ctype: ConfigType, parse: string -> T, level: Level, default: T)
    requires ValidDoc(doc) && NoQuotes(doc) && (ctype.SubsecondPrecision? || ctype.PerformanceTracking?)
    ensures var list := Run(Run([], DefaultCalls()), ParseText(PrintDoc(doc)).calls);
      GetValue(BuildGlobalMap(list, ctype, parse), level, default) == parse(Says(doc, Info, ctype))
  {
    hide DefaultCalls, ParseText, PrintDoc, ValidDoc, NoQuotes, Says;
    var calls := DocProgress(doc, Progress(false, Unknown, [])).calls;
    ParseUndoesPrint(doc);
    RunAppend([], DefaultCalls(), calls);
    DefaultsAreKnown();
    DocIsKnown(doc, Progress(false, Unknown, []));
    assert KnownLevels(DefaultCalls() + calls, ctype);
    GlobalOnlyValueIsInfo(calls, ctype, parse, level, default);
    SaysLast(doc, Info, ctype);
  }

  ghost predicate Known(calls: seq<Configuration>) {
    forall i :: 0 <= i < |calls| ==> calls[i].level != Unknown
  }

  lemma {:induction false} GloballyIsKnown(settings: seq<(ConfigType, string)>)
    ensures Known(AllGlobally(settings))
  {
    if settings != [] {
      GloballyIsKnown(settings[1..]);
    }
  }

  lemma DefaultsAreKnown()
    ensures Known(DefaultCalls())
  {
    hide AllGlobally;
    GloballyIsKnown(DEFAULTS);
  }

  /** A document makes no call without a level in force. */
  lemma {:induction false} DocIsKnown(doc: seq<DocLine>, p: Progress)
    requires Known(p.calls)
    ensures Known(DocProgress(doc, p).calls)
    decreases |doc|
  {
    if doc != [] {
      DocIsKnown(doc[1..], Step(p, Meaning(doc[0], p.level)));
    }
  }

  /** The typed values are those the document says. */
  ghost predicate Configured(view: TypedView, doc: seq<DocLine>, level: Level)
    requires level in VALID_LEVELS + [Global]
    reads view
  {
    && MeansBool(Says(doc, level, Enabled), GetValue(view.enabled, level, false))
    && MeansBool(Says(doc, level, ToFile), GetValue(view.toFile, level, false))
    && MeansBool(Says(doc, level, ToStandardOutput), GetValue(view.toStandardOutput, level, false))
    && MeansNumber(Says(doc, level, MaxLogFileSize), GetValue(view.maxLogFileSize, level, 0))
    && MeansNumber(Says(doc, level, LogFlushThreshold), GetValue(view.logFlushThreshold, level, 0))
    && GetValue(view.logFormat, level, LevelFormat(Unknown, "")) == LevelFormat(level, Says(doc, level, Format))
    && MeansPrecision(Says(doc, Info, SubsecondPrecision), GetValue(view.precision, level, MakePrecision(0)))
    && MeansBool(Says(doc, Info, PerformanceTracking), GetValue(view.performanceTracking, level, false))
  }

  lemma ViewIsConfigured(view: TypedView, doc: seq<DocLine>, level: Level)
    requires ValidDoc(doc) && NoQuotes(doc) && level in VALID_LEVELS + [Global]
    requires view.BuiltFrom(Run(Run([], DefaultCalls()), ParseText(PrintDoc(doc)).calls))
    ensures Configured(view, doc, level)
  {
    assert Info in VALID_LEVELS + [Global];
    hide DefaultCalls, VALID_LEVELS, ParseText, PrintDoc, ValidDoc, NoQuotes, Says, BuildMap, BuildGlobalMap, GetValue;
    hide GetBool, GetULong, GetPrecision, MeansBool, MeansNumber, MeansPrecision;
    DocumentDecides(doc, Enabled, BoolAt, level, false);
    DocumentDecides(doc, ToFile, BoolAt, level, false);
    DocumentDecides(doc, ToStandardOutput, BoolAt, level, false);
    DocumentDecides(doc, MaxLogFileSize, ULongAt, level, 0);
    DocumentDecides(doc, LogFlushThreshold, ULongAt, level, 0);
    DocumentDecides(doc, Format, FormatAt, level, LevelFormat(Unknown, ""));
    DocumentDecidesGlobal(doc, SubsecondPrecision, GetPrecision, level, MakePrecision(0));
    DocumentDecidesGlobal(doc, PerformanceTracking, GetBool, level, false);
    BoolIs(Says(doc, level, Enabled));
    BoolIs(Says(doc, level, ToFile));
    BoolIs(Says(doc, level, ToStandardOutput));
    BoolIs(Says(doc, Info, PerformanceTracking));
    NumberIs(Says(doc, level, MaxLogFileSize));
    NumberIs(Says(doc, level, LogFlushThreshold));
    PrecisionIs(Says(doc, Info, SubsecondPrecision));
  }

  /**
    The whole way: the defaults, a text on top of them, and the typed view of the result. Whatever the text, the view
    is built from the calls the parser makes; when the text is a document, every level has what the document says.
   */
  method Configure(text: string) returns (view: TypedView)
    ensures fresh(view) && view.BuiltFrom(Run(Run([], DefaultCalls()), ParseText(text).calls))
    ensures forall doc, level |
              ValidDoc(doc) && NoQuotes(doc) && text == PrintDoc(doc) && level in VALID_LEVELS + [Global] ::
              Configured(view, doc, level)
  {
    hide DefaultCalls, VALID_LEVELS, ParseText, PrintDoc, ValidDoc, NoQuotes, Configured, Run;
    var registry := new Registry();
    registry.SetToDefault();
    var ok := ParseFromText(text, registry, null);
    view := new TypedView(registry);
    forall doc, level | ValidDoc(doc) && NoQuotes(doc) && text == PrintDoc(doc) && level in VALID_LEVELS + [Global]
      ensures Configured(view, doc, level)
    {
      ViewIsConfigured(view, doc, level);
    }
  }

  // -------------------------------------------------------------------- the defaults alone

  /** The value that a list of settings has last for a type. */
  ghost function LastSetting(settings: seq<(ConfigType, string)>, ctype: ConfigType): Option<string> {
    if settings == [] then None
    else
      var later := LastSetting(settings[1..], ctype);
      if later.Some? then later else if settings[0].0 == ctype then Some(settings[0].1) else None
  }

  lemma {:induction false} OneValue(calls: seq<Configuration>, ctype: ConfigType, value: string, level: Level)
    requires calls != [] && calls[0].level == Global && level in VALID_LEVELS + [Global]
    requires forall i :: 0 <= i < |calls| ==> calls[i].ctype == ctype && calls[i].value == value
    ensures LastWrite(calls, level, ctype) == Some(value)
    decreases |calls|
  {
    if |calls| > 1 {
      OneValue(calls[..|calls| - 1], ctype, value, level);
    }
  }

  lemma {:induction false} NotWritten(calls: seq<Configuration>, ctype: ConfigType, level: Level)
    requires forall i :: 0 <= i < |calls| ==> calls[i].ctype != ctype
    ensures LastWrite(calls, level, ctype) == None
    decreases |calls|
  {
    if calls != [] {
      NotWritten(calls[..|calls| - 1], ctype, level);
    }
  }

  lemma {:induction false} GloballyLast(settings: seq<(ConfigType, string)>, level: Level, ctype: ConfigType)
    requires level in VALID_LEVELS + [Global]
    ensures LastWrite(AllGlobally(settings), level, ctype) == LastSetting(settings, ctype)
    decreases |settings|
  {
    if settings != [] {
      var head := Globally(settings[0].0, settings[0].1);
      assert forall i :: 0 <= i < |head| ==> head[i].value == settings[0].1;
      hide LastWrite, Globally, VALID_LEVELS;
      LastWriteAppend(head, AllGlobally(settings[1..]), level, ctype);
      GloballyLast(settings[1..], level, ctype);
      if settings[0].0 == ctype {
        OneValue(head, ctype, settings[0].1, level);
      } else {
        NotWritten(head, ctype, level);
      }
    }
  }

  /** The format that a level has by default. */
  function DefaultFormat(level: Level): string {
    match level
    case Debug => "%datetime %level [%logger] [%user@%host] [%func] [%loc] %msg"
    case Verbose => "%datetime %level-%vlevel [%logger] %msg"
    case Trace => "%datetime %level [%logger] [%func] [%loc] %msg"
    case _ => "%datetime %level [%logger] %msg"
  }

  lemma {:induction false} SettingIs(settings: seq<(ConfigType, string)>, i: nat)
    requires i < |settings| && forall j :: i < j < |settings| ==> settings[j].0 != settings[i].0
    ensures LastSetting(settings, settings[i].0) == Some(settings[i].1)
    decreases i
  {
    if i == 0 {
      NoSetting(settings[1..], settings[0].0);
    } else {
      SettingIs(settings[1..], i - 1);
    }
  }

  lemma {:induction false} NoSetting(settings: seq<(ConfigType, string)>, ctype: ConfigType)
    requires forall j :: 0 <= j < |settings| ==> settings[j].0 != ctype
    ensures LastSetting(settings, ctype) == None
  {
    if settings != [] {
      NoSetting(settings[1..], ctype);
    }
  }

  lemma NothingSaid(level: Level, ctype: ConfigType)
    requires ctype != UnknownType && level in VALID_LEVELS + [Global]
    ensures LastWrite(DefaultCalls(), level, ctype) == Some(Says([], level, ctype))
  {
    hide DefaultCalls, VALID_LEVELS;
    HasDefault(level, ctype);
  }

  /** The last of the settings for all levels, unless a level has its own. */
  lemma DefaultFrom(level: Level, i: nat)
    requires level in VALID_LEVELS + [Global] && i < |DEFAULTS| && DEFAULTS[i].0 != UnknownType
    requires forall j :: i < j < |DEFAULTS| ==> DEFAULTS[j].0 != DEFAULTS[i].0
    ensures var own := LastWrite(LEVEL_FORMATS, level, DEFAULTS[i].0);
      Says([], level, DEFAULTS[i].0) == if own.Some? then own.value else DEFAULTS[i].1
  {
    hide VALID_LEVELS, AllGlobally, LEVEL_FORMATS, DEFAULTS, LastWrite, Says, LastSetting;
    var ctype := DEFAULTS[i].0;
    SettingIs(DEFAULTS, i);
    GloballyLast(DEFAULTS, level, ctype);
    LastWriteAppend(AllGlobally(DEFAULTS), LEVEL_FORMATS, level, ctype);
    NothingSaid(level, ctype);
  }

  lemma DefaultIs(level: Level, i: nat)
    requires level in VALID_LEVELS + [Global] && i < |DEFAULTS| && DEFAULTS[i].0 != Format
    ensures Says([], level, DEFAULTS[i].0) == DEFAULTS[i].1
  {
    hide LastWrite, Says, VALID_LEVELS;
    NotWritten(LEVEL_FORMATS, DEFAULTS[i].0, level);
    DefaultFrom(level, i);
  }

  lemma FormatIs(level: Level)
    requires level in VALID_LEVELS + [Global]
    ensures Says([], level, Format) == DefaultFormat(level)
  {
    hide LastWrite, Says, VALID_LEVELS, LEVEL_FORMATS, DefaultFormat;
    FormatWritten(level);
    DefaultFrom(level, 8);
  }

  lemma {:induction false} LastWriteAt(calls: seq<Configuration>, level: Level, ctype: ConfigType, i: nat)
    requires i < |calls| && Reaches(calls[i], level, ctype)
    requires forall j :: i < j < |calls| ==> !Reaches(calls[j], level, ctype)
    ensures LastWrite(calls, level, ctype) == Some(calls[i].value)
    decreases |calls|
  {
    hide Reaches;
    if i < |calls| - 1 {
      LastWriteAt(calls[..|calls| - 1], level, ctype, i);
    }
  }

  lemma {:induction false} NeverWritten(calls: seq<Configuration>, level: Level, ctype: ConfigType)
    requires forall j :: 0 <= j < |calls| ==> !Reaches(calls[j], level, ctype)
    ensures LastWrite(calls, level, ctype) == None
    decreases |calls|
  {
    hide Reaches;
    if calls != [] {
      NeverWritten(calls[..|calls| - 1], level, ctype);
    }
  }

  lemma FormatWritten(level: Level)
    ensures var own := LastWrite(LEVEL_FORMATS, level, Format);
      if own.Some? then own.value == DefaultFormat(level) else DefaultFormat(level) == "%datetime %level [%logger] %msg"
  {
    hide LastWrite;
    match level
    case Debug => LastWriteAt(LEVEL_FORMATS, level, Format, 0);
    case Error => LastWriteAt(LEVEL_FORMATS, level, Format, 1);
    case Fatal => LastWriteAt(LEVEL_FORMATS, level, Format, 2);
    case Verbose => LastWriteAt(LEVEL_FORMATS, level, Format, 3);
    case Trace => LastWriteAt(LEVEL_FORMATS, level, Format, 4);
    case _ => NeverWritten(LEVEL_FORMATS, level, Format);
  }

  /** What a logger has by default: on, in the file and on the screen, three places, tracking, no limits, its format. */
  ghost predicate HasDefaults(view: TypedView, level: Level)
    reads view
  {
    && GetValue(view.enabled, level, false)
    && GetValue(view.toFile, level, false)
    && GetValue(view.toStandardOutput, level, false)
    && GetValue(view.precision, level, MakePrecision(0)) == Precision(3, 1000)
    && GetValue(view.performanceTracking, level, false)
    && GetValue(view.maxLogFileSize, level, 0) == 0
    && GetValue(view.logFlushThreshold, level, 0) == 0
    && GetValue(view.logFormat, level, LevelFormat(Unknown, "")) == LevelFormat(level, DefaultFormat(level))
  }

  lemma DefaultView(view: TypedView, level: Level)
    requires level in VALID_LEVELS + [Global] && Configured(view, [], level)
    ensures HasDefaults(view, level)
  {
    DefaultValues(level);
    assert Info in VALID_LEVELS + [Global];
    DefaultValues(Info);
    hide VALID_LEVELS, Says, MeansBool, MeansNumber, MeansPrecision, DefaultFormat, GetValue;
    FormatIs(level);
    TrueMeans();
    DigitMeans(0);
    DigitMeans(3);
    ThreePlaces(GetValue(view.precision, level, MakePrecision(0)));
  }

  lemma DefaultValues(level: Level)
    requires level in VALID_LEVELS + [Global]
    ensures Says([], level, Enabled) == "true" && Says([], level, ToFile) == "true"
    ensures Says([], level, ToStandardOutput) == "true" && Says([], level, PerformanceTracking) == "true"
    ensures Says([], level, SubsecondPrecision) == [DigitChar(3)]
    ensures Says([], level, MaxLogFileSize) == [DigitChar(0)] && Says([], level, LogFlushThreshold) == [DigitChar(0)]
  {
    hide VALID_LEVELS, Says;
    DefaultIs(level, 0);
    DefaultIs(level, 2);
    DefaultIs(level, 3);
    DefaultIs(level, 4);
    DefaultIs(level, 5);
    DefaultIs(level, 6);
    DefaultIs(level, 7);
  }

  lemma ThreePlaces(p: Precision)
    requires MeansPrecision([DigitChar(3)], p)
    ensures p == Precision(3, 1000)
  {
    DigitMeans(3);
    hide MeansNumber;
    assert Power(0) == 1 && Power(1) == 10 && Power(2) == 100 && Power(3) == 1000;
  }

  /** The defaults and nothing else. */
  method ConfigureDefaults() returns (view: TypedView)
    ensures fresh(view) && forall level :: level in VALID_LEVELS + [Global] ==> HasDefaults(view, level)
  {
    hide VALID_LEVELS, Configured, HasDefaults, ValidDoc, NoQuotes, PrintDoc, ParseText, Run, DefaultCalls;
    view := Configure("");
    forall level | level in VALID_LEVELS + [Global] ensures HasDefaults(view, level) {
      EmptyDoc();
      DefaultView(view, level);
    }
  }

  lemma EmptyDoc()
    ensures ValidDoc([]) && NoQuotes([]) && PrintDoc([]) == ""
  {
  }
}
