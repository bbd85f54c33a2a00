/**
  Severity levels of Easylogging++ and their spellings (external/easylogging++/easylogging++.h and
  LevelHelper in external/easylogging++/easylogging++.cc), and the small types shared by the modules.
 */
module Levels {

  datatype Option<+T> = None | Some(value: T)

  datatype Level = Global | Trace | Debug | Fatal | Error | Warning | Verbose | Info | Unknown

  /** The levels that forEachLevel visits, in its order: the powers of two from Trace to Info. */
  const VALID_LEVELS: seq<Level> := [Trace, Debug, Fatal, Error, Warning, Verbose, Info]

  /** Every level but Unknown is among them, or is Global. */
  lemma AllLevels(level: Level)
    ensures level in VALID_LEVELS + [Global] <==> level != Unknown
  {
    var all := VALID_LEVELS + [Global];
    assert all[7] == Global && forall i :: 0 <= i < 7 ==> all[i] == VALID_LEVELS[i];
  }

  /** LevelHelper::convertToString. */
  function ToString(level: Level): (name: string)
    ensures |name| > 0
  {
    match level
    case Global => "GLOBAL"
    case Debug => "DEBUG"
    case Info => "INFO"
    case Warning => "WARNING"
    case Error => "ERROR"
    case Fatal => "FATAL"
    case Verbose => "VERBOSE"
    case Trace => "TRACE"
    case Unknown => "UNKNOWN"
  }

  /** The lower-case spellings accepted beside those of ToString. */
  function LowerName(level: Level): (name: string)
    ensures |name| == |ToString(level)|
  {
    match level
    case Global => "global"
    case Debug => "debug"
    case Info => "info"
    case Warning => "warning"
    case Error => "error"
    case Fatal => "fatal"
    case Verbose => "verbose"
    case Trace => "trace"
    case Unknown => "unknown"
  }

  predicate Named(s: string, level: Level) {
    ToString(level) <= s || LowerName(level) <= s
  }

  /** The first level, in the order of the list, with a name that s starts with. */
  function FirstNamed(s: string, levels: seq<Level>): (level: Level)
    requires Unknown !in levels
    ensures level != Unknown ==> level in levels && Named(s, level)
    ensures level == Unknown ==> forall l :: l in levels ==> !Named(s, l)
  {
    if levels == [] then Unknown
    else if Named(s, levels[0]) then levels[0]
    else FirstNamed(s, levels[1..])
  }

  /** LevelHelper::convertFromStringPrefix: the comparisons look at a prefix of s only. */
  function FromPrefix(s: string): Level {
    FirstNamed(s, [Global, Debug, Info, Warning, Error, Fatal, Verbose, Trace])
  }

  /** The level whose names start with c. */
  function LevelOfInitial(c: char): Level {
    match c
    case 'G' => Global case 'g' => Global
    case 'D' => Debug case 'd' => Debug
    case 'I' => Info case 'i' => Info
    case 'W' => Warning case 'w' => Warning
    case 'E' => Error case 'e' => Error
    case 'F' => Fatal case 'f' => Fatal
    case 'V' => Verbose case 'v' => Verbose
    case 'T' => Trace case 't' => Trace
    case _ => Unknown
  }

  lemma NamedByInitial(s: string, level: Level)
    requires level != Unknown && Named(s, level)
    ensures s != "" && LevelOfInitial(s[0]) == level
  {
    assert s[0] == ToString(level)[0] || s[0] == LowerName(level)[0];
  }

  /** Names of different levels start differently, so at most one level is named at the front of s. */
  lemma FromPrefixIs(s: string, level: Level)
    requires level != Unknown && Named(s, level)
    ensures FromPrefix(s) == level
  {
    NamedByInitial(s, level);
    assert level in [Global, Debug, Info, Warning, Error, Fatal, Verbose, Trace];
    NamedByInitial(s, FromPrefix(s));
  }

  /** The static function priority: the order of severity, 0 the most severe. */
  function Priority(level: Level): nat {
    match level
    case Fatal => 0
    case Error => 1
    case Warning => 2
    case Info => 3
    case Debug => 4
    case Verbose => 5
    case Trace => 6
    case _ => 7
  }

  /** The levels in the order of severity, the gravest first. */
  const SEVERITY: seq<Level> := [Fatal, Error, Warning, Info, Debug, Verbose, Trace]

  /** A limit lets a level pass that stands at or before it in the order; a limit outside the order lets all. */
  ghost predicate Permits(limit: Level, level: Level) {
    limit !in SEVERITY || exists i, j :: 0 <= i <= j < |SEVERITY| && SEVERITY[i] == level && SEVERITY[j] == limit
  }

  lemma PlaceOf(i: nat)
    requires i < |SEVERITY|
    ensures Priority(SEVERITY[i]) == i
  {
  }

  lemma SeverityPlace(level: Level)
    ensures level in SEVERITY <==> level != Global && level != Unknown
    ensures level in SEVERITY ==> Priority(level) < |SEVERITY| && SEVERITY[Priority(level)] == level
    ensures level !in SEVERITY ==> Priority(level) == |SEVERITY|
  {
  }

  /** The numbers keep the order. */
  lemma PriorityPermits(limit: Level, level: Level)
    ensures Priority(level) <= Priority(limit) <==> Permits(limit, level)
  {
    SeverityPlace(limit);
    SeverityPlace(level);
    hide SEVERITY, Priority;
    if limit in SEVERITY && Permits(limit, level) {
      var i, j :| 0 <= i <= j < |SEVERITY| && SEVERITY[i] == level && SEVERITY[j] == limit;
      PlaceOf(i);
      PlaceOf(j);
    }
  }

  /** Permission goes along the order. */
  lemma PermitsGraver(limit: Level, level: Level, graver: Level)
    requires Permits(limit, level) && Permits(level, graver)
    ensures Permits(limit, graver)
  {
    hide Permits, Priority;
    PriorityPermits(limit, level);
    PriorityPermits(level, graver);
    PriorityPermits(limit, graver);
  }
}
