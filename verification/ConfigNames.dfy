/**
  The names of levels and configuration types in external/easylogging++/easylogging++.cc: LevelHelper and
  ConfigurationTypeHelper convert them to strings and back, whatever the case of their letters.
 */
module ConfigNames {
  import opened Levels
  import opened Strings
  import opened Configurations
  import opened ConfigParser

  /** ConfigurationTypeHelper::convertToString. */
  function TypeName(ctype: ConfigType): string {
    match ctype
    case Enabled => "ENABLED"
    case Filename => "FILENAME"
    case Format => "FORMAT"
    case ToFile => "TO_FILE"
    case ToStandardOutput => "TO_STANDARD_OUTPUT"
    case SubsecondPrecision => "SUBSECOND_PRECISION"
    case PerformanceTracking => "PERFORMANCE_TRACKING"
    case MaxLogFileSize => "MAX_LOG_FILE_SIZE"
    case LogFlushThreshold => "LOG_FLUSH_THRESHOLD"
    case UnknownType => "UNKNOWN"
  }

  /** The older name of the precision. */
  const MILLISECONDS := "MILLISECONDS_WIDTH"

  lemma UpperIs(s: string, t: string)
    requires |s| == |t| && forall i :: 0 <= i < |s| ==> ToUpper(s[i]) == t[i]
    ensures Upper(s) == t
  {
  }

  lemma UpperLevels()
    ensures Upper("global") == "GLOBAL" && Upper("debug") == "DEBUG" && Upper("info") == "INFO"
    ensures Upper("warning") == "WARNING" && Upper("error") == "ERROR" && Upper("fatal") == "FATAL"
    ensures Upper("verbose") == "VERBOSE" && Upper("trace") == "TRACE"
  {
    UpperIs("global", "GLOBAL");
    UpperIs("debug", "DEBUG");
    UpperIs("info", "INFO");
    UpperIs("warning", "WARNING");
    UpperIs("error", "ERROR");
    UpperIs("fatal", "FATAL");
    UpperIs("verbose", "VERBOSE");
    UpperIs("trace", "TRACE");
  }

  /** A text is the name of a level if and only if it is that name in any case. */
  lemma LevelNames(s: string, level: Level)
    requires level != Unknown
    ensures LevelFromName(s) == level <==> Upper(CStr(s)) == ToString(level)
  {
    UpperLevels();
    hide Upper, CStr;
    var u := Upper(CStr(s));
    assert u == ToString(level) ==> u[0] == ToString(level)[0];
  }

  lemma UpperShort()
    ensures Upper("enabled") == "ENABLED" && Upper("to_file") == "TO_FILE" && Upper("format") == "FORMAT"
    ensures Upper("filename") == "FILENAME"
  {
    hide Upper;
    UpperIs("enabled", "ENABLED");
    UpperIs("to_file", "TO_FILE");
    UpperIs("format", "FORMAT");
    UpperIs("filename", "FILENAME");
  }

  lemma UpperMiddle()
    ensures Upper("to_standard_output") == "TO_STANDARD_OUTPUT"
    ensures Upper("milliseconds_width") == "MILLISECONDS_WIDTH"
  {
    hide Upper;
    UpperIs("to_standard_output", "TO_STANDARD_OUTPUT");
    UpperIs("milliseconds_width", "MILLISECONDS_WIDTH");
  }

  lemma UpperPrecision()
    ensures Upper("subsecond_precision") == "SUBSECOND_PRECISION"
  {
    hide Upper;
    UpperIs("subsecond_precision", "SUBSECOND_PRECISION");
  }

  lemma UpperLong()
    ensures Upper("performance_tracking") == "PERFORMANCE_TRACKING"
    ensures Upper("max_log_file_size") == "MAX_LOG_FILE_SIZE"
    ensures Upper("log_flush_threshold") == "LOG_FLUSH_THRESHOLD"
  {
    hide Upper;
    UpperIs("performance_tracking", "PERFORMANCE_TRACKING");
    UpperIs("max_log_file_size", "MAX_LOG_FILE_SIZE");
    UpperIs("log_flush_threshold", "LOG_FLUSH_THRESHOLD");
  }

  /** So for the types, of which the precision has two names. */
  lemma TypeNames(s: string, ctype: ConfigType)
    requires ctype != UnknownType
    ensures TypeFromName(s) == ctype <==>
            Upper(CStr(s)) == TypeName(ctype) || (ctype == SubsecondPrecision && Upper(CStr(s)) == MILLISECONDS)
  {
    UpperShort();
    UpperMiddle();
    UpperPrecision();
    UpperLong();
    hide Upper, CStr;
    var u := Upper(CStr(s));
    assert u == TypeName(ctype) ==> |u| == |TypeName(ctype)| && u[0] == TypeName(ctype)[0];
    assert u == MILLISECONDS ==> |u| == 18 && u[0] == 'M';
  }
}
