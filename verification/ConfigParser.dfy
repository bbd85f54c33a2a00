/**
  The text format of configurations: Configurations::Parser of external/easylogging++/easylogging++.cc, which
  reads level headers, comments and `KEY = "value"` lines and calls set on a registry.
 */
module ConfigParser {
  import opened Sequences
  import opened Arithmetic
  import opened Levels
  import opened Strings
  import opened Configurations

  // -------------------------------------------------------------------- names

  function ToUpper(c: char): char {
    if 'a' <= c <= 'z' then c - 'a' + 'A' else c
  }

  /** Str::toUpper. */
  function Upper(s: string): (r: string)
    ensures |r| == |s| && forall i :: 0 <= i < |s| ==> r[i] == ToUpper(s[i])
  {
    seq(|s|, i requires 0 <= i < |s| => ToUpper(s[i]))
  }

  /** Str::cStringCaseEq with a name of a table. */
  predicate SameName(s: string, name: string) {
    Upper(CStr(s)) == Upper(name)
  }

  /** LevelHelper::convertFromString. */
  function LevelFromName(s: string): Level {
    if SameName(s, "global") then Global
    else if SameName(s, "debug") then Debug
    else if SameName(s, "info") then Info
    else if SameName(s, "warning") then Warning
    else if SameName(s, "error") then Error
    else if SameName(s, "fatal") then Fatal
    else if SameName(s, "verbose") then Verbose
    else if SameName(s, "trace") then Trace
    else Unknown
  }

  /** ConfigurationTypeHelper::convertFromString. */
  function TypeFromName(s: string): ConfigType {
    if SameName(s, "enabled") then Enabled
    else if SameName(s, "to_file") then ToFile
    else if SameName(s, "to_standard_output") then ToStandardOutput
    else if SameName(s, "format") then Format
    else if SameName(s, "filename") then Filename
    else if SameName(s, "subsecond_precision") then SubsecondPrecision
    else if SameName(s, "milliseconds_width") then SubsecondPrecision
    else if SameName(s, "performance_tracking") then PerformanceTracking
    else if SameName(s, "max_log_file_size") then MaxLogFileSize
    else if SameName(s, "log_flush_threshold") then LogFlushThreshold
    else UnknownType
  }

  // -------------------------------------------------------------------- one line

  const QUOTE := "\""
  const COMMENT := "##"

  /** From a quote on, the first one not behind a backslash; the search skips one character behind each escaped one. */
  function Unescaped(line: string, q: Option<nat>): (r: Option<nat>)
    requires q.Some? ==> 0 < q.value < |line|
    ensures r.Some? ==> 0 < r.value < |line|
    decreases if q.Some? then |line| - q.value else 0
  {
    if q.Some? && line[q.value - 1] == '\\' then Unescaped(line, FindQuote(line, q.value + 2)) else q
  }

  function FindQuote(line: string, from: nat): (r: Option<nat>)
    ensures r.Some? ==> from <= r.value < |line|
  {
    Find(line, QUOTE, from)
  }

  /** The quote that closes the first quoted part. */
  function ClosingQuote(line: string): Option<nat> {
    var start := FindQuote(line, 0);
    if start.Some? then Unescaped(line, FindQuote(line, start.value + 1)) else None
  }

  /** Parser::ignoreComments; the end of an unclosed quote is npos, from which a search starts over at 0. */
  function IgnoreComments(line: string): string {
    var end := ClosingQuote(line);
    var found := Find(line, COMMENT, 0);
    if found.None? then line
    else if end.Some? && found.value < end.value then
      var behind := Find(line, COMMENT, end.value + 1);
      if behind.None? then line else line[..behind.value]
    else line[..found.value]
  }

  predicate IsLetter(c: char) {
    'A' <= c <= 'Z' || 'a' <= c <= 'z'
  }

  /** Parser::isConfig. */
  predicate IsConfig(line: string) {
    line != "" && IsLetter(line[0]) && Find(line, "=", 0).Some?
  }

  /** The loop of parseLine that erases the backslash of each escaped quote. */
  function EraseEscapes(value: string, q: Option<nat>): (r: (string, Option<nat>))
    requires q.Some? ==> 0 < q.value < |value|
    ensures |r.0| <= |value| && (r.1.Some? ==> 0 < r.1.value < |r.0|)
    decreases if q.Some? then |value| - q.value else 0
  {
    if q.Some? && value[q.value - 1] == '\\' then
      var erased := value[..q.value - 1] + value[q.value..];
      EraseEscapes(erased, FindQuote(erased, q.value + 2))
    else (value, q)
  }

  /** The value of a setting, given the text behind its `=`. */
  function ValueOf(text: string): string {
    var v := Trim(text);
    var start := FindQuote(v, 0);
    if start.None? then v
    else
      var (w, end) := EraseEscapes(v, FindQuote(v, start.value + 1));
      if end.Some? && start.value != end.value && start.value + 1 != end.value && start.value < |w| then
        // substr(quotesStart + 1, quotesEnd - 1): the second argument is a length
        w[start.value + 1..Min(|w|, start.value + end.value)]
      else w
  }

  /** What parseLine does: its result, the level in force afterwards, and its call of set. */
  datatype Effect = Effect(ok: bool, level: Level, call: Option<Configuration>)

  function ParseLine(text: string, level: Level): Effect {
    var raw := Trim(text);
    if COMMENT <= raw then Effect(true, level, None)
    else
      var line := Trim(IgnoreComments(raw));
      if line == "" then Effect(true, level, None)
      else if "*" <= line then
        if |line| <= 2 then Effect(true, level, None)
        else Effect(true, LevelFromName(Trim(Upper(line[1..|line| - 1]))), None)
      else
        var (ctype, value) := if IsConfig(line) then
          var eq := Find(line, "=", 0).value;
          (TypeFromName(Trim(Upper(line[..eq]))), ValueOf(line[eq + 1..]))
        else (UnknownType, "");
        if level == Unknown || ctype == UnknownType then Effect(false, level, None)
        else Effect(true, level, Some(Configuration(level, ctype, value)))
  }

  // -------------------------------------------------------------------- documents

  /** A line of a document; indent, pads and tail are white space, and a comment is the text behind `##`. */
  datatype DocLine =
    | Blank(space: string)
    | Remark(indent: string, text: string)
    | Header(indent: string, pad1: string, name: string, pad2: string, tail: string, comment: Option<string>)
    | Setting(indent: string, key: string, pad1: string, pad2: string, value: string, tail: string,
              comment: Option<string>)
    | Bare(indent: string, key: string, pad1: string, pad2: string, value: string, tail: string,
           comment: Option<string>)

  function Ending(tail: string, comment: Option<string>): string {
    tail + if comment.Some? then COMMENT + comment.value else ""
  }

  function HeadText(pad1: string, name: string, pad2: string): string {
    "*" + (pad1 + name + pad2) + ":"
  }

  function Body(key: string, pad1: string, pad2: string, value: string): string {
    Front(key, pad1, pad2) + Quoted(value)
  }

  function Front(key: string, pad1: string, pad2: string): string {
    (key + pad1) + "=" + pad2
  }

  function Quoted(value: string): string {
    QUOTE + value + QUOTE
  }

  /** The text of a line. */
  function Print(l: DocLine): string {
    match l
    case Blank(space) => space
    case Remark(indent, text) => indent + (COMMENT + text)
    case Header(indent, pad1, name, pad2, tail, comment) => indent + HeadText(pad1, name, pad2) + Ending(tail, comment)
    case Setting(indent, key, pad1, pad2, value, tail, comment) =>
      indent + Body(key, pad1, pad2, value) + Ending(tail, comment)
    case Bare(indent, key, pad1, pad2, value, tail, comment) =>
      indent + (Front(key, pad1, pad2) + value) + Ending(tail, comment)
  }

  /** A name is made of letters and underscores and starts with a letter. */
  predicate IsWord(s: string) {
    s != "" && IsLetter(s[0]) && forall i :: 0 <= i < |s| ==> IsLetter(s[i]) || s[i] == '_'
  }

  /** A value stands between its quotes: not empty, without a quote, and not ending in a backslash. */
  predicate IsValue(s: string) {
    s != "" && '"' !in s && s[|s| - 1] != '\\'
  }

  /** No comment begins in a text, also not with a `#` behind it. */
  predicate NoMark(s: string) {
    forall i :: 0 <= i < |s| && s[i] == '#' ==> i + 1 < |s| && s[i + 1] != '#'
  }

  /** A value without quotes: not empty, no white space around it, and no comment in it. */
  predicate IsBare(s: string) {
    s != "" && Trimmed(s) && '"' !in s && NoMark(s)
  }

  /** What a document may contain. */
  predicate Valid(l: DocLine) {
    match l
    case Blank(space) => AllSpace(space)
    case Remark(indent, text) => AllSpace(indent)
    case Header(indent, pad1, name, pad2, tail, comment) =>
      && AllSpace(indent) && AllSpace(pad1) && AllSpace(pad2) && AllSpace(tail)
      && IsWord(name) && LevelFromName(name) != Unknown
    case Setting(indent, key, pad1, pad2, value, tail, comment) =>
      && AllSpace(indent) && AllSpace(pad1) && AllSpace(pad2) && AllSpace(tail)
      && IsWord(key) && TypeFromName(key) != UnknownType && IsValue(value)
    case Bare(indent, key, pad1, pad2, value, tail, comment) =>
      && AllSpace(indent) && AllSpace(pad1) && AllSpace(pad2) && AllSpace(tail)
      && IsWord(key) && TypeFromName(key) != UnknownType && IsBare(value)
  }

  /** What a line of a document means, given the level in force. */
  function Meaning(l: DocLine, level: Level): Effect {
    match l
    case Header(_, _, name, _, _, _) => Effect(true, LevelFromName(name), None)
    case Setting(_, key, _, _, value, _, _) =>
      if level == Unknown then Effect(false, level, None)
      else Effect(true, level, Some(Configuration(level, TypeFromName(key), value)))
    case Bare(_, key, _, _, value, _, _) =>
      if level == Unknown then Effect(false, level, None)
      else Effect(true, level, Some(Configuration(level, TypeFromName(key), value)))
    case _ => Effect(true, level, None)
  }

  /** A line without quotes of its own has a quoted part in its comment; the parser takes that for text of the line. */
  predicate Quotes(l: DocLine) {
    (l.Header? || l.Bare?) && l.comment.Some? && ClosingQuote(l.comment.value).Some?
  }

  /** What is kept of such a comment: all of it, or up to the next `##` behind its quoted part. */
  function Kept(comment: string): string {
    var close := ClosingQuote(comment);
    if close.None? then ""
    else
      var next := Find(comment, COMMENT, close.value + 1);
      TrimRight(if next.None? then comment else comment[..next.value])
  }

  /**
    What the parser makes of a line: its meaning, except that a header with such a comment is taken for an unknown
    level, and a setting takes its value from its own and the comment together.
   */
  function Taken(l: DocLine, level: Level): Effect {
    if !Quotes(l) then Meaning(l, level)
    else if l.Header? then Effect(true, Unknown, None)
    else if level == Unknown then Effect(false, level, None)
    else Effect(true, level, Some(Configuration(level, TypeFromName(l.key), Mixed(l))))
  }

  function Mixed(l: DocLine): string
    requires l.Bare? && l.comment.Some?
  {
    ValueOf(l.pad2 + (l.value + l.tail + COMMENT + Kept(TrimRight(l.comment.value))))
  }

  // -------------------------------------------------------------------- trimming and searching

  lemma {:induction false} TrimRightConcat(s: string, rest: string)
    requires s != "" && !IsSpace(s[|s| - 1])
    ensures TrimRight(s + rest) == s + TrimRight(rest)
    decreases |rest|
  {
    if rest == "" {
      assert s + rest == s;
    } else {
      var f := s + rest;
      assert f[|f| - 1] == rest[|rest| - 1];
      if IsSpace(rest[|rest| - 1]) {
        assert f[..|f| - 1] == s + rest[..|rest| - 1];
        TrimRightConcat(s, rest[..|rest| - 1]);
      }
    }
  }

  /** Trimming a line whose body begins and ends with a visible character. */
  lemma TrimBody(indent: string, s: string, rest: string)
    requires AllSpace(indent) && s != "" && Trimmed(s)
    ensures Trim(indent + s + rest) == s + TrimRight(rest)
  {
    hide TrimLeft, TrimRight;
    hide IsSpace;
    assert (indent + s)[|indent + s| - 1] == s[|s| - 1];
    TrimRightConcat(indent + s, rest);
    var t := s + TrimRight(rest);
    assert t[0] == s[0];
    assert indent + s + TrimRight(rest) == indent + t;
    TrimLeftPadded(indent, t);
    TrimLeftVisible(t);
  }

  lemma TrimLeftVisible(s: string)
    requires s != "" && !IsSpace(s[0])
    ensures TrimLeft(s) == s
  {
  }

  lemma {:induction false} TrimRightSpace(s: string)
    requires AllSpace(s)
    ensures TrimRight(s) == ""
  {
    if s != "" { TrimRightSpace(s[..|s| - 1]); }
  }

  /** The end of a line after trimming: nothing, or the tail and a comment. */
  lemma TrimEnding(tail: string, comment: Option<string>)
    requires AllSpace(tail)
    ensures TrimRight(Ending(tail, comment))
            == if comment.None? then "" else tail + COMMENT + TrimRight(comment.value)
  {
    if comment.None? {
      assert Ending(tail, comment) == tail;
      TrimRightSpace(tail);
    } else {
      assert Ending(tail, comment) == (tail + COMMENT) + comment.value;
      TrimRightConcat(tail + COMMENT, comment.value);
    }
  }

  lemma OccursStart(s: string, t: string, q: int)
    requires t != ""
    ensures OccursAt(s, t, q) ==> s[q] == t[0]
  {
    if OccursAt(s, t, q) { assert s[q] == s[q..q + |t|][0]; }
  }

  /** A search ends at p when nothing in front of p starts like the text sought. */
  lemma FindIs(s: string, t: string, from: nat, p: nat)
    requires from <= p && t != "" && OccursAt(s, t, p) && forall q :: from <= q < p ==> s[q] != t[0]
    ensures Find(s, t, from) == Some(p)
  {
    forall q | from <= q < p ensures !OccursAt(s, t, q) {
      OccursStart(s, t, q);
    }
  }

  lemma FindNot(s: string, t: string, from: nat)
    requires t != "" && forall q :: from <= q < |s| ==> s[q] != t[0]
    ensures Find(s, t, from) == None
  {
    forall q | from <= q ensures !OccursAt(s, t, q) {
      OccursStart(s, t, q);
    }
  }

  lemma SpaceIsNot(s: string)
    requires AllSpace(s)
    ensures '#' !in s && '"' !in s && '=' !in s
  {
  }

  lemma WordIsNot(s: string)
    requires IsWord(s)
    ensures '#' !in s && '"' !in s && '=' !in s && '\0' !in s && Trimmed(s)
  {
  }

  // -------------------------------------------------------------------- names again

  lemma {:induction false} CStrIsWhole(s: string)
    requires '\0' !in s
    ensures CStr(s) == s
  {
    if s != "" {
      assert s[0] in s;
      CStrIsWhole(s[1..]);
    }
  }

  lemma UpperTwice(s: string)
    ensures Upper(Upper(s)) == Upper(s)
  {
  }

  /** Converting to upper case first does not change which name a word is. */
  lemma UpperSameName(s: string, name: string)
    requires '\0' !in s
    ensures SameName(Upper(s), name) <==> SameName(s, name)
  {
    CStrIsWhole(s);
    assert '\0' !in Upper(s);
    CStrIsWhole(Upper(s));
    UpperTwice(s);
  }

  lemma UpperName(s: string)
    requires '\0' !in s
    ensures LevelFromName(Upper(s)) == LevelFromName(s) && TypeFromName(Upper(s)) == TypeFromName(s)
  {
    hide SameName;
    forall name: string ensures SameName(Upper(s), name) <==> SameName(s, name) {
      UpperSameName(s, name);
    }
  }

  /** The name in a padded text, after Upper and Trim. */
  lemma TrimUpper(left: string, word: string, right: string)
    requires AllSpace(left) && AllSpace(right) && IsWord(word)
    ensures Trim(Upper(left + word + right)) == Upper(word)
  {
    assert Upper(left + word + right) == Upper(left) + Upper(word) + Upper(right);
    assert AllSpace(Upper(left)) && AllSpace(Upper(right));
    WordIsNot(word);
    assert Trimmed(Upper(word));
    TrimPadded(Upper(left), Upper(word), Upper(right));
  }

  // -------------------------------------------------------------------- a setting

  lemma OpenQuote(front: string, value: string, more: string)
    requires '"' !in front
    ensures FindQuote(front + Quoted(value) + more, 0) == Some(|front|)
  {
    var line := front + Quoted(value) + more;
    assert line[|front|..|front| + 1] == QUOTE;
    assert forall q :: 0 <= q < |front| ==> line[q] == front[q] && front[q] in front;
    FindIs(line, QUOTE, 0, |front|);
  }

  lemma CloseQuote(front: string, value: string, more: string)
    requires IsValue(value)
    ensures var line, close := front + Quoted(value) + more, |front| + 1 + |value|;
            FindQuote(line, |front| + 1) == Some(close) && line[close] == '"' && line[close - 1] != '\\'
  {
    var line := front + Quoted(value) + more;
    var close := |front| + 1 + |value|;
    assert line[close..close + 1] == QUOTE;
    assert forall q :: |front| < q < close ==> line[q] == value[q - |front| - 1] && line[q] in value;
    FindIs(line, QUOTE, |front| + 1, close);
    assert line[close - 1] == value[|value| - 1];
  }

  lemma QuotedClosing(front: string, value: string, more: string)
    requires '"' !in front && IsValue(value)
    ensures ClosingQuote(front + Quoted(value) + more) == Some(|front| + 1 + |value|)
  {
    hide FindQuote, Quoted;
    OpenQuote(front, value, more);
    CloseQuote(front, value, more);
  }

  /** No comment starts at the closing quote itself: it starts in front of it, or behind. */
  lemma CommentBefore(line: string, close: nat)
    requires close < |line| && line[close] == '"' && ClosingQuote(line) == Some(close)
    ensures IgnoreComments(line)
            == var behind := Find(line, COMMENT, close + 1); if behind.None? then line else line[..behind.value]
  {
    hide ClosingQuote;
    var found, behind := Find(line, COMMENT, 0), Find(line, COMMENT, close + 1);
    OccursStart(line, COMMENT, close);
    if found.Some? && found.value >= close {
      assert found.value != close;
      assert behind.Some? && behind.value == found.value;
    }
    if found.None? { assert behind.None?; }
  }

  lemma FindBehind(b: string, tail: string, text: string)
    requires AllSpace(tail)
    ensures Find(b + tail + COMMENT + text, COMMENT, |b|) == Some(|b| + |tail|)
  {
    var line := b + tail + COMMENT + text;
    var p := |b| + |tail|;
    SpaceIsNot(tail);
    assert line[p..p + 2] == COMMENT;
    assert forall q :: |b| <= q < p ==> line[q] == tail[q - |b|] && line[q] in tail;
    FindIs(line, COMMENT, |b|, p);
  }

  lemma QuotedAlone(b: string)
    requires b != "" && b[|b| - 1] == '"' && ClosingQuote(b) == Some(|b| - 1)
    ensures IgnoreComments(b) == b
  {
    hide ClosingQuote, IgnoreComments;
    CommentBefore(b, |b| - 1);
    FindNot(b, COMMENT, |b|);
  }

  lemma QuotedThenComment(b: string, tail: string, text: string)
    requires b != "" && b[|b| - 1] == '"' && AllSpace(tail)
    requires ClosingQuote(b + tail + COMMENT + text) == Some(|b| - 1)
    ensures IgnoreComments(b + tail + COMMENT + text) == b + tail
  {
    hide ClosingQuote, IgnoreComments, IsSpace;
    var line := b + tail + COMMENT + text;
    assert line[|b| - 1] == '"';
    CommentBefore(line, |b| - 1);
    FindBehind(b, tail, text);
    assert line[..|b| + |tail|] == b + tail;
  }

  lemma QuotedEnds(front: string, value: string)
    ensures var b := front + Quoted(value); |b| - 1 == |front| + 1 + |value| && b[|b| - 1] == '"'
  {
  }

  /** A trailing comment goes; a `##` inside the quotes stays. */
  lemma QuotedComment(front: string, value: string, tail: string, comment: Option<string>)
    requires '"' !in front && IsValue(value) && AllSpace(tail)
    ensures var b := front + Quoted(value);
            IgnoreComments(b + if comment.None? then "" else tail + COMMENT + comment.value)
            == b + if comment.None? then "" else tail
  {
    hide ClosingQuote, IgnoreComments, IsSpace, Quoted, IsValue;
    var b := front + Quoted(value);
    QuotedEnds(front, value);
    if comment.None? {
      QuotedClosing(front, value, "");
      assert b + "" == b;
      QuotedAlone(b);
    } else {
      QuotedClosing(front, value, tail + COMMENT + comment.value);
      assert b + (tail + COMMENT + comment.value) == b + tail + COMMENT + comment.value;
      QuotedThenComment(b, tail, comment.value);
    }
  }

  lemma ValueBetween(text: string, v: string)
    requires Trim(text) == v && |v| > 2 && v[|v| - 2] != '\\'
    requires FindQuote(v, 0) == Some(0) && FindQuote(v, 1) == Some(|v| - 1)
    ensures ValueOf(text) == v[1..|v| - 1]
  {
    hide Trim, FindQuote;
  }

  lemma QuotesOf(value: string)
    requires IsValue(value)
    ensures var v := Quoted(value);
            && Trimmed(v) && |v| == |value| + 2 && v[|v| - 2] != '\\' && v[1..|v| - 1] == value
            && FindQuote(v, 0) == Some(0) && FindQuote(v, 1) == Some(|v| - 1)
  {
    hide FindQuote;
    var v := Quoted(value);
    assert v[0] == '"' && v[|v| - 1] == '"' && v[1..|v| - 1] == value;
    assert forall p :: 1 <= p < |v| - 1 ==> v[p] == value[p - 1] && v[p] in value;
    FindQuoteIs(v, 0, Some(0));
    FindQuoteIs(v, 1, Some(|v| - 1));
  }

  lemma ValueOfQuoted(pad: string, value: string)
    requires AllSpace(pad) && IsValue(value)
    ensures ValueOf(pad + Quoted(value)) == value
  {
    hide Trim, FindQuote, Quoted, ValueOf, IsSpace;
    var v := Quoted(value);
    QuotesOf(value);
    TrimPadded(pad, v, "");
    assert pad + v == pad + v + "";
    ValueBetween(pad + v, v);
  }

  lemma FrontShape(key: string, pad1: string, pad2: string, value: string)
    requires IsWord(key) && AllSpace(pad1) && AllSpace(pad2) && IsValue(value)
    ensures '"' !in Front(key, pad1, pad2)
    ensures var b := Body(key, pad1, pad2, value); b != "" && Trimmed(b) && b[0] == key[0]
  {
    WordIsNot(key);
    SpaceIsNot(pad1);
    SpaceIsNot(pad2);
    var b := Body(key, pad1, pad2, value);
    assert b[0] == key[0] && b[|b| - 1] == '"';
  }

  lemma BodyIs(key: string, pad1: string, pad2: string, value: string)
    ensures Body(key, pad1, pad2, value) == Front(key, pad1, pad2) + Quoted(value)
  {
    hide Front, Quoted;
  }

  /** What is left of a setting after both trims and the removal of its comment. */
  lemma SettingLine(l: DocLine)
    requires l.Setting? && Valid(l)
    ensures var b, raw := Body(l.key, l.pad1, l.pad2, l.value), Trim(Print(l));
            b != "" && b[0] == l.key[0] && raw != "" && raw[0] == l.key[0] && Trim(IgnoreComments(raw)) == b
  {
    hide Trim, IgnoreComments, TypeFromName, TrimRight, IsSpace, IsValue, IsWord, Body, Quoted, Front, Ending;
    var b := Body(l.key, l.pad1, l.pad2, l.value);
    var trimmed := if l.comment.None? then None else Some(TrimRight(l.comment.value));
    FrontShape(l.key, l.pad1, l.pad2, l.value);
    BodyIs(l.key, l.pad1, l.pad2, l.value);
    TrimBody(l.indent, b, Ending(l.tail, l.comment));
    TrimEnding(l.tail, l.comment);
    QuotedComment(Front(l.key, l.pad1, l.pad2), l.value, l.tail, trimmed);
    var rest := if l.comment.None? then "" else l.tail;
    assert Trim(b + rest) == b by {
      assert "" + b + rest == b + rest;
      TrimPadded("", b, rest);
    }
  }

  lemma SettingEffect(l: DocLine, level: Level)
    requires l.Setting? && Valid(l)
    ensures ParseLine(Print(l), level) == Meaning(l, level)
  {
    hide Trim, IgnoreComments, TypeFromName, ValueOf, Body, Print, IsConfig;
    SettingLine(l);
    WordIsNot(l.key);
    SettingParts(l);
  }

  /** Key and value of the body. */
  lemma SettingParts(l: DocLine)
    requires l.Setting? && Valid(l)
    ensures var b := Body(l.key, l.pad1, l.pad2, l.value);
            var eq := Find(b, "=", 0);
            && IsConfig(b) && eq.Some?
            && TypeFromName(Trim(Upper(b[..eq.value]))) == TypeFromName(l.key)
            && ValueOf(b[eq.value + 1..]) == l.value
  {
    hide TypeFromName, ValueOf, Trim, IsSpace, Quoted, Upper;
    var b, word, rest := Body(l.key, l.pad1, l.pad2, l.value), l.key + l.pad1, l.pad2 + Quoted(l.value);
    assert b == word + "=" + rest;
    WordIsNot(l.key);
    SpaceIsNot(l.pad1);
    SplitAtEquals(word, rest);
    assert b[0] == l.key[0];
    assert word == "" + l.key + l.pad1;
    TrimUpper("", l.key, l.pad1);
    UpperName(l.key);
    ValueOfQuoted(l.pad2, l.value);
  }

  lemma SplitAtEquals(word: string, rest: string)
    requires '=' !in word
    ensures var b := word + "=" + rest;
            Find(b, "=", 0) == Some(|word|) && b[..|word|] == word && b[|word| + 1..] == rest
  {
    var b := word + "=" + rest;
    assert b[|word|..|word| + 1] == "=";
    assert forall q :: 0 <= q < |word| ==> b[q] == word[q] && b[q] in word;
    FindIs(b, "=", 0, |word|);
  }

  // -------------------------------------------------------------------- headers, remarks and blank lines

  function Shift(q: Option<nat>, k: nat): Option<nat> {
    if q.Some? then Some(q.value + k) else None
  }

  lemma QuoteAt(s: string, p: int)
    ensures OccursAt(s, QUOTE, p) <==> 0 <= p < |s| && s[p] == '"'
  {
    if 0 <= p < |s| { assert s[p..p + 1] == [s[p]]; }
  }

  lemma FindQuoteIs(s: string, from: nat, q: Option<nat>)
    requires q.Some? ==> from <= q.value < |s| && s[q.value] == '"' && forall p :: from <= p < q.value ==> s[p] != '"'
    requires q.None? ==> forall p :: from <= p < |s| ==> s[p] != '"'
    ensures FindQuote(s, from) == q
  {
    var r := Find(s, QUOTE, from);
    if q.Some? {
      QuoteAt(s, q.value);
    }
    if r.Some? {
      QuoteAt(s, r.value);
    }
  }

  lemma FoundQuote(s: string, from: nat)
    ensures var q := FindQuote(s, from);
      && (q.Some? ==> s[q.value] == '"' && forall p :: from <= p < q.value ==> s[p] != '"')
      && (q.None? ==> forall p :: from <= p < |s| ==> s[p] != '"')
  {
    var q := FindQuote(s, from);
    forall p | from <= p < |s| ensures OccursAt(s, QUOTE, p) <==> s[p] == '"' { QuoteAt(s, p); }
  }

  /** Text without quotes around another does not change which quotes are found in it. */
  lemma FindQuoteWithin(front: string, text: string, back: string, from: nat)
    requires '"' !in front && '"' !in back
    ensures FindQuote(front + text + back, from + |front|) == Shift(FindQuote(text, from), |front|)
  {
    hide FindQuote;
    var all, q := front + text + back, FindQuote(text, from);
    FoundQuote(text, from);
    assert forall p :: 0 <= p < |text| ==> all[p + |front|] == text[p];
    assert forall p :: |front| + |text| <= p < |all| ==> all[p] == back[p - |front| - |text|] && all[p] in back;
    forall p | from + |front| <= p < (if q.Some? then q.value + |front| else |all|) ensures all[p] != '"' {
      if p < |front| + |text| { assert all[p] == text[p - |front|]; }
    }
    FindQuoteIs(all, from + |front|, Shift(q, |front|));
  }

  lemma FindQuoteBehind(front: string, rest: string)
    requires '"' !in front
    ensures FindQuote(front + rest, 0) == FindQuote(front + rest, |front|)
  {
    hide FindQuote;
    var all := front + rest;
    FoundQuote(all, |front|);
    assert forall p :: 0 <= p < |front| ==> all[p] == front[p] && all[p] in front;
    FindQuoteIs(all, 0, FindQuote(all, |front|));
  }

  lemma {:induction false} UnescapedWithin(front: string, text: string, back: string, q: Option<nat>)
    requires '"' !in front && '"' !in back && (q.Some? ==> 0 < q.value < |text|)
    ensures Unescaped(front + text + back, Shift(q, |front|)) == Shift(Unescaped(text, q), |front|)
    decreases if q.Some? then |text| - q.value else 0
  {
    hide FindQuote;
    var all := front + text + back;
    if q.Some? {
      assert all[q.value + |front| - 1] == text[q.value - 1];
      if text[q.value - 1] == '\\' {
        FindQuoteWithin(front, text, back, q.value + 2);
        UnescapedWithin(front, text, back, FindQuote(text, q.value + 2));
      }
    }
  }

  lemma ClosingQuoteWithin(front: string, text: string, back: string)
    requires '"' !in front && '"' !in back
    ensures ClosingQuote(front + text + back) == Shift(ClosingQuote(text), |front|)
  {
    hide FindQuote, Unescaped;
    var all := front + text + back;
    assert all == front + (text + back);
    FindQuoteBehind(front, text + back);
    FindQuoteWithin(front, text, back, 0);
    var start := FindQuote(text, 0);
    if start.Some? {
      FindQuoteWithin(front, text, back, start.value + 1);
      UnescapedWithin(front, text, back, FindQuote(text, start.value + 1));
    }
  }

  lemma {:induction false} TrimRightSplits(s: string)
    ensures TrimRight(s) <= s && AllSpace(s[|TrimRight(s)|..])
  {
    if s != "" && IsSpace(s[|s| - 1]) {
      TrimRightSplits(s[..|s| - 1]);
    }
  }

  /** Trimming a comment leaves its quotes where they are. */
  lemma ClosingQuoteTrimmed(s: string)
    ensures ClosingQuote(TrimRight(s)) == ClosingQuote(s)
  {
    hide ClosingQuote, TrimRight;
    TrimRightSplits(s);
    var t, space := TrimRight(s), s[|TrimRight(s)|..];
    SpaceIsNot(space);
    assert "" + t + space == s;
    ClosingQuoteWithin("", t, space);
  }

  /** A line whose quotes, if any, stand in its comment: the comment goes, unless it has a quoted part. */
  lemma CutComment(head: string, tail: string, comment: Option<string>)
    requires AllSpace(tail) && '"' !in head && NoMark(head)
    ensures var line := head + if comment.None? then "" else tail + COMMENT + comment.value;
      if comment.None? then IgnoreComments(line) == head
      else if ClosingQuote(comment.value).None? then IgnoreComments(line) == head + tail
      else
        && head + tail + COMMENT <= IgnoreComments(line) && |IgnoreComments(line)| > |head + tail + COMMENT|
        && TrimRight(IgnoreComments(line)[|head + tail + COMMENT|..]) == Kept(comment.value)
  {
    hide IsSpace, ClosingQuote, IgnoreComments;
    SpaceIsNot(tail);
    if comment.None? {
      assert head + "" == head;
      NoComment(head);
    } else {
      var h, text := head + tail, comment.value;
      var line := h + COMMENT + text;
      assert head + (tail + COMMENT + text) == line;
      assert line == (h + COMMENT) + text + "";
      ClosingQuoteWithin(h + COMMENT, text, "");
      FindComment(h, text);
      assert line[..|h|] == h && h + COMMENT <= line;
      CutAtComment(line, |h|);
      if ClosingQuote(text).Some? {
        hide KeptText, Kept;
        KeptIs(h + COMMENT, text);
        KeptIsTrimmed(text);
        assert (h + COMMENT + KeptText(text))[|h + COMMENT|..] == KeptText(text);
      }
    }
  }

  /** How far a comment with a quoted part is kept. */
  function KeptText(text: string): string
    requires ClosingQuote(text).Some?
  {
    var next := Find(text, COMMENT, ClosingQuote(text).value + 1);
    if next.None? then text else text[..next.value]
  }

  lemma KeptIsTrimmed(text: string)
    requires ClosingQuote(text).Some?
    ensures TrimRight(KeptText(text)) == Kept(text)
  {
    hide ClosingQuote, TrimRight, Find;
  }

  /** The comment is kept as far as the search behind its quoted part goes. */
  lemma KeptIs(front: string, text: string)
    requires ClosingQuote(text).Some?
    requires ClosingQuote(front + text) == Some(ClosingQuote(text).value + |front|)
    requires Find(front + text, COMMENT, 0).Some? && Find(front + text, COMMENT, 0).value < |front|
    ensures IgnoreComments(front + text) == front + KeptText(text)
  {
    hide ClosingQuote, IgnoreComments, OccursAt, Find;
    var from := ClosingQuote(text).value + 1;
    CutBehind(front + text);
    FindShifted(front, text, COMMENT, from);
    TakeBehind(front, text, Find(text, COMMENT, from));
  }

  lemma TakeBehind(front: string, text: string, next: Option<nat>)
    requires next.Some? ==> next.value <= |text|
    ensures next.Some? ==> (front + text)[..next.value + |front|] == front + text[..next.value]
  {
  }

  /** A comment that begins in front of the closing quote is none. */
  lemma CutBehind(line: string)
    requires ClosingQuote(line).Some? && Find(line, COMMENT, 0).Some?
    requires Find(line, COMMENT, 0).value < ClosingQuote(line).value
    ensures IgnoreComments(line) ==
            var next := Find(line, COMMENT, ClosingQuote(line).value + 1);
            if next.None? then line else line[..next.value]
  {
    hide ClosingQuote;
  }

  lemma FindShifted(front: string, text: string, t: string, from: nat)
    ensures Find(front + text, t, from + |front|) == Shift(Find(text, t, from), |front|)
  {
    var line, next := front + text, Find(text, t, from);
    forall p: int | from <= p ensures OccursAt(line, t, p + |front|) <==> OccursAt(text, t, p) {
      if p + |t| <= |text| { assert line[p + |front|..p + |front| + |t|] == text[p..p + |t|]; }
    }
    var found := Find(line, t, from + |front|);
    if found.Some? {
      assert OccursAt(text, t, found.value - |front|);
    }
    if next.Some? {
      assert OccursAt(line, t, next.value + |front|);
    }
  }

  lemma NoComment(line: string)
    requires NoMark(line)
    ensures IgnoreComments(line) == line
  {
    hide ClosingQuote;
    forall q ensures !OccursAt(line, COMMENT, q) {
      assert 0 <= q && q + 2 <= |line| ==> line[q..q + 2][0] == line[q] && line[q..q + 2][1] == line[q + 1];
    }
    assert Find(line, COMMENT, 0).None?;
  }

  lemma CutAtComment(line: string, p: nat)
    requires Find(line, COMMENT, 0) == Some(p)
    ensures ClosingQuote(line) == None ==> IgnoreComments(line) == line[..p]
    ensures ClosingQuote(line).Some? && p < ClosingQuote(line).value ==>
              IgnoreComments(line) <= line && |IgnoreComments(line)| > ClosingQuote(line).value
  {
  }

  lemma FindComment(h: string, text: string)
    requires NoMark(h)
    ensures Find(h + COMMENT + text, COMMENT, 0) == Some(|h|)
  {
    var line := h + COMMENT + text;
    assert line[|h|..|h| + 2] == COMMENT;
    forall q | 0 <= q < |h| ensures !OccursAt(line, COMMENT, q) {
      assert line[q] == h[q] && (q + 1 < |h| ==> line[q + 1] == h[q + 1]);
      assert line[q..q + 2][0] == line[q] && line[q..q + 2][1] == line[q + 1];
    }
    var found := Find(line, COMMENT, 0);
    assert OccursAt(line, COMMENT, |h|);
  }

  lemma HeadShape(pad1: string, name: string, pad2: string)
    requires AllSpace(pad1) && AllSpace(pad2) && IsWord(name)
    ensures var h := HeadText(pad1, name, pad2);
            && |h| > 2 && "*" <= h && Trimmed(h) && '"' !in h && '#' !in h
            && h[1..|h| - 1] == pad1 + name + pad2
  {
    WordIsNot(name);
    SpaceIsNot(pad1);
    SpaceIsNot(pad2);
    var h := HeadText(pad1, name, pad2);
    assert h[0] == '*' && h[|h| - 1] == ':';
  }

  /** What is left of a header after both trims and the removal of its comment. */
  lemma HeaderLine(l: DocLine)
    requires l.Header? && Valid(l)
    ensures var h, raw := HeadText(l.pad1, l.name, l.pad2), Trim(Print(l));
            && raw != "" && raw[0] == '*'
            && (!Quotes(l) ==> Trim(IgnoreComments(raw)) == h)
            && (Quotes(l) ==> h < Trim(IgnoreComments(raw)))
  {
    hide Trim, IgnoreComments, LevelFromName, TrimRight, IsSpace, HeadText, ClosingQuote, IsWord, Ending;
    var h := HeadText(l.pad1, l.name, l.pad2);
    var trimmed := if l.comment.None? then None else Some(TrimRight(l.comment.value));
    HeadShape(l.pad1, l.name, l.pad2);
    TrimBody(l.indent, h, Ending(l.tail, l.comment));
    TrimEnding(l.tail, l.comment);
    if l.comment.Some? { ClosingQuoteTrimmed(l.comment.value); }
    CutComment(h, l.tail, trimmed);
    var line := h + if l.comment.None? then "" else l.tail + COMMENT + trimmed.value;
    var cut := IgnoreComments(line);
    if Quotes(l) {
      MarkStays(h, l.tail, cut);
    } else {
      var rest := if l.comment.None? then "" else l.tail;
      assert cut == h + rest by { assert h + "" == h; }
      assert "" + h + rest == h + rest;
      TrimPadded("", h, rest);
    }
  }

  lemma MarkStays(h: string, tail: string, cut: string)
    requires h != "" && Trimmed(h) && h + tail + COMMENT <= cut
    ensures h < Trim(cut)
  {
    hide Trim;
    var mark := h + tail + COMMENT;
    assert cut == mark + cut[|mark|..];
    assert mark[0] == h[0] && mark[|mark| - 1] == '#';
    HashIsVisible();
    TrimKeeps(mark, cut[|mark|..]);
    assert h < mark;
  }

  /** Trimming takes nothing from a text that begins and ends visibly. */
  lemma TrimKeeps(s: string, rest: string)
    requires s != "" && !IsSpace(s[0]) && !IsSpace(s[|s| - 1])
    ensures s <= Trim(s + rest)
  {
    TrimRightConcat(s, rest);
    TrimLeftVisible(s + TrimRight(rest));
  }

  /** The value that the result of the loop leaves. */
  lemma ValueFrom(v: string, w: string, end: Option<nat>)
    requires Trim(v) == v && FindQuote(v, 0) == Some(0) && EraseEscapes(v, FindQuote(v, 1)) == (w, end)
    requires end.Some? ==> 0 < end.value < |w|
    ensures ValueOf(v) == if end.Some? && end.value > 1 then w[1..end.value] else w
  {
    hide FindQuote, Trim, EraseEscapes;
  }

  lemma VisibleEnds(v: string)
    requires |v| >= 2 && v[0] == '"' && v[|v| - 1] == '"'
    ensures Trim(v) == v
  {
    assert Trimmed(v);
    TrimPadded("", v, "");
    assert "" + v + "" == v;
  }

  // -------------------------------------------------------------------- settings without quotes

  lemma BareShape(l: DocLine)
    requires l.Bare? && Valid(l)
    ensures var b := Front(l.key, l.pad1, l.pad2) + l.value;
      b != "" && Trimmed(b) && b[0] == l.key[0] && '"' !in b && NoMark(b)
  {
    hide TypeFromName;
    WordIsNot(l.key);
    SpaceIsNot(l.pad1);
    SpaceIsNot(l.pad2);
    var front := Front(l.key, l.pad1, l.pad2);
    var b := front + l.value;
    assert '#' !in front && '"' !in front;
    assert b[0] == l.key[0] && b[|b| - 1] == l.value[|l.value| - 1];
    assert forall i :: 0 <= i < |front| ==> b[i] == front[i] && b[i] in front;
    forall i | |front| <= i < |b| && b[i] == '#' ensures i + 1 < |b| && b[i + 1] != '#' {
      assert l.value[i - |front|] == '#';
    }
  }

  /** What stands behind the key of such a setting and white space. */
  function BareRest(l: DocLine): string
    requires l.Bare?
  {
    l.value + if Quotes(l) then l.tail + COMMENT + Kept(TrimRight(l.comment.value)) else ""
  }

  /** What is left of such a setting after both trims and the removal of its comment. */
  lemma BareLine(l: DocLine)
    requires l.Bare? && Valid(l)
    ensures var b, raw := Front(l.key, l.pad1, l.pad2) + l.value, Trim(Print(l));
      && raw != "" && raw[0] == l.key[0]
      && Trim(IgnoreComments(raw)) == b + if Quotes(l) then l.tail + COMMENT + Kept(TrimRight(l.comment.value)) else ""
  {
    hide Trim, IgnoreComments, TypeFromName, TrimRight, IsSpace, ClosingQuote, IsWord, Ending, Front, Kept;
    hide IsBare, NoMark;
    var b := Front(l.key, l.pad1, l.pad2) + l.value;
    var trimmed := if l.comment.None? then None else Some(TrimRight(l.comment.value));
    BareShape(l);
    TrimBody(l.indent, b, Ending(l.tail, l.comment));
    TrimEnding(l.tail, l.comment);
    if l.comment.Some? { ClosingQuoteTrimmed(l.comment.value); }
    CutComment(b, l.tail, trimmed);
    var line := b + if l.comment.None? then "" else l.tail + COMMENT + trimmed.value;
    var cut := IgnoreComments(line);
    if Quotes(l) {
      TrimMarked(b, l.tail, cut);
      assert b + l.tail + COMMENT + Kept(trimmed.value) == b + (l.tail + COMMENT + Kept(trimmed.value));
    } else {
      var rest := if l.comment.None? then "" else l.tail;
      assert cut == b + rest by { assert b + "" == b; }
      assert "" + b + rest == b + rest && b + "" == b;
      TrimPadded("", b, rest);
    }
  }

  lemma TrimMarked(b: string, tail: string, cut: string)
    requires b != "" && Trimmed(b) && b + tail + COMMENT <= cut
    ensures Trim(cut) == b + tail + COMMENT + TrimRight(cut[|b + tail + COMMENT|..])
  {
    hide TrimRight, TrimLeft, IsSpace;
    var mark := b + tail + COMMENT;
    assert cut == mark + cut[|mark|..];
    assert mark[0] == b[0] && mark[|mark| - 1] == '#';
    HashIsVisible();
    TrimRightConcat(mark, cut[|mark|..]);
    assert (mark + TrimRight(cut[|mark|..]))[0] == b[0];
    TrimLeftVisible(mark + TrimRight(cut[|mark|..]));
  }

  /** A line that is a setting. */
  lemma ConfigEffect(text: string, level: Level, b: string, eq: nat)
    requires Trim(text) != "" && IsLetter(Trim(text)[0]) && Trim(IgnoreComments(Trim(text))) == b
    requires IsConfig(b) && Find(b, "=", 0) == Some(eq)
    requires TypeFromName(Trim(Upper(b[..eq]))) != UnknownType
    ensures ParseLine(text, level) ==
            if level == Unknown then Effect(false, level, None)
            else
              var ctype := TypeFromName(Trim(Upper(b[..eq])));
              Effect(true, level, Some(Configuration(level, ctype, ValueOf(b[eq + 1..]))))
  {
    hide Trim, IgnoreComments, TypeFromName, ValueOf, Upper, Find;
  }

  lemma BareWhole(l: DocLine)
    requires l.Bare? && Valid(l)
    ensures Trim(Print(l)) != "" && Trim(Print(l))[0] == l.key[0]
    ensures Trim(IgnoreComments(Trim(Print(l)))) == Front(l.key, l.pad1, l.pad2) + BareRest(l)
  {
    BareLine(l);
    hide Trim, IgnoreComments, Print, Kept, Front, TrimRight, Valid, ClosingQuote;
    var more := if Quotes(l) then l.tail + COMMENT + Kept(TrimRight(l.comment.value)) else "";
    Regroup(Front(l.key, l.pad1, l.pad2), l.value, more);
  }

  lemma BareParts(l: DocLine, level: Level)
    requires l.Bare? && Valid(l)
    ensures ParseLine(Print(l), level) ==
            if level == Unknown then Effect(false, level, None)
            else Effect(true, level, Some(Configuration(level, TypeFromName(l.key), ValueOf(l.pad2 + BareRest(l)))))
  {
    hide Trim, IgnoreComments, TypeFromName, ValueOf, Print, IsConfig, Front, IsBare, Upper, ParseLine, Find, BareRest;
    BareWhole(l);
    KeyParts(l.key, l.pad1, l.pad2, BareRest(l));
    var b := Front(l.key, l.pad1, l.pad2) + BareRest(l);
    ConfigEffect(Print(l), level, b, Find(b, "=", 0).value);
  }

  lemma BareEffect(l: DocLine, level: Level)
    requires l.Bare? && Valid(l)
    ensures ParseLine(Print(l), level) == Taken(l, level)
  {
    hide TypeFromName, ValueOf, Print, Kept, IsBare, ParseLine, ClosingQuote, TrimRight;
    BareParts(l, level);
    if Quotes(l) {
      Regroup(l.value, l.tail, COMMENT);
      Regroup(l.value, l.tail + COMMENT, Kept(TrimRight(l.comment.value)));
    } else {
      assert l.value + "" == l.value;
      BareValue(l.pad2, l.value);
    }
  }

  /** Key and value of a body. */
  lemma KeyParts(key: string, pad1: string, pad2: string, rest: string)
    requires IsWord(key) && AllSpace(pad1)
    ensures var b := Front(key, pad1, pad2) + rest;
            var eq := Find(b, "=", 0);
            && b != "" && b[0] == key[0] && IsConfig(b) && eq.Some?
            && TypeFromName(Trim(Upper(b[..eq.value]))) == TypeFromName(key)
            && b[eq.value + 1..] == pad2 + rest
  {
    hide TypeFromName, Trim, IsSpace, Upper;
    var b, word := Front(key, pad1, pad2) + rest, key + pad1;
    assert b == word + "=" + (pad2 + rest);
    WordIsNot(key);
    SpaceIsNot(pad1);
    SplitAtEquals(word, pad2 + rest);
    assert b[0] == key[0];
    assert word == "" + key + pad1;
    TrimUpper("", key, pad1);
    UpperName(key);
  }

  lemma BareValue(pad: string, value: string)
    requires AllSpace(pad) && IsBare(value)
    ensures ValueOf(pad + value) == value
  {
    hide Trim, FindQuote, IsSpace;
    TrimPadded(pad, value, "");
    assert pad + value + "" == pad + value;
    FindQuoteIs(value, 0, None);
  }

  /** The loop keeps what stands in front of the quote it starts from, and ends at a quote. */
  lemma {:induction false} EraseKeeps(value: string, q: Option<nat>, start: nat)
    requires q.Some? ==> start < q.value < |value| && value[q.value] == '"'
    requires start < |value| && value[start] == '"'
    ensures var (w, end) := EraseEscapes(value, q);
      && start < |w| && w[..start + 1] == value[..start + 1]
      && (end.Some? ==> start < end.value < |w| && w[end.value] == '"')
    decreases if q.Some? then |value| - q.value else 0
  {
    hide FindQuote;
    if q.Some? && value[q.value - 1] == '\\' {
      var erased := value[..q.value - 1] + value[q.value..];
      FoundQuote(erased, q.value + 2);
      assert erased[..start + 1] == value[..start + 1];
      assert erased[start] == value[..start + 1][start];
      EraseKeeps(erased, FindQuote(erased, q.value + 2), start);
    }
  }

  /** A value with quotes behind other text keeps one. */
  lemma QuoteStays(text: string)
    requires var start := FindQuote(Trim(text), 0); start.Some? && start.value > 0
    ensures '"' in ValueOf(text)
  {
    hide Trim, FindQuote, EraseEscapes;
    var v := Trim(text);
    var start := FindQuote(v, 0).value;
    FoundQuote(v, 0);
    FoundQuote(v, start + 1);
    EraseKeeps(v, FindQuote(v, start + 1), start);
    var (w, end) := EraseEscapes(v, FindQuote(v, start + 1));
    assert w[start] == w[..start + 1][start] == '"';
    if end.Some? && start + 1 != end.value {
      var r := w[start + 1..Min(|w|, start + end.value)];
      assert r[end.value - start - 1] == '"';
    }
  }

  /** A setting without quotes means what it says if and only if its comment has no quoted part. */
  lemma BareExactly(l: DocLine, level: Level)
    requires l.Bare? && Valid(l) && level != Unknown
    ensures ParseLine(Print(l), level) == Meaning(l, level) <==> !Quotes(l)
  {
    hide ParseLine, Print, TypeFromName, Mixed, ClosingQuote;
    BareEffect(l, level);
    if Quotes(l) {
      MixedIsOther(l);
    }
  }

  lemma MixedIsOther(l: DocLine)
    requires l.Bare? && Valid(l) && Quotes(l)
    ensures Mixed(l) != l.value
  {
    hide ValueOf, TypeFromName, IsWord, Trim, TrimRight, IsSpace, ClosingQuote, Kept, FindQuote;
    var c := TrimRight(l.comment.value);
    ClosingQuoteTrimmed(l.comment.value);
    KeptQuote(c);
    var core := l.value + l.tail + COMMENT;
    var text := core + Kept(c);
    TrimVisible(l.pad2, text);
    FoundQuote(text, 0);
    assert text[0] == l.value[0] && l.value[0] in l.value;
    var i :| 0 <= i < |Kept(c)| && Kept(c)[i] == '"';
    assert text[|core| + i] == '"';
    QuoteStays(l.pad2 + text);
  }

  lemma KeptQuote(c: string)
    requires ClosingQuote(c).Some?
    ensures '"' in Kept(c) && Kept(c) != "" && !IsSpace(Kept(c)[|Kept(c)| - 1])
  {
    hide ClosingQuote, TrimRight, OccursAt;
    var close := ClosingQuote(c).value;
    ClosingIsQuote(c);
    var next := Find(c, COMMENT, close + 1);
    var x := if next.None? then c else c[..next.value];
    assert x[close] == '"';
    TrimRightSplits(x);
    TrimRightEnds(x);
    var t := TrimRight(x);
    assert forall i :: |t| <= i < |x| ==> x[i] == x[|t|..][i - |t|];
    assert close < |t|;
    assert t[close] == '"';
  }

  lemma {:induction false} TrimRightEnds(s: string)
    ensures TrimRight(s) != "" ==> !IsSpace(TrimRight(s)[|TrimRight(s)| - 1])
  {
    if s != "" && IsSpace(s[|s| - 1]) {
      TrimRightEnds(s[..|s| - 1]);
    }
  }

  lemma {:induction false} UnescapedIsQuote(line: string, q: Option<nat>)
    requires q.Some? ==> 0 < q.value < |line| && line[q.value] == '"'
    ensures var r := Unescaped(line, q); r.Some? ==> line[r.value] == '"'
    decreases if q.Some? then |line| - q.value else 0
  {
    hide FindQuote;
    if q.Some? && line[q.value - 1] == '\\' {
      FoundQuote(line, q.value + 2);
      UnescapedIsQuote(line, FindQuote(line, q.value + 2));
    }
  }

  lemma ClosingIsQuote(line: string)
    requires ClosingQuote(line).Some?
    ensures ClosingQuote(line).value < |line| && line[ClosingQuote(line).value] == '"'
  {
    hide FindQuote, Unescaped;
    var start := FindQuote(line, 0).value;
    FoundQuote(line, start + 1);
    UnescapedIsQuote(line, FindQuote(line, start + 1));
  }

  lemma TrimVisible(pad: string, text: string)
    requires AllSpace(pad) && Trimmed(text)
    ensures Trim(pad + text) == text
  {
    TrimPadded(pad, text, "");
    assert pad + text + "" == pad + text;
  }

  /** A header with a quoted part in its comment names no level: its colon is taken for a part of the name. */
  lemma ColonIsNoLevel(s: string)
    requires ':' in CStr(s)
    ensures LevelFromName(s) == Unknown
  {
    hide CStr;
    var i :| 0 <= i < |CStr(s)| && CStr(s)[i] == ':';
    assert Upper(CStr(s))[i] == ':';
    NamesHaveNoColon();
  }

  lemma NamesHaveNoColon()
    ensures ':' !in Upper("global") && ':' !in Upper("debug") && ':' !in Upper("info") && ':' !in Upper("warning")
    ensures ':' !in Upper("error") && ':' !in Upper("fatal") && ':' !in Upper("verbose") && ':' !in Upper("trace")
  {
  }

  lemma {:induction false} CStrReaches(front: string, c: char, rest: string)
    requires '\0' !in front && c != '\0'
    ensures c in CStr(front + [c] + rest)
  {
    var s := front + [c] + rest;
    if front == "" {
      assert s[0] == c;
    } else {
      assert s[0] == front[0] && s[0] in front && s[1..] == front[1..] + [c] + rest;
      CStrReaches(front[1..], c, rest);
    }
  }

  lemma SpacedNameIsUnknown(pad1: string, name: string, pad2: string, rest: string)
    requires AllSpace(pad1) && AllSpace(pad2) && IsWord(name)
    ensures LevelFromName(Trim(Upper(pad1 + name + pad2 + ":" + rest))) == Unknown
  {
    hide LevelFromName, IsSpace;
    var s := Upper(pad1 + name + pad2 + ":" + rest);
    var core := Upper(name + pad2 + ":");
    UpperShape(pad1, name, pad2, rest);
    TrimBody(pad1, core, Upper(rest));
    var t := TrimRight(Upper(rest));
    var front := Upper(name + pad2);
    assert core + t == front + [':'] + t;
    CStrReaches(front, ':', t);
    ColonIsNoLevel(core + t);
  }

  lemma UpperShape(pad1: string, name: string, pad2: string, rest: string)
    requires AllSpace(pad1) && AllSpace(pad2) && IsWord(name)
    ensures Upper(pad1 + name + pad2 + ":" + rest) == pad1 + Upper(name + pad2 + ":") + Upper(rest)
    ensures Upper(name + pad2 + ":") == Upper(name + pad2) + ":" && '\0' !in Upper(name + pad2)
    ensures Trimmed(Upper(name + pad2 + ":")) && Upper(name + pad2 + ":") != ""
  {
  }

  /** A header sets the level it names, or none at all when its comment has a quoted part. */
  lemma HeaderEffect(l: DocLine, level: Level)
    requires l.Header? && Valid(l)
    ensures ParseLine(Print(l), level) == Taken(l, level)
  {
    hide Trim, IgnoreComments, LevelFromName, IsSpace, HeadText, Print, Upper, Quotes;
    HeaderLine(l);
    HeadShape(l.pad1, l.name, l.pad2);
    if Quotes(l) {
      var h, line := HeadText(l.pad1, l.name, l.pad2), Trim(IgnoreComments(Trim(Print(l))));
      HeadPrefix(l.pad1, l.name, l.pad2, line);
      SpacedNameIsUnknown(l.pad1, l.name, l.pad2, line[|h|..|line| - 1]);
    } else {
      TrimUpper(l.pad1, l.name, l.pad2);
      WordIsNot(l.name);
      UpperName(l.name);
    }
  }

  lemma HeadPrefix(pad1: string, name: string, pad2: string, line: string)
    requires HeadText(pad1, name, pad2) < line
    ensures var h := HeadText(pad1, name, pad2);
      |line| > 2 && "*" <= line && line[1..|line| - 1] == pad1 + name + pad2 + ":" + line[|h|..|line| - 1]
  {
    var h := HeadText(pad1, name, pad2);
    assert line == h + line[|h|..];
    assert h == "*" + (pad1 + name + pad2 + ":");
  }

  /** A header means what it says if and only if its comment has no quoted part. */
  lemma HeaderExactly(l: DocLine, level: Level)
    requires l.Header? && Valid(l)
    ensures ParseLine(Print(l), level) == Meaning(l, level) <==> !Quotes(l)
  {
    hide ParseLine, Print, Quotes, LevelFromName;
    HeaderEffect(l, level);
  }

  /** For one: the level of this header is lost. */
  lemma QuotedCommentLosesLevel(level: Level)
    ensures ParseLine("*INFO:##\"a\"", level) == Effect(true, Unknown, None)
  {
    hide ParseLine, LevelFromName, ClosingQuote;
    var comment := "\"a\"";
    var l := Header("", "", "INFO", "", "", Some(comment));
    assert Print(l) == "*INFO:##\"a\"";
    InfoIsInfo();
    QuotedLetter();
    hide Print;
    HeaderEffect(l, level);
  }

  lemma QuotedLetter()
    ensures ClosingQuote("\"a\"") == Some(2)
  {
    hide FindQuote;
    FindQuoteIs("\"a\"", 0, Some(0));
    FindQuoteIs("\"a\"", 1, Some(2));
  }

  lemma InfoIsInfo()
    ensures LevelFromName("INFO") == Info
  {
    CStrIsWhole("INFO");
    assert Upper("INFO") == Upper("info");
    assert Upper("INFO")[0] == 'I';
    assert Upper("global")[0] == 'G' && Upper("debug")[0] == 'D';
  }

  lemma RemarkEffect(l: DocLine, level: Level)
    requires (l.Remark? || l.Blank?) && Valid(l)
    ensures ParseLine(Print(l), level) == Meaning(l, level)
  {
    hide IsSpace;
    if l.Remark? {
      assert Print(l) == l.indent + COMMENT + l.text;
      assert Trimmed(COMMENT) by { HashIsVisible(); }
      TrimBody(l.indent, COMMENT, l.text);
    } else {
      TrimRightSpace(l.space);
    }
  }

  lemma HashIsVisible()
    ensures !IsSpace('#')
  {
  }

  /** What the parser makes of every line of a document. */
  lemma LineEffect(l: DocLine, level: Level)
    requires Valid(l)
    ensures ParseLine(Print(l), level) == Taken(l, level)
  {
    match l
    case Setting(_, _, _, _, _, _, _) => SettingEffect(l, level);
    case Header(_, _, _, _, _, _) => HeaderEffect(l, level);
    case Bare(_, _, _, _, _, _, _) => BareEffect(l, level);
    case _ => RemarkEffect(l, level);
  }

  // -------------------------------------------------------------------- whole texts

  /** The lines std::getline hands out. */
  function GetLines(text: string): seq<string>
    decreases |text|
  {
    if text == "" then []
    else
      var end := Find(text, "\n", 0);
      if end.None? then [text] else [text[..end.value]] + GetLines(text[end.value + 1..])
  }

  /** The state of parseFromText between lines: the last result, the level, and the calls of set so far. */
  datatype Progress = Progress(ok: bool, level: Level, calls: seq<Configuration>)

  function Step(p: Progress, e: Effect): Progress {
    Progress(e.ok, e.level, p.calls + if e.call.Some? then [e.call.value] else [])
  }

  function ParseLines(lines: seq<string>, p: Progress): Progress
    decreases |lines|
  {
    if lines == [] then p else ParseLines(lines[1..], Step(p, ParseLine(lines[0], p.level)))
  }

  function ParseText(text: string): Progress {
    ParseLines(GetLines(text), Progress(false, Unknown, []))
  }

  function PrintDoc(doc: seq<DocLine>): string {
    if doc == [] then "" else Print(doc[0]) + "\n" + PrintDoc(doc[1..])
  }

  /** The calls a document lists: each setting under the level of the nearest header above it. */
  function DocProgress(doc: seq<DocLine>, p: Progress): Progress
    decreases |doc|
  {
    if doc == [] then p else DocProgress(doc[1..], Step(p, Meaning(doc[0], p.level)))
  }

  predicate ValidDoc(doc: seq<DocLine>) {
    forall i :: 0 <= i < |doc| ==> Valid(doc[i]) && '\n' !in Print(doc[i])
  }

  lemma FirstLine(line: string, more: string)
    requires '\n' !in line
    ensures GetLines(line + "\n" + more) == [line] + GetLines(more)
  {
    var text := line + "\n" + more;
    assert text[|line|..|line| + 1] == "\n";
    assert forall q :: 0 <= q < |line| ==> text[q] == line[q] && text[q] in line;
    FindIs(text, "\n", 0, |line|);
    assert text[..|line|] == line && text[|line| + 1..] == more;
  }

  lemma {:induction false} GetLinesOfDoc(doc: seq<DocLine>)
    requires ValidDoc(doc)
    ensures GetLines(PrintDoc(doc)) == seq(|doc|, i requires 0 <= i < |doc| => Print(doc[i]))
    decreases |doc|
  {
    hide Print, Valid;
    if doc != [] {
      FirstLine(Print(doc[0]), PrintDoc(doc[1..]));
      hide GetLines;
      GetLinesOfDoc(doc[1..]);
    }
  }

  /** The same with every line as the parser takes it. */
  function TakenProgress(doc: seq<DocLine>, p: Progress): Progress
    decreases |doc|
  {
    if doc == [] then p else TakenProgress(doc[1..], Step(p, Taken(doc[0], p.level)))
  }

  predicate NoQuotes(doc: seq<DocLine>) {
    forall i :: 0 <= i < |doc| ==> !Quotes(doc[i])
  }

  /** What parseFromText does with any document. */
  lemma ParseTakes(doc: seq<DocLine>)
    requires ValidDoc(doc)
    ensures ParseText(PrintDoc(doc)) == TakenProgress(doc, Progress(false, Unknown, []))
  {
    hide ValidDoc;
    GetLinesOfDoc(doc);
    LinesOfDoc(doc, Progress(false, Unknown, []));
  }

  /** parseFromText makes exactly the calls of set that the document lists, in order, with the exact
      values, and fails on nothing but a setting without a header above it. */
  lemma ParseUndoesPrint(doc: seq<DocLine>)
    requires ValidDoc(doc) && NoQuotes(doc)
    ensures ParseText(PrintDoc(doc)) == DocProgress(doc, Progress(false, Unknown, []))
  {
    hide ParseText, PrintDoc, ValidDoc;
    ParseTakes(doc);
    TakenIsMeant(doc, Progress(false, Unknown, []));
  }

  lemma {:induction false} TakenIsMeant(doc: seq<DocLine>, p: Progress)
    requires NoQuotes(doc)
    ensures TakenProgress(doc, p) == DocProgress(doc, p)
    decreases |doc|
  {
    hide Quotes, Meaning;
    if doc != [] {
      TakenIsMeant(doc[1..], Step(p, Meaning(doc[0], p.level)));
    }
  }

  lemma {:induction false} LinesOfDoc(doc: seq<DocLine>, p: Progress)
    requires ValidDoc(doc)
    ensures ParseLines(seq(|doc|, i requires 0 <= i < |doc| => Print(doc[i])), p) == TakenProgress(doc, p)
    decreases |doc|
  {
    hide Print, ParseLine, Taken;
    if doc != [] {
      var lines := seq(|doc|, i requires 0 <= i < |doc| => Print(doc[i]));
      assert lines[1..] == seq(|doc[1..]|, i requires 0 <= i < |doc[1..]| => Print(doc[1..][i]));
      LineEffect(doc[0], p.level);
      LinesOfDoc(doc[1..], Step(p, Taken(doc[0], p.level)));
    }
  }

  // -------------------------------------------------------------------- the parser in place

  /** Parser::ignoreComments. */
  method IgnoreCommentsInPlace(line: string) returns (r: string)
    ensures r == IgnoreComments(line)
  {
    hide FindQuote, OccursAt;
    var start := FindQuote(line, 0);
    var end: Option<nat> := None;
    if start.Some? {
      end := FindQuote(line, start.value + 1);
      while end.Some? && line[end.value - 1] == '\\'
        invariant end.Some? ==> 0 < end.value < |line|
        invariant Unescaped(line, end) == ClosingQuote(line)
        decreases if end.Some? then |line| - end.value else 0
      {
        end := FindQuote(line, end.value + 2);
      }
    }
    r := line;
    var found := Find(line, COMMENT, 0);
    if found.Some? {
      if end.None? || found.value < end.value {
        found := Find(line, COMMENT, if end.None? then 0 else end.value + 1);
      }
      if found.Some? { r := line[..found.value]; }
    }
  }

  /** The quotes of a value, in parseLine. */
  method StripQuotes(text: string) returns (value: string)
    ensures value == ValueOf(text)
  {
    hide Trim, FindQuote;
    value := Trim(text);
    var start := FindQuote(value, 0);
    if start.None? { return; }
    var end := FindQuote(value, start.value + 1);
    ghost var result := EraseEscapes(value, end);
    while end.Some? && value[end.value - 1] == '\\'
      invariant end.Some? ==> 0 < end.value < |value|
      invariant EraseEscapes(value, end) == result
      decreases if end.Some? then |value| - end.value else 0
    {
      value := value[..end.value - 1] + value[end.value..];
      end := FindQuote(value, end.value + 2);
    }
    if end.Some? && start.value != end.value && start.value + 1 != end.value && start.value < |value| {
      value := value[start.value + 1..Min(|value|, start.value + end.value)];
    }
  }

  /** Parser::parseLine, with its call of set on the registry. */
  method ParseLineInto(text: string, level: Level, conf: Registry) returns (ok: bool, newLevel: Level)
    modifies conf
    ensures var e := ParseLine(text, level);
            && ok == e.ok && newLevel == e.level
            && conf.list == if e.call.Some? then AfterSet(old(conf.list), e.call.value) else old(conf.list)
  {
    hide LevelFromName, TypeFromName, ValueOf, IgnoreComments, Trim, AfterSet;
    newLevel := level;
    var line := Trim(text);
    if COMMENT <= line { return true, level; }
    line := IgnoreCommentsInPlace(line);
    line := Trim(line);
    if line == "" { return true, level; }
    if "*" <= line {
      if |line| <= 2 { return true, level; }
      return true, LevelFromName(Trim(Upper(line[1..|line| - 1])));
    }
    var ctype, value := UnknownType, "";
    if IsConfig(line) {
      var eq := Find(line, "=", 0).value;
      ctype := TypeFromName(Trim(Upper(line[..eq])));
      value := StripQuotes(line[eq + 1..]);
    }
    if level == Unknown || ctype == UnknownType { return false, level; }
    conf.Set(level, ctype, value);
    return true, level;
  }

  lemma {:induction false} ParseLinesSnoc(lines: seq<string>, line: string, p: Progress)
    ensures ParseLines(lines + [line], p) == var q := ParseLines(lines, p); Step(q, ParseLine(line, q.level))
    decreases |lines|
  {
    hide ParseLine;
    if lines == [] {
      assert (lines + [line])[1..] == [];
    } else {
      assert (lines + [line])[1..] == lines[1..] + [line];
      ParseLinesSnoc(lines[1..], line, Step(p, ParseLine(lines[0], p.level)));
    }
  }

  /** Parser::parseFromText: the base first, then line after line; the result is that of the last line. */
  method ParseFromText(text: string, conf: Registry, base: Registry?) returns (ok: bool)
    modifies conf
    ensures ok == ParseText(text).ok
    ensures conf.list == Run(if base == null || base == conf then old(conf.list)
                             else Run(old(conf.list), old(base.list)),
                             ParseText(text).calls)
  {
    hide ParseLine;
    conf.SetFromBase(base);
    ghost var start := conf.list;
    ok := false;
    var level := Unknown;
    var lines := GetLines(text);
    ghost var p := Progress(false, Unknown, []);
    var i := 0;
    while i < |lines|
      invariant 0 <= i <= |lines|
      invariant p == ParseLines(lines[..i], Progress(false, Unknown, []))
      invariant ok == p.ok && level == p.level && conf.list == Run(start, p.calls)
    {
      ghost var e := ParseLine(lines[i], level);
      ok, level := ParseLineInto(lines[i], level, conf);
      assert lines[..i + 1] == lines[..i] + [lines[i]];
      ParseLinesSnoc(lines[..i], lines[i], Progress(false, Unknown, []));
      RunSnoc(start, p.calls, e.call);
      p := Step(p, e);
      i := i + 1;
    }
    assert lines[..i] == lines;
  }

  lemma RunSnoc(list: seq<Configuration>, calls: seq<Configuration>, call: Option<Configuration>)
    ensures Run(list, calls + if call.Some? then [call.value] else [])
            == if call.Some? then AfterSet(Run(list, calls), call.value) else Run(list, calls)
  {
    if call.Some? {
      assert (calls + [call.value])[..|calls|] == calls;
    } else {
      assert calls + [] == calls;
    }
  }
}
