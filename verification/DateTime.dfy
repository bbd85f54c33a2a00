/**
  Dates in log lines: Str::addToBuff, Str::convertAndAddToBuff and DateTime::parseFormat of
  external/easylogging++/easylogging++.cc, which render a date format into a buffer of limited size.
 */
module DateTime {
  import opened Arithmetic
  import opened Decimals
  import opened Sequences
  import opened Strings

  // -------------------------------------------------------------------- numbers

  ghost function Pow10(w: nat): (p: nat)
    ensures p >= 1
  {
    if w == 0 then 1 else 10 * Pow10(w - 1)
  }

  function Zeros(k: int): (s: string)
    ensures |s| == if k > 0 then k else 0
  {
    if k <= 0 then "" else Zeros(k - 1) + "0"
  }

  /** The digits that fit into len places and room characters, least significant last; padding fills
      what is left of both. */
  function Digits(n: nat, len: int, room: nat, padded: bool): string
    decreases room
  {
    if n > 0 && room > 0 && len > 0 then Digits(n / 10, len - 1, room - 1, padded) + [DigitChar(n % 10)]
    else if padded then Zeros(Min(room, len)) else ""
  }

  /** What convertAndAddToBuff hands to addToBuff: its local buffer has room for eight characters. */
  function Converted(n: nat, len: int, padded: bool): string {
    if n > 0 then Digits(n, len, 8, padded)
    else (if padded then Zeros(Min(7, len - 1)) else "") + "0"
  }

  lemma {:induction false} ValZeros(k: int)
    ensures AllDigits(Zeros(k)) && Val(Zeros(k)) == 0
  {
    if k > 0 {
      ValZeros(k - 1);
      ValAppend(Zeros(k - 1), '0');
    }
  }

  lemma {:induction false} DigitsPadded(n: nat, w: nat, room: nat)
    requires w <= room
    ensures var s := Digits(n, w, room, true);
            |s| == w && AllDigits(s) && Val(s) == n % Pow10(w)
    decreases room
  {
    if n > 0 && w > 0 {
      DigitsPadded(n / 10, w - 1, room - 1);
      RemainderStep(n, 10, Pow10(w - 1));
      ValAppend(Digits(n / 10, w - 1, room - 1, true), DigitChar(n % 10));
    } else {
      ValZeros(w);
      if n == 0 { RemainderIs(0, Pow10(w), 0, 0); }
    }
  }

  /** A padded field of one to eight places is the decimal of n modulo ten to that power. */
  lemma PaddedField(n: nat, w: nat)
    requires 1 <= w <= 8
    ensures var s := Converted(n, w, true);
            |s| == w && AllDigits(s) && Val(s) == n % Pow10(w)
  {
    hide Pow10, Zeros, Digits, Val;
    if n > 0 {
      DigitsPadded(n, w, 8);
    } else {
      ValZeros(w - 1);
      ValAppend(Zeros(w - 1), '0');
      RemainderIs(0, Pow10(w), 0, 0);
    }
  }

  lemma {:induction false} DigitsPlain(n: nat, w: nat, room: nat)
    requires w <= room && n < Pow10(w)
    ensures var s := Digits(n, w, room, false);
            AllDigits(s) && Val(s) == n && (n > 0 ==> s != "" && s[0] != '0')
    decreases room
  {
    if n > 0 {
      assert w > 0;
      DigitsPlain(n / 10, w - 1, room - 1);
      ValAppend(Digits(n / 10, w - 1, room - 1, false), DigitChar(n % 10));
    }
  }

  /** Without padding, a number that fits is written as its decimal without leading zeros. */
  lemma PlainField(n: nat, w: nat)
    requires 1 <= w <= 8 && n < Pow10(w)
    ensures var s := Converted(n, w, false);
            AllDigits(s) && Val(s) == n && s != "" && (s[0] == '0' ==> s == "0")
  {
    if n > 0 {
      DigitsPlain(n, w, 8);
    } else {
      ValAppend("", '0');
      assert "" + "0" == "0";
    }
  }

  // -------------------------------------------------------------------- the rendering without a limit

  const DAYS := ["Sunday", "Monday", "Tuesday", "Wednesday", "Thursday", "Friday", "Saturday"]
  const DAYS_ABBREV := ["Sun", "Mon", "Tue", "Wed", "Thu", "Fri", "Sat"]
  /** kMonths, with the name of the fourth month as the source has it. */
  const MONTHS := ["January", "February", "March", "Apri", "May", "June", "July", "August",
                   "September", "October", "November", "December"]
  const MONTHS_ABBREV := ["Jan", "Feb", "Mar", "Apr", "May", "Jun", "Jul", "Aug", "Sep", "Oct", "Nov", "Dec"]

  /** The fields of struct tm that formats use; the year counts from 1900. */
  datatype TimeInfo = TimeInfo(mday: nat, wday: nat, mon: nat, year: nat, hour: nat, min: nat, sec: nat)

  predicate InRange(t: TimeInfo) {
    t.wday < 7 && t.mon < 12
  }

  datatype Moment = Moment(t: TimeInfo, subsecond: nat, width: int)

  /** The text of one conversion character; unknown ones write nothing. */
  function Field(c: char, m: Moment): string
    requires InRange(m.t)
  {
    match c
    case 'd' => Converted(m.t.mday, 2, true)
    case 'a' => DAYS_ABBREV[m.t.wday]
    case 'A' => DAYS[m.t.wday]
    case 'M' => Converted(m.t.mon + 1, 2, true)
    case 'b' => MONTHS_ABBREV[m.t.mon]
    case 'B' => MONTHS[m.t.mon]
    case 'y' => Converted(m.t.year + 1900, 2, true)
    case 'Y' => Converted(m.t.year + 1900, 4, true)
    case 'h' => Converted(m.t.hour % 12, 2, true)
    case 'H' => Converted(m.t.hour, 2, true)
    case 'm' => Converted(m.t.min, 2, true)
    case 's' => Converted(m.t.sec, 2, true)
    case 'z' => Converted(m.subsecond, m.width, true)
    case 'g' => Converted(m.subsecond, m.width, true)
    case 'F' => if m.t.hour >= 12 then "PM" else "AM"
    case _ => ""
  }

  /** The rendering of a format: `%%` and a `%` at the end are a `%`. */
  function Render(format: string, m: Moment): string
    requires InRange(m.t)
    decreases |format|
  {
    if format == "" then ""
    else if format[0] != '%' then [format[0]] + Render(format[1..], m)
    else if |format| == 1 then "%"
    else if format[1] == '%' then "%" + Render(format[2..], m)
    else Field(format[1], m) + Render(format[2..], m)
  }

  // -------------------------------------------------------------------- what a reader gets back

  /** Plain text comes through as it is. */
  lemma {:induction false} PlainText(w: string, rest: string, m: Moment)
    requires InRange(m.t) && '%' !in w
    ensures Render(w + rest, m) == w + Render(rest, m)
    decreases |w|
  {
    hide Field;
    if w == "" {
      assert w + rest == rest;
    } else {
      assert (w + rest)[0] == w[0] && (w + rest)[1..] == w[1..] + rest;
      PlainText(w[1..], rest, m);
      assert w == [w[0]] + w[1..];
      Regroup([w[0]], w[1..], Render(rest, m));
    }
  }

  /** A doubled `%` is one, and a conversion stands for its field. */
  lemma OneConversion(c: char, rest: string, m: Moment)
    requires InRange(m.t)
    ensures Render("%%" + rest, m) == "%" + Render(rest, m)
    ensures c != '%' ==> Render("%" + [c] + rest, m) == Field(c, m) + Render(rest, m)
  {
    hide Field;
    assert ("%%" + rest)[2..] == rest && ("%" + [c] + rest)[2..] == rest;
  }

  lemma NothingRendered(m: Moment)
    requires InRange(m.t)
    ensures Render("", m) == ""
  {
  }

  /** A field of digits with a number. */
  ghost predicate Reads(s: string, w: nat, n: nat) {
    |s| == w && AllDigits(s) && Val(s) == n
  }

  lemma TwoPlaces(n: nat, c: char, m: Moment)
    requires InRange(m.t) && Field(c, m) == Converted(n, 2, true)
    ensures Reads(Field(c, m), 2, n % 100)
  {
    hide Converted, Field, Val;
    PaddedField(n, 2);
    assert Pow10(2) == 100 by { assert Pow10(0) == 1 && Pow10(1) == 10; }
  }

  /** The fields of a date, as numbers. */
  lemma FieldsRead(m: Moment)
    requires InRange(m.t)
    ensures Reads(Field('Y', m), 4, (m.t.year + 1900) % 10000)
    ensures Reads(Field('y', m), 2, (m.t.year + 1900) % 100)
    ensures Reads(Field('M', m), 2, m.t.mon + 1)
    ensures Reads(Field('d', m), 2, m.t.mday % 100)
    ensures Reads(Field('H', m), 2, m.t.hour % 100)
    ensures Reads(Field('h', m), 2, m.t.hour % 12)
    ensures Reads(Field('m', m), 2, m.t.min % 100)
    ensures Reads(Field('s', m), 2, m.t.sec % 100)
  {
    hide Converted, Reads;
    TwoPlaces(m.t.year + 1900, 'y', m);
    TwoPlaces(m.t.mon + 1, 'M', m);
    TwoPlaces(m.t.mday, 'd', m);
    TwoPlaces(m.t.hour, 'H', m);
    TwoPlaces(m.t.hour % 12, 'h', m);
    TwoPlaces(m.t.min, 'm', m);
    TwoPlaces(m.t.sec, 's', m);
    FourPlaces(m);
  }

  lemma FourPlaces(m: Moment)
    requires InRange(m.t)
    ensures Reads(Field('Y', m), 4, (m.t.year + 1900) % 10000)
  {
    hide Converted, Val;
    PaddedField(m.t.year + 1900, 4);
    assert Pow10(4) == 10000 by { assert Pow10(0) == 1 && Pow10(1) == 10 && Pow10(2) == 100 && Pow10(3) == 1000; }
  }

  /** The part of a second has as many places as the precision asks for. */
  lemma SubsecondReads(m: Moment)
    requires InRange(m.t) && 1 <= m.width <= 6
    ensures Reads(Field('g', m), m.width, m.subsecond % Pow10(m.width)) && Field('z', m) == Field('g', m)
  {
    hide Converted, Val;
    PaddedField(m.subsecond, m.width);
  }

  /** Names are those of the day and the month; the short ones are their first three letters. */
  lemma NamesRendered(m: Moment)
    requires InRange(m.t)
    ensures Field('A', m) == DAYS[m.t.wday] && Field('a', m) == DAYS[m.t.wday][..3]
    ensures Field('B', m) == MONTHS[m.t.mon] && Field('b', m) == MONTHS[m.t.mon][..3]
  {
  }

  /** Days are counted from Sunday. */
  lemma DaysCount(m: Moment)
    requires InRange(m.t)
    ensures Field('a', m) == match m.t.wday
      case 0 => "Sun"
      case 1 => "Mon"
      case 2 => "Tue"
      case 3 => "Wed"
      case 4 => "Thu"
      case 5 => "Fri"
      case _ => "Sat"
  {
  }

  /** Months are counted from January. */
  lemma MonthsCount(m: Moment)
    requires InRange(m.t)
    ensures Field('b', m) == match m.t.mon
      case 0 => "Jan"
      case 1 => "Feb"
      case 2 => "Mar"
      case 3 => "Apr"
      case 4 => "May"
      case 5 => "Jun"
      case 6 => "Jul"
      case 7 => "Aug"
      case 8 => "Sep"
      case 9 => "Oct"
      case 10 => "Nov"
      case _ => "Dec"
  {
  }

  /** The hour of a twelve-hour clock and the half of the day give back the hour. */
  lemma HalfDay(m: Moment)
    requires InRange(m.t) && m.t.hour < 24
    ensures AllDigits(Field('h', m))
    ensures m.t.hour == Val(Field('h', m)) + if Field('F', m) == "PM" then 12 else 0
    ensures Field('F', m) == "PM" || Field('F', m) == "AM"
  {
    hide Field, Val, Reads;
    HalfIs(m);
    FieldsRead(m);
    ReadsIs(Field('h', m), 2, m.t.hour % 12);
  }

  lemma HalfIs(m: Moment)
    requires InRange(m.t)
    ensures Field('F', m) == "PM" || Field('F', m) == "AM"
    ensures Field('F', m) == "PM" <==> m.t.hour >= 12
  {
    assert "AM"[0] != "PM"[0];
  }

  lemma ReadsIs(s: string, w: nat, n: nat)
    requires Reads(s, w, n)
    ensures |s| == w && AllDigits(s) && Val(s) == n
  {
  }

  /** A date and time in the usual form is read back field by field. */
  lemma DateIsReadBack(m: Moment)
    requires InRange(m.t)
    ensures var s := Render("%Y-%M-%d %H:%m:%s", m);
      && |s| == 19 && s[4] == '-' && s[7] == '-' && s[10] == ' ' && s[13] == ':' && s[16] == ':'
      && Reads(s[..4], 4, (m.t.year + 1900) % 10000) && Reads(s[5..7], 2, m.t.mon + 1)
      && Reads(s[8..10], 2, m.t.mday % 100) && Reads(s[11..13], 2, m.t.hour % 100)
      && Reads(s[14..16], 2, m.t.min % 100) && Reads(s[17..19], 2, m.t.sec % 100)
  {
    hide Field, Render, Reads;
    FieldsRead(m);
    UsualForm(m);
    ReadsIs(Field('Y', m), 4, (m.t.year + 1900) % 10000);
    ReadsIs(Field('M', m), 2, m.t.mon + 1);
    ReadsIs(Field('d', m), 2, m.t.mday % 100);
    ReadsIs(Field('H', m), 2, m.t.hour % 100);
    ReadsIs(Field('m', m), 2, m.t.min % 100);
    ReadsIs(Field('s', m), 2, m.t.sec % 100);
    Places(Field('Y', m), Field('M', m), Field('d', m), Field('H', m), Field('m', m), Field('s', m));
  }

  lemma Places(y: string, o: string, d: string, h: string, i: string, s: string)
    requires |y| == 4 && |o| == 2 && |d| == 2 && |h| == 2 && |i| == 2 && |s| == 2
    ensures var text := y + ("-" + (o + ("-" + (d + (" " + (h + (":" + (i + (":" + s)))))))));
      && |text| == 19 && text[4] == '-' && text[7] == '-' && text[10] == ' ' && text[13] == ':' && text[16] == ':'
      && text[..4] == y && text[5..7] == o && text[8..10] == d
      && text[11..13] == h && text[14..16] == i && text[17..19] == s
  {
    var time := h + (":" + (i + (":" + s)));
    TimePlaces(h, i, s);
    DatePlaces(y, o, d, time);
    var text := y + ("-" + (o + ("-" + (d + (" " + time)))));
    assert forall k :: 0 <= k < 8 ==> text[11 + k] == text[11..][k];
    assert text[11..13] == time[..2] && text[14..16] == time[3..5] && text[17..19] == time[6..8];
  }

  lemma DatePlaces(y: string, o: string, d: string, time: string)
    requires |y| == 4 && |o| == 2 && |d| == 2
    ensures var text := y + ("-" + (o + ("-" + (d + (" " + time)))));
      && |text| == 11 + |time| && text[4] == '-' && text[7] == '-' && text[10] == ' '
      && text[..4] == y && text[5..7] == o && text[8..10] == d && text[11..] == time
  {
  }

  lemma TimePlaces(h: string, i: string, s: string)
    requires |h| == 2 && |i| == 2 && |s| == 2
    ensures var time := h + (":" + (i + (":" + s)));
      && |time| == 8 && time[2] == ':' && time[5] == ':'
      && time[..2] == h && time[3..5] == i && time[6..8] == s
  {
  }

  /** One conversion and the character behind it. */
  lemma ThenMark(c: char, mark: char, rest: string, m: Moment)
    requires InRange(m.t) && c != '%' && mark != '%'
    ensures Render("%" + [c, mark] + rest, m) == Field(c, m) + ([mark] + Render(rest, m))
  {
    hide Field, Render;
    assert "%" + [c, mark] + rest == "%" + [c] + ([mark] + rest);
    OneConversion(c, [mark] + rest, m);
    PlainText([mark], rest, m);
  }

  lemma UsualForm(m: Moment)
    requires InRange(m.t)
    ensures Render("%Y-%M-%d %H:%m:%s", m) ==
            Field('Y', m) + ("-" + (Field('M', m) + ("-" + (Field('d', m) + (" " +
            (Field('H', m) + (":" + (Field('m', m) + (":" + Field('s', m))))))))))
  {
    hide Field, Render;
    ThenMark('Y', '-', "%M-%d %H:%m:%s", m);
    ThenMark('M', '-', "%d %H:%m:%s", m);
    ThenMark('d', ' ', "%H:%m:%s", m);
    ThenMark('H', ':', "%m:%s", m);
    ThenMark('m', ':', "%s", m);
    OneConversion('s', "", m);
    NothingRendered(m);
    assert "%" + ['s'] + "" == "%s" && Field('s', m) + "" == Field('s', m);
    assert "%" + ['m', ':'] + "%s" == "%m:%s" && "%" + ['H', ':'] + "%m:%s" == "%H:%m:%s";
    assert "%" + ['d', ' '] + "%H:%m:%s" == "%d %H:%m:%s" && "%" + ['M', '-'] + "%d %H:%m:%s" == "%M-%d %H:%m:%s";
    assert "%" + ['Y', '-'] + "%M-%d %H:%m:%s" == "%Y-%M-%d %H:%m:%s";
  }

  // -------------------------------------------------------------------- writing into the buffer

  /** The first pos characters of the buffer are the start of text, cut off by the end of the buffer if need be. */
  ghost predicate Holds(buf: array<char>, pos: nat, text: string)
    reads buf
    ensures Holds(buf, pos, text) ==> pos <= buf.Length
  {
    pos == Min(|text|, buf.Length) && buf[..pos] == text[..pos]
  }

  /** Nothing but NULs behind pos. */
  ghost predicate NulFrom(buf: array<char>, pos: nat)
    reads buf
  {
    forall k :: pos <= k < buf.Length ==> buf[k] == '\0'
  }

  /** Str::addToBuff; str is what stands before its NUL. */
  method AddToBuff(str: string, buf: array<char>, pos0: nat, ghost text: string) returns (pos: nat)
    requires Holds(buf, pos0, text)
    modifies buf
    ensures Holds(buf, pos, text + str)
    ensures old(NulFrom(buf, pos0)) ==> NulFrom(buf, pos)
  {
    pos := pos0;
    var i := 0;
    while pos < buf.Length && i < |str|
      invariant i <= |str| && pos0 <= pos <= buf.Length && pos == pos0 + i
      invariant i > 0 ==> pos0 == |text|
      invariant buf[..pos] == text[..pos0] + str[..i]
      invariant forall k :: pos <= k < buf.Length ==> buf[k] == old(buf[k])
    {
      buf[pos] := str[i];
      assert str[..i + 1] == str[..i] + [str[i]];
      pos, i := pos + 1, i + 1;
    }
    if pos < buf.Length {
      buf[pos] := '\0';
    }
    assert (text + str)[..pos] == text[..pos0] + str[..i];
  }

  /** Str::convertAndAddToBuff. */
  method ConvertAndAddToBuff(n0: nat, len0: int, buf: array<char>, pos0: nat, zeroPadded: bool, ghost text: string)
    returns (pos: nat)
    requires Holds(buf, pos0, text)
    modifies buf
    ensures Holds(buf, pos, text + Converted(n0, len0, zeroPadded))
    ensures old(NulFrom(buf, pos0)) ==> NulFrom(buf, pos)
  {
    var local := LocalDigits(n0, len0, zeroPadded);
    pos := AddToBuff(local, buf, pos0, text);
  }

  /** The local buffer of convertAndAddToBuff, from its pointer p up to the NUL at its ninth character. */
  method LocalDigits(n: nat, len0: int, zeroPadded: bool) returns (r: string)
    ensures r == Converted(n, len0, zeroPadded)
  {
    var local := new char[10](_ => '\0');
    var len, p := len0, 8;
    if n > 0 {
      len, p := PutDigits(local, n, len0, zeroPadded);
    } else {
      p := p - 1;
      local[p] := '0';
      len := len - 1;
      assert local[p..8] == "0";
    }
    if zeroPadded {
      p := PutZeros(local, p, len);
    }
    r := local[p..8];
  }

  method PutDigits(local: array<char>, n0: nat, len0: int, ghost padded: bool) returns (len: int, p: nat)
    requires local.Length == 10 && n0 > 0
    modifies local
    ensures p <= 8
    ensures Digits(n0, len0, 8, padded) == (if padded then Zeros(Min(p, len)) else "") + local[p..8]
  {
    hide Digits, DigitChar;
    var n: nat := n0;
    len, p := len0, 8;
    assert Digits(n0, len0, 8, padded) + local[8..8] == Digits(n0, len0, 8, padded);
    while n > 0 && p > 0 && len > 0
      invariant p <= 8
      invariant Digits(n0, len0, 8, padded) == Digits(n, len, p, padded) + local[p..8]
      decreases p
    {
      DigitsStep(n, len, p, padded);
      Regroup(Digits(n / 10, len - 1, p - 1, padded), [DigitChar(n % 10)], local[p..8]);
      p := p - 1;
      local[p] := DigitChar(n % 10);
      assert local[p..8] == [DigitChar(n % 10)] + local[p + 1..8];
      n, len := n / 10, len - 1;
    }
    DigitsEnd(n, len, p, padded);
  }

  lemma DigitsStep(n: nat, len: int, room: nat, padded: bool)
    requires n > 0 && len > 0 && room > 0
    ensures Digits(n, len, room, padded) == Digits(n / 10, len - 1, room - 1, padded) + [DigitChar(n % 10)]
  {
  }

  lemma DigitsEnd(n: nat, len: int, room: nat, padded: bool)
    requires n == 0 || len <= 0 || room == 0
    ensures Digits(n, len, room, padded) == if padded then Zeros(Min(room, len)) else ""
  {
  }

  method PutZeros(local: array<char>, p0: nat, len0: int) returns (p: nat)
    requires local.Length == 10 && p0 <= 8
    modifies local
    ensures p <= 8 && local[p..8] == Zeros(Min(p0, len0)) + old(local[p0..8])
  {
    hide Zeros;
    p := p0;
    var len := len0;
    ghost var done: nat := 0;
    NoZeros(0, 0);
    assert "" + local[p0..8] == local[p0..8];
    while p > 0 && len > 0
      invariant p + done == p0 && (done > 0 ==> len >= 0) && len + done == len0
      invariant local[p..8] == Zeros(done) + old(local[p0..8])
      decreases p
    {
      ghost var was := local[p..8];
      p := p - 1;
      local[p] := '0';
      assert local[p + 1..8] == was;
      assert local[p..8] == "0" + was;
      ZerosFront(done);
      Regroup("0", Zeros(done), old(local[p0..8]));
      len, done := len - 1, done + 1;
    }
    NoZeros(done, Min(p0, len0));
  }

  lemma NoZeros(a: nat, b: int)
    requires a == b || (a == 0 && b <= 0)
    ensures Zeros(a) == Zeros(b) && Zeros(0) == ""
  {
  }

  lemma {:induction false} ZerosFront(k: nat)
    ensures "0" + Zeros(k) == Zeros(k + 1)
  {
    if k > 0 {
      ZerosFront(k - 1);
      assert "0" + (Zeros(k - 1) + "0") == "0" + Zeros(k - 1) + "0";
    }
  }

  /** DateTime::parseFormat: whatever its size, the buffer receives exactly the start of the rendering
      that fits; a buffer of NULs ends in NULs behind it. */
  method ParseFormat(buf: array<char>, format: string, m: Moment) returns (pos: nat)
    requires InRange(m.t)
    modifies buf
    ensures Holds(buf, pos, Render(format, m))
    ensures old(NulFrom(buf, 0)) ==> NulFrom(buf, pos)
  {
    hide Field, Converted, Holds, NulFrom, Render, Pending;
    pos := 0;
    Empty(buf);
    var i := 0;
    ghost var text := "";
    AllPending(format, m);
    while i < |format|
      invariant i <= |format|
      invariant Holds(buf, pos, text) && Pending(text, format, i, m)
      invariant old(NulFrom(buf, 0)) ==> NulFrom(buf, pos)
    {
      var c := format[i];
      StepPending(text, format, i, m);
      if c == '%' && i + 1 < |format| && format[i + 1] != '%' {
        pos := AddField(format[i + 1], m, buf, pos, text);
        text := text + Field(format[i + 1], m);
        i := i + 2;
      } else {
        if c == '%' && i + 1 < |format| { i := i + 1; }
        if pos == buf.Length {
          PendingIsPrefix(text + [c], format, i + 1, m);
          Full(buf, pos, text, Render(format, m));
          return;
        }
        pos := PutChar(c, buf, pos, text);
        text := text + [c];
        i := i + 1;
      }
    }
    NothingPending(text, format, m);
  }

  /** What is still to be rendered, behind the text so far. */
  ghost predicate Pending(text: string, format: string, i: nat, m: Moment)
    requires InRange(m.t) && i <= |format|
  {
    text + Render(format[i..], m) == Render(format, m)
  }

  lemma AllPending(format: string, m: Moment)
    requires InRange(m.t)
    ensures Pending("", format, 0, m)
  {
    hide Render;
    assert format[0..] == format;
    assert "" + Render(format, m) == Render(format, m);
  }

  lemma NothingPending(text: string, format: string, m: Moment)
    requires InRange(m.t) && Pending(text, format, |format|, m)
    ensures text == Render(format, m)
  {
    assert Render(format[|format|..], m) == "";
    assert text + "" == text;
  }

  lemma PendingIsPrefix(text: string, format: string, i: nat, m: Moment)
    requires InRange(m.t) && i <= |format| && Pending(text, format, i, m)
    ensures text <= Render(format, m)
  {
    hide Render;
  }

  /** One character of the format, or one conversion. */
  lemma StepPending(text: string, format: string, i: nat, m: Moment)
    requires InRange(m.t) && i < |format| && Pending(text, format, i, m)
    ensures var c := format[i];
      if c != '%' || i + 1 == |format| then Pending(text + [c], format, i + 1, m)
      else if format[i + 1] == '%' then Pending(text + ['%'], format, i + 2, m)
      else Pending(text + Field(format[i + 1], m), format, i + 2, m)
  {
    hide Render, Field;
    RenderAt(format, i, m);
    if format[i] != '%' || i + 1 == |format| {
      Regroup(text, [format[i]], Render(format[i + 1..], m));
    } else if format[i + 1] == '%' {
      Regroup(text, "%", Render(format[i + 2..], m));
    } else {
      Regroup(text, Field(format[i + 1], m), Render(format[i + 2..], m));
    }
  }

  lemma RenderAt(format: string, i: nat, m: Moment)
    requires InRange(m.t) && i < |format|
    ensures Render(format[i..], m)
            == if format[i] != '%' || i + 1 == |format| then [format[i]] + Render(format[i + 1..], m)
               else if format[i + 1] == '%' then "%" + Render(format[i + 2..], m)
               else Field(format[i + 1], m) + Render(format[i + 2..], m)
  {
    hide Field;
    assert format[i..][1..] == format[i + 1..];
    if i + 1 < |format| { assert format[i..][2..] == format[i + 2..]; }
  }

  lemma Empty(buf: array<char>)
    ensures Holds(buf, 0, "")
  {
  }

  /** Once the buffer is full, the rest of the text no longer matters. */
  lemma Full(buf: array<char>, pos: nat, text: string, whole: string)
    requires Holds(buf, pos, text) && pos == buf.Length && text <= whole
    ensures Holds(buf, pos, whole)
  {
  }

  method PutChar(c: char, buf: array<char>, pos0: nat, ghost text: string) returns (pos: nat)
    requires Holds(buf, pos0, text) && pos0 < buf.Length
    modifies buf
    ensures Holds(buf, pos, text + [c])
    ensures old(NulFrom(buf, pos0)) ==> NulFrom(buf, pos)
  {
    buf[pos0] := c;
    pos := pos0 + 1;
    assert buf[..pos] == buf[..pos0] + [c];
  }

  /** One conversion of parseFormat. */
  method AddField(c: char, m: Moment, buf: array<char>, pos0: nat, ghost text: string) returns (pos: nat)
    requires InRange(m.t) && Holds(buf, pos0, text)
    modifies buf
    ensures Holds(buf, pos, text + Field(c, m))
    ensures old(NulFrom(buf, pos0)) ==> NulFrom(buf, pos)
  {
    hide Converted;
    match c
    case 'd' => pos := ConvertAndAddToBuff(m.t.mday, 2, buf, pos0, true, text);
    case 'a' => pos := AddToBuff(DAYS_ABBREV[m.t.wday], buf, pos0, text);
    case 'A' => pos := AddToBuff(DAYS[m.t.wday], buf, pos0, text);
    case 'M' => pos := ConvertAndAddToBuff(m.t.mon + 1, 2, buf, pos0, true, text);
    case 'b' => pos := AddToBuff(MONTHS_ABBREV[m.t.mon], buf, pos0, text);
    case 'B' => pos := AddToBuff(MONTHS[m.t.mon], buf, pos0, text);
    case 'y' => pos := ConvertAndAddToBuff(m.t.year + 1900, 2, buf, pos0, true, text);
    case 'Y' => pos := ConvertAndAddToBuff(m.t.year + 1900, 4, buf, pos0, true, text);
    case 'h' => pos := ConvertAndAddToBuff(m.t.hour % 12, 2, buf, pos0, true, text);
    case 'H' => pos := ConvertAndAddToBuff(m.t.hour, 2, buf, pos0, true, text);
    case 'm' => pos := ConvertAndAddToBuff(m.t.min, 2, buf, pos0, true, text);
    case 's' => pos := ConvertAndAddToBuff(m.t.sec, 2, buf, pos0, true, text);
    case 'z' => pos := ConvertAndAddToBuff(m.subsecond, m.width, buf, pos0, true, text);
    case 'g' => pos := ConvertAndAddToBuff(m.subsecond, m.width, buf, pos0, true, text);
    case 'F' => pos := AddToBuff(if m.t.hour >= 12 then "PM" else "AM", buf, pos0, text);
    case _ =>
      pos := pos0;
      assert text + "" == text;
  }
}
