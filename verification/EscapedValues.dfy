/**
  Values with escaped quotes in a configuration line, as the loop of parseLine in
  external/easylogging++/easylogging++.cc reads them. Behind each quote it takes for escaped it skips one character
  too many, so that it can miss the next quote.
 */
module EscapedValues {
  import opened Levels
  import opened Sequences
  import opened Strings
  import opened ConfigParser

  const ESCAPE := "\\\""

  /** The parts of a value between its escaped quotes. */
  predicate IsParts(parts: seq<string>) {
    && parts != []
    && (forall i :: 0 <= i < |parts| ==> '"' !in parts[i])
    && (parts[|parts| - 1] == "" || parts[|parts| - 1][|parts[|parts| - 1]| - 1] != '\\')
  }

  /** The value that is meant. */
  function Meant(parts: seq<string>): string
    requires parts != []
  {
    if |parts| == 1 then parts[0] else parts[0] + (QUOTE + Meant(parts[1..]))
  }

  /** The value as it is written, up to the quote that closes it. */
  function Tail(parts: seq<string>): string
    requires parts != []
  {
    if |parts| == 1 then parts[0] + QUOTE else parts[0] + (ESCAPE + Tail(parts[1..]))
  }

  function Written(parts: seq<string>): string
    requires parts != []
  {
    QUOTE + Tail(parts)
  }

  // -------------------------------------------------------------------- what the loop makes of them

  /** What is left of the text, and whether the closing quote was found. */
  datatype Scan = Scan(text: string, closed: bool)

  function Before(front: string, s: Scan): Scan {
    s.(text := front + s.text)
  }

  /** From the start of a part on. */
  function FromStart(parts: seq<string>): Scan
    requires parts != []
    decreases |parts|, 0
  {
    if |parts| == 1 then Scan(parts[0] + QUOTE, true)
    else Before(parts[0] + QUOTE, FromThird(parts[1..]))
  }

  /** From the third character on, right behind an escaped quote. */
  function FromThird(parts: seq<string>): Scan
    requires parts != []
    decreases |parts|, 1
  {
    if |parts| == 1 && |parts[0]| < 2 then Scan(parts[0] + QUOTE, false)
    else if |parts| > 1 && parts[0] == "" then Before(ESCAPE, FromStart(parts[1..]))
    else FromStart(parts)
  }

  /** The value that parseLine takes: its quotes go only if the loop finds the closing one, and something before it. */
  function Taken(parts: seq<string>): string
    requires parts != []
  {
    var s := FromStart(parts);
    if s.closed && parts != [""] && s.text != "" then s.text[..|s.text| - 1] else QUOTE + s.text
  }

  /** The loop that erases backslashes, from a search at some place on. */
  function EraseFrom(value: string, from: nat): (string, Option<nat>)
    requires from > 0
  {
    EraseEscapes(value, FindQuote(value, from))
  }

  /** What the loop leaves of the parts behind a text. */
  function Left(pre: string, s: Scan): (string, Option<nat>)
    requires s.text != ""
  {
    (pre + s.text, if s.closed then Some(|pre + s.text| - 1) else None)
  }

  lemma PartsTail(parts: seq<string>)
    requires IsParts(parts) && |parts| > 1
    ensures IsParts(parts[1..]) && '"' !in parts[0]
  {
    forall i | 0 <= i < |parts[1..]| ensures '"' !in parts[1..][i] {
      assert parts[1..][i] == parts[i + 1];
    }
  }

  /** The first quote behind a text without one. */
  lemma QuoteBehind(pre: string, part: string, rest: string, from: nat)
    requires '"' !in part && |pre| <= from <= |pre| + |part|
    ensures FindQuote(pre + part + QUOTE + rest, from) == Some(|pre| + |part|)
  {
    hide FindQuote;
    var value := pre + part + QUOTE + rest;
    assert value[|pre| + |part|] == '"';
    assert forall p :: |pre| <= p < |pre| + |part| ==> value[p] == part[p - |pre|] && value[p] in part;
    FindQuoteIs(value, from, Some(|pre| + |part|));
  }

  /** A search that hits the escaped quote behind a part. */
  lemma EraseHere(pre: string, part: string, rest: string, from: nat)
    requires '"' !in part && |pre| <= from <= |pre| + |part| + 1 && from > 0
    ensures EraseFrom(pre + (part + (ESCAPE + rest)), from)
            == EraseFrom(pre + (part + QUOTE) + rest, |pre + (part + QUOTE)| + 2)
  {
    hide FindQuote;
    var value, front := pre + (part + (ESCAPE + rest)), part + "\\";
    assert value == pre + front + QUOTE + rest;
    QuoteBehind(pre, front, rest, from);
    var q := |pre| + |part| + 1;
    assert value[q - 1] == '\\';
    assert value[..q - 1] + value[q..] == pre + (part + QUOTE) + rest;
  }

  /** A search that hits the closing quote. */
  lemma EndHere(pre: string, part: string, from: nat)
    requires '"' !in part && |pre| <= from <= |pre| + |part| && pre != "" && from > 0
    requires if part == "" then pre[|pre| - 1] != '\\' else part[|part| - 1] != '\\'
    ensures EraseFrom(pre + (part + QUOTE), from) == (pre + (part + QUOTE), Some(|pre| + |part|))
  {
    hide FindQuote;
    var value := pre + (part + QUOTE);
    assert value == pre + part + QUOTE + "";
    QuoteBehind(pre, part, "", from);
  }

  lemma {:induction false} LoopFromStart(pre: string, parts: seq<string>)
    requires IsParts(parts) && pre != "" && pre[|pre| - 1] != '\\'
    ensures FromStart(parts).text != ""
    ensures EraseFrom(pre + Tail(parts), |pre|) == Left(pre, FromStart(parts))
    decreases |parts|, 1
  {
    hide EraseFrom;
    var part := parts[0];
    if |parts| == 1 {
      EndHere(pre, part, |pre|);
    } else {
      EscapeThenThird(pre, parts, |pre|);
    }
  }

  lemma {:induction false} EscapeThenThird(pre: string, parts: seq<string>, from: nat)
    requires IsParts(parts) && |parts| > 1 && pre != "" && |pre| <= from <= |pre| + |parts[0]| + 1
    ensures FromThird(parts[1..]).text != ""
    ensures EraseFrom(pre + Tail(parts), from) == Left(pre, Before(parts[0] + QUOTE, FromThird(parts[1..])))
    decreases |parts|, 0
  {
    hide EraseFrom, FromThird;
    var part, front := parts[0], pre + (parts[0] + QUOTE);
    PartsTail(parts);
    EraseHere(pre, part, Tail(parts[1..]), from);
    LoopFromThird(front, parts[1..]);
    Regroup(pre, part + QUOTE, FromThird(parts[1..]).text);
  }

  lemma {:induction false} LoopFromThird(pre: string, parts: seq<string>)
    requires IsParts(parts) && pre != "" && pre[|pre| - 1] != '\\'
    ensures FromThird(parts).text != ""
    ensures EraseFrom(pre + Tail(parts), |pre| + 2) == Left(pre, FromThird(parts))
    decreases |parts|, 1
  {
    assert parts != [];
    hide EraseFrom, FromStart, FromThird, Tail, IsParts;
    if |parts| == 1 {
      LastThird(pre, parts);
      return;
    }
    ThirdIs(parts);
    if parts[0] == "" {
      PartsTail(parts);
      LoopFromStart(pre + ESCAPE, parts[1..]);
      EmptyPart(parts);
      EscapeStays(pre, Tail(parts[1..]), FromStart(parts[1..]));
    } else {
      EscapeThenThird(pre, parts, |pre| + 2);
    }
  }

  lemma ThirdIs(parts: seq<string>)
    requires |parts| > 1
    ensures FromThird(parts) ==
            if parts[0] == "" then Before(ESCAPE, FromStart(parts[1..]))
            else Before(parts[0] + QUOTE, FromThird(parts[1..]))
  {
  }

  lemma LastThird(pre: string, parts: seq<string>)
    requires IsParts(parts) && |parts| == 1 && pre != ""
    ensures FromThird(parts).text != ""
    ensures EraseFrom(pre + Tail(parts), |pre| + 2) == Left(pre, FromThird(parts))
  {
    hide EraseFrom;
    var part := parts[0];
    if |part| < 2 {
      NoQuoteFrom(pre, part);
    } else {
      EndHere(pre, part, |pre| + 2);
    }
  }

  lemma EscapeStays(pre: string, tail: string, s: Scan)
    requires s.text != "" && EraseFrom(pre + ESCAPE + tail, |pre| + 2) == Left(pre + ESCAPE, s)
    ensures EraseFrom(pre + (ESCAPE + tail), |pre| + 2) == Left(pre, Before(ESCAPE, s))
  {
    hide EraseFrom;
    Regroup(pre, ESCAPE, tail);
    Regroup(pre, ESCAPE, s.text);
  }

  lemma EmptyPart(parts: seq<string>)
    requires |parts| > 1 && parts[0] == ""
    ensures Tail(parts) == ESCAPE + Tail(parts[1..])
  {
    var rest := ESCAPE + Tail(parts[1..]);
    assert "" + rest == rest;
  }

  lemma OnePart(parts: seq<string>)
    requires |parts| == 1
    ensures FromStart(parts) == Scan(parts[0] + QUOTE, true)
  {
  }

  lemma MoreParts(parts: seq<string>)
    requires |parts| > 1
    ensures FromStart(parts) == Before(parts[0] + QUOTE, FromThird(parts[1..]))
  {
  }

  lemma NoQuoteFrom(pre: string, part: string)
    requires |part| < 2
    ensures EraseFrom(pre + (part + QUOTE), |pre| + 2) == (pre + (part + QUOTE), None)
  {
    hide FindQuote;
    FindQuoteIs(pre + (part + QUOTE), |pre| + 2, None);
  }

  /** What parseLine makes of any value with escaped quotes. */
  lemma ValueIsTaken(parts: seq<string>)
    requires IsParts(parts)
    ensures ValueOf(Written(parts)) == Taken(parts)
  {
    hide FindQuote, Trim, EraseEscapes, ValueOf, FromStart;
    var v, s := Written(parts), FromStart(parts);
    TailEnds(parts);
    VisibleEnds(v);
    FindQuoteIs(v, 0, Some(0));
    LoopFromStart(QUOTE, parts);
    assert EraseFrom(v, 1) == Left(QUOTE, s);
    NothingWithin(parts);
    ValueFrom(v, QUOTE + s.text, Left(QUOTE, s).1);
    if s.closed {
      assert (QUOTE + s.text)[1..|s.text|] == s.text[..|s.text| - 1];
    }
  }

  lemma {:induction false} TailEnds(parts: seq<string>)
    requires parts != []
    ensures Tail(parts) != "" && Tail(parts)[|Tail(parts)| - 1] == '"'
  {
    if |parts| > 1 {
      TailEnds(parts[1..]);
    }
  }

  /** Nothing stands between the quotes only where nothing was written. */
  lemma {:induction false} NothingWithin(parts: seq<string>)
    requires parts != []
    ensures |FromStart(parts).text| == 1 <==> parts == [""]
    ensures FromStart(parts).text != "" && FromThird(parts).text != ""
  {
    if |parts| > 1 {
      NothingWithin(parts[1..]);
    }
  }

  // -------------------------------------------------------------------- when that is what is meant

  /** Two characters behind the last escaped quote, and one behind each other that follows the first. */
  predicate Spaced(parts: seq<string>)
    requires parts != []
  {
    |parts[|parts| - 1]| >= 2 && forall i :: 0 <= i < |parts| - 1 ==> parts[i] != ""
  }

  lemma SpacedTail(parts: seq<string>)
    requires |parts| > 1
    ensures Spaced(parts) <==> parts[0] != "" && Spaced(parts[1..])
  {
    if Spaced(parts[1..]) && parts[0] != "" {
      forall i | 0 <= i < |parts| - 1 ensures parts[i] != "" {
        if i > 0 { assert parts[1..][i - 1] == parts[i]; }
      }
    }
  }

  /** Nothing is lost but backslashes, and they are all lost only if the parts are spaced. */
  lemma {:induction false} ThirdExactly(parts: seq<string>)
    requires parts != []
    ensures |FromThird(parts).text| > |Meant(parts)| && |FromStart(parts).text| > |Meant(parts)|
    ensures FromThird(parts) == Scan(Meant(parts) + QUOTE, true) <==> Spaced(parts)
  {
    var part := parts[0];
    if |parts| > 1 {
      ThirdExactly(parts[1..]);
      SpacedTail(parts);
      var rest := FromThird(parts[1..]);
      if part == "" {
        assert |FromThird(parts).text| > |Meant(parts)| + 1;
      } else {
        assert FromThird(parts) == Before(part + QUOTE, rest);
        SamePrefix(part + QUOTE, rest.text, Meant(parts[1..]) + QUOTE);
        assert part + QUOTE + (Meant(parts[1..]) + QUOTE) == Meant(parts) + QUOTE;
      }
    }
  }

  lemma SamePrefix(a: string, x: string, y: string)
    ensures a + x == a + y <==> x == y
  {
    if a + x == a + y {
      assert x == (a + x)[|a|..] && y == (a + y)[|a|..];
    }
  }

  /**
    A value is taken as it is meant if and only if it has no escaped quote and is not empty, or at least two characters
    follow its last escaped quote and at least one each that is followed by another.
   */
  lemma EscapedQuotesExactly(parts: seq<string>)
    requires IsParts(parts)
    ensures ValueOf(Written(parts)) == Meant(parts) <==>
            if |parts| == 1 then parts[0] != "" else Spaced(parts[1..])
  {
    assert parts != [];
    hide ValueOf, FromThird, FromStart, Meant, Spaced, Written, IsParts;
    ValueIsTaken(parts);
    if |parts| == 1 {
      OnePart(parts);
      MeantOne(parts);
    } else {
      TakenExactly(parts);
    }
  }

  lemma TakenExactly(parts: seq<string>)
    requires |parts| > 1
    ensures Taken(parts) == Meant(parts) <==> Spaced(parts[1..])
  {
    hide FromThird, FromStart, Meant, Spaced;
    var rest, front, meant := FromThird(parts[1..]), parts[0] + QUOTE, Meant(parts[1..]);
    MoreParts(parts);
    MeantMore(parts);
    ThirdExactly(parts[1..]);
    if rest.closed {
      ClosedEnds(parts[1..]);
      EndsEqual(front, rest.text, meant);
    }
  }

  lemma EndsEqual(front: string, text: string, meant: string)
    requires text != "" && text == text[..|text| - 1] + QUOTE
    ensures (front + text)[..|front + text| - 1] == front + meant <==> text == meant + QUOTE
  {
    var within := text[..|text| - 1];
    assert (front + text)[..|front + text| - 1] == front + within;
    SamePrefix(front, within, meant);
    if text == meant + QUOTE {
      assert within == meant;
    }
  }

  lemma MeantOne(parts: seq<string>)
    requires |parts| == 1
    ensures Meant(parts) == parts[0]
  {
  }

  lemma MeantMore(parts: seq<string>)
    requires |parts| > 1
    ensures Meant(parts) == (parts[0] + QUOTE) + Meant(parts[1..])
  {
  }

  lemma {:induction false} ClosedEnds(parts: seq<string>)
    requires parts != []
    ensures FromThird(parts).text != "" && FromStart(parts).text != ""
    ensures var s := FromThird(parts); s.text == s.text[..|s.text| - 1] + QUOTE
    ensures var s := FromStart(parts); s.text == s.text[..|s.text| - 1] + QUOTE
  {
    if |parts| > 1 {
      ClosedEnds(parts[1..]);
    }
  }

  /** The second of two escaped quotes in a row keeps its backslash. */
  lemma SecondEscapeStays()
    ensures ValueOf("\"a\\\"\\\"bc\"") == "a\"\\\"bc"
  {
    hide ValueOf;
    var parts := ["a", "", "bc"];
    assert parts[1..] == ["", "bc"] && parts[1..][1..] == ["bc"];
    assert Tail(["bc"]) == "bc\"" && Tail(["", "bc"]) == "\\\"bc\"";
    assert Written(parts) == "\"a\\\"\\\"bc\"";
    assert FromStart(["bc"]) == Scan("bc\"", true);
    assert FromThird(["", "bc"]) == Scan("\\\"bc\"", true);
    assert FromStart(parts) == Scan("a\"\\\"bc\"", true);
    ValueIsTaken(parts);
  }
}
