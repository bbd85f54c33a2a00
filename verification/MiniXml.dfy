/**
  The XML parser of miniupnpc (external/miniupnpc/minixml.c): one pass over the text that reports the beginning of
  each element, its end, and the text of elements that hold nothing else. It knows comments, attributes and CDATA, takes
  namespace prefixes off the names it reports at the beginning, and gives up where the text ends too early.
 */
module MiniXml {
  import opened Levels

  datatype Event = StartElt(name: string) | EndElt(name: string) | Data(text: string)

  // -------------------------------------------------------------------- what the loops look for

  /** IS_WHITE_SPACE. */
  predicate White(c: char) {
    c == ' ' || c == '\t' || c == '\r' || c == '\n'
  }

  predicate Visible(c: char) {
    !White(c)
  }

  /** The end of a name in a tag. */
  predicate EndsName(c: char) {
    White(c) || c == '>' || c == '/'
  }

  predicate EndsAttName(c: char) {
    c == '=' || White(c)
  }

  function Is(x: char): char -> bool {
    c => c == x
  }

  /** The text from the first such character on, unless there is none. */
  function Until(s: string, stop: char -> bool): (r: Option<string>)
    ensures r.Some? ==> 0 < |r.value| <= |s| && stop(r.value[0])
  {
    if s == "" then None else if stop(s[0]) then Some(s) else Until(s[1..], stop)
  }

  // -------------------------------------------------------------------- the parts of a tag

  datatype Named = Named(name: string, rest: string)

  /** The name at the front of a tag; a colon behind some character of it starts it over. */
  function NameFrom(s: string, read: string): (r: Option<Named>)
    ensures r.Some? ==> 0 < |r.value.rest| <= |s| && EndsName(r.value.rest[0])
    decreases |s|
  {
    if s == "" then None
    else if EndsName(s[0]) then Some(Named(read, s))
    else if |s| == 1 then None
    else if s[1] == ':' then NameFrom(s[2..], "")
    else NameFrom(s[1..], read + [s[0]])
  }

  /** One attribute, up to the character that ends its value. */
  function Attribute(s: string): (r: Option<string>)
    ensures r.Some? ==> 0 < |r.value| <= |s|
  {
    var name := Until(s, EndsAttName);
    if name.None? then None
    else
      var sign := Until(name.value, Is('='));
      if sign.None? then None
      else
        var value := Until(sign.value[1..], Visible);
        if value.None? then None
        else if value.value[0] == '\'' || value.value[0] == '"' then Until(value.value[1..], Is(value.value[0]))
        else Until(value.value, EndsName)
  }

  /** parseatt: the rest from the end of the tag on. */
  function Attributes(s: string): (r: Option<string>)
    ensures r.Some? ==> 0 < |r.value| <= |s| && (r.value[0] == '/' || r.value[0] == '>')
    decreases |s|
  {
    if s == "" then None
    else if s[0] == '/' || s[0] == '>' then Some(s)
    else if White(s[0]) then Attributes(s[1..])
    else
      var value := Attribute(s);
      if value.None? then None else Attributes(value.value[1..])
  }

  // -------------------------------------------------------------------- what follows a tag

  /** What a part of the text reports, and the text behind it unless the parser gives up. */
  datatype Part = Part(events: seq<Event>, rest: Option<string>)

  const CDATA := "<![CDATA["
  const CDATA_END := "]]>"
  const COMMENT := "<!--"
  const COMMENT_END := "-->"

  /** The end of a CDATA section; it must not end the text. */
  function RawEnd(s: string): (r: Option<string>)
    ensures r.Some? ==> CDATA_END <= r.value && |r.value| <= |s|
  {
    if CDATA_END <= s then Some(s) else if |s| <= 4 then None else RawEnd(s[1..])
  }

  function Raw(s: string): (r: Part)
    ensures r.rest.Some? ==> 0 < |r.rest.value| <= |s|
  {
    var end := RawEnd(s);
    if end.None? then Part([], None)
    else
      var data := s[..|s| - |end.value|];
      Part(if data == "" then [] else [Data(data)], Until(end.value, Is('<')))
  }

  /** The next tag, of which one more character must be there unless it follows at once. */
  function TagAhead(s: string): (r: Option<string>)
    requires s != ""
    ensures r.Some? ==> 0 < |r.value| <= |s| && r.value[0] == '<'
  {
    if s[0] == '<' then Some(s) else if |s| <= 2 then None else TagAhead(s[1..])
  }

  /** Text up to the next tag, reported if that is an end tag; `visible` is the part of it behind white space. */
  function Plain(s: string, visible: string): (r: Part)
    requires 0 < |visible| <= |s|
    ensures r.rest.Some? ==> 0 < |r.rest.value| <= |s|
  {
    var tag := TagAhead(visible);
    if tag.None? then Part([], None)
    else
      var data, t := s[..|s| - |tag.value|], tag.value;
      Part(if data != "" && |t| >= 2 && t[1] == '/' then [Data(data)] else [], tag)
  }

  /** What follows the tag that begins an element. */
  function Content(s: string): (r: Part)
    ensures r.rest.Some? ==> 0 < |r.rest.value| <= |s|
  {
    var visible := Until(s, Visible);
    if visible.None? then Part([], None)
    else if CDATA <= visible.value then Raw(visible.value[|CDATA|..])
    else Plain(s, visible.value)
  }

  /** The tag that begins an element, behind its name, and the text that follows it. */
  function StartTag(name: string, s: string): (r: Part)
    ensures r.rest.Some? ==> 0 < |r.rest.value| <= |s|
  {
    var end := Attributes(s);
    if end.None? then Part([StartElt(name)], None)
    else if end.value[0] == '/' then Part([StartElt(name)], end)
    else
      var content := Content(end.value[1..]);
      Part([StartElt(name)] + content.events, content.rest)
  }

  /** The tag that ends an element, behind its slash. */
  function EndTag(s: string): (r: Part)
    ensures r.rest.Some? ==> |r.rest.value| < |s|
  {
    var end := Until(s, Is('>'));
    if end.None? then Part([], None)
    else Part([EndElt(s[..|s| - |end.value|])], Some(end.value[1..]))
  }

  function Tag(s: string): (r: Part)
    requires s != ""
    ensures r.rest.Some? ==> |r.rest.value| < |s|
  {
    var named := NameFrom(s[1..], "");
    if named.None? then Part([], None)
    else if named.value.name != "" then StartTag(named.value.name, named.value.rest)
    else if named.value.rest[0] == '/' then EndTag(named.value.rest[1..])
    else Part([], Some(named.value.rest))
  }

  /** Behind a comment, given the text behind the first three characters of it; it must not end the text. */
  function CommentEnd(s: string): (r: Option<string>)
    requires s != ""
    ensures r.Some? ==> |r.value| < |s|
    decreases |s|
  {
    var t := s[1..];
    if |t| <= 3 then None else if COMMENT_END <= t then Some(t[3..]) else CommentEnd(t)
  }

  /** All that parseelt reports for a text. */
  function Events(s: string): seq<Event>
    decreases |s|
  {
    if |s| < 2 then []
    else if COMMENT <= s then
      var rest := CommentEnd(s[3..]);
      if rest.None? then [] else Events(rest.value)
    else if s[0] == '<' && s[1] != '?' then
      var tag := Tag(s);
      tag.events + if tag.rest.None? then [] else Events(tag.rest.value)
    else Events(s[1..])
  }

  // -------------------------------------------------------------------- the parser

  lemma Drop(text: string, i: nat, k: nat)
    requires i + k <= |text|
    ensures text[i..][k..] == text[i + k..] && |text[i..]| == |text| - i
    ensures i < |text| ==> text[i..][0] == text[i]
  {
  }

  /** The text between two places. */
  lemma Between(text: string, i: nat, j: nat)
    requires i <= j <= |text|
    ensures text[i..][..|text[i..]| - |text[j..]|] == text[i..j]
  {
  }

  lemma NameStep(text: string, i: nat, read: string)
    requires i <= |text|
    ensures NameFrom(text[i..], read) ==
      if i == |text| then None
      else if EndsName(text[i]) then Some(Named(read, text[i..]))
      else if i + 1 == |text| then None
      else if text[i + 1] == ':' then NameFrom(text[i + 2..], "")
      else NameFrom(text[i + 1..], read + [text[i]])
  {
    if i + 1 < |text| {
      assert text[i..][2..] == text[i + 2..] && text[i..][1..] == text[i + 1..];
    }
  }

  lemma RawStep(text: string, i: nat)
    requires i <= |text|
    ensures RawEnd(text[i..]) ==
      if CDATA_END <= text[i..] then Some(text[i..]) else if i + 4 >= |text| then None else RawEnd(text[i + 1..])
  {
    if i < |text| {
      assert text[i..][1..] == text[i + 1..];
    }
  }

  lemma TagStep(text: string, i: nat)
    requires i < |text|
    ensures TagAhead(text[i..]) ==
      if text[i] == '<' then Some(text[i..]) else if i + 2 >= |text| then None else TagAhead(text[i + 1..])
  {
    assert text[i..][1..] == text[i + 1..];
  }

  lemma CommentStep(text: string, i: nat)
    requires i < |text|
    ensures CommentEnd(text[i..]) ==
      if i + 4 >= |text| then None
      else if COMMENT_END <= text[i + 1..] then Some(text[i + 4..])
      else CommentEnd(text[i + 1..])
  {
    assert text[i..][1..] == text[i + 1..];
    if i + 4 <= |text| {
      assert text[i + 1..][3..] == text[i + 4..];
    }
  }

  class XmlParser {
    const text: string
    var at: nat
    var events: seq<Event>

    constructor (text: string)
      ensures this.text == text && at == 0 && events == []
    {
      this.text := text;
      at, events := 0, [];
    }

    /** The loops that go on to some character. */
    method SkipTo(stop: char -> bool) returns (ended: bool)
      requires at <= |text|
      modifies this`at
      ensures old(at) <= at <= |text| && (!ended ==> at < |text|)
      ensures Until(text[old(at)..], stop) == if ended then None else Some(text[at..])
    {
      while at < |text| && !stop(text[at])
        invariant old(at) <= at <= |text| && Until(text[at..], stop) == Until(text[old(at)..], stop)
      {
        Drop(text, at, 1);
        at := at + 1;
      }
      ended := at == |text|;
      Drop(text, at, 0);
    }

    /** The name of an element; ends where the text does. */
    method ReadName() returns (name: string, ended: bool)
      requires at <= |text|
      modifies this`at
      ensures old(at) <= at <= |text| && (!ended ==> at < |text|)
      ensures NameFrom(text[old(at)..], "") == if ended then None else Some(Named(name, text[at..]))
    {
      hide NameFrom;
      var from := at;
      name, ended := "", true;
      assert text[from..at] == "";
      while at < |text| && !EndsName(text[at])
        invariant old(at) <= from <= at <= |text|
        invariant NameFrom(text[at..], text[from..at]) == NameFrom(text[old(at)..], "")
      {
        NameStep(text, at, text[from..at]);
        assert text[from..at + 1] == text[from..at] + [text[at]];
        at := at + 1;
        if at == |text| {
          return;
        }
        if text[at] == ':' {
          at := at + 1;
          from := at;
          assert text[from..at] == "";
        }
      }
      NameStep(text, at, text[from..at]);
      name, ended := text[from..at], at == |text|;
    }

    /** One attribute, in parseatt. */
    method ReadAttribute() returns (ended: bool)
      requires at <= |text|
      modifies this`at
      ensures old(at) <= at <= |text| && (!ended ==> at < |text|)
      ensures Attribute(text[old(at)..]) == if ended then None else Some(text[at..])
    {
      hide Until;
      ended := SkipTo(EndsAttName);
      if ended { return; }
      ended := SkipTo(Is('='));
      if ended { return; }
      Drop(text, at, 1);
      at := at + 1;
      ended := SkipTo(Visible);
      if ended { return; }
      Drop(text, at, 1);
      var sep := text[at];
      if sep == '\'' || sep == '"' {
        at := at + 1;
        ended := SkipTo(Is(sep));
      } else {
        ended := SkipTo(EndsName);
      }
    }

    /** parseatt. */
    method ParseAtt() returns (ended: bool)
      requires at <= |text|
      modifies this`at
      ensures old(at) <= at <= |text| && (!ended ==> at < |text|)
      ensures Attributes(text[old(at)..]) == if ended then None else Some(text[at..])
    {
      hide Attribute, Until;
      while at < |text|
        invariant old(at) <= at <= |text| && Attributes(text[at..]) == Attributes(text[old(at)..])
      {
        Drop(text, at, 1);
        if text[at] == '/' || text[at] == '>' {
          return false;
        }
        if !White(text[at]) {
          ended := ReadAttribute();
          if ended { return; }
          Drop(text, at, 1);
        }
        at := at + 1;
      }
      ended := true;
      Drop(text, at, 0);
    }

    /** A CDATA section, from its text on. */
    method ReadRaw() returns (ended: bool)
      requires at <= |text|
      modifies this`at, this`events
      ensures old(at) <= at <= |text| && (!ended ==> at < |text|)
      ensures var part := Raw(text[old(at)..]);
        events == old(events) + part.events && part.rest == if ended then None else Some(text[at..])
    {
      hide Until, RawEnd;
      var from := at;
      while !(CDATA_END <= text[at..])
        invariant from <= at <= |text| && RawEnd(text[at..]) == RawEnd(text[from..]) && events == old(events)
        decreases |text| - at
      {
        RawStep(text, at);
        if at + 4 >= |text| {
          return true;
        }
        at := at + 1;
      }
      RawStep(text, at);
      Between(text, from, at);
      if at > from {
        events := events + [Data(text[from..at])];
      }
      ended := SkipTo(Is('<'));
    }

    /** What follows the tag that begins an element, in parseelt. */
    method ReadContent() returns (ended: bool)
      requires at <= |text|
      modifies this`at, this`events
      ensures old(at) <= at <= |text| && (!ended ==> at < |text|)
      ensures var part := Content(text[old(at)..]);
        events == old(events) + part.events && part.rest == if ended then None else Some(text[at..])
    {
      hide Until, Raw, TagAhead;
      var from := at;
      ended := SkipTo(Visible);
      if ended { return; }
      ghost var visible := text[at..];
      if CDATA <= text[at..] {
        Drop(text, at, |CDATA|);
        at := at + |CDATA|;
        ended := ReadRaw();
      } else {
        while text[at] != '<'
          invariant from <= at < |text| && TagAhead(text[at..]) == TagAhead(visible) && events == old(events)
          decreases |text| - at
        {
          TagStep(text, at);
          if at + 2 >= |text| {
            return true;
          }
          at := at + 1;
        }
        TagStep(text, at);
        Between(text, from, at);
        if at > from && at + 1 < |text| && text[at + 1] == '/' {
          events := events + [Data(text[from..at])];
        }
      }
    }

    /** The tag that begins an element, behind its name, in parseelt. */
    method ReadStart(name: string) returns (ended: bool)
      requires at <= |text|
      modifies this`at, this`events
      ensures old(at) <= at <= |text|
      ensures var part := StartTag(name, text[old(at)..]);
        events == old(events) + part.events && part.rest == if ended then None else Some(text[at..])
    {
      hide Attributes, Content;
      events := events + [StartElt(name)];
      ended := ParseAtt();
      if ended { return; }
      Drop(text, at, 1);
      if text[at] != '/' {
        at := at + 1;
        ended := ReadContent();
      }
    }

    /** The tag that ends an element, behind its slash, in parseelt. */
    method ReadEnd() returns (ended: bool)
      requires at <= |text|
      modifies this`at, this`events
      ensures old(at) <= at <= |text|
      ensures var part := EndTag(text[old(at)..]);
        events == old(events) + part.events && part.rest == if ended then None else Some(text[at..])
    {
      hide Until;
      var from := at;
      ended := SkipTo(Is('>'));
      if ended { return; }
      Drop(text, at, 1);
      Between(text, from, at);
      events := events + [EndElt(text[from..at])];
      at := at + 1;
    }

    /** A tag, in parseelt. */
    method ReadTag() returns (ended: bool)
      requires at < |text|
      modifies this`at, this`events
      ensures old(at) < at <= |text|
      ensures var part := Tag(text[old(at)..]);
        events == old(events) + part.events && part.rest == if ended then None else Some(text[at..])
    {
      hide NameFrom, StartTag, EndTag;
      Drop(text, at, 1);
      at := at + 1;
      var name;
      name, ended := ReadName();
      if ended { return; }
      Drop(text, at, 1);
      if name != "" {
        ended := ReadStart(name);
      } else if text[at] == '/' {
        at := at + 1;
        ended := ReadEnd();
      }
    }

    /** A comment, in parseelt. */
    method SkipComment() returns (ended: bool)
      requires at + 4 <= |text|
      modifies this`at
      ensures old(at) < at <= |text|
      ensures CommentEnd(text[old(at)..][3..]) == if ended then None else Some(text[at..])
    {
      hide CommentEnd;
      Drop(text, at, 3);
      at := at + 3;
      while true
        invariant old(at) < at < |text| && CommentEnd(text[at..]) == CommentEnd(text[old(at)..][3..])
        decreases |text| - at
      {
        CommentStep(text, at);
        at := at + 1;
        if at + 3 >= |text| {
          return true;
        }
        if COMMENT_END <= text[at..] {
          at := at + 3;
          return false;
        }
      }
    }

    /** parseelt, from the start of the text. */
    method ParseXml()
      modifies this
      ensures events == Events(text)
    {
      hide Tag, CommentEnd;
      at, events := 0, [];
      assert text[0..] == text;
      while at + 1 < |text|
        invariant at <= |text| && events + Events(text[at..]) == Events(text)
        decreases |text| - at
      {
        var ended;
        Drop(text, at, 1);
        if COMMENT <= text[at..] {
          ended := SkipComment();
          if ended { return; }
        } else if text[at] == '<' && text[at + 1] != '?' {
          ended := ReadTag();
          if ended { return; }
        } else {
          at := at + 1;
        }
      }
    }
  }
}
