/**
  XML documents as they are written, and what the parser of external/miniupnpc/minixml.c reports for them. Elements have
  attributes, perhaps a namespace prefix, and a text, a CDATA section or further elements; comments and other text may
  stand between elements. Two things a reader might not expect are as in the source: an element written as one tag has
  no end, and the name reported at the end of an element keeps its prefix.
 */
module XmlTrees {
  import opened Levels
  import opened Sequences
  import opened MiniXml

  // -------------------------------------------------------------------- documents

  /** An attribute with a value in quotes, or without and with white space behind it. */
  datatype Att =
    | Quoted(space: string, name: string, quote: char, value: string)
    | Bare(space: string, name: string, value: string, end: char)

  datatype Node =
    | Remark(text: string)
    | Element(prefix: string, name: string, atts: seq<Att>, space: string, body: Body)

  /** What stands in an element: nothing, in one tag; a text; a CDATA section; or nodes. */
  datatype Body =
    | Closed
    | Text(text: string)
    | RawText(lead: string, text: string, tail: string)
    | Nodes(lead: string, nodes: Forest)

  /** Nodes, each with some text behind it. */
  datatype Forest = Nil | More(node: Node, gap: string, rest: Forest)

  datatype Document = Document(prolog: Option<string>, lead: string, nodes: Forest)

  function PrintAtt(a: Att): string {
    a.space + (a.name + ("=" + if a.Quoted? then [a.quote] + (a.value + [a.quote]) else a.value + [a.end]))
  }

  function PrintAtts(atts: seq<Att>): string {
    if atts == [] then "" else PrintAtt(atts[0]) + PrintAtts(atts[1..])
  }

  /** The name with its prefix. */
  function Qualified(prefix: string, name: string): string {
    if prefix == "" then name else prefix + (":" + name)
  }

  function CloseTag(name: string): string {
    "</" + (name + ">")
  }

  function Print(n: Node): string
    decreases n
  {
    match n
    case Remark(text) => COMMENT + (text + COMMENT_END)
    case Element(prefix, name, atts, space, body) =>
      "<" + (Qualified(prefix, name) + (PrintAtts(atts) + (space + PrintBody(body, Qualified(prefix, name)))))
  }

  function PrintBody(body: Body, name: string): string
    decreases body
  {
    match body
    case Closed => "/>"
    case Text(text) => ">" + (text + CloseTag(name))
    case RawText(lead, text, tail) => ">" + (lead + (CDATA + (text + (CDATA_END + (tail + CloseTag(name))))))
    case Nodes(lead, nodes) => ">" + (lead + (PrintForest(nodes) + CloseTag(name)))
  }

  function PrintForest(f: Forest): string
    decreases f
  {
    match f
    case Nil => ""
    case More(node, gap, rest) => Print(node) + (gap + PrintForest(rest))
  }

  function PrintDocument(d: Document): string {
    (if d.prolog.Some? then "<?" + d.prolog.value else "") + (d.lead + PrintForest(d.nodes))
  }

  // -------------------------------------------------------------------- which documents

  predicate AllWhite(s: string) {
    forall i :: 0 <= i < |s| ==> White(s[i])
  }

  predicate IsName(s: string) {
    s != "" && forall i :: 0 <= i < |s| ==> !EndsName(s[i]) && s[i] != ':'
  }

  predicate IsBareValue(s: string) {
    s != "" && s[0] != '\'' && s[0] != '"' && forall i :: 0 <= i < |s| ==> !EndsName(s[i])
  }

  predicate ValidAtt(a: Att) {
    && a.space != "" && AllWhite(a.space)
    && a.name != "" && a.name[0] != '/' && a.name[0] != '>'
    && (forall i :: 0 <= i < |a.name| ==> !EndsAttName(a.name[i]))
    && match a
       case Quoted(_, _, quote, value) => (quote == '\'' || quote == '"') && quote !in value
       case Bare(_, _, value, end) => IsBareValue(value) && White(end)
  }

  /** No place at which one text stands in another. */
  predicate Lacks(s: string, t: string) {
    forall i :: 0 <= i <= |s| ==> !(t <= s[i..])
  }

  predicate Valid(n: Node)
    decreases n
  {
    match n
    case Remark(text) => Lacks(text, COMMENT_END)
    case Element(prefix, name, atts, space, body) =>
      && (prefix == "" || IsName(prefix)) && IsName(name)
      && Qualified(prefix, name)[0] != '?' && Qualified(prefix, name)[0] != '!'
      && (forall i :: 0 <= i < |atts| ==> ValidAtt(atts[i])) && AllWhite(space)
      && ValidBody(body)
  }

  predicate ValidBody(body: Body)
    decreases body
  {
    match body
    case Closed => true
    case Text(text) => '<' !in text
    case RawText(lead, text, tail) => AllWhite(lead) && Lacks(text, CDATA_END) && '<' !in tail
    case Nodes(lead, nodes) => '<' !in lead && nodes.More? && ValidForest(nodes)
  }

  predicate ValidForest(f: Forest)
    decreases f
  {
    f.More? ==> Valid(f.node) && '<' !in f.gap && ValidForest(f.rest)
  }

  predicate ValidDocument(d: Document) {
    && (d.prolog.Some? ==> '<' !in d.prolog.value)
    && '<' !in d.lead && ValidForest(d.nodes)
  }

  // -------------------------------------------------------------------- what they report

  function TextEvents(text: string): seq<Event> {
    if text == "" then [] else [Data(text)]
  }

  function NodeEvents(n: Node): seq<Event>
    decreases n
  {
    match n
    case Remark(_) => []
    case Element(prefix, name, _, _, body) => [StartElt(name)] + BodyEvents(body, Qualified(prefix, name))
  }

  function BodyEvents(body: Body, name: string): seq<Event>
    decreases body
  {
    match body
    case Closed => []
    case Text(text) => TextEvents(text) + [EndElt(name)]
    case RawText(_, text, _) => TextEvents(text) + [EndElt(name)]
    case Nodes(_, nodes) => ForestEvents(nodes) + [EndElt(name)]
  }

  function ForestEvents(f: Forest): seq<Event>
    decreases f
  {
    match f
    case Nil => []
    case More(node, _, rest) => NodeEvents(node) + ForestEvents(rest)
  }

  // -------------------------------------------------------------------- names and attributes

  lemma {:induction false} UntilPast(w: string, rest: string, stop: char -> bool)
    requires rest != "" && stop(rest[0]) && forall i :: 0 <= i < |w| ==> !stop(w[i])
    ensures Until(w + rest, stop) == Some(rest)
  {
    if w == "" {
      assert w + rest == rest;
    } else {
      assert (w + rest)[1..] == w[1..] + rest;
      UntilPast(w[1..], rest, stop);
    }
  }

  lemma {:induction false} NamePast(name: string, rest: string, read: string)
    requires IsName(name) && rest != "" && EndsName(rest[0])
    ensures NameFrom(name + rest, read) == Some(Named(read + name, rest))
    decreases |name|
  {
    var s := name + rest;
    assert s[1..] == name[1..] + rest;
    if |name| == 1 {
      assert s[1] == rest[0] && name[1..] + rest == rest && read + [s[0]] == read + name;
    } else {
      assert s[1] == name[1];
      NamePast(name[1..], rest, read + [s[0]]);
      assert read + [s[0]] + name[1..] == read + name;
    }
  }

  lemma {:induction false} PrefixPast(prefix: string, rest: string, read: string)
    requires IsName(prefix)
    ensures NameFrom(prefix + (":" + rest), read) == NameFrom(rest, "")
    decreases |prefix|
  {
    var s := prefix + (":" + rest);
    if |prefix| == 1 {
      assert s[2..] == rest;
    } else {
      assert s[1..] == prefix[1..] + (":" + rest) && s[1] == prefix[1];
      PrefixPast(prefix[1..], rest, read + [s[0]]);
    }
  }

  lemma QualifiedPast(prefix: string, name: string, rest: string)
    requires (prefix == "" || IsName(prefix)) && IsName(name) && rest != "" && EndsName(rest[0])
    ensures NameFrom(Qualified(prefix, name) + rest, "") == Some(Named(name, rest))
  {
    hide NameFrom, IsName;
    NamePast(name, rest, "");
    assert "" + name == name;
    if prefix != "" {
      PrefixPast(prefix, name + rest, "");
      assert prefix + (":" + name) + rest == prefix + (":" + (name + rest));
    }
  }

  lemma {:induction false} WhitePast(space: string, rest: string)
    requires AllWhite(space)
    ensures Attributes(space + rest) == Attributes(rest)
    decreases |space|
  {
    hide Attribute;
    if space == "" {
      assert space + rest == rest;
    } else {
      assert (space + rest)[1..] == space[1..] + rest;
      WhitePast(space[1..], rest);
    }
  }

  lemma AttributePast(a: Att, rest: string)
    requires a.Quoted? && ValidAtt(a)
    ensures Attribute(a.name + ("=" + ([a.quote] + (a.value + [a.quote] + rest)))) == Some([a.quote] + rest)
  {
    hide Until;
    var quoted := [a.quote] + (a.value + [a.quote] + rest);
    UntilPast(a.name, "=" + quoted, EndsAttName);
    UntilHere("=" + quoted, Is('='));
    assert ("=" + quoted)[1..] == quoted;
    UntilHere(quoted, Visible);
    ValuePast(a, rest);
  }

  /** A value without quotes ends at white space or at the end of its tag. */
  lemma BarePast(name: string, value: string, end: char, rest: string)
    requires name != "" && forall i :: 0 <= i < |name| ==> !EndsAttName(name[i])
    requires IsBareValue(value) && EndsName(end)
    ensures Attribute(name + ("=" + (value + ([end] + rest)))) == Some([end] + rest)
  {
    hide Until;
    var bare := value + ([end] + rest);
    UntilPast(name, "=" + bare, EndsAttName);
    UntilHere("=" + bare, Is('='));
    assert ("=" + bare)[1..] == bare && bare[0] == value[0];
    UntilHere(bare, Visible);
    UntilPast(value, [end] + rest, EndsName);
  }

  /** The character that ends a value without quotes is passed over, also where it ends the tag. */
  lemma BareSwallows(name: string, value: string, end: char, rest: string)
    requires name != "" && name[0] != '/' && name[0] != '>' && forall i :: 0 <= i < |name| ==> !EndsAttName(name[i])
    requires IsBareValue(value) && EndsName(end)
    ensures Attributes(name + ("=" + (value + ([end] + rest)))) == Attributes(rest)
  {
    hide Attribute;
    var s := name + ("=" + (value + ([end] + rest)));
    BarePast(name, value, end, rest);
    assert s[0] == name[0] && !EndsAttName(name[0]);
    assert ([end] + rest)[1..] == rest;
  }

  lemma UntilHere(s: string, stop: char -> bool)
    requires s != "" && stop(s[0])
    ensures Until(s, stop) == Some(s)
  {
  }

  lemma ValuePast(a: Att, rest: string)
    requires a.Quoted? && ValidAtt(a)
    ensures Until(([a.quote] + (a.value + [a.quote] + rest))[1..], Is(a.quote)) == Some([a.quote] + rest)
  {
    hide Until;
    UntilPast(a.value, [a.quote] + rest, Is(a.quote));
    Regroup(a.value, [a.quote], rest);
    assert ([a.quote] + (a.value + [a.quote] + rest))[1..] == a.value + [a.quote] + rest;
  }

  lemma AttPast(a: Att, rest: string)
    requires ValidAtt(a)
    ensures Attributes(PrintAtt(a) + rest) == Attributes(rest)
  {
    hide Attribute;
    if a.Bare? {
      var s := a.name + ("=" + (a.value + ([a.end] + rest)));
      assert PrintAtt(a) + rest == a.space + s;
      WhitePast(a.space, s);
      BareSwallows(a.name, a.value, a.end, rest);
    } else {
      var s := a.name + ("=" + ([a.quote] + (a.value + [a.quote] + rest)));
      assert PrintAtt(a) + rest == a.space + s;
      WhitePast(a.space, s);
      AttributePast(a, rest);
      assert s[0] == a.name[0] && !EndsAttName(a.name[0]);
      assert ([a.quote] + rest)[1..] == rest;
    }
  }

  lemma {:induction false} AttsPast(atts: seq<Att>, space: string, rest: string)
    requires (forall i :: 0 <= i < |atts| ==> ValidAtt(atts[i])) && AllWhite(space)
    requires rest != "" && (rest[0] == '/' || rest[0] == '>')
    ensures Attributes(PrintAtts(atts) + (space + rest)) == Some(rest)
    decreases |atts|
  {
    hide ValidAtt, PrintAtt;
    if atts == [] {
      assert PrintAtts(atts) + (space + rest) == space + rest;
      WhitePast(space, rest);
    } else {
      hide Attributes;
      AttPast(atts[0], PrintAtts(atts[1..]) + (space + rest));
      Regroup(PrintAtt(atts[0]), PrintAtts(atts[1..]), space + rest);
      AttsPast(atts[1..], space, rest);
    }
  }

  // -------------------------------------------------------------------- text between tags

  /** Text outside elements is passed over. */
  lemma {:induction false} GapPast(gap: string, rest: string)
    requires '<' !in gap
    ensures Events(gap + rest) == Events(rest)
    decreases |gap|
  {
    hide Tag, CommentEnd;
    var s := gap + rest;
    if gap == "" {
      assert s == rest;
    } else {
      assert s[0] == gap[0] && s[1..] == gap[1..] + rest;
      GapPast(gap[1..], rest);
    }
  }

  lemma LacksTail(s: string, t: string)
    requires s != "" && Lacks(s, t)
    ensures Lacks(s[1..], t) && !(t <= s)
  {
    assert s[0..] == s;
    forall i | 0 <= i <= |s[1..]| ensures !(t <= s[1..][i..]) {
      assert s[1..][i..] == s[i + 1..];
    }
  }

  /** A mark of two equal characters and another does not begin before it is written. */
  lemma NotBefore(text: string, mark: string, rest: string)
    requires text != "" && Lacks(text, mark) && |mark| == 3 && mark[0] == mark[1] != mark[2]
    ensures !(mark <= text + (mark + rest))
  {
    LacksTail(text, mark);
    var s := text + (mark + rest);
    if |text| >= 3 {
      assert s[..3] == text[..3];
    } else {
      assert s[2] == mark[2 - |text|];
    }
  }

  lemma {:induction false} CommentPast(c: char, text: string, rest: string)
    requires Lacks(text, COMMENT_END)
    ensures CommentEnd([c] + (text + (COMMENT_END + rest))) == if rest == "" then None else Some(rest)
    decreases |text|
  {
    var t := text + (COMMENT_END + rest);
    assert ([c] + t)[1..] == t;
    if text == "" {
      assert t == COMMENT_END + rest && t[3..] == rest;
    } else {
      NotBefore(text, COMMENT_END, rest);
      LacksTail(text, COMMENT_END);
      assert t == [text[0]] + (text[1..] + (COMMENT_END + rest));
      CommentPast(text[0], text[1..], rest);
    }
  }

  lemma RemarkRead(text: string, rest: string)
    requires Lacks(text, COMMENT_END)
    ensures Events(COMMENT + (text + (COMMENT_END + rest))) == Events(rest)
  {
    hide CommentEnd, Tag, Lacks;
    var s := COMMENT + (text + (COMMENT_END + rest));
    assert s[3..] == ['-'] + (text + (COMMENT_END + rest));
    CommentPast('-', text, rest);
  }

  lemma {:induction false} RawPast(text: string, rest: string)
    requires Lacks(text, CDATA_END) && rest != ""
    ensures RawEnd(text + (CDATA_END + rest)) == Some(CDATA_END + rest)
    decreases |text|
  {
    var s := text + (CDATA_END + rest);
    if text == "" {
      assert s == CDATA_END + rest;
    } else {
      NotBefore(text, CDATA_END, rest);
      LacksTail(text, CDATA_END);
      assert s[1..] == text[1..] + (CDATA_END + rest);
      RawPast(text[1..], rest);
    }
  }

  /** How much white space there is at the front of a text. */
  function Leading(s: string): (k: nat)
    ensures k <= |s|
  {
    if s == "" || !White(s[0]) then 0 else 1 + Leading(s[1..])
  }

  lemma {:induction false} VisibleFrom(text: string, x: string)
    requires x != "" && Visible(x[0])
    ensures Until(text + x, Visible) == Some(text[Leading(text)..] + x)
  {
    if text == "" {
      assert text + x == x && text[0..] + x == x;
    } else if White(text[0]) {
      assert (text + x)[1..] == text[1..] + x;
      VisibleFrom(text[1..], x);
      assert text[1..][Leading(text[1..])..] == text[Leading(text)..];
    } else {
      assert text[0..] == text;
    }
  }

  lemma {:induction false} TagFrom(text: string, x: string)
    requires '<' !in text && |x| >= 2 && x[0] == '<'
    ensures TagAhead(text + x) == Some(x)
  {
    if text == "" {
      assert text + x == x;
    } else {
      assert (text + x)[1..] == text[1..] + x;
      TagFrom(text[1..], x);
    }
  }

  /** Text in front of a tag is reported where that is an end tag. */
  lemma PlainRead(text: string, x: string)
    requires '<' !in text && |x| >= 2 && x[0] == '<' && !(CDATA <= x)
    ensures Content(text + x) == Part(if x[1] == '/' then TextEvents(text) else [], Some(x))
  {
    hide Until, Plain, Leading;
    VisibleFrom(text, x);
    NotRaw(text, x);
    PlainPart(text, x);
  }

  lemma NotRaw(text: string, x: string)
    requires '<' !in text && !(CDATA <= x)
    ensures !(CDATA <= text[Leading(text)..] + x)
  {
    hide Leading;
    var shown := text[Leading(text)..];
    if shown == "" {
      assert shown + x == x;
    } else {
      assert (shown + x)[0] == shown[0] && shown[0] in text;
    }
  }

  lemma PlainPart(text: string, x: string)
    requires '<' !in text && |x| >= 2 && x[0] == '<'
    ensures Plain(text + x, text[Leading(text)..] + x) == Part(if x[1] == '/' then TextEvents(text) else [], Some(x))
  {
    hide TagAhead, Leading;
    var shown := text[Leading(text)..];
    assert '<' !in shown;
    TagFrom(shown, x);
    assert (text + x)[..|text + x| - |x|] == text;
  }

  lemma RawRead(lead: string, text: string, tail: string, x: string)
    requires AllWhite(lead) && Lacks(text, CDATA_END) && '<' !in tail && x != "" && x[0] == '<'
    ensures Content(lead + (CDATA + (text + (CDATA_END + (tail + x))))) == Part(TextEvents(text), Some(x))
  {
    hide Until, RawEnd, Lacks, TagAhead;
    var raw := text + (CDATA_END + (tail + x));
    UntilPast(lead, CDATA + raw, Visible);
    assert (CDATA + raw)[|CDATA|..] == raw;
    RawPast(text, tail + x);
    assert raw[..|raw| - |CDATA_END + (tail + x)|] == text;
    UntilPast(CDATA_END + tail, x, Is('<'));
    Regroup(CDATA_END, tail, x);
  }

  // -------------------------------------------------------------------- tags

  lemma EndRead(name: string, rest: string)
    requires name != "" && '>' !in name
    ensures Events(CloseTag(name) + rest) == [EndElt(name)] + Events(rest)
  {
    var s, named := CloseTag(name) + rest, name + (">" + rest);
    assert s == "</" + named && s[1..] == "/" + named && ("/" + named)[1..] == named;
    hide Until, StartTag, CommentEnd;
    UntilPast(name, ">" + rest, Is('>'));
    assert named[..|named| - |">" + rest|] == name && (">" + rest)[1..] == rest;
    assert EndTag(named) == Part([EndElt(name)], Some(rest));
    assert NameFrom("/" + named, "") == Some(Named("", "/" + named));
    hide EndTag, NameFrom;
    assert Tag(s) == Part([EndElt(name)], Some(rest));
  }

  /** The events and the rest that a part of the text leaves. */
  function Then(p: Part): seq<Event> {
    p.events + if p.rest.None? then [] else Events(p.rest.value)
  }

  /** The tag that begins an element. */
  lemma StartRead(n: Node, z: string)
    requires n.Element? && Valid(n) && z != "" && (z[0] == '/' || z[0] == '>')
    ensures Events("<" + (Qualified(n.prefix, n.name) + (PrintAtts(n.atts) + (n.space + z)))) ==
            [StartElt(n.name)] + if z[0] == '/' then Events(z) else Then(Content(z[1..]))
  {
    hide ValidBody, ValidAtt, Content, CommentEnd, NameFrom, Attributes, PrintAtts, EndTag;
    var q, behind := Qualified(n.prefix, n.name), PrintAtts(n.atts) + (n.space + z);
    var s := "<" + (q + behind);
    AttsPast(n.atts, n.space, z);
    BehindName(n.atts, n.space, z);
    QualifiedPast(n.prefix, n.name, behind);
    assert s[1..] == q + behind && s[1] == q[0];
    assert Tag(s) == StartTag(n.name, behind);
    hide Events, Tag, Qualified;
    EventsOfTag(s);
    ThenStart(n.name, behind, z);
  }

  lemma EventsOfTag(s: string)
    requires |s| >= 2 && s[0] == '<' && s[1] != '?' && s[1] != '!'
    ensures Events(s) == Then(Tag(s))
  {
    hide Tag, CommentEnd;
  }

  lemma ThenStart(name: string, s: string, z: string)
    requires z != "" && Attributes(s) == Some(z)
    ensures Then(StartTag(name, s)) == [StartElt(name)] + if z[0] == '/' then Events(z) else Then(Content(z[1..]))
  {
    hide Attributes, Events, Content;
    var content := Content(z[1..]);
    if z[0] != '/' {
      Regroup([StartElt(name)], content.events, if content.rest.None? then [] else Events(content.rest.value));
    }
  }

  /** A name ends where attributes, white space or the end of its tag begin. */
  lemma BehindName(atts: seq<Att>, space: string, z: string)
    requires (forall i :: 0 <= i < |atts| ==> ValidAtt(atts[i])) && AllWhite(space)
    requires z != "" && (z[0] == '/' || z[0] == '>')
    ensures var behind := PrintAtts(atts) + (space + z); behind != "" && EndsName(behind[0])
  {
    if atts != [] {
      assert ValidAtt(atts[0]);
      assert PrintAtts(atts)[0] == atts[0].space[0];
    }
  }

  /** How a node looks at its front. */
  lemma NodeFront(n: Node, rest: string)
    requires Valid(n)
    ensures var x := Print(n) + rest; |x| >= 2 && x[0] == '<' && x[1] != '/' && !(CDATA <= x)
  {
    hide ValidBody, ValidAtt, PrintAtts, PrintBody, Lacks;
    var x := Print(n) + rest;
    match n
    case Remark(text) => assert x[2] == '-';
    case Element(prefix, name, atts, space, body) =>
      var q := Qualified(prefix, name);
      assert x[1] == q[0] && !EndsName(q[0]);
  }

  // -------------------------------------------------------------------- whole documents

  /** A node is reported by its own events, whatever follows it. */
  lemma {:induction false} NodeRead(n: Node, rest: string)
    requires Valid(n)
    ensures Events(Print(n) + rest) == NodeEvents(n) + Events(rest)
    decreases n
  {
    hide Events, PrintAtts, Lacks, ValidAtt, Qualified, PrintBody, BodyEvents, ValidBody;
    match n
    case Remark(text) =>
      RemarkRead(text, rest);
      assert Print(n) + rest == COMMENT + (text + (COMMENT_END + rest));
      assert NodeEvents(n) + Events(rest) == Events(rest);
    case Element(prefix, name, atts, space, body) =>
      var q := Qualified(prefix, name);
      var z := PrintBody(body, q) + rest;
      ElementText(n, rest);
      NameIsPlain(prefix, name);
      BodyRead(body, q, rest);
      StartRead(n, z);
      Regroup([StartElt(name)], BodyEvents(body, q), Events(rest));
  }

  lemma ElementText(n: Node, rest: string)
    requires n.Element?
    ensures var q := Qualified(n.prefix, n.name);
      Print(n) + rest == "<" + (q + (PrintAtts(n.atts) + (n.space + (PrintBody(n.body, q) + rest))))
  {
    hide PrintAtts, PrintBody, Qualified;
  }

  lemma NameIsPlain(prefix: string, name: string)
    requires (prefix == "" || IsName(prefix)) && IsName(name)
    ensures Qualified(prefix, name) != "" && '>' !in Qualified(prefix, name)
  {
  }

  /** What follows the tag that begins an element, up to the end of the element. */
  lemma {:induction false} BodyRead(body: Body, name: string, rest: string)
    requires ValidBody(body) && name != "" && '>' !in name
    ensures var z := PrintBody(body, name) + rest;
      && z != "" && (z[0] == '/' || z[0] == '>')
      && (if z[0] == '/' then Events(z) else Then(Content(z[1..]))) == BodyEvents(body, name) + Events(rest)
    decreases body
  {
    hide Events, Content, Lacks, CloseTag, PrintForest, ForestEvents, ValidForest, TextEvents;
    var close := CloseTag(name) + rest;
    EndRead(name, rest);
    CloseFront(name, rest);
    var z := PrintBody(body, name) + rest;
    match body
    case Closed =>
      GapPast("/>", rest);
      assert [] + Events(rest) == Events(rest);
    case Text(text) =>
      assert z[1..] == text + close;
      PlainRead(text, close);
      Regroup(TextEvents(text), [EndElt(name)], Events(rest));
    case RawText(lead, text, tail) =>
      RawWritten(lead, text, tail, name, rest);
      RawRead(lead, text, tail, close);
      Regroup(TextEvents(text), [EndElt(name)], Events(rest));
    case Nodes(lead, nodes) =>
      assert z[1..] == lead + (PrintForest(nodes) + close);
      NodesRead(lead, nodes, close);
      ForestRead(nodes, close);
      Regroup(ForestEvents(nodes), [EndElt(name)], Events(rest));
  }

  lemma RawWritten(lead: string, text: string, tail: string, name: string, rest: string)
    ensures (PrintBody(RawText(lead, text, tail), name) + rest)[1..]
            == lead + (CDATA + (text + (CDATA_END + (tail + (CloseTag(name) + rest)))))
  {
    hide CloseTag;
  }

  lemma NodesRead(lead: string, nodes: Forest, close: string)
    requires '<' !in lead && nodes.More? && ValidForest(nodes)
    ensures Then(Content(lead + (PrintForest(nodes) + close))) == Events(PrintForest(nodes) + close)
  {
    hide Events, Content, PrintForest, ValidForest;
    var x := PrintForest(nodes) + close;
    ForestFront(nodes, close);
    PlainRead(lead, x);
    assert [] + Events(x) == Events(x);
  }

  lemma CloseFront(name: string, rest: string)
    ensures var x := CloseTag(name) + rest; |x| >= 2 && x[0] == '<' && x[1] == '/' && !(CDATA <= x)
  {
  }

  lemma ForestFront(f: Forest, rest: string)
    requires f.More? && ValidForest(f)
    ensures var x := PrintForest(f) + rest; |x| >= 2 && x[0] == '<' && x[1] != '/' && !(CDATA <= x)
  {
    hide Valid, Print;
    var more := f.gap + PrintForest(f.rest);
    Regroup(Print(f.node), more, rest);
    NodeFront(f.node, more + rest);
  }

  lemma {:induction false} ForestRead(f: Forest, rest: string)
    requires ValidForest(f)
    ensures Events(PrintForest(f) + rest) == ForestEvents(f) + Events(rest)
    decreases f
  {
    hide Events, Valid, Print, NodeEvents;
    match f
    case Nil =>
      assert "" + rest == rest && [] + Events(rest) == Events(rest);
    case More(node, gap, others) =>
      var more := PrintForest(others) + rest;
      assert PrintForest(f) + rest == Print(node) + (gap + more);
      NodeRead(node, gap + more);
      GapPast(gap, more);
      ForestRead(others, rest);
      Regroup(NodeEvents(node), ForestEvents(others), Events(rest));
  }

  /** The parser reports a written document node by node. */
  lemma DocumentRead(d: Document)
    requires ValidDocument(d)
    ensures Events(PrintDocument(d)) == ForestEvents(d.nodes)
  {
    hide Events, ValidForest, PrintForest, ForestEvents;
    var nodes, rest := PrintForest(d.nodes), d.lead + PrintForest(d.nodes);
    GapPast(d.lead, nodes);
    ForestRead(d.nodes, "");
    assert nodes + "" == nodes;
    NothingRead();
    assert ForestEvents(d.nodes) + [] == ForestEvents(d.nodes);
    if d.prolog.Some? {
      PrologRead(d.prolog.value, rest);
    } else {
      assert "" + rest == rest;
    }
  }

  lemma NothingRead()
    ensures Events("") == []
  {
  }

  lemma PrologRead(prolog: string, rest: string)
    requires '<' !in prolog
    ensures Events("<?" + prolog + rest) == Events(rest)
  {
    hide Tag, CommentEnd;
    var s := "<?" + prolog + rest;
    assert s[0] == '<' && s[1] == '?' && s[1..] == ("?" + prolog) + rest;
    GapPast("?" + prolog, rest);
  }
}
