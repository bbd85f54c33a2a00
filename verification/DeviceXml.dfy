/**
  From the XML text of a device description to the services that miniupnpc reads out of it
  (external/miniupnpc/minixml.c, igd_desc_parse.c and parserootdesc of miniupnpc.c).
 */
module DeviceXml {
  import opened Sequences
  import opened Strings
  import opened MiniXml
  import opened XmlTrees
  import Igd = IgdDescription

  // -------------------------------------------------------------------- what a document says

  /** An element with a text. */
  datatype Leaf = Leaf(name: string, text: string)

  function LeafOf(name: string, text: string): seq<Leaf> {
    if text == "" then [] else [Leaf(name, text)]
  }

  /** The elements with a text, in the order of the document. */
  function Leaves(n: Node): seq<Leaf>
    decreases n
  {
    match n
    case Remark(_) => []
    case Element(_, name, _, _, body) => BodyLeaves(body, name)
  }

  function BodyLeaves(body: Body, name: string): seq<Leaf>
    decreases body
  {
    match body
    case Closed => []
    case Text(text) => LeafOf(name, text)
    case RawText(_, text, _) => LeafOf(name, text)
    case Nodes(_, nodes) => ForestLeaves(nodes)
  }

  function ForestLeaves(f: Forest): seq<Leaf>
    decreases f
  {
    match f
    case Nil => []
    case More(node, _, rest) => Leaves(node) + ForestLeaves(rest)
  }

  /** The text of the last of some elements with a name, or what there was before. */
  function Last(before: string, leaves: seq<Leaf>, field: string): string {
    if leaves == [] then before
    else
      var n := |leaves| - 1;
      if Igd.Stored(leaves[n].name) == field then Igd.Stored(leaves[n].text) else Last(before, leaves[..n], field)
  }

  function InfoFrom(leaves: seq<Leaf>): Igd.Info {
    Igd.Info(Last("", leaves, "controlURL"), Last("", leaves, "eventSubURL"),
             Last("", leaves, "SCPDURL"), Last("", leaves, "serviceType"))
  }

  const SERVICE := "service"

  predicate HasService(n: Node)
    decreases n
  {
    n.Element? && (n.name == SERVICE || BodyHasService(n.body))
  }

  predicate BodyHasService(body: Body)
    decreases body
  {
    body.Nodes? && ForestHasService(body.nodes)
  }

  predicate ForestHasService(f: Forest)
    decreases f
  {
    f.More? && (HasService(f.node) || ForestHasService(f.rest))
  }

  /** No service stands inside a service. */
  predicate Unnested(n: Node)
    decreases n
  {
    n.Element? && n.body.Nodes? ==>
      if n.name == SERVICE then !ForestHasService(n.body.nodes) else ForestUnnested(n.body.nodes)
  }

  predicate ForestUnnested(f: Forest)
    decreases f
  {
    f.More? ==> Unnested(f.node) && ForestUnnested(f.rest)
  }

  /** The services of a document, each with the texts inside it. One with a prefix or in one tag does not count. */
  function ServicesOf(n: Node): seq<Igd.Info>
    decreases n
  {
    match n
    case Remark(_) => []
    case Element(prefix, name, _, _, body) =>
      if name == SERVICE then if prefix == "" && !body.Closed? then [InfoFrom(BodyLeaves(body, name))] else []
      else if body.Nodes? then ForestServices(body.nodes) else []
  }

  function ForestServices(f: Forest): seq<Igd.Info>
    decreases f
  {
    match f
    case Nil => []
    case More(node, _, rest) => ServicesOf(node) + ForestServices(rest)
  }

  // -------------------------------------------------------------------- the handlers read it

  lemma {:induction false} LastAppend(before: string, a: seq<Leaf>, b: seq<Leaf>, field: string)
    ensures Last(before, a + b, field) == Last(Last(before, a, field), b, field)
    decreases |b|
  {
    if b == [] {
      assert a + b == a;
    } else {
      var n := |b| - 1;
      assert (a + b)[..|a + b| - 1] == a + b[..n] && (a + b)[|a + b| - 1] == b[n];
      LastAppend(before, a, b[..n], field);
    }
  }

  /** What events do to the texts: to that of the present service, and to that of the whole document. */
  ghost predicate Adds(before: seq<Event>, events: seq<Event>, leaves: seq<Leaf>, field: string) {
    var all := before + events;
    && Igd.ServiceText(all, field) == Last(Igd.ServiceText(before, field), leaves, field)
    && Igd.Services(all) == Igd.Services(before)
  }

  ghost predicate AddsText(before: seq<Event>, events: seq<Event>, leaves: seq<Leaf>, field: string) {
    Igd.LastText(before + events, field) == Last(Igd.LastText(before, field), leaves, field)
  }

  lemma AddsBoth(before: seq<Event>, e1: seq<Event>, e2: seq<Event>, l1: seq<Leaf>, l2: seq<Leaf>, field: string)
    requires Adds(before, e1, l1, field) && Adds(before + e1, e2, l2, field)
    ensures Adds(before, e1 + e2, l1 + l2, field)
  {
    Regroup(before, e1, e2);
    LastAppend(Igd.ServiceText(before, field), l1, l2, field);
  }

  lemma AddsTextBoth(before: seq<Event>, e1: seq<Event>, e2: seq<Event>, l1: seq<Leaf>, l2: seq<Leaf>, field: string)
    requires AddsText(before, e1, l1, field) && AddsText(before + e1, e2, l2, field)
    ensures AddsText(before, e1 + e2, l1 + l2, field)
  {
    Regroup(before, e1, e2);
    LastAppend(Igd.LastText(before, field), l1, l2, field);
  }

  lemma NothingAdds(before: seq<Event>, field: string)
    ensures Adds(before, [], [], field) && AddsText(before, [], [], field)
  {
    assert before + [] == before;
  }

  lemma StartAdds(before: seq<Event>, name: string, field: string)
    ensures AddsText(before, [StartElt(name)], [], field)
    ensures name != SERVICE ==> Adds(before, [StartElt(name)], [], field)
    ensures Igd.Element(before + [StartElt(name)]) == Igd.Stored(name)
    ensures name == SERVICE ==> Igd.ServiceText(before + [StartElt(name)], field) == ""
    ensures Igd.Services(before + [StartElt(name)]) == Igd.Services(before)
  {
    hide Igd.Element, Igd.Services, Igd.ServiceText, Igd.LastText, Igd.Stored;
    Igd.OneMore(before, StartElt(name));
    Igd.OneMoreText(before, StartElt(name), field);
  }

  lemma EndAdds(before: seq<Event>, name: string, field: string)
    ensures AddsText(before, [EndElt(name)], [], field)
    ensures name != SERVICE ==> Adds(before, [EndElt(name)], [], field)
  {
    hide Igd.Element, Igd.Services, Igd.ServiceText, Igd.LastText, Igd.Stored;
    Igd.OneMore(before, EndElt(name));
    Igd.OneMoreText(before, EndElt(name), field);
  }

  lemma TextAdds(before: seq<Event>, name: string, text: string, field: string)
    requires Igd.Element(before) == Igd.Stored(name)
    ensures Adds(before, TextEvents(text), LeafOf(name, text), field)
    ensures AddsText(before, TextEvents(text), LeafOf(name, text), field)
  {
    hide Igd.Element, Igd.Services, Igd.ServiceText, Igd.LastText, Igd.Stored;
    if text == "" {
      NothingAdds(before, field);
    } else {
      Igd.OneMore(before, Data(text));
      Igd.OneMoreText(before, Data(text), field);
      assert Last(Igd.ServiceText(before, field), [], field) == Igd.ServiceText(before, field);
      assert Last(Igd.LastText(before, field), [], field) == Igd.LastText(before, field);
      assert LeafOf(name, text)[..0] == [];
    }
  }

  /** The events of a body without the end of its element. */
  function Inner(body: Body): seq<Event> {
    match body
    case Closed => []
    case Text(text) => TextEvents(text)
    case RawText(_, text, _) => TextEvents(text)
    case Nodes(_, nodes) => ForestEvents(nodes)
  }

  function End(body: Body, name: string): seq<Event> {
    if body.Closed? then [] else [EndElt(name)]
  }

  lemma BodyIs(body: Body, name: string)
    ensures BodyEvents(body, name) == Inner(body) + End(body, name)
  {
  }

  lemma EndOf(before: seq<Event>, body: Body, name: string, field: string)
    ensures AddsText(before, End(body, name), [], field)
    ensures name != SERVICE ==> Adds(before, End(body, name), [], field)
  {
    hide Adds, AddsText;
    NothingAdds(before, field);
    EndAdds(before, name, field);
  }

  /** A prefix makes another name. */
  lemma QualifiedIsOther(prefix: string, name: string)
    ensures Qualified(prefix, name) == SERVICE <==> prefix == "" && name == SERVICE
  {
    if prefix != "" {
      assert Qualified(prefix, name)[|prefix|] == ':';
      assert forall i :: 0 <= i < |SERVICE| ==> SERVICE[i] != ':';
    }
  }

  /** An element adds what is inside it. */
  lemma ElementAdds(before: seq<Event>, n: Node, field: string)
    requires n.Element? && n.name != SERVICE
    requires Adds(before + [StartElt(n.name)], Inner(n.body), BodyLeaves(n.body, n.name), field)
    ensures Adds(before, NodeEvents(n), Leaves(n), field)
  {
    hide Adds, Inner, BodyLeaves, BodyEvents;
    var q, start := Qualified(n.prefix, n.name), [StartElt(n.name)];
    var inner, leaves, end := Inner(n.body), BodyLeaves(n.body, n.name), End(n.body, q);
    QualifiedIsOther(n.prefix, n.name);
    StartAdds(before, n.name, field);
    EndOf(before + start + inner, n.body, q, field);
    AddsBoth(before + start, inner, end, leaves, [], field);
    AddsBoth(before, start, inner + end, [], leaves + [], field);
    BodyIs(n.body, q);
    assert [] + (leaves + []) == leaves;
  }

  /** Nodes without a service add their texts to the service they stand in. */
  lemma {:induction false} NodeAdds(before: seq<Event>, n: Node, field: string)
    requires !HasService(n)
    ensures Adds(before, NodeEvents(n), Leaves(n), field)
    decreases n
  {
    hide Adds;
    match n
    case Remark(_) => NothingAdds(before, field);
    case Element(_, name, _, _, body) =>
      StartAdds(before, name, field);
      InnerAdds(before + [StartElt(name)], name, body, field);
      ElementAdds(before, n, field);
  }

  lemma {:induction false} InnerAdds(before: seq<Event>, name: string, body: Body, field: string)
    requires Igd.Element(before) == Igd.Stored(name) && !BodyHasService(body)
    ensures Adds(before, Inner(body), BodyLeaves(body, name), field)
    decreases body
  {
    hide Adds, Igd.Element, Igd.Stored;
    match body
    case Closed => NothingAdds(before, field);
    case Text(text) => TextAdds(before, name, text, field);
    case RawText(_, text, _) => TextAdds(before, name, text, field);
    case Nodes(_, nodes) => ForestAdds(before, nodes, field);
  }

  lemma {:induction false} ForestAdds(before: seq<Event>, f: Forest, field: string)
    requires !ForestHasService(f)
    ensures Adds(before, ForestEvents(f), ForestLeaves(f), field)
    decreases f
  {
    hide Adds, HasService;
    match f
    case Nil => NothingAdds(before, field);
    case More(node, _, rest) =>
      NodeAdds(before, node, field);
      ForestAdds(before + NodeEvents(node), rest, field);
      AddsBoth(before, NodeEvents(node), ForestEvents(rest), Leaves(node), ForestLeaves(rest), field);
  }

  // -------------------------------------------------------------------- texts of the whole document

  lemma {:induction false} NodeAddsText(before: seq<Event>, n: Node, field: string)
    ensures AddsText(before, NodeEvents(n), Leaves(n), field)
    decreases n
  {
    hide AddsText, BodyEvents, BodyLeaves, Inner;
    match n
    case Remark(_) => NothingAdds(before, field);
    case Element(prefix, name, _, _, body) =>
      var q, start := Qualified(prefix, name), [StartElt(name)];
      var inner, leaves, end := Inner(body), BodyLeaves(body, name), End(body, q);
      StartAdds(before, name, field);
      InnerAddsText(before + start, name, body, field);
      EndOf(before + start + inner, body, q, field);
      AddsTextBoth(before + start, inner, end, leaves, [], field);
      AddsTextBoth(before, start, inner + end, [], leaves + [], field);
      BodyIs(body, q);
      assert [] + (leaves + []) == leaves;
  }

  lemma {:induction false} InnerAddsText(before: seq<Event>, name: string, body: Body, field: string)
    requires Igd.Element(before) == Igd.Stored(name)
    ensures AddsText(before, Inner(body), BodyLeaves(body, name), field)
    decreases body
  {
    hide AddsText, Igd.Element, Igd.Stored;
    match body
    case Closed => NothingAdds(before, field);
    case Text(text) => TextAdds(before, name, text, field);
    case RawText(_, text, _) => TextAdds(before, name, text, field);
    case Nodes(_, nodes) => ForestAddsText(before, nodes, field);
  }

  lemma {:induction false} ForestAddsText(before: seq<Event>, f: Forest, field: string)
    ensures AddsText(before, ForestEvents(f), ForestLeaves(f), field)
    decreases f
  {
    hide AddsText;
    match f
    case Nil => NothingAdds(before, field);
    case More(node, _, rest) =>
      NodeAddsText(before, node, field);
      ForestAddsText(before + NodeEvents(node), rest, field);
      AddsTextBoth(before, NodeEvents(node), ForestEvents(rest), Leaves(node), ForestLeaves(rest), field);
  }

  // -------------------------------------------------------------------- services

  ghost predicate AddsServices(before: seq<Event>, events: seq<Event>, services: seq<Igd.Info>) {
    Igd.Services(before + events) == Igd.Services(before) + services
  }

  lemma ServicesBoth(before: seq<Event>, e1: seq<Event>, e2: seq<Event>, s1: seq<Igd.Info>, s2: seq<Igd.Info>)
    requires AddsServices(before, e1, s1) && AddsServices(before + e1, e2, s2)
    ensures AddsServices(before, e1 + e2, s1 + s2)
  {
    Regroup(before, e1, e2);
    Regroup(Igd.Services(before), s1, s2);
  }

  /** Where the text of a service begins anew, the texts inside it are its own. */
  lemma ServiceInside(before: seq<Event>, body: Body, field: string)
    requires !BodyHasService(body)
    ensures var begun := before + [StartElt(SERVICE)];
      && Igd.ServiceText(begun + Inner(body), field) == Last("", BodyLeaves(body, SERVICE), field)
      && Igd.Services(begun + Inner(body)) == Igd.Services(before)
  {
    hide Igd.ServiceText, Igd.Services, Igd.Element, Igd.Stored, Inner, BodyLeaves, Last;
    StartAdds(before, SERVICE, field);
    InnerAdds(before + [StartElt(SERVICE)], SERVICE, body, field);
  }

  lemma ServiceFiled(before: seq<Event>, prefix: string, body: Body)
    requires !BodyHasService(body)
    ensures AddsServices(before, [StartElt(SERVICE)] + BodyEvents(body, Qualified(prefix, SERVICE)),
                         if prefix == "" && !body.Closed? then [InfoFrom(BodyLeaves(body, SERVICE))] else [])
  {
    hide Igd.ServiceText, Igd.Services, Inner, BodyLeaves, Last, BodyEvents;
    var q, begun := Qualified(prefix, SERVICE), before + [StartElt(SERVICE)];
    var inside := begun + Inner(body);
    ServiceInside(before, body, "controlURL");
    ServiceInside(before, body, "eventSubURL");
    ServiceInside(before, body, "SCPDURL");
    ServiceInside(before, body, "serviceType");
    BodyIs(body, q);
    QualifiedIsOther(prefix, SERVICE);
    assert before + ([StartElt(SERVICE)] + (Inner(body) + End(body, q))) == inside + End(body, q);
    if body.Closed? {
      assert inside + [] == inside;
    } else {
      Igd.OneMore(inside, EndElt(q));
    }
    assert Igd.Services(before) + [] == Igd.Services(before);
  }

  lemma OtherFiled(before: seq<Event>, n: Node)
    requires n.Element? && n.name != SERVICE
    requires AddsServices(before + [StartElt(n.name)], Inner(n.body), ServicesOf(n))
    ensures AddsServices(before, NodeEvents(n), ServicesOf(n))
  {
    hide Igd.Services, Igd.ServiceText, Inner, BodyEvents, ServicesOf;
    var q, start := Qualified(n.prefix, n.name), [StartElt(n.name)];
    var inner, end, services := Inner(n.body), End(n.body, q), ServicesOf(n);
    QualifiedIsOther(n.prefix, n.name);
    StartAdds(before, n.name, "");
    EndOf(before + start + inner, n.body, q, "");
    assert Igd.Services(before) + [] == Igd.Services(before);
    assert Igd.Services(before + start + inner) + [] == Igd.Services(before + start + inner);
    ServicesBoth(before + start, inner, end, services, []);
    ServicesBoth(before, start, inner + end, [], services + []);
    BodyIs(n.body, q);
    assert [] + (services + []) == services;
  }

  lemma {:induction false} NodeServices(before: seq<Event>, n: Node)
    requires Unnested(n)
    ensures AddsServices(before, NodeEvents(n), ServicesOf(n))
    decreases n
  {
    hide AddsServices, BodyLeaves;
    match n
    case Remark(_) => NoServices(before);
    case Element(prefix, name, _, _, body) =>
      if name == SERVICE {
        ServiceFiled(before, prefix, body);
      } else {
        var begun := before + [StartElt(name)];
        match body {
          case Nodes(_, nodes) => ForestAddsServices(begun, nodes);
          case Closed => NoServices(begun);
          case Text(text) => TextIsNoService(begun, text);
          case RawText(_, text, _) => TextIsNoService(begun, text);
        }
        OtherFiled(before, n);
      }
  }

  lemma NoServices(before: seq<Event>)
    ensures AddsServices(before, [], [])
  {
    assert before + [] == before && Igd.Services(before) + [] == Igd.Services(before);
  }

  lemma TextIsNoService(before: seq<Event>, text: string)
    ensures AddsServices(before, TextEvents(text), [])
  {
    hide Igd.Services;
    NoServices(before);
    Igd.OneMore(before, Data(text));
  }

  lemma {:induction false} ForestAddsServices(before: seq<Event>, f: Forest)
    requires ForestUnnested(f)
    ensures AddsServices(before, ForestEvents(f), ForestServices(f))
    decreases f
  {
    hide AddsServices, Unnested;
    match f
    case Nil => NoServices(before);
    case More(node, _, rest) =>
      NodeServices(before, node);
      ForestAddsServices(before + NodeEvents(node), rest);
      ServicesBoth(before, NodeEvents(node), ForestEvents(rest), ServicesOf(node), ForestServices(rest));
  }

  // -------------------------------------------------------------------- from the text to the struct

  /** The struct holds what a document says. */
  ghost predicate ReadFrom(s: Igd.State, d: Document) {
    && Igd.Filed(s, ForestServices(d.nodes))
    && CStr(s.urlbase) == Last("", ForestLeaves(d.nodes), "URLBase")
    && CStr(s.presentationurl) == Last("", ForestLeaves(d.nodes), "presentationURL")
  }

  /** Every document with no service inside a service is read as it is written. */
  lemma DocumentIsReadBack(d: Document)
    requires ValidDocument(d) && ForestUnnested(d.nodes)
    ensures ReadFrom(Igd.Run(Events(PrintDocument(d))), d)
  {
    hide Events, PrintDocument, ForestEvents, ForestServices, ForestLeaves, Igd.Run, Igd.Filed, ForestUnnested;
    DocumentRead(d);
    var events := ForestEvents(d.nodes);
    assert [] + events == events;
    Igd.RunIsFaithful(events);
    ForestAddsServices([], d.nodes);
    assert Igd.Services([]) == [] && [] + ForestServices(d.nodes) == ForestServices(d.nodes);
    ForestAddsText([], d.nodes, "URLBase");
    ForestAddsText([], d.nodes, "presentationURL");
  }

  /** parserootdesc on a struct that is all zeros. */
  method ParseRootDesc(text: string) returns (d: Igd.IgdDatas)
    ensures fresh(d) && Igd.Safe(d.Snapshot()) && Igd.Faithful(d.Snapshot(), Events(text))
    ensures forall doc | ValidDocument(doc) && ForestUnnested(doc.nodes) && PrintDocument(doc) == text ::
              ReadFrom(d.Snapshot(), doc)
  {
    hide Events, PrintDocument, ReadFrom, Igd.Run, Igd.Safe, Igd.Faithful, ForestUnnested, ValidDocument;
    var parser := new XmlParser(text);
    parser.ParseXml();
    d := Igd.Parse(parser.events);
    forall doc | ValidDocument(doc) && ForestUnnested(doc.nodes) && PrintDocument(doc) == text
      ensures ReadFrom(d.Snapshot(), doc)
    {
      DocumentIsReadBack(doc);
    }
  }
}
