/**
  The event handlers that read the description of an Internet Gateway Device in miniupnpc
  (external/miniupnpc/igd_desc_parse.c and .h): they copy element names and texts into 128-byte buffers and,
  at the end of each service, file the service by the prefix of its type.
 */
module IgdDescription {
  import opened Strings
  import opened MiniXml

  // -------------------------------------------------------------------- buffers

  /** MINIUPNPC_URL_MAXSIZE. */
  const SIZE := 128

  const NUL := '\0'

  type Buffer = b: seq<char> | |b| == SIZE witness seq(SIZE, i => NUL)

  function Zeros(): (b: Buffer)
    ensures forall i :: 0 <= i < SIZE ==> b[i] == NUL
  {
    seq(SIZE, i => NUL)
  }

  /** A C string ends inside the buffer. */
  predicate Terminated(b: Buffer) {
    exists i :: 0 <= i < SIZE && b[i] == NUL
  }

  /** At most 127 characters of a text. */
  function Clip(text: string): (r: string)
    ensures |r| < SIZE && r <= text
  {
    if |text| >= SIZE then text[..SIZE - 1] else text
  }

  /** memcpy of a clipped text, and a NUL behind it; the bytes after that stay. */
  function Copy(b: Buffer, text: string): Buffer {
    var t := Clip(text);
    t + [NUL] + b[|t| + 1..]
  }

  function Clear(b: Buffer): Buffer {
    [NUL] + b[1..]
  }

  lemma {:induction false} CStrUpTo(t: string, rest: seq<char>)
    ensures CStr(t + [NUL] + rest) == CStr(t)
  {
    var b := t + [NUL] + rest;
    if t != "" {
      assert b[0] == t[0] && b[1..] == t[1..] + [NUL] + rest;
      CStrUpTo(t[1..], rest);
    }
  }

  lemma CopyText(b: Buffer, text: string)
    ensures CStr(Copy(b, text)) == CStr(Clip(text)) && Terminated(Copy(b, text))
  {
    CStrUpTo(Clip(text), b[|Clip(text)| + 1..]);
    assert Copy(b, text)[|Clip(text)|] == NUL;
  }

  lemma ClearText(b: Buffer)
    ensures CStr(Clear(b)) == "" && Terminated(Clear(b))
  {
    assert Clear(b)[0] == NUL;
  }

  /** memcmp with a literal looks at the C string only. */
  lemma {:induction false} PrefixOfCStr(b: seq<char>, prefix: string)
    requires NUL !in prefix
    ensures prefix <= b <==> prefix <= CStr(b)
  {
    if prefix != "" && b != [] {
      assert prefix[0] in prefix;
      if b[0] != NUL {
        PrefixOfCStr(b[1..], prefix[1..]);
        assert CStr(b)[1..] == CStr(b[1..]);
        PrefixTail(prefix, b);
        PrefixTail(prefix, CStr(b));
      }
    }
  }

  // -------------------------------------------------------------------- the state and the handlers

  datatype Service = Service(controlurl: Buffer, eventsuburl: Buffer, scpdurl: Buffer, servicetype: Buffer)

  datatype State = State(
    cureltname: Buffer, urlbase: Buffer, presentationurl: Buffer, level: int,
    CIF: Service, first: Service, second: Service, IPv6FC: Service, tmp: Service
  )

  function NoService(): Service {
    Service(Zeros(), Zeros(), Zeros(), Zeros())
  }

  /** The struct after memset. */
  function Start(): State {
    State(Zeros(), Zeros(), Zeros(), 0, NoService(), NoService(), NoService(), NoService(), NoService())
  }

  const URN := "urn:schemas-upnp-org:service:"
  const CIF_PREFIX := URN + "WANCommonInterfaceConfig:"
  const FC_PREFIX := URN + "WANIPv6FirewallControl:"
  const IP_PREFIX := URN + "WANIPConnection:"
  const PPP_PREFIX := URN + "WANPPPConnection:"

  function AfterStart(s: State, name: string): State {
    var s' := s.(cureltname := Copy(s.cureltname, name), level := s.level + 1);
    if name == "service" then
      s'.(tmp := Service(Clear(s.tmp.controlurl), Clear(s.tmp.eventsuburl),
                         Clear(s.tmp.scpdurl), Clear(s.tmp.servicetype)))
    else s'
  }

  function AfterEnd(s: State, name: string): State {
    var s' := s.(level := s.level - 1);
    if name != "service" then s'
    else if CIF_PREFIX <= s.tmp.servicetype then s'.(CIF := s.tmp)
    else if FC_PREFIX <= s.tmp.servicetype then s'.(IPv6FC := s.tmp)
    else if IP_PREFIX <= s.tmp.servicetype || PPP_PREFIX <= s.tmp.servicetype then
      if s.first.servicetype[0] == NUL then s'.(first := s.tmp) else s'.(second := s.tmp)
    else s'
  }

  function AfterData(s: State, text: string): State {
    var cur := CStr(s.cureltname);
    if cur == "URLBase" then s.(urlbase := Copy(s.urlbase, text))
    else if cur == "presentationURL" then s.(presentationurl := Copy(s.presentationurl, text))
    else if cur == "serviceType" then s.(tmp := s.tmp.(servicetype := Copy(s.tmp.servicetype, text)))
    else if cur == "controlURL" then s.(tmp := s.tmp.(controlurl := Copy(s.tmp.controlurl, text)))
    else if cur == "eventSubURL" then s.(tmp := s.tmp.(eventsuburl := Copy(s.tmp.eventsuburl, text)))
    else if cur == "SCPDURL" then s.(tmp := s.tmp.(scpdurl := Copy(s.tmp.scpdurl, text)))
    else s
  }

  function AfterEvent(s: State, e: Event): State {
    match e
    case StartElt(name) => AfterStart(s, name)
    case EndElt(name) => AfterEnd(s, name)
    case Data(text) => AfterData(s, text)
  }

  /** The state after a stream of events. */
  function Run(events: seq<Event>): State {
    if events == [] then Start() else AfterEvent(Run(events[..|events| - 1]), events[|events| - 1])
  }

  class IgdDatas {
    var cureltname: Buffer
    var urlbase: Buffer
    var presentationurl: Buffer
    var level: int
    var CIF: Service
    var first: Service
    var second: Service
    var IPv6FC: Service
    var tmp: Service

    ghost function Snapshot(): State
      reads this
    {
      State(cureltname, urlbase, presentationurl, level, CIF, first, second, IPv6FC, tmp)
    }

    constructor ()
      ensures Snapshot() == Start()
    {
      cureltname, urlbase, presentationurl, level := Zeros(), Zeros(), Zeros(), 0;
      CIF, first, second, IPv6FC, tmp := NoService(), NoService(), NoService(), NoService(), NoService();
    }

    /** IGDstartelt. */
    method OnStart(name: string)
      modifies this
      ensures Snapshot() == AfterStart(old(Snapshot()), name)
    {
      cureltname := Copy(cureltname, name);
      level := level + 1;
      if |name| == 7 && name == "service" {
        tmp := Service(Clear(tmp.controlurl), Clear(tmp.eventsuburl), Clear(tmp.scpdurl), Clear(tmp.servicetype));
      }
    }

    /** IGDendelt. */
    method OnEnd(name: string)
      modifies this
      ensures Snapshot() == AfterEnd(old(Snapshot()), name)
    {
      level := level - 1;
      if |name| == 7 && name == "service" {
        if CIF_PREFIX <= tmp.servicetype {
          CIF := tmp;
        } else if FC_PREFIX <= tmp.servicetype {
          IPv6FC := tmp;
        } else if IP_PREFIX <= tmp.servicetype || PPP_PREFIX <= tmp.servicetype {
          if first.servicetype[0] == NUL {
            first := tmp;
          } else {
            second := tmp;
          }
        }
      }
    }

    /** IGDdata. */
    method OnData(text: string)
      modifies this
      ensures Snapshot() == AfterData(old(Snapshot()), text)
    {
      var cur := CStr(cureltname);
      if cur == "URLBase" {
        urlbase := Copy(urlbase, text);
      } else if cur == "presentationURL" {
        presentationurl := Copy(presentationurl, text);
      } else if cur == "serviceType" {
        tmp := tmp.(servicetype := Copy(tmp.servicetype, text));
      } else if cur == "controlURL" {
        tmp := tmp.(controlurl := Copy(tmp.controlurl, text));
      } else if cur == "eventSubURL" {
        tmp := tmp.(eventsuburl := Copy(tmp.eventsuburl, text));
      } else if cur == "SCPDURL" {
        tmp := tmp.(scpdurl := Copy(tmp.scpdurl, text));
      }
    }
  }

  // -------------------------------------------------------------------- safety of every event stream

  predicate TerminatedService(v: Service) {
    Terminated(v.controlurl) && Terminated(v.eventsuburl) && Terminated(v.scpdurl) && Terminated(v.servicetype)
  }

  predicate Safe(s: State) {
    && Terminated(s.cureltname) && Terminated(s.urlbase) && Terminated(s.presentationurl)
    && TerminatedService(s.CIF) && TerminatedService(s.first) && TerminatedService(s.second)
    && TerminatedService(s.IPv6FC) && TerminatedService(s.tmp)
  }

  lemma StartIsSafe()
    ensures Safe(Start())
  {
    assert Zeros()[0] == NUL;
  }

  lemma EventIsSafe(s: State, e: Event)
    requires Safe(s)
    ensures Safe(AfterEvent(s, e))
  {
    hide Terminated, Copy, Clear, CStr;
    match e
    case StartElt(name) =>
      CopyText(s.cureltname, name);
      ClearText(s.tmp.controlurl);
      ClearText(s.tmp.eventsuburl);
      ClearText(s.tmp.scpdurl);
      ClearText(s.tmp.servicetype);
    case EndElt(name) =>
    case Data(text) =>
      CopyText(s.urlbase, text);
      CopyText(s.presentationurl, text);
      CopyText(s.tmp.servicetype, text);
      CopyText(s.tmp.controlurl, text);
      CopyText(s.tmp.eventsuburl, text);
      CopyText(s.tmp.scpdurl, text);
  }

  /** On any events whatever, every string stays NUL-terminated within its 128 bytes. */
  lemma {:induction false} RunIsSafe(events: seq<Event>)
    ensures Safe(Run(events))
  {
    if events == [] {
      StartIsSafe();
    } else {
      var n := |events| - 1;
      RunIsSafe(events[..n]);
      EventIsSafe(Run(events[..n]), events[n]);
    }
  }

  // -------------------------------------------------------------------- what a stream of events says

  /** The four strings of a service. */
  datatype Info = Info(controlurl: string, eventsuburl: string, scpdurl: string, servicetype: string)

  const NO_INFO := Info("", "", "", "")

  function InfoOf(v: Service): Info {
    Info(CStr(v.controlurl), CStr(v.eventsuburl), CStr(v.scpdurl), CStr(v.servicetype))
  }

  /** A text as it comes back out of a buffer. */
  function Stored(text: string): string {
    CStr(Clip(text))
  }

  /** The element most lately begun. */
  function Element(events: seq<Event>): string {
    if events == [] then ""
    else
      var n := |events| - 1;
      match events[n]
      case StartElt(name) => Stored(name)
      case _ => Element(events[..n])
  }

  /** The last text read while the most lately begun element was this one. */
  function LastText(events: seq<Event>, field: string): string {
    if events == [] then ""
    else
      var n := |events| - 1;
      match events[n]
      case Data(text) => if Element(events[..n]) == field then Stored(text) else LastText(events[..n], field)
      case _ => LastText(events[..n], field)
  }

  /** The last such text since the last opening of a service. */
  function ServiceText(events: seq<Event>, field: string): string {
    if events == [] then ""
    else
      var n := |events| - 1;
      match events[n]
      case StartElt(name) => if name == "service" then "" else ServiceText(events[..n], field)
      case Data(text) => if Element(events[..n]) == field then Stored(text) else ServiceText(events[..n], field)
      case EndElt(name) => ServiceText(events[..n], field)
  }

  function ServiceInfo(events: seq<Event>): Info {
    Info(ServiceText(events, "controlURL"), ServiceText(events, "eventSubURL"),
         ServiceText(events, "SCPDURL"), ServiceText(events, "serviceType"))
  }

  /** The services closed so far, in order. */
  function Services(events: seq<Event>): seq<Info> {
    if events == [] then []
    else
      var n := |events| - 1;
      Services(events[..n]) + (if events[n] == EndElt("service") then [ServiceInfo(events[..n])] else [])
  }

  datatype Kind = CommonInterface | Firewall | Connection | Unknown

  function KindOf(servicetype: string): Kind {
    if CIF_PREFIX <= servicetype then CommonInterface
    else if FC_PREFIX <= servicetype then Firewall
    else if IP_PREFIX <= servicetype || PPP_PREFIX <= servicetype then Connection
    else Unknown
  }

  /** The services of one kind, in order. */
  function OfKind(services: seq<Info>, kind: Kind): seq<Info> {
    if services == [] then []
    else
      var n := |services| - 1;
      OfKind(services[..n], kind) + (if KindOf(services[n].servicetype) == kind then [services[n]] else [])
  }

  function FirstOr(services: seq<Info>): Info {
    if services == [] then NO_INFO else services[0]
  }

  function LastOr(services: seq<Info>): Info {
    if services == [] then NO_INFO else services[|services| - 1]
  }

  /** How deep the element being read is nested. */
  function Depth(events: seq<Event>): int {
    if events == [] then 0
    else
      var n := |events| - 1;
      Depth(events[..n]) + (if events[n].StartElt? then 1 else if events[n].EndElt? then -1 else 0)
  }

  // -------------------------------------------------------------------- the handlers compute it

  /** The strings in the buffers are those the events say; which services were filed where. */
  predicate Faithful(s: State, events: seq<Event>) {
    && CStr(s.cureltname) == Element(events)
    && CStr(s.urlbase) == LastText(events, "URLBase")
    && CStr(s.presentationurl) == LastText(events, "presentationURL")
    && s.level == Depth(events)
    && InfoOf(s.tmp) == ServiceInfo(events)
    && Filed(s, Services(events))
  }

  predicate Filed(s: State, services: seq<Info>) {
    var connections := OfKind(services, Connection);
    && InfoOf(s.CIF) == LastOr(OfKind(services, CommonInterface))
    && InfoOf(s.IPv6FC) == LastOr(OfKind(services, Firewall))
    && InfoOf(s.first) == FirstOr(connections)
    && InfoOf(s.second) == if |connections| < 2 then NO_INFO else LastOr(connections)
  }

  lemma StartIsFaithful()
    ensures Faithful(Start(), [])
  {
    assert Zeros()[0] == NUL;
    assert CStr(Zeros()) == "";
  }

  /** What one more event adds. */
  lemma OneMore(events: seq<Event>, e: Event)
    ensures Element(events + [e]) == if e.StartElt? then Stored(e.name) else Element(events)
    ensures Depth(events + [e]) == Depth(events) + if e.StartElt? then 1 else if e.EndElt? then -1 else 0
    ensures Services(events + [e]) ==
            if e == EndElt("service") then Services(events) + [ServiceInfo(events)] else Services(events)
  {
    hide ServiceInfo, Stored;
    var all := events + [e];
    assert all[..|all| - 1] == events;
  }

  lemma OneMoreText(events: seq<Event>, e: Event, field: string)
    ensures LastText(events + [e], field) ==
            if e.Data? && Element(events) == field then Stored(e.text) else LastText(events, field)
    ensures ServiceText(events + [e], field) ==
            if e.Data? && Element(events) == field then Stored(e.text)
            else if e == StartElt("service") then ""
            else ServiceText(events, field)
  {
    hide Element, Stored;
    var all := events + [e];
    assert all[..|all| - 1] == events;
  }

  lemma OneMoreTexts(events: seq<Event>, e: Event)
    ensures var all := events + [e];
      e.EndElt? ==>
        && LastText(all, "URLBase") == LastText(events, "URLBase")
        && LastText(all, "presentationURL") == LastText(events, "presentationURL")
        && ServiceInfo(all) == ServiceInfo(events)
    ensures var all := events + [e];
      e.StartElt? ==>
        && LastText(all, "URLBase") == LastText(events, "URLBase")
        && LastText(all, "presentationURL") == LastText(events, "presentationURL")
        && ServiceInfo(all) == if e.name == "service" then NO_INFO else ServiceInfo(events)
  {
    hide LastText, ServiceText, Element, Stored;
    OneMoreText(events, e, "URLBase");
    OneMoreText(events, e, "presentationURL");
    OneMoreText(events, e, "controlURL");
    OneMoreText(events, e, "eventSubURL");
    OneMoreText(events, e, "SCPDURL");
    OneMoreText(events, e, "serviceType");
  }

  lemma AfterStartIsFaithful(s: State, events: seq<Event>, name: string)
    requires Faithful(s, events)
    ensures Faithful(AfterStart(s, name), events + [StartElt(name)])
  {
    hide Copy, Clear, CStr, OfKind, KindOf, Services, LastText, ServiceInfo, Element, Depth;
    OneMore(events, StartElt(name));
    OneMoreTexts(events, StartElt(name));
    CopyText(s.cureltname, name);
    ClearText(s.tmp.controlurl);
    ClearText(s.tmp.eventsuburl);
    ClearText(s.tmp.scpdurl);
    ClearText(s.tmp.servicetype);
  }

  lemma AfterDataIsFaithful(s: State, events: seq<Event>, text: string)
    requires Faithful(s, events)
    ensures Faithful(AfterData(s, text), events + [Data(text)])
  {
    hide Copy, Clear, CStr, OfKind, KindOf, Services, LastText, ServiceText, Element, Depth;
    var e := Data(text);
    OneMore(events, e);
    OneMoreText(events, e, "URLBase");
    OneMoreText(events, e, "presentationURL");
    OneMoreText(events, e, "controlURL");
    OneMoreText(events, e, "eventSubURL");
    OneMoreText(events, e, "SCPDURL");
    OneMoreText(events, e, "serviceType");
    CopyText(s.urlbase, text);
    CopyText(s.presentationurl, text);
    CopyText(s.tmp.servicetype, text);
    CopyText(s.tmp.controlurl, text);
    CopyText(s.tmp.eventsuburl, text);
    CopyText(s.tmp.scpdurl, text);
  }

  lemma PrefixesArePlain()
    ensures NUL !in CIF_PREFIX && NUL !in FC_PREFIX && NUL !in IP_PREFIX && NUL !in PPP_PREFIX
  {
    assert NUL !in URN;
    hide URN;
  }

  /** A buffer and its string are of one kind. */
  lemma KindOfBuffer(v: Service)
    ensures KindOf(v.servicetype) == KindOf(InfoOf(v).servicetype)
  {
    PrefixesArePlain();
    hide CStr, CIF_PREFIX, FC_PREFIX, IP_PREFIX, PPP_PREFIX;
    PrefixOfCStr(v.servicetype, CIF_PREFIX);
    PrefixOfCStr(v.servicetype, FC_PREFIX);
    PrefixOfCStr(v.servicetype, IP_PREFIX);
    PrefixOfCStr(v.servicetype, PPP_PREFIX);
  }

  /** No connection has an empty type, so an empty type means no connection yet. */
  lemma {:induction false} ConnectionsAreTyped(services: seq<Info>)
    ensures forall i :: 0 <= i < |OfKind(services, Connection)| ==> OfKind(services, Connection)[i].servicetype != ""
  {
    if services != [] {
      ConnectionsAreTyped(services[..|services| - 1]);
    }
  }

  lemma NewServiceIsFiled(s: State, services: seq<Info>)
    requires Filed(s, services)
    ensures Filed(AfterEnd(s, "service"), services + [InfoOf(s.tmp)])
  {
    hide CStr;
    var all := services + [InfoOf(s.tmp)];
    assert all[..|all| - 1] == services;
    KindOfBuffer(s.tmp);
    ConnectionsAreTyped(services);
    FirstCharacter(s.first.servicetype);
  }

  lemma FirstCharacter(b: Buffer)
    ensures b[0] == NUL <==> CStr(b) == ""
  {
  }

  lemma AfterEndIsFaithful(s: State, events: seq<Event>, name: string)
    requires Faithful(s, events)
    ensures Faithful(AfterEnd(s, name), events + [EndElt(name)])
  {
    hide CStr, OfKind, KindOf, Services, LastText, ServiceInfo, Element, Depth;
    OneMore(events, EndElt(name));
    OneMoreTexts(events, EndElt(name));
    if name == "service" {
      NewServiceIsFiled(s, Services(events));
    }
  }

  /**
    On any events whatever, nested or not: each service closed is filed by its type with the strings read since it was
    begun, the first connection stays where it is and the last later one follows it.
   */
  lemma {:induction false} RunIsFaithful(events: seq<Event>)
    ensures Faithful(Run(events), events)
  {
    hide Faithful;
    if events == [] {
      StartIsFaithful();
    } else {
      var n := |events| - 1;
      RunIsFaithful(events[..n]);
      assert events == events[..n] + [events[n]];
      match events[n]
      case StartElt(name) => AfterStartIsFaithful(Run(events[..n]), events[..n], name);
      case EndElt(name) => AfterEndIsFaithful(Run(events[..n]), events[..n], name);
      case Data(text) => AfterDataIsFaithful(Run(events[..n]), events[..n], text);
    }
  }

  // -------------------------------------------------------------------- consequences

  /** A service has nothing of what came before it was begun. */
  lemma {:induction false} NothingLeaks(before: seq<Event>, body: seq<Event>)
    ensures var begun := [StartElt("service")] + body;
      Element(before + begun) == Element(begun) && ServiceInfo(before + begun) == ServiceInfo(begun)
  {
    hide ServiceText, Element, Stored;
    var begun := [StartElt("service")] + body;
    if body == [] {
      assert begun == [] + [StartElt("service")];
      OneMore(before, StartElt("service"));
      OneMore([], StartElt("service"));
      OneMoreTexts(before, StartElt("service"));
      OneMoreTexts([], StartElt("service"));
    } else {
      var n := |body| - 1;
      var shorter := [StartElt("service")] + body[..n];
      NothingLeaks(before, body[..n]);
      assert begun == shorter + [body[n]] && before + begun == (before + shorter) + [body[n]];
      OneMore(before + shorter, body[n]);
      OneMore(shorter, body[n]);
      SameText(before + shorter, shorter, body[n], "controlURL");
      SameText(before + shorter, shorter, body[n], "eventSubURL");
      SameText(before + shorter, shorter, body[n], "SCPDURL");
      SameText(before + shorter, shorter, body[n], "serviceType");
    }
  }

  lemma SameText(one: seq<Event>, other: seq<Event>, e: Event, field: string)
    requires Element(one) == Element(other) && ServiceText(one, field) == ServiceText(other, field)
    ensures ServiceText(one + [e], field) == ServiceText(other + [e], field)
  {
    hide ServiceText, Element, Stored;
    OneMoreText(one, e, field);
    OneMoreText(other, e, field);
  }

  lemma {:induction false} OfKindAppend(services: seq<Info>, more: seq<Info>, kind: Kind)
    ensures OfKind(services, kind) <= OfKind(services + more, kind)
  {
    hide KindOf;
    if more == [] {
      assert services + more == services;
    } else {
      var n := |more| - 1;
      OfKindAppend(services, more[..n], kind);
      assert (services + more)[..|services + more| - 1] == services + more[..n];
    }
  }

  lemma {:induction false} ServicesAppend(events: seq<Event>, more: seq<Event>)
    ensures Services(events) <= Services(events + more)
  {
    hide ServiceInfo;
    if more == [] {
      assert events + more == events;
    } else {
      var n := |more| - 1;
      ServicesAppend(events, more[..n]);
      assert (events + more)[..|events + more| - 1] == events + more[..n];
    }
  }

  /** Once there is a first connection, no later event changes it. */
  lemma FirstConnectionStays(events: seq<Event>, more: seq<Event>)
    requires OfKind(Services(events), Connection) != []
    ensures InfoOf(Run(events + more).first) == InfoOf(Run(events).first) == OfKind(Services(events), Connection)[0]
  {
    hide Run, Services, OfKind, InfoOf;
    RunIsFaithful(events);
    RunIsFaithful(events + more);
    ServicesAppend(events, more);
    var was, now := Services(events), Services(events + more);
    assert now == was + now[|was|..];
    OfKindAppend(was, now[|was|..], Connection);
  }

  // -------------------------------------------------------------------- where services go, by their full names

  /** A difference at one place tells two prefixes apart. */
  lemma NotPrefix(prefix: string, t: string, k: nat)
    requires k < |prefix| && (k < |t| ==> t[k] != prefix[k])
    ensures !(prefix <= t)
  {
  }

  lemma PrefixPlaces()
    ensures |CIF_PREFIX| == 54 && |FC_PREFIX| == 52 && |IP_PREFIX| == 45 && |PPP_PREFIX| == 46
    ensures CIF_PREFIX[32] == 'C' && FC_PREFIX[32] == 'I' && IP_PREFIX[32] == 'I' && PPP_PREFIX[32] == 'P'
    ensures FC_PREFIX[34] == 'v' && IP_PREFIX[34] == 'C'
  {
    assert |URN| == 29;
  }

  lemma InterfaceName()
    ensures CIF_PREFIX == "urn:schemas-upnp-org:service:WANCommonInterfaceConfig:"
  {
  }

  lemma FirewallName()
    ensures FC_PREFIX == "urn:schemas-upnp-org:service:WANIPv6FirewallControl:"
  {
  }

  lemma ConnectionNames()
    ensures IP_PREFIX == "urn:schemas-upnp-org:service:WANIPConnection:"
    ensures PPP_PREFIX == "urn:schemas-upnp-org:service:WANPPPConnection:"
  {
  }

  /** The kinds of services by the names of their types, whatever the version behind them. */
  lemma KindsByName(version: string)
    ensures KindOf("urn:schemas-upnp-org:service:WANCommonInterfaceConfig:" + version) == CommonInterface
    ensures KindOf("urn:schemas-upnp-org:service:WANIPv6FirewallControl:" + version) == Firewall
    ensures KindOf("urn:schemas-upnp-org:service:WANIPConnection:" + version) == Connection
    ensures KindOf("urn:schemas-upnp-org:service:WANPPPConnection:" + version) == Connection
  {
    InterfaceName();
    FirewallName();
    ConnectionNames();
    PrefixPlaces();
    hide CIF_PREFIX, FC_PREFIX, IP_PREFIX, PPP_PREFIX;
    NotPrefix(CIF_PREFIX, FC_PREFIX + version, 32);
    NotPrefix(CIF_PREFIX, IP_PREFIX + version, 32);
    NotPrefix(CIF_PREFIX, PPP_PREFIX + version, 32);
    NotPrefix(FC_PREFIX, IP_PREFIX + version, 34);
    NotPrefix(FC_PREFIX, PPP_PREFIX + version, 32);
  }

  lemma OneMoreOfKind(services: seq<Info>, info: Info, kind: Kind)
    ensures OfKind(services + [info], kind) ==
            OfKind(services, kind) + if KindOf(info.servicetype) == kind then [info] else []
  {
    hide KindOf;
    assert (services + [info])[..|services|] == services;
  }

  /** A service that is closed is filed by the name of its type. */
  lemma FiledByName(events: seq<Event>, version: string)
    ensures var info, s := ServiceInfo(events), Run(events + [EndElt("service")]);
      && (info.servicetype == "urn:schemas-upnp-org:service:WANCommonInterfaceConfig:" + version ==>
            InfoOf(s.CIF) == info)
      && (info.servicetype == "urn:schemas-upnp-org:service:WANIPv6FirewallControl:" + version ==>
            InfoOf(s.IPv6FC) == info)
      && (info.servicetype == "urn:schemas-upnp-org:service:WANIPConnection:" + version
          || info.servicetype == "urn:schemas-upnp-org:service:WANPPPConnection:" + version ==>
            InfoOf(if OfKind(Services(events), Connection) == [] then s.first else s.second) == info)
  {
    hide Run, Services, OfKind, InfoOf, KindOf, ServiceInfo;
    var info := ServiceInfo(events);
    KindsByName(version);
    RunIsFaithful(events + [EndElt("service")]);
    OneMore(events, EndElt("service"));
    OneMoreOfKind(Services(events), info, CommonInterface);
    OneMoreOfKind(Services(events), info, Firewall);
    OneMoreOfKind(Services(events), info, Connection);
  }

  /** Every event goes to its handler in turn. */
  method Parse(events: seq<Event>) returns (d: IgdDatas)
    ensures fresh(d) && d.Snapshot() == Run(events) && Safe(d.Snapshot()) && Faithful(d.Snapshot(), events)
  {
    hide Safe, Faithful, AfterStart, AfterEnd, AfterData;
    d := new IgdDatas();
    for i := 0 to |events|
      invariant fresh(d) && d.Snapshot() == Run(events[..i])
    {
      assert events[..i + 1][..i] == events[..i];
      match events[i]
      case StartElt(name) => d.OnStart(name);
      case EndElt(name) => d.OnEnd(name);
      case Data(text) => d.OnData(text);
    }
    assert events[..|events|] == events;
    RunIsSafe(events);
    RunIsFaithful(events);
  }
}
