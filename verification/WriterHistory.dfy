/**
  What the records of a log statement say, in terms of what happened in a run: which statements were started, which of
  their loggers were found and took them, and what was streamed into them. The machine is that of WriterProtocol.
 */
module WriterHistory {
  import opened Levels
  import opened WriterProtocol

  // -------------------------------------------------------------------- what the events of a run say

  datatype Birth = Birth(thread: nat, ids: seq<nat>, silent: bool)

  /** The statements started in a run; a logger that is not found starts one to the default logger. */
  function Births(events: seq<Event>): seq<Birth> {
    if events == [] then [] else WithBirth(Births(events[..|events| - 1]), events[|events| - 1])
  }

  function WithBirth(before: seq<Birth>, e: Event): seq<Birth> {
    if e.Create? then before + [Birth(e.thread, e.ids, e.silent)]
    else if e.Lookup? && !e.found && e.i < |before| then before + [Birth(before[e.i].thread, [DEFAULT], false)]
    else before
  }

  /** How many loggers of a statement have been looked up. */
  function Lookups(events: seq<Event>, i: nat): nat {
    if events == [] then 0
    else
      var e := events[|events| - 1];
      Lookups(events[..|events| - 1], i) + if e.Lookup? && e.i == i then 1 else 0
  }

  /** The loggers that took a statement, in order. */
  function Takers(events: seq<Event>, i: nat, ids: seq<nat>): seq<nat> {
    if events == [] then []
    else
      var front := events[..|events| - 1];
      var k := Lookups(front, i);
      Takers(front, i, ids) + if events[|events| - 1] == Acquire(i, true) && 0 < k <= |ids| then [ids[k - 1]] else []
  }

  /** The first logger of a statement was found and took it. */
  predicate FirstTakes(events: seq<Event>, i: nat) {
    events != [] &&
      (FirstTakes(events[..|events| - 1], i) ||
       (events[|events| - 1] == Acquire(i, true) && Lookups(events[..|events| - 1], i) == 1))
  }

  /** All that was streamed into a statement, one text after the other. */
  function Poured(events: seq<Event>, i: nat): string {
    if events == [] then ""
    else
      var e := events[|events| - 1];
      Poured(events[..|events| - 1], i) + if e.Stream? && e.i == i then e.text else ""
  }

  /** What a statement says. */
  function Said(events: seq<Event>, i: nat): string {
    if FirstTakes(events, i) then Poured(events, i) else ""
  }

  // -------------------------------------------------------------------- the machine keeps to it

  /** A statement that waits for its first logger has nothing behind it. */
  predicate Begins(w: Writer) {
    w.index == 0 && (w.place.Looking? || w.place.Acquiring?)
  }

  predicate Told(w: Writer, events: seq<Event>, i: nat) {
    && w.index + (if w.place.Looking? then 0 else 1) == Lookups(events, i)
    && w.accepted == Takers(events, i, w.ids)
    && w.streamed == Said(events, i)
    && (Begins(w) ==> !FirstTakes(events, i) && Poured(events, i) == "")
    && (w.place.Streaming? ==> w.index == 0 && (w.proceed <==> FirstTakes(events, i)))
  }

  predicate Born(w: Writer, b: Birth) {
    w.thread == b.thread && w.ids == b.ids && w.silent == b.silent
  }

  /** Nothing has happened to a statement yet. */
  predicate Untouched(events: seq<Event>, i: nat) {
    Lookups(events, i) == 0 && Poured(events, i) == ""
  }

  /** Everything the state says of its writers happened in the events. */
  ghost predicate Happened(s: State, events: seq<Event>) {
    && |Births(events)| == |s.writers|
    && (forall i :: 0 <= i < |s.writers| ==> Born(s.writers[i], Births(events)[i]) && Told(s.writers[i], events, i))
    && forall i: nat :: i >= |s.writers| ==> Untouched(events, i)
  }

  /** What one more event adds. */
  lemma OneMoreEvent(events: seq<Event>, e: Event, i: nat, ids: seq<nat>)
    ensures var all, k := events + [e], Lookups(events, i);
      && Lookups(all, i) == k + (if e.Lookup? && e.i == i then 1 else 0)
      && Takers(all, i, ids) ==
         Takers(events, i, ids) + (if e == Acquire(i, true) && 0 < k <= |ids| then [ids[k - 1]] else [])
      && (FirstTakes(all, i) <==> FirstTakes(events, i) || (e == Acquire(i, true) && k == 1))
      && Poured(all, i) == Poured(events, i) + (if e.Stream? && e.i == i then e.text else "")
  {
    assert (events + [e])[..|events|] == events;
  }

  lemma OneMoreBirth(events: seq<Event>, e: Event)
    ensures Births(events + [e]) == WithBirth(Births(events), e)
  {
    assert (events + [e])[..|events|] == events;
  }

  /** An event that is not about a writer leaves what is told of it. */
  lemma OthersAreTold(w: Writer, events: seq<Event>, e: Event, i: nat)
    requires Told(w, events, i) && (e.Create? || e.i != i)
    ensures Told(w, events + [e], i)
  {
    hide Lookups, Takers, FirstTakes, Poured;
    OneMoreEvent(events, e, i, w.ids);
    assert Takers(events, i, w.ids) + [] == Takers(events, i, w.ids);
    assert Poured(events, i) + "" == Poured(events, i);
  }

  lemma LookupIsTold(w: Writer, events: seq<Event>, i: nat)
    requires Told(w, events, i) && w.place.Looking?
    ensures Told(w.(place := Acquiring), events + [Lookup(i, true)], i)
    ensures Told(Missed(w), events + [Lookup(i, false)], i)
  {
    hide Lookups, Takers, FirstTakes, Poured;
    OneMoreEvent(events, Lookup(i, true), i, w.ids);
    OneMoreEvent(events, Lookup(i, false), i, w.ids);
    Unchanged(events, i, w.ids);
  }

  lemma AcquireIsTold(w: Writer, events: seq<Event>, i: nat, on: bool)
    requires Told(w, events, i) && w.place.Acquiring? && w.index < |w.ids|
    ensures Told(Acquired(w, on), events + [Acquire(i, on)], i)
  {
    hide Lookups, Takers, FirstTakes, Poured;
    OneMoreEvent(events, Acquire(i, on), i, w.ids);
    Unchanged(events, i, w.ids);
  }

  lemma ReleaseIsTold(w: Writer, events: seq<Event>, i: nat, releases: nat)
    requires Told(w, events, i) && w.place.Releasing?
    ensures Told(Advanced(w, releases), events + [Release(i)], i)
  {
    hide Lookups, Takers, FirstTakes, Poured;
    OneMoreEvent(events, Release(i), i, w.ids);
    Unchanged(events, i, w.ids);
  }

  lemma StreamIsTold(w: Writer, events: seq<Event>, i: nat, text: string)
    requires Told(w, events, i) && w.place.Streaming?
    ensures Told(if w.proceed then w.(streamed := w.streamed + text) else w, events + [Stream(i, text)], i)
  {
    hide Lookups, Takers, FirstTakes, Poured;
    OneMoreEvent(events, Stream(i, text), i, w.ids);
    Unchanged(events, i, w.ids);
  }

  /** A statement that goes on with what it has. */
  lemma WorkIsTold(w: Writer, w': Writer, events: seq<Event>, e: Event, i: nat)
    requires Told(w, events, i) && (e.Close? || e.Gather? || e.Emit? || e.Finish?) && !w.place.Looking? && !Begins(w)
    requires w'.ids == w.ids && w'.index == w.index && w'.accepted == w.accepted && w'.streamed == w.streamed
    requires w'.place.Gathering? || w'.place.Emitting? || w'.place.Dispatching? || w'.place.Releasing?
    ensures Told(w', events + [e], i)
  {
    hide Lookups, Takers, FirstTakes, Poured;
    OneMoreEvent(events, e, i, w.ids);
    Unchanged(events, i, w.ids);
  }

  lemma Unchanged(events: seq<Event>, i: nat, ids: seq<nat>)
    ensures Takers(events, i, ids) + [] == Takers(events, i, ids)
    ensures Poured(events, i) + "" == Poured(events, i)
  {
  }

  lemma OwnIsTold(s: State, events: seq<Event>, e: Event)
    requires Enabled(s, e) && !e.Create? && WriterOk(s.writers[e.i], |s.loggers|) && Told(s.writers[e.i], events, e.i)
    ensures e.i < |Step(s, e).writers| && Told(Step(s, e).writers[e.i], events + [e], e.i)
  {
    hide Told, HoldsAny, StreamOf, WithStream, Acquired, Missed, Advanced;
    var w := s.writers[e.i];
    if e.Lookup? {
      LookupIsTold(w, events, e.i);
    } else if e.Acquire? {
      AcquireIsTold(w, events, e.i, e.on);
    } else if e.Release? {
      ReleaseIsTold(w, events, e.i, 0);
      ReleaseIsTold(w, events, e.i, 1);
    } else if e.Stream? {
      StreamIsTold(w, events, e.i, e.text);
    } else {
      WorkIsTold(w, Step(s, e).writers[e.i], events, e, e.i);
    }
  }

  lemma {:induction false} NothingTaken(events: seq<Event>, i: nat, ids: seq<nat>)
    requires Lookups(events, i) == 0
    ensures Takers(events, i, ids) == [] && !FirstTakes(events, i)
    decreases |events|
  {
    if events != [] {
      NothingTaken(events[..|events| - 1], i, ids);
    }
  }

  lemma NewIsTold(events: seq<Event>, i: nat, b: Birth)
    requires Untouched(events, i)
    ensures Told(NewWriter(b.thread, b.ids, b.silent), events, i)
  {
    hide Lookups, Takers, FirstTakes, Poured;
    NothingTaken(events, i, b.ids);
  }

  lemma StaysUntouched(events: seq<Event>, e: Event, i: nat)
    requires Untouched(events, i) && (e.Create? || e.i != i)
    ensures Untouched(events + [e], i)
  {
    hide Lookups, Poured;
    OneMoreEvent(events, e, i, []);
  }

  lemma OwnIsBorn(s: State, e: Event, b: Birth)
    requires Enabled(s, e) && !e.Create? && e.i < |s.writers| && Born(s.writers[e.i], b)
    ensures e.i < |Step(s, e).writers| && Born(Step(s, e).writers[e.i], b)
  {
    if Works(e) {
      WorkIsBorn(s, e, b);
    } else {
      hide HoldsAny, StreamOf, WithStream;
    }
  }

  lemma WorkIsBorn(s: State, e: Event, b: Birth)
    requires Enabled(s, e) && Works(e) && e.i < |s.writers| && Born(s.writers[e.i], b)
    ensures e.i < |Step(s, e).writers| && Born(Step(s, e).writers[e.i], b)
  {
    hide StreamOf, WithStream;
  }

  /** A writer that a step adds is the one that the event gives birth to. */
  lemma NewIsBorn(s: State, births: seq<Birth>, e: Event)
    requires Enabled(s, e) && |births| == |s.writers|
    requires forall i :: 0 <= i < |births| ==> Born(s.writers[i], births[i])
    ensures var t, after := Step(s, e), WithBirth(births, e);
      && |after| == |t.writers| && births <= after
      && forall i :: |s.writers| <= i < |t.writers| ==>
                       t.writers[i] == NewWriter(after[i].thread, after[i].ids, after[i].silent)
  {
    hide HoldsAny, StreamOf, WithStream;
  }

  lemma StepHappens(s: State, events: seq<Event>, e: Event)
    requires Balanced(s) && Happened(s, events) && Enabled(s, e)
    ensures Happened(Step(s, e), events + [e])
  {
    hide Step, Enabled, LocksOk, Told, Born, Untouched, Births, WithBirth;
    var t, all, births := Step(s, e), events + [e], Births(events);
    OneMoreBirth(events, e);
    NewIsBorn(s, births, e);
    OthersGrow(s, e);
    InRange(s, e);
    forall i: nat | i >= |s.writers| ensures Untouched(all, i) {
      StaysUntouched(events, e, i);
    }
    forall i | 0 <= i < |t.writers| ensures Born(t.writers[i], Births(all)[i]) && Told(t.writers[i], all, i) {
      if i >= |s.writers| {
        NewIsTold(all, i, Births(all)[i]);
        assert Born(t.writers[i], Births(all)[i]) by { NewHas(Births(all)[i]); }
      } else if !e.Create? && e.i == i {
        assert WriterOk(s.writers[i], |s.loggers|);
        OwnIsTold(s, events, e);
        OwnIsBorn(s, e, births[i]);
      } else {
        OthersStay(s, e, i);
        OthersAreTold(s.writers[i], events, e, i);
      }
    }
  }

  lemma NewHas(b: Birth)
    ensures Born(NewWriter(b.thread, b.ids, b.silent), b)
  {
  }

  lemma InRange(s: State, e: Event)
    requires Enabled(s, e)
    ensures e.Create? || e.i < |s.writers|
  {
  }

  lemma {:induction false} RunHappens(s: State, past: seq<Event>, events: seq<Event>, t: State)
    requires Balanced(s) && Happened(s, past) && Leads(s, events, t)
    ensures Happened(t, past + events)
    decreases |events|
  {
    hide Balanced, Enabled, Step, Happened;
    if events == [] {
      assert past + events == past;
    } else {
      StepKeepsBalance(s, events[0]);
      StepHappens(s, past, events[0]);
      RunHappens(Step(s, events[0]), past + [events[0]], events[1..], t);
      assert past + [events[0]] + events[1..] == past + events;
    }
  }

  /** Over any run, what the machine says of its statements is what happened. */
  lemma AllHappened(loggers: nat, events: seq<Event>, t: State)
    requires loggers > 0 && Leads(Initial(loggers), events, t)
    ensures Happened(t, events)
  {
    hide Leads;
    InitialIsBalanced(loggers);
    RunHappens(Initial(loggers), [], events, t);
    assert [] + events == events;
  }

  // -------------------------------------------------------------------- runs without trouble

  /** A lock is taken while text lies in its stream. */
  predicate Disturbs(s: State, e: Event)
    requires Enabled(s, e)
  {
    e.Acquire? && s.loggers[s.writers[e.i].ids[s.writers[e.i].index]].stream != ""
  }

  /** A statement is started by a thread that holds a lock. */
  predicate Nests(s: State, e: Event)
    requires Enabled(s, e)
  {
    (e.Create? && HoldsAny(s.writers, e.thread)) ||
    (e.Lookup? && !e.found && HoldsAny(s.writers, s.writers[e.i].thread))
  }

  predicate Undisturbed(s: State, events: seq<Event>)
    decreases |events|
  {
    events != [] && Enabled(s, events[0]) ==> !Disturbs(s, events[0]) && Undisturbed(Step(s, events[0]), events[1..])
  }

  predicate Unnested(s: State, events: seq<Event>)
    decreases |events|
  {
    events != [] && Enabled(s, events[0]) ==> !Nests(s, events[0]) && Unnested(Step(s, events[0]), events[1..])
  }

  lemma FlagsAre(s: State, e: Event)
    requires Balanced(s) && Enabled(s, e)
    ensures Step(s, e).disturbed <==> s.disturbed || Disturbs(s, e)
    ensures Step(s, e).nested <==> s.nested || Nests(s, e)
  {
    hide StreamOf, WithStream, LocksOk;
    if e.Lookup? && !e.found {
      var w := s.writers[e.i];
      assert WriterOk(w, |s.loggers|);
      SameHolders(s.writers, e.i, Missed(w), w.thread);
    }
  }

  lemma SameHolders(writers: seq<Writer>, i: nat, w: Writer, thread: nat)
    requires i < |writers| && w.thread == writers[i].thread && w.logger == writers[i].logger
    ensures HoldsAny(writers[i := w], thread) <==> HoldsAny(writers, thread)
  {
    if HoldsAny(writers, thread) {
      var j :| 0 <= j < |writers| && writers[j].thread == thread && writers[j].logger.Some?;
      assert writers[i := w][j].thread == thread && writers[i := w][j].logger.Some?;
    }
  }

  lemma {:induction false} FlagsFollow(s: State, events: seq<Event>, t: State)
    requires Balanced(s) && Leads(s, events, t)
    ensures !s.disturbed && Undisturbed(s, events) ==> !t.disturbed
    ensures !s.nested && Unnested(s, events) ==> !t.nested
    decreases |events|
  {
    hide Balanced, Enabled, Step, Disturbs, Nests;
    if events != [] {
      StepKeepsBalance(s, events[0]);
      FlagsAre(s, events[0]);
      FlagsFollow(Step(s, events[0]), events[1..], t);
    }
  }

  // -------------------------------------------------------------------- the records

  /** Over any run: the records of a finished statement are one for each logger that took it, in order. */
  lemma EachTakerOnce(loggers: nat, events: seq<Event>, t: State, i: nat)
    requires loggers > 0 && Leads(Initial(loggers), events, t)
    requires i < |t.writers| && t.writers[i].place.Done?
    ensures i < |Births(events)|
    ensures var b := Births(events)[i];
      LoggersOf(t.writers[i].records) == if b.silent then [] else Takers(events, i, b.ids)
  {
    hide Leads, Births, Takers;
    AllHappened(loggers, events, t);
    EachLoggerOnce(loggers, events, t, i);
    assert Told(t.writers[i], events, i);
  }

  /**
    Over any run in which no lock is taken with text in its stream: all records of a statement carry all the texts
    streamed into it, in order, and nothing when its first logger did not take it.
   */
  lemma RecordsSayIt(loggers: nat, events: seq<Event>, t: State, i: nat, k: nat)
    requires loggers > 0 && Leads(Initial(loggers), events, t) && Undisturbed(Initial(loggers), events)
    requires i < |t.writers| && k < |t.writers[i].records|
    ensures t.writers[i].records[k].text == Said(events, i)
  {
    hide Leads, Undisturbed, Said;
    InitialIsBalanced(loggers);
    FlagsFollow(Initial(loggers), events, t);
    AllHappened(loggers, events, t);
    AllRecordsCarryTheText(loggers, events, t, i, k);
    assert Told(t.writers[i], events, i);
  }

  /** So it is over any run in which no thread logs while it holds a lock. */
  lemma UnnestedRecordsSayIt(loggers: nat, events: seq<Event>, t: State, i: nat, k: nat)
    requires loggers > 0 && Leads(Initial(loggers), events, t) && Unnested(Initial(loggers), events)
    requires i < |t.writers| && k < |t.writers[i].records|
    ensures t.writers[i].records[k].text == Said(events, i)
  {
    hide Leads, Unnested, Said;
    InitialIsBalanced(loggers);
    FlagsFollow(Initial(loggers), events, t);
    AllHappened(loggers, events, t);
    UnnestedRecordsCarryTheText(loggers, events, t, i, k);
    assert Told(t.writers[i], events, i);
  }
}
