/**
  The life of a log statement in easylogging++ (external/easylogging++/easylogging++.cc, class Writer) as a state
  machine. Many threads run many writers at once; a thread may start a writer while another of its own is still
  unfinished, because the expression being logged, a callback or the library itself may log. A logger's lock is
  recursive, and the text of a statement is gathered in the logger's own stream.
 */
module WriterProtocol {
  import opened Levels

  // -------------------------------------------------------------------- the machine

  datatype Place =
    | Looking     // about to look the logger up
    | Acquiring   // about to take its lock
    | Streaming   // between construction and destruction
    | Gathering   // about to bring the text into the stream, or save it
    | Emitting    // about to take the library's lock and dispatch
    | Dispatching // about to release the library's lock
    | Releasing   // about to clear the stream and release the lock
    | Done

  datatype Record = Record(logger: nat, text: string)

  /** The fields of a writer; the last six are its history. */
  datatype Writer = Writer(
    thread: nat, ids: seq<nat>, silent: bool,
    place: Place, index: nat, logger: Option<nat>, proceed: bool, dispatched: bool, saved: string,
    streamed: string, records: seq<Record>, accepted: seq<nat>, taken: nat, released: nat, missed: nat
  )

  datatype Logger = Logger(owner: nat, depth: nat, stream: string)

  /** The library's own recursive lock, which a dispatch takes. */
  datatype Library = Library(owner: nat, depth: nat)

  const FREE := Library(0, 0)

  /**
    `disturbed`: some lock was taken again by its own thread while text lay in the stream. `nested`: some writer was
    started by a thread that held a lock.
   */
  datatype State = State(loggers: seq<Logger>, writers: seq<Writer>, disturbed: bool, nested: bool, library: Library)

  datatype Event =
    | Create(thread: nat, ids: seq<nat>, silent: bool)
    | Lookup(i: nat, found: bool)
    | Acquire(i: nat, on: bool)
    | Stream(i: nat, text: string)
    | Close(i: nat)
    | Gather(i: nat)
    | Emit(i: nat)
    | Finish(i: nat)
    | Release(i: nat)

  /** The default logger. */
  const DEFAULT := 0

  function NewWriter(thread: nat, ids: seq<nat>, silent: bool): Writer {
    Writer(thread, ids, silent, Looking, 0, None, false, false, "", "", [], [], 0, 0, 0)
  }

  predicate HoldsAny(writers: seq<Writer>, thread: nat) {
    exists j :: 0 <= j < |writers| && writers[j].thread == thread && writers[j].logger.Some?
  }

  /** A writer runs only while every later writer of its thread is finished. */
  predicate Running(s: State, i: nat) {
    && i < |s.writers|
    && forall j :: i < j < |s.writers| && s.writers[j].thread == s.writers[i].thread ==> s.writers[j].place.Done?
  }

  predicate Free(lock: Logger, thread: nat) {
    lock.depth == 0 || lock.owner == thread
  }

  predicate LibraryFree(library: Library, thread: nat) {
    library.depth == 0 || library.owner == thread
  }

  /** The current logger takes the statement, and there is something to dispatch. */
  predicate Dispatches(w: Writer) {
    w.proceed && !w.silent && w.logger.Some?
  }

  predicate Enabled(s: State, e: Event) {
    match e
    case Create(thread, ids, silent) =>
      |ids| > 0 && forall k :: 0 <= k < |ids| ==> ids[k] < |s.loggers|
    case Lookup(i, _) => Running(s, i) && s.writers[i].place.Looking?
    case Acquire(i, _) =>
      && Running(s, i) && s.writers[i].place.Acquiring?
      && var w := s.writers[i];
         w.index < |w.ids| && w.ids[w.index] < |s.loggers| && Free(s.loggers[w.ids[w.index]], w.thread)
    case Stream(i, _) => Running(s, i) && s.writers[i].place.Streaming?
    case Close(i) => Running(s, i) && s.writers[i].place.Streaming?
    case Gather(i) => Running(s, i) && s.writers[i].place.Gathering?
    case Emit(i) =>
      && Running(s, i) && s.writers[i].place.Emitting?
      && (Dispatches(s.writers[i]) ==> LibraryFree(s.library, s.writers[i].thread))
    case Finish(i) => Running(s, i) && s.writers[i].place.Dispatching?
    case Release(i) => Running(s, i) && s.writers[i].place.Releasing?
  }

  /** Where a writer goes once its logger is settled. */
  function Settled(w: Writer): Place {
    if w.index == 0 then Streaming else Gathering
  }

  /** The stream of the lock a writer holds. */
  function StreamOf(s: State, w: Writer): string {
    if w.logger.Some? && w.logger.value < |s.loggers| then s.loggers[w.logger.value].stream else ""
  }

  function WithStream(s: State, w: Writer, text: string): seq<Logger> {
    if w.logger.Some? && w.logger.value < |s.loggers|
    then s.loggers[w.logger.value := s.loggers[w.logger.value].(stream := text)]
    else s.loggers
  }

  function Started(s: State, w: Writer): State {
    s.(writers := s.writers + [w], nested := s.nested || HoldsAny(s.writers, w.thread))
  }

  /** A writer whose logger is not registered; the library logs that to the default logger. */
  function Missed(w: Writer): Writer {
    w.(place := Settled(w), proceed := false, missed := w.missed + 1)
  }

  /** A writer that has taken the lock of its logger, which takes the statement or not. */
  function Acquired(w: Writer, on: bool): Writer
    requires w.index < |w.ids|
  {
    var l := w.ids[w.index];
    w.(place := Settled(w), logger := Some(l), proceed := on, taken := w.taken + 1,
       accepted := if on then w.accepted + [l] else w.accepted)
  }

  /** A writer after so many releases, at its next logger if there is one. */
  function Advanced(w: Writer, releases: nat): Writer {
    var next := if w.index + 1 < |w.ids| then w.(place := Looking, index := w.index + 1) else w.(place := Done);
    next.(logger := None, proceed := false, released := w.released + releases)
  }

  function Step(s: State, e: Event): State
    requires Enabled(s, e)
  {
    match e
    case Create(thread, ids, silent) => Started(s, NewWriter(thread, ids, silent))
    case Lookup(i, found) =>
      var w := s.writers[i];
      if found then s.(writers := s.writers[i := w.(place := Acquiring)])
      else Started(s.(writers := s.writers[i := Missed(w)]), NewWriter(w.thread, [DEFAULT], false))
    case Acquire(i, on) =>
      var w := s.writers[i];
      var l := w.ids[w.index];
      var lock := s.loggers[l];
      s.(loggers := s.loggers[l := Logger(w.thread, lock.depth + 1, lock.stream)],
         writers := s.writers[i := Acquired(w, on)],
         disturbed := s.disturbed || lock.stream != "")
    case Stream(i, text) =>
      var w := s.writers[i];
      if w.proceed then
        s.(loggers := WithStream(s, w, StreamOf(s, w) + text),
           writers := s.writers[i := w.(streamed := w.streamed + text)])
      else s
    case Close(i) => s.(writers := s.writers[i := s.writers[i].(place := Gathering)])
    case Gather(i) =>
      var w := s.writers[i];
      if !w.proceed then s.(writers := s.writers[i := w.(place := Emitting)])
      else if w.dispatched then
        s.(loggers := WithStream(s, w, StreamOf(s, w) + w.saved), writers := s.writers[i := w.(place := Emitting)])
      else
        var saved := if |w.ids| > 1 then StreamOf(s, w) else w.saved;
        s.(writers := s.writers[i := w.(place := Emitting, dispatched := true, saved := saved)])
    case Emit(i) =>
      var w := s.writers[i];
      if Dispatches(w) then
        var record := Record(w.logger.value, StreamOf(s, w));
        s.(writers := s.writers[i := w.(place := Dispatching, records := w.records + [record])],
           library := Library(w.thread, s.library.depth + 1))
      else s.(writers := s.writers[i := w.(place := Releasing)])
    case Finish(i) =>
      var library := if s.library.depth > 0 then s.library.(depth := s.library.depth - 1) else s.library;
      s.(writers := s.writers[i := s.writers[i].(place := Releasing)], library := library)
    case Release(i) =>
      var w := s.writers[i];
      if w.logger.Some? && w.logger.value < |s.loggers| && s.loggers[w.logger.value].depth > 0 then
        var lock := s.loggers[w.logger.value];
        s.(loggers := s.loggers[w.logger.value := Logger(lock.owner, lock.depth - 1, "")],
           writers := s.writers[i := Advanced(w, 1)])
      else s.(writers := s.writers[i := Advanced(w, 0)])
  }

  function Initial(loggers: nat): State {
    State(seq(loggers, l => Logger(0, 0, "")), [], false, false, FREE)
  }

  /** A state some run from the start leads to. */
  predicate Leads(s: State, events: seq<Event>, t: State)
    decreases |events|
  {
    if events == [] then s == t
    else Enabled(s, events[0]) && Leads(Step(s, events[0]), events[1..], t)
  }

  // -------------------------------------------------------------------- locks

  predicate Holds(w: Writer, l: nat) {
    w.logger == Some(l)
  }

  /** How many writers hold a lock. */
  function Holders(writers: seq<Writer>, l: nat): nat {
    if writers == [] then 0
    else Holders(writers[..|writers| - 1], l) + if Holds(writers[|writers| - 1], l) then 1 else 0
  }

  /** What a writer says about itself. */
  predicate WriterOk(w: Writer, loggers: nat) {
    && w.index < |w.ids|
    && (forall k :: 0 <= k < |w.ids| ==> w.ids[k] < loggers)
    && (w.logger.Some? ==>
          w.logger.value == w.ids[w.index] && !w.place.Looking? && !w.place.Acquiring? && !w.place.Done?)
    && (w.proceed ==> w.logger.Some?)
    && w.taken == w.released + (if w.logger.Some? then 1 else 0)
    && w.taken + w.missed == w.index + (if w.place.Looking? || w.place.Acquiring? then 0 else 1)
    && (w.place.Done? ==> w.index + 1 == |w.ids|)
  }

  predicate WritersOk(s: State) {
    forall i :: 0 <= i < |s.writers| ==> WriterOk(s.writers[i], |s.loggers|)
  }

  /** A lock is held as often as writers hold it, by their thread; a free lock has an empty stream. */
  predicate LocksOk(s: State) {
    && (forall l :: 0 <= l < |s.loggers| ==> s.loggers[l].depth == Holders(s.writers, l))
    && (forall l :: 0 <= l < |s.loggers| && s.loggers[l].depth == 0 ==> s.loggers[l].stream == "")
    && forall i :: 0 <= i < |s.writers| && s.writers[i].logger.Some? && s.writers[i].logger.value < |s.loggers| ==>
                     s.loggers[s.writers[i].logger.value].owner == s.writers[i].thread
  }

  predicate Balanced(s: State) {
    |s.loggers| > 0 && WritersOk(s) && LocksOk(s)
  }

  lemma {:induction false} HoldersReplace(writers: seq<Writer>, i: nat, w: Writer, l: nat)
    requires i < |writers|
    ensures Holders(writers[i := w], l) + (if Holds(writers[i], l) then 1 else 0) ==
            Holders(writers, l) + if Holds(w, l) then 1 else 0
  {
    hide Holds;
    var n := |writers| - 1;
    if i == n {
      assert writers[i := w][..n] == writers[..n];
    } else {
      HoldersReplace(writers[..n], i, w, l);
      assert writers[i := w][..n] == writers[..n][i := w];
    }
  }

  lemma HoldersAppend(writers: seq<Writer>, w: Writer, l: nat)
    ensures Holders(writers + [w], l) == Holders(writers, l) + if Holds(w, l) then 1 else 0
  {
    hide Holds;
    assert (writers + [w])[..|writers|] == writers;
  }

  lemma {:induction false} HolderCounts(writers: seq<Writer>, i: nat, l: nat)
    requires i < |writers| && Holds(writers[i], l)
    ensures Holders(writers, l) > 0
  {
    if i < |writers| - 1 {
      HolderCounts(writers[..|writers| - 1], i, l);
    }
  }

  lemma StartKeepsBalance(s: State, w: Writer)
    requires Balanced(s) && WriterOk(w, |s.loggers|) && w.logger.None?
    ensures Balanced(Started(s, w))
  {
    hide Holders, HoldsAny, WriterOk;
    forall l | 0 <= l < |s.loggers| ensures Holders(Started(s, w).writers, l) == Holders(s.writers, l) {
      HoldersAppend(s.writers, w, l);
    }
  }

  /** A writer that keeps what it holds may change the stream of that logger. */
  predicate SameLocks(s: State, t: State, w: Writer) {
    && |t.loggers| == |s.loggers|
    && forall l :: 0 <= l < |s.loggers| ==>
      && t.loggers[l].owner == s.loggers[l].owner && t.loggers[l].depth == s.loggers[l].depth
      && (!Holds(w, l) ==> t.loggers[l].stream == s.loggers[l].stream)
  }

  lemma WorkKeepsBalance(s: State, i: nat, w: Writer, t: State)
    requires Balanced(s) && i < |s.writers| && t.writers == s.writers[i := w]
    requires w.logger == s.writers[i].logger && w.thread == s.writers[i].thread && WriterOk(w, |s.loggers|)
    requires SameLocks(s, t, w)
    ensures Balanced(t)
  {
    hide Holders, WriterOk;
    forall l | 0 <= l < |s.loggers|
      ensures t.loggers[l].depth == Holders(t.writers, l)
      ensures t.loggers[l].depth == 0 ==> t.loggers[l].stream == ""
    {
      HoldersReplace(s.writers, i, w, l);
      if Holds(w, l) {
        HolderCounts(s.writers, i, l);
      }
    }
  }

  lemma AcquireKeepsBalance(s: State, i: nat, on: bool)
    requires Balanced(s) && Enabled(s, Acquire(i, on))
    ensures Balanced(Step(s, Acquire(i, on)))
  {
    hide Holders;
    var t := Step(s, Acquire(i, on));
    forall l | 0 <= l < |s.loggers| ensures t.loggers[l].depth == Holders(t.writers, l) {
      HoldersReplace(s.writers, i, t.writers[i], l);
    }
    var l := s.writers[i].ids[s.writers[i].index];
    forall j | 0 <= j < |s.writers| && Holds(s.writers[j], l)
      ensures s.writers[j].thread == s.writers[i].thread
    {
      HolderCounts(s.writers, j, l);
    }
  }

  /** Only a lock that is held, and by the thread that took it, is released; it is released once. */
  lemma ReleaseIsOwn(s: State, i: nat)
    requires Balanced(s) && Enabled(s, Release(i)) && s.writers[i].logger.Some?
    ensures var lock := s.loggers[s.writers[i].logger.value];
      && lock.depth > 0 && lock.owner == s.writers[i].thread
      && Step(s, Release(i)).loggers[s.writers[i].logger.value] == Logger(lock.owner, lock.depth - 1, "")
      && Step(s, Release(i)).writers[i].released == s.writers[i].released + 1 == s.writers[i].taken
  {
    hide Holders;
    HolderCounts(s.writers, i, s.writers[i].logger.value);
  }

  lemma AdvancedIsOk(w: Writer, loggers: nat)
    requires WriterOk(w, loggers) && w.place.Releasing?
    ensures WriterOk(Advanced(w, if w.logger.Some? then 1 else 0), loggers)
  {
  }

  lemma ReleaseKeepsBalance(s: State, i: nat)
    requires Balanced(s) && Enabled(s, Release(i))
    ensures Balanced(Step(s, Release(i)))
  {
    hide Holders, WriterOk;
    var w, t := s.writers[i], Step(s, Release(i));
    assert WriterOk(w, |s.loggers|);
    AdvancedIsOk(w, |s.loggers|);
    if w.logger.Some? {
      ReleasedHolds(s, i);
      ReleaseIsOwn(s, i);
      forall l | 0 <= l < |s.loggers| ensures t.loggers[l].depth == Holders(t.writers, l) {
        HoldersReplace(s.writers, i, t.writers[i], l);
      }
    } else {
      WorkKeepsBalance(s, i, t.writers[i], t);
    }
  }

  lemma ReleasedHolds(s: State, i: nat)
    requires Balanced(s) && Enabled(s, Release(i)) && s.writers[i].logger.Some?
    ensures s.writers[i].logger.value < |s.loggers|
  {
    hide LocksOk;
  }

  lemma StepKeepsBalance(s: State, e: Event)
    requires Balanced(s) && Enabled(s, e)
    ensures Balanced(Step(s, e))
  {
    hide LocksOk, HoldsAny, Running;
    match e
    case Create(thread, ids, silent) => StartKeepsBalance(s, NewWriter(thread, ids, silent));
    case Lookup(i, found) => LookupKeepsBalance(s, i, found);
    case Acquire(i, on) => AcquireKeepsBalance(s, i, on);
    case Release(i) => ReleaseKeepsBalance(s, i);
    case _ => OtherKeepsBalance(s, e);
  }

  /** A step that changes neither who holds which lock nor which writers there are. */
  predicate Works(e: Event) {
    e.Stream? || e.Close? || e.Gather? || e.Emit? || e.Finish?
  }

  lemma WorkShape(s: State, e: Event)
    requires Enabled(s, e) && Works(e)
    ensures var t := Step(s, e);
      && e.i < |s.writers| == |t.writers| && t.writers == s.writers[e.i := t.writers[e.i]]
      && t.writers[e.i].logger == s.writers[e.i].logger && t.writers[e.i].thread == s.writers[e.i].thread
      && SameLocks(s, t, s.writers[e.i])
  {
  }

  lemma WorkKeepsWriter(s: State, e: Event)
    requires Enabled(s, e) && Works(e) && WriterOk(s.writers[e.i], |s.loggers|)
    ensures e.i < |Step(s, e).writers| && WriterOk(Step(s, e).writers[e.i], |s.loggers|)
  {
    hide StreamOf, WithStream;
  }

  lemma OtherKeepsBalance(s: State, e: Event)
    requires Balanced(s) && Enabled(s, e) && Works(e)
    ensures Balanced(Step(s, e))
  {
    hide LocksOk, HoldsAny, Step, SameLocks, Enabled;
    WorkShape(s, e);
    WorkKeepsWriter(s, e);
    var t := Step(s, e);
    SameHolder(s, t, s.writers[e.i], t.writers[e.i]);
    WorkKeepsBalance(s, e.i, t.writers[e.i], t);
  }

  lemma SameHolder(s: State, t: State, w: Writer, w': Writer)
    requires SameLocks(s, t, w) && w.logger == w'.logger
    ensures SameLocks(s, t, w')
  {
  }

  lemma LookupKeepsBalance(s: State, i: nat, found: bool)
    requires Balanced(s) && Enabled(s, Lookup(i, found))
    ensures Balanced(Step(s, Lookup(i, found)))
  {
    hide LocksOk, HoldsAny;
    var w := s.writers[i];
    var w' := if found then w.(place := Acquiring) else Missed(w);
    var t := s.(writers := s.writers[i := w']);
    WorkKeepsBalance(s, i, w', t);
    if !found {
      StartKeepsBalance(t, NewWriter(w.thread, [DEFAULT], false));
    }
  }

  lemma InitialIsBalanced(loggers: nat)
    requires loggers > 0
    ensures Balanced(Initial(loggers))
  {
  }

  /** In every state of every run. */
  lemma {:induction false} RunIsBalanced(s: State, events: seq<Event>, t: State)
    requires Balanced(s) && Leads(s, events, t)
    ensures Balanced(t)
    decreases |events|
  {
    hide Balanced, Enabled, Step;
    if events != [] {
      StepKeepsBalance(s, events[0]);
      RunIsBalanced(Step(s, events[0]), events[1..], t);
    }
  }

  // -------------------------------------------------------------------- which loggers get a record

  function LoggersOf(records: seq<Record>): seq<nat> {
    seq(|records|, k requires 0 <= k < |records| => records[k].logger)
  }

  /** The current logger takes the statement and has not been given it yet. */
  predicate Pending(w: Writer) {
    w.proceed && (w.place.Streaming? || w.place.Gathering? || w.place.Emitting?)
  }

  /** Every logger that takes the statement is given it once, in the order of the ids. */
  predicate RecordsOk(w: Writer) {
    && (w.silent ==> w.records == [])
    && (w.proceed ==> Pending(w) || w.place.Dispatching? || w.place.Releasing?)
    && (Pending(w) ==> w.logger.Some?)
    && (!w.silent ==> w.accepted == LoggersOf(w.records) + if Pending(w) then [w.logger.value] else [])
  }

  predicate AllRecordsOk(s: State) {
    forall i :: 0 <= i < |s.writers| ==> RecordsOk(s.writers[i])
  }

  /** The other writers stay as they are; a writer that is added is new. */
  lemma OthersStay(s: State, e: Event, k: nat)
    requires Enabled(s, e) && k < |Step(s, e).writers|
    ensures |Step(s, e).writers| >= |s.writers|
    ensures k < |s.writers| && (e.Create? || k != e.i) ==> Step(s, e).writers[k] == s.writers[k]
    ensures k >= |s.writers| ==> exists thread, ids, silent :: Step(s, e).writers[k] == NewWriter(thread, ids, silent)
  {
    hide HoldsAny;
    match e
    case Create(thread, ids, silent) =>
      assert k >= |s.writers| ==> Step(s, e).writers[k] == NewWriter(thread, ids, silent);
    case Lookup(i, found) =>
      assert k >= |s.writers| ==> Step(s, e).writers[k] == NewWriter(s.writers[i].thread, [DEFAULT], false);
    case _ =>
  }

  lemma OwnRecordsStayOk(s: State, e: Event)
    requires Enabled(s, e) && !e.Create? && RecordsOk(s.writers[e.i]) && WriterOk(s.writers[e.i], |s.loggers|)
    ensures e.i < |Step(s, e).writers| && RecordsOk(Step(s, e).writers[e.i])
  {
    assert e.i < |s.writers|;
    hide Step, RecordsOk, Running;
    if e.Emit? {
      EmitRecords(s, e.i);
    } else if Works(e) {
      WorkRecordsNothing(s, e);
    } else {
      LockingRecordsNothing(s, e);
    }
  }

  lemma EmitRecords(s: State, i: nat)
    requires Enabled(s, Emit(i)) && RecordsOk(s.writers[i]) && WriterOk(s.writers[i], |s.loggers|)
    ensures i < |Step(s, Emit(i)).writers| && RecordsOk(Step(s, Emit(i)).writers[i])
  {
    hide LoggersOf, StreamOf;
    var w := s.writers[i];
    if w.proceed && !w.silent {
      OneMoreRecord(w.records, Record(w.logger.value, StreamOf(s, w)));
    }
  }

  lemma WorkRecordsNothing(s: State, e: Event)
    requires Enabled(s, e) && Works(e) && !e.Emit? && RecordsOk(s.writers[e.i])
    ensures e.i < |Step(s, e).writers| && RecordsOk(Step(s, e).writers[e.i])
  {
    hide LoggersOf, StreamOf, WithStream;
  }

  lemma LockingRecordsNothing(s: State, e: Event)
    requires Enabled(s, e) && (e.Lookup? || e.Acquire? || e.Release?)
    requires RecordsOk(s.writers[e.i]) && WriterOk(s.writers[e.i], |s.loggers|)
    ensures e.i < |Step(s, e).writers| && RecordsOk(Step(s, e).writers[e.i])
  {
    hide LoggersOf, HoldsAny, RecordsOk, WriterOk, Settled;
    var w := s.writers[e.i];
    match e
    case Lookup(i, found) => LookedUpRecords(w);
    case Acquire(i, on) => AcquiredRecords(w, on);
    case Release(i) => AdvancedRecords(w);
  }

  lemma LookedUpRecords(w: Writer)
    requires RecordsOk(w) && w.place.Looking?
    ensures RecordsOk(w.(place := Acquiring)) && RecordsOk(Missed(w))
  {
    hide LoggersOf;
  }

  lemma AcquiredRecords(w: Writer, on: bool)
    requires RecordsOk(w) && w.place.Acquiring? && w.index < |w.ids|
    ensures RecordsOk(Acquired(w, on))
  {
    hide LoggersOf;
  }

  lemma AdvancedRecords(w: Writer)
    requires RecordsOk(w) && w.place.Releasing?
    ensures forall releases: nat :: RecordsOk(Advanced(w, releases))
  {
    hide LoggersOf;
  }

  lemma OneMoreRecord(records: seq<Record>, record: Record)
    ensures LoggersOf(records + [record]) == LoggersOf(records) + [record.logger]
  {
  }

  lemma StepKeepsRecords(s: State, e: Event)
    requires Balanced(s) && AllRecordsOk(s) && Enabled(s, e)
    ensures AllRecordsOk(Step(s, e))
  {
    hide RecordsOk, Step, LocksOk, WriterOk, Enabled;
    forall k | 0 <= k < |Step(s, e).writers| ensures RecordsOk(Step(s, e).writers[k]) {
      OthersStay(s, e, k);
      if k >= |s.writers| {
        NewIsOk(Step(s, e).writers[k]);
      } else if !e.Create? && k == e.i {
        OwnRecordsStayOk(s, e);
      }
    }
  }

  lemma NewIsOk(w: Writer)
    requires exists thread, ids, silent :: w == NewWriter(thread, ids, silent)
    ensures RecordsOk(w) && TextOk(w) && w.logger.None?
  {
  }

  // -------------------------------------------------------------------- the text of the records

  /** What the stream of the logger a writer holds ought to contain. */
  function Expected(w: Writer): string {
    if w.place.Streaming? || w.place.Gathering? then (if w.index == 0 then w.streamed else "")
    else if w.proceed then w.streamed else ""
  }

  /** The first logger of the statement took it. */
  predicate FirstTook(w: Writer) {
    w.ids != [] && w.accepted != [] && w.accepted[0] == w.ids[0]
  }

  predicate TextOk(w: Writer) {
    && (forall k :: 0 <= k < |w.records| ==> w.records[k].text == w.streamed)
    && (w.dispatched && |w.ids| > 1 ==> w.saved == w.streamed)
    && (!w.dispatched ==> w.records == [])
    && (!w.dispatched && w.index > 0 ==> w.streamed == "")
    && (w.streamed != "" ==> FirstTook(w))
    && PlaceOk(w)
  }

  predicate PlaceOk(w: Writer) {
    match w.place
    case Looking => !w.proceed && (w.index == 0 ==> !w.dispatched && w.streamed == "" && w.accepted == [])
    case Acquiring => !w.proceed && (w.index == 0 ==> !w.dispatched && w.streamed == "" && w.accepted == [])
    case Streaming => w.index == 0 && !w.dispatched && if w.proceed then FirstTook(w) else w.streamed == ""
    case Gathering => w.index == 0 ==> !w.dispatched && (!w.proceed ==> w.streamed == "")
    case Emitting => if w.proceed then w.dispatched else w.index == 0 ==> !w.dispatched && w.streamed == ""
    case Dispatching => if w.proceed then w.dispatched else w.index == 0 ==> !w.dispatched && w.streamed == ""
    case Releasing => if w.proceed then w.dispatched else w.index == 0 ==> !w.dispatched && w.streamed == ""
    case Done => true
  }

  /** No later writer holds the same lock. */
  predicate Top(writers: seq<Writer>, i: nat)
    requires i < |writers|
  {
    forall j :: i < j < |writers| ==> writers[j].logger != writers[i].logger
  }

  /** The last to take a lock finds its own text in the stream; those before it are owed none. */
  predicate StreamOk(s: State, i: nat)
    requires i < |s.writers|
  {
    var w := s.writers[i];
    w.logger.Some? ==> Expected(w) == if Top(s.writers, i) then StreamOf(s, w) else ""
  }

  predicate Texts(s: State) {
    forall i :: 0 <= i < |s.writers| ==> TextOk(s.writers[i]) && StreamOk(s, i)
  }

  /** The one writer of a thread that runs is the last to hold what it holds. */
  lemma RunningIsTop(s: State, i: nat)
    requires Balanced(s) && Running(s, i) && s.writers[i].logger.Some?
    ensures Top(s.writers, i)
  {
    hide Holders;
    var w := s.writers[i];
    forall j | i < j < |s.writers| ensures s.writers[j].logger != w.logger {
      assert WriterOk(s.writers[j], |s.loggers|) && WriterOk(w, |s.loggers|);
    }
  }

  /** A step of the running writer on the stream it holds, keeping its hold. */
  lemma WorkKeepsTexts(s: State, i: nat, w: Writer, t: State)
    requires Balanced(s) && Texts(s) && Running(s, i) && t.writers == s.writers[i := w]
    requires w.logger == s.writers[i].logger && SameLocks(s, t, w) && TextOk(w)
    requires w.logger.Some? ==> Expected(w) == StreamOf(t, w)
    ensures Texts(t)
  {
    hide Holders, TextOk, Expected, LocksOk;
    if w.logger.Some? {
      RunningIsTop(s, i);
      assert Top(t.writers, i);
    }
    forall k | 0 <= k < |s.writers| ensures TextOk(t.writers[k]) && StreamOk(t, k) {
      OthersKeepTexts(s, i, w, t, k);
    }
  }

  lemma OthersKeepTexts(s: State, i: nat, w: Writer, t: State, k: nat)
    requires Balanced(s) && Texts(s) && i < |s.writers| && t.writers == s.writers[i := w]
    requires w.logger == s.writers[i].logger && SameLocks(s, t, w) && TextOk(w)
    requires w.logger.Some? ==> Expected(w) == StreamOf(t, w) && Top(s.writers, i)
    requires k < |s.writers|
    ensures TextOk(t.writers[k]) && StreamOk(t, k)
  {
    hide Holders, TextOk, Expected, LocksOk, WriterOk;
    assert TextOk(s.writers[k]) && StreamOk(s, k);
    assert forall j :: 0 <= j < |s.writers| ==> t.writers[j].logger == s.writers[j].logger;
    assert Top(t.writers, k) == Top(s.writers, k);
  }

  lemma TopReplace(writers: seq<Writer>, i: nat, w: Writer, k: nat)
    requires i < |writers| && k < |writers| && k != i
    requires writers[i].logger != writers[k].logger && w.logger != writers[k].logger
    ensures Top(writers[i := w], k) <==> Top(writers, k)
  {
    var after := writers[i := w];
    assert forall j :: 0 <= j < |writers| ==>
      (after[j].logger == after[k].logger <==> writers[j].logger == writers[k].logger);
  }

  lemma TopAppend(writers: seq<Writer>, w: Writer, k: nat)
    requires k < |writers| && w.logger != writers[k].logger
    ensures Top(writers + [w], k) <==> Top(writers, k)
  {
    var after := writers + [w];
    assert forall j :: 0 <= j < |writers| ==> after[j] == writers[j];
    if Top(writers, k) {
      assert forall j :: k < j < |after| ==> after[j].logger != after[k].logger;
    }
  }

  lemma StreamKeepsTexts(s: State, i: nat, text: string)
    requires Balanced(s) && Texts(s) && Enabled(s, Stream(i, text))
    ensures Texts(Step(s, Stream(i, text)))
  {
    hide LocksOk;
    var w, t := s.writers[i], Step(s, Stream(i, text));
    if w.proceed {
      RunningIsTop(s, i);
      assert StreamOk(s, i) && TextOk(w);
      WorkKeepsTexts(s, i, t.writers[i], t);
    }
  }

  lemma CloseKeepsTexts(s: State, i: nat)
    requires Balanced(s) && Texts(s) && Enabled(s, Close(i))
    ensures Texts(Step(s, Close(i)))
  {
    hide LocksOk;
    var w, t := s.writers[i], Step(s, Close(i));
    assert StreamOk(s, i) && TextOk(w);
    if w.logger.Some? {
      RunningIsTop(s, i);
    }
    WorkKeepsTexts(s, i, t.writers[i], t);
  }

  lemma GatheredTextIsOk(s: State, i: nat)
    requires Enabled(s, Gather(i)) && TextOk(s.writers[i]) && WriterOk(s.writers[i], |s.loggers|)
    requires s.writers[i].logger.Some? ==> Expected(s.writers[i]) == StreamOf(s, s.writers[i])
    ensures var t := Step(s, Gather(i));
      && i < |t.writers| && TextOk(t.writers[i])
      && (t.writers[i].logger.Some? ==> Expected(t.writers[i]) == StreamOf(t, t.writers[i]))
  {
  }

  lemma GatherKeepsTexts(s: State, i: nat)
    requires Balanced(s) && Texts(s) && Enabled(s, Gather(i))
    ensures Texts(Step(s, Gather(i)))
  {
    hide LocksOk, TextOk, Expected;
    var w, t := s.writers[i], Step(s, Gather(i));
    assert StreamOk(s, i) && TextOk(w) && WriterOk(w, |s.loggers|);
    if w.logger.Some? {
      RunningIsTop(s, i);
    }
    GatheredTextIsOk(s, i);
    WorkShape(s, Gather(i));
    hide Step;
    SameHolder(s, t, w, t.writers[i]);
    WorkKeepsTexts(s, i, t.writers[i], t);
  }

  lemma EmittedTextIsOk(s: State, i: nat)
    requires Enabled(s, Emit(i)) && TextOk(s.writers[i]) && WriterOk(s.writers[i], |s.loggers|)
    requires s.writers[i].logger.Some? ==> Expected(s.writers[i]) == StreamOf(s, s.writers[i])
    ensures var t := Step(s, Emit(i));
      && t.writers == s.writers[i := t.writers[i]] && TextOk(t.writers[i])
      && t.writers[i].logger == s.writers[i].logger && Expected(t.writers[i]) == Expected(s.writers[i])
  {
  }

  lemma EmitKeepsTexts(s: State, i: nat)
    requires Balanced(s) && Texts(s) && Enabled(s, Emit(i))
    ensures Texts(Step(s, Emit(i)))
  {
    hide LocksOk, TextOk, Expected;
    var w, t := s.writers[i], Step(s, Emit(i));
    assert StreamOk(s, i) && TextOk(w) && WriterOk(w, |s.loggers|);
    if w.logger.Some? {
      RunningIsTop(s, i);
    }
    EmittedTextIsOk(s, i);
    WorkKeepsTexts(s, i, t.writers[i], t);
  }

  lemma FinishKeepsTexts(s: State, i: nat)
    requires Balanced(s) && Texts(s) && Enabled(s, Finish(i))
    ensures Texts(Step(s, Finish(i)))
  {
    hide LocksOk;
    var w, t := s.writers[i], Step(s, Finish(i));
    assert StreamOk(s, i) && TextOk(w);
    if w.logger.Some? {
      RunningIsTop(s, i);
    }
    WorkKeepsTexts(s, i, t.writers[i], t);
  }

  lemma StartKeepsTexts(s: State, w: Writer)
    requires Texts(s) && TextOk(w) && w.logger.None?
    ensures Texts(Started(s, w))
  {
    hide TextOk, Expected, HoldsAny;
    var t := Started(s, w);
    forall k | 0 <= k < |t.writers| ensures TextOk(t.writers[k]) && StreamOk(t, k) {
      if k < |s.writers| {
        assert TextOk(s.writers[k]) && StreamOk(s, k);
        if s.writers[k].logger.Some? {
          TopAppend(s.writers, w, k);
        }
      }
    }
  }

  lemma LookupKeepsTexts(s: State, i: nat, found: bool)
    requires Balanced(s) && Texts(s) && Enabled(s, Lookup(i, found))
    ensures Texts(Step(s, Lookup(i, found)))
  {
    hide LocksOk, HoldsAny;
    var w := s.writers[i];
    var w' := if found then w.(place := Acquiring) else Missed(w);
    var t := s.(writers := s.writers[i := w']);
    assert TextOk(w) && WriterOk(w, |s.loggers|);
    WorkKeepsTexts(s, i, w', t);
    if !found {
      StartKeepsTexts(t, NewWriter(w.thread, [DEFAULT], false));
    }
  }

  /** Taking a lock whose stream is empty: those who hold it already are owed no text. */
  lemma AcquireKeepsTexts(s: State, i: nat, on: bool)
    requires Balanced(s) && Texts(s) && Enabled(s, Acquire(i, on))
    requires !Step(s, Acquire(i, on)).disturbed
    ensures Texts(Step(s, Acquire(i, on)))
  {
    hide Holders, LocksOk;
    var w, t := s.writers[i], Step(s, Acquire(i, on));
    assert TextOk(w) && TextOk(t.writers[i]);
    AcquireKeepsBalance(s, i, on);
    RunningIsTop(t, i);
    assert StreamOk(t, i);
    hide Step, TextOk, StreamOk, Balanced, WriterOk;
    forall k | 0 <= k < |s.writers| && k != i ensures TextOk(t.writers[k]) && StreamOk(t, k) {
      AcquireKeepsOther(s, i, on, k);
    }
  }

  lemma AcquireKeepsOther(s: State, i: nat, on: bool, k: nat)
    requires Balanced(s) && Texts(s) && Enabled(s, Acquire(i, on)) && k < |s.writers| && k != i
    requires !Step(s, Acquire(i, on)).disturbed && Top(Step(s, Acquire(i, on)).writers, i)
    ensures TextOk(Step(s, Acquire(i, on)).writers[k]) && StreamOk(Step(s, Acquire(i, on)), k)
  {
    hide Holders, LocksOk, TextOk, Expected;
    var w, t := s.writers[i], Step(s, Acquire(i, on));
    assert TextOk(s.writers[k]) && StreamOk(s, k);
    assert WriterOk(w, |s.loggers|) && WriterOk(s.writers[k], |s.loggers|);
    if t.writers[k].logger == t.writers[i].logger {
      assert k < i && !Top(t.writers, k);
    } else if s.writers[k].logger.Some? {
      TopReplace(s.writers, i, t.writers[i], k);
    }
  }

  lemma AdvancedTextIsOk(w: Writer, releases: nat)
    requires TextOk(w) && w.place.Releasing?
    ensures TextOk(Advanced(w, releases))
  {
  }

  lemma ReleaseKeepsTexts(s: State, i: nat)
    requires Balanced(s) && Texts(s) && Enabled(s, Release(i))
    ensures Texts(Step(s, Release(i)))
  {
    hide Holders, LocksOk, TextOk;
    var w, t := s.writers[i], Step(s, Release(i));
    assert TextOk(w) && WriterOk(w, |s.loggers|);
    AdvancedTextIsOk(w, 0);
    AdvancedTextIsOk(w, 1);
    if w.logger.None? {
      WorkKeepsTexts(s, i, t.writers[i], t);
    } else {
      RunningIsTop(s, i);
      ReleaseIsOwn(s, i);
      assert StreamOk(t, i);
      hide Step, TextOk, StreamOk, Balanced, WriterOk;
      forall k | 0 <= k < |s.writers| && k != i ensures TextOk(t.writers[k]) && StreamOk(t, k) {
        ReleaseKeepsOther(s, i, k);
      }
    }
  }

  lemma ReleaseKeepsOther(s: State, i: nat, k: nat)
    requires Balanced(s) && Texts(s) && Enabled(s, Release(i)) && k < |s.writers| && k != i
    requires s.writers[i].logger.Some? && Top(s.writers, i)
    ensures TextOk(Step(s, Release(i)).writers[k]) && StreamOk(Step(s, Release(i)), k)
  {
    hide Holders, LocksOk, TextOk, Expected;
    var w, t := s.writers[i], Step(s, Release(i));
    assert TextOk(s.writers[k]) && StreamOk(s, k);
    assert WriterOk(w, |s.loggers|) && WriterOk(s.writers[k], |s.loggers|);
    ReleaseIsOwn(s, i);
    if s.writers[k].logger == w.logger {
      assert k < i && !Top(s.writers, k);
    } else if s.writers[k].logger.Some? {
      TopReplace(s.writers, i, t.writers[i], k);
    }
  }

  lemma StepKeepsTexts(s: State, e: Event)
    requires Balanced(s) && Texts(s) && Enabled(s, e) && !Step(s, e).disturbed
    ensures Texts(Step(s, e))
  {
    hide LocksOk, WritersOk, HoldsAny, Running, Texts;
    match e
    case Create(thread, ids, silent) => StartKeepsTexts(s, NewWriter(thread, ids, silent));
    case Lookup(i, found) => LookupKeepsTexts(s, i, found);
    case Acquire(i, on) => AcquireKeepsTexts(s, i, on);
    case Stream(i, text) => StreamKeepsTexts(s, i, text);
    case Close(i) => CloseKeepsTexts(s, i);
    case Gather(i) => GatherKeepsTexts(s, i);
    case Emit(i) => EmitKeepsTexts(s, i);
    case Finish(i) => FinishKeepsTexts(s, i);
    case Release(i) => ReleaseKeepsTexts(s, i);
  }

  // -------------------------------------------------------------------- whole runs

  lemma StepKeepsFlags(s: State, e: Event)
    requires Enabled(s, e)
    ensures s.disturbed ==> Step(s, e).disturbed
    ensures s.nested ==> Step(s, e).nested
  {
    hide HoldsAny, StreamOf, WithStream, Running;
  }

  lemma {:induction false} RunKeepsFlags(s: State, events: seq<Event>, t: State)
    requires Leads(s, events, t)
    ensures s.disturbed ==> t.disturbed
    ensures s.nested ==> t.nested
    decreases |events|
  {
    hide Enabled, Step;
    if events != [] {
      StepKeepsFlags(s, events[0]);
      RunKeepsFlags(Step(s, events[0]), events[1..], t);
    }
  }

  lemma {:induction false} RunKeepsRecords(s: State, events: seq<Event>, t: State)
    requires Balanced(s) && AllRecordsOk(s) && Leads(s, events, t)
    ensures AllRecordsOk(t)
    decreases |events|
  {
    hide Enabled, Step, Balanced, AllRecordsOk;
    if events != [] {
      StepKeepsBalance(s, events[0]);
      StepKeepsRecords(s, events[0]);
      RunKeepsRecords(Step(s, events[0]), events[1..], t);
    }
  }

  lemma {:induction false} RunKeepsTexts(s: State, events: seq<Event>, t: State)
    requires Balanced(s) && Texts(s) && Leads(s, events, t) && !t.disturbed
    ensures Texts(t)
    decreases |events|
  {
    hide Enabled, Step, Balanced, Texts;
    if events != [] {
      var next := Step(s, events[0]);
      RunKeepsFlags(next, events[1..], t);
      StepKeepsBalance(s, events[0]);
      StepKeepsTexts(s, events[0]);
      RunKeepsTexts(next, events[1..], t);
    }
  }

  predicate Finished(s: State) {
    forall i :: 0 <= i < |s.writers| ==> s.writers[i].place.Done?
  }

  lemma {:induction false} NoHolders(writers: seq<Writer>, l: nat)
    requires forall i :: 0 <= i < |writers| ==> !Holds(writers[i], l)
    ensures Holders(writers, l) == 0
  {
    if writers != [] {
      NoHolders(writers[..|writers| - 1], l);
    }
  }

  /**
    Over any run: a writer holds at most the one lock of its current logger; a finished one has gone through all its
    ids and released each lock it took, once; the stream of a free lock is empty; and when all are finished every lock
    is free.
   */
  lemma LocksAreBalanced(loggers: nat, events: seq<Event>, t: State)
    requires loggers > 0 && Leads(Initial(loggers), events, t)
    ensures forall i :: 0 <= i < |t.writers| && t.writers[i].place.Done? ==>
                          && t.writers[i].logger.None? && t.writers[i].taken == t.writers[i].released
                          && t.writers[i].taken + t.writers[i].missed == |t.writers[i].ids|
    ensures forall i :: 0 <= i < |t.writers| && t.writers[i].logger.Some? ==>
                          t.writers[i].taken == t.writers[i].released + 1
    ensures forall l :: 0 <= l < |t.loggers| && t.loggers[l].depth == 0 ==> t.loggers[l].stream == ""
    ensures Finished(t) ==> forall l :: 0 <= l < |t.loggers| ==> t.loggers[l].depth == 0
  {
    hide Leads, Holders;
    InitialIsBalanced(loggers);
    RunIsBalanced(Initial(loggers), events, t);
    assert forall i :: 0 <= i < |t.writers| ==> WriterOk(t.writers[i], |t.loggers|);
    if Finished(t) {
      forall l | 0 <= l < |t.loggers| ensures t.loggers[l].depth == 0 {
        NoHolders(t.writers, l);
      }
    }
  }

  /** Over any run: the records of a finished statement are one for each logger that took it, in order. */
  lemma EachLoggerOnce(loggers: nat, events: seq<Event>, t: State, i: nat)
    requires loggers > 0 && Leads(Initial(loggers), events, t)
    requires i < |t.writers| && t.writers[i].place.Done?
    ensures LoggersOf(t.writers[i].records) == if t.writers[i].silent then [] else t.writers[i].accepted
  {
    hide Leads;
    InitialIsBalanced(loggers);
    RunKeepsRecords(Initial(loggers), events, t);
    assert RecordsOk(t.writers[i]);
  }

  /**
    Over any run in which no thread takes a lock again with text in the stream: all records of a statement carry the
    text streamed into it, which is none when its first logger did not take it.
   */
  lemma AllRecordsCarryTheText(loggers: nat, events: seq<Event>, t: State, i: nat, k: nat)
    requires loggers > 0 && Leads(Initial(loggers), events, t) && !t.disturbed
    requires i < |t.writers| && k < |t.writers[i].records|
    ensures t.writers[i].records[k].text == t.writers[i].streamed
    ensures t.writers[i].streamed == "" || FirstTook(t.writers[i])
  {
    hide Leads;
    InitialIsBalanced(loggers);
    RunKeepsTexts(Initial(loggers), events, t);
    assert TextOk(t.writers[i]);
  }

  // -------------------------------------------------------------------- statements inside statements

  /** What a thread holds, the last of its unfinished writers holds. */
  predicate Flat(s: State) {
    forall i, j :: 0 <= i < j < |s.writers| && s.writers[i].thread == s.writers[j].thread && s.writers[i].logger.Some?
                   ==> s.writers[j].place.Done?
  }

  lemma StartKeepsFlat(s: State, w: Writer)
    requires Flat(s) && !Started(s, w).nested
    ensures Flat(Started(s, w))
  {
    var t := Started(s, w);
    forall i, j | 0 <= i < j < |t.writers| && t.writers[i].logger.Some? && t.writers[i].thread == t.writers[j].thread
      ensures t.writers[j].place.Done?
    {
      assert t.writers[i] == s.writers[i];
      assert j < |s.writers| ==> t.writers[j] == s.writers[j];
      assert !HoldsAny(s.writers, w.thread);
    }
  }

  lemma ReplaceKeepsFlat(s: State, i: nat, w: Writer, t: State)
    requires Balanced(s) && Flat(s) && Running(s, i) && t.writers == s.writers[i := w]
    requires w.thread == s.writers[i].thread && !s.writers[i].place.Done?
    ensures Flat(t)
  {
    hide Balanced;
  }

  lemma StepKeepsFlat(s: State, e: Event)
    requires Balanced(s) && Flat(s) && Enabled(s, e) && !Step(s, e).nested
    ensures Flat(Step(s, e))
  {
    hide Balanced, Flat, HoldsAny;
    match e
    case Create(thread, ids, silent) => StartKeepsFlat(s, NewWriter(thread, ids, silent));
    case Lookup(i, found) =>
      var w := s.writers[i];
      var w' := if found then w.(place := Acquiring) else Missed(w);
      var t := s.(writers := s.writers[i := w']);
      ReplaceKeepsFlat(s, i, w', t);
      if !found {
        StartKeepsFlat(t, NewWriter(w.thread, [DEFAULT], false));
      }
    case _ =>
      assert Step(s, e).writers == s.writers[e.i := Step(s, e).writers[e.i]];
      ReplaceKeepsFlat(s, e.i, Step(s, e).writers[e.i], Step(s, e));
  }

  lemma {:induction false} HolderExists(writers: seq<Writer>, l: nat) returns (k: nat)
    requires Holders(writers, l) > 0
    ensures k < |writers| && Holds(writers[k], l)
  {
    k := |writers| - 1;
    if !Holds(writers[k], l) {
      k := HolderExists(writers[..k], l);
    }
  }

  /** Without statements inside statements a lock is never taken twice, so no text is disturbed. */
  lemma FlatIsUndisturbed(s: State, e: Event)
    requires Balanced(s) && Flat(s) && Enabled(s, e) && !s.disturbed
    ensures !Step(s, e).disturbed
  {
    hide Holders, HoldsAny, WithStream, StreamOf;
    if e.Acquire? {
      var w := s.writers[e.i];
      var l := w.ids[w.index];
      if s.loggers[l].depth > 0 {
        var k := HolderExists(s.writers, l);
      }
    }
  }

  lemma {:induction false} FlatRun(s: State, events: seq<Event>, t: State)
    requires Balanced(s) && Flat(s) && !s.disturbed && Leads(s, events, t) && !t.nested
    ensures Balanced(t) && Flat(t) && !t.disturbed
    decreases |events|
  {
    hide Enabled, Step, Balanced, Flat;
    if events != [] {
      var next := Step(s, events[0]);
      RunKeepsFlags(next, events[1..], t);
      StepKeepsBalance(s, events[0]);
      FlatIsUndisturbed(s, events[0]);
      StepKeepsFlat(s, events[0]);
      FlatRun(next, events[1..], t);
    }
  }

  /** Over any run without statements inside statements: all records of a statement carry the text streamed into it. */
  lemma UnnestedRecordsCarryTheText(loggers: nat, events: seq<Event>, t: State, i: nat, k: nat)
    requires loggers > 0 && Leads(Initial(loggers), events, t) && !t.nested
    requires i < |t.writers| && k < |t.writers[i].records|
    ensures t.writers[i].records[k].text == t.writers[i].streamed
    ensures t.writers[i].streamed == "" || FirstTook(t.writers[i])
  {
    hide Leads;
    InitialIsBalanced(loggers);
    FlatRun(Initial(loggers), events, t);
    AllRecordsCarryTheText(loggers, events, t, i, k);
  }

  /** The step a running writer takes next, lock permitting. */
  function NextOf(w: Writer, i: nat): Event {
    match w.place
    case Looking => Lookup(i, true)
    case Acquiring => Acquire(i, true)
    case Streaming => Close(i)
    case Gathering => Gather(i)
    case Emitting => Emit(i)
    case Dispatching => Finish(i)
    case Releasing => Release(i)
    case Done => Release(i)
  }

  /** The last unfinished writer of a thread. */
  lemma {:induction false} Youngest(s: State, i: nat) returns (j: nat)
    requires i < |s.writers| && !s.writers[i].place.Done?
    ensures i <= j && Running(s, j) && !s.writers[j].place.Done? && s.writers[j].thread == s.writers[i].thread
    decreases |s.writers| - i
  {
    j := i;
    if !Running(s, i) {
      var later :|
        i < later < |s.writers| && s.writers[later].thread == s.writers[i].thread && !s.writers[later].place.Done?;
      j := Youngest(s, later);
    }
  }

  // -------------------------------------------------------------------- the library's lock

  function Dispatchers(writers: seq<Writer>): nat {
    if writers == [] then 0
    else Dispatchers(writers[..|writers| - 1]) + if writers[|writers| - 1].place.Dispatching? then 1 else 0
  }

  /** The library's lock is held as often as writers dispatch, by their thread. */
  predicate LibraryOk(s: State) {
    && s.library.depth == Dispatchers(s.writers)
    && forall i :: 0 <= i < |s.writers| && s.writers[i].place.Dispatching? ==>
                     s.writers[i].proceed && s.library.owner == s.writers[i].thread
  }

  lemma {:induction false} DispatchersReplace(writers: seq<Writer>, i: nat, w: Writer)
    requires i < |writers|
    ensures Dispatchers(writers[i := w]) + (if writers[i].place.Dispatching? then 1 else 0) ==
            Dispatchers(writers) + if w.place.Dispatching? then 1 else 0
  {
    var n := |writers| - 1;
    if i == n {
      assert writers[i := w][..n] == writers[..n];
    } else {
      DispatchersReplace(writers[..n], i, w);
      assert writers[i := w][..n] == writers[..n][i := w];
    }
  }

  lemma {:induction false} DispatcherCounts(writers: seq<Writer>, i: nat)
    requires i < |writers| && writers[i].place.Dispatching?
    ensures Dispatchers(writers) > 0
  {
    if i < |writers| - 1 {
      DispatcherCounts(writers[..|writers| - 1], i);
    }
  }

  lemma {:induction false} DispatcherExists(writers: seq<Writer>) returns (k: nat)
    requires Dispatchers(writers) > 0
    ensures k < |writers| && writers[k].place.Dispatching?
  {
    k := |writers| - 1;
    if !writers[k].place.Dispatching? {
      k := DispatcherExists(writers[..k]);
    }
  }

  lemma StartKeepsLibrary(s: State, w: Writer)
    requires LibraryOk(s) && !w.place.Dispatching?
    ensures LibraryOk(Started(s, w))
  {
    hide HoldsAny, Dispatchers;
    DispatchersAppend(s.writers, w);
  }

  lemma DispatchersAppend(writers: seq<Writer>, w: Writer)
    requires !w.place.Dispatching?
    ensures Dispatchers(writers + [w]) == Dispatchers(writers)
  {
    assert (writers + [w])[..|writers|] == writers;
  }

  lemma ReplaceKeepsLibrary(s: State, i: nat, w: Writer, t: State)
    requires LibraryOk(s) && i < |s.writers| && t.writers == s.writers[i := w] && t.library == s.library
    requires !w.place.Dispatching? && !s.writers[i].place.Dispatching?
    ensures LibraryOk(t)
  {
    hide Dispatchers;
    DispatchersReplace(s.writers, i, w);
  }

  lemma EmitKeepsLibrary(s: State, i: nat)
    requires LibraryOk(s) && Enabled(s, Emit(i))
    ensures LibraryOk(Step(s, Emit(i)))
  {
    hide Dispatchers;
    var t := Step(s, Emit(i));
    DispatchersReplace(s.writers, i, t.writers[i]);
    forall k | 0 <= k < |s.writers| && s.writers[k].place.Dispatching? ensures s.library.depth > 0 {
      DispatcherCounts(s.writers, k);
    }
  }

  lemma FinishKeepsLibrary(s: State, i: nat)
    requires LibraryOk(s) && Enabled(s, Finish(i))
    ensures LibraryOk(Step(s, Finish(i)))
  {
    hide Dispatchers;
    DispatcherCounts(s.writers, i);
    DispatchersReplace(s.writers, i, Step(s, Finish(i)).writers[i]);
  }

  lemma StepKeepsLibrary(s: State, e: Event)
    requires LibraryOk(s) && Enabled(s, e)
    ensures LibraryOk(Step(s, e))
  {
    hide LibraryOk, HoldsAny;
    match e
    case Create(thread, ids, silent) => StartKeepsLibrary(s, NewWriter(thread, ids, silent));
    case Lookup(i, found) =>
      var w := s.writers[i];
      var w' := if found then w.(place := Acquiring) else Missed(w);
      var t := s.(writers := s.writers[i := w']);
      ReplaceKeepsLibrary(s, i, w', t);
      if !found {
        StartKeepsLibrary(t, NewWriter(w.thread, [DEFAULT], false));
      }
    case Emit(i) => EmitKeepsLibrary(s, i);
    case Finish(i) => FinishKeepsLibrary(s, i);
    case _ =>
      var t := Step(s, e);
      assert t.writers == s.writers[e.i := t.writers[e.i]];
      ReplaceKeepsLibrary(s, e.i, t.writers[e.i], t);
  }

  lemma {:induction false} RunKeepsLibrary(s: State, events: seq<Event>, t: State)
    requires LibraryOk(s) && Leads(s, events, t)
    ensures LibraryOk(t)
    decreases |events|
  {
    hide Enabled, Step, LibraryOk;
    if events != [] {
      StepKeepsLibrary(s, events[0]);
      RunKeepsLibrary(Step(s, events[0]), events[1..], t);
    }
  }

  lemma InitialIsFlat(loggers: nat)
    ensures Flat(Initial(loggers)) && LibraryOk(Initial(loggers))
  {
  }

  // -------------------------------------------------------------------- what goes wrong otherwise

  lemma LeadsFrom(s: State, e: Event, events: seq<Event>, t: State)
    requires Enabled(s, e) && Leads(Step(s, e), events, t)
    ensures Leads(s, [e] + events, t)
  {
    hide Enabled, Step;
    assert ([e] + events)[1..] == events;
  }

  /** The destructor begins, unless it is already at work. */
  function Closed(s: State, i: nat): State
    requires Running(s, i) && (s.writers[i].place.Streaming? || s.writers[i].place.Gathering?)
  {
    if s.writers[i].place.Streaming? then Step(s, Close(i)) else s
  }

  lemma DisturbedIsClosed(s: State, i: nat)
    requires Balanced(s) && Enabled(s, Acquire(i, true)) && TextOk(s.writers[i])
    ensures var w, s1 := s.writers[i], Step(s, Acquire(i, true));
      && Running(s1, i) && (s1.writers[i].place.Streaming? || s1.writers[i].place.Gathering?)
      && Enabled(Closed(s1, i), Gather(i))
      && StreamOf(Closed(s1, i), Closed(s1, i).writers[i]) == s.loggers[w.ids[w.index]].stream
      && Closed(s1, i).writers[i] == w.(place := Gathering, logger := Some(w.ids[w.index]), proceed := true,
                                        taken := w.taken + 1, accepted := w.accepted + [w.ids[w.index]])
  {
    assert WriterOk(s.writers[i], |s.loggers|);
    hide LocksOk, WritersOk, HoldsAny, TextOk;
  }

  lemma DisturbedIsGathered(s: State, i: nat)
    requires Enabled(s, Gather(i)) && s.writers[i].proceed && TextOk(s.writers[i].(proceed := false, place := Done))
    requires s.writers[i].logger.Some? && s.writers[i].logger.value < |s.loggers|
    requires s.writers[i].index < |s.writers[i].ids|
    requires s.writers[i].index == 0 ==> s.writers[i].streamed == "" && !s.writers[i].dispatched
    requires LibraryFree(s.library, s.writers[i].thread)
    ensures var w, t := s.writers[i], Step(s, Gather(i));
      && Enabled(t, Emit(i)) && StreamOf(t, t.writers[i]) == StreamOf(s, w) + w.streamed
      && t.writers[i].streamed == w.streamed && t.writers[i].silent == w.silent
      && t.writers[i].proceed && t.writers[i].logger == w.logger
  {
  }

  /**
    A statement that takes a lock with text in its stream, and is then brought to its end, is recorded with that text
    in front of its own.
   */
  lemma DisturbedRecordIsWrong(s: State, i: nat) returns (t: State, events: seq<Event>)
    requires Balanced(s) && Enabled(s, Acquire(i, true)) && TextOk(s.writers[i]) && !s.writers[i].silent
    requires LibraryFree(s.library, s.writers[i].thread)
    requires s.loggers[s.writers[i].ids[s.writers[i].index]].stream != ""
    ensures Leads(s, events, t) && i < |t.writers| && t.writers[i].streamed == s.writers[i].streamed
    ensures var w := t.writers[i];
      && w.records != []
      && w.records[|w.records| - 1].text == s.loggers[s.writers[i].ids[s.writers[i].index]].stream + w.streamed
      && w.records[|w.records| - 1].text != w.streamed
  {
    var w, s1 := s.writers[i], Step(s, Acquire(i, true));
    assert WriterOk(w, |s.loggers|);
    hide LocksOk, WritersOk;
    DisturbedIsClosed(s, i);
    var s2 := Closed(s1, i);
    assert s2.writers[i].logger.value < |s2.loggers|;
    DisturbedIsGathered(s2, i);
    var s3 := Step(s2, Gather(i));
    t := Step(s3, Emit(i));
    hide Step, Enabled, Balanced, TextOk, WriterOk, StreamOf;
    LeadsFrom(s3, Emit(i), [], t);
    events := [Emit(i)] + [];
    LeadsFrom(s2, Gather(i), events, t);
    events := [Gather(i)] + events;
    if s1.writers[i].place.Streaming? {
      LeadsFrom(s1, Close(i), events, t);
      events := [Close(i)] + events;
    }
    LeadsFrom(s, Acquire(i, true), events, t);
    events := [Acquire(i, true)] + events;
  }

  // -------------------------------------------------------------------- and the statement around it

  /**
    What another writer does to the stream of the lock a writer holds: nothing as long as that writer is the last
    to hold it; and when it is the last again, the stream is empty.
   */
  lemma OtherLeavesOrClears(s: State, e: Event, j: nat)
    requires Balanced(s) && Enabled(s, e) && j < |s.writers| && s.writers[j].logger.Some? && (e.Create? || e.i != j)
    ensures var t := Step(s, e);
      && j < |t.writers| && t.writers[j] == s.writers[j]
      && (Top(t.writers, j) ==> (Top(s.writers, j) && StreamOf(t, t.writers[j]) == StreamOf(s, s.writers[j]))
                                || StreamOf(t, t.writers[j]) == "")
  {
    hide LocksOk, HoldsAny;
    var t := Step(s, e);
    OthersStay(s, e, j);
    match e
    case Create(thread, ids, silent) => TopAppend(s.writers, NewWriter(thread, ids, silent), j);
    case Lookup(i, found) => OtherLooksUp(s, i, found, j);
    case Acquire(i, on) => OtherAcquires(s, i, on, j);
    case Release(i) => OtherReleases(s, i, j);
    case _ => OtherWorks(s, e, j);
  }

  lemma OtherLooksUp(s: State, i: nat, found: bool, j: nat)
    requires Balanced(s) && Enabled(s, Lookup(i, found)) && j < |s.writers| && s.writers[j].logger.Some? && i != j
    ensures var t := Step(s, Lookup(i, found));
      Top(t.writers, j) == Top(s.writers, j) && StreamOf(t, s.writers[j]) == StreamOf(s, s.writers[j])
  {
    hide LocksOk, HoldsAny;
    var w := s.writers[i];
    assert WriterOk(w, |s.loggers|);
    var w' := if found then w.(place := Acquiring) else Missed(w);
    TopReplace(s.writers, i, w', j);
    if !found {
      TopAppend(s.writers[i := w'], NewWriter(w.thread, [DEFAULT], false), j);
    }
  }

  lemma OtherAcquires(s: State, i: nat, on: bool, j: nat)
    requires Balanced(s) && Enabled(s, Acquire(i, on)) && j < |s.writers| && s.writers[j].logger.Some? && i != j
    ensures var t := Step(s, Acquire(i, on));
      Top(t.writers, j) ==> Top(s.writers, j) && StreamOf(t, s.writers[j]) == StreamOf(s, s.writers[j])
  {
    hide Holders, LocksOk;
    var t := Step(s, Acquire(i, on));
    AcquireKeepsBalance(s, i, on);
    RunningIsTop(t, i);
    assert WriterOk(s.writers[i], |s.loggers|);
    if t.writers[j].logger != t.writers[i].logger {
      TopReplace(s.writers, i, t.writers[i], j);
    }
  }

  lemma OtherReleases(s: State, i: nat, j: nat)
    requires Balanced(s) && Enabled(s, Release(i)) && j < |s.writers| && s.writers[j].logger.Some? && i != j
    ensures var t := Step(s, Release(i));
      Top(t.writers, j) ==> (Top(s.writers, j) && StreamOf(t, s.writers[j]) == StreamOf(s, s.writers[j]))
                            || StreamOf(t, s.writers[j]) == ""
  {
    hide Holders, LocksOk;
    var t := Step(s, Release(i));
    assert WriterOk(s.writers[j], |s.loggers|);
    if s.writers[i].logger.Some? {
      ReleaseIsOwn(s, i);
    }
    if s.writers[j].logger != s.writers[i].logger {
      TopReplace(s.writers, i, t.writers[i], j);
    }
  }

  lemma OtherWorks(s: State, e: Event, j: nat)
    requires Balanced(s) && Enabled(s, e) && Works(e) && j < |s.writers| && s.writers[j].logger.Some? && e.i != j
    ensures var t := Step(s, e);
      Top(t.writers, j) ==> Top(s.writers, j) && StreamOf(t, s.writers[j]) == StreamOf(s, s.writers[j])
  {
    hide Holders, LocksOk;
    var t := Step(s, e);
    WorkShape(s, e);
    if s.writers[e.i].logger.Some? {
      RunningIsTop(s, e.i);
    }
    hide Step, Balanced, Enabled;
    assert forall k :: 0 <= k < |s.writers| ==> t.writers[k].logger == s.writers[k].logger;
  }

  /** The statement is not yet given to its m-th logger. */
  predicate Active(w: Writer, m: nat) {
    w.index == m && (w.place.Streaming? || w.place.Gathering? || w.place.Emitting?)
  }

  /** The record of the m-th logger is there and too short. */
  predicate Short(w: Writer, m: nat, r: nat) {
    && w.streamed != "" && w.index >= m && (w.index > m || w.place.Dispatching? || w.place.Releasing? || w.place.Done?)
    && (w.silent || |w.records| > r) && (|w.records| > r ==> |w.records[r].text| < |w.streamed|)
  }

  /**
    The statement has lost text: until its m-th logger gets it, less is in the stream than was streamed; after that,
    the record of that logger, the r-th, is too short.
   */
  ghost predicate Lost(s: State, j: nat, m: nat, r: nat) {
    && j < |s.writers|
    && var w := s.writers[j];
       if Active(w, m) then
         && w.streamed != "" && |w.records| == r && w.proceed && w.logger.Some? && (w.dispatched ==> w.place.Emitting?)
         && (Top(s.writers, j) ==> |StreamOf(s, w)| < |w.streamed|)
       else Short(w, m, r)
  }

  lemma OwnKeepsLost(s: State, e: Event, j: nat, m: nat, r: nat)
    requires Balanced(s) && Enabled(s, e) && Lost(s, j, m, r) && !e.Create? && e.i == j
    ensures Lost(Step(s, e), j, m, r)
  {
    hide LocksOk, HoldsAny;
    assert WriterOk(s.writers[j], |s.loggers|);
    if s.writers[j].logger.Some? {
      RunningIsTop(s, j);
    }
    if Works(e) {
      OwnWorkKeepsLost(s, e, m, r);
    } else {
      OwnLockingKeepsLost(s, e, m, r);
    }
  }

  lemma OwnWorkKeepsLost(s: State, e: Event, m: nat, r: nat)
    requires Enabled(s, e) && Works(e) && Lost(s, e.i, m, r) && WriterOk(s.writers[e.i], |s.loggers|)
    requires s.writers[e.i].logger.Some? ==> Top(s.writers, e.i)
    ensures Lost(Step(s, e), e.i, m, r)
  {
    hide Step, Top, StreamOf, WriterOk;
    if Active(s.writers[e.i], m) {
      if e.Emit? {
        EmitMakesShort(s, e.i, m, r);
      } else {
        WorkKeepsLoss(s, e, m);
      }
    } else {
      WorkKeepsShort(s, e, m, r);
    }
  }

  lemma WorkKeepsShort(s: State, e: Event, m: nat, r: nat)
    requires Enabled(s, e) && Works(e) && Short(s.writers[e.i], m, r) && !Active(s.writers[e.i], m)
    ensures e.i < |Step(s, e).writers|
    ensures Short(Step(s, e).writers[e.i], m, r) && !Active(Step(s, e).writers[e.i], m)
  {
    hide StreamOf, WithStream;
  }

  lemma EmitMakesShort(s: State, i: nat, m: nat, r: nat)
    requires Enabled(s, Emit(i)) && Active(s.writers[i], m) && |s.writers[i].records| == r
    requires s.writers[i].streamed != "" && s.writers[i].proceed && s.writers[i].logger.Some?
    requires |StreamOf(s, s.writers[i])| < |s.writers[i].streamed|
    ensures var t := Step(s, Emit(i)); i < |t.writers| && Short(t.writers[i], m, r) && !Active(t.writers[i], m)
  {
    hide StreamOf;
  }

  lemma WorkKeepsLoss(s: State, e: Event, m: nat)
    requires Enabled(s, e) && Works(e) && !e.Emit? && Active(s.writers[e.i], m) && WriterOk(s.writers[e.i], |s.loggers|)
    requires s.writers[e.i].proceed && (s.writers[e.i].dispatched ==> s.writers[e.i].place.Emitting?)
    requires |StreamOf(s, s.writers[e.i])| < |s.writers[e.i].streamed|
    ensures var w, t := s.writers[e.i], Step(s, e);
      && e.i < |t.writers| && Active(t.writers[e.i], m) && t.writers[e.i].streamed != ""
      && t.writers[e.i].records == w.records && t.writers[e.i].proceed && t.writers[e.i].logger == w.logger
      && (t.writers[e.i].dispatched ==> t.writers[e.i].place.Emitting?)
      && |StreamOf(t, t.writers[e.i])| < |t.writers[e.i].streamed|
  {
  }

  lemma LockingKeepsShort(w: Writer, m: nat, r: nat)
    requires Short(w, m, r)
    ensures w.place.Looking? ==> Short(w.(place := Acquiring), m, r) && Short(Missed(w), m, r)
    ensures w.place.Acquiring? && w.index < |w.ids| ==> forall on :: Short(Acquired(w, on), m, r)
    ensures w.place.Releasing? ==> forall releases: nat :: Short(Advanced(w, releases), m, r)
  {
  }

  lemma OwnLockingKeepsLost(s: State, e: Event, m: nat, r: nat)
    requires Enabled(s, e) && (e.Lookup? || e.Acquire? || e.Release?) && Lost(s, e.i, m, r)
    requires WriterOk(s.writers[e.i], |s.loggers|)
    ensures Lost(Step(s, e), e.i, m, r)
  {
    hide HoldsAny, Top, StreamOf, WriterOk, Missed, Advanced, Acquired;
    var w := s.writers[e.i];
    assert Short(w, m, r);
    LockingKeepsShort(w, m, r);
    var w' := Step(s, e).writers[e.i];
    assert Short(w', m, r);
    assert !Active(w', m);
  }

  lemma StepKeepsLost(s: State, e: Event, j: nat, m: nat, r: nat)
    requires Balanced(s) && Enabled(s, e) && Lost(s, j, m, r)
    ensures Lost(Step(s, e), j, m, r)
  {
    hide Balanced, Step, Enabled;
    if !e.Create? && e.i == j {
      OwnKeepsLost(s, e, j, m, r);
    } else if s.writers[j].logger.Some? {
      OtherLeavesOrClears(s, e, j);
    } else {
      OthersGrow(s, e);
      OthersStay(s, e, j);
    }
  }

  lemma OthersGrow(s: State, e: Event)
    requires Enabled(s, e)
    ensures |Step(s, e).writers| >= |s.writers|
  {
    hide HoldsAny;
  }

  lemma {:induction false} RunKeepsLost(s: State, events: seq<Event>, t: State, j: nat, m: nat, r: nat)
    requires Balanced(s) && Lost(s, j, m, r) && Leads(s, events, t)
    ensures Lost(t, j, m, r)
    decreases |events|
  {
    hide Balanced, Enabled, Step, Lost;
    if events != [] {
      StepKeepsBalance(s, events[0]);
      StepKeepsLost(s, events[0], j, m, r);
      RunKeepsLost(Step(s, events[0]), events[1..], t, j, m, r);
    }
  }

  /**
    A statement with text, not yet given to its logger, during which another of its thread takes and releases the same
    lock: whatever happens then, the record that logger gets is shorter than the text streamed into it.
   */
  lemma OuterTextIsLost(s: State, k: nat, j: nat, events: seq<Event>, t: State)
    requires Balanced(s) && Enabled(s, Release(k)) && j < |s.writers| && j != k
    requires s.writers[j].logger.Some? && s.writers[k].logger == s.writers[j].logger
    requires s.writers[j].proceed && s.writers[j].streamed != ""
    requires var p := s.writers[j].place; p.Emitting? || ((p.Streaming? || p.Gathering?) && !s.writers[j].dispatched)
    requires Leads(Step(s, Release(k)), events, t)
    ensures var r := |s.writers[j].records|;
      && j < |t.writers| && |t.writers[j].records| >= r
      && (|t.writers[j].records| > r ==> |t.writers[j].records[r].text| < |t.writers[j].streamed|)
      && (t.writers[j].place.Done? && !t.writers[j].silent ==> |t.writers[j].records| > r)
  {
    hide Leads;
    var r, m := |s.writers[j].records|, s.writers[j].index;
    var next := Step(s, Release(k));
    assert Lost(next, j, m, r) by {
      assert WriterOk(s.writers[j], |s.loggers|);
      hide LocksOk;
      ReleaseIsOwn(s, k);
    }
    StepKeepsBalance(s, Release(k));
    hide Step, Enabled, Balanced;
    RunKeepsLost(next, events, t, j, m, r);
    RunKeepsRecordCount(next, events, t, j);
  }

  lemma {:induction false} RunKeepsRecordCount(s: State, events: seq<Event>, t: State, j: nat)
    requires Leads(s, events, t) && j < |s.writers|
    ensures j < |t.writers| && |t.writers[j].records| >= |s.writers[j].records|
    decreases |events|
  {
    hide Enabled, Step;
    if events != [] {
      StepKeepsRecordCount(s, events[0], j);
      RunKeepsRecordCount(Step(s, events[0]), events[1..], t, j);
    }
  }

  lemma StepKeepsRecordCount(s: State, e: Event, j: nat)
    requires Enabled(s, e) && j < |s.writers|
    ensures j < |Step(s, e).writers| && |Step(s, e).writers[j].records| >= |s.writers[j].records|
  {
    OthersGrow(s, e);
    OthersStay(s, e, j);
    if !e.Create? && e.i == j {
      OwnRecordsGrow(s, e);
    }
  }

  lemma OwnRecordsGrow(s: State, e: Event)
    requires Enabled(s, e) && !e.Create?
    ensures e.i < |Step(s, e).writers| && |Step(s, e).writers[e.i].records| >= |s.writers[e.i].records|
  {
    hide HoldsAny, StreamOf, WithStream;
  }

  /** A writer of one logger, as it is once that logger took it. */
  function Holding(thread: nat, l: nat): Writer {
    NewWriter(thread, [l], false).(
      place := Streaming, logger := Some(l), proceed := true, taken := 1, accepted := [] + [l])
  }

  function Waiting(thread: nat, l: nat): Writer {
    NewWriter(thread, [l], false).(place := Acquiring)
  }

  lemma LeadsOn(s: State, e: Event, t: State, events: seq<Event>, u: State)
    requires Enabled(s, e) && Step(s, e) == t && Leads(t, events, u)
    ensures Leads(s, [e] + events, u)
  {
    hide Enabled, Step;
    LeadsFrom(s, e, events, u);
  }

  /** One thread holds the one lock. */
  function Alone(): State {
    State([Logger(0, 1, "")], [Holding(0, 0)], false, false, FREE)
  }

  lemma AloneIsReached() returns (events: seq<Event>)
    ensures Leads(Initial(1), events, Alone())
  {
    var s1 := State([Logger(0, 0, "")], [NewWriter(0, [0], false)], false, false, FREE);
    var s2 := State([Logger(0, 0, "")], [Waiting(0, 0)], false, false, FREE);
    assert Step(s2, Acquire(0, true)) == Alone();
    assert Step(s1, Lookup(0, true)) == s2;
    assert Step(Initial(1), Create(0, [0], false)) == s1;
    hide Step, Enabled, Initial, Alone;
    LeadsOn(s2, Acquire(0, true), Alone(), [], Alone());
    events := [Acquire(0, true)] + [];
    LeadsOn(s1, Lookup(0, true), s2, events, Alone());
    events := [Lookup(0, true)] + events;
    LeadsOn(Initial(1), Create(0, [0], false), s1, events, Alone());
    events := [Create(0, [0], false)] + events;
  }

  /** From there: it logs a text, and again to the same logger. */
  lemma AloneIsDisturbed(text: string) returns (events: seq<Event>, t: State)
    ensures Leads(Alone(), events, t) && Enabled(t, Acquire(1, true)) && TextOk(t.writers[1]) && !t.writers[1].silent
    ensures t.loggers[t.writers[1].ids[t.writers[1].index]].stream == text
    ensures LibraryFree(t.library, t.writers[1].thread)
  {
    var s4 := State([Logger(0, 1, "" + text)], [Holding(0, 0).(streamed := "" + text)], false, false, FREE);
    var s5 := State(s4.loggers, s4.writers + [NewWriter(0, [0], false)], false, true, FREE);
    t := State(s4.loggers, s4.writers + [Waiting(0, 0)], false, true, FREE);
    assert Step(s5, Lookup(1, true)) == t;
    assert Step(s4, Create(0, [0], false)) == s5 by { assert s4.writers[0].logger.Some?; }
    assert Step(Alone(), Stream(0, text)) == s4;
    assert Enabled(t, Acquire(1, true));
    hide Step, Enabled, Alone;
    LeadsOn(s5, Lookup(1, true), t, [], t);
    events := [Lookup(1, true)] + [];
    LeadsOn(s4, Create(0, [0], false), s5, events, t);
    events := [Create(0, [0], false)] + events;
    LeadsOn(Alone(), Stream(0, text), s4, events, t);
    events := [Stream(0, text)] + events;
  }

  lemma {:induction false} LeadsThrough(s: State, first: seq<Event>, t: State, second: seq<Event>, u: State)
    requires Leads(s, first, t) && Leads(t, second, u)
    ensures Leads(s, first + second, u)
    decreases |first|
  {
    hide Enabled, Step;
    if first == [] {
      assert first + second == second;
    } else {
      LeadsThrough(Step(s, first[0]), first[1..], t, second, u);
      assert (first + second)[1..] == first[1..] + second;
    }
  }

  /** The way to a disturbed statement: a thread logs again while it is logging to the same logger. */
  lemma DisturbanceIsReached(text: string) returns (events: seq<Event>, t: State)
    ensures Leads(Initial(1), events, t) && Enabled(t, Acquire(1, true)) && TextOk(t.writers[1]) && !t.writers[1].silent
    ensures t.loggers[t.writers[1].ids[t.writers[1].index]].stream == text
    ensures LibraryFree(t.library, t.writers[1].thread)
  {
    var first := AloneIsReached();
    var second;
    second, t := AloneIsDisturbed(text);
    hide Leads, Initial, Alone;
    LeadsThrough(Initial(1), first, Alone(), second, t);
    events := first + second;
  }
}
