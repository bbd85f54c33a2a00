/**
  When the writers of external/easylogging++/easylogging++.cc can block each other. A thread that logs while it is
  logging waits for a lock while it holds others; which locks it may then wait for decides whether some run of some
  threads comes to a stop.
 */
module LockOrder {
  import opened Levels
  import opened WriterProtocol

  /** Pairs of a logger that is held and another that is logged to meanwhile. */
  type Nesting = set<(nat, nat)>

  // -------------------------------------------------------------------- what a thread waits for, and with what in hand

  predicate HeldBefore(writers: seq<Writer>, i: nat, l: nat)
    requires i < |writers|
  {
    exists k :: 0 <= k < i && writers[k].thread == writers[i].thread && writers[k].logger == Some(l)
  }

  /** The thread of a writer does not dispatch, and whatever it holds may be held while l is logged to. */
  predicate MayWait(writers: seq<Writer>, i: nat, l: nat, nesting: Nesting)
    requires i < |writers|
  {
    forall k :: 0 <= k < i && writers[k].thread == writers[i].thread ==>
                  && !writers[k].place.Dispatching?
                  && (writers[k].logger.Some? ==> (writers[k].logger.value, l) in nesting)
  }

  /** A writer that waits for a logger: its thread holds that one already, or may wait for it. */
  predicate InOrder(writers: seq<Writer>, i: nat, nesting: Nesting)
    requires i < |writers|
  {
    var w := writers[i];
    w.index < |w.ids| && (HeldBefore(writers, i, w.ids[w.index]) || MayWait(writers, i, w.ids[w.index], nesting))
  }

  /** A step by which no writer starts to wait but in order. */
  predicate Keeps(s: State, e: Event, nesting: Nesting) {
    e.Lookup? && e.found && e.i < |s.writers| ==> InOrder(s.writers, e.i, nesting)
  }

  /** A run of such steps. */
  predicate LeadsWithin(s: State, events: seq<Event>, t: State, nesting: Nesting)
    decreases |events|
  {
    if events == [] then s == t
    else
      && Enabled(s, events[0]) && Keeps(s, events[0], nesting)
      && LeadsWithin(Step(s, events[0]), events[1..], t, nesting)
  }

  predicate Ordered(s: State, nesting: Nesting) {
    forall i :: 0 <= i < |s.writers| && s.writers[i].place.Acquiring? ==> InOrder(s.writers, i, nesting)
  }

  lemma {:induction false} WithinLeads(s: State, events: seq<Event>, t: State, nesting: Nesting)
    requires LeadsWithin(s, events, t, nesting)
    ensures Leads(s, events, t)
    decreases |events|
  {
    hide Enabled, Step, Keeps;
    if events != [] {
      WithinLeads(Step(s, events[0]), events[1..], t, nesting);
    }
  }

  /** What a writer waits for, and with what in hand, depends on the writers of its thread before it. */
  lemma OrderStays(writers: seq<Writer>, others: seq<Writer>, i: nat, nesting: Nesting)
    requires i < |writers| && i < |others| && InOrder(writers, i, nesting) && others[i].thread == writers[i].thread
    requires others[i].ids == writers[i].ids && others[i].index == writers[i].index
    requires forall k :: 0 <= k < i && writers[i].thread in {writers[k].thread, others[k].thread} ==>
                           others[k] == writers[k]
    ensures InOrder(others, i, nesting)
  {
    var l := writers[i].ids[writers[i].index];
    if HeldBefore(writers, i, l) {
      var k :| 0 <= k < i && writers[k].thread == writers[i].thread && writers[k].logger == Some(l);
      assert others[k].logger == Some(l);
    }
  }

  /** A step changes one writer and adds some that do not wait. */
  lemma StepWriters(s: State, e: Event, k: nat)
    requires Enabled(s, e) && k < |Step(s, e).writers|
    ensures var t := Step(s, e);
      && |t.writers| >= |s.writers|
      && (k < |s.writers| ==>
            && t.writers[k].thread == s.writers[k].thread && t.writers[k].ids == s.writers[k].ids
            && (e.Create? || e.i != k ==> t.writers[k] == s.writers[k])
            && (t.writers[k].place.Acquiring? ==>
                  t.writers[k].index == s.writers[k].index && (s.writers[k].place.Acquiring? || e == Lookup(k, true))))
      && (k >= |s.writers| ==> !t.writers[k].place.Acquiring?)
  {
    hide Step, Enabled;
    OthersGrow(s, e);
    OthersStay(s, e, k);
    if !e.Create? && e.i == k {
      OwnWaits(s, e);
    }
  }

  /** What a step leaves of its own writer: where that waits, it starts to wait. */
  ghost predicate Waits(s: State, e: Event) {
    && Enabled(s, e) && !e.Create? && e.i < |s.writers| && e.i < |Step(s, e).writers|
    && var w, w' := s.writers[e.i], Step(s, e).writers[e.i];
       && w'.thread == w.thread && w'.ids == w.ids
       && (w'.place.Acquiring? ==> w'.index == w.index && e == Lookup(e.i, true))
  }

  lemma OwnWaits(s: State, e: Event)
    requires Enabled(s, e) && !e.Create?
    ensures Waits(s, e)
  {
    hide Waits;
    match e
    case Lookup(i, found) => LookupWaits(s, i, found);
    case Acquire(i, on) => LockingWaits(s, e);
    case Release(i) => LockingWaits(s, e);
    case _ => WorkWaits(s, e);
  }

  lemma LockingWaits(s: State, e: Event)
    requires Enabled(s, e) && (e.Acquire? || e.Release?)
    ensures Waits(s, e)
  {
  }

  lemma LookupWaits(s: State, i: nat, found: bool)
    requires Enabled(s, Lookup(i, found))
    ensures Waits(s, Lookup(i, found))
  {
    hide HoldsAny;
  }

  lemma WorkWaits(s: State, e: Event)
    requires Enabled(s, e) && Works(e)
    ensures Waits(s, e)
  {
    hide StreamOf, WithStream;
  }

  /** The writers of its thread before an unfinished one do not move. */
  lemma EarlierStays(s: State, e: Event, i: nat, k: nat)
    requires Enabled(s, e) && k < i < |s.writers|
    requires !s.writers[i].place.Done? && s.writers[k].thread == s.writers[i].thread
    ensures k < |Step(s, e).writers| && Step(s, e).writers[k] == s.writers[k]
  {
    hide Step;
    assert e.Create? || Running(s, e.i);
    OthersGrow(s, e);
    OthersStay(s, e, k);
  }

  lemma StepKeepsOrder(s: State, e: Event, nesting: Nesting)
    requires Ordered(s, nesting) && Enabled(s, e) && Keeps(s, e, nesting)
    ensures Ordered(Step(s, e), nesting)
  {
    hide InOrder;
    var t := Step(s, e);
    forall i | 0 <= i < |t.writers| && t.writers[i].place.Acquiring? ensures InOrder(t.writers, i, nesting) {
      hide Step;
      StepWriters(s, e, i);
      assert !s.writers[i].place.Done? by { hide Running; }
      forall k | 0 <= k < i && s.writers[i].thread in {s.writers[k].thread, t.writers[k].thread}
        ensures t.writers[k] == s.writers[k]
      {
        StepWriters(s, e, k);
        EarlierStays(s, e, i, k);
      }
      OrderStays(s.writers, t.writers, i, nesting);
    }
  }

  lemma {:induction false} RunKeepsOrder(s: State, events: seq<Event>, t: State, nesting: Nesting)
    requires Ordered(s, nesting) && LeadsWithin(s, events, t, nesting)
    ensures Ordered(t, nesting)
    decreases |events|
  {
    hide Enabled, Step, Keeps, Ordered;
    if events != [] {
      StepKeepsOrder(s, events[0], nesting);
      RunKeepsOrder(Step(s, events[0]), events[1..], t, nesting);
    }
  }

  // -------------------------------------------------------------------- some writer moves

  predicate CanStep(t: State, j: nat) {
    j < |t.writers| && !t.writers[j].place.Done? && Enabled(t, NextOf(t.writers[j], j))
  }

  ghost predicate CanMove(t: State) {
    exists j: nat :: CanStep(t, j)
  }

  /** A ranking of the loggers that every pair of the nesting goes up. */
  ghost predicate Ranked(nesting: Nesting, loggers: nat, rank: nat -> nat) {
    forall h, l :: (h, l) in nesting && h < loggers && l < loggers && h != l ==> rank(h) < rank(l)
  }

  function Highest(rank: nat -> nat, loggers: nat): nat {
    if loggers == 0 then 0
    else
      var below := Highest(rank, loggers - 1);
      if rank(loggers - 1) > below then rank(loggers - 1) else below
  }

  lemma {:induction false} HighestIs(rank: nat -> nat, loggers: nat, l: nat)
    requires l < loggers
    ensures rank(l) <= Highest(rank, loggers)
  {
    if l < loggers - 1 {
      HighestIs(rank, loggers - 1, l);
    }
  }

  /** A running writer that cannot step waits for a logger that another thread holds, or for the library. */
  lemma WhyBlocked(t: State, j: nat)
    requires Running(t, j) && !t.writers[j].place.Done? && WriterOk(t.writers[j], |t.loggers|) && !CanStep(t, j)
    ensures var w := t.writers[j];
      || (w.place.Acquiring? && !Free(t.loggers[w.ids[w.index]], w.thread))
      || (w.place.Emitting? && !LibraryFree(t.library, w.thread))
  {
  }

  lemma HeldIsFree(t: State, j: nat, l: nat)
    requires Balanced(t) && j < |t.writers| && l < |t.loggers| && HeldBefore(t.writers, j, l)
    ensures Free(t.loggers[l], t.writers[j].thread)
  {
    hide Holders, WriterOk;
  }

  /** The thread that dispatches can move. */
  lemma DispatcherMoves(t: State, nesting: Nesting)
    requires Balanced(t) && LibraryOk(t) && Ordered(t, nesting) && t.library.depth > 0
    ensures CanMove(t)
  {
    hide LocksOk, Dispatchers, CanStep;
    var k := DispatcherExists(t.writers);
    var j := Youngest(t, k);
    assert WriterOk(t.writers[j], |t.loggers|);
    if !CanStep(t, j) {
      WhyBlocked(t, j);
      assert LibraryFree(t.library, t.writers[j].thread);
      var l := t.writers[j].ids[t.writers[j].index];
      assert HeldBefore(t.writers, j, l);
      HeldIsFree(t, j, l);
    }
  }

  /** Whoever holds a logger can move, or waits for one of higher rank, or for the library. */
  lemma {:induction false} HolderMoves(t: State, l: nat, nesting: Nesting, rank: nat -> nat)
    requires Balanced(t) && LibraryOk(t) && Ordered(t, nesting) && Ranked(nesting, |t.loggers|, rank)
    requires l < |t.loggers| && t.loggers[l].depth > 0
    ensures CanMove(t)
    decreases Highest(rank, |t.loggers|) - rank(l)
  {
    hide LibraryOk, CanStep, Holders, Ordered;
    HighestIs(rank, |t.loggers|, l);
    var k := HolderExists(t.writers, l);
    assert WriterOk(t.writers[k], |t.loggers|);
    var j := Youngest(t, k);
    assert WriterOk(t.writers[j], |t.loggers|);
    if !CanStep(t, j) {
      WhyBlocked(t, j);
      if t.writers[j].place.Emitting? {
        DispatcherMoves(t, nesting);
      } else {
        var l' := WaitsHigher(t, k, j, l, nesting, rank);
        HighestIs(rank, |t.loggers|, l');
        HolderMoves(t, l', nesting, rank);
      }
    }
  }

  lemma WaitsHigher(t: State, k: nat, j: nat, l: nat, nesting: Nesting, rank: nat -> nat) returns (l': nat)
    requires Balanced(t) && Ordered(t, nesting) && Ranked(nesting, |t.loggers|, rank) && l < |t.loggers|
    requires k <= j < |t.writers| && t.writers[j].thread == t.writers[k].thread && t.writers[k].logger == Some(l)
    requires t.writers[j].place.Acquiring? && WriterOk(t.writers[j], |t.loggers|) && WriterOk(t.writers[k], |t.loggers|)
    requires !Free(t.loggers[t.writers[j].ids[t.writers[j].index]], t.writers[j].thread)
    ensures l' < |t.loggers| && t.loggers[l'].depth > 0 && rank(l) < rank(l')
  {
    hide Holders;
    l' := t.writers[j].ids[t.writers[j].index];
    assert k < j;
    if HeldBefore(t.writers, j, l') {
      HeldIsFree(t, j, l');
    }
    assert (l, l') in nesting;
  }

  lemma InitialIsOrdered(loggers: nat, nesting: Nesting)
    ensures Ordered(Initial(loggers), nesting)
  {
  }

  /**
    No deadlock: over any run in which a thread that holds loggers waits for others of higher rank only, and for none
    while it dispatches, some unfinished writer can always take its next step.
   */
  lemma SomeWriterMoves(loggers: nat, nesting: Nesting, rank: nat -> nat, events: seq<Event>, t: State)
    requires loggers > 0 && Ranked(nesting, loggers, rank)
    requires LeadsWithin(Initial(loggers), events, t, nesting) && !Finished(t)
    ensures CanMove(t)
  {
    hide LeadsWithin, Leads, LibraryOk, Ordered, LocksOk, CanStep, Ranked;
    InitialIsBalanced(loggers);
    InitialIsFlat(loggers);
    InitialIsOrdered(loggers, nesting);
    WithinLeads(Initial(loggers), events, t, nesting);
    RunIsBalanced(Initial(loggers), events, t);
    RunKeepsLibrary(Initial(loggers), events, t);
    RunKeepsOrder(Initial(loggers), events, t, nesting);
    RunKeepsLoggers(Initial(loggers), events, t);
    var i :| 0 <= i < |t.writers| && !t.writers[i].place.Done?;
    var j := Youngest(t, i);
    assert WriterOk(t.writers[j], |t.loggers|);
    if !CanStep(t, j) {
      WhyBlocked(t, j);
      if t.writers[j].place.Acquiring? {
        HolderMoves(t, t.writers[j].ids[t.writers[j].index], nesting, rank);
      } else {
        DispatcherMoves(t, nesting);
      }
    }
  }

  lemma {:induction false} RunKeepsLoggers(s: State, events: seq<Event>, t: State)
    requires Leads(s, events, t)
    ensures |t.loggers| == |s.loggers|
    decreases |events|
  {
    if events != [] {
      StepKeepsLoggers(s, events[0]);
      hide Enabled, Step;
      RunKeepsLoggers(Step(s, events[0]), events[1..], t);
    }
  }

  lemma StepKeepsLoggers(s: State, e: Event)
    requires Enabled(s, e)
    ensures |Step(s, e).loggers| == |s.loggers|
  {
    hide HoldsAny;
  }

  // -------------------------------------------------------------------- without statements inside statements

  lemma UnnestedKeeps(s: State, e: Event)
    requires Balanced(s) && Flat(s) && LibraryOk(s) && Enabled(s, e)
    ensures Keeps(s, e, {})
  {
    hide LocksOk, Dispatchers;
    if e.Lookup? && e.found {
      assert WriterOk(s.writers[e.i], |s.loggers|);
      forall k | 0 <= k < e.i && s.writers[k].thread == s.writers[e.i].thread
        ensures s.writers[k].logger.None? && !s.writers[k].place.Dispatching?
      {
        assert WriterOk(s.writers[k], |s.loggers|);
      }
    }
  }

  lemma {:induction false} UnnestedIsWithin(s: State, events: seq<Event>, t: State)
    requires Balanced(s) && Flat(s) && LibraryOk(s) && Leads(s, events, t) && !t.nested
    ensures LeadsWithin(s, events, t, {})
    decreases |events|
  {
    hide Enabled, Step, Keeps, Balanced, Flat, LibraryOk;
    if events != [] {
      var next := Step(s, events[0]);
      UnnestedKeeps(s, events[0]);
      RunKeepsFlags(next, events[1..], t);
      StepKeepsBalance(s, events[0]);
      StepKeepsFlat(s, events[0]);
      StepKeepsLibrary(s, events[0]);
      UnnestedIsWithin(next, events[1..], t);
    }
  }

  /** So it is without statements inside statements. */
  lemma UnnestedWritersMove(loggers: nat, events: seq<Event>, t: State)
    requires loggers > 0 && Leads(Initial(loggers), events, t) && !t.nested && !Finished(t)
    ensures CanMove(t)
  {
    hide Leads, LeadsWithin, CanMove;
    InitialIsBalanced(loggers);
    InitialIsFlat(loggers);
    UnnestedIsWithin(Initial(loggers), events, t);
    SomeWriterMoves(loggers, {}, l => 0, events, t);
  }

  // -------------------------------------------------------------------- rankings and cycles

  function Next(c: seq<nat>, i: nat): (k: nat)
    requires i < |c|
    ensures k < |c| && (|c| >= 2 ==> k != i)
  {
    if i + 1 < |c| then i + 1 else 0
  }

  predicate Distinct(c: seq<nat>) {
    forall i, j :: 0 <= i < j < |c| ==> c[i] != c[j]
  }

  /** Loggers of which each may be held while the next is logged to, and the last while the first is. */
  predicate IsCycle(c: seq<nat>, nesting: Nesting) {
    |c| >= 2 && Distinct(c) && forall i :: 0 <= i < |c| ==> (c[i], c[Next(c, i)]) in nesting
  }

  predicate Within(c: seq<nat>, nodes: set<nat>) {
    forall i :: 0 <= i < |c| ==> c[i] in nodes
  }

  predicate Sink(x: nat, nodes: set<nat>, nesting: Nesting) {
    forall y :: y in nodes && y != x ==> (x, y) !in nesting
  }

  ghost predicate RankedIn(nodes: set<nat>, nesting: Nesting, rank: nat -> nat) {
    && (forall h, l :: (h, l) in nesting && h in nodes && l in nodes && h != l ==> rank(h) < rank(l))
    && forall l :: l in nodes ==> rank(l) < |nodes|
  }

  ghost function Elements(path: seq<nat>): set<nat> {
    set i | 0 <= i < |path| :: path[i]
  }

  predicate IsPath(path: seq<nat>, nodes: set<nat>, nesting: Nesting) {
    && path != [] && Distinct(path) && Within(path, nodes)
    && forall i :: 0 < i < |path| ==> (path[i - 1], path[i]) in nesting
  }

  /** Where every logger has another behind it, following them comes back. */
  lemma {:induction false} Walk(nodes: set<nat>, nesting: Nesting, path: seq<nat>) returns (c: seq<nat>)
    requires IsPath(path, nodes, nesting) && forall x :: x in nodes ==> !Sink(x, nodes, nesting)
    ensures IsCycle(c, nesting) && Within(c, nodes)
    decreases |nodes - Elements(path)|
  {
    var last := path[|path| - 1];
    assert !Sink(last, nodes, nesting);
    var y :| y in nodes && y != last && (last, y) in nesting;
    if y in path {
      var p :| 0 <= p < |path| && path[p] == y;
      c := path[p..];
      CycleFrom(path, p, nodes, nesting);
    } else {
      PathGrows(nodes, nesting, path, y);
      hide IsPath, Elements, Sink;
      c := Walk(nodes, nesting, path + [y]);
    }
  }

  lemma PathGrows(nodes: set<nat>, nesting: Nesting, path: seq<nat>, y: nat)
    requires IsPath(path, nodes, nesting) && y in nodes && y !in path && (path[|path| - 1], y) in nesting
    ensures IsPath(path + [y], nodes, nesting)
    ensures |nodes - Elements(path + [y])| < |nodes - Elements(path)|
  {
    hide Elements;
    assert forall i :: 0 <= i < |path| ==> (path + [y])[i] == path[i];
    ElementsGrow(path, y);
    Smaller(nodes - Elements(path + [y]), nodes - Elements(path));
  }

  lemma ElementsGrow(path: seq<nat>, y: nat)
    ensures Elements(path + [y]) == Elements(path) + {y} && (y in Elements(path) ==> y in path)
  {
    var longer := path + [y];
    assert longer[|path|] == y && forall i :: 0 <= i < |path| ==> longer[i] == path[i];
  }

  lemma Smaller(a: set<nat>, b: set<nat>)
    requires a < b
    ensures |a| < |b|
  {
    var rest := b - a;
    assert b == a + rest && |b| == |a| + |rest|;
  }

  lemma CycleFrom(path: seq<nat>, p: nat, nodes: set<nat>, nesting: Nesting)
    requires IsPath(path, nodes, nesting) && p < |path| - 1 && (path[|path| - 1], path[p]) in nesting
    ensures IsCycle(path[p..], nesting) && Within(path[p..], nodes)
  {
    var c := path[p..];
    forall i | 0 <= i < |c| ensures (c[i], c[Next(c, i)]) in nesting {
      if i + 1 < |c| {
        assert c[i] == path[p + i + 1 - 1] && c[i + 1] == path[p + i + 1];
      }
    }
  }

  function Above(below: nat -> nat, x: nat, top: nat): nat -> nat {
    l => if l == x then top else below(l)
  }

  /** A logger behind which no other may be logged to goes on top. */
  lemma RankAbove(nodes: set<nat>, nesting: Nesting, below: nat -> nat, x: nat)
    requires x in nodes && Sink(x, nodes, nesting) && RankedIn(nodes - {x}, nesting, below)
    ensures RankedIn(nodes, nesting, Above(below, x, |nodes| - 1))
  {
    var rest, rank := nodes - {x}, Above(below, x, |nodes| - 1);
    assert |rest| == |nodes| - 1;
    forall l | l in nodes ensures rank(l) < |nodes| {
      assert l != x ==> l in rest;
    }
    forall h, l | (h, l) in nesting && h in nodes && l in nodes && h != l ensures rank(h) < rank(l) {
      assert h != x;
      assert h in rest && (l != x ==> l in rest);
    }
  }

  /** A nesting has a ranking or a cycle. */
  lemma {:induction false} RankOrCycle(nodes: set<nat>, nesting: Nesting)
    returns (ranked: bool, rank: nat -> nat, c: seq<nat>)
    ensures if ranked then RankedIn(nodes, nesting, rank) else IsCycle(c, nesting) && Within(c, nodes)
    decreases |nodes|
  {
    ranked, rank, c := true, l => 0, [];
    if nodes != {} {
      hide RankedIn, Above, Sink, IsCycle, Within, IsPath;
      if exists x :: x in nodes && Sink(x, nodes, nesting) {
        var x :| x in nodes && Sink(x, nodes, nesting);
        var below: nat -> nat;
        ranked, below, c := RankOrCycle(nodes - {x}, nesting);
        rank := Above(below, x, |nodes| - 1);
        if ranked {
          RankAbove(nodes, nesting, below, x);
        } else {
          WithinMore(c, nodes - {x}, nodes);
        }
      } else {
        var x :| x in nodes;
        ranked := false;
        PathOfOne(x, nodes, nesting);
        c := Walk(nodes, nesting, [x]);
      }
    }
  }

  lemma WithinMore(c: seq<nat>, few: set<nat>, many: set<nat>)
    requires few <= many && Within(c, few)
    ensures Within(c, many)
  {
  }

  lemma PathOfOne(x: nat, nodes: set<nat>, nesting: Nesting)
    requires x in nodes
    ensures IsPath([x], nodes, nesting)
  {
  }

  // -------------------------------------------------------------------- a cycle comes to a stop

  /** The loggers when the first k threads hold one logger of the cycle each. */
  function Locks(loggers: nat, c: seq<nat>, k: nat): (r: seq<Logger>)
    requires k <= |c| && forall i :: 0 <= i < |c| ==> c[i] < loggers
    ensures |r| == loggers
  {
    if k == 0 then seq(loggers, l => Logger(0, 0, "")) else Locks(loggers, c, k - 1)[c[k - 1] := Logger(k - 1, 1, "")]
  }

  lemma {:induction false} LocksAt(loggers: nat, c: seq<nat>, k: nat, i: nat)
    requires k <= |c| && i < |c| && Distinct(c) && forall i :: 0 <= i < |c| ==> c[i] < loggers
    ensures Locks(loggers, c, k)[c[i]] == if i < k then Logger(i, 1, "") else Logger(0, 0, "")
    decreases k
  {
    if k > 0 {
      LocksAt(loggers, c, k - 1, i);
      assert i != k - 1 ==> c[i] != c[k - 1];
    }
  }

  function Holdings(c: seq<nat>, k: nat): (r: seq<Writer>)
    requires k <= |c|
    ensures |r| == k
  {
    seq(k, i requires 0 <= i < |c| => Holding(i, c[i]))
  }

  function Waitings(c: seq<nat>, k: nat): (r: seq<Writer>)
    requires k <= |c|
    ensures |r| == k
  {
    seq(k, i requires 0 <= i < |c| => Waiting(i, c[Next(c, i)]))
  }

  predicate IsCycleOf(c: seq<nat>, loggers: nat, nesting: Nesting) {
    IsCycle(c, nesting) && forall i :: 0 <= i < |c| ==> c[i] < loggers
  }

  /** The first k threads hold a logger each. */
  function Apart(loggers: nat, c: seq<nat>, k: nat): State
    requires k <= |c| && forall i :: 0 <= i < |c| ==> c[i] < loggers
  {
    State(Locks(loggers, c, k), Holdings(c, k), false, false, FREE)
  }

  /** All threads do, and the first k of them wait for the next. */
  function Crossed(loggers: nat, c: seq<nat>, k: nat): State
    requires k <= |c| && forall i :: 0 <= i < |c| ==> c[i] < loggers
  {
    State(Locks(loggers, c, |c|), Holdings(c, |c|) + Waitings(c, k), false, k > 0, FREE)
  }

  lemma WithinOn(s: State, e: Event, t: State, events: seq<Event>, u: State, nesting: Nesting)
    requires Enabled(s, e) && Keeps(s, e, nesting) && Step(s, e) == t && LeadsWithin(t, events, u, nesting)
    ensures LeadsWithin(s, [e] + events, u, nesting)
  {
    hide Enabled, Step, Keeps;
    assert ([e] + events)[0] == e && ([e] + events)[1..] == events;
  }

  lemma {:induction false} WithinThrough(s: State, first: seq<Event>, t: State, second: seq<Event>, u: State,
                                         nesting: Nesting)
    requires LeadsWithin(s, first, t, nesting) && LeadsWithin(t, second, u, nesting)
    ensures LeadsWithin(s, first + second, u, nesting)
    decreases |first|
  {
    hide Enabled, Step, Keeps;
    if first == [] {
      assert first + second == second;
    } else {
      WithinThrough(Step(s, first[0]), first[1..], t, second, u, nesting);
      assert (first + second)[1..] == first[1..] + second;
    }
  }

  /** One more thread takes its logger. */
  lemma ApartStep(loggers: nat, c: seq<nat>, k: nat, nesting: Nesting) returns (events: seq<Event>)
    requires k < |c| && IsCycleOf(c, loggers, nesting)
    ensures LeadsWithin(Apart(loggers, c, k), events, Apart(loggers, c, k + 1), nesting)
  {
    var s, u := Apart(loggers, c, k), Apart(loggers, c, k + 1);
    var begun := NewWriter(k, [c[k]], false);
    var s1 := s.(writers := s.writers + [begun]);
    var s2 := s.(writers := s.writers + [Waiting(k, c[k])]);
    assert Step(s, Create(k, [c[k]], false)) == s1;
    assert Enabled(s1, Lookup(k, true)) && Keeps(s1, Lookup(k, true), nesting);
    assert s1.writers[k := Waiting(k, c[k])] == s2.writers;
    assert Step(s1, Lookup(k, true)) == s2;
    LocksAt(loggers, c, k, k);
    assert Enabled(s2, Acquire(k, true));
    assert s2.writers[k := Holding(k, c[k])] == u.writers;
    assert Step(s2, Acquire(k, true)) == u;
    hide Step, Enabled, Keeps, Apart;
    WithinOn(s2, Acquire(k, true), u, [], u, nesting);
    events := [Acquire(k, true)] + [];
    WithinOn(s1, Lookup(k, true), s2, events, u, nesting);
    events := [Lookup(k, true)] + events;
    WithinOn(s, Create(k, [c[k]], false), s1, events, u, nesting);
    events := [Create(k, [c[k]], false)] + events;
  }

  lemma CrossedMayWait(writers: seq<Writer>, c: seq<nat>, k: nat, nesting: Nesting)
    requires k < |c| && IsCycle(c, nesting)
    requires writers == Holdings(c, |c|) + Waitings(c, k) + [NewWriter(k, [c[Next(c, k)]], false)]
    ensures MayWait(writers, |c| + k, c[Next(c, k)], nesting)
  {
    assert forall j :: 0 <= j < |c| ==> writers[j] == Holding(j, c[j]);
    assert forall j :: |c| <= j < |c| + k ==> writers[j].thread == j - |c|;
  }

  /** One more thread waits for the next. */
  lemma CrossedStep(loggers: nat, c: seq<nat>, k: nat, nesting: Nesting) returns (events: seq<Event>)
    requires k < |c| && IsCycleOf(c, loggers, nesting)
    ensures LeadsWithin(Crossed(loggers, c, k), events, Crossed(loggers, c, k + 1), nesting)
  {
    var s, u := Crossed(loggers, c, k), Crossed(loggers, c, k + 1);
    var l, i := c[Next(c, k)], |c| + k;
    var s1 := s.(writers := s.writers + [NewWriter(k, [l], false)], nested := true);
    assert s.writers[k].thread == k && s.writers[k].logger.Some?;
    assert Step(s, Create(k, [l], false)) == s1;
    assert s1.writers[i] == NewWriter(k, [l], false);
    assert Enabled(s1, Lookup(i, true));
    CrossedMayWait(s1.writers, c, k, nesting);
    assert Keeps(s1, Lookup(i, true), nesting);
    assert s1.writers[i := Waiting(k, l)] == u.writers;
    assert Step(s1, Lookup(i, true)) == u;
    hide Step, Enabled, Keeps, Crossed;
    WithinOn(s1, Lookup(i, true), u, [], u, nesting);
    events := [Lookup(i, true)] + [];
    WithinOn(s, Create(k, [l], false), s1, events, u, nesting);
    events := [Create(k, [l], false)] + events;
  }

  lemma {:induction false} ApartIsReached(loggers: nat, c: seq<nat>, k: nat, nesting: Nesting)
    returns (events: seq<Event>)
    requires k <= |c| && IsCycleOf(c, loggers, nesting)
    ensures LeadsWithin(Initial(loggers), events, Apart(loggers, c, k), nesting)
    decreases k
  {
    events := [];
    if k == 0 {
      assert Initial(loggers) == Apart(loggers, c, 0);
    } else {
      hide LeadsWithin, IsCycleOf, Apart;
      var first := ApartIsReached(loggers, c, k - 1, nesting);
      var second := ApartStep(loggers, c, k - 1, nesting);
      WithinThrough(Initial(loggers), first, Apart(loggers, c, k - 1), second, Apart(loggers, c, k), nesting);
      events := first + second;
    }
  }

  lemma {:induction false} CrossedIsReached(loggers: nat, c: seq<nat>, k: nat, nesting: Nesting)
    returns (events: seq<Event>)
    requires k <= |c| && IsCycleOf(c, loggers, nesting)
    ensures LeadsWithin(Initial(loggers), events, Crossed(loggers, c, k), nesting)
    decreases k
  {
    if k == 0 {
      events := ApartIsReached(loggers, c, |c|, nesting);
      assert Apart(loggers, c, |c|) == Crossed(loggers, c, 0) by {
        assert Waitings(c, 0) == [] && Holdings(c, |c|) + [] == Holdings(c, |c|);
      }
    } else {
      hide LeadsWithin, IsCycleOf, Crossed;
      var first := CrossedIsReached(loggers, c, k - 1, nesting);
      var second := CrossedStep(loggers, c, k - 1, nesting);
      WithinThrough(Initial(loggers), first, Crossed(loggers, c, k - 1), second, Crossed(loggers, c, k), nesting);
      events := first + second;
    }
  }

  /** There each thread waits for a logger that another holds. */
  lemma CrossedIsStuck(loggers: nat, c: seq<nat>, nesting: Nesting)
    requires IsCycleOf(c, loggers, nesting)
    ensures !Finished(Crossed(loggers, c, |c|)) && !CanMove(Crossed(loggers, c, |c|))
  {
    var s, n := Crossed(loggers, c, |c|), |c|;
    assert s.writers[0] == Holding(0, c[0]);
    forall j: nat | j < |s.writers| ensures !CanStep(s, j) {
      if j < n {
        assert s.writers[j] == Holding(j, c[j]) && s.writers[n + j] == Waiting(j, c[Next(c, j)]);
      } else {
        assert s.writers[j] == Waiting(j - n, c[Next(c, j - n)]);
        LocksAt(loggers, c, n, Next(c, j - n));
      }
    }
  }

  // -------------------------------------------------------------------- exactly

  ghost function Below(n: nat): set<nat> {
    if n == 0 then {} else Below(n - 1) + {n - 1}
  }

  lemma {:induction false} BelowIs(n: nat)
    ensures forall l: nat :: l in Below(n) <==> l < n
  {
    if n > 0 {
      BelowIs(n - 1);
    }
  }

  /** No run within a nesting comes to a stop. */
  ghost predicate NeverStuck(loggers: nat, nesting: Nesting) {
    forall events, t :: LeadsWithin(Initial(loggers), events, t, nesting) && !Finished(t) ==> CanMove(t)
  }

  /**
    A program in which threads that hold loggers wait for others as a nesting says, and for none while they dispatch,
    never comes to a stop if and only if the loggers can be ranked so that every pair of the nesting goes up.
   */
  lemma NestingExactly(loggers: nat, nesting: Nesting)
    requires loggers > 0
    ensures NeverStuck(loggers, nesting) <==> exists rank: nat -> nat :: Ranked(nesting, loggers, rank)
  {
    hide LeadsWithin, CanMove, Finished, Initial;
    if NeverStuck(loggers, nesting) {
      BelowIs(loggers);
      var ranked, rank, c := RankOrCycle(Below(loggers), nesting);
      if ranked {
        assert Ranked(nesting, loggers, rank);
      } else {
        var events := CrossedIsReached(loggers, c, |c|, nesting);
        CrossedIsStuck(loggers, c, nesting);
        assert false;
      }
    }
    forall rank: nat -> nat | Ranked(nesting, loggers, rank) ensures NeverStuck(loggers, nesting) {
      forall events, t | LeadsWithin(Initial(loggers), events, t, nesting) && !Finished(t) ensures CanMove(t) {
        SomeWriterMoves(loggers, nesting, rank, events, t);
      }
    }
  }

  /** For one: two loggers, each logged to while the other is held. */
  lemma BothOrdersBlock(loggers: nat, a: nat, b: nat)
    requires a < loggers && b < loggers && a != b
    ensures !NeverStuck(loggers, {(a, b), (b, a)})
  {
    hide LeadsWithin, CanMove, Finished, Initial;
    var c, nesting := [a, b], {(a, b), (b, a)};
    var events := CrossedIsReached(loggers, c, 2, nesting);
    CrossedIsStuck(loggers, c, nesting);
  }

  // -------------------------------------------------------------------- logging while dispatching

  /** A writer of one logger that has been given its statement and dispatches it. */
  function DispatchingTo(thread: nat, l: nat): Writer {
    Holding(thread, l).(place := Dispatching, dispatched := true, records := [] + [Record(l, "")])
  }

  /** One that is about to. */
  function EmittingTo(thread: nat, l: nat): Writer {
    Holding(thread, l).(place := Emitting, dispatched := true)
  }

  /** A thread that dispatches to one logger waits for another, whose holder waits for the library. */
  function Entangled(loggers: nat, a: nat, b: nat): State
    requires a < loggers && b < loggers
  {
    State(Locks(loggers, [a, b], 2), [DispatchingTo(0, a), EmittingTo(1, b), Waiting(0, b)], false, true, Library(0, 1))
  }

  lemma EntangledIsStuck(loggers: nat, a: nat, b: nat)
    requires a < loggers && b < loggers && a != b
    ensures !Finished(Entangled(loggers, a, b)) && !CanMove(Entangled(loggers, a, b))
  {
    var s := Entangled(loggers, a, b);
    LocksAt(loggers, [a, b], 2, 1);
    assert !s.writers[0].place.Done?;
    forall j: nat | j < |s.writers| ensures !CanStep(s, j) {
      assert s.writers[2].thread == 0 && !s.writers[2].place.Done?;
    }
  }

  /** So a thread that logs to another logger while it dispatches can block, whatever the order of the loggers. */
  lemma DispatchingBlocks(loggers: nat, a: nat, b: nat) returns (events: seq<Event>)
    requires a < loggers && b < loggers && a != b
    ensures Leads(Initial(loggers), events, Entangled(loggers, a, b))
  {
    var c, nesting := [a, b], {(a, b), (b, a)};
    var first := ApartIsReached(loggers, c, 2, nesting);
    var s, u := Apart(loggers, c, 2), Entangled(loggers, a, b);
    hide LeadsWithin, Leads;
    WithinLeads(Initial(loggers), first, s, nesting);
    var second := ApartIsEntangled(loggers, a, b);
    LeadsThrough(Initial(loggers), first, s, second, u);
    events := first + second;
  }

  lemma ApartIsEntangled(loggers: nat, a: nat, b: nat) returns (events: seq<Event>)
    requires a < loggers && b < loggers && a != b
    ensures Leads(Apart(loggers, [a, b], 2), events, Entangled(loggers, a, b))
  {
    hide Apart, Entangled, Leads, OneDispatches;
    var first := ApartDispatches(loggers, a, b);
    var second := DispatchIsEntangled(loggers, a, b);
    LeadsThrough(Apart(loggers, [a, b], 2), first, OneDispatches(loggers, a, b), second, Entangled(loggers, a, b));
    events := first + second;
  }

  /** On the way there. */
  function OneDispatches(loggers: nat, a: nat, b: nat): State
    requires a < loggers && b < loggers
  {
    State(Locks(loggers, [a, b], 2), [DispatchingTo(0, a), Holding(1, b)], false, false, Library(0, 1))
  }

  lemma ApartDispatches(loggers: nat, a: nat, b: nat) returns (events: seq<Event>)
    requires a < loggers && b < loggers && a != b
    ensures Leads(Apart(loggers, [a, b], 2), events, OneDispatches(loggers, a, b))
  {
    LocksAt(loggers, [a, b], 2, 0);
    hide Locks;
    var s, u := Apart(loggers, [a, b], 2), OneDispatches(loggers, a, b);
    var one, two := Holding(0, a), Holding(1, b);
    assert s.writers == [one, two];
    var s1 := s.(writers := [one.(place := Gathering), two]);
    var s2 := s.(writers := [EmittingTo(0, a), two]);
    assert Step(s2, Emit(0)) == u;
    assert Step(s1, Gather(0)) == s2;
    assert Step(s, Close(0)) == s1;
    hide Step, Enabled, Apart, OneDispatches;
    LeadsOn(s2, Emit(0), u, [], u);
    events := [Emit(0)] + [];
    LeadsOn(s1, Gather(0), s2, events, u);
    events := [Gather(0)] + events;
    LeadsOn(s, Close(0), s1, events, u);
    events := [Close(0)] + events;
  }

  lemma DispatchIsEntangled(loggers: nat, a: nat, b: nat) returns (events: seq<Event>)
    requires a < loggers && b < loggers && a != b
    ensures Leads(OneDispatches(loggers, a, b), events, Entangled(loggers, a, b))
  {
    LocksAt(loggers, [a, b], 2, 1);
    hide Locks;
    var s, u := OneDispatches(loggers, a, b), Entangled(loggers, a, b);
    var one, two := DispatchingTo(0, a), Holding(1, b);
    var s1 := s.(writers := [one, two.(place := Gathering)]);
    var s2 := s.(writers := [one, EmittingTo(1, b)]);
    var s3 := s.(writers := [one, EmittingTo(1, b), NewWriter(0, [b], false)], nested := true);
    assert Step(s3, Lookup(2, true)) == u;
    assert Step(s2, Create(0, [b], false)) == s3 by { assert s2.writers[0].logger.Some?; }
    assert Step(s1, Gather(1)) == s2;
    assert Step(s, Close(1)) == s1;
    hide Step, Enabled, OneDispatches, Entangled;
    LeadsOn(s3, Lookup(2, true), u, [], u);
    events := [Lookup(2, true)] + [];
    LeadsOn(s2, Create(0, [b], false), s3, events, u);
    events := [Create(0, [b], false)] + events;
    LeadsOn(s1, Gather(1), s2, events, u);
    events := [Gather(1)] + events;
    LeadsOn(s, Close(1), s1, events, u);
    events := [Close(1)] + events;
  }
}
