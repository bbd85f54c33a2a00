/**
  Occasional logging in Easylogging++: HitCounter (external/easylogging++/easylogging++.h) and
  RegisteredHitCounters (external/easylogging++/easylogging++.cc), one counter per source location with a reset
  at kMaxLogPerCounter.
 */
module HitCounters {
  import opened Arithmetic

  /** kMaxLogPerCounter. */
  const MAX := 100000

  datatype Location = Location(file: string, line: nat)

  datatype Counter = Counter(location: Location, hits: nat)

  /** The number of values of a 64-bit size_t. */
  const MODULUS := 0x1_0000_0000_0000_0000

  /** HitCounter::increment. */
  function Increment(hits: nat): nat {
    (hits + 1) % MODULUS
  }

  /** HitCounter::validateHitCounts. */
  function Validate(hits: nat, n: nat): nat {
    (if hits >= MAX then if n >= 1 then MAX % n else 0 else hits) + 1
  }

  // -------------------------------------------------------------------- one location

  /** The counter after k calls of validateEveryN with the same n. */
  function HitsAfter(k: nat, n: nat): nat {
    if k == 0 then 0 else Validate(HitsAfter(k - 1, n), n)
  }

  /** The result of the k-th of these calls. */
  predicate Fires(k: nat, n: nat) {
    n >= 1 && HitsAfter(k, n) != 0 && HitsAfter(k, n) % n == 0
  }

  /** Up to kMaxLogPerCounter the reset keeps the remainder, and the counter stays within bounds. */
  lemma {:induction false} CounterFollows(k: nat, n: nat)
    requires 1 <= n <= MAX && k >= 1
    ensures 1 <= HitsAfter(k, n) <= MAX && HitsAfter(k, n) % n == k % n
    decreases k
  {
    if k == 1 {
      assert HitsAfter(0, n) == 0;
    } else {
      CounterFollows(k - 1, n);
      var hits := HitsAfter(k - 1, n);
      if hits >= MAX {
        RemainderIs(MAX % n, n, 0, MAX % n);
        NextRemainder(MAX % n, k - 1, n);
      } else {
        NextRemainder(hits, k - 1, n);
      }
    }
  }

  /** Beyond it the counter sticks one above the limit. */
  lemma {:induction false} CounterSticks(k: nat, n: nat)
    requires n > MAX
    ensures HitsAfter(k, n) == if k <= MAX then k else MAX + 1
    decreases k
  {
    if k > 0 {
      CounterSticks(k - 1, n);
      RemainderIs(MAX, n, 0, MAX);
    }
  }

  ghost predicate EveryNth(n: nat)
    requires n >= 1
  {
    forall k :: k >= 1 ==> (Fires(k, n) <==> k % n == 0)
  }

  /** A location logs on exactly every n-th call, for ever, if and only if n is at most kMaxLogPerCounter. */
  lemma EveryNthExactly(n: nat)
    requires n >= 1
    ensures EveryNth(n) <==> n <= MAX
  {
    if n <= MAX {
      forall k | k >= 1 ensures Fires(k, n) <==> k % n == 0 { CounterFollows(k, n); }
    } else if n == MAX + 1 {
      CounterSticks(n + 1, n);
      RemainderIs(n, n, 1, 0);
      RemainderIs(n + 1, n, 1, 1);
      assert Fires(n + 1, n) && (n + 1) % n != 0;
    } else {
      CounterSticks(n, n);
      RemainderIs(n, n, 1, 0);
      RemainderIs(MAX + 1, n, 0, MAX + 1);
      assert !Fires(n, n) && n % n == 0;
    }
  }

  // -------------------------------------------------------------------- many locations

  datatype Call = EveryN(at: Location, n: nat) | AfterN(at: Location, n: nat) | NTimes(at: Location, n: nat)

  /** The counter of a location, or 0 where none is registered. */
  function Hits(list: seq<Counter>, at: Location): nat {
    if list == [] then 0
    else if list[0].location == at then list[0].hits
    else Hits(list[1..], at)
  }

  /** The first counter of a location changed, or a new one registered. */
  function Update(list: seq<Counter>, at: Location, hits: nat): seq<Counter> {
    if list == [] then [Counter(at, hits)]
    else if list[0].location == at then [Counter(at, hits)] + list[1..]
    else [list[0]] + Update(list[1..], at, hits)
  }

  function NewHits(hits: nat, call: Call): nat {
    match call
    case EveryN(_, n) => Validate(hits, n)
    case AfterN(_, n) => if hits >= n then hits else Increment(hits)
    case NTimes(_, _) => Increment(hits)
  }

  function AfterCalls(calls: seq<Call>): seq<Counter> {
    if calls == [] then []
    else
      var list, call := AfterCalls(calls[..|calls| - 1]), calls[|calls| - 1];
      Update(list, call.at, NewHits(Hits(list, call.at), call))
  }

  function Count(calls: seq<Call>, at: Location): nat {
    if calls == [] then 0
    else Count(calls[..|calls| - 1], at) + if calls[|calls| - 1].at == at then 1 else 0
  }

  lemma {:induction false} UpdateHits(list: seq<Counter>, at: Location, hits: nat, other: Location)
    ensures Hits(Update(list, at, hits), other) == if other == at then hits else Hits(list, other)
  {
    if list != [] {
      if list[0].location == at {
        assert ([Counter(at, hits)] + list[1..])[1..] == list[1..];
      } else {
        UpdateHits(list[1..], at, hits, other);
      }
    }
  }

  /** In any interleaving with calls elsewhere, the counter of a location that always asks for every
      n-th call is that of its own calls alone. */
  lemma {:induction false} CountersAreIndependent(calls: seq<Call>, at: Location, n: nat)
    requires forall i :: 0 <= i < |calls| && calls[i].at == at ==> calls[i] == EveryN(at, n)
    ensures Hits(AfterCalls(calls), at) == HitsAfter(Count(calls, at), n)
    decreases |calls|
  {
    if calls != [] {
      var front, call := calls[..|calls| - 1], calls[|calls| - 1];
      CountersAreIndependent(front, at, n);
      UpdateHits(AfterCalls(front), call.at, NewHits(Hits(AfterCalls(front), call.at), call), at);
    }
  }

  class HitRegistry {
    var list: seq<Counter>

    constructor ()
      ensures list == []
    {
      list := [];
    }

    /** get, and registerNew for a location without a counter. */
    method GetOrRegister(at: Location) returns (i: nat)
      modifies this
      ensures i < |list| && list[i] == Counter(at, Hits(old(list), at))
      ensures i <= |old(list)| && forall j :: 0 <= j < i ==> old(list)[j].location != at
      ensures list == if i == |old(list)| then old(list) + [Counter(at, 0)] else old(list)
    {
      i := 0;
      while i < |list| && list[i].location != at
        invariant i <= |list| && list == old(list)
        invariant forall j :: 0 <= j < i ==> list[j].location != at
      {
        i := i + 1;
      }
      UpdateAt(list, at, i, 0);
      if i == |list| {
        list := list + [Counter(at, 0)];
      }
    }

    /** RegisteredHitCounters::validateEveryN. */
    method ValidateEveryN(at: Location, n: nat) returns (r: bool)
      modifies this
      ensures var hits := Validate(Hits(old(list), at), n);
              list == Update(old(list), at, hits) && r == (n >= 1 && hits != 0 && hits % n == 0)
    {
      var i := GetOrRegister(at);
      var hits := Validate(list[i].hits, n);
      UpdateAt(old(list), at, i, hits);
      list := list[i := Counter(at, hits)];
      r := n >= 1 && hits != 0 && hits % n == 0;
    }

    /** RegisteredHitCounters::validateAfterN. */
    method ValidateAfterN(at: Location, n: nat) returns (r: bool)
      modifies this
      ensures var hits := Hits(old(list), at);
              list == Update(old(list), at, NewHits(hits, AfterN(at, n))) && r == (hits >= n)
    {
      var i := GetOrRegister(at);
      var hits := list[i].hits;
      UpdateAt(old(list), at, i, NewHits(hits, AfterN(at, n)));
      if hits >= n {
        assert list == list[i := Counter(at, hits)];
        return true;
      }
      list := list[i := Counter(at, Increment(hits))];
      return false;
    }

    /** RegisteredHitCounters::validateNTimes. */
    method ValidateNTimes(at: Location, n: nat) returns (r: bool)
      modifies this
      ensures var hits := Increment(Hits(old(list), at));
              list == Update(old(list), at, hits) && r == (hits <= n)
    {
      var i := GetOrRegister(at);
      var hits := Increment(list[i].hits);
      UpdateAt(old(list), at, i, hits);
      list := list[i := Counter(at, hits)];
      r := hits <= n;
    }
  }

  /** The first counter of a location, by its index. */
  lemma {:induction false} UpdateAt(list: seq<Counter>, at: Location, i: nat, hits: nat)
    requires i <= |list| && forall j :: 0 <= j < i ==> list[j].location != at
    requires i < |list| ==> list[i].location == at
    ensures Hits(list, at) == if i < |list| then list[i].hits else 0
    ensures Update(list, at, hits) == if i < |list| then list[i := Counter(at, hits)] else list + [Counter(at, hits)]
  {
    if i > 0 {
      UpdateAt(list[1..], at, i - 1, hits);
    }
  }

  /** The run-level law: whatever happens at other locations, the call that makes k calls at a location
      returns true if and only if n divides k, and its counter never passes the limit. */
  lemma RunFiresEveryNth(calls: seq<Call>, at: Location, n: nat)
    requires 1 <= n <= MAX && calls != [] && calls[|calls| - 1].at == at
    requires forall i :: 0 <= i < |calls| && calls[i].at == at ==> calls[i] == EveryN(at, n)
    ensures var hits := Hits(AfterCalls(calls), at);
            hits <= MAX && (hits != 0 && hits % n == 0 <==> Count(calls, at) % n == 0)
  {
    CountersAreIndependent(calls, at, n);
    CounterFollows(Count(calls, at), n);
  }

  /** A location that always asks for the first n calls counts them modulo 2^64: after that many it begins again. */
  lemma {:induction false} NTimesFollows(calls: seq<Call>, at: Location)
    requires forall i :: 0 <= i < |calls| && calls[i].at == at ==> calls[i].NTimes?
    ensures Hits(AfterCalls(calls), at) == Count(calls, at) % MODULUS
    decreases |calls|
  {
    if calls != [] {
      var front, call := calls[..|calls| - 1], calls[|calls| - 1];
      NTimesFollows(front, at);
      UpdateHits(AfterCalls(front), call.at, NewHits(Hits(AfterCalls(front), call.at), call), at);
    }
  }

  /** A location that always asks for the calls after the first n counts up to n and stays there. */
  lemma {:induction false} AfterNFollows(calls: seq<Call>, at: Location, n: nat)
    requires n < MODULUS && forall i :: 0 <= i < |calls| && calls[i].at == at ==> calls[i] == AfterN(at, n)
    ensures Hits(AfterCalls(calls), at) == Min(Count(calls, at), n)
    decreases |calls|
  {
    if calls != [] {
      var front, call := calls[..|calls| - 1], calls[|calls| - 1];
      AfterNFollows(front, at, n);
      UpdateHits(AfterCalls(front), call.at, NewHits(Hits(AfterCalls(front), call.at), call), at);
    }
  }
}
