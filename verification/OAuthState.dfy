/** The store of OAuth states between authorize and callback. Expired entries are collected on
    every call; with a clock that does not run backwards nobody can tell. */
module OAuthState {
  import opened Wrappers

  datatype Entry = Entry(state: string, domain: string, verifier: string,
                         redirect: string, client: string, expiresAt: real)

  type Entries = map<string, Entry>

  /** Entries without the expired ones. */
  function Live(entries: Entries, now: real): Entries {
    map s | s in entries && entries[s].expiresAt > now :: entries[s]
  }

  /** A call with the clock readings it makes: the collection's, and the later one of pop. */
  datatype Call = Put(entry: Entry, now: real) | Pop(state: string, now: real, later: real)

  function StateOf(c: Call): string {
    if c.Put? then c.entry.state else c.state
  }

  /** What pop does with the entry it finds: taken out in any case, returned unless expired. */
  function Answer(entries: Entries, state: string, later: real): Option<Entry> {
    if state in entries && entries[state].expiresAt > later then Some(entries[state]) else None
  }

  class InMemoryOAuthStateStore {
    var entries: Entries

    constructor ()
      ensures entries == map[]
    {
      entries := map[];
    }

    /** _gc: the expired keys are listed first, then removed one by one. */
    method Collect(now: real)
      modifies this
      ensures entries == Live(old(entries), now)
    {
      var expired := set s | s in entries && entries[s].expiresAt <= now;
      ghost var start := entries;
      while expired != {}
        invariant expired <= entries.Keys <= start.Keys
        invariant forall s :: s in entries ==> entries[s] == start[s]
        invariant forall s :: s in start && start[s].expiresAt > now ==> s in entries
        invariant forall s :: s in entries && s !in expired ==> start[s].expiresAt > now
        invariant forall s :: s in expired ==> start[s].expiresAt <= now
        decreases expired
      {
        var s :| s in expired;
        entries := entries - {s};
        expired := expired - {s};
      }
    }

    method Put(entry: Entry, now: real)
      modifies this
      ensures entries == Live(old(entries), now)[entry.state := entry]
    {
      Collect(now);
      entries := entries[entry.state := entry];
    }

    method Pop(state: string, now: real, later: real) returns (result: Option<Entry>)
      modifies this
      ensures entries == Live(old(entries), now) - {state}
      ensures result == Answer(Live(old(entries), now), state, later)
    {
      Collect(now);
      if state !in entries { return None; }
      var entry := entries[state];
      entries := entries - {state};
      result := if entry.expiresAt <= later then None else Some(entry);
    }
  }

  // ----- Runs of the collecting store and of a plain map -----

  function After(entries: Entries, c: Call, collect: bool): Entries {
    var kept := if collect then Live(entries, c.now) else entries;
    if c.Put? then kept[c.entry.state := c.entry] else kept - {c.state}
  }

  /** The entries after the first n calls. */
  function Contents(calls: seq<Call>, n: nat, collect: bool): Entries
    requires n <= |calls|
  {
    if n == 0 then map[] else After(Contents(calls, n - 1, collect), calls[n - 1], collect)
  }

  /** What the n-th call returns, when it is a pop. */
  function Output(calls: seq<Call>, n: nat, collect: bool): Option<Entry>
    requires n < |calls| && calls[n].Pop?
  {
    var before := Contents(calls, n, collect);
    Answer(if collect then Live(before, calls[n].now) else before, calls[n].state, calls[n].later)
  }

  function EndOf(c: Call): real {
    if c.Pop? then c.later else c.now
  }

  ghost predicate Monotone(calls: seq<Call>) {
    && (forall n :: 0 <= n < |calls| ==> calls[n].now <= EndOf(calls[n]))
    && (forall n :: 0 <= n < |calls| - 1 ==> EndOf(calls[n]) <= calls[n + 1].now)
  }

  /** Up to a moment the stores differ only by entries expired by then. */
  ghost predicate Agree(collected: Entries, plain: Entries, now: real) {
    forall s :: if s in collected then s in plain && collected[s] == plain[s]
                else s in plain ==> plain[s].expiresAt <= now
  }

  lemma {:induction false} StoresAgree(calls: seq<Call>, n: nat, now: real)
    requires Monotone(calls) && n <= |calls| && (n > 0 ==> EndOf(calls[n - 1]) <= now)
    ensures Agree(Contents(calls, n, true), Contents(calls, n, false), now)
  {
    if n > 0 {
      StoresAgree(calls, n - 1, calls[n - 1].now);
    }
  }

  /** With a clock that does not run backwards, collection is unobservable: every pop of every
      sequence of calls returns what it would from a plain map that checks expiry on pop. */
  lemma {:induction false} CollectionIsUnobservable(calls: seq<Call>, n: nat)
    requires Monotone(calls) && n < |calls| && calls[n].Pop?
    ensures Output(calls, n, true) == Output(calls, n, false)
  {
    StoresAgree(calls, n, calls[n].now);
  }

  /** What the history says: the entry of the latest call on this state, if that was a put. */
  function LatestPut(calls: seq<Call>, n: nat, state: string): Option<Entry>
    requires n <= |calls|
  {
    if n == 0 then None
    else if StateOf(calls[n - 1]) != state then LatestPut(calls, n - 1, state)
    else if calls[n - 1].Put? then Some(calls[n - 1].entry)
    else None
  }

  lemma {:induction false} PlainHoldsLatestPut(calls: seq<Call>, n: nat, state: string)
    requires n <= |calls|
    ensures var m := Contents(calls, n, false);
            LatestPut(calls, n, state) == if state in m then Some(m[state]) else None
  {
    if n > 0 {
      PlainHoldsLatestPut(calls, n - 1, state);
    }
  }

  /** A pop returns the entry put last under its state, if no pop took it since and it has not
      expired, and nothing otherwise. */
  lemma {:induction false} PopReturnsLatestUnexpiredPut(calls: seq<Call>, n: nat)
    requires Monotone(calls) && n < |calls| && calls[n].Pop?
    ensures Output(calls, n, true) == match LatestPut(calls, n, calls[n].state)
                                      case Some(e) => if e.expiresAt > calls[n].later then Some(e) else None
                                      case None => None
  {
    CollectionIsUnobservable(calls, n);
    PlainHoldsLatestPut(calls, n, calls[n].state);
  }

  lemma {:induction false} NothingLeft(calls: seq<Call>, i: nat, n: nat, state: string)
    requires i < n <= |calls| && calls[i] == Pop(state, calls[i].now, EndOf(calls[i]))
    requires forall k :: i < k < n && StateOf(calls[k]) == state ==> calls[k].Pop?
    ensures LatestPut(calls, n, state) == None
    decreases n
  {
    if n > i + 1 {
      NothingLeft(calls, i, n - 1, state);
    }
  }

  // ----- Any clock -----

  /** Since it was put, some call on another state saw the latest entry of this state expired. */
  predicate Collected(calls: seq<Call>, n: nat, state: string)
    requires n <= |calls|
  {
    if n == 0 || StateOf(calls[n - 1]) == state then false
    else
      var e := LatestPut(calls, n - 1, state);
      Collected(calls, n - 1, state) || (e.Some? && e.value.expiresAt <= calls[n - 1].now)
  }

  /** Whatever the clock does, the collecting store holds the latest put unless it was collected. */
  lemma {:induction false} CollectingHoldsLatestPut(calls: seq<Call>, n: nat, state: string)
    requires n <= |calls|
    ensures var m, e := Contents(calls, n, true), LatestPut(calls, n, state);
            if e.Some? && !Collected(calls, n, state) then state in m && m[state] == e.value else state !in m
  {
    if n > 0 {
      CollectingHoldsLatestPut(calls, n - 1, state);
    }
  }

  /** With any clock, collection goes unnoticed by a pop exactly when there is no entry to return,
      or it has expired when the pop looks, or no call since the put, this pop included, has seen
      it expired. */
  lemma {:induction false} UnobservableIff(calls: seq<Call>, n: nat)
    requires n < |calls| && calls[n].Pop?
    ensures var e := LatestPut(calls, n, calls[n].state);
            Output(calls, n, true) == Output(calls, n, false) <==>
            || e.None?
            || e.value.expiresAt <= calls[n].later
            || !(Collected(calls, n, calls[n].state) || e.value.expiresAt <= calls[n].now)
  {
    CollectingHoldsLatestPut(calls, n, calls[n].state);
    PlainHoldsLatestPut(calls, n, calls[n].state);
  }

  /** No replay, whatever the clock does: after a pop of a state, whatever it returned, later pops
      of it return nothing until it is put again. */
  lemma {:induction false} PoppedAtMostOnce(calls: seq<Call>, i: nat, j: nat)
    requires i < j < |calls| && calls[i].Pop? && calls[j].Pop? && calls[i].state == calls[j].state
    requires forall k :: i < k < j && StateOf(calls[k]) == calls[i].state ==> calls[k].Pop?
    ensures Output(calls, j, true) == None
  {
    CollectingHoldsLatestPut(calls, j, calls[j].state);
    NothingLeft(calls, i, j, calls[i].state);
  }

  /** The clock matters: when it runs back behind a collection, an entry that a plain map would
      still return is gone. */
  lemma {:induction false} BackwardClockIsObservable(e: Entry, other: Entry, later: real)
    requires e.state != other.state && later < e.expiresAt
    ensures var calls := [Put(e, later), Put(other, e.expiresAt), Pop(e.state, later, later)];
            Output(calls, 2, true) == None && Output(calls, 2, false) == Some(e)
  {
    var calls := [Put(e, later), Put(other, e.expiresAt), Pop(e.state, later, later)];
    var first := Contents(calls, 1, true);
    assert first == After(Contents(calls, 0, true), calls[0], true);
    assert e.state !in Live(first, e.expiresAt);
    assert Contents(calls, 2, true) == After(first, calls[1], true);
    var plain := Contents(calls, 1, false);
    assert plain == After(Contents(calls, 0, false), calls[0], false);
    assert Contents(calls, 2, false) == After(plain, calls[1], false);
  }
}
