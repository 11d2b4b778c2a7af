/** Concurrent callers of JWKSClient.get_key. A coroutine runs without interruption between two
    suspension points, so one step here is everything a caller does up to its next wait: for the
    lock, or for the response of its own fetch, which it awaits while holding the lock. */
module JwksCache {
  import opened Wrappers

  type Kid = string
  type Key = nat

  datatype Reason = FetchError | UnknownKid

  datatype Phase =
    | Start
    | WaitFirst
    | FetchFirst
    | WaitSecond
    | FetchSecond
    | Returned(key: Key)
    | Failed(reason: Reason)

  /** answers: the key sets this call's own successful fetches brought, oldest first; fetches: how
      many fetches it has begun. */
  datatype Caller = Caller(kid: Kid, force: bool, phase: Phase, answers: seq<map<Kid, Key>>, fetches: nat)

  /** fetched: the successful responses of all callers, oldest first; started: fetches begun. */
  datatype State = State(
    keys: map<Kid, Key>,
    fetchedAt: real,
    now: real,
    lock: Option<nat>,
    callers: seq<Caller>,
    fetched: seq<map<Kid, Key>>,
    started: nat)

  predicate Stale(s: State, ttl: real) {
    s.now - s.fetchedAt > ttl
  }

  function Move(s: State, i: nat, phase: Phase): State
    requires i < |s.callers|
  {
    s.(callers := s.callers[i := s.callers[i].(phase := phase)])
  }

  /** The caller takes the lock and begins a fetch. */
  function BeginFetch(s: State, i: nat, phase: Phase): State
    requires i < |s.callers|
  {
    s.(callers := s.callers[i := s.callers[i].(phase := phase, fetches := s.callers[i].fetches + 1)],
       lock := Some(i), started := s.started + 1)
  }

  // ----- Steps -----

  ghost predicate Arrive(s: State, s': State, kid: Kid, force: bool) {
    s' == s.(callers := s.callers + [Caller(kid, force, Start, [], 0)])
  }

  ghost predicate Tick(s: State, s': State) {
    s'.now >= s.now && s' == s.(now := s'.now)
  }

  predicate Hit(s: State, i: nat, ttl: real)
    requires i < |s.callers|
  {
    !s.callers[i].force && s.callers[i].kid in s.keys && !Stale(s, ttl)
  }

  /** The look-up outside the lock. */
  ghost predicate Enter(s: State, s': State, i: nat, ttl: real) {
    && i < |s.callers| && s.callers[i].phase.Start?
    && s' == Move(s, i, if Hit(s, i, ttl) then Returned(s.keys[s.callers[i].kid]) else WaitFirst)
  }

  /** Look up again under the lock, then refresh unless the cache is fresh and has keys; when
      nothing is fetched the lock is given back and the key set is consulted at once. */
  ghost predicate TakeFirst(s: State, s': State, i: nat, ttl: real) {
    && i < |s.callers| && s.callers[i].phase.WaitFirst? && s.lock.None?
    && var kid := s.callers[i].kid;
       if Hit(s, i, ttl) then s' == Move(s, i, Returned(s.keys[kid]))
       else if !Stale(s, ttl) && s.keys != map[] then
         s' == Move(s, i, if kid in s.keys then Returned(s.keys[kid]) else WaitSecond)
       else s' == BeginFetch(s, i, FetchFirst)
  }

  /** The second refresh is forced: it fetches whatever the cache holds by now. */
  ghost predicate TakeSecond(s: State, s': State, i: nat) {
    && i < |s.callers| && s.callers[i].phase.WaitSecond? && s.lock.None?
    && s' == BeginFetch(s, i, FetchSecond)
  }

  /** The fetch fails, or brings no usable key: an error, and the lock is given back. */
  ghost predicate FetchFails(s: State, s': State, i: nat) {
    && i < |s.callers| && (s.callers[i].phase.FetchFirst? || s.callers[i].phase.FetchSecond?)
    && s' == Move(s, i, Failed(FetchError)).(lock := None)
  }

  ghost predicate FetchSucceeds(s: State, s': State, i: nat, answer: map<Kid, Key>) {
    && i < |s.callers| && (s.callers[i].phase.FetchFirst? || s.callers[i].phase.FetchSecond?)
    && answer != map[]
    && var c := s.callers[i];
       var phase := if c.kid in answer then Returned(answer[c.kid])
                    else if c.phase.FetchFirst? then WaitSecond
                    else Failed(UnknownKid);
       s' == s.(keys := answer, fetchedAt := s.now, lock := None, fetched := s.fetched + [answer],
                callers := s.callers[i := c.(phase := phase, answers := c.answers + [answer])])
  }

  ghost predicate Acts(s: State, s': State, i: nat, ttl: real) {
    || Enter(s, s', i, ttl) || TakeFirst(s, s', i, ttl) || TakeSecond(s, s', i) || FetchFails(s, s', i)
    || exists answer :: FetchSucceeds(s, s', i, answer)
  }

  ghost predicate Next(s: State, s': State, ttl: real) {
    || Tick(s, s')
    || (exists kid, force :: Arrive(s, s', kid, force))
    || (exists i :: Acts(s, s', i, ttl))
  }

  ghost predicate Initial(s: State) {
    s.keys == map[] && s.lock.None? && s.callers == [] && s.fetched == [] && s.started == 0
  }

  ghost predicate IsRun(run: seq<State>, ttl: real) {
    run != [] && Initial(run[0]) && forall j, k :: 0 <= j && k == j + 1 < |run| ==> Next(run[j], run[k], ttl)
  }

  // ----- What a call does next -----

  /** Where a call goes that looks the cache up, or gets its turn at the lock: it returns a fresh key,
      except that force_refresh skips the look-up outside the lock; a fresh cache without the key
      sends it to its second turn, any other lets it fetch; and a second turn always fetches. */
  function Onwards(s: State, c: Caller, ttl: real): Phase {
    var young := s.now <= s.fetchedAt + ttl;
    if c.phase.Start? then
      if c.kid in s.keys && young && !c.force then Returned(s.keys[c.kid]) else WaitFirst
    else if c.phase.WaitSecond? then FetchSecond
    else if c.kid in s.keys && young then Returned(s.keys[c.kid])
    else if young && |s.keys| > 0 then WaitSecond
    else FetchFirst
  }

  /** Such a step exists, is the only one, and changes nothing but the call, and the lock and the
      count if it fetches. */
  lemma {:induction false} StepOfCall(s: State, i: nat, ttl: real) returns (s': State)
    requires i < |s.callers|
    requires var phase := s.callers[i].phase;
             phase.Start? || (s.lock.None? && (phase.WaitFirst? || phase.WaitSecond?))
    ensures Enter(s, s', i, ttl) || TakeFirst(s, s', i, ttl) || TakeSecond(s, s', i)
    ensures forall t :: Enter(s, t, i, ttl) || TakeFirst(s, t, i, ttl) || TakeSecond(s, t, i) ==> t == s'
    ensures var phase := Onwards(s, s.callers[i], ttl);
            var fetching := phase.FetchFirst? || phase.FetchSecond?;
            && |s'.callers| == |s.callers| && s'.callers[i].phase == phase
            && s'.lock == (if fetching then Some(i) else s.lock)
            && s'.started == s.started + (if fetching then 1 else 0)
            && s'.keys == s.keys && s'.fetchedAt == s.fetchedAt && s'.now == s.now && s'.fetched == s.fetched
  {
    assert |s.keys| > 0 <==> s.keys != map[];
    var phase := Onwards(s, s.callers[i], ttl);
    s' := if phase.FetchFirst? || phase.FetchSecond? then BeginFetch(s, i, phase) else Move(s, i, phase);
  }

  /** The fetch of a call may always fail, and may always bring any set of keys: it returns its key
      from the set, goes to its second turn after a first set without it, and fails after a second. */
  lemma {:induction false} EndOfFetch(s: State, i: nat, answer: map<Kid, Key>) returns (failed: State, got: State)
    requires i < |s.callers| && (s.callers[i].phase.FetchFirst? || s.callers[i].phase.FetchSecond?) && answer != map[]
    ensures FetchFails(s, failed, i) && failed.lock.None? && failed.keys == s.keys && failed.fetchedAt == s.fetchedAt
    ensures |failed.callers| == |s.callers| && failed.callers[i].phase == Failed(FetchError)
    ensures FetchSucceeds(s, got, i, answer) && got.lock.None? && got.keys == answer && got.fetchedAt == s.now
    ensures |got.callers| == |s.callers| && got.callers[i].answers == s.callers[i].answers + [answer]
    ensures var c := s.callers[i];
            && (c.kid in answer ==> got.callers[i].phase == Returned(answer[c.kid]))
            && (c.kid !in answer && c.phase.FetchFirst? ==> got.callers[i].phase == WaitSecond)
            && (c.kid !in answer && c.phase.FetchSecond? ==> got.callers[i].phase == Failed(UnknownKid))
  {
    var c := s.callers[i];
    var phase := if c.kid in answer then Returned(answer[c.kid])
                 else if c.phase.FetchFirst? then WaitSecond else Failed(UnknownKid);
    failed := Move(s, i, Failed(FetchError)).(lock := None);
    got := s.(keys := answer, fetchedAt := s.now, lock := None, fetched := s.fetched + [answer],
              callers := s.callers[i := c.(phase := phase, answers := c.answers + [answer])]);
  }

  // ----- Safety of every run -----

  /** What every step of a segment keeps, the segment keeps. */
  lemma {:induction false} Lasts(run: seq<State>, j: nat, k: nat, inv: State -> bool, step: (State, State) -> bool)
    requires j <= k < |run| && inv(run[j])
    requires forall m, n :: j <= m && n == m + 1 <= k ==> step(run[m], run[n])
    requires forall s, s' :: inv(s) && step(s, s') ==> inv(s')
    ensures inv(run[k])
    decreases k
  {
    if j < k {
      Lasts(run, j, k - 1, inv, step);
      assert step(run[k - 1], run[k]);
    }
  }

  predicate Fetching(c: Caller) {
    c.phase.FetchFirst? || c.phase.FetchSecond?
  }

  function Last<T>(s: seq<T>): T
    requires s != []
  {
    s[|s| - 1]
  }

  /** Exactly the lock holder is fetching. */
  ghost predicate LockMeansFetching(s: State) {
    forall i: nat :: (i < |s.callers| && Fetching(s.callers[i])) <==> s.lock == Some(i)
  }

  /** The cache is the latest successful answer. */
  ghost predicate CacheIsLatest(s: State) {
    if s.fetched == [] then s.keys == map[] else s.keys == Last(s.fetched) && s.keys != map[]
  }

  /** A caller told that its key is unknown has itself fetched a set without it. */
  ghost predicate UnknownIsFetched(s: State) {
    forall i :: 0 <= i < |s.callers| && s.callers[i].phase == Failed(UnknownKid) ==>
      s.callers[i].answers != [] && s.callers[i].kid !in Last(s.callers[i].answers)
  }

  ghost predicate Inv(s: State) {
    LockMeansFetching(s) && CacheIsLatest(s) && UnknownIsFetched(s)
  }

  lemma {:induction false} ActKeepsInv(s: State, s': State, i: nat, ttl: real)
    requires Inv(s) && Acts(s, s', i, ttl)
    ensures Inv(s')
  {
    ActKeepsLock(s, s', i, ttl);
    ActKeepsCache(s, s', i, ttl);
    ActKeepsUnknown(s, s', i, ttl);
  }

  lemma {:induction false} ActKeepsLock(s: State, s': State, i: nat, ttl: real)
    requires LockMeansFetching(s) && Acts(s, s', i, ttl)
    ensures LockMeansFetching(s')
  {
    assert forall j :: 0 <= j < |s.callers| && j != i ==> s'.callers[j] == s.callers[j];
    assert s.lock.Some? ==> s.lock.value < |s.callers| && Fetching(s.callers[s.lock.value]);
  }

  lemma {:induction false} ActKeepsCache(s: State, s': State, i: nat, ttl: real)
    requires CacheIsLatest(s) && Acts(s, s', i, ttl)
    ensures CacheIsLatest(s')
  {}

  lemma {:induction false} ActKeepsUnknown(s: State, s': State, i: nat, ttl: real)
    requires UnknownIsFetched(s) && Acts(s, s', i, ttl)
    ensures UnknownIsFetched(s')
  {
    assert forall j :: 0 <= j < |s.callers| && j != i ==> s'.callers[j] == s.callers[j];
  }

  lemma ArriveKeepsInv(s: State, s': State, kid: Kid, force: bool)
    requires Inv(s) && Arrive(s, s', kid, force)
    ensures Inv(s')
  {}

  lemma NextKeepsInv(s: State, s': State, ttl: real)
    requires Inv(s) && Next(s, s', ttl)
    ensures Inv(s')
  {
    if kid, force :| Arrive(s, s', kid, force) {
      ArriveKeepsInv(s, s', kid, force);
    } else if i :| Acts(s, s', i, ttl) {
      ActKeepsInv(s, s', i, ttl);
    }
  }

  lemma {:induction false} RunKeepsInv(run: seq<State>, k: nat, ttl: real)
    requires IsRun(run, ttl) && k < |run|
    ensures Inv(run[k])
  {
    if k > 0 {
      RunKeepsInv(run, k - 1, ttl);
      NextKeepsInv(run[k - 1], run[k], ttl);
    }
  }

  /** A key is returned only from the latest successful answer, and that answer is no older than
      the time to live, with or without force_refresh. */
  lemma ReturnedKeyIsCurrent(run: seq<State>, k: nat, i: nat, ttl: real)
    requires ttl >= 0.0 && IsRun(run, ttl) && k + 1 < |run| && i < |run[k].callers|
    requires Acts(run[k], run[k + 1], i, ttl) && run[k + 1].callers[i].phase.Returned?
    ensures var s, c := run[k + 1], run[k + 1].callers[i];
            s.fetched != [] && c.kid in Last(s.fetched) && c.phase.key == Last(s.fetched)[c.kid]
            && s.now - s.fetchedAt <= ttl
  {
    RunKeepsInv(run, k, ttl);
    RunKeepsInv(run, k + 1, ttl);
  }

  /** "Unknown kid" is raised only after a fetch made by that very call lacked it. */
  lemma UnknownKidWasFetchedFor(run: seq<State>, k: nat, i: nat, ttl: real)
    requires IsRun(run, ttl) && k < |run| && i < |run[k].callers|
    requires run[k].callers[i].phase == Failed(UnknownKid)
    ensures run[k].callers[i].answers != [] && run[k].callers[i].kid !in Last(run[k].callers[i].answers)
  {
    RunKeepsInv(run, k, ttl);
  }

  /** A failed fetch leaves keys and their age as they were; and a step of a caller that does not
      complete a fetch never touches them. */
  lemma OnlyASuccessChangesTheCache(s: State, s': State, i: nat, ttl: real)
    requires Acts(s, s', i, ttl)
    ensures (s'.keys == s.keys && s'.fetchedAt == s.fetchedAt && s'.fetched == s.fetched)
            || exists answer :: FetchSucceeds(s, s', i, answer)
  {}

  // ----- Which calls fetch -----

  predicate Ended(c: Caller) {
    c.phase.Returned? || c.phase.Failed?
  }

  /** The cache can serve the caller as it is. */
  predicate Serves(s: State, kid: Kid, ttl: real) {
    kid in s.keys && !Stale(s, ttl)
  }

  /** A call that has been at the lock, where the cache could serve it or not: only a call that was
      not served goes on, and it fetches before it ends. */
  ghost predicate AfterLock(c: Caller, served: bool) {
    match c.phase
    case Start | WaitFirst => false
    case WaitSecond => !served
    case FetchFirst | FetchSecond => !served && c.fetches > 0
    case Returned(_) | Failed(_) => c.fetches > 0 <==> !served
  }

  ghost predicate NotYetFetching(c: Caller) {
    (c.phase.Start? || c.phase.WaitFirst?) && c.fetches == 0
  }

  /** Before its turn at the lock a call has begun nothing, and it returns then only if unforced. */
  ghost predicate Unlocked(c: Caller) {
    NotYetFetching(c) || (c.phase.Returned? && !c.force && c.fetches == 0)
  }

  /** A step of one caller moves that caller only, and adds to its own count what it adds to
      the count of all. */
  lemma {:induction false} ActAdds(s: State, s': State, i: nat, ttl: real)
    requires Acts(s, s', i, ttl)
    ensures |s'.callers| == |s.callers| && i < |s.callers| && s'.callers == s.callers[i := s'.callers[i]]
    ensures s'.started - s.started == s'.callers[i].fetches - s.callers[i].fetches
  {}

  lemma {:induction false} AfterLockStep(s: State, s': State, i: nat, ttl: real, served: bool)
    requires Next(s, s', ttl) && i < |s.callers| && AfterLock(s.callers[i], served)
    ensures i < |s'.callers| && AfterLock(s'.callers[i], served) && s'.callers[i].force == s.callers[i].force
            && s'.callers[i].kid == s.callers[i].kid
  {
    if j: nat :| Acts(s, s', j, ttl) {
      ActAdds(s, s', j, ttl);
    }
  }

  /** A call that has not been at the lock gets there, or does not. */
  lemma {:induction false} LockStep(s: State, s': State, i: nat, ttl: real)
    requires Next(s, s', ttl) && i < |s.callers| && Unlocked(s.callers[i])
    ensures i < |s'.callers| && s'.callers[i].force == s.callers[i].force && s'.callers[i].kid == s.callers[i].kid
    ensures Unlocked(s'.callers[i])
            || (TakeFirst(s, s', i, ttl) && AfterLock(s'.callers[i], Serves(s, s.callers[i].kid, ttl)))
  {
    if j: nat :| Acts(s, s', j, ttl) {
      ActAdds(s, s', j, ttl);
    }
  }

  /** The call took its turn at the lock in step j and has behaved accordingly up to state k. */
  ghost predicate LockedAt(run: seq<State>, j: nat, k: nat, i: nat, ttl: real) {
    && j < k < |run| && i < |run[j].callers| && i < |run[k].callers| && TakeFirst(run[j], run[j + 1], i, ttl)
    && AfterLock(run[k].callers[i], Serves(run[j], run[k].callers[i].kid, ttl))
  }

  lemma {:induction false} StaysLockedAt(run: seq<State>, j: nat, k: nat, i: nat, ttl: real)
    requires k + 1 < |run| && Next(run[k], run[k + 1], ttl) && LockedAt(run, j, k, i, ttl)
    ensures LockedAt(run, j, k + 1, i, ttl)
  {
    AfterLockStep(run[k], run[k + 1], i, ttl, Serves(run[j], run[k].callers[i].kid, ttl));
  }

  lemma {:induction false} GetsLocked(run: seq<State>, k: nat, i: nat, ttl: real)
    requires k + 1 < |run| && Next(run[k], run[k + 1], ttl) && i < |run[k].callers| && Unlocked(run[k].callers[i])
    ensures i < |run[k + 1].callers| && (Unlocked(run[k + 1].callers[i]) || LockedAt(run, k, k + 1, i, ttl))
  {
    LockStep(run[k], run[k + 1], i, ttl);
  }

  /** Every call of every run has not been at the lock, or was there once and behaved accordingly. */
  lemma {:induction false} LockHistory(run: seq<State>, k: nat, i: nat, ttl: real) returns (j: nat)
    requires IsRun(run, ttl) && k < |run| && i < |run[k].callers|
    ensures Unlocked(run[k].callers[i]) || LockedAt(run, j, k, i, ttl)
  {
    j := 0;
    if k > 0 {
      assert Next(run[k - 1], run[k], ttl);
      if i >= |run[k - 1].callers| {
        Newcomer(run[k - 1], run[k], i, ttl);
      } else {
        j := LockHistory(run, k - 1, i, ttl);
        if Unlocked(run[k - 1].callers[i]) {
          j := k - 1;
          GetsLocked(run, k - 1, i, ttl);
        } else {
          StaysLockedAt(run, j, k - 1, i, ttl);
        }
      }
    }
  }

  lemma {:induction false} Newcomer(s: State, s': State, i: nat, ttl: real)
    requires Next(s, s', ttl) && |s.callers| <= i < |s'.callers|
    ensures Unlocked(s'.callers[i])
  {}

  /** In every run, a call with force_refresh that has ended took its turn at the lock at some step
      j, and has itself fetched exactly when the cache was stale there or did not have its kid. So
      the flag forces nothing but the turn at the lock. */
  lemma {:induction false} ForcedCallFetchesIff(run: seq<State>, k: nat, i: nat, ttl: real) returns (j: nat)
    requires IsRun(run, ttl) && k < |run| && i < |run[k].callers|
    requires run[k].callers[i].force && Ended(run[k].callers[i])
    ensures j < k && i < |run[j].callers| && TakeFirst(run[j], run[j + 1], i, ttl)
    ensures run[k].callers[i].fetches > 0 <==> Stale(run[j], ttl) || run[k].callers[i].kid !in run[j].keys
  {
    j := LockHistory(run, k, i, ttl);
  }

  // ----- Counting fetches -----

  function Fetches(callers: seq<Caller>): nat {
    if callers == [] then 0 else Fetches(callers[..|callers| - 1]) + callers[|callers| - 1].fetches
  }

  lemma {:induction false} FetchesUpdate(callers: seq<Caller>, i: nat, c: Caller)
    requires i < |callers|
    ensures Fetches(callers[i := c]) == Fetches(callers) - callers[i].fetches + c.fetches
  {
    var n := |callers| - 1;
    if i < n {
      FetchesUpdate(callers[..n], i, c);
      assert callers[i := c][..n] == callers[..n][i := c];
    } else {
      assert callers[i := c][..n] == callers[..n];
    }
  }

  lemma {:induction false} StartedIsSumStep(s: State, s': State, ttl: real)
    requires Next(s, s', ttl) && s.started == Fetches(s.callers)
    ensures s'.started == Fetches(s'.callers)
  {
    if i: nat :| Acts(s, s', i, ttl) {
      ActAdds(s, s', i, ttl);
      FetchesUpdate(s.callers, i, s'.callers[i]);
    } else if kid, force :| Arrive(s, s', kid, force) {
      assert s'.callers[..|s'.callers| - 1] == s.callers;
    }
  }

  lemma {:induction false} StartedIsSum(run: seq<State>, k: nat, ttl: real)
    requires IsRun(run, ttl) && k < |run|
    ensures run[k].started == Fetches(run[k].callers)
  {
    if k > 0 {
      StartedIsSum(run, k - 1, ttl);
      StartedIsSumStep(run[k - 1], run[k], ttl);
    }
  }

  /** Later, the same caller has begun as many fetches, and one more if it missed its key then and
      has moved on. */
  ghost predicate Onward(c: Caller, c': Caller) {
    c'.fetches >= c.fetches && (c.phase.WaitSecond? ==> c'.phase.WaitSecond? || c'.fetches > c.fetches)
  }

  ghost predicate AllOnward(before: seq<Caller>, after: seq<Caller>) {
    |before| <= |after| && forall i :: 0 <= i < |before| ==> Onward(before[i], after[i])
  }

  lemma {:induction false} OnwardStep(s: State, s': State, ttl: real)
    requires Next(s, s', ttl)
    ensures AllOnward(s.callers, s'.callers)
  {
    if j: nat :| Acts(s, s', j, ttl) {
      ActAdds(s, s', j, ttl);
      assert Onward(s.callers[j], s'.callers[j]);
    }
  }

  lemma {:induction false} OnwardTrans(a: seq<Caller>, b: seq<Caller>, c: seq<Caller>)
    requires AllOnward(a, b) && AllOnward(b, c)
    ensures AllOnward(a, c)
  {
    forall i | 0 <= i < |a| ensures Onward(a[i], c[i]) {
      assert Onward(a[i], b[i]) && Onward(b[i], c[i]);
    }
  }

  lemma {:induction false} OnwardRun(run: seq<State>, k: nat, m: nat, ttl: real)
    requires IsRun(run, ttl) && k <= m < |run|
    ensures AllOnward(run[k].callers, run[m].callers)
  {
    var start := run[k].callers;
    var inv := (s: State) => AllOnward(start, s.callers);
    var step := (s: State, s': State) => Next(s, s', ttl);
    forall s, s' | inv(s) && step(s, s') ensures inv(s') {
      OnwardStep(s, s', ttl);
      OnwardTrans(start, s.callers, s'.callers);
    }
    Lasts(run, k, m, inv, step);
  }

  /** How many of the first n callers had missed their key in one state and have ended in another. */
  function MissedAndEnded(before: seq<Caller>, after: seq<Caller>, n: nat): nat
    requires n <= |before| && n <= |after|
  {
    if n == 0 then 0
    else MissedAndEnded(before, after, n - 1) + if before[n - 1].phase.WaitSecond? && Ended(after[n - 1]) then 1 else 0
  }

  lemma {:induction false} MissesAddUp(before: seq<Caller>, after: seq<Caller>, n: nat)
    requires AllOnward(before, after) && n <= |before|
    ensures Fetches(after[..n]) >= Fetches(before[..n]) + MissedAndEnded(before, after, n)
  {
    if n > 0 {
      MissesAddUp(before, after, n - 1);
      assert before[..n][..n - 1] == before[..n - 1] && after[..n][..n - 1] == after[..n - 1];
    }
  }

  lemma {:induction false} FetchesGrow(callers: seq<Caller>, n: nat)
    requires n <= |callers|
    ensures Fetches(callers[..n]) <= Fetches(callers)
  {
    if n < |callers| {
      var m := |callers| - 1;
      FetchesGrow(callers[..m], n);
      assert callers[..m][..n] == callers[..n];
    } else {
      assert callers[..n] == callers;
    }
  }

  /** A rotated key is not shared. In every run, the callers that have missed their key after the
      first look-up each begin a fetch of their own before they end, whatever the cache holds by
      then: at least as many fetches begin as there are such callers. */
  lemma {:induction false} EachMissFetches(run: seq<State>, k: nat, m: nat, ttl: real)
    requires IsRun(run, ttl) && k <= m < |run|
    ensures |run[k].callers| <= |run[m].callers|
    ensures run[m].started - run[k].started >= MissedAndEnded(run[k].callers, run[m].callers, |run[k].callers|)
  {
    var before, after := run[k].callers, run[m].callers;
    OnwardRun(run, k, m, ttl);
    MissesAddUp(before, after, |before|);
    assert before[..|before|] == before;
    FetchesGrow(after, |before|);
    StartedIsSum(run, k, ttl);
    StartedIsSum(run, m, ttl);
  }

  // ----- One fetch for any number of callers -----

  ghost predicate Waiting(c: Caller, kids: set<Kid>) {
    c.kid in kids && (c.phase.Start? || c.phase.WaitFirst?)
  }

  /** The lock is free and the cache stale or empty; earlier calls have ended, the others ask for
      kids of this set and have not had their turn at the lock. */
  ghost predicate Facing(s: State, kids: set<Kid>, ttl: real) {
    && s.lock.None? && (Stale(s, ttl) || s.keys == map[])
    && forall i :: 0 <= i < |s.callers| ==> Ended(s.callers[i]) || Waiting(s.callers[i], kids)
  }

  /** Steps of a good spell: callers of the set arrive and act, fetches succeed and bring the set. */
  ghost predicate GoodNext(s: State, s': State, kids: set<Kid>, ttl: real) {
    || Tick(s, s')
    || (exists kid, force :: kid in kids && Arrive(s, s', kid, force))
    || (exists i :: Enter(s, s', i, ttl) || TakeFirst(s, s', i, ttl) || TakeSecond(s, s', i))
    || (exists i, answer: map<Kid, Key> :: kids <= answer.Keys && FetchSucceeds(s, s', i, answer))
  }

  /** What has been fetched since q is not stale. */
  ghost predicate FreshSince(q: State, s: State, ttl: real) {
    |s.fetched| > |q.fetched| ==> !Stale(s, ttl)
  }

  ghost predicate GoodSteps(run: seq<State>, q: State, j: nat, k: nat, kids: set<Kid>, ttl: real)
    requires j <= k < |run|
  {
    forall m, n :: j <= m && n == m + 1 <= k ==> GoodNext(run[m], run[n], kids, ttl) && FreshSince(q, run[m], ttl)
  }

  /** From the j-th state to the k-th, a good spell that began facing a stale cache. */
  ghost predicate GoodSpell(run: seq<State>, j: nat, k: nat, kids: set<Kid>, ttl: real) {
    j <= k < |run| && Facing(run[j], kids, ttl) && GoodSteps(run, run[j], j, k, kids, ttl)
  }

  /** A call that had ended when the spell began. */
  ghost predicate EndedBefore(q: State, s: State, i: nat)
    requires i < |s.callers|
  {
    i < |q.callers| && Ended(q.callers[i]) && s.callers[i] == q.callers[i]
  }

  ghost predicate OthersWait(q: State, s: State, kids: set<Kid>, except: Option<nat>) {
    forall i: nat :: i < |s.callers| && except != Some(i) ==> EndedBefore(q, s, i) || Waiting(s.callers[i], kids)
  }

  ghost predicate BeforeFetch(q: State, s: State, kids: set<Kid>, ttl: real) {
    && |s.fetched| == |q.fetched| && s.started == q.started && s.lock.None? && (Stale(s, ttl) || s.keys == map[])
    && OthersWait(q, s, kids, None)
  }

  ghost predicate DuringFetch(q: State, s: State, kids: set<Kid>, ttl: real) {
    && |s.fetched| == |q.fetched| && s.started == q.started + 1 && s.lock.Some? && s.lock.value < |s.callers|
    && (Stale(s, ttl) || s.keys == map[])
    && s.callers[s.lock.value].phase.FetchFirst? && s.callers[s.lock.value].kid in kids
    && OthersWait(q, s, kids, s.lock)
  }

  ghost predicate AfterFetch(q: State, s: State, kids: set<Kid>) {
    && |s.fetched| == |q.fetched| + 1 && s.started == q.started + 1 && s.lock.None? && kids <= s.keys.Keys
    && forall i: nat :: i < |s.callers| ==>
         EndedBefore(q, s, i) || Waiting(s.callers[i], kids) || s.callers[i].phase.Returned?
  }

  ghost predicate Spell(q: State, s: State, kids: set<Kid>, ttl: real) {
    BeforeFetch(q, s, kids, ttl) || DuringFetch(q, s, kids, ttl) || AfterFetch(q, s, kids)
  }

  lemma {:induction false} GoodArrival(q: State, s: State, s': State, kids: set<Kid>, ttl: real, kid: Kid, force: bool)
    requires Spell(q, s, kids, ttl) && kid in kids && Arrive(s, s', kid, force)
    ensures Spell(q, s', kids, ttl)
  {
    assert forall i :: 0 <= i < |s.callers| ==> s'.callers[i] == s.callers[i];
    assert Waiting(s'.callers[|s.callers|], kids);
  }

  lemma {:induction false} GoodLook(q: State, s: State, s': State, kids: set<Kid>, ttl: real, i: nat)
    requires Spell(q, s, kids, ttl) && FreshSince(q, s, ttl)
    requires Enter(s, s', i, ttl) || TakeFirst(s, s', i, ttl)
    ensures Spell(q, s', kids, ttl)
  {
    assert forall m :: 0 <= m < |s.callers| && m != i ==> s'.callers[m] == s.callers[m];
    assert !EndedBefore(q, s, i);
  }

  lemma {:induction false} NoSecondLook(q: State, s: State, s': State, kids: set<Kid>, ttl: real, i: nat)
    requires Spell(q, s, kids, ttl)
    ensures !TakeSecond(s, s', i)
  {}

  lemma {:induction false} GoodAnswer(q: State, s: State, s': State, kids: set<Kid>, ttl: real, i: nat,
      answer: map<Kid, Key>)
    requires Spell(q, s, kids, ttl) && kids <= answer.Keys && FetchSucceeds(s, s', i, answer)
    ensures AfterFetch(q, s', kids)
  {
    assert !EndedBefore(q, s, i) && !Waiting(s.callers[i], kids);
    assert forall m :: 0 <= m < |s.callers| && m != i ==> s'.callers[m] == s.callers[m];
  }

  lemma {:induction false} GoodStepKeepsSpell(q: State, s: State, s': State, kids: set<Kid>, ttl: real)
    requires Spell(q, s, kids, ttl) && GoodNext(s, s', kids, ttl) && FreshSince(q, s, ttl)
    ensures Spell(q, s', kids, ttl)
  {
    if kid, force :| kid in kids && Arrive(s, s', kid, force) {
      GoodArrival(q, s, s', kids, ttl, kid, force);
    } else if i: nat :| Enter(s, s', i, ttl) || TakeFirst(s, s', i, ttl) || TakeSecond(s, s', i) {
      NoSecondLook(q, s, s', kids, ttl, i);
      GoodLook(q, s, s', kids, ttl, i);
    } else if i: nat, answer: map<Kid, Key> :| kids <= answer.Keys && FetchSucceeds(s, s', i, answer) {
      GoodAnswer(q, s, s', kids, ttl, i, answer);
    } else {
      assert Tick(s, s');
    }
  }

  lemma {:induction false} SpellLasts(run: seq<State>, q: State, j: nat, k: nat, kids: set<Kid>, ttl: real)
    requires j <= k < |run| && GoodSteps(run, q, j, k, kids, ttl) && Spell(q, run[j], kids, ttl)
    ensures Spell(q, run[k], kids, ttl)
  {
    var inv := (s: State) => Spell(q, s, kids, ttl);
    var step := (s: State, s': State) => GoodNext(s, s', kids, ttl) && FreshSince(q, s, ttl);
    forall s, s' | inv(s) && step(s, s') ensures inv(s') {
      GoodStepKeepsSpell(q, s, s', kids, ttl);
    }
    Lasts(run, j, k, inv, step);
  }

  /** Whenever in a run the cache has gone stale, or is still empty, any number of callers start at
      most one fetch between them, as long as it succeeds with their kids and the answer does not go
      stale; and nobody fails but those who had failed before. */
  lemma {:induction false} OneFetchForAll(run: seq<State>, j: nat, k: nat, kids: set<Kid>, ttl: real)
    requires IsRun(run, ttl) && GoodSpell(run, j, k, kids, ttl)
    ensures run[j].started <= run[k].started <= run[j].started + 1
    ensures forall i :: 0 <= i < |run[k].callers| && run[k].callers[i].phase.Failed? ==>
              i < |run[j].callers| && run[k].callers[i] == run[j].callers[i]
  {
    assert BeforeFetch(run[j], run[j], kids, ttl);
    SpellLasts(run, run[j], j, k, kids, ttl);
    forall i: nat | i < |run[k].callers| && run[k].callers[i].phase.Failed? ensures EndedBefore(run[j], run[k], i) {}
  }

  // ----- A rotated key -----

  function Scene(keys: map<Kid, Key>, lock: Option<nat>, callers: seq<Caller>,
      fetched: seq<map<Kid, Key>>, started: nat): State
  {
    State(keys, 0.0, 0.0, lock, callers, fetched, started)
  }

  function Unforced(kid: Kid, phase: Phase): Caller {
    Caller(kid, false, phase, [], 0)
  }

  ghost predicate IsPath(path: seq<State>, ttl: real) {
    path != [] && forall j, k :: 0 <= j && k == j + 1 < |path| ==> Next(path[j], path[k], ttl)
  }

  lemma {:induction false} Joined(run: seq<State>, path: seq<State>, ttl: real) returns (joined: seq<State>)
    requires IsRun(run, ttl) && IsPath(path, ttl) && run[|run| - 1] == path[0]
    ensures IsRun(joined, ttl) && |joined| == |run| + |path| - 1
    ensures forall k :: 0 <= k < |path| ==> joined[|run| - 1 + k] == path[k]
  {
    joined := run + path[1..];
    forall j, k | 0 <= j && k == j + 1 < |joined| ensures Next(joined[j], joined[k], ttl) {
      if k < |run| {
        assert Next(run[j], run[k], ttl);
      } else {
        assert Next(path[j + 1 - |run|], path[k + 1 - |run|], ttl);
      }
    }
  }

  /** The first call fills the cache. */
  lemma {:induction false} FirstCall(a: Kid, answer: map<Kid, Key>, ttl: real) returns (run: seq<State>)
    requires ttl >= 0.0 && a in answer
    ensures IsRun(run, ttl)
    ensures run[|run| - 1] == Scene(answer, None, [Caller(a, false, Returned(answer[a]), [answer], 1)], [answer], 1)
  {
    var x0 := Scene(map[], None, [], [], 0);
    var x1, x2 := Scene(map[], None, [Unforced(a, Start)], [], 0), Scene(map[], None, [Unforced(a, WaitFirst)], [], 0);
    var x3 := Scene(map[], Some(0), [Caller(a, false, FetchFirst, [], 1)], [], 1);
    var x4 := Scene(answer, None, [Caller(a, false, Returned(answer[a]), [answer], 1)], [answer], 1);
    assert Arrive(x0, x1, a, false);
    assert Enter(x1, x2, 0, ttl);
    assert TakeFirst(x2, x3, 0, ttl);
    assert answer != map[] && x4.callers == x3.callers[0 := x4.callers[0]] && x4.fetched == x3.fetched + [answer];
    assert x4.callers[0] == x3.callers[0].(phase := Returned(answer[a]), answers := x3.callers[0].answers + [answer]);
    assert FetchSucceeds(x3, x4, 0, answer);
    assert Acts(x1, x2, 0, ttl) && Acts(x2, x3, 0, ttl) && Acts(x3, x4, 0, ttl);
    run := [x0, x1, x2, x3, x4];
  }

  /** A run that comes to face a cache gone stale in service: it has keys, an earlier call has ended
      and another arrives. */
  lemma {:induction false} StaleInService(a: Kid, answer: map<Kid, Key>, ttl: real) returns (run: seq<State>)
    requires ttl >= 0.0 && a in answer
    ensures IsRun(run, ttl)
    ensures var s := run[|run| - 1];
            Facing(s, {a}, ttl) && s.keys == answer && |s.callers| == 2 && Ended(s.callers[0])
  {
    var opening := FirstCall(a, answer, ttl);
    var x0 := opening[|opening| - 1];
    var x1 := x0.(now := ttl + 1.0);
    var x2 := x1.(callers := x1.callers + [Unforced(a, Start)]);
    assert Tick(x0, x1);
    assert Arrive(x1, x2, a, false);
    var path := [x0, x1, x2];
    run := Joined(opening, path, ttl);
    assert run[|opening| - 1 + 2] == path[2];
  }

  /** Two calls for a key that the fresh cache does not have. */
  lemma {:induction false} TwoMisses(first: Caller, r: Kid, keys: map<Kid, Key>, ttl: real) returns (path: seq<State>)
    requires ttl >= 0.0 && r !in keys && keys != map[]
    ensures IsPath(path, ttl) && path[0] == Scene(keys, None, [first], [keys], 1)
    ensures path[|path| - 1] == Scene(keys, None, [first, Unforced(r, WaitSecond), Unforced(r, WaitSecond)], [keys], 1)
  {
    var start, first', second := Unforced(r, Start), Unforced(r, WaitFirst), Unforced(r, WaitSecond);
    var x0, x1 := Scene(keys, None, [first], [keys], 1), Scene(keys, None, [first, start], [keys], 1);
    var x2, x3 := Scene(keys, None, [first, first'], [keys], 1), Scene(keys, None, [first, second], [keys], 1);
    var x4 := Scene(keys, None, [first, second, start], [keys], 1);
    var x5 := Scene(keys, None, [first, second, first'], [keys], 1);
    var x6 := Scene(keys, None, [first, second, second], [keys], 1);
    assert Arrive(x0, x1, r, false) && Arrive(x3, x4, r, false);
    assert Enter(x1, x2, 1, ttl) && Enter(x4, x5, 2, ttl);
    assert TakeFirst(x2, x3, 1, ttl) && TakeFirst(x5, x6, 2, ttl);
    assert Acts(x1, x2, 1, ttl) && Acts(x2, x3, 1, ttl) && Acts(x4, x5, 2, ttl) && Acts(x5, x6, 2, ttl);
    path := [x0, x1, x2, x3, x4, x5, x6];
  }

  /** Both fetch, the second although the first has brought the key. */
  lemma {:induction false} TwoFetches(first: Caller, r: Kid, keys: map<Kid, Key>, answer: map<Kid, Key>, ttl: real)
    returns (path: seq<State>)
    requires ttl >= 0.0 && r in answer
    ensures |path| == 4 && IsPath(path, ttl)
    ensures path[0] == Scene(keys, None, [first, Unforced(r, WaitSecond), Unforced(r, WaitSecond)], [keys], 1)
    ensures Serves(path[2], r, ttl) && path[2].started == 2 && path[3].started == 3
    ensures |path[3].callers| == 3 && path[3].callers[2] == Caller(r, false, FetchSecond, [], 1)
  {
    var w := Unforced(r, WaitSecond);
    var x0 := Scene(keys, None, [first, w, w], [keys], 1);
    var x1 := Scene(keys, Some(1), [first, Caller(r, false, FetchSecond, [], 1), w], [keys], 2);
    var done := Caller(r, false, Returned(answer[r]), [answer], 1);
    var x2 := Scene(answer, None, [first, done, w], [keys, answer], 2);
    var x3 := Scene(answer, Some(2), [first, done, Caller(r, false, FetchSecond, [], 1)], [keys, answer], 3);
    assert TakeSecond(x0, x1, 1);
    assert answer != map[] && x2.callers == x1.callers[1 := done] && x2.fetched == x1.fetched + [answer];
    assert done == x1.callers[1].(phase := Returned(answer[r]), answers := x1.callers[1].answers + [answer]);
    assert FetchSucceeds(x1, x2, 1, answer);
    assert TakeSecond(x2, x3, 2);
    assert Acts(x0, x1, 1, ttl) && Acts(x1, x2, 1, ttl) && Acts(x2, x3, 2, ttl);
    path := [x0, x1, x2, x3];
  }

  /** A run in which the last fetch begins while the cache is fresh and has the key that the
      fetching caller wants. */
  lemma {:induction false} RotationFetchesAgain(a: Kid, r: Kid, keys: map<Kid, Key>, answer: map<Kid, Key>, ttl: real)
    returns (run: seq<State>)
    requires ttl >= 0.0 && a in keys && r !in keys && r in answer
    ensures IsRun(run, ttl) && |run| >= 2
    ensures var n := |run| - 1;
            && Serves(run[n - 1], r, ttl) && run[n].started == run[n - 1].started + 1
            && |run[n].callers| == 3 && run[n].callers[2].kid == r && run[n].callers[2].phase.FetchSecond?
  {
    var opening := FirstCall(a, keys, ttl);
    var first := Caller(a, false, Returned(keys[a]), [keys], 1);
    var misses := TwoMisses(first, r, keys, ttl);
    var fetches := TwoFetches(first, r, keys, answer, ttl);
    run := Joined(opening, misses, ttl);
    run := Joined(run, fetches, ttl);
    assert run[|run| - 2] == fetches[2] && run[|run| - 1] == fetches[3];
  }
}
