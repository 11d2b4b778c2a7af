/** The cache of composed input schemas under threads: one domain, any number of loads interleaved
    with schema changes. A change is atomic with its invalidation, but a load reads the runtime layer
    without the lock and stores its result later, and cached results have no time to live. */
module SchemaLoader {
  import opened Wrappers

  /** Schemas are named by their version: how often the runtime layer had changed when it was read. */
  datatype Load = Idle | Looking | Holding(version: nat) | Served(version: nat)

  datatype State = State(current: nat, cache: Option<nat>, loads: seq<Load>)

  function Move(s: State, i: nat, load: Load): State
    requires i < |s.loads|
  {
    s.(loads := s.loads[i := load])
  }

  // ----- Steps -----

  ghost predicate Begin(s: State, s': State, i: nat) {
    && i < |s.loads| && s.loads[i].Idle?
    && s' == Move(s, i, if s.cache.Some? then Served(s.cache.value) else Looking)
  }

  ghost predicate Fetch(s: State, s': State, i: nat) {
    i < |s.loads| && s.loads[i].Looking? && s' == Move(s, i, Holding(s.current))
  }

  ghost predicate Store(s: State, s': State, i: nat) {
    && i < |s.loads| && s.loads[i].Holding?
    && s' == Move(s, i, Served(s.loads[i].version)).(cache := Some(s.loads[i].version))
  }

  /** apply_runtime_override and clear_runtime_override: the layer changes and the cache is emptied. */
  ghost predicate Change(s: State, s': State) {
    s' == s.(current := s.current + 1, cache := None)
  }

  ghost predicate Reset(s: State, s': State) {
    s' == s.(cache := None)
  }

  ghost predicate Arrive(s: State, s': State) {
    s' == s.(loads := s.loads + [Idle])
  }

  ghost predicate Next(s: State, s': State) {
    || (exists i :: Begin(s, s', i) || Fetch(s, s', i) || Store(s, s', i))
    || Change(s, s') || Reset(s, s') || Arrive(s, s')
  }

  ghost predicate IsPath(path: seq<State>) {
    path != [] && forall k :: 0 <= k < |path| - 1 ==> Next(path[k], path[k + 1])
  }

  // ----- What a load does left alone -----

  /** A change always can happen; and a load that finds the cache empty reads the present version,
      caches it and is served it. */
  lemma {:induction false} FreshLoad(before: State, i: nat) returns (path: seq<State>)
    requires i < |before.loads| && before.loads[i].Idle?
    ensures IsPath(path) && path[0] == before && |path| > 1 && Change(before, path[1])
    ensures var last, version := path[|path| - 1], before.current + 1;
            && i < |last.loads| && last.loads[i] == Served(version)
            && last.cache == Some(version) && last.current == version
  {
    var version := before.current + 1;
    var x0 := State(version, None, before.loads);
    var x1, x2 := Move(x0, i, Looking), Move(x0, i, Holding(version));
    var x3 := Move(x0, i, Served(version)).(cache := Some(version));
    assert x2.loads == x1.loads[i := Holding(version)] && x3.loads == x2.loads[i := Served(version)];
    assert Change(before, x0);
    assert Begin(x0, x1, i) && Fetch(x1, x2, i) && Store(x2, x3, i);
    path := [before, x0, x1, x2, x3];
  }

  // ----- When a change takes effect -----

  /** A load is under way that has read an older version. */
  ghost predicate OlderInFlight(s: State, w: nat) {
    exists i :: 0 <= i < |s.loads| && s.loads[i].Holding? && s.loads[i].version < w
  }

  ghost predicate ServedAlready(s: State, i: nat) {
    i < |s.loads| && s.loads[i].Served?
  }

  /** Nothing older than w is cached, held, or served to a load that was not served before. */
  ghost predicate NothingOlder(start: State, s: State, w: nat) {
    && s.current >= w && (s.cache.Some? ==> s.cache.value >= w)
    && forall i: nat :: i < |s.loads| && !ServedAlready(start, i) && (s.loads[i].Holding? || s.loads[i].Served?) ==>
         s.loads[i].version >= w
  }

  /** Loads that were served before the change stay as they were. */
  ghost predicate KeepsServed(start: State, s: State) {
    forall i: nat :: ServedAlready(start, i) ==> i < |s.loads| && s.loads[i] == start.loads[i]
  }

  lemma {:induction false} StepKeepsNothingOlder(start: State, s: State, s': State, w: nat)
    requires Next(s, s') && NothingOlder(start, s, w) && KeepsServed(start, s)
    ensures NothingOlder(start, s', w) && KeepsServed(start, s')
  {
    if i: nat :| Begin(s, s', i) || Fetch(s, s', i) || Store(s, s', i) {
      assert !ServedAlready(start, i);
      assert forall j :: 0 <= j < |s.loads| && j != i ==> s'.loads[j] == s.loads[j];
    }
  }

  lemma {:induction false} PathKeepsNothingOlder(path: seq<State>, k: nat, w: nat)
    requires IsPath(path) && k < |path| && NothingOlder(path[0], path[0], w)
    ensures NothingOlder(path[0], path[k], w) && KeepsServed(path[0], path[k])
  {
    if k > 0 {
      PathKeepsNothingOlder(path, k - 1, w);
      StepKeepsNothingOlder(path[0], path[k - 1], path[k], w);
    }
  }

  /** From here on, every load not served yet gets version w or a later one. */
  ghost predicate InEffect(s: State, w: nat) {
    forall path: seq<State>, i: nat ::
      IsPath(path) && path[0] == s && ServedAlready(path[|path| - 1], i) && !ServedAlready(s, i) ==>
        path[|path| - 1].loads[i].version >= w
  }

  /** A load that arrives after the change and is served an older version all the same. */
  lemma {:induction false} OvertakenChange(s: State, i: nat) returns (path: seq<State>)
    requires i < |s.loads| && s.loads[i].Holding?
    ensures IsPath(path) && path[0] == s
    ensures var last, j := path[|path| - 1], |s.loads|;
            j < |last.loads| && last.loads[j] == Served(s.loads[i].version) && last.cache == Some(s.loads[i].version)
  {
    var v := s.loads[i].version;
    var x1 := Move(s, i, Served(v)).(cache := Some(v));
    var x2 := x1.(loads := x1.loads + [Idle]);
    var x3 := Move(x2, |s.loads|, Served(v));
    assert Store(s, x1, i);
    assert Arrive(x1, x2);
    assert Begin(x2, x3, |s.loads|);
    path := [s, x1, x2, x3];
  }

  /** A change is in effect for every load that ends after it, in every continuation, exactly when no
      load under way has read an older version. */
  lemma {:induction false} InEffectIff(before: State, s: State)
    requires Change(before, s)
    ensures InEffect(s, before.current + 1) <==> !OlderInFlight(before, before.current + 1)
  {
    var w := before.current + 1;
    if OlderInFlight(s, w) {
      var i :| 0 <= i < |s.loads| && s.loads[i].Holding? && s.loads[i].version < w;
      var path := OvertakenChange(s, i);
      assert ServedAlready(path[|path| - 1], |s.loads|) && !ServedAlready(s, |s.loads|);
    } else {
      forall path: seq<State>, i: nat
        | IsPath(path) && path[0] == s && ServedAlready(path[|path| - 1], i) && !ServedAlready(s, i)
        ensures path[|path| - 1].loads[i].version >= w
      {
        PathKeepsNothingOlder(path, |path| - 1, w);
      }
    }
  }

  /** The cached version goes only with a change, a reset or the result of another load, however
      much time passes: until then every load that begins is served it. */
  lemma {:induction false} StaleUntilReplaced(s: State, s': State)
    requires Next(s, s') && s.cache.Some?
    ensures s'.cache == s.cache || Change(s, s') || Reset(s, s') || exists i :: Store(s, s', i)
    ensures forall i: nat :: ServedAlready(s', i) && !ServedAlready(s, i) ==>
              s'.loads[i].version == s.cache.value || Store(s, s', i)
  {
    if i: nat :| Begin(s, s', i) || Fetch(s, s', i) || Store(s, s', i) {
      assert forall j :: 0 <= j < |s.loads| && j != i ==> s'.loads[j] == s.loads[j];
    }
  }
}
