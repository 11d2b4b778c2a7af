/** The configuration cache under threads: one domain, any number of loads interleaved with
    override writes, clears, invalidations and the clock. load reads the runtime layer without the
    lock and iterates over the live dictionary, one category at a time; a write of an override and
    the invalidation that follows it are separate steps. */
module ConfigInterleaving {
  import opened Wrappers
  import opened DeepMerge
  import opened TenantConfig

  /** A cached configuration, when it was stored, and the instants (indices into the history of
      the runtime layer) at which the load that filled it began, fetched the layer and stored. */
  datatype Entry = Entry(config: Config, storedAt: real, begun: nat, fetched: nat, ended: nat)

  /** Merging: the load holds a reference to the dictionary object it fetched (none when there was
      no override) and has these categories, fixed when the iteration began, still to visit; over:
      the iteration has found that there are no more. */
  datatype Load =
    | Idle
    | Looking(begun: nat)
    | Merging(
        begun: nat,
        fetched: nat,
        source: Option<nat>,
        keys: set<string>,
        todo: set<string>,
        config: Config,
        over: bool)
    | Served(entry: Entry, at: real)
    | Dead

  /** objects: the override dictionaries ever created, by identity; current: the one registered now;
      history: every value the runtime layer has had, the present one last. */
  datatype State = State(
    objects: seq<Config>,
    current: Option<nat>,
    history: seq<Config>,
    cache: Option<Entry>,
    loads: seq<Load>,
    now: real)

  function Present(s: State): Config {
    if s.current.Some? && s.current.value < |s.objects| then s.objects[s.current.value] else map[]
  }

  function Move(s: State, i: nat, load: Load): State
    requires i < |s.loads|
  {
    s.(loads := s.loads[i := load])
  }

  // ----- Steps -----

  ghost predicate Begin(s: State, s': State, i: nat) {
    && i < |s.loads| && s.loads[i].Idle? && s.history != []
    && s' == Move(s, i, if s.cache.Some? && s.now - s.cache.value.storedAt < TTL
                        then Served(s.cache.value, s.now)
                        else Looking(|s.history| - 1))
  }

  /** _runtime_overrides.get(domain) or {}: an empty or missing dictionary is replaced by a fresh one. */
  ghost predicate Fetch(s: State, s': State, i: nat, base: Config) {
    && i < |s.loads| && s.loads[i].Looking? && s.history != []
    && var source, keys := if Present(s) == map[] then None else s.current, Present(s).Keys;
       s' == Move(s, i, Merging(s.loads[i].begun, |s.history| - 1, source, keys, keys, base, false))
  }

  /** The dictionary the load iterates over, as it is now. */
  function Live(s: State, l: Load): Config
    requires l.Merging?
  {
    if l.source.Some? && l.source.value < |s.objects| then s.objects[l.source.value] else map[]
  }

  function Visited(config: Config, live: Config, c: string): Config {
    if c in config then config[c := Effective(config[c], live, c)] else config
  }

  /** The iteration visits one category, reading the live dictionary; a dictionary that changed its
      set of keys meanwhile makes the iteration raise, which is the step Die. */
  ghost predicate Visit(s: State, s': State, i: nat, c: string) {
    && i < |s.loads| && s.loads[i].Merging? && c in s.loads[i].todo
    && var l, live := s.loads[i], Live(s, s.loads[i]);
       && live.Keys == l.keys && c in live
       && s' == Move(s, i, l.(todo := l.todo - {c}, config := Visited(l.config, live, c)))
  }

  /** The iteration looks for another category and finds none, after the same check. */
  ghost predicate Exhaust(s: State, s': State, i: nat) {
    && i < |s.loads| && s.loads[i].Merging? && s.loads[i].todo == {} && Live(s, s.loads[i]).Keys == s.loads[i].keys
    && s' == Move(s, i, s.loads[i].(over := true))
  }

  ghost predicate Store(s: State, s': State, i: nat) {
    && i < |s.loads| && s.loads[i].Merging? && s.loads[i].over && s.loads[i].todo == {} && s.history != []
    && var e := Entry(s.loads[i].config, s.now, s.loads[i].begun, s.loads[i].fetched, |s.history| - 1);
       s' == Move(s, i, Served(e, s.now)).(cache := Some(e))
  }

  ghost predicate Die(s: State, s': State, i: nat) {
    i < |s.loads| && !s.loads[i].Served? && s' == Move(s, i, Dead)
  }

  ghost predicate Acts(s: State, s': State, i: nat, base: Config) {
    || Begin(s, s', i) || Fetch(s, s', i, base) || (exists c :: Visit(s, s', i, c))
    || Exhaust(s, s', i) || Store(s, s', i) || Die(s, s', i)
  }

  /** setdefault(domain, {})[category] = value: the registered dictionary is updated in place, or a
      new one is registered. */
  ghost predicate Write(s: State, s': State, category: string, value: Tree) {
    if s.current.Some? && s.current.value < |s.objects| then
      var o := s.objects[s.current.value][category := value];
      s' == s.(objects := s.objects[s.current.value := o], history := s.history + [o])
    else
      s' == s.(objects := s.objects + [map[category := value]], current := Some(|s.objects|),
               history := s.history + [map[category := value]])
  }

  ghost predicate Clear(s: State, s': State) {
    s' == s.(current := None, history := s.history + [map[]])
  }

  ghost predicate Invalidate(s: State, s': State) {
    s' == s.(cache := None)
  }

  ghost predicate Tick(s: State, s': State) {
    s.now <= s'.now && s' == s.(now := s'.now)
  }

  ghost predicate Arrive(s: State, s': State) {
    s' == s.(loads := s.loads + [Idle])
  }

  ghost predicate Next(s: State, s': State, base: Config) {
    || (exists i :: Acts(s, s', i, base))
    || (exists c, v :: Write(s, s', c, v))
    || Clear(s, s') || Invalidate(s, s') || Tick(s, s') || Arrive(s, s')
  }

  ghost predicate IsRun(run: seq<State>, base: Config) {
    && run != [] && run[0] == State([], None, [map[]], None, [], run[0].now)
    && forall k :: 0 <= k < |run| - 1 ==> Next(run[k], run[k + 1], base)
  }

  // ----- What the layer and a load do next -----

  /** A write of a category leaves the others as they are, a clear leaves none; both can always
      happen, and are the only outcomes. */
  lemma {:induction false} ChangesOfLayer(s: State, c: string, v: Tree) returns (written: State, cleared: State)
    requires s.current.Some? ==> s.current.value < |s.objects|
    ensures Write(s, written, c, v) && Clear(s, cleared)
    ensures forall t :: (Write(s, t, c, v) ==> t == written) && (Clear(s, t) ==> t == cleared)
    ensures Present(written) == (if s.current.Some? then s.objects[s.current.value] else map[])[c := v]
    ensures Present(cleared) == map[] && cleared.objects == s.objects
    ensures written.history == s.history + [Present(written)] && cleared.history == s.history + [map[]]
    ensures written.loads == s.loads == cleared.loads && written.cache == s.cache == cleared.cache
  {
    cleared := State(s.objects, None, s.history + [map[]], s.cache, s.loads, s.now);
    if s.current.Some? {
      var o := s.objects[s.current.value][c := v];
      written := State(s.objects[s.current.value := o], s.current, s.history + [o], s.cache, s.loads, s.now);
    } else {
      var o := map[c := v];
      written := State(s.objects + [o], Some(|s.objects|), s.history + [o], s.cache, s.loads, s.now);
    }
  }

  /** A load is served a cached configuration under 60 seconds old; otherwise it goes on to fetch the
      layer as it is then, and has all of its categories to visit. */
  lemma {:induction false} StartOfLoad(s: State, i: nat, base: Config) returns (s': State)
    requires i < |s.loads| && s.history != [] && (s.loads[i].Idle? || s.loads[i].Looking?)
    ensures Acts(s, s', i, base) && |s'.loads| == |s.loads|
    ensures s'.history == s.history && s'.cache == s.cache && s'.objects == s.objects && s'.current == s.current
    ensures var l, l' := s.loads[i], s'.loads[i];
            if l.Looking? then
              && l'.Merging? && l'.config == base && !l'.over && Live(s', l') == Present(s)
              && l'.todo == l'.keys == Present(s).Keys && l'.fetched == |s.history| - 1
            else if s.cache.Some? && s.now - s.cache.value.storedAt < 60.0 then l' == Served(s.cache.value, s.now)
            else l' == Looking(|s.history| - 1)
  {
    if s.loads[i].Looking? {
      var source, keys := if Present(s) == map[] then None else s.current, Present(s).Keys;
      s' := Move(s, i, Merging(s.loads[i].begun, |s.history| - 1, source, keys, keys, base, false));
      assert Fetch(s, s', i, base);
    } else {
      s' := Move(s, i, if s.cache.Some? && s.now - s.cache.value.storedAt < TTL then Served(s.cache.value, s.now)
                       else Looking(|s.history| - 1));
      assert Begin(s, s', i);
    }
  }

  // ----- What a configuration can be traced to -----

  /** The category had this value at some instant of the interval. */
  ghost predicate HeldDuring(c: string, v: Tree, base: Config, history: seq<Config>, from: nat, upto: nat)
    requires c in base
  {
    exists h :: from <= h <= upto && h < |history| && v == Effective(base[c], history[h], c)
  }

  /** Every category of the configuration equals its composition at an instant of the interval. */
  ghost predicate Traceable(config: Config, base: Config, history: seq<Config>, from: nat, upto: nat) {
    && config.Keys == base.Keys
    && forall c :: c in base ==> HeldDuring(c, config[c], base, history, from, upto)
  }

  /** One dictionary was registered all through the interval: no clear came between. */
  ghost predicate OneLife(history: seq<Config>, from: nat, upto: nat) {
    upto < |history| && forall h :: from <= h <= upto ==> history[h] != map[]
  }

  /** The dictionary a load iterates over was registered from the fetch to the instant m, which is
      the present one unless the layer was cleared, and has not changed since. */
  ghost predicate SourceOk(s: State, l: Load, m: nat)
    requires l.Merging?
  {
    && l.fetched <= m < |s.history|
    && if l.source.None? then m == l.fetched else
         && l.source.value < |s.objects| && OneLife(s.history, l.fetched, m)
         && s.history[m] == s.objects[l.source.value] && (s.current == l.source ==> m == |s.history| - 1)
  }

  ghost predicate PartlyMerged(l: Load, base: Config, history: seq<Config>, m: nat)
    requires l.Merging?
  {
    && l.config.Keys == base.Keys
    && forall c :: c in base ==>
         if c in l.todo then l.config[c] == base[c]
         else HeldDuring(c, l.config[c], base, history, l.fetched, m)
  }

  ghost predicate MergingOk(s: State, l: Load, base: Config, m: nat)
    requires l.Merging?
  {
    l.begun <= l.fetched && SourceOk(s, l, m) && PartlyMerged(l, base, s.history, m)
  }

  ghost predicate LoadOk(s: State, l: Load, base: Config) {
    match l
    case Looking(begun) => begun < |s.history|
    case Merging(_, _, _, _, _, _, _) => exists m :: MergingOk(s, l, base, m)
    case Served(e, at) => EntryOk(e, base, s.history) && at - e.storedAt < TTL
    case _ => true
  }

  /** Every category comes from an instant between the fetch and the next clear. */
  ghost predicate EntryTraceable(e: Entry, base: Config, history: seq<Config>, m: nat) {
    && e.fetched <= m <= e.ended && (m == e.fetched || OneLife(history, e.fetched, m))
    && Traceable(e.config, base, history, e.fetched, m)
  }

  ghost predicate EntryOk(e: Entry, base: Config, history: seq<Config>) {
    e.begun <= e.fetched && e.ended < |history| && exists m :: EntryTraceable(e, base, history, m)
  }

  /** Only this category differs. */
  ghost predicate OnlyChanges(before: Config, after: Config, a: string) {
    forall c :: c != a ==> (c in before <==> c in after) && (c in before ==> before[c] == after[c])
  }

  ghost predicate OneStep(before: Config, after: Config) {
    after == map[] || exists a :: OnlyChanges(before, after, a)
  }

  /** Each instant differs from the one before in one category, or is empty. */
  ghost predicate Stepwise(history: seq<Config>) {
    forall h :: 0 < h < |history| ==> OneStep(history[h - 1], history[h])
  }

  ghost predicate LayerOk(s: State) {
    && s.history != [] && s.history[|s.history| - 1] == Present(s)
    && (s.current.Some? ==> s.current.value < |s.objects|)
  }

  ghost predicate Inv(s: State, base: Config) {
    && LayerOk(s) && Stepwise(s.history)
    && (s.cache.Some? ==> EntryOk(s.cache.value, base, s.history))
    && forall i :: 0 <= i < |s.loads| ==> LoadOk(s, s.loads[i], base)
  }

  // ----- The invariant is kept -----

  lemma {:induction false} HeldSurvives(c: string, v: Tree, base: Config, history: seq<Config>, longer: seq<Config>,
      from: nat, m: nat, m': nat)
    requires c in base && HeldDuring(c, v, base, history, from, m) && history <= longer && m <= m'
    ensures HeldDuring(c, v, base, longer, from, m')
  {
    var h :| from <= h <= m && h < |history| && v == Effective(base[c], history[h], c);
    assert longer[h] == history[h];
  }

  /** Growing the history keeps everything traced to it. */
  lemma {:induction false} EntrySurvives(e: Entry, base: Config, history: seq<Config>, longer: seq<Config>)
    requires EntryOk(e, base, history) && history <= longer
    ensures EntryOk(e, base, longer)
  {
    var m :| EntryTraceable(e, base, history, m);
    forall c | c in base ensures HeldDuring(c, e.config[c], base, longer, e.fetched, m) {
      HeldSurvives(c, e.config[c], base, history, longer, e.fetched, m, m);
    }
    assert EntryTraceable(e, base, longer, m);
  }

  lemma {:induction false} MergedSurvives(l: Load, base: Config, history: seq<Config>, longer: seq<Config>,
      m: nat, m': nat)
    requires l.Merging? && PartlyMerged(l, base, history, m) && history <= longer && m <= m'
    ensures PartlyMerged(l, base, longer, m')
  {
    forall c | c in base && c !in l.todo ensures HeldDuring(c, l.config[c], base, longer, l.fetched, m') {
      HeldSurvives(c, l.config[c], base, history, longer, l.fetched, m, m');
    }
  }

  /** A write or a clear: the object a load reads stays registered, or is left as it was. */
  lemma {:induction false} SourceSurvives(s: State, s': State, l: Load, m: nat) returns (m': nat)
    requires LayerOk(s) && l.Merging? && SourceOk(s, l, m)
    requires (exists c, v :: Write(s, s', c, v)) || Clear(s, s')
    ensures m <= m' && SourceOk(s', l, m')
  {
    m' := if l.source.Some? && s'.current == l.source then |s'.history| - 1 else m;
  }

  lemma {:induction false} WriteIsStepwise(s: State, s': State, c: string, v: Tree)
    requires LayerOk(s) && Stepwise(s.history) && Write(s, s', c, v)
    ensures LayerOk(s') && Stepwise(s'.history)
  {
    var n := |s.history|;
    assert OnlyChanges(s'.history[n - 1], s'.history[n], c);
  }

  lemma {:induction false} ClearIsStepwise(s: State, s': State)
    requires LayerOk(s) && Stepwise(s.history) && Clear(s, s')
    ensures LayerOk(s') && Stepwise(s'.history)
  {}

  lemma {:induction false} LayerChangeKeepsLoad(s: State, s': State, l: Load, base: Config)
    requires LayerOk(s) && LoadOk(s, l, base)
    requires (exists c, v :: Write(s, s', c, v)) || Clear(s, s')
    ensures LoadOk(s', l, base)
  {
    if l.Merging? {
      var m :| MergingOk(s, l, base, m);
      var m' := SourceSurvives(s, s', l, m);
      MergedSurvives(l, base, s.history, s'.history, m, m');
      assert MergingOk(s', l, base, m');
    } else if l.Served? {
      EntrySurvives(l.entry, base, s.history, s'.history);
    }
  }

  lemma {:induction false} LayerChangeKeepsInv(s: State, s': State, base: Config)
    requires Inv(s, base) && ((exists c, v :: Write(s, s', c, v)) || Clear(s, s'))
    ensures Inv(s', base)
  {
    if c, v :| Write(s, s', c, v) { WriteIsStepwise(s, s', c, v); } else { ClearIsStepwise(s, s'); }
    if s.cache.Some? { EntrySurvives(s.cache.value, base, s.history, s'.history); }
    forall i | 0 <= i < |s'.loads| ensures LoadOk(s', s'.loads[i], base) {
      LayerChangeKeepsLoad(s, s', s.loads[i], base);
    }
  }

  /** A step that leaves the layer alone keeps the loads it does not move. */
  lemma {:induction false} SameLayerKeepsLoad(s: State, s': State, l: Load, base: Config)
    requires LoadOk(s, l, base)
    requires s'.objects == s.objects && s'.current == s.current && s'.history == s.history
    ensures LoadOk(s', l, base)
  {
    if l.Merging? {
      var m :| MergingOk(s, l, base, m);
      assert MergingOk(s', l, base, m);
    }
  }

  /** A step that changes one load keeps the invariant when that load is in order. */
  lemma {:induction false} MoveKeepsInv(s: State, s': State, i: nat, base: Config)
    requires Inv(s, base) && i < |s.loads| && |s'.loads| == |s.loads|
    requires s'.objects == s.objects && s'.current == s.current && s'.history == s.history
    requires forall j :: 0 <= j < |s.loads| && j != i ==> s'.loads[j] == s.loads[j]
    requires LoadOk(s, s'.loads[i], base)
    requires s'.cache.Some? ==> EntryOk(s'.cache.value, base, s.history)
    ensures Inv(s', base)
  {
    forall j | 0 <= j < |s'.loads| ensures LoadOk(s', s'.loads[j], base) {
      assert j != i ==> LoadOk(s, s.loads[j], base);
      SameLayerKeepsLoad(s, s', s'.loads[j], base);
    }
  }

  lemma {:induction false} FetchedOk(s: State, s': State, i: nat, base: Config)
    requires Inv(s, base) && Fetch(s, s', i, base)
    ensures LoadOk(s, s'.loads[i], base)
  {
    assert LoadOk(s, s.loads[i], base);
    assert MergingOk(s, s'.loads[i], base, |s.history| - 1);
  }

  lemma {:induction false} VisitedOk(s: State, s': State, i: nat, c: string, base: Config)
    requires Inv(s, base) && Visit(s, s', i, c)
    ensures LoadOk(s, s'.loads[i], base)
  {
    var l, l' := s.loads[i], s'.loads[i];
    assert LoadOk(s, l, base);
    var m :| MergingOk(s, l, base, m);
    assert c in base ==> HeldDuring(c, l'.config[c], base, s.history, l'.fetched, m);
    assert MergingOk(s, l', base, m);
  }

  lemma {:induction false} ExhaustedOk(s: State, s': State, i: nat, base: Config)
    requires Inv(s, base) && Exhaust(s, s', i)
    ensures LoadOk(s, s'.loads[i], base)
  {
    assert LoadOk(s, s.loads[i], base);
    var m :| MergingOk(s, s.loads[i], base, m);
    assert MergingOk(s, s'.loads[i], base, m);
  }

  lemma {:induction false} StoredOk(s: State, s': State, i: nat, base: Config)
    requires Inv(s, base) && Store(s, s', i)
    ensures s'.loads[i].Served? && EntryOk(s'.loads[i].entry, base, s.history)
  {
    assert LoadOk(s, s.loads[i], base);
    var m :| MergingOk(s, s.loads[i], base, m);
    assert EntryTraceable(s'.loads[i].entry, base, s.history, m);
  }

  lemma {:induction false} ActKeepsInv(s: State, s': State, i: nat, base: Config)
    requires Inv(s, base) && Acts(s, s', i, base)
    ensures Inv(s', base)
  {
    assert LoadOk(s, s.loads[i], base);
    if Fetch(s, s', i, base) {
      FetchedOk(s, s', i, base);
    } else if c :| Visit(s, s', i, c) {
      VisitedOk(s, s', i, c, base);
    } else if Exhaust(s, s', i) {
      ExhaustedOk(s, s', i, base);
    } else if Store(s, s', i) {
      StoredOk(s, s', i, base);
    }
    MoveKeepsInv(s, s', i, base);
  }

  lemma {:induction false} QuietStepKeepsInv(s: State, s': State, base: Config)
    requires Inv(s, base) && (Invalidate(s, s') || Tick(s, s') || Arrive(s, s'))
    ensures Inv(s', base)
  {
    forall i | 0 <= i < |s'.loads| ensures LoadOk(s', s'.loads[i], base) {
      if i < |s.loads| {
        assert LoadOk(s, s.loads[i], base);
        SameLayerKeepsLoad(s, s', s.loads[i], base);
      }
    }
  }

  lemma NextKeepsInv(s: State, s': State, base: Config)
    requires Inv(s, base) && Next(s, s', base)
    ensures Inv(s', base)
  {
    if i :| Acts(s, s', i, base) {
      ActKeepsInv(s, s', i, base);
    } else if (exists c, v :: Write(s, s', c, v)) || Clear(s, s') {
      LayerChangeKeepsInv(s, s', base);
    } else {
      QuietStepKeepsInv(s, s', base);
    }
  }

  lemma {:induction false} RunKeepsInv(run: seq<State>, k: nat, base: Config)
    requires IsRun(run, base) && k < |run|
    ensures Inv(run[k], base)
  {
    if k > 0 {
      RunKeepsInv(run, k - 1, base);
      NextKeepsInv(run[k - 1], run[k], base);
    }
  }

  // ----- What is served -----

  /** In every run, whatever a load serves was stored less than 60 seconds before, and each of its
      categories equals the uncached composition at an instant at which the load that stored it
      was reading, and before the layer it read was cleared. */
  lemma {:induction false} ServedIsRecentAndTraceable(run: seq<State>, k: nat, i: nat, base: Config) returns (m: nat)
    requires IsRun(run, base) && k < |run| && i < |run[k].loads| && run[k].loads[i].Served?
    ensures run[k].loads[i].at - run[k].loads[i].entry.storedAt < 60.0
    ensures var e, history := run[k].loads[i].entry, run[k].history;
            && e.begun <= e.fetched <= m <= e.ended < |history|
            && (m == e.fetched || OneLife(history, e.fetched, m))
            && e.config.Keys == base.Keys
            && forall c :: c in base ==>
                 exists h :: e.fetched <= h <= m && e.config[c] == Effective(base[c], history[h], c)
  {
    RunKeepsInv(run, k, base);
    var s, l := run[k], run[k].loads[i];
    assert LoadOk(s, l, base);
    m :| EntryTraceable(l.entry, base, s.history, m);
    forall c | c in base
      ensures exists h :: l.entry.fetched <= h <= m && l.entry.config[c] == Effective(base[c], s.history[h], c)
    {
      assert HeldDuring(c, l.entry.config[c], base, s.history, l.entry.fetched, m);
    }
  }

  /** The composition of all categories at one instant. */
  ghost predicate ComposedAt(config: Config, base: Config, runtime: Config) {
    config.Keys == base.Keys && forall c :: c in base ==> config[c] == Effective(base[c], runtime, c)
  }

  /** The stored configuration is the composition at an instant of the load that stored it. */
  ghost predicate Exact(e: Entry, base: Config, history: seq<Config>) {
    exists h :: e.begun <= h <= e.ended && h < |history| && ComposedAt(e.config, base, history[h])
  }

  /** Between the fetch and the next clear, every change the load overlaps concerns category a. */
  ghost predicate OverlapsOnly(e: Entry, history: seq<Config>, a: string)
    requires e.ended < |history|
  {
    forall h :: e.fetched < h <= e.ended && OneLife(history, e.fetched, h) ==>
      OnlyChanges(history[h - 1], history[h], a)
  }

  /** Throughout an interval in which only a changes, every other category has one value. */
  lemma {:induction false} OthersConstant(base: Config, history: seq<Config>, from: nat, upto: nat,
      a: string, c: string)
    requires from <= upto < |history| && c in base && c != a
    requires forall h :: from < h <= upto ==> OnlyChanges(history[h - 1], history[h], a)
    ensures Effective(base[c], history[from], c) == Effective(base[c], history[upto], c)
    decreases upto
  {
    if from < upto {
      OthersConstant(base, history, from, upto - 1, a, c);
      assert OnlyChanges(history[upto - 1], history[upto], a);
    }
  }

  /** The values of a configuration that is traceable through such an interval. */
  lemma {:induction false} OneCategoryComposed(config: Config, base: Config, history: seq<Config>, from: nat, upto: nat,
      a: string)
    returns (h: nat)
    requires from <= upto < |history| && Traceable(config, base, history, from, upto)
    requires forall h :: from < h <= upto ==> OnlyChanges(history[h - 1], history[h], a)
    ensures from <= h <= upto && ComposedAt(config, base, history[h])
  {
    h := from;
    if a in base {
      assert HeldDuring(a, config[a], base, history, from, upto);
      h :| from <= h <= upto && config[a] == Effective(base[a], history[h], a);
    }
    forall c | c in base && c != a ensures config[c] == Effective(base[c], history[h], c) {
      assert HeldDuring(c, config[c], base, history, from, upto);
      var j :| from <= j <= upto && config[c] == Effective(base[c], history[j], c);
      OthersConstant(base, history, from, j, a, c);
      OthersConstant(base, history, from, h, a, c);
    }
  }

  /** In every run, a configuration is the composition at one instant of its load when the changes
      that load overlapped, from its fetch to the next clear, all concern one category. */
  lemma {:induction false} OneCategoryIsExact(run: seq<State>, k: nat, i: nat, base: Config, a: string)
    requires IsRun(run, base) && k < |run| && i < |run[k].loads| && run[k].loads[i].Served?
    requires run[k].loads[i].entry.ended < |run[k].history|
    requires OverlapsOnly(run[k].loads[i].entry, run[k].history, a)
    ensures Exact(run[k].loads[i].entry, base, run[k].history)
  {
    var e, history := run[k].loads[i].entry, run[k].history;
    var m := ServedIsRecentAndTraceable(run, k, i, base);
    assert Traceable(e.config, base, history, e.fetched, m);
    forall h | e.fetched < h <= m ensures OnlyChanges(history[h - 1], history[h], a) {
      assert OneLife(history, e.fetched, h);
    }
    var h := OneCategoryComposed(e.config, base, history, e.fetched, m, a);
  }

  /** In particular when it overlapped at most one change, be it a write or a clear. */
  lemma {:induction false} OneChangeIsExact(run: seq<State>, k: nat, i: nat, base: Config)
    requires IsRun(run, base) && k < |run| && i < |run[k].loads| && run[k].loads[i].Served?
    requires run[k].loads[i].entry.ended <= run[k].loads[i].entry.begun + 1
    ensures Exact(run[k].loads[i].entry, base, run[k].history)
  {
    RunKeepsInv(run, k, base);
    var e, history := run[k].loads[i].entry, run[k].history;
    var m := ServedIsRecentAndTraceable(run, k, i, base);
    var a := ChangedCategory(history, e.fetched, e.ended);
    OneCategoryIsExact(run, k, i, base, a);
  }

  lemma {:induction false} ChangedCategory(history: seq<Config>, from: nat, upto: nat) returns (a: string)
    requires Stepwise(history) && upto < |history| && upto <= from + 1
    ensures from < upto && OneLife(history, from, upto) ==> OnlyChanges(history[upto - 1], history[upto], a)
  {
    a := "";
    if from < upto && history[upto] != map[] {
      assert OneStep(history[upto - 1], history[upto]);
      a :| OnlyChanges(history[upto - 1], history[upto], a);
    }
  }

  // ----- Two written categories are one too many -----

  /** One dictionary has been registered since the first write. */
  function Scene(history: seq<Config>, cache: Option<Entry>, loads: seq<Load>): State
    requires history != []
  {
    State([history[|history| - 1]], Some(0), history, cache, loads, 0.0)
  }

  ghost predicate IsPath(path: seq<State>, base: Config) {
    path != [] && forall k :: 0 <= k < |path| - 1 ==> Next(path[k], path[k + 1], base)
  }

  lemma {:induction false} Chain(p: seq<State>, q: seq<State>, base: Config)
    requires IsPath(p, base) && IsPath(q, base) && Next(p[|p| - 1], q[0], base)
    ensures IsPath(p + q, base)
  {}

  lemma {:induction false} SceneWrite(h: seq<Config>, cache: Option<Entry>, loads: seq<Load>, c: string,
      v: Tree, base: Config)
    requires h != []
    ensures Next(Scene(h, cache, loads), Scene(h + [h[|h| - 1][c := v]], cache, loads), base)
  {
    assert Write(Scene(h, cache, loads), Scene(h + [h[|h| - 1][c := v]], cache, loads), c, v);
  }

  /** Both categories are overridden and a load arrives. */
  lemma {:induction false} Opening(base: Config, a: string, b: string, va: Tree, vb: Tree) returns (run: seq<State>)
    ensures |run| == 4 && IsRun(run, base)
    ensures run[3] == Scene([map[], map[a := va], map[a := va][b := vb]], None, [Idle])
  {
    var d1 := map[a := va];
    var h1, h2 := [map[], d1], [map[], d1, d1[b := vb]];
    var x0 := State([], None, [map[]], None, [], 0.0);
    assert Write(x0, Scene(h1, None, []), a, va);
    SceneWrite(h1, None, [], b, vb, base);
    assert h1 + [d1[b := vb]] == h2;
    assert Arrive(Scene(h2, None, []), Scene(h2, None, [Idle]));
    run := [x0, Scene(h1, None, []), Scene(h2, None, []), Scene(h2, None, [Idle])];
  }

  /** The load fetches the layer and visits a. */
  lemma {:induction false} FirstHalf(h: seq<Config>, base: Config, a: string, b: string, load: Load)
    returns (path: seq<State>)
    requires h != [] && h[|h| - 1].Keys == {a, b} && a != b && a in base
    requires load == Merging(|h| - 1, |h| - 1, Some(0), {a, b}, {b}, base[a := Effective(base[a], h[|h| - 1], a)],
                              false)
    ensures |path| == 3 && IsPath(path, base) && Next(Scene(h, None, [Idle]), path[0], base)
    ensures path[2] == Scene(h, None, [load])
  {
    var n := |h| - 1;
    var x0, x1 := Scene(h, None, [Idle]), Scene(h, None, [Looking(n)]);
    var x2, x3 := Scene(h, None, [Merging(n, n, Some(0), {a, b}, {a, b}, base, false)]), Scene(h, None, [load]);
    assert Begin(x0, x1, 0);
    assert a in Present(x1) && Present(x1) != map[];
    assert Fetch(x1, x2, 0, base);
    assert {a, b} - {a} == {b};
    assert Visit(x2, x3, 0, a);
    assert Acts(x0, x1, 0, base) && Acts(x1, x2, 0, base) && Acts(x2, x3, 0, base);
    path := [x1, x2, x3];
  }

  /** Both categories are overridden again, each write followed by its invalidation. */
  lemma {:induction false} Overtaking(h: seq<Config>, base: Config, a: string, b: string, va: Tree, vb: Tree,
      load: Load)
    returns (path: seq<State>)
    requires h != []
    ensures var d := h[|h| - 1];
            && |path| == 4 && IsPath(path, base) && Next(Scene(h, None, [load]), path[0], base)
            && path[2] == path[3] == Scene(h + [d[a := va], d[a := va][b := vb]], None, [load])
  {
    var d := h[|h| - 1];
    var h1, h2 := h + [d[a := va]], h + [d[a := va], d[a := va][b := vb]];
    SceneWrite(h, None, [load], a, va, base);
    SceneWrite(h1, None, [load], b, vb, base);
    assert h1 + [d[a := va][b := vb]] == h2;
    var x1, x2 := Scene(h1, None, [load]), Scene(h2, None, [load]);
    assert Invalidate(x1, x1) && Invalidate(x2, x2);
    path := [x1, x1, x2, x2];
  }

  /** The load visits b and stores; another load arrives and is served from the cache. */
  lemma {:induction false} Closing(h: seq<Config>, base: Config, a: string, b: string, load: Load, e: Entry)
    returns (path: seq<State>)
    requires h != [] && h[|h| - 1].Keys == {a, b} && load.Merging? && load.source == Some(0) && b in load.config
    requires load.keys == {a, b} && load.todo == {b}
    requires e == Entry(load.config[b := Effective(load.config[b], h[|h| - 1], b)], 0.0, load.begun,
          load.fetched, |h| - 1)
    ensures |path| == 5 && IsPath(path, base) && Next(Scene(h, None, [load]), path[0], base)
    ensures path[4] == Scene(h, Some(e), [Served(e, 0.0), Served(e, 0.0)])
  {
    var x0, x1 := Scene(h, None, [load]), Scene(h, None, [load.(todo := {}, config := e.config)]);
    var x2, x3 := Scene(h, Some(e), [Served(e, 0.0)]), Scene(h, Some(e), [Served(e, 0.0), Idle]);
    var x4 := Scene(h, Some(e), [Served(e, 0.0), Served(e, 0.0)]);
    var over := Scene(h, None, [load.(todo := {}, config := e.config, over := true)]);
    assert b in h[|h| - 1] && {b} - {b} == {};
    assert Visit(x0, x1, 0, b);
    assert Exhaust(x1, over, 0);
    assert Store(over, x2, 0);
    assert Arrive(x2, x3);
    assert Begin(x3, x4, 1);
    assert Acts(x0, x1, 0, base) && Acts(x1, over, 0, base) && Acts(over, x2, 0, base) && Acts(x3, x4, 1, base);
    path := [x1, over, x2, x3, x4];
  }

  /** A run in which two changes of two categories overtake a load that has visited the first: what
      it stores is the composition at no instant, each override is followed by an invalidation, and
      still a load that arrives afterwards is served the old value of the first category. */
  lemma {:induction false} TornConfiguration(base: Config, a: string, b: string, a0: Tree, b0: Tree, a1: Tree, b1: Tree)
    returns (run: seq<State>)
    requires a != b && a in base && b in base && a0.Dict? && b0.Dict? && a1.Dict? && b1.Dict?
    requires Merge(base[a], a0) != Merge(base[a], a1) && Merge(base[b], b0) != Merge(base[b], b1)
    ensures IsRun(run, base) && |run| == 16 && |run[10].loads| == 1 && |run[15].loads| == 2
    ensures Invalidate(run[9], run[10]) && run[15].history == run[10].history && run[10].history != []
    ensures run[15].loads[1].Served? && a in run[15].loads[1].entry.config
    ensures var e, history := run[15].loads[1].entry, run[15].history;
            && e.ended == e.begun + 2 == |history| - 1 && !Exact(e, base, history)
            && e.config[a] != Effective(base[a], history[|history| - 1], a)
  {
    var d0 := map[a := a0][b := b0];
    var h0 := [map[], map[a := a0], d0];
    var h2 := h0 + [d0[a := a1], d0[a := a1][b := b1]];
    var load := Merging(2, 2, Some(0), {a, b}, {b}, base[a := Effective(base[a], d0, a)], false);
    var e := Entry(load.config[b := Effective(load.config[b], h2[4], b)], 0.0, 2, 2, 4);
    var opening := Opening(base, a, b, a0, b0);
    var first := FirstHalf(h0, base, a, b, load);
    var middle := Overtaking(h0, base, a, b, a1, b1, load);
    assert h2[4].Keys == {a, b};
    var closing := Closing(h2, base, a, b, load, e);
    Chain(opening, first, base);
    Chain(opening + first, middle, base);
    Chain(opening + first + middle, closing, base);
    run := opening + first + middle + closing;
    TornValues(e, base, a, b, h2);
  }

  /** A configuration that differs somewhere from each instant of its load. */
  lemma {:induction false} TornValues(e: Entry, base: Config, a: string, b: string, history: seq<Config>)
    requires a in base && b in base && a in e.config && b in e.config
    requires e.ended == e.begun + 2 < |history|
    requires e.config[b] != Effective(base[b], history[e.begun], b)
    requires e.config[a] != Effective(base[a], history[e.begun + 1], a)
    requires e.config[a] != Effective(base[a], history[e.begun + 2], a)
    ensures !Exact(e, base, history)
  {}
}
