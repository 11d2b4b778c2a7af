/** When an override takes effect under threads: exactly which loads under way at an invalidation
    can still bring an older value back, and which can be served at all. */
module OverrideEffect {
  import opened Wrappers
  import opened DeepMerge
  import opened TenantConfig
  import opened ConfigInterleaving

  // ----- The shape of a load under way -----

  /** The iteration goes over keys the dictionary still has, and what it has not visited is as it
      came from disk. */
  ghost predicate Shape(s: State, l: Load, base: Config)
    requires l.Merging?
  {
    && l.todo <= l.keys && l.keys <= Live(s, l).Keys && (l.over ==> l.todo == {})
    && (l.source.Some? ==> l.source.value < |s.objects|)
    && l.config.Keys == base.Keys && forall c :: c in base && c in l.todo ==> l.config[c] == base[c]
  }

  ghost predicate Shaped(s: State, base: Config) {
    LayerOk(s) && forall i :: 0 <= i < |s.loads| && s.loads[i].Merging? ==> Shape(s, s.loads[i], base)
  }

  ghost predicate LayerChanges(s: State, s': State) {
    (exists c, v :: Write(s, s', c, v)) || ConfigInterleaving.Clear(s, s')
  }

  /** A write or a clear: dictionaries only gain keys, and only the registered one changes. */
  lemma {:induction false} ChangeOfLayer(s: State, s': State)
    requires LayerOk(s) && LayerChanges(s, s')
    ensures LayerOk(s') && s'.loads == s.loads && s'.cache == s.cache
    ensures s.history <= s'.history && |s'.history| == |s.history| + 1 && |s.objects| <= |s'.objects|
    ensures forall o :: 0 <= o < |s.objects| ==>
              && s.objects[o].Keys <= s'.objects[o].Keys
              && (s'.objects[o] == s.objects[o] || s'.objects[o] == s'.history[|s.history|])
  {}

  lemma {:induction false} ChangeKeepsShaped(s: State, s': State, base: Config)
    requires Shaped(s, base) && LayerChanges(s, s')
    ensures Shaped(s', base)
  {
    ChangeOfLayer(s, s');
    forall i | 0 <= i < |s'.loads| && s'.loads[i].Merging? ensures Shape(s', s'.loads[i], base) {
      assert Shape(s, s.loads[i], base);
    }
  }

  /** What a step of one load leaves alone. */
  lemma {:induction false} OneLoadMoves(s: State, s': State, i: nat, base: Config)
    requires Acts(s, s', i, base)
    ensures i < |s.loads| && |s'.loads| == |s.loads| && s'.objects == s.objects && s'.current == s.current
            && s'.history == s.history
    ensures forall j :: 0 <= j < |s.loads| && j != i ==> s'.loads[j] == s.loads[j]
    ensures s'.cache == s.cache || Store(s, s', i)
    ensures !s.loads[i].Served?
  {}

  lemma {:induction false} MoverKeepsShape(s: State, s': State, i: nat, base: Config)
    requires Shaped(s, base) && Acts(s, s', i, base) && i < |s'.loads| && s'.loads[i].Merging?
    ensures Shape(s', s'.loads[i], base)
  {
    if s.loads[i].Merging? { assert Shape(s, s.loads[i], base); }
  }

  lemma {:induction false} NextKeepsShaped(s: State, s': State, base: Config)
    requires Shaped(s, base) && Next(s, s', base)
    ensures Shaped(s', base)
  {
    if i: nat :| Acts(s, s', i, base) {
      OneLoadMoves(s, s', i, base);
      forall j | 0 <= j < |s'.loads| && s'.loads[j].Merging? ensures Shape(s', s'.loads[j], base) {
        if j == i { MoverKeepsShape(s, s', i, base); } else { assert Shape(s, s.loads[j], base); }
      }
    } else if LayerChanges(s, s') {
      ChangeKeepsShaped(s, s', base);
    } else {
      forall j | 0 <= j < |s'.loads| && s'.loads[j].Merging? ensures Shape(s', s'.loads[j], base) {
        assert Shape(s, s.loads[j], base);
      }
    }
  }

  lemma {:induction false} RunIsShaped(run: seq<State>, k: nat, base: Config)
    requires IsRun(run, base) && k < |run|
    ensures Shaped(run[k], base)
  {
    if k > 0 {
      RunIsShaped(run, k - 1, base);
      NextKeepsShaped(run[k - 1], run[k], base);
    }
  }

  // ----- What a load under way will store -----

  /** The dictionary has the keys it had when the iteration began, or the iteration is over. */
  ghost predicate CanFinish(s: State, l: Load)
    requires l.Merging?
  {
    l.over || Live(s, l).Keys == l.keys
  }

  /** What the load will store for a category if nothing else happens. */
  function Pending(s: State, l: Load, base: Config, c: string): Tree
    requires l.Merging? && c in base && c in l.config
  {
    if c in l.todo then Effective(base[c], Live(s, l), c) else l.config[c]
  }

  /** This load is served what it has pending. */
  ghost predicate ServesPending(s: State, i: nat, base: Config, last: State)
    requires i < |s.loads| && s.loads[i].Merging? && s.loads[i].config.Keys == base.Keys
  {
    && last.history == s.history && i < |last.loads| && last.loads[i].Served?
    && var e := last.loads[i].entry;
       forall c :: c in base ==> c in e.config && e.config[c] == Pending(s, s.loads[i], base, c)
  }

  lemma {:induction false} Prepend(s: State, path: seq<State>, base: Config)
    requires IsPath(path, base) && Next(s, path[0], base)
    ensures IsPath([s] + path, base)
  {}

  lemma {:induction false} StoreNow(s: State, i: nat, base: Config) returns (path: seq<State>)
    requires Shaped(s, base) && i < |s.loads| && s.loads[i].Merging? && s.loads[i].over
    requires s.loads[i].config.Keys == base.Keys
    ensures IsPath(path, base) && path[0] == s && ServesPending(s, i, base, path[|path| - 1])
  {
    var l := s.loads[i];
    assert Shape(s, l, base);
    var e := Entry(l.config, s.now, l.begun, l.fetched, |s.history| - 1);
    var s' := Move(s, i, Served(e, s.now)).(cache := Some(e));
    assert Store(s, s', i);
    assert Acts(s, s', i, base);
    path := [s, s'];
  }

  /** A step that brings the load nearer to its end and leaves what it has pending as it is. */
  lemma {:induction false} Advance(s: State, i: nat, base: Config) returns (s': State)
    requires Shaped(s, base) && i < |s.loads| && s.loads[i].Merging? && !s.loads[i].over && CanFinish(s, s.loads[i])
    ensures Next(s, s', base) && s'.history == s.history && Shaped(s', base)
    ensures i < |s'.loads| && s'.loads[i].Merging? && CanFinish(s', s'.loads[i])
    ensures s.loads[i].config.Keys == s'.loads[i].config.Keys == base.Keys
    ensures forall c :: c in base ==> Pending(s', s'.loads[i], base, c) == Pending(s, s.loads[i], base, c)
    ensures if s.loads[i].todo == {} then s'.loads[i].over && s'.loads[i].todo == {}
            else |s'.loads[i].todo| < |s.loads[i].todo|
  {
    var l := s.loads[i];
    assert Shape(s, l, base);
    if l.todo == {} {
      s' := Move(s, i, l.(over := true));
      assert Exhaust(s, s', i);
    } else {
      var c :| c in l.todo;
      s' := Move(s, i, l.(todo := l.todo - {c}, config := Visited(l.config, Live(s, l), c)));
      assert Visit(s, s', i, c);
    }
    assert Acts(s, s', i, base);
    NextKeepsShaped(s, s', base);
  }

  /** Left alone, such a load is served what it has pending. */
  lemma {:induction false} FinishLoad(s: State, i: nat, base: Config) returns (path: seq<State>)
    requires Shaped(s, base) && i < |s.loads| && s.loads[i].Merging? && CanFinish(s, s.loads[i])
    ensures s.loads[i].config.Keys == base.Keys
    ensures IsPath(path, base) && path[0] == s && ServesPending(s, i, base, path[|path| - 1])
    decreases |s.loads[i].todo|, if s.loads[i].over then 0 else 1
  {
    assert Shape(s, s.loads[i], base);
    if s.loads[i].over {
      path := StoreNow(s, i, base);
    } else {
      var s' := Advance(s, i, base);
      var rest := FinishLoad(s', i, base);
      Prepend(s, rest, base);
      path := [s] + rest;
    }
  }

  // ----- Loads that cannot finish -----

  /** Once the dictionary has gained a key the iteration does not know, the load never gets on. */
  ghost predicate Stuck(s: State, i: nat) {
    i < |s.loads| && (s.loads[i].Dead? || (s.loads[i].Merging? && !CanFinish(s, s.loads[i])))
  }

  lemma {:induction false} StuckStep(s: State, s': State, i: nat, base: Config)
    requires Shaped(s, base) && Next(s, s', base) && Stuck(s, i)
    ensures Stuck(s', i)
  {
    if s.loads[i].Merging? { assert Shape(s, s.loads[i], base); }
    if j: nat :| Acts(s, s', j, base) {
      OneLoadMoves(s, s', j, base);
    } else if LayerChanges(s, s') {
      ChangeOfLayer(s, s');
    }
  }

  lemma {:induction false} StuckForGood(path: seq<State>, k: nat, i: nat, base: Config)
    requires IsPath(path, base) && k < |path| && Shaped(path[0], base) && Stuck(path[0], i)
    ensures Shaped(path[k], base) && Stuck(path[k], i)
  {
    if k > 0 {
      StuckForGood(path, k - 1, i, base);
      NextKeepsShaped(path[k - 1], path[k], base);
      StuckStep(path[k - 1], path[k], i, base);
    }
  }

  ghost predicate ServedIn(s: State, i: nat) {
    i < |s.loads| && s.loads[i].Served?
  }

  /** In every state of every run, a load that is merging is served in some continuation exactly
      when its iteration is over or no category was added to the dictionary since it began. */
  lemma {:induction false} ServedIffCanFinish(run: seq<State>, k: nat, i: nat, base: Config)
    requires IsRun(run, base) && k < |run| && i < |run[k].loads| && run[k].loads[i].Merging?
    ensures (exists path :: IsPath(path, base) && path[0] == run[k] && ServedIn(path[|path| - 1], i))
            <==> CanFinish(run[k], run[k].loads[i])
  {
    RunIsShaped(run, k, base);
    if CanFinish(run[k], run[k].loads[i]) {
      var path := FinishLoad(run[k], i, base);
      assert ServedIn(path[|path| - 1], i);
    } else if path :| IsPath(path, base) && path[0] == run[k] && ServedIn(path[|path| - 1], i) {
      StuckForGood(path, |path| - 1, i, base);
      assert false;
    }
  }

  // ----- Values from an instant on -----

  ghost predicate Since(c: string, v: Tree, base: Config, history: seq<Config>, w: nat)
    requires c in base
  {
    exists h :: w <= h < |history| && v == Effective(base[c], history[h], c)
  }

  ghost predicate EntrySince(e: Entry, base: Config, history: seq<Config>, w: nat) {
    forall c :: c in base ==> c in e.config && Since(c, e.config[c], base, history, w)
  }

  ghost predicate PendingSince(s: State, l: Load, base: Config, w: nat)
    requires l.Merging? && l.config.Keys == base.Keys
  {
    forall c :: c in base ==> Since(c, Pending(s, l, base, c), base, s.history, w)
  }

  lemma {:induction false} SinceSurvives(c: string, v: Tree, base: Config, history: seq<Config>, longer: seq<Config>,
      w: nat)
    requires c in base && Since(c, v, base, history, w) && history <= longer
    ensures Since(c, v, base, longer, w)
  {
    var h :| w <= h < |history| && v == Effective(base[c], history[h], c);
    assert longer[h] == history[h];
  }

  lemma {:induction false} EntrySinceSurvives(e: Entry, base: Config, history: seq<Config>, longer: seq<Config>, w: nat)
    requires EntrySince(e, base, history, w) && history <= longer
    ensures EntrySince(e, base, longer, w)
  {
    forall c | c in base ensures Since(c, e.config[c], base, longer, w) {
      SinceSurvives(c, e.config[c], base, history, longer, w);
    }
  }

  /** A load that can finish, or has been served since the start, holds values from w on. */
  ghost predicate LoadSince(start: State, s: State, i: nat, base: Config, w: nat)
    requires i < |s.loads|
  {
    var l := s.loads[i];
    && (l.Merging? && l.config.Keys == base.Keys && CanFinish(s, l) ==> PendingSince(s, l, base, w))
    && (l.Served? ==> ServedIn(start, i) || EntrySince(l.entry, base, s.history, w))
  }

  ghost predicate AllSince(start: State, s: State, base: Config, w: nat) {
    && Shaped(s, base) && w < |s.history| && |start.loads| <= |s.loads|
    && (s.cache.Some? ==> EntrySince(s.cache.value, base, s.history, w))
    && forall i: nat :: i < |s.loads| ==> LoadSince(start, s, i, base, w)
  }

  lemma {:induction false} ChangeKeepsPending(s: State, s': State, l: Load, base: Config, w: nat)
    requires LayerOk(s) && LayerChanges(s, s') && l.Merging? && Shape(s, l, base) && w < |s.history|
    requires PendingSince(s, l, base, w)
    ensures PendingSince(s', l, base, w)
  {
    ChangeOfLayer(s, s');
    forall c | c in base ensures Since(c, Pending(s', l, base, c), base, s'.history, w) {
      if Pending(s', l, base, c) == Pending(s, l, base, c) {
        SinceSurvives(c, Pending(s, l, base, c), base, s.history, s'.history, w);
      } else {
        assert Pending(s', l, base, c) == Effective(base[c], s'.history[|s.history|], c);
      }
    }
  }

  lemma {:induction false} ChangeKeepsLoad(start: State, s: State, s': State, i: nat, base: Config, w: nat)
    requires AllSince(start, s, base, w) && LayerChanges(s, s') && i < |s.loads| && s'.loads == s.loads
    requires s.history <= s'.history
    ensures LoadSince(start, s', i, base, w)
  {
    var l := s.loads[i];
    assert LoadSince(start, s, i, base, w);
    if l.Merging? && CanFinish(s', l) {
      assert Shape(s, l, base);
      ChangeOfLayer(s, s');
      assert CanFinish(s, l);
      ChangeKeepsPending(s, s', l, base, w);
    } else if l.Served? && !ServedIn(start, i) {
      EntrySinceSurvives(l.entry, base, s.history, s'.history, w);
    }
  }

  lemma {:induction false} ChangeKeepsAllSince(start: State, s: State, s': State, base: Config, w: nat)
    requires AllSince(start, s, base, w) && LayerChanges(s, s')
    ensures AllSince(start, s', base, w)
  {
    ChangeOfLayer(s, s');
    ChangeKeepsShaped(s, s', base);
    if s.cache.Some? { EntrySinceSurvives(s.cache.value, base, s.history, s'.history, w); }
    forall i: nat | i < |s'.loads| ensures LoadSince(start, s', i, base, w) {
      ChangeKeepsLoad(start, s, s', i, base, w);
    }
  }

  /** A fetch takes the layer as it is. */
  lemma {:induction false} FetchedSince(s: State, s': State, i: nat, base: Config, w: nat)
    requires LayerOk(s) && w < |s.history| && Fetch(s, s', i, base)
    ensures PendingSince(s', s'.loads[i], base, w)
  {
    var l, n := s'.loads[i], |s.history| - 1;
    forall c | c in base ensures Since(c, Pending(s', l, base, c), base, s'.history, w) {
      assert s'.history[n] == Present(s);
      assert Pending(s', l, base, c) == Effective(base[c], s'.history[n], c);
    }
  }

  /** Visiting a category stores what was pending for it. */
  lemma {:induction false} VisitedSince(s: State, s': State, i: nat, c: string, base: Config, w: nat)
    requires Visit(s, s', i, c) && Shape(s, s.loads[i], base) && PendingSince(s, s.loads[i], base, w)
    ensures s'.loads[i].config.Keys == base.Keys && PendingSince(s', s'.loads[i], base, w)
  {
    forall d | d in base ensures Since(d, Pending(s', s'.loads[i], base, d), base, s'.history, w) {
      VisitKeepsPending(s, s', i, c, base, d);
      assert Since(d, Pending(s, s.loads[i], base, d), base, s.history, w);
    }
  }

  lemma {:induction false} VisitKeepsPending(s: State, s': State, i: nat, c: string, base: Config, d: string)
    requires Visit(s, s', i, c) && Shape(s, s.loads[i], base) && d in base
    ensures s'.loads[i].config.Keys == base.Keys
    ensures Pending(s', s'.loads[i], base, d) == Pending(s, s.loads[i], base, d)
  {}

  lemma {:induction false} MoverSince(start: State, s: State, s': State, i: nat, base: Config, w: nat)
    requires AllSince(start, s, base, w) && Acts(s, s', i, base) && i < |s'.loads|
    ensures LoadSince(start, s', i, base, w)
    ensures s'.cache.Some? ==> EntrySince(s'.cache.value, base, s.history, w)
  {
    OneLoadMoves(s, s', i, base);
    assert LoadSince(start, s, i, base, w);
    if s.loads[i].Merging? { assert Shape(s, s.loads[i], base); }
    if Fetch(s, s', i, base) {
      FetchedSince(s, s', i, base, w);
    } else if c :| Visit(s, s', i, c) {
      VisitedSince(s, s', i, c, base, w);
    } else if Exhaust(s, s', i) {
      forall d | d in base ensures Since(d, Pending(s', s'.loads[i], base, d), base, s'.history, w) {
        assert Pending(s', s'.loads[i], base, d) == Pending(s, s.loads[i], base, d);
      }
    } else if Store(s, s', i) {
      forall d | d in base ensures Since(d, s'.loads[i].entry.config[d], base, s.history, w) {
        assert Pending(s, s.loads[i], base, d) == s.loads[i].config[d];
      }
    }
  }

  /** A load that does not move, in a step that leaves the layer alone. */
  lemma {:induction false} BystanderSince(start: State, s: State, s': State, i: nat, base: Config, w: nat)
    requires i < |s.loads| && i < |s'.loads| && s'.loads[i] == s.loads[i] && LoadSince(start, s, i, base, w)
    requires s'.objects == s.objects && s'.history == s.history
    ensures LoadSince(start, s', i, base, w)
  {
    var l := s.loads[i];
    if l.Merging? && l.config.Keys == base.Keys && CanFinish(s', l) {
      forall d | d in base ensures Since(d, Pending(s', l, base, d), base, s'.history, w) {
        assert Pending(s', l, base, d) == Pending(s, l, base, d);
      }
    }
  }

  lemma {:induction false} NextKeepsAllSince(start: State, s: State, s': State, base: Config, w: nat)
    requires AllSince(start, s, base, w) && Next(s, s', base)
    ensures AllSince(start, s', base, w)
  {
    if LayerChanges(s, s') {
      ChangeKeepsAllSince(start, s, s', base, w);
    } else if i: nat :| Acts(s, s', i, base) {
      OneLoadMoves(s, s', i, base);
      NextKeepsShaped(s, s', base);
      MoverSince(start, s, s', i, base, w);
      forall j: nat | j < |s'.loads| ensures LoadSince(start, s', j, base, w) {
        if j != i { BystanderSince(start, s, s', j, base, w); }
      }
    } else {
      NextKeepsShaped(s, s', base);
      forall j: nat | j < |s'.loads| ensures LoadSince(start, s', j, base, w) {
        if j < |s.loads| { BystanderSince(start, s, s', j, base, w); }
      }
    }
  }

  lemma {:induction false} PathKeepsAllSince(path: seq<State>, k: nat, base: Config, w: nat)
    requires IsPath(path, base) && k < |path| && AllSince(path[0], path[0], base, w)
    ensures AllSince(path[0], path[k], base, w)
  {
    if k > 0 {
      PathKeepsAllSince(path, k - 1, base, w);
      NextKeepsAllSince(path[0], path[k - 1], path[k], base, w);
    }
  }

  // ----- Immediate effect -----

  /** In every continuation, whoever is served from now on gets for each category a value it has had
      since the instant w. */
  ghost predicate InEffect(s: State, base: Config, w: nat) {
    forall path: seq<State>, i: nat ::
      IsPath(path, base) && path[0] == s && ServedIn(path[|path| - 1], i) && !ServedIn(s, i) ==>
        EntrySince(path[|path| - 1].loads[i].entry, base, path[|path| - 1].history, w)
  }

  /** A load under way would store something else than the present composition. */
  ghost predicate Outdated(s: State, i: nat, base: Config) {
    && i < |s.loads| && s.loads[i].Merging? && CanFinish(s, s.loads[i])
    && exists c :: c in base && c in s.loads[i].config
         && Pending(s, s.loads[i], base, c) != Effective(base[c], Present(s), c)
  }

  ghost predicate NoneOutdated(s: State, base: Config) {
    forall i: nat :: !Outdated(s, i, base)
  }

  lemma {:induction false} OutdatedIsServed(s: State, i: nat, base: Config)
    requires Shaped(s, base) && Outdated(s, i, base)
    ensures !InEffect(s, base, |s.history| - 1)
  {
    var w, l := |s.history| - 1, s.loads[i];
    var c :| c in base && c in l.config && Pending(s, l, base, c) != Effective(base[c], Present(s), c);
    var path := FinishLoad(s, i, base);
    var last := path[|path| - 1];
    assert ServedIn(last, i) && !ServedIn(s, i);
    assert !Since(c, last.loads[i].entry.config[c], base, last.history, w);
  }

  lemma {:induction false} NoneOutdatedStart(s: State, base: Config)
    requires Shaped(s, base) && s.cache.None? && NoneOutdated(s, base)
    ensures AllSince(s, s, base, |s.history| - 1)
  {
    var w := |s.history| - 1;
    forall i: nat | i < |s.loads| ensures LoadSince(s, s, i, base, w) {
      var l := s.loads[i];
      if l.Merging? && l.config.Keys == base.Keys && CanFinish(s, l) {
        assert !Outdated(s, i, base);
        forall c | c in base ensures Since(c, Pending(s, l, base, c), base, s.history, w) {
          assert Pending(s, l, base, c) == Effective(base[c], s.history[w], c);
        }
      }
    }
  }

  /** In every run, after an invalidation the layer as it is then is in effect, for every load served
      later in every continuation, exactly when no load under way that can still finish has something
      else pending. */
  lemma {:induction false} InEffectIff(run: seq<State>, p: nat, base: Config)
    requires IsRun(run, base) && p + 1 < |run| && Invalidate(run[p], run[p + 1])
    ensures run[p + 1].history != []
    ensures InEffect(run[p + 1], base, |run[p + 1].history| - 1) <==> NoneOutdated(run[p + 1], base)
  {
    var s := run[p + 1];
    RunIsShaped(run, p + 1, base);
    if i: nat :| Outdated(s, i, base) {
      OutdatedIsServed(s, i, base);
    } else {
      NoneOutdatedStart(s, base);
      forall path: seq<State>, i: nat
        | IsPath(path, base) && path[0] == s && ServedIn(path[|path| - 1], i) && !ServedIn(s, i)
        ensures EntrySince(path[|path| - 1].loads[i].entry, base, path[|path| - 1].history, |s.history| - 1)
      {
        PathKeepsAllSince(path, |path| - 1, base, |s.history| - 1);
        assert LoadSince(s, path[|path| - 1], i, base, |s.history| - 1);
      }
    }
  }
}
