/** The cached tenant configuration: platform defaults, tenant file and runtime overrides composed
    on a miss, served from a cache with a time to live otherwise. Sequential use never serves
    anything but the composition of the three layers as they are. */
module TenantConfig {
  import opened Wrappers
  import opened DeepMerge

  type Domain = string
  type Config = map<string, Tree>

  /** The files on disk: platform defaults per category, and one overrides file per tenant. */
  datatype Disk = Disk(platform: Config, tenants: map<Domain, Config>)

  /** _load_from_disk: the platform categories, under the tenant's file where there is one. */
  function FromDisk(disk: Disk, domain: Domain): Config {
    var merged := if domain in disk.tenants then Merge(Dict(disk.platform), Dict(disk.tenants[domain])).entries
        else disk.platform;
    map c | c in disk.platform :: merged[c]
  }

  /** One category under its runtime override; only dictionaries override. A base that is not a
      dictionary gives way entirely, as an empty one would. */
  function Effective(base: Tree, runtime: Config, category: string): Tree {
    if category in runtime && runtime[category].Dict? then Merge(base, runtime[category]) else base
  }

  /** The composition with no cache: every category under its override. */
  function Compose(disk: Disk, domain: Domain, runtime: Config): Config {
    map c | c in disk.platform :: Effective(FromDisk(disk, domain)[c], runtime, c)
  }

  function RuntimeOf(overrides: map<Domain, Config>, domain: Domain): Config {
    if domain in overrides then overrides[domain] else map[]
  }

  const TTL: real := 60.0

  /** The loop over runtime.items(): each known category is set to its merged value. */
  method ApplyRuntime(config: Config, runtime: Config) returns (result: Config)
    ensures result.Keys == config.Keys
    ensures forall c :: c in config ==> result[c] == Effective(config[c], runtime, c)
  {
    result := config;
    var todo := runtime.Keys;
    while todo != {}
      invariant todo <= runtime.Keys && result.Keys == config.Keys
      invariant forall c | c in config ::
        result[c] == if c in todo then config[c] else Effective(config[c], runtime, c)
      decreases todo
    {
      var c :| c in todo;
      if c in result && runtime[c].Dict? {
        var merged := DeepMerge.DeepMerge(result[c], runtime[c]);
        result := result[c := merged];
      }
      todo := todo - {c};
    }
  }

  // ----- What is served at a path -----

  /** What the files hold at a path of a category: the tenant's layer over the platform's. */
  function FileNode(disk: Disk, domain: Domain, c: string, path: seq<string>): Option<Node>
    requires c in disk.platform
  {
    var platform := At(disk.platform[c], path);
    if domain in disk.tenants && c in disk.tenants[domain]
      then Over(disk.tenants[domain][c], path, platform) else platform
  }

  /** What is served there: a dictionary override over the files; any other counts for nothing. */
  function ServedNode(disk: Disk, overrides: map<Domain, Config>, domain: Domain, c: string, path: seq<string>):
      Option<Node>
    requires c in disk.platform
  {
    var files := FileNode(disk, domain, c, path);
    if domain in overrides && c in overrides[domain] && overrides[domain][c].Dict?
      then Over(overrides[domain][c], path, files) else files
  }

  /** Path by path, the composition is what the three layers say, each over the one below. */
  lemma {:induction false} NodeOfComposition(disk: Disk, overrides: map<Domain, Config>, domain: Domain, c: string,
      path: seq<string>)
    requires c in disk.platform
    ensures At(Compose(disk, domain, RuntimeOf(overrides, domain))[c], path) ==
            ServedNode(disk, overrides, domain, c, path)
  {
    if domain in disk.tenants && c in disk.tenants[domain] {
      NodeOfMerge(disk.platform[c], disk.tenants[domain][c], path);
    }
    if domain in overrides && c in overrides[domain] && overrides[domain][c].Dict? {
      NodeOfMerge(FromDisk(disk, domain)[c], overrides[domain][c], path);
    }
  }

  class TenantConfigService {
    const disk: Disk
    var cache: map<Domain, (Config, real)>
    var overrides: map<Domain, Config>

    constructor (disk: Disk)
      ensures this.disk == disk && cache == map[] && overrides == map[] && Valid()
    {
      this.disk := disk;
      cache, overrides := map[], map[];
    }

    /** Every cached value is the composition of the layers as they are now, however old it is. */
    ghost predicate Valid()
      reads this
    {
      forall d :: d in cache ==> cache[d].0 == Compose(disk, d, RuntimeOf(overrides, d))
    }

    /** load, with the clock readings at the look-up and at the store. */
    method Load(domain: Domain, now: real, later: real) returns (config: Config)
      requires Valid()
      modifies this`cache
      ensures Valid() && config == Compose(disk, domain, RuntimeOf(overrides, domain))
      ensures config.Keys == disk.platform.Keys
      ensures forall c, path: seq<string> :: c in disk.platform ==>
                At(config[c], path) == ServedNode(disk, overrides, domain, c, path)
      ensures domain in old(cache) && now - old(cache)[domain].1 < 60.0 ==> cache == old(cache)
      ensures !(domain in old(cache) && now - old(cache)[domain].1 < 60.0) ==>
              cache == old(cache)[domain := (config, later)]
    {
      forall c, path: seq<string> | c in disk.platform
        ensures At(Compose(disk, domain, RuntimeOf(overrides, domain))[c], path) ==
                ServedNode(disk, overrides, domain, c, path)
      {
        NodeOfComposition(disk, overrides, domain, c, path);
      }
      if domain in cache && now - cache[domain].1 < TTL {
        return cache[domain].0;
      }
      config := ApplyRuntime(FromDisk(disk, domain), RuntimeOf(overrides, domain));
      assert config == Compose(disk, domain, RuntimeOf(overrides, domain));
      cache := cache[domain := (config, later)];
    }

    method Invalidate(domain: Option<Domain>)
      modifies this`cache
      ensures cache == match domain case None => map[] case Some(d) => old(cache) - {d}
      ensures old(Valid()) ==> Valid()
    {
      cache := match domain case None => map[] case Some(d) => cache - {d};
    }

    method ApplyRuntimeOverride(domain: Domain, category: string, value: Tree)
      requires Valid()
      modifies this`cache, this`overrides
      ensures Valid() && cache == old(cache) - {domain}
      ensures overrides.Keys == old(overrides).Keys + {domain}
      ensures forall d :: d in old(overrides) && d != domain ==> overrides[d] == old(overrides)[d]
      ensures overrides[domain] ==
              (if domain in old(overrides) then old(overrides)[domain] else map[])[category := value]
    {
      overrides := overrides[domain := RuntimeOf(overrides, domain)[category := value]];
      Invalidate(Some(domain));
    }

    method ClearRuntimeOverrides(domain: Option<Domain>)
      requires Valid()
      modifies this`cache, this`overrides
      ensures Valid()
      ensures overrides == match domain case None => map[] case Some(d) => old(overrides) - {d}
      ensures cache == match domain case None => map[] case Some(d) => old(cache) - {d}
    {
      overrides := match domain case None => map[] case Some(d) => overrides - {d};
      Invalidate(domain);
    }
  }

  // ----- Histories of one domain's overrides -----

  datatype Change = Override(category: string, value: Tree) | Clear

  /** The runtime layer after the first n changes, each as the service makes it. */
  function RuntimeAfter(changes: seq<Change>, n: nat): Config
    requires n <= |changes|
  {
    if n == 0 then map[]
    else
      match changes[n - 1]
      case Override(c, value) => RuntimeAfter(changes, n - 1)[c := value]
      case Clear => map[]
  }

  /** The override of a category put last and not cleared since. */
  function LastOverride(changes: seq<Change>, n: nat, c: string): Option<Tree>
    requires n <= |changes|
  {
    if n == 0 || changes[n - 1].Clear? then None
    else if changes[n - 1].category == c then Some(changes[n - 1].value)
    else LastOverride(changes, n - 1, c)
  }

  /** Overrides replace one another and do not accumulate: after any history a category is its base
      under the last override alone. */
  lemma {:induction false} OverridesFollowHistory(disk: Disk, domain: Domain, changes: seq<Change>, n: nat, c: string)
    requires n <= |changes| && c in disk.platform
    ensures var last, base := LastOverride(changes, n, c), FromDisk(disk, domain)[c];
            Compose(disk, domain, RuntimeAfter(changes, n))[c] ==
            if last.Some? && last.value.Dict? then Merge(base, last.value) else base
  {
    RuntimeHoldsLast(changes, n, c);
  }

  lemma {:induction false} RuntimeHoldsLast(changes: seq<Change>, n: nat, c: string)
    requires n <= |changes|
    ensures var r := RuntimeAfter(changes, n);
            LastOverride(changes, n, c) == if c in r then Some(r[c]) else None
  {
    if n > 0 { RuntimeHoldsLast(changes, n - 1, c); }
  }

  /** Putting the override that is in force again changes no effective configuration, and neither
      does moving it into the layer below while it is still in force. */
  lemma {:induction false} OverrideAgain(disk: Disk, domain: Domain, changes: seq<Change>, c: string, value: Tree)
    requires LastOverride(changes, |changes|, c) == Some(value)
    ensures var n, again := |changes|, changes + [Override(c, value)];
            && Compose(disk, domain, RuntimeAfter(again, n + 1)) == Compose(disk, domain, RuntimeAfter(changes, n))
            && (c in disk.platform && value.Dict? ==>
                  Effective(Merge(FromDisk(disk, domain)[c], value), RuntimeAfter(changes, n), c)
                  == Compose(disk, domain, RuntimeAfter(changes, n))[c])
  {
    var n, again := |changes|, changes + [Override(c, value)];
    RuntimeHoldsLast(changes, n, c);
    SamePrefix(changes, again, n);
    assert RuntimeAfter(changes, n)[c := value] == RuntimeAfter(changes, n);
    if c in disk.platform && value.Dict? { MergeAgain(FromDisk(disk, domain)[c], value); }
  }

  lemma {:induction false} SamePrefix(changes: seq<Change>, longer: seq<Change>, n: nat)
    requires n <= |changes| && changes <= longer
    ensures RuntimeAfter(longer, n) == RuntimeAfter(changes, n)
  {
    if n > 0 { SamePrefix(changes, longer, n - 1); }
  }
}
