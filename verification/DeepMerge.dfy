/** Deep merge of configuration layers: dictionaries merge key by key, everything else is replaced
    by the override. The laws are those a layered configuration relies on, with the exact
    condition under which layers may be grouped either way. */
module DeepMerge {
  import opened Wrappers

  /** Leaf stands for every value that is not a dictionary; lists are replaced whole. */
  datatype Tree = Leaf(value: string) | Dict(entries: map<string, Tree>)

  function Merge(base: Tree, over: Tree): Tree
    decreases base
  {
    if base.Leaf? || over.Leaf? then over
    else
      Dict(map k | k in base.entries.Keys + over.entries.Keys ::
             if k !in over.entries then base.entries[k]
             else if k !in base.entries then over.entries[k]
             else Merge(base.entries[k], over.entries[k]))
  }

  /** The loop of _deep_merge: a copy of the base, updated with one override entry at a time. */
  method DeepMerge(base: Tree, over: Tree) returns (out: Tree)
    ensures out == Merge(base, over)
    decreases base
  {
    if base.Leaf? || over.Leaf? { return over; }
    var entries := base.entries;
    var todo := over.entries.Keys;
    while todo != {}
      invariant todo <= over.entries.Keys
      invariant entries.Keys == base.entries.Keys + (over.entries.Keys - todo)
      invariant forall k | k in entries ::
        entries[k] == if k !in over.entries || k in todo then base.entries[k] else Merge(base, over).entries[k]
      decreases todo
    {
      var k :| k in todo;
      if k in entries && entries[k].Dict? && over.entries[k].Dict? {
        var merged := DeepMerge(entries[k], over.entries[k]);
        entries := entries[k := merged];
      } else {
        entries := entries[k := over.entries[k]];
      }
      todo := todo - {k};
    }
    assert entries == Merge(base, over).entries;
    out := Dict(entries);
  }

  // ----- Laws -----

  /** What stands at a path: a leaf with its value, or a dictionary. */
  datatype Node = Value(text: string) | Group

  function At(t: Tree, path: seq<string>): Option<Node> {
    if path == [] then Some(if t.Leaf? then Value(t.value) else Group)
    else if t.Dict? && path[0] in t.entries then At(t.entries[path[0]], path[1..])
    else None
  }

  /** A leaf stands on the way to the path. */
  predicate Blocks(t: Tree, path: seq<string>) {
    path != [] && (t.Leaf? || (path[0] in t.entries && Blocks(t.entries[path[0]], path[1..])))
  }

  /** What a layer makes of what stands at a path below it. */
  function Over(layer: Tree, path: seq<string>, below: Option<Node>): Option<Node> {
    if At(layer, path).Some? then At(layer, path) else if Blocks(layer, path) then None else below
  }

  /** Path by path, the override stands where it has something, hides what lies below its leaves,
      and lets the base through elsewhere. */
  lemma {:induction false} NodeOfMerge(base: Tree, over: Tree, path: seq<string>)
    ensures At(Merge(base, over), path) == Over(over, path, At(base, path))
    decreases path
  {
    if path != [] && base.Dict? && over.Dict? && path[0] in base.entries && path[0] in over.entries {
      NodeOfMerge(base.entries[path[0]], over.entries[path[0]], path[1..]);
    }
  }

  /** A tree is determined by what stands at its paths. */
  lemma {:induction false} PathsDetermine(a: Tree, b: Tree)
    requires forall path: seq<string> :: At(a, path) == At(b, path)
    ensures a == b
    decreases a
  {
    assert At(a, []) == At(b, []);
    if a.Dict? {
      forall k ensures k in a.entries <==> k in b.entries {
        assert At(a, [k]) == At(b, [k]);
      }
      forall k | k in a.entries ensures a.entries[k] == b.entries[k] {
        forall path: seq<string> ensures At(a.entries[k], path) == At(b.entries[k], path) {
          assert ([k] + path)[1..] == path;
          assert At(a, [k] + path) == At(b, [k] + path);
        }
        PathsDetermine(a.entries[k], b.entries[k]);
      }
      assert a.entries == b.entries;
    }
  }

  lemma {:induction false} MergeSelf(x: Tree)
    ensures Merge(x, x) == x
  {
    if x.Dict? {
      forall k | k in x.entries ensures Merge(x.entries[k], x.entries[k]) == x.entries[k] {
        MergeSelf(x.entries[k]);
      }
      assert Merge(x, x).entries == x.entries;
    }
  }

  /** Applying the same override twice is applying it once. */
  lemma {:induction false} MergeAgain(base: Tree, over: Tree)
    ensures Merge(Merge(base, over), over) == Merge(base, over)
    decreases base
  {
    if base.Leaf? || over.Leaf? {
      MergeSelf(over);
    } else {
      var once := Merge(base, over);
      forall k | k in once.entries
        ensures k in over.entries ==> Merge(once.entries[k], over.entries[k]) == once.entries[k]
      {
        if k in base.entries && k in over.entries {
          MergeAgain(base.entries[k], over.entries[k]);
        } else if k in over.entries {
          MergeSelf(over.entries[k]);
        }
      }
      assert Merge(once, over).entries == once.entries;
    }
  }

  lemma {:induction false} EmptyIsNeutral(x: Tree)
    requires x.Dict?
    ensures Merge(x, Dict(map[])) == x && Merge(Dict(map[]), x) == x
  {}

  /** Every dictionary path of a is overridden by c: merging a under c leaves c. */
  predicate Covered(a: Tree, c: Tree) {
    a.Dict? && c.Dict? ==> forall k :: k in a.entries ==> k in c.entries && Covered(a.entries[k], c.entries[k])
  }

  lemma {:induction false} CoveredIffAbsorbed(a: Tree, c: Tree)
    ensures Merge(a, c) == c <==> Covered(a, c)
  {
    if a.Dict? && c.Dict? {
      forall k | k in a.entries && k in c.entries
        ensures Merge(a.entries[k], c.entries[k]) == c.entries[k] <==> Covered(a.entries[k], c.entries[k])
      {
        CoveredIffAbsorbed(a.entries[k], c.entries[k]);
      }
      var m := Merge(a, c).entries;
      if Covered(a, c) {
        assert m == c.entries;
      }
      if m == c.entries {
        forall k | k in a.entries ensures k in c.entries && Covered(a.entries[k], c.entries[k]) {
          assert k in m;
        }
      }
    }
  }

  /** No path is a dictionary, then a leaf, then a dictionary again across the three layers, unless
      the third already covers the first there. */
  predicate Groupable(a: Tree, b: Tree, c: Tree)
    decreases a
  {
    if c.Leaf? || a.Leaf? then true
    else if b.Leaf? then Covered(a, c)
    else forall k :: k in a.entries && k in b.entries && k in c.entries ==>
      Groupable(a.entries[k], b.entries[k], c.entries[k])
  }

  /** Merging is associative exactly on groupable layers. */
  lemma {:induction false} AssociativeIff(a: Tree, b: Tree, c: Tree)
    ensures Merge(Merge(a, b), c) == Merge(a, Merge(b, c)) <==> Groupable(a, b, c)
    decreases a
  {
    if a.Dict? && b.Dict? && c.Dict? {
      var left, right := Merge(Merge(a, b), c).entries, Merge(a, Merge(b, c)).entries;
      assert left.Keys == right.Keys == a.entries.Keys + b.entries.Keys + c.entries.Keys;
      forall k | k in left
        ensures left[k] == right[k] <==>
                (k in a.entries && k in b.entries && k in c.entries ==>
                   Groupable(a.entries[k], b.entries[k], c.entries[k]))
      {
        if k in a.entries && k in b.entries && k in c.entries {
          AssociativeIff(a.entries[k], b.entries[k], c.entries[k]);
        }
      }
      if Groupable(a, b, c) { assert left == right; }
    } else if a.Dict? && b.Leaf? && c.Dict? {
      CoveredIffAbsorbed(a, c);
    }
  }

  /** The kinds alternate at some common path of the three layers. */
  predicate Alternates(a: Tree, b: Tree, c: Tree)
    decreases a
  {
    || (a.Dict? && b.Leaf? && c.Dict?)
    || (a.Dict? && b.Dict? && c.Dict?
        && exists k :: k in a.entries && k in b.entries && k in c.entries
            && Alternates(a.entries[k], b.entries[k], c.entries[k]))
  }

  /** Without such a path the three layers may be grouped either way. */
  lemma {:induction false} AssociativeUnlessAlternating(a: Tree, b: Tree, c: Tree)
    requires !Alternates(a, b, c)
    ensures Merge(Merge(a, b), c) == Merge(a, Merge(b, c))
  {
    GroupableUnlessAlternating(a, b, c);
    AssociativeIff(a, b, c);
  }

  lemma {:induction false} GroupableUnlessAlternating(a: Tree, b: Tree, c: Tree)
    requires !Alternates(a, b, c)
    ensures Groupable(a, b, c)
    decreases a
  {
    if a.Dict? && b.Dict? && c.Dict? {
      forall k | k in a.entries && k in b.entries && k in c.entries
        ensures Groupable(a.entries[k], b.entries[k], c.entries[k])
      {
        GroupableUnlessAlternating(a.entries[k], b.entries[k], c.entries[k]);
      }
    }
  }

  /** A leaf between two dictionaries breaks associativity: a setting of the first layer survives
      one grouping and is lost in the other. */
  lemma NotAssociative(key: string, setting: Tree, leaf: Tree)
    requires leaf.Leaf?
    ensures var a, c := Dict(map[key := setting]), Dict(map[]);
            Merge(Merge(a, leaf), c) == c && Merge(a, Merge(leaf, c)) == a && a != c
  {
    var a := Dict(map[key := setting]);
    EmptyIsNeutral(a);
    assert key in a.entries;
  }
}
