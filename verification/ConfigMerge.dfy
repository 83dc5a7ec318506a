/** Theme configuration merging of internal/landingpage/themes.go, over arbitrarily nested maps. */
module ConfigMerge {
  import opened Seqs

  /** A configuration value: a nested map, or anything else, which merging treats as a unit. */
  datatype Value = Leaf(text: string) | Map(entries: map<string, Value>)

  type Config = map<string, Value>

  /** What one key of the merged map holds. */
  function MergedAt(base: Config, override: Config, k: string): Value
    requires k in base || k in override
    decreases Map(override), 0
  {
    if k !in override then base[k]
    else if k in base && base[k].Map? && override[k].Map? then Map(Merge(base[k].entries, override[k].entries))
    else override[k]
  }

  function Merge(base: Config, override: Config): (r: Config)
    ensures r.Keys == base.Keys + override.Keys
    decreases Map(override), 1
  {
    map k | k in base.Keys + override.Keys :: MergedAt(base, override, k)
  }

  /** deepMerge: copy the base, then override key by key, descending where both sides are maps. */
  method DeepMerge(base: Config, override: Config) returns (result: Config)
    ensures result == Merge(base, override)
    decreases Map(override)
  {
    result := map[];
    var rest := base.Keys;
    while rest != {}
      invariant rest <= base.Keys && result.Keys == base.Keys - rest
      invariant forall k <- result :: result[k] == base[k]
      decreases rest
    {
      var k :| k in rest;
      result := result[k := base[k]];
      rest := rest - {k};
    }
    rest := override.Keys;
    while rest != {}
      invariant rest <= override.Keys && result.Keys == base.Keys + (override.Keys - rest)
      invariant forall k <- result :: result[k] == if k in rest then base[k] else MergedAt(base, override, k)
      decreases rest
    {
      var k :| k in rest;
      if k in base && base[k].Map? && override[k].Map? {
        var merged := DeepMerge(base[k].entries, override[k].entries);
        result := result[k := Map(merged)];
      } else {
        result := result[k := override[k]];
      }
      rest := rest - {k};
    }
  }

  /** MergeConfig over given theme defaults; no user configuration leaves them alone. */
  method MergeConfig(defaults: Config, user: Option<Config>) returns (result: Config)
    ensures result == if user == None then defaults else Merge(defaults, user.value)
  {
    if user == None {
      return defaults;
    }
    result := DeepMerge(defaults, user.value);
  }

  // ---------------------------------------------------------------- lookup

  function Lookup(c: Config, path: seq<string>): Option<Value>
    requires path != []
    decreases |path|
  {
    if path[0] !in c then None
    else if |path| == 1 then Some(c[path[0]])
    else if c[path[0]].Map? then Lookup(c[path[0]].entries, path[1..])
    else None
  }

  /** A non-map value lies on the way: nothing below it is reachable. */
  predicate Shadows(c: Config, path: seq<string>)
    requires path != []
    decreases |path|
  {
    path[0] in c && |path| > 1 && (c[path[0]].Leaf? || Shadows(c[path[0]].entries, path[1..]))
  }

  /** Override wins wherever it says something, except that two maps are merged; where it says nothing the base
      shows through, unless the override has a non-map value on the way. */
  lemma {:induction false} MergeLookup(base: Config, override: Config, path: seq<string>)
    requires path != []
    ensures Lookup(Merge(base, override), path)
         == match Lookup(override, path)
            case Some(Leaf(x)) => Some(Leaf(x))
            case Some(Map(m)) =>
              if Lookup(base, path).Some? && Lookup(base, path).value.Map?
              then Some(Map(Merge(Lookup(base, path).value.entries, m))) else Some(Map(m))
            case None => if Shadows(override, path) then None else Lookup(base, path)
    decreases |path|
  {
    var k := path[0];
    if |path| > 1 && k in base && k in override && base[k].Map? && override[k].Map? {
      MergeLookup(base[k].entries, override[k].entries, path[1..]);
    } else if |path| > 1 && k in override && override[k].Map? {
      NeverShadowedAndMissing(override[k].entries, path[1..]);
    }
  }

  /** A path that is shadowed leads nowhere. */
  lemma {:induction false} NeverShadowedAndMissing(c: Config, path: seq<string>)
    requires path != []
    ensures Shadows(c, path) ==> Lookup(c, path) == None
    decreases |path|
  {
    if |path| > 1 && path[0] in c && c[path[0]].Map? {
      NeverShadowedAndMissing(c[path[0]].entries, path[1..]);
    }
  }

  // ---------------------------------------------------------------- laws

  /** `m` already says everything `o` says. */
  predicate Absorbs(m: Config, o: Config)
    decreases Map(o)
  {
    forall k <- o :: k in m && if m[k].Map? && o[k].Map? then Absorbs(m[k].entries, o[k].entries) else m[k] == o[k]
  }

  /** Overriding with `o` changes nothing exactly when `m` absorbs it. */
  lemma {:induction false} AbsorbedIff(m: Config, o: Config)
    ensures Merge(m, o) == m <==> Absorbs(m, o)
    decreases Map(o)
  {
    forall k | k in o && k in m && m[k].Map? && o[k].Map?
      ensures Merge(m[k].entries, o[k].entries) == m[k].entries <==> Absorbs(m[k].entries, o[k].entries)
    {
      AbsorbedIff(m[k].entries, o[k].entries);
    }
    if Merge(m, o) == m {
      forall k | k in o ensures k in m && if m[k].Map? && o[k].Map? then Absorbs(m[k].entries, o[k].entries) else m[k] == o[k] {
        assert k in Merge(m, o) && Merge(m, o)[k] == m[k];
      }
    } else if Absorbs(m, o) {
      assert Merge(m, o).Keys == m.Keys;
      assert forall k <- m :: Merge(m, o)[k] == m[k];
    }
  }

  lemma {:induction false} SelfAbsorbed(x: Config)
    ensures Absorbs(x, x)
    decreases Map(x)
  {
    forall k | k in x && x[k].Map? ensures Absorbs(x[k].entries, x[k].entries) {
      SelfAbsorbed(x[k].entries);
    }
  }

  lemma {:induction false} ResultAbsorbsOverride(base: Config, o: Config)
    ensures Absorbs(Merge(base, o), o)
    decreases Map(o)
  {
    forall k | k in o && o[k].Map? ensures Merge(base, o)[k].Map? && Absorbs(Merge(base, o)[k].entries, o[k].entries) {
      if k in base && base[k].Map? {
        ResultAbsorbsOverride(base[k].entries, o[k].entries);
      } else {
        SelfAbsorbed(o[k].entries);
      }
    }
  }

  /** Merging a configuration into itself, or the same override twice, is harmless. */
  lemma Idempotence(base: Config, o: Config)
    ensures Merge(base, base) == base
    ensures Merge(Merge(base, o), o) == Merge(base, o)
  {
    SelfAbsorbed(base);
    AbsorbedIff(base, base);
    ResultAbsorbsOverride(base, o);
    AbsorbedIff(Merge(base, o), o);
  }

  /** `c` has a value on every path of `a` that stays within maps of both. */
  predicate Dominates(c: Config, a: Config)
    decreases Map(c)
  {
    forall k <- a :: k in c && (a[k].Map? && c[k].Map? ==> Dominates(c[k].entries, a[k].entries))
  }

  lemma {:induction false} DominatesIff(a: Config, c: Config)
    ensures Merge(a, c) == c <==> Dominates(c, a)
    decreases Map(c)
  {
    forall k | k in a && k in c && a[k].Map? && c[k].Map?
      ensures Merge(a[k].entries, c[k].entries) == c[k].entries <==> Dominates(c[k].entries, a[k].entries)
    {
      DominatesIff(a[k].entries, c[k].entries);
    }
    if Merge(a, c) == c {
      forall k | k in a ensures k in c && (a[k].Map? && c[k].Map? ==> Dominates(c[k].entries, a[k].entries)) {
        assert k in Merge(a, c) && Merge(a, c)[k] == c[k];
      }
    } else if Dominates(c, a) {
      assert Merge(a, c).Keys == c.Keys;
      assert forall k <- c :: Merge(a, c)[k] == c[k];
    }
  }

  /** Where the outer two are maps, the middle one is absent, a map too, or covered by the last. */
  predicate Agree(a: Config, b: Config, c: Config)
    decreases Map(c)
  {
    forall k <- c :: k in a && k in b && a[k].Map? && c[k].Map? ==>
      if b[k].Map? then Agree(a[k].entries, b[k].entries, c[k].entries) else Dominates(c[k].entries, a[k].entries)
  }

  /** One key of the two groupings. */
  lemma GroupedAt(a: Config, b: Config, c: Config, k: string)
    requires k in a || k in b || k in c
    ensures var l, r := MergedAt(a, Merge(b, c), k), MergedAt(Merge(a, b), c, k);
            if k in a && k in b && k in c && a[k].Map? && c[k].Map? then
              if b[k].Map? then
                && l == Map(Merge(a[k].entries, Merge(b[k].entries, c[k].entries)))
                && r == Map(Merge(Merge(a[k].entries, b[k].entries), c[k].entries))
              else l == Map(Merge(a[k].entries, c[k].entries)) && r == c[k]
            else l == r
  {
  }

  /** Merging is associative exactly for configurations that agree on which shared paths are maps, up to values the
      last configuration overrides anyway. */
  lemma {:induction false} AssociativeIff(a: Config, b: Config, c: Config)
    ensures Merge(a, Merge(b, c)) == Merge(Merge(a, b), c) <==> Agree(a, b, c)
    decreases Map(c)
  {
    var l, r := Merge(a, Merge(b, c)), Merge(Merge(a, b), c);
    forall k | k in l ensures l[k] == MergedAt(a, Merge(b, c), k) && k in r && r[k] == MergedAt(Merge(a, b), c, k) {}
    forall k | k in l
      ensures l[k] == r[k] <==>
                (k in a && k in b && k in c && a[k].Map? && c[k].Map? ==>
                   if b[k].Map? then Agree(a[k].entries, b[k].entries, c[k].entries) else Dominates(c[k].entries, a[k].entries))
    {
      GroupedAt(a, b, c, k);
      if k in a && k in b && k in c && a[k].Map? && c[k].Map? {
        if b[k].Map? {
          AssociativeIff(a[k].entries, b[k].entries, c[k].entries);
        } else {
          DominatesIff(a[k].entries, c[k].entries);
        }
      }
    }
    assert l.Keys == r.Keys;
    if l == r {
      assert forall k <- c :: k in l;
    } else if Agree(a, b, c) {
      assert forall k <- l :: l[k] == r[k];
    }
  }

  /** A leaf between two maps: grouped to the left it hides what the first map says, grouped to the right it does not. */
  lemma GroupingCanMatter()
    ensures var a, b, c := map["k" := Map(map["x" := Leaf("1")])], map["k" := Leaf("2")], map["k" := Map(map[])];
            !Agree(a, b, c) && Merge(a, Merge(b, c)) != Merge(Merge(a, b), c)
  {
    hide Merge;
    var a, b, c := map["k" := Map(map["x" := Leaf("1")])], map["k" := Leaf("2")], map["k" := Map(map[])];
    assert "x" in a["k"].entries && !Dominates(c["k"].entries, a["k"].entries);
    assert "k" in c && !Agree(a, b, c);
    AssociativeIff(a, b, c);
  }
}
