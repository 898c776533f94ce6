/**
 Inheritance of configuration: the recursive merge with delete-by-null, and the
 fold of the defaults layers and the service's own file.
 */
module ConfigMerge {
  import opened Common

  /** A decoded YAML value. Bools, numbers and strings are atoms. */
  datatype Value =
    | Null
    | Scalar(text: string)
    | List(items: seq<Value>)
    | Map(fields: Config)

  type Config = map<string, Value>

  // ---------------------------------------------------------------------------
  // The merge of two maps
  // ---------------------------------------------------------------------------

  function Merge(base: Config, override: Config): (merged: Config)
    decreases Map(override)
  {
    map k | k in base.Keys + override.Keys && !(k in override && override[k].Null?) ::
      if k !in override then base[k]
      else if k in base && base[k].Map? && override[k].Map? then Map(Merge(base[k].fields, override[k].fields))
      else override[k]
  }

  /** The merge as the program runs it: a copy of `base`, changed key by key in any order. */
  method DeepMergeMap(base: Config, override: Config) returns (result: Config)
    ensures result == Merge(base, override)
    decreases Map(override)
  {
    result := base;
    var todo := override.Keys;
    ghost var target := Merge(base, override);
    while todo != {}
      invariant todo <= override.Keys
      invariant forall k :: k in override.Keys - todo ==>
                              (k in result <==> k in target) && (k in result ==> result[k] == target[k])
      invariant forall k :: k in todo || k !in override ==>
                              (k in result <==> k in base) && (k in result ==> result[k] == base[k])
    {
      var key :| key in todo;
      todo := todo - {key};
      var overrideValue := override[key];
      if overrideValue.Null? {
        result := result - {key};
      } else if key in result && result[key].Map? && overrideValue.Map? {
        var child := DeepMergeMap(result[key].fields, overrideValue.fields);
        result := result[key := Map(child)];
      } else {
        result := result[key := overrideValue];
      }
    }
  }

  // ---------------------------------------------------------------------------
  // Layers, and what a reader finds at a path
  // ---------------------------------------------------------------------------

  function Fold(layers: seq<Config>): (merged: Config)
  {
    if layers == [] then map[] else Merge(Fold(layers[..|layers| - 1]), layers[|layers| - 1])
  }

  function Layers(defaults: seq<Config>, own: Option<Config>): seq<Config>
  {
    defaults + if own.Some? then [own.value] else []
  }

  /**
   The inherited view of a service: nothing when neither the service nor any
   defaults file has a config block, otherwise the fold of all of them.
   */
  function InheritedConfig(defaults: seq<Config>, own: Option<Config>): Option<Config>
  {
    if own.None? && (forall i :: 0 <= i < |defaults| ==> defaults[i] == map[]) then None
    else Some(Fold(Layers(defaults, own)))
  }

  /** The program skips empty defaults instead of merging them. */
  method InheritedConfigFor(defaults: seq<Config>, own: Option<Config>) returns (view: Option<Config>)
    ensures view == InheritedConfig(defaults, own)
  {
    var hasConfig := own.Some?;
    var merged: Config := map[];
    for i := 0 to |defaults|
      invariant merged == Fold(defaults[..i])
      invariant hasConfig <==> own.Some? || exists j :: 0 <= j < i && defaults[j] != map[]
    {
      assert defaults[..i + 1][..i] == defaults[..i];
      if |defaults[i]| == 0 {
        assert defaults[i] == map[];
        MergeEmpty(merged);
        continue;
      }
      hasConfig := true;
      merged := DeepMergeMap(merged, defaults[i]);
    }
    assert defaults[..|defaults|] == defaults;
    if own.Some? {
      merged := DeepMergeMap(merged, own.value);
      assert Layers(defaults, own)[..|defaults|] == defaults;
    } else {
      assert Layers(defaults, own) == defaults;
    }
    view := if hasConfig then Some(merged) else None;
  }

  lemma {:induction false} EmptyFold(layers: seq<Config>)
    requires forall i :: 0 <= i < |layers| ==> layers[i] == map[]
    ensures Fold(layers) == map[]
  {
    if layers != [] {
      EmptyFold(layers[..|layers| - 1]);
    }
  }

  /** What a reader sees, present or not, is the service's own config merged onto its defaults. */
  lemma InheritedConfigIsMerge(defaults: seq<Config>, own: Option<Config>)
    ensures var view, raw := InheritedConfig(defaults, own), if own.Some? then own.value else map[];
            (if view.Some? then view.value else raw) == Merge(Fold(defaults), raw)
  {
    if own.Some? {
      assert Layers(defaults, own)[..|defaults|] == defaults;
    } else {
      assert Layers(defaults, own) == defaults;
      MergeEmpty(Fold(defaults));
      if InheritedConfig(defaults, own).None? {
        EmptyFold(defaults);
      }
    }
  }

  lemma MergeEmpty(base: Config)
    ensures Merge(base, map[]) == base
  {
  }

  /** What a reader finds at a path, with null read as absent. */
  datatype Reading = Absent | Node | Leaf(value: Value)

  function Classify(v: Value): Reading
  {
    match v
    case Null => Absent
    case Map(_) => Node
    case _ => Leaf(v)
  }

  /**
   A value decides a path when following the path reaches its end, or hits
   something that is not a map on the way; it leaves the path open when a map on
   the way has no such key.
   */
  function Decide(v: Value, path: seq<string>): Option<Reading>
  {
    if path == [] then Some(Classify(v))
    else if !v.Map? then Some(Absent)
    else if path[0] in v.fields then Decide(v.fields[path[0]], path[1..])
    else None
  }

  function Effective(config: Config, path: seq<string>): Reading
  {
    match Decide(Map(config), path)
    case Some(r) => r
    case None => Absent
  }

  /** The reading of the last layer that decides the path. */
  function LastDecision(layers: seq<Config>, path: seq<string>): Reading
  {
    if layers == [] then Absent
    else match Decide(Map(layers[|layers| - 1]), path)
         case Some(r) => r
         case None => LastDecision(layers[..|layers| - 1], path)
  }

  /** One merge, path by path: the override where it decides, the base elsewhere. */
  lemma {:induction false} MergeReading(base: Config, override: Config, path: seq<string>)
    requires path != []
    ensures Effective(Merge(base, override), path) ==
            match Decide(Map(override), path) { case Some(r) => r case None => Effective(base, path) }
    decreases |path|
  {
    var k, rest := path[0], path[1..];
    var merged := Merge(base, override);
    assert k in merged ==> Decide(Map(merged), path) == Decide(merged[k], rest);
    assert k in override ==> Decide(Map(override), path) == Decide(override[k], rest);
    assert k in base ==> Decide(Map(base), path) == Decide(base[k], rest);
    if k in override && override[k].Map? && k in base && base[k].Map? {
      assert merged[k] == Map(Merge(base[k].fields, override[k].fields));
      if rest != [] {
        MergeReading(base[k].fields, override[k].fields, rest);
      }
    } else if k in override && !override[k].Null? {
      assert merged[k] == override[k];
    } else {
      assert k in merged <==> k in base && k !in override;
    }
  }

  /** Layered inheritance: the fold reads, at every path, as the last layer that decides it. */
  lemma {:induction false} FoldReadsLastDecision(layers: seq<Config>, path: seq<string>)
    requires path != []
    ensures Effective(Fold(layers), path) == LastDecision(layers, path)
  {
    if layers != [] {
      var init := layers[..|layers| - 1];
      FoldReadsLastDecision(init, path);
      MergeReading(Fold(init), layers[|layers| - 1], path);
    }
  }

  lemma {:induction false} NoTopLevelNull(layers: seq<Config>, k: string)
    requires k in Fold(layers)
    ensures !Fold(layers)[k].Null?
  {
    var last := layers[|layers| - 1];
    if k !in last {
      NoTopLevelNull(layers[..|layers| - 1], k);
    }
  }

  // ---------------------------------------------------------------------------
  // Algebra of the merge
  // ---------------------------------------------------------------------------

  /** No map anywhere inside has a null entry (lists are atoms to the merge). */
  ghost predicate NullFree(c: Config)
    decreases Map(c)
  {
    forall k :: k in c ==> !c[k].Null? && (c[k].Map? ==> NullFree(c[k].fields))
  }

  /** Everything `a` says is overwritten by `c`. */
  ghost predicate Absorbed(a: Config, c: Config)
    decreases Map(c)
  {
    && (forall k :: k in c ==> !c[k].Null?)
    && (forall k :: k in a ==> k in c && (a[k].Map? && c[k].Map? ==> Absorbed(a[k].fields, c[k].fields)))
  }

  lemma {:induction false} AbsorbedMeansOverwritten(a: Config, c: Config)
    ensures Merge(a, c) == c <==> Absorbed(a, c)
    decreases Map(c)
  {
    var m := Merge(a, c);
    forall k | k in a && k in c && a[k].Map? && c[k].Map?
      ensures m[k] == c[k] <==> Absorbed(a[k].fields, c[k].fields)
    {
      AbsorbedMeansOverwritten(a[k].fields, c[k].fields);
    }
    if m == c {
      forall k | k in a ensures k in c {
        assert k in c || k in m;
      }
    }
  }

  lemma {:induction false} AbsorbedByItself(c: Config)
    ensures Absorbed(c, c) <==> NullFree(c)
    decreases Map(c)
  {
    forall k | k in c && c[k].Map?
      ensures Absorbed(c[k].fields, c[k].fields) <==> NullFree(c[k].fields)
    {
      AbsorbedByItself(c[k].fields);
    }
  }

  /** The defaults `d` change nothing below what the service's own config says. */
  ghost predicate Redundant(d: Config, own: Config)
  {
    forall k :: k in d ==> k in own && (d[k].Map? && own[k].Map? ==> Absorbed(d[k].fields, own[k].fields))
  }

  /** Defaults can be dropped unseen exactly when they are redundant. */
  lemma DroppingRedundantDefaults(d: Config, own: Config)
    ensures Merge(d, own) == Merge(map[], own) <==> Redundant(d, own)
  {
    var with, without := Merge(d, own), Merge(map[], own);
    forall k | k in d && k in own && d[k].Map? && own[k].Map?
      ensures with[k] == without[k] <==> Absorbed(d[k].fields, own[k].fields)
    {
      AbsorbedMeansOverwritten(d[k].fields, own[k].fields);
    }
    if with == without {
      forall k | k in d ensures k in own {
        assert k in own || (k in with && k !in without);
      }
    }
  }

  /** Where the override lands on no map of the base it must be free of nulls. */
  ghost predicate Settles(base: Config, override: Config)
    decreases Map(override)
  {
    forall k :: k in override && override[k].Map? ==>
                  if k in base && base[k].Map? then Settles(base[k].fields, override[k].fields)
                  else NullFree(override[k].fields)
  }

  /** Merging the same override twice changes nothing more, exactly when it settles at once. */
  lemma {:induction false} MergeTwice(base: Config, override: Config)
    ensures Merge(Merge(base, override), override) == Merge(base, override) <==> Settles(base, override)
    decreases Map(override)
  {
    var once := Merge(base, override);
    var twice := Merge(once, override);
    forall k | k in override && override[k].Map?
      ensures k in once && k in twice
      ensures twice[k] == once[k] <==>
              if k in base && base[k].Map? then Settles(base[k].fields, override[k].fields)
              else NullFree(override[k].fields)
    {
      if k in base && base[k].Map? {
        MergeTwice(base[k].fields, override[k].fields);
      } else {
        AbsorbedMeansOverwritten(override[k].fields, override[k].fields);
        AbsorbedByItself(override[k].fields);
      }
    }
    assert once.Keys == twice.Keys;
    assert forall k :: k in once && !(k in override && override[k].Map?) ==> twice[k] == once[k];
  }

  lemma {:induction false} NullFreeSettles(base: Config, override: Config)
    requires NullFree(override)
    ensures Settles(base, override)
    decreases Map(override)
  {
    forall k | k in override && override[k].Map? && k in base && base[k].Map?
      ensures Settles(base[k].fields, override[k].fields)
    {
      NullFreeSettles(base[k].fields, override[k].fields);
    }
  }

  /** With null read as absent, merging twice is merging once, for every override. */
  lemma MergeTwiceReadsAsOnce(base: Config, override: Config, path: seq<string>)
    requires path != []
    ensures Effective(Merge(Merge(base, override), override), path) == Effective(Merge(base, override), path)
  {
    MergeReading(Merge(base, override), override, path);
    MergeReading(base, override, path);
  }

  /** Exactly the inputs on which the order of merging three layers does not matter. */
  ghost predicate Associates(a: Config, b: Config, c: Config)
    decreases Map(c), 1
  {
    forall k :: k in a && k in c ==> AssociatesAt(a, b, c, k)
  }

  ghost predicate AssociatesAt(a: Config, b: Config, c: Config, k: string)
    decreases Map(c), 0
  {
    k in a && k in c ==>
      && !c[k].Null?
      && (a[k].Map? && k in b && c[k].Map? ==>
            if b[k].Map? then Associates(a[k].fields, b[k].fields, c[k].fields)
            else Absorbed(a[k].fields, c[k].fields))
  }

  lemma {:induction false} MergeAssociates(a: Config, b: Config, c: Config)
    ensures Merge(Merge(a, b), c) == Merge(a, Merge(b, c)) <==> Associates(a, b, c)
    decreases Map(c), 1
  {
    var left := Merge(Merge(a, b), c);
    var right := Merge(a, Merge(b, c));
    forall k
      ensures ((k in left <==> k in right) && (k in left && k in right ==> left[k] == right[k]))
              <==> AssociatesAt(a, b, c, k)
    {
      MergeAssociatesAt(a, b, c, k);
    }
    if left == right {
      forall k | k in a && k in c ensures AssociatesAt(a, b, c, k) {}
    }
    if Associates(a, b, c) {
      assert forall k :: AssociatesAt(a, b, c, k);
      assert left.Keys == right.Keys;
    }
  }

  lemma {:induction false} MergeAssociatesAt(a: Config, b: Config, c: Config, k: string)
    ensures var left, right := Merge(Merge(a, b), c), Merge(a, Merge(b, c));
            ((k in left <==> k in right) && (k in left && k in right ==> left[k] == right[k]))
            <==> AssociatesAt(a, b, c, k)
    decreases Map(c), 0
  {
    var ab, bc := Merge(a, b), Merge(b, c);
    var left, right := Merge(ab, c), Merge(a, bc);
    if k !in c || c[k].Null? {
      assert k in c ==> k !in left && k !in bc;
    } else if !c[k].Map? {
      assert left[k] == c[k] && right[k] == c[k];
    } else if k in a && a[k].Map? && k in b {
      if b[k].Map? {
        assert left[k] == Map(Merge(Merge(a[k].fields, b[k].fields), c[k].fields));
        assert right[k] == Map(Merge(a[k].fields, Merge(b[k].fields, c[k].fields)));
        MergeAssociates(a[k].fields, b[k].fields, c[k].fields);
      } else {
        assert left[k] == c[k];
        assert right[k] == Map(Merge(a[k].fields, c[k].fields));
        AbsorbedMeansOverwritten(a[k].fields, c[k].fields);
      }
    } else {
      assert left[k] == right[k];
    }
  }

  /** No path is a map in one of the three layers and something else in another. */
  ghost predicate SameShape(a: Config, b: Config)
    decreases Map(b)
  {
    forall k :: k in a && k in b ==>
                  (a[k].Map? <==> b[k].Map?) && (a[k].Map? ==> SameShape(a[k].fields, b[k].fields))
  }

  lemma {:induction false} SameShapeAssociates(a: Config, b: Config, c: Config)
    requires NullFree(c) && SameShape(a, b) && SameShape(a, c)
    ensures Merge(Merge(a, b), c) == Merge(a, Merge(b, c))
  {
    SameShapeGivesAssociates(a, b, c);
    MergeAssociates(a, b, c);
  }

  lemma {:induction false} SameShapeGivesAssociates(a: Config, b: Config, c: Config)
    requires NullFree(c) && SameShape(a, b) && SameShape(a, c)
    ensures Associates(a, b, c)
    decreases Map(c)
  {
    forall k | k in a && k in b && k in c && a[k].Map? && c[k].Map?
      ensures Associates(a[k].fields, b[k].fields, c[k].fields)
    {
      SameShapeGivesAssociates(a[k].fields, b[k].fields, c[k].fields);
    }
  }

  /** A null nested under a key the base does not have survives one merge and not the second. */
  lemma NestedNullSurvivesOnce()
    ensures var o := map["a" := Map(map["x" := Null])];
            Merge(map[], o) == o && Merge(Merge(map[], o), o) == map["a" := Map(map[])]
  {
    var inner: Config := map["x" := Null];
    var o := map["a" := Map(inner)];
    assert Merge(map[], o) == o;
    assert Merge(inner, inner) == map[];
    assert Merge(o, o) == map["a" := Map(Merge(inner, inner))];
  }

  /** A null in the last layer deletes a key only of the layer it is merged onto. */
  lemma NullBreaksAssociativity()
    ensures var a, c := map["k" := Scalar("1")], map["k" := Null];
            Merge(Merge(a, map[]), c) == map[] && Merge(a, Merge(map[], c)) == a
  {
    var a, c := map["k" := Scalar("1")], map["k" := Null];
    assert Merge(a, map[]) == a;
    assert Merge(map[], c) == map[];
  }

  /** A scalar between two maps cuts the first one off only when it is merged first. */
  lemma ScalarBetweenMapsBreaksAssociativity()
    ensures var a, b, c := map["k" := Map(map["x" := Scalar("1")])], map["k" := Scalar("2")],
                           map["k" := Map(map["y" := Scalar("3")])];
            NullFree(a) && NullFree(b) && NullFree(c) && Merge(Merge(a, b), c) != Merge(a, Merge(b, c))
  {
    var a, b, c := map["k" := Map(map["x" := Scalar("1")])], map["k" := Scalar("2")],
                   map["k" := Map(map["y" := Scalar("3")])];
    assert Merge(Merge(a, b), c)["k"] == c["k"];
    assert Merge(b, c)["k"] == c["k"];
    assert Merge(a, Merge(b, c))["k"] == Map(Merge(a["k"].fields, c["k"].fields));
    assert "x" in Merge(a["k"].fields, c["k"].fields) && "x" !in c["k"].fields;
  }
}
