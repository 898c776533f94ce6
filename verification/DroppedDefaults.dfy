/**
 Watchers of inherited resources that are not told their defaults are gone, and readers
 whose response is labelled too late: when that happens, and commits on which it does.
 */
module DroppedDefaults {
  import opened Common
  import opened ConfigMerge
  import opened Git
  import opened Snapshots
  import opened Serving
  import opened VersionTokens

  // ---------------------------------------------------------------------------
  // When a watcher misses that the defaults are gone
  // ---------------------------------------------------------------------------

  ghost predicate GoesUnnoticed(before: Snapshot, after: Snapshot, svc: Service, r: Resource)
    requires svc in before.data && svc in after.data
  {
    && ViewToken(before, svc, r, true) == ViewToken(after, svc, r, true)
    && View(before.data[svc], r, true) != View(after.data[svc], r, true)
  }

  /**
   A reload after which no defaults contribute any more, whatever their scope: the changed
   view goes unnoticed if and only if the commit leaves the service's own resource alone,
   that resource was last changed by the very HEAD that is replaced, and the defaults were
   not redundant. Had it been loaded any earlier, the token would move.
   */
  lemma DroppedDefaultsGoUnnoticed(ps: Parsers, loads: seq<Load>, last: Load, svc: Service, r: Resource)
    requires CollisionFree(ps) && RealLoads(loads) && loads != [] && last.hash != [] && RealLoads(loads + [last])
    requires svc in Loaded(ps, loads).data && svc in Loaded(ps, loads + [last]).data
    requires Contributes(Loaded(ps, loads).data[svc], r) && !Contributes(Loaded(ps, loads + [last]).data[svc], r)
    ensures var before, after := Loaded(ps, loads), Loaded(ps, loads + [last]);
            GoesUnnoticed(before, after, svc, r) <==>
            && Fingerprint(ps, before.version, svc, r) == Fingerprint(ps, last.hash, svc, r)
            && Token(before.data[svc], r) == before.version
            && !DefaultsRedundant(ps, loads[|loads| - 1].hash, svc, before.data[svc], r)
  {
    hide NextSnapshot, Contributes, DefaultsRedundant, View;
    var all := loads + [last];
    assert all[..|loads|] == loads;
    var before, after := Loaded(ps, loads), Loaded(ps, all);
    LastLoad(ps, loads, svc, r);
    TokenNotEmpty(ps, loads, svc, r);
    TokenNotEmpty(ps, all, svc, r);
    TokenAfterLoad(ps, all, svc, r);
    DifferentCommits(ps, loads, last, svc, r);
    assert ViewToken(before, svc, r, true) == ViewToken(after, svc, r, true) <==>
           Continues(ps, all, svc, r) && Token(before.data[svc], r) == before.version;
    if ViewToken(before, svc, r, true) == ViewToken(after, svc, r, true) {
      EqualTokensEqualViews(ps, loads, all, svc, r);
    }
  }

  /** Contributing sources are a matter of the commit alone. */
  lemma DifferentCommits(ps: Parsers, loads: seq<Load>, last: Load, svc: Service, r: Resource)
    requires RealLoads(loads) && loads != [] && last.hash != [] && RealLoads(loads + [last])
    requires svc in Loaded(ps, loads).data && svc in Loaded(ps, loads + [last]).data
    requires Contributes(Loaded(ps, loads).data[svc], r) && !Contributes(Loaded(ps, loads + [last]).data[svc], r)
    ensures Loaded(ps, loads).version != last.hash
  {
    hide Loaded, SourcesOf, DefaultsFor, Scanned;
    SourcesOfLoad(ps, loads, svc);
    SourcesOfLoad(ps, loads + [last], svc);
    LastLoad(ps, loads, svc, r);
  }

  // ---------------------------------------------------------------------------
  // Two commits that show it
  // ---------------------------------------------------------------------------

  /** A tree with one service config and nothing else. */
  function ConfigOnly(svc: Service, config: Bytes): Tree
  {
    map[ServicePath(svc, ConfigSlot) := config]
  }

  function WithDefaults(svc: Service, config: Bytes, defaults: Bytes): Tree
  {
    ConfigOnly(svc, config)[DefaultsPath(Global) := defaults]
  }

  function RawOf(ps: Parsers, config: Bytes): Raw
    requires ps.config(config).Some?
  {
    var doc := ps.config(config).value;
    Raw(Some(doc), None, None, Adopt(0, doc.updatedAt), ps.digest(config), "")
  }

  lemma WalkOfTwo(ps: Parsers, tree: Tree, p: Path, q: Path)
    requires tree.Keys == {p, q} && p != q && ConfigsOf(tree) == tree && SlotsAgree(ps, tree)
    ensures Scanned(ps, tree) == Visit(ps, Visit(ps, NothingScanned, p, tree[p]), q, tree[q])
  {
    hide Visit, SlotsAgree;
    var order := [p, q];
    SameScan(ps, tree, WalkOrder(tree), order);
    assert order[..1] == [p] && [p][..0] == [];
    assert ScanAll(ps, tree, []) == NothingScanned;
    assert ScanAll(ps, tree, [p]) == Visit(ps, NothingScanned, p, tree[p]);
  }

  lemma WalkOfOne(ps: Parsers, tree: Tree, p: Path)
    requires tree.Keys == {p} && ConfigsOf(tree) == tree && SlotsAgree(ps, tree)
    ensures Scanned(ps, tree) == Visit(ps, NothingScanned, p, tree[p])
  {
    hide Visit, SlotsAgree;
    var order := [p];
    SameScan(ps, tree, WalkOrder(tree), order);
    assert order[..0] == [];
  }

  lemma ScanConfigOnly(ps: Parsers, svc: Service, config: Bytes)
    requires ps.config(config).Some?
    ensures Scanned(ps, ConfigOnly(svc, config)) == Scan(map[svc := RawOf(ps, config)], map[], {})
  {
    var tree, path := ConfigOnly(svc, config), ServicePath(svc, ConfigSlot);
    ServicePathClassified(svc, ConfigSlot);
    MainPath(svc);
    hide ServicePath, ClassifyService, ClassifyDefaults;
    assert ConfigsOf(tree) == tree;
    CanonicalSlotsAgree(ps, tree);
    WalkOfOne(ps, tree, path);
  }

  lemma ScanWithDefaults(ps: Parsers, svc: Service, config: Bytes, defaults: Bytes)
    requires ps.config(config).Some? && ps.defaults(defaults).Some?
    ensures Scanned(ps, WithDefaults(svc, config, defaults)) ==
            Scan(map[svc := RawOf(ps, config)], map[Global := ps.defaults(defaults).value], {})
  {
    var tree := WithDefaults(svc, config, defaults);
    ServicePathClassified(svc, ConfigSlot);
    MainPath(svc);
    hide ServicePath, DefaultsPath, ClassifyService, ClassifyDefaults;
    assert ConfigsOf(tree) == tree;
    CanonicalSlotsAgree(ps, tree);
    WalkOfTwo(ps, tree, ServicePath(svc, ConfigSlot), DefaultsPath(Global));
  }

  lemma MainPath(svc: Service)
    ensures ["configs"] < ServicePath(svc, ConfigSlot) && |ServicePath(svc, ConfigSlot)| == 8
    ensures ["configs"] < DefaultsPath(Global) && |DefaultsPath(Global)| == 3
    ensures ClassifyDefaults(DefaultsPath(Global)) == Some(Global) && ClassifyService(DefaultsPath(Global)).None?
  {
  }

  /** The two commits, loaded one after the other. */
  function TwoLoads(svc: Service, config: Bytes, defaults: Bytes, message: string, now: Time, later: Time)
    : (loads: seq<Load>)
    ensures RealLoads(loads) && |loads| == 2
    ensures TreeOf(loads[0].hash) == WithDefaults(svc, config, defaults)
    ensures TreeOf(loads[1].hash) == ConfigOnly(svc, config)
    ensures loads[0].hash < loads[1].hash
  {
    var a := [Commit(WithDefaults(svc, config, defaults), message)];
    [Load(a, now), Load(a + [Commit(ConfigOnly(svc, config), message)], later)]
  }

  /** What a service is served with, as far as its inherited config goes. */
  ghost predicate Serves(s: Snapshot, svc: Service, entries: seq<(Scope, DefaultsDoc)>, own: Config)
  {
    && svc in s.data
    && s.data[svc].sources == SourcesOf(entries)
    && s.data[svc].inheritedConfig == InheritedConfig(Configs(entries), Some(own))
  }

  lemma NextServes(ps: Parsers, prev: Snapshot, hash: History, now: Time, svc: Service)
    requires hash != []
    ensures var scan := Scanned(ps, TreeOf(hash));
            svc in scan.data && scan.data[svc].config.Some? ==>
              Serves(NextSnapshot(ps, prev, hash, now), svc,
                     DefaultsFor(svc, scan.defaults), scan.data[svc].config.value.config)
  {
  }

  /** Both loads see the same raw config; only the first has a source of defaults. */
  lemma WhatTheLoadsServe(
    ps: Parsers, svc: Service, config: Bytes, defaults: Bytes, message: string, now: Time, later: Time)
    requires ps.config(config).Some? && ps.defaults(defaults).Some?
    ensures var loads := TwoLoads(svc, config, defaults, message, now, later);
            && Serves(Loaded(ps, loads[..1]), svc,
                      [(Global, ps.defaults(defaults).value)], ps.config(config).value.config)
            && Serves(Loaded(ps, loads), svc, [], ps.config(config).value.config)
            && StretchStart(Fingerprints(ps, loads, svc, ConfigResource), 0)
  {
    hide Serves, Scanned, NextSnapshot, WithDefaults, ConfigOnly;
    var loads := TwoLoads(svc, config, defaults, message, now, later);
    ScanWithDefaults(ps, svc, config, defaults);
    ScanConfigOnly(ps, svc, config);
    assert loads[..1][..0] == [] && loads[..2] == loads && loads[..1][0] == loads[0];
    NextServes(ps, EmptySnapshot, loads[0].hash, now, svc);
    NextServes(ps, Loaded(ps, loads[..1]), loads[1].hash, later, svc);
    var d := ps.defaults(defaults).value;
    assert DefaultsFor(svc, map[Global := d]) == [(Global, d)];
    assert DefaultsFor(svc, map[]) == [];
  }

  /** It happens: with any defaults that set a key the service, first loaded with them, does not. */
  lemma TwoCommitsGoUnnoticed(
    ps: Parsers, svc: Service, config: Bytes, defaults: Bytes, key: string, message: string, now: Time, later: Time)
    requires CollisionFree(ps) && ps.config(config).Some? && ps.defaults(defaults).Some?
    requires key in ps.defaults(defaults).value.config && !ps.defaults(defaults).value.config[key].Null?
    requires key !in ps.config(config).value.config
    ensures var loads := TwoLoads(svc, config, defaults, message, now, later);
            var a, b := Loaded(ps, loads[..1]), Loaded(ps, loads);
            svc in a.data && svc in b.data && GoesUnnoticed(a, b, svc, ConfigResource)
  {
    hide Loaded, ViewToken, Fingerprints;
    var loads := TwoLoads(svc, config, defaults, message, now, later);
    var d, own := ps.defaults(defaults).value, ps.config(config).value.config;
    WhatTheLoadsServe(ps, svc, config, defaults, message, now, later);
    DefaultsContribute(Loaded(ps, loads[..1]), svc, d, own, key);
    NothingContributes(Loaded(ps, loads), svc, own, key);
    DisagreeingTokensCollide(ps, loads[..1], loads, svc, ConfigResource, 0);
  }

  lemma DefaultsContribute(s: Snapshot, svc: Service, d: DefaultsDoc, own: Config, key: string)
    requires Serves(s, svc, [(Global, d)], own) && key in d.config && !d.config[key].Null? && key !in own
    ensures Contributes(s.data[svc], ConfigResource)
    ensures key in ViewConfig(s.data[svc], true)
  {
    hide InheritedConfig;
    assert SourcesOf([(Global, d)])[0].hasConfig;
    assert Configs([(Global, d)]) == [d.config];
    InheritedConfigIsMerge([d.config], Some(own));
    assert [d.config][..0] == [];
    assert Fold([d.config]) == Merge(map[], d.config);
  }

  lemma NothingContributes(s: Snapshot, svc: Service, own: Config, key: string)
    requires Serves(s, svc, [], own) && key !in own
    ensures !Contributes(s.data[svc], ConfigResource)
    ensures key !in ViewConfig(s.data[svc], true)
  {
    assert Configs([]) == [];
    var layers := Layers([], Some(own));
    assert layers == [own] && layers[..0] == [];
    assert Fold(layers) == Merge(map[], own);
  }

  // ---------------------------------------------------------------------------
  // A label completed too late
  // ---------------------------------------------------------------------------

  /** Two commits that differ in the defaults only. */
  function TwoDefaults(
    svc: Service, config: Bytes, defaults: Bytes, others: Bytes, message: string, now: Time, later: Time)
    : (loads: seq<Load>)
    ensures RealLoads(loads) && |loads| == 2
    ensures TreeOf(loads[0].hash) == WithDefaults(svc, config, defaults)
    ensures TreeOf(loads[1].hash) == WithDefaults(svc, config, others)
    ensures loads[0].hash < loads[1].hash
  {
    var a := [Commit(WithDefaults(svc, config, defaults), message)];
    [Load(a, now), Load(a + [Commit(WithDefaults(svc, config, others), message)], later)]
  }

  /**
   A reload between reading the data and reading HEAD strands the reader: the second commit
   takes a key out of the defaults, which the reader was given and goes on believing in.
   */
  lemma LateLabelStrandsReader(
    ps: Parsers, svc: Service, config: Bytes, defaults: Bytes, others: Bytes, key: string, message: string,
    now: Time, later: Time)
    requires CollisionFree(ps) && ps.config(config).Some? && ps.defaults(defaults).Some? && ps.defaults(others).Some?
    requires var d, d' := ps.defaults(defaults).value.config, ps.defaults(others).value.config;
             key in d && !d[key].Null? && key !in d' && d' != map[] && key !in ps.config(config).value.config
    ensures var loads := TwoDefaults(svc, config, defaults, others, message, now, later);
            var a, b := Loaded(ps, loads[..1]), Loaded(ps, loads);
            svc in a.data && svc in b.data && Stranded(a, b, svc, ConfigResource, true)
  {
    hide Serves, Scanned, NextSnapshot, WithDefaults, ConfigOnly;
    var loads := TwoDefaults(svc, config, defaults, others, message, now, later);
    var d, d', own := ps.defaults(defaults).value, ps.defaults(others).value, ps.config(config).value.config;
    ScanWithDefaults(ps, svc, config, defaults);
    ScanWithDefaults(ps, svc, config, others);
    assert loads[..1][..0] == [] && loads[..2] == loads && loads[..1][0] == loads[0];
    NextServes(ps, EmptySnapshot, loads[0].hash, loads[0].now, svc);
    NextServes(ps, Loaded(ps, loads[..1]), loads[1].hash, loads[1].now, svc);
    assert Loaded(ps, loads[..1]) == NextSnapshot(ps, EmptySnapshot, loads[0].hash, loads[0].now);
    LastLoad(ps, loads, svc, ConfigResource);
    assert DefaultsFor(svc, map[Global := d]) == [(Global, d)];
    assert DefaultsFor(svc, map[Global := d']) == [(Global, d')];
    StrandedByServing(Loaded(ps, loads[..1]), Loaded(ps, loads), svc, d, d', own, key);
  }

  lemma StrandedByServing(
    a: Snapshot, b: Snapshot, svc: Service, d: DefaultsDoc, d': DefaultsDoc, own: Config, key: string)
    requires Serves(a, svc, [(Global, d)], own) && Serves(b, svc, [(Global, d')], own) && d'.config != map[]
    requires key in d.config && !d.config[key].Null? && key !in d'.config && key !in own && b.version != []
    ensures Stranded(a, b, svc, ConfigResource, true)
  {
    DefaultsContribute(a, svc, d, own, key);
    hide InheritedConfig;
    assert SourcesOf([(Global, d')])[0].hasConfig;
    assert Configs([(Global, d')]) == [d'.config];
    InheritedConfigIsMerge([d'.config], Some(own));
    assert [d'.config][..0] == [];
    assert Fold([d'.config]) == Merge(map[], d'.config);
    assert key !in ViewConfig(b.data[svc], true);
  }
}
