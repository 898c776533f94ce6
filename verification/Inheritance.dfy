/**
 Which file an inherited value comes from: the service's own, then the defaults of
 its project, then those of its organisation, then the global ones.
 */
module Inheritance {
  import opened Common
  import opened ConfigMerge
  import opened Git
  import opened Snapshots
  import opened Serving
  import VersionTokens

  // ---------------------------------------------------------------------------
  // The four files
  // ---------------------------------------------------------------------------

  function DefaultsFile(ps: Parsers, tree: Tree, path: Path): Option<DefaultsDoc>
  {
    if path in tree then ps.defaults(tree[path]) else None
  }

  function GlobalFile(ps: Parsers, tree: Tree): Option<DefaultsDoc>
  {
    DefaultsFile(ps, tree, ["configs", "_defaults", "common.yaml"])
  }

  /** No directory has an empty name, so a service without an organisation has no such file. */
  function OrgFile(ps: Parsers, tree: Tree, svc: Service): Option<DefaultsDoc>
  {
    if svc.org == "" then None
    else DefaultsFile(ps, tree, ["configs", "orgs", svc.org, "_defaults", "common.yaml"])
  }

  function ProjectFile(ps: Parsers, tree: Tree, svc: Service): Option<DefaultsDoc>
  {
    if svc.org == "" || svc.project == "" then None
    else DefaultsFile(ps, tree, ["configs", "orgs", svc.org, "projects", svc.project, "_defaults", "common.yaml"])
  }

  /** In a commit that loads, the defaults of a scope are those in its file, and that file parses. */
  lemma ScopesByFiles(ps: Parsers, h: History, now: Time, svc: Service)
    requires Loadable(ps, Attempt(h, true, now))
    ensures var tree, defaults := TreeOf(h), Scanned(ps, TreeOf(h)).defaults;
            && (if Global in defaults then Some(defaults[Global]) else None) == GlobalFile(ps, tree)
            && (if OrgWide(svc.org) in defaults then Some(defaults[OrgWide(svc.org)]) else None) ==
               OrgFile(ps, tree, svc)
            && (if ProjectWide(svc.org, svc.project) in defaults
                then Some(defaults[ProjectWide(svc.org, svc.project)]) else None) == ProjectFile(ps, tree, svc)
    ensures ["configs", "_defaults", "common.yaml"] in TreeOf(h) ==> GlobalFile(ps, TreeOf(h)).Some?
    ensures svc.org != "" && ["configs", "orgs", svc.org, "_defaults", "common.yaml"] in TreeOf(h) ==>
              OrgFile(ps, TreeOf(h), svc).Some?
    ensures svc.org != "" && svc.project != "" &&
            ["configs", "orgs", svc.org, "projects", svc.project, "_defaults", "common.yaml"] in TreeOf(h) ==>
              ProjectFile(ps, TreeOf(h), svc).Some?
  {
    assert h != [];
    ScopePaths(svc);
    NamelessScopes(ps, h, svc);
    hide Loadable, Scanned, ClassifyDefaults, DefaultsFile;
    ScopeByFile(ps, h, now, Global, ["configs", "_defaults", "common.yaml"]);
    if svc.org != "" {
      ScopeByFile(ps, h, now, OrgWide(svc.org), ["configs", "orgs", svc.org, "_defaults", "common.yaml"]);
      if svc.project != "" {
        ScopeByFile(ps, h, now, ProjectWide(svc.org, svc.project),
                    ["configs", "orgs", svc.org, "projects", svc.project, "_defaults", "common.yaml"]);
      }
    }
  }

  lemma ScopePaths(svc: Service)
    ensures ClassifyDefaults(["configs", "_defaults", "common.yaml"]) == Some(Global)
    ensures svc.org != "" ==>
              ClassifyDefaults(["configs", "orgs", svc.org, "_defaults", "common.yaml"]) == Some(OrgWide(svc.org))
    ensures svc.org != "" && svc.project != "" ==>
              ClassifyDefaults(["configs", "orgs", svc.org, "projects", svc.project, "_defaults", "common.yaml"]) ==
              Some(ProjectWide(svc.org, svc.project))
  {
  }

  lemma ScopeByFile(ps: Parsers, h: History, now: Time, scope: Scope, path: Path)
    requires Loadable(ps, Attempt(h, true, now)) && ClassifyDefaults(path) == Some(scope)
    ensures var defaults := Scanned(ps, TreeOf(h)).defaults;
            (if scope in defaults then Some(defaults[scope]) else None) == DefaultsFile(ps, TreeOf(h), path)
    ensures path in TreeOf(h) ==> DefaultsFile(ps, TreeOf(h), path).Some?
  {
    hide ScanAll, WalkOrder;
    var tree := ConfigsOf(TreeOf(h));
    DefaultsPathBack(path);
    LoadsWhenAllParse(ps, h, now);
    ScanIsDeclared(ps, tree, WalkOrder(tree));
    assert ["configs"] < path;
    assert path in TreeOf(h) ==> Parses(ps, path, tree[path]);
  }

  lemma NamelessScopes(ps: Parsers, h: History, svc: Service)
    requires h != []
    ensures svc.org == "" ==> OrgWide(svc.org) !in Scanned(ps, TreeOf(h)).defaults
    ensures svc.org == "" || svc.project == "" ==> ProjectWide(svc.org, svc.project) !in Scanned(ps, TreeOf(h)).defaults
  {
    hide ScanAll, WalkOrder;
    var tree := ConfigsOf(TreeOf(h));
    ScanIsDeclared(ps, tree, WalkOrder(tree));
    forall p | ClassifyDefaults(p).Some? { DefaultsPathBack(p); }
  }

  // ---------------------------------------------------------------------------
  // Layers from files
  // ---------------------------------------------------------------------------

  function Layer(scope: Scope, file: Option<DefaultsDoc>): seq<(Scope, DefaultsDoc)>
  {
    if file.Some? then [(scope, file.value)] else []
  }

  lemma LayersByFiles(ps: Parsers, h: History, now: Time, svc: Service)
    requires Loadable(ps, Attempt(h, true, now))
    ensures DefaultsFor(svc, Scanned(ps, TreeOf(h)).defaults) ==
            Layer(Global, GlobalFile(ps, TreeOf(h))) + Layer(OrgWide(svc.org), OrgFile(ps, TreeOf(h), svc)) +
            Layer(ProjectWide(svc.org, svc.project), ProjectFile(ps, TreeOf(h), svc))
  {
    hide Scanned, Loadable;
    ScopesByFiles(ps, h, now, svc);
  }

  lemma LoadedFromScan(ps: Parsers, prev: Snapshot, h: History, now: Time, svc: Service)
    requires h != [] && svc in NextSnapshot(ps, prev, h, now).data
    ensures var scan, d := Scanned(ps, TreeOf(h)), NextSnapshot(ps, prev, h, now).data[svc];
            var entries := DefaultsFor(svc, scan.defaults);
            && svc in scan.data
            && OwnConfig(d.raw) == OwnConfig(scan.data[svc]) && OwnEnvVars(d.raw) == OwnEnvVars(scan.data[svc])
            && d.sources == SourcesOf(entries)
            && d.inheritedConfig == InheritedConfig(Configs(entries), OwnConfig(d.raw))
            && d.inheritedEnvVars == InheritedEnvVars(EnvVarsLayers(entries), OwnEnvVars(d.raw))
  {
    hide Scanned, NextVersion, DefaultsFor, SourcesOf, InheritedConfig, InheritedEnvVars;
  }

  // ---------------------------------------------------------------------------
  // Config, path by path
  // ---------------------------------------------------------------------------

  /** What one file says of a path, if it decides it. */
  function Says(config: Option<Config>, path: seq<string>): Option<Reading>
  {
    if config.Some? then Decide(Map(config.value), path) else None
  }

  function ConfigIn(file: Option<DefaultsDoc>): Option<Config>
  {
    if file.Some? then Some(file.value.config) else None
  }

  /** The narrowest of the four files that decides the path has the word. */
  function Inherited(
    own: Option<Config>, project: Option<DefaultsDoc>, org: Option<DefaultsDoc>, global: Option<DefaultsDoc>,
    path: seq<string>): Reading
  {
    if Says(own, path).Some? then Says(own, path).value
    else if Says(ConfigIn(project), path).Some? then Says(ConfigIn(project), path).value
    else if Says(ConfigIn(org), path).Some? then Says(ConfigIn(org), path).value
    else if Says(ConfigIn(global), path).Some? then Says(ConfigIn(global), path).value
    else Absent
  }

  /** Every path of every served service, by the files of the loaded commit. */
  lemma InheritedConfigByFiles(ps: Parsers, prev: Snapshot, h: History, now: Time, svc: Service, path: seq<string>)
    requires Loadable(ps, Attempt(h, true, now)) && svc in NextSnapshot(ps, prev, h, now).data && path != []
    ensures var d, tree := NextSnapshot(ps, prev, h, now).data[svc], TreeOf(h);
            (if d.inheritedConfig.Some? then Effective(d.inheritedConfig.value, path) else Absent) ==
            Inherited(OwnConfig(d.raw), ProjectFile(ps, tree, svc), OrgFile(ps, tree, svc), GlobalFile(ps, tree), path)
  {
    hide NextSnapshot, Scanned, DefaultsFor, InheritedConfig;
    var d, tree := NextSnapshot(ps, prev, h, now).data[svc], TreeOf(h);
    var entries := DefaultsFor(svc, Scanned(ps, tree).defaults);
    LoadedFromScan(ps, prev, h, now, svc);
    LayersByFiles(ps, h, now, svc);
    ViewReadsLastDecision(Configs(entries), OwnConfig(d.raw), path);
    LastOfFour(OwnConfig(d.raw), ProjectFile(ps, tree, svc), OrgFile(ps, tree, svc), GlobalFile(ps, tree), svc, path);
  }

  lemma LastOfFour(
    own: Option<Config>, project: Option<DefaultsDoc>, org: Option<DefaultsDoc>, global: Option<DefaultsDoc>,
    svc: Service, path: seq<string>)
    ensures var entries := Layer(Global, global) + Layer(OrgWide(svc.org), org) +
                           Layer(ProjectWide(svc.org, svc.project), project);
            LastDecision(Layers(Configs(entries), own), path) == Inherited(own, project, org, global, path)
  {
    var a, b := Layer(Global, global), Layer(OrgWide(svc.org), org);
    var c := Layer(ProjectWide(svc.org, svc.project), project);
    ConfigsAppend(a, b);
    ConfigsAppend(a + b, c);
    var g, o, p := Configs(a), Configs(b), Configs(c);
    OneLayer([], g, ConfigIn(global), path);
    OneLayer(g, o, ConfigIn(org), path);
    OneLayer(g + o, p, ConfigIn(project), path);
    OneLayer(g + o + p, if own.Some? then [own.value] else [], own, path);
    assert [] + g == g;
  }

  lemma ConfigsAppend(a: seq<(Scope, DefaultsDoc)>, b: seq<(Scope, DefaultsDoc)>)
    ensures Configs(a + b) == Configs(a) + Configs(b) && EnvVarsLayers(a + b) == EnvVarsLayers(a) + EnvVarsLayers(b)
  {
  }

  lemma OneLayer(below: seq<Config>, layer: seq<Config>, config: Option<Config>, path: seq<string>)
    requires layer == if config.Some? then [config.value] else []
    ensures LastDecision(below + layer, path) ==
            if Says(config, path).Some? then Says(config, path).value else LastDecision(below, path)
  {
    if config.Some? {
      assert (below + layer)[..|below|] == below;
    } else {
      assert below + layer == below;
    }
  }

  // ---------------------------------------------------------------------------
  // Variables, name by name
  // ---------------------------------------------------------------------------

  function PlainIn(file: Option<DefaultsDoc>): map<string, string>
  {
    if file.Some? then file.value.envVars.plain else map[]
  }

  function SecretRefsIn(file: Option<DefaultsDoc>): map<string, string>
  {
    if file.Some? then file.value.envVars.secretRefs else map[]
  }

  /** The value in the narrowest of four places that has the name. */
  function Narrowest(
    own: map<string, string>, project: map<string, string>, org: map<string, string>, global: map<string, string>,
    name: string): Option<string>
  {
    if name in own then Some(own[name])
    else if name in project then Some(project[name])
    else if name in org then Some(org[name])
    else if name in global then Some(global[name])
    else None
  }

  /** Every variable and secret reference of every served service, by the files of the loaded commit. */
  lemma InheritedEnvVarsByFiles(ps: Parsers, prev: Snapshot, h: History, now: Time, svc: Service, name: string)
    requires Loadable(ps, Attempt(h, true, now)) && svc in NextSnapshot(ps, prev, h, now).data
    ensures var d, tree := NextSnapshot(ps, prev, h, now).data[svc], TreeOf(h);
            var p, o, g := ProjectFile(ps, tree, svc), OrgFile(ps, tree, svc), GlobalFile(ps, tree);
            var own := if d.raw.envVars.Some? then d.raw.envVars.value.envVars else EnvVars(map[], map[]);
            var shown := if d.inheritedEnvVars.Some? then d.inheritedEnvVars.value else EnvVars(map[], map[]);
            && Lookup(shown.plain, name) == Narrowest(own.plain, PlainIn(p), PlainIn(o), PlainIn(g), name)
            && Lookup(shown.secretRefs, name) ==
               Narrowest(own.secretRefs, SecretRefsIn(p), SecretRefsIn(o), SecretRefsIn(g), name)
  {
    hide NextSnapshot, Scanned, DefaultsFor, InheritedEnvVars;
    var d, tree := NextSnapshot(ps, prev, h, now).data[svc], TreeOf(h);
    var entries := DefaultsFor(svc, Scanned(ps, tree).defaults);
    LoadedFromScan(ps, prev, h, now, svc);
    LayersByFiles(ps, h, now, svc);
    EnvVarsViewReads(EnvVarsLayers(entries), OwnEnvVars(d.raw));
    LastOfFourSettings(
      OwnEnvVars(d.raw), ProjectFile(ps, tree, svc), OrgFile(ps, tree, svc), GlobalFile(ps, tree), svc, name);
  }

  lemma LastOfFourSettings(
    own: Option<EnvVars>, project: Option<DefaultsDoc>, org: Option<DefaultsDoc>, global: Option<DefaultsDoc>,
    svc: Service, name: string)
    ensures var entries := Layer(Global, global) + Layer(OrgWide(svc.org), org) +
                           Layer(ProjectWide(svc.org, svc.project), project);
            var layers := EnvVarsLayers(entries) + if own.Some? then [own.value] else [];
            var mine := if own.Some? then own.value else EnvVars(map[], map[]);
            && LastPlain(layers, name) ==
               Narrowest(mine.plain, PlainIn(project), PlainIn(org), PlainIn(global), name)
            && LastSecretRef(layers, name) ==
               Narrowest(mine.secretRefs, SecretRefsIn(project), SecretRefsIn(org), SecretRefsIn(global), name)
  {
    var a, b := Layer(Global, global), Layer(OrgWide(svc.org), org);
    var c := Layer(ProjectWide(svc.org, svc.project), project);
    ConfigsAppend(a, b);
    ConfigsAppend(a + b, c);
    var g, o, p := EnvVarsLayers(a), EnvVarsLayers(b), EnvVarsLayers(c);
    OneSetting([], g, EnvVarsIn(global), name);
    OneSetting(g, o, EnvVarsIn(org), name);
    OneSetting(g + o, p, EnvVarsIn(project), name);
    OneSetting(g + o + p, if own.Some? then [own.value] else [], own, name);
    assert [] + g == g;
  }

  function EnvVarsIn(file: Option<DefaultsDoc>): Option<EnvVars>
  {
    if file.Some? then Some(file.value.envVars) else None
  }

  lemma OneSetting(below: seq<EnvVars>, layer: seq<EnvVars>, env: Option<EnvVars>, name: string)
    requires layer == if env.Some? then [env.value] else []
    ensures LastPlain(below + layer, name) ==
            if env.Some? && name in env.value.plain then Some(env.value.plain[name]) else LastPlain(below, name)
    ensures LastSecretRef(below + layer, name) ==
            if env.Some? && name in env.value.secretRefs then Some(env.value.secretRefs[name])
            else LastSecretRef(below, name)
  {
    if env.Some? {
      assert (below + layer)[..|below|] == below;
    } else {
      assert below + layer == below;
    }
  }

  // ---------------------------------------------------------------------------
  // Sources, and whether there is a view at all
  // ---------------------------------------------------------------------------

  function SourceOf(scope: Scope, file: Option<DefaultsDoc>): seq<Source>
  {
    if file.None? then []
    else [Source(scope, |file.value.config| > 0, |file.value.envVars.plain| + |file.value.envVars.secretRefs| > 0)]
  }

  predicate HasConfigBlock(file: Option<DefaultsDoc>)
  {
    file.Some? && |file.value.config| > 0
  }

  predicate HasEnvVarsBlock(file: Option<DefaultsDoc>)
  {
    file.Some? && |file.value.envVars.plain| + |file.value.envVars.secretRefs| > 0
  }

  /** The sources named for a service: the files that exist, from the widest, and what they contribute. */
  lemma SourcesByFiles(ps: Parsers, prev: Snapshot, h: History, now: Time, svc: Service)
    requires Loadable(ps, Attempt(h, true, now)) && svc in NextSnapshot(ps, prev, h, now).data
    ensures var d, tree := NextSnapshot(ps, prev, h, now).data[svc], TreeOf(h);
            var p, o, g := ProjectFile(ps, tree, svc), OrgFile(ps, tree, svc), GlobalFile(ps, tree);
            && d.sources ==
               SourceOf(Global, g) + SourceOf(OrgWide(svc.org), o) + SourceOf(ProjectWide(svc.org, svc.project), p)
            && (d.inheritedConfig.Some? <==>
                  d.raw.config.Some? || HasConfigBlock(g) || HasConfigBlock(o) || HasConfigBlock(p))
            && (d.inheritedEnvVars.Some? <==>
                  d.raw.envVars.Some? || HasEnvVarsBlock(g) || HasEnvVarsBlock(o) || HasEnvVarsBlock(p))
  {
    hide NextSnapshot, Scanned, DefaultsFor, SourcesOf;
    var d, tree := NextSnapshot(ps, prev, h, now).data[svc], TreeOf(h);
    var p, o, g := ProjectFile(ps, tree, svc), OrgFile(ps, tree, svc), GlobalFile(ps, tree);
    LoadedFromScan(ps, prev, h, now, svc);
    LayersByFiles(ps, h, now, svc);
    SourcesOfLayers(g, o, p, svc);
    ViewsOfLayers(DefaultsFor(svc, Scanned(ps, tree).defaults), OwnConfig(d.raw), OwnEnvVars(d.raw));
  }

  lemma ViewsOfLayers(entries: seq<(Scope, DefaultsDoc)>, config: Option<Config>, env: Option<EnvVars>)
    ensures InheritedConfig(Configs(entries), config).Some? <==>
            config.Some? || exists i :: 0 <= i < |entries| && entries[i].1.config != map[]
    ensures InheritedEnvVars(EnvVarsLayers(entries), env).Some? <==>
            env.Some? || exists i :: 0 <= i < |entries| && HasEnvVars(entries[i].1.envVars)
  {
    EnvVarsViewExists(entries, env);
    assert forall i :: 0 <= i < |entries| ==> Configs(entries)[i] == entries[i].1.config;
  }

  lemma SourcesOfLayers(g: Option<DefaultsDoc>, o: Option<DefaultsDoc>, p: Option<DefaultsDoc>, svc: Service)
    ensures var entries := Layer(Global, g) + Layer(OrgWide(svc.org), o) + Layer(ProjectWide(svc.org, svc.project), p);
            && SourcesOf(entries) ==
               SourceOf(Global, g) + SourceOf(OrgWide(svc.org), o) + SourceOf(ProjectWide(svc.org, svc.project), p)
            && ((exists i :: 0 <= i < |entries| && entries[i].1.config != map[]) <==>
                  HasConfigBlock(g) || HasConfigBlock(o) || HasConfigBlock(p))
            && ((exists i :: 0 <= i < |entries| && HasEnvVars(entries[i].1.envVars)) <==>
                  HasEnvVarsBlock(g) || HasEnvVarsBlock(o) || HasEnvVarsBlock(p))
  {
    var a, b, c := Layer(Global, g), Layer(OrgWide(svc.org), o), Layer(ProjectWide(svc.org, svc.project), p);
    var entries := a + b + c;
    assert g.Some? ==> entries[0] == a[0];
    assert o.Some? ==> entries[|a|] == b[0];
    assert p.Some? ==> entries[|a| + |b|] == c[0];
    assert forall e :: e in entries <==> e in a || e in b || e in c;
  }

  /** Defaults contribute to a resource exactly when one of the three files has a block for it. */
  lemma ContributionsByFiles(ps: Parsers, prev: Snapshot, h: History, now: Time, svc: Service)
    requires Loadable(ps, Attempt(h, true, now)) && svc in NextSnapshot(ps, prev, h, now).data
    ensures var d, tree := NextSnapshot(ps, prev, h, now).data[svc], TreeOf(h);
            var p, o, g := ProjectFile(ps, tree, svc), OrgFile(ps, tree, svc), GlobalFile(ps, tree);
            && (VersionTokens.Contributes(d, VersionTokens.ConfigResource) <==>
                  HasConfigBlock(p) || HasConfigBlock(o) || HasConfigBlock(g))
            && (VersionTokens.Contributes(d, VersionTokens.EnvVarsResource) <==>
                  HasEnvVarsBlock(p) || HasEnvVarsBlock(o) || HasEnvVarsBlock(g))
  {
    SourcesByFiles(ps, prev, h, now, svc);
    var d, tree := NextSnapshot(ps, prev, h, now).data[svc], TreeOf(h);
    hide NextSnapshot, Loadable, SourceOf;
    ContributingSources(GlobalFile(ps, tree), OrgFile(ps, tree, svc), ProjectFile(ps, tree, svc), svc, d.sources);
  }

  lemma ContributingSources(
    g: Option<DefaultsDoc>, o: Option<DefaultsDoc>, p: Option<DefaultsDoc>, svc: Service, sources: seq<Source>)
    requires sources ==
             SourceOf(Global, g) + SourceOf(OrgWide(svc.org), o) + SourceOf(ProjectWide(svc.org, svc.project), p)
    ensures (exists i :: 0 <= i < |sources| && sources[i].hasConfig) <==>
            HasConfigBlock(p) || HasConfigBlock(o) || HasConfigBlock(g)
    ensures (exists i :: 0 <= i < |sources| && sources[i].hasEnvVars) <==>
            HasEnvVarsBlock(p) || HasEnvVarsBlock(o) || HasEnvVarsBlock(g)
  {
    var a, b := SourceOf(Global, g), SourceOf(OrgWide(svc.org), o);
    var c := SourceOf(ProjectWide(svc.org, svc.project), p);
    assert forall i :: 0 <= i < |sources| ==> sources[i] in a || sources[i] in b || sources[i] in c;
    assert g.Some? ==> sources[0] == a[0];
    assert o.Some? ==> sources[|a|] == b[0];
    assert p.Some? ==> sources[|a| + |b|] == c[0];
  }
}
