/**
 The served snapshot and how a reload replaces it: all files of one commit parsed
 and inherited, or nothing changed at all.
 */
module Serving {
  import opened Common
  import opened ConfigMerge
  import opened Git
  import opened GitRepo
  import opened Snapshots

  datatype Source = Source(scope: Scope, hasConfig: bool, hasEnvVars: bool)

  /** All that is held for one service. A version token is the hash of some loaded commit. */
  datatype ServiceData = ServiceData(
    raw: Raw,
    sources: seq<Source>,
    inheritedConfig: Option<Config>,
    inheritedEnvVars: Option<EnvVars>,
    configVersion: History,
    envVarsVersion: History)

  /** The read-only view; an empty version marks the view before the first load. */
  datatype Snapshot = Snapshot(data: map<Service, ServiceData>, version: History)

  const EmptySnapshot := Snapshot(map[], [])

  // ---------------------------------------------------------------------------
  // Inheritance
  // ---------------------------------------------------------------------------

  function DefaultsAt(scope: Scope, defaults: map<Scope, DefaultsDoc>): seq<(Scope, DefaultsDoc)>
  {
    if scope in defaults then [(scope, defaults[scope])] else []
  }

  /** The defaults that apply to a service, from the widest scope to the narrowest. */
  function DefaultsFor(svc: Service, defaults: map<Scope, DefaultsDoc>): seq<(Scope, DefaultsDoc)>
  {
    DefaultsAt(Global, defaults) + DefaultsAt(OrgWide(svc.org), defaults) +
    DefaultsAt(ProjectWide(svc.org, svc.project), defaults)
  }

  predicate HasEnvVars(env: EnvVars)
  {
    |env.plain| > 0 || |env.secretRefs| > 0
  }

  function SourcesOf(entries: seq<(Scope, DefaultsDoc)>): seq<Source>
  {
    seq(|entries|, i requires 0 <= i < |entries| =>
      Source(entries[i].0, entries[i].1.config != map[], HasEnvVars(entries[i].1.envVars)))
  }

  function Configs(entries: seq<(Scope, DefaultsDoc)>): seq<Config>
  {
    seq(|entries|, i requires 0 <= i < |entries| => entries[i].1.config)
  }

  function EnvVarsLayers(entries: seq<(Scope, DefaultsDoc)>): seq<EnvVars>
  {
    seq(|entries|, i requires 0 <= i < |entries| => entries[i].1.envVars)
  }

  function MergeEnvVars(base: EnvVars, override: EnvVars): EnvVars
  {
    EnvVars(base.plain + override.plain, base.secretRefs + override.secretRefs)
  }

  function FoldEnvVars(layers: seq<EnvVars>): EnvVars
  {
    if layers == [] then EnvVars(map[], map[])
    else MergeEnvVars(FoldEnvVars(layers[..|layers| - 1]), layers[|layers| - 1])
  }

  function InheritedEnvVars(defaults: seq<EnvVars>, own: Option<EnvVars>): Option<EnvVars>
  {
    if own.None? && (forall i :: 0 <= i < |defaults| ==> !HasEnvVars(defaults[i])) then None
    else Some(FoldEnvVars(defaults + if own.Some? then [own.value] else []))
  }

  /** The program skips empty defaults instead of merging them. */
  method InheritedEnvVarsFor(defaults: seq<EnvVars>, own: Option<EnvVars>) returns (view: Option<EnvVars>)
    ensures view == InheritedEnvVars(defaults, own)
  {
    hide MergeEnvVars;
    var has := own.Some?;
    var merged := EnvVars(map[], map[]);
    for i := 0 to |defaults|
      invariant merged == FoldEnvVars(defaults[..i])
      invariant has <==> own.Some? || exists j :: 0 <= j < i && HasEnvVars(defaults[j])
    {
      assert defaults[..i + 1][..i] == defaults[..i];
      if !HasEnvVars(defaults[i]) {
        MergeNoEnvVars(merged, defaults[i]);
        continue;
      }
      has := true;
      merged := MergeEnvVars(merged, defaults[i]);
    }
    assert defaults[..|defaults|] == defaults;
    if own.Some? {
      assert (defaults + [own.value])[..|defaults|] == defaults;
      merged := MergeEnvVars(merged, own.value);
    } else {
      assert defaults + [] == defaults;
    }
    view := if has then Some(merged) else None;
  }

  /** What a reader sees is the service's own variables laid over its defaults. */
  lemma InheritedEnvVarsIsMerge(defaults: seq<EnvVars>, own: Option<EnvVars>)
    ensures var view, raw := InheritedEnvVars(defaults, own), if own.Some? then own.value else EnvVars(map[], map[]);
            (if view.Some? then view.value else raw) == MergeEnvVars(FoldEnvVars(defaults), raw)
  {
    if own.Some? {
      assert (defaults + [own.value])[..|defaults|] == defaults;
    } else {
      assert defaults + [] == defaults;
      MergeNoEnvVars(FoldEnvVars(defaults), EnvVars(map[], map[]));
      if InheritedEnvVars(defaults, own).None? {
        EmptyEnvVarsFold(defaults);
      }
    }
  }

  lemma MergeNoEnvVars(base: EnvVars, none: EnvVars)
    requires !HasEnvVars(none)
    ensures MergeEnvVars(base, none) == base
  {
    assert none.plain == map[] && none.secretRefs == map[];
  }

  // ---------------------------------------------------------------------------
  // Version tokens
  // ---------------------------------------------------------------------------

  /** What the previous snapshot knew of a resource. */
  datatype Previous = Previous(present: bool, digest: string, version: History)

  function NextVersion(present: bool, digest: string, version: History, prev: Option<Previous>): History
  {
    if prev.None? then version
    else if present then
      if prev.value.present && digest != "" && digest == prev.value.digest && prev.value.version != []
      then prev.value.version
      else version
    else if !prev.value.present && prev.value.version != [] then prev.value.version
    else version
  }

  function PreviousConfig(prev: Snapshot, svc: Service): Option<Previous>
  {
    if svc !in prev.data then None
    else var d := prev.data[svc]; Some(Previous(d.raw.config.Some?, d.raw.configDigest, d.configVersion))
  }

  function PreviousEnvVars(prev: Snapshot, svc: Service): Option<Previous>
  {
    if svc !in prev.data then None
    else var d := prev.data[svc]; Some(Previous(d.raw.envVars.Some?, d.raw.envVarsDigest, d.envVarsVersion))
  }

  // ---------------------------------------------------------------------------
  // Reload
  // ---------------------------------------------------------------------------

  /** One reload: the commit at HEAD, whether the checkout matched it, and the clock. */
  datatype Attempt = Attempt(hash: History, clean: bool, now: Time)

  function OwnConfig(raw: Raw): Option<Config>
  {
    if raw.config.Some? then Some(raw.config.value.config) else None
  }

  function OwnEnvVars(raw: Raw): Option<EnvVars>
  {
    if raw.envVars.Some? then Some(raw.envVars.value.envVars) else None
  }

  function Completed(svc: Service, scan: Scan, prev: Snapshot, hash: History, now: Time): ServiceData
    requires svc in scan.data
  {
    var raw := scan.data[svc];
    var entries := DefaultsFor(svc, scan.defaults);
    ServiceData(
      raw.(updatedAt := if raw.updatedAt == 0 then now else raw.updatedAt),
      SourcesOf(entries),
      InheritedConfig(Configs(entries), OwnConfig(raw)),
      InheritedEnvVars(EnvVarsLayers(entries), OwnEnvVars(raw)),
      NextVersion(raw.config.Some?, raw.configDigest, hash, PreviousConfig(prev, svc)),
      NextVersion(raw.envVars.Some?, raw.envVarsDigest, hash, PreviousEnvVars(prev, svc)))
  }

  function NextSnapshot(ps: Parsers, prev: Snapshot, hash: History, now: Time): Snapshot
    requires hash != []
  {
    FromScan(Scanned(ps, TreeOf(hash)), prev, hash, now)
  }

  function FromScan(scan: Scan, prev: Snapshot, hash: History, now: Time): (s: Snapshot)
    ensures s.version == hash && s.data.Keys == scan.data.Keys
  {
    Snapshot(map svc | svc in scan.data :: Completed(svc, scan, prev, hash, now), hash)
  }

  predicate Loadable(ps: Parsers, a: Attempt)
  {
    a.hash != [] && a.clean && Scanned(ps, TreeOf(a.hash)).failed == {}
  }

  /** A failed attempt leaves the snapshot alone and marks the store degraded. */
  datatype Serving = Serving(snapshot: Snapshot, degraded: bool)

  function AfterAttempt(ps: Parsers, s: Serving, a: Attempt): Serving
  {
    if Loadable(ps, a) then Serving(NextSnapshot(ps, s.snapshot, a.hash, a.now), false) else Serving(s.snapshot, true)
  }

  /** A wake-up channel: closed once, never reopened. */
  class Channel {
    var closed: bool

    constructor ()
      ensures !closed
    {
      closed := false;
    }
  }

  class Store {
    const repo: Repo
    const ps: Parsers
    var snapshot: Snapshot
    var lastReload: Option<bool> // how the most recent reload attempt ended
    var versionChanged: Channel

    function Model(): Serving
      reads this
    {
      Serving(snapshot, lastReload == Some(false))
    }

    constructor (repo: Repo, ps: Parsers)
      ensures this.repo == repo && this.ps == ps && Model() == Serving(EmptySnapshot, false)
      ensures fresh(versionChanged) && !versionChanged.closed
    {
      this.repo, this.ps := repo, ps;
      snapshot, lastReload := EmptySnapshot, None;
      versionChanged := new Channel();
    }

    method Reload(now: Time) returns (ok: bool)
      requires repo.local != []
      modifies this`snapshot, this`lastReload, this`versionChanged, versionChanged
      ensures var clean := ConfigsOf(repo.worktree) == ConfigsOf(TreeOf(repo.local));
              && Model() == AfterAttempt(ps, old(Model()), Attempt(repo.local, clean, now))
              && ok == Loadable(ps, Attempt(repo.local, clean, now))
      ensures lastReload == Some(ok)
      ensures if ok && repo.local != old(snapshot).version
              then old(versionChanged).closed && fresh(versionChanged) && !versionChanged.closed
              else versionChanged == old(versionChanged) && versionChanged.closed == old(versionChanged.closed)
    {
      var view := repo.Snapshot();
      if view.Err? {
        lastReload := Some(false);
        return false;
      }
      var (hash, files) := view.value;
      var scan := ScanFiles(files);
      if scan.failed != {} {
        lastReload := Some(false);
        return false;
      }
      var data := CompleteAll(scan, hash, now);
      var prevVersion := snapshot.version;
      snapshot := Snapshot(data, hash);
      lastReload := Some(true);
      if hash != prevVersion {
        NotifyVersionChange();
      }
      return true;
    }

    method NotifyVersionChange()
      modifies this`versionChanged, versionChanged
      ensures old(versionChanged).closed && fresh(versionChanged) && !versionChanged.closed
    {
      versionChanged.closed := true;
      versionChanged := new Channel();
    }

    method ScanFiles(files: Tree) returns (scan: Scan)
      ensures scan == ScanAll(ps, files, WalkOrder(files))
    {
      var order := WalkOrder(files);
      scan := NothingScanned;
      for i := 0 to |order|
        invariant scan == ScanAll(ps, files, order[..i])
      {
        assert order[..i + 1][..i] == order[..i];
        scan := Visit(ps, scan, order[i], files[order[i]]);
      }
      assert order[..|order|] == order;
    }

    method CompleteAll(scan: Scan, hash: History, now: Time) returns (data: map<Service, ServiceData>)
      ensures data == map svc | svc in scan.data :: Completed(svc, scan, snapshot, hash, now)
    {
      data := map[];
      var todo := scan.data.Keys;
      while todo != {}
        invariant todo <= scan.data.Keys
        invariant data == map svc | svc in scan.data.Keys - todo :: Completed(svc, scan, snapshot, hash, now)
      {
        var svc :| svc in todo;
        todo := todo - {svc};
        var raw := scan.data[svc];
        var entries := DefaultsFor(svc, scan.defaults);
        var config := InheritedConfigFor(Configs(entries), OwnConfig(raw));
        var env := InheritedEnvVarsFor(EnvVarsLayers(entries), OwnEnvVars(raw));
        var d := ServiceData(
          raw.(updatedAt := if raw.updatedAt == 0 then now else raw.updatedAt),
          SourcesOf(entries), config, env,
          NextVersion(raw.config.Some?, raw.configDigest, hash, PreviousConfig(snapshot, svc)),
          NextVersion(raw.envVars.Some?, raw.envVarsDigest, hash, PreviousEnvVars(snapshot, svc)));
        data := data[svc := d];
      }
    }

    /** The background poll: reloads only when the pull moved HEAD. */
    method RefreshFromRepo(now: Time) returns (r: Result<bool, ()>)
      requires repo.Valid() && repo.remote as object != this && repo as object != this
      modifies this`snapshot, this`lastReload, this`versionChanged, versionChanged, repo, repo.remote
      ensures repo.Valid()
      ensures r == Ok(true) ==> snapshot.version == repo.local && lastReload == Some(true)
      ensures r != Ok(true) ==> snapshot == old(snapshot)
      ensures r == Ok(false) ==> repo.local == old(repo.local) && lastReload == old(lastReload)
      ensures exists reached :: repo.remote.log == old(repo.remote.log) + [Pulled(reached)] &&
                if !reached then r.Err? && Model() == old(Model())
                else if repo.local == old(repo.local) then r == Ok(false) && Model() == old(Model())
                else Model() == AfterAttempt(ps, old(Model()), Attempt(repo.local, true, now)) &&
                     r == if Loadable(ps, Attempt(repo.local, true, now)) then Ok(true) else Err(())
    {
      var pulled := repo.Pull();
      if pulled.Err? {
        return Err(());
      }
      if !pulled.value {
        return Ok(false);
      }
      var ok := Reload(now);
      return if ok then Ok(true) else Err(());
    }

    /** The forced reload: re-parses HEAD even when it did not move, so a degraded store can recover. */
    method ReloadFromRepo(now: Time) returns (r: Result<bool, ()>)
      requires repo.Valid() && repo.remote as object != this && repo as object != this
      modifies this`snapshot, this`lastReload, this`versionChanged, versionChanged, repo, repo.remote
      ensures repo.Valid()
      ensures r.Ok? ==> snapshot.version == repo.local && lastReload == Some(true)
      ensures r == Ok(false) ==>
                repo.local == old(repo.local) == old(snapshot).version && old(lastReload) != Some(false)
      ensures r.Err? ==> snapshot == old(snapshot)
      ensures exists reached :: repo.remote.log == old(repo.remote.log) + [Pulled(reached)] &&
                if !reached then r.Err? && Model() == old(Model())
                else Model() == AfterAttempt(ps, old(Model()), Attempt(repo.local, true, now)) &&
                     r == if Loadable(ps, Attempt(repo.local, true, now))
                          then Ok(repo.local != old(repo.local) || repo.local != old(snapshot).version
                                  || old(Model()).degraded)
                          else Err(())
    {
      var pulled := repo.Pull();
      if pulled.Err? {
        return Err(());
      }
      var prevVersion := snapshot.version;
      var wasDegraded := lastReload == Some(false);
      var ok := Reload(now);
      if !ok {
        return Err(());
      }
      return Ok(pulled.value || snapshot.version != prevVersion || wasDegraded);
    }
  }

  /** What the store's operations rely on and keep, with its lock held. */
  ghost predicate Ready(store: Store)
    reads store, store.repo, store.repo.remote
  {
    && store.repo.Valid() && store.snapshot.version <= store.repo.local
    && store.repo as object != store && store.repo.remote as object != store
  }

  /** After a write: the new commit is served, and only that, unless its reload failed. */
  ghost predicate ServesCommit(store: Store, version: History, reloadFailed: bool, before: Snapshot, later: Time)
    reads store
  {
    && store.Model().degraded == reloadFailed
    && version != [] && (reloadFailed <==> !Loadable(store.ps, Attempt(version, true, later)))
    && store.snapshot == if reloadFailed then before else NextSnapshot(store.ps, before, version, later)
  }

  // ---------------------------------------------------------------------------
  // Every reachable state
  // ---------------------------------------------------------------------------

  function Run(ps: Parsers, attempts: seq<Attempt>): Serving
  {
    if attempts == [] then Serving(EmptySnapshot, false)
    else AfterAttempt(ps, Run(ps, attempts[..|attempts| - 1]), attempts[|attempts| - 1])
  }

  /** What the walk over a commit declares. */
  function DeclaredAt(ps: Parsers, h: History): Scan
    requires h != []
  {
    var tree := ConfigsOf(TreeOf(h));
    Declared(ps, tree, WalkOrder(tree))
  }

  function Lookup(m: map<string, string>, k: string): Option<string>
  {
    if k in m then Some(m[k]) else None
  }

  /** The value of the last layer that sets a plain variable. */
  function LastPlain(layers: seq<EnvVars>, k: string): Option<string>
  {
    if layers == [] then None
    else if k in layers[|layers| - 1].plain then Some(layers[|layers| - 1].plain[k])
    else LastPlain(layers[..|layers| - 1], k)
  }

  /** The value of the last layer that sets a secret reference. */
  function LastSecretRef(layers: seq<EnvVars>, k: string): Option<string>
  {
    if layers == [] then None
    else if k in layers[|layers| - 1].secretRefs then Some(layers[|layers| - 1].secretRefs[k])
    else LastSecretRef(layers[..|layers| - 1], k)
  }

  /**
   The view is the whole of one commit: each service has exactly what its files say,
   where its defaults come from, and at every path and for every variable the
   inherited value of the last layer that decides it.
   */
  ghost predicate WholeCommit(ps: Parsers, s: Snapshot)
  {
    && s.version != []
    && var scan := DeclaredAt(ps, s.version);
       && scan.failed == {} && s.data.Keys == scan.data.Keys
       && forall svc :: svc in s.data ==> WholeService(scan, svc, s.data[svc])
  }

  ghost predicate WholeService(scan: Scan, svc: Service, d: ServiceData)
    requires svc in scan.data
  {
    var raw, entries := scan.data[svc], DefaultsFor(svc, scan.defaults);
    && d.raw == raw.(updatedAt := d.raw.updatedAt) && (raw.updatedAt != 0 ==> d.raw.updatedAt == raw.updatedAt)
    && d.sources == SourcesOf(entries)
    && d.inheritedConfig == InheritedConfig(Configs(entries), OwnConfig(raw))
    && InheritsByPath(d.inheritedConfig, Layers(Configs(entries), OwnConfig(raw)))
    && (d.inheritedEnvVars.Some? <==>
          raw.envVars.Some? || exists i :: 0 <= i < |entries| && HasEnvVars(entries[i].1.envVars))
    && InheritsByName(d.inheritedEnvVars,
                      EnvVarsLayers(entries) + if raw.envVars.Some? then [raw.envVars.value.envVars] else [])
  }

  ghost predicate InheritsByPath(view: Option<Config>, layers: seq<Config>)
  {
    forall path :: path != [] ==>
      LastDecision(layers, path) == if view.Some? then Effective(view.value, path) else Absent
  }

  ghost predicate InheritsByName(view: Option<EnvVars>, layers: seq<EnvVars>)
  {
    var shown := if view.Some? then view.value else EnvVars(map[], map[]);
    && (forall k :: Lookup(shown.plain, k) == LastPlain(layers, k))
    && (forall k :: Lookup(shown.secretRefs, k) == LastSecretRef(layers, k))
  }

  lemma LoadIsWholeCommit(ps: Parsers, prev: Snapshot, a: Attempt)
    requires Loadable(ps, a)
    ensures WholeCommit(ps, NextSnapshot(ps, prev, a.hash, a.now))
  {
    var tree, scan := ConfigsOf(TreeOf(a.hash)), Scanned(ps, TreeOf(a.hash));
    ScanIsDeclared(ps, tree, WalkOrder(tree));
    var s := NextSnapshot(ps, prev, a.hash, a.now);
    forall svc | svc in s.data ensures WholeService(scan, svc, s.data[svc]) {
      CompletedIsWhole(svc, scan, prev, a.hash, a.now);
    }
  }

  lemma CompletedIsWhole(svc: Service, scan: Scan, prev: Snapshot, hash: History, now: Time)
    requires svc in scan.data
    ensures WholeService(scan, svc, Completed(svc, scan, prev, hash, now))
  {
    hide NextVersion, InheritedConfig;
    var raw, entries := scan.data[svc], DefaultsFor(svc, scan.defaults);
    forall path: seq<string> | path != []
      ensures var view := InheritedConfig(Configs(entries), OwnConfig(raw));
              LastDecision(Layers(Configs(entries), OwnConfig(raw)), path) ==
              if view.Some? then Effective(view.value, path) else Absent
    {
      ViewReadsLastDecision(Configs(entries), OwnConfig(raw), path);
    }
    EnvVarsViewReads(EnvVarsLayers(entries), OwnEnvVars(raw));
    EnvVarsViewExists(entries, OwnEnvVars(raw));
  }

  lemma EnvVarsViewExists(entries: seq<(Scope, DefaultsDoc)>, own: Option<EnvVars>)
    ensures InheritedEnvVars(EnvVarsLayers(entries), own).Some? <==>
            own.Some? || exists i :: 0 <= i < |entries| && HasEnvVars(entries[i].1.envVars)
  {
    assert forall i :: 0 <= i < |entries| ==> EnvVarsLayers(entries)[i] == entries[i].1.envVars;
  }

  lemma EnvVarsViewReads(defaults: seq<EnvVars>, own: Option<EnvVars>)
    ensures InheritsByName(InheritedEnvVars(defaults, own), defaults + if own.Some? then [own.value] else [])
  {
    var layers := defaults + if own.Some? then [own.value] else [];
    FoldReadsLastSetting(layers);
    if InheritedEnvVars(defaults, own).None? {
      assert layers == defaults;
      EmptyEnvVarsFold(layers);
    }
  }

  lemma {:induction false} EmptyEnvVarsFold(layers: seq<EnvVars>)
    requires forall i :: 0 <= i < |layers| ==> !HasEnvVars(layers[i])
    ensures FoldEnvVars(layers) == EnvVars(map[], map[])
  {
    if layers != [] {
      EmptyEnvVarsFold(layers[..|layers| - 1]);
      MergeNoEnvVars(FoldEnvVars(layers[..|layers| - 1]), layers[|layers| - 1]);
    }
  }

  /** For every name, the fold of the layers has the value of the last layer that sets it. */
  lemma {:induction false} FoldReadsLastSetting(layers: seq<EnvVars>)
    ensures InheritsByName(Some(FoldEnvVars(layers)), layers)
  {
    if layers != [] {
      var init, last := layers[..|layers| - 1], layers[|layers| - 1];
      FoldReadsLastSetting(init);
      var base, shown := FoldEnvVars(init), FoldEnvVars(layers);
      forall k
        ensures Lookup(shown.plain, k) == LastPlain(layers, k)
        ensures Lookup(shown.secretRefs, k) == LastSecretRef(layers, k)
      {
        assert Lookup(base.plain, k) == LastPlain(init, k);
        assert Lookup(base.secretRefs, k) == LastSecretRef(init, k);
      }
    }
  }

  /** The inherited view reads, at every path, as the last layer that decides it. */
  lemma ViewReadsLastDecision(defaults: seq<Config>, own: Option<Config>, path: seq<string>)
    requires path != []
    ensures var view := InheritedConfig(defaults, own);
            LastDecision(Layers(defaults, own), path) == if view.Some? then Effective(view.value, path) else Absent
  {
    FoldReadsLastDecision(Layers(defaults, own), path);
    if InheritedConfig(defaults, own).None? {
      EmptyLayersRead(Layers(defaults, own), path);
    }
  }

  lemma {:induction false} EmptyLayersRead(layers: seq<Config>, path: seq<string>)
    requires path != [] && forall i :: 0 <= i < |layers| ==> layers[i] == map[]
    ensures LastDecision(layers, path) == Absent
  {
    if layers != [] {
      EmptyLayersRead(layers[..|layers| - 1], path);
    }
  }

  /** Fail-closed: whatever reloads succeeded or failed, the view is empty or one whole commit. */
  lemma {:induction false} ServedIsWholeCommit(ps: Parsers, attempts: seq<Attempt>)
    ensures var s := Run(ps, attempts);
            && (s.snapshot == EmptySnapshot || WholeCommit(ps, s.snapshot))
            && (s.degraded <==> attempts != [] && !Loadable(ps, attempts[|attempts| - 1]))
  {
    if attempts != [] {
      var init, last := attempts[..|attempts| - 1], attempts[|attempts| - 1];
      ServedIsWholeCommit(ps, init);
      if Loadable(ps, last) {
        LoadIsWholeCommit(ps, Run(ps, init).snapshot, last);
      }
    }
  }

  /** A loaded commit serves exactly the services that have a file in one of their slots. */
  lemma ServedServices(ps: Parsers, prev: Snapshot, h: History, now: Time, svc: Service)
    requires h != []
    ensures svc in NextSnapshot(ps, prev, h, now).data <==>
            exists p :: p in ConfigsOf(TreeOf(h)) && ClassifyService(p).Some? && ClassifyService(p).value.0 == svc
  {
    hide ScanAll, Completed, DeclaredRaw;
    var tree := ConfigsOf(TreeOf(h));
    ScanIsDeclared(ps, tree, WalkOrder(tree));
  }

  /** A clean checkout loads exactly when every file below configs/ parses. */
  lemma LoadsWhenAllParse(ps: Parsers, h: History, now: Time)
    requires h != []
    ensures Loadable(ps, Attempt(h, true, now)) <==>
            forall p :: p in ConfigsOf(TreeOf(h)) ==> Parses(ps, p, ConfigsOf(TreeOf(h))[p])
  {
    hide ScanAll, Parses;
    var tree := ConfigsOf(TreeOf(h));
    ScanIsDeclared(ps, tree, WalkOrder(tree));
    assert Scanned(ps, TreeOf(h)).failed == FailuresIn(ps, tree, WalkOrder(tree));
    if p :| p in tree && !Parses(ps, p, tree[p]) {
      assert p in FailuresIn(ps, tree, WalkOrder(tree));
    }
  }

  /** The same by file name: defaults, configs, variables and secret lists, each by its own parser. */
  lemma LoadsWhenFilesParse(ps: Parsers, h: History, now: Time)
    requires h != []
    ensures Loadable(ps, Attempt(h, true, now)) <==>
            forall p :: p in TreeOf(h) && ["configs"] < p ==>
              && (ClassifyDefaults(p).Some? ==> ps.defaults(TreeOf(h)[p]).Some?)
              && (match ClassifyService(p)
                  case None => true
                  case Some((_, ConfigSlot)) => ps.config(TreeOf(h)[p]).Some?
                  case Some((_, EnvVarsSlot)) => ps.envVars(TreeOf(h)[p]).Some?
                  case Some((_, SecretsSlot)) => ps.secrets(TreeOf(h)[p]).Some?)
  {
    LoadsWhenAllParse(ps, h, now);
    hide Loadable;
    var tree := ConfigsOf(TreeOf(h));
    assert forall p :: p in tree <==> p in TreeOf(h) && ["configs"] < p;
    forall p | p in tree
      ensures Parses(ps, p, tree[p]) <==>
              && (ClassifyDefaults(p).Some? ==> ps.defaults(tree[p]).Some?)
              && (match ClassifyService(p)
                  case None => true
                  case Some((_, ConfigSlot)) => ps.config(tree[p]).Some?
                  case Some((_, EnvVarsSlot)) => ps.envVars(tree[p]).Some?
                  case Some((_, SecretsSlot)) => ps.secrets(tree[p]).Some?)
    {
      assert ClassifyDefaults(p).Some? ==> |p| < 8;
      assert ClassifyService(p).Some? ==> |p| >= 8;
    }
  }

  /** A service is dated by its own files, or by the load if they carry no date. */
  lemma DatedByFilesOrLoad(ps: Parsers, prev: Snapshot, h: History, now: Time, svc: Service)
    requires h != [] && svc in NextSnapshot(ps, prev, h, now).data
    ensures var scan := DeclaredAt(ps, h);
            && svc in scan.data
            && NextSnapshot(ps, prev, h, now).data[svc].raw.updatedAt ==
               if scan.data[svc].updatedAt == 0 then now else scan.data[svc].updatedAt
  {
    hide WalkOrder, ScanAll, DeclaredRaw, InheritedEnvVars, NextVersion, SourcesOf, DefaultsFor;
    ScanIsDeclared(ps, ConfigsOf(TreeOf(h)), WalkOrder(ConfigsOf(TreeOf(h))));
  }
}
