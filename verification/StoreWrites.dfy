/** The store's writes with the reload that ends them: what is served once a change or a deletion returns. */
module StoreWrites {
  import opened Common
  import opened Git
  import opened GitRepo
  import opened Snapshots
  import opened Serving
  import opened SecretEntries
  import opened SecretWrites

  /** Git has no path that is a file and a directory at once. */
  ghost predicate PrefixFree(tree: Tree)
  {
    forall p, q :: p in tree && q in tree ==> !(p < q)
  }

  datatype Outcome = Outcome(version: History, deleted: set<Path>, reloadFailed: bool)

  datatype StoreError = Invalid | Git(write: WriteError)

  // ---------------------------------------------------------------------------
  // Deleting a service
  // ---------------------------------------------------------------------------

  /** Deletes a service. Once the result is loaded the service is served no more. */
  method DeleteChanges(store: Store, validName: string -> bool, svc: Service, message: string, now: Time)
    returns (r: Result<Outcome, StoreError>, ghost base: History)
    requires Ready(store)
    requires forall t :: store.repo.remote.policy(t, Minus(t, ServicePaths(svc)))
    modifies store`snapshot, store`lastReload, store`versionChanged, store.versionChanged
    modifies store.repo, store.repo.remote
    ensures Ready(store) && old(store.repo.local) <= store.repo.local
    ensures Follows(store.repo.remote.policy, old(store.repo.remote.branch), store.repo.remote.branch)
    ensures r.Ok? ==>
              && old(store.repo.remote.branch) <= base
              && Lands(r.value.version, base, Minus(TreeOf(base), ServicePaths(svc)), message)
              && r.value.deleted == TreeOf(base).Keys - TreeOf(r.value.version).Keys
              && r.value.version == store.repo.local
              && ServesCommit(store, r.value.version, r.value.reloadFailed, old(store.snapshot), now)
              && (!r.value.reloadFailed ==> svc !in store.snapshot.data)
    ensures r.Err? ==> store.snapshot == old(store.snapshot)
    ensures r == Err(Invalid) <==> !ValidNames(validName, svc)
    ensures LandedOnce(store.repo.remote.landed - old(store.repo.remote.landed),
                       r.Ok? && r.value.version != base, r == Err(Git(PushFailed)))
    ensures if r == Err(Invalid) then store.repo.remote.log == old(store.repo.remote.log)
            else Answers(store.repo.remote.log, old(store.repo.remote.log),
                         if r.Ok? then Ok(r.value.version != base) else Err(r.error.write))
  {
    hide Answers;
    base := [];
    if !ValidNames(validName, svc) {
      return Err(Invalid), base;
    }
    var deleted;
    deleted, base := store.repo.DeleteAndPush(message, ServicePaths(svc));
    if deleted.Err? {
      return Err(Git(deleted.error)), base;
    }
    var (hash, paths) := deleted.value;
    var loaded := store.Reload(now);
    DeletedNotServed(store.ps, old(store.snapshot), hash, now, svc, TreeOf(base));
    return Ok(Outcome(hash, paths, !loaded)), base;
  }

  predicate ValidNames(validName: string -> bool, svc: Service)
  {
    && svc.org != "" && svc.project != "" && svc.service != ""
    && validName(svc.org) && validName(svc.project) && validName(svc.service)
  }

  /** No file is left that would make the service show up, at its path or below a directory of that name. */
  lemma DeletedNotServed(ps: Parsers, prev: Snapshot, h: History, now: Time, svc: Service, tree: Tree)
    requires h != [] && TreeOf(h) == Minus(tree, ServicePaths(svc))
    ensures svc !in NextSnapshot(ps, prev, h, now).data
  {
    hide NextSnapshot;
    ServedServices(ps, prev, h, now, svc);
    forall p | ClassifyService(p).Some? && ClassifyService(p).value.0 == svc ensures Under(p, ServicePaths(svc)) {
      var paths, slot := ServicePaths(svc), ClassifyService(p).value.1;
      assert ServicePath(svc, slot) <= p;
      assert paths[0] in paths && paths[1] in paths && paths[2] in paths;
      assert ServicePath(svc, slot) in paths;
    }
  }

  // ---------------------------------------------------------------------------
  // Changing a service
  // ---------------------------------------------------------------------------

  /** What the request asks for: new file texts, secret keys to write, and a message or none. */
  datatype Change = Change(config: Option<Bytes>, envVars: Option<Bytes>, writes: Writes, message: string)

  /** Which names are acceptable, and what is there to seal and apply secrets with. */
  datatype Setup = Setup(
    validName: string -> bool, validSecret: string -> bool, validNamespace: string -> bool,
    sealer: bool, applier: bool)

  datatype Changed = Changed(version: History, applyFailed: bool, reloadFailed: bool)

  datatype ChangeError = InvalidChange | NotConfigured | SealFailed | Write(write: WriteError)

  /** Acceptable secret writes: names that a cluster takes, and at least one key each. */
  predicate AcceptedWrites(setup: Setup, writes: Writes)
  {
    forall name :: name in writes ==> AcceptedWrite(setup, name, writes[name])
  }

  predicate AcceptedWrite(setup: Setup, name: string, write: SecretWrite)
  {
    && name != "" && setup.validSecret(name) && write.namespace != "" && setup.validNamespace(write.namespace)
    && write.keys != {} && forall key :: key in write.keys ==> key != "" && setup.validName(key)
  }

  predicate AcceptedChange(setup: Setup, svc: Service, change: Change)
  {
    && ValidNames(setup.validName, svc) && AcceptedWrites(setup, change.writes)
    && (change.config.Some? || change.envVars.Some? || change.writes != map[])
  }

  function FileAt(path: Path, text: Option<Bytes>): Tree
  {
    if text.Some? then map[path := text.value] else map[]
  }

  /** The files that do not depend on what is in the repository. */
  function BaseFiles(svc: Service, change: Change): Tree
  {
    FileAt(ServicePath(svc, ConfigSlot), change.config) + FileAt(ServicePath(svc, EnvVarsSlot), change.envVars)
  }

  function MessageFor(svc: Service, change: Change): string
  {
    if change.message != "" then change.message
    else "update config for " + svc.org + "/" + svc.project + "/" + svc.service
  }

  function SecretRequest(svc: Service, change: Change, manifests: Tree): SecretWrites.Request
  {
    SecretWrites.Request(change.writes, BaseFiles(svc, change) + manifests, MessageFor(svc, change))
  }

  /** The files of a change, built from the tree they are laid over. */
  function ChangeFiles(codec: Codec, svc: Service, change: Change, manifests: Tree, tree: Tree): Result<Tree, string>
  {
    if change.writes == map[] then Ok(BaseFiles(svc, change))
    else BuildFiles(codec, svc, SecretRequest(svc, change, manifests), tree)
  }

  /**
   Writes a change and serves the result. `sealed` is what the sealer made of the secrets,
   nothing if it failed; it never touches the metadata file. `applies` is whether the cluster
   takes the manifests.
   */
  method ApplyChanges(
    store: Store, setup: Setup, codec: Codec, svc: Service, change: Change, sealed: Option<Tree>, applies: bool,
    now: Time)
    returns (r: Result<Changed, ChangeError>, ghost base: History)
    requires Ready(store) && Faithful(codec) && (sealed.Some? ==> SecretsPath(svc) !in sealed.value)
    requires forall t, t' :: store.repo.remote.policy(t, t') <==> OnlyAdds(codec, svc, t, t')
    modifies store`snapshot, store`lastReload, store`versionChanged, store.versionChanged
    modifies store.repo, store.repo.remote
    ensures Ready(store) && old(store.repo.local) <= store.repo.local
    ensures OnlyAdds(codec, svc, TreeOf(old(store.repo.remote.branch)), TreeOf(store.repo.remote.branch))
    ensures r == Err(InvalidChange) <==> !AcceptedChange(setup, svc, change)
    ensures r == Err(NotConfigured) <==>
              AcceptedChange(setup, svc, change) && change.writes != map[] && !(setup.sealer && setup.applier)
    ensures r == Err(SealFailed) <==>
              && AcceptedChange(setup, svc, change) && change.writes != map[] && setup.sealer && setup.applier
              && sealed.None?
    ensures r.Ok? ==>
              && (change.writes != map[] ==> sealed.Some?)
              && var manifests := if sealed.Some? then sealed.value else map[];
                 && Built(store, codec, svc, change, manifests, r.value.version, base, old(store.repo.remote.branch))
                 && (r.value.applyFailed <==> change.writes != map[] && manifests != map[] && !applies)
    ensures r.Ok? ==>
              && ServesCommit(store, r.value.version, r.value.reloadFailed, old(store.snapshot), now)
              && (!r.value.reloadFailed ==> ServesFiles(store.ps, store.snapshot, svc, r.value.version))
    ensures r.Err? ==> store.snapshot == old(store.snapshot)
    ensures LandedOnce(store.repo.remote.landed - old(store.repo.remote.landed),
                       r.Ok? && r.value.version != base, r == Err(Write(PushFailed)))
    ensures if r.Err? && !r.error.Write? then store.repo.remote.log == old(store.repo.remote.log)
            else Answers(store.repo.remote.log, old(store.repo.remote.log),
                         if r.Ok? then Ok(r.value.version != base) else Err(r.error.write))
    ensures r.Err? && r.error.Write? && r.error.write.BuildFailed? ==>
              && base != [] && sealed.Some?
              && ChangeFiles(codec, svc, change, sealed.value, TreeOf(base)) == Err(r.error.write.why)
  {
    hide Answers, Lands, ChangeFiles, ServesFiles;
    base := [];
    if !AcceptedChange(setup, svc, change) {
      return Err(InvalidChange), base;
    }
    if change.writes != map[] && !(setup.sealer && setup.applier) {
      return Err(NotConfigured), base;
    }
    if change.writes != map[] && sealed.None? {
      return Err(SealFailed), base;
    }
    var manifests := if sealed.Some? then sealed.value else map[];
    var written;
    written, base := WriteChange(store.repo, setup, codec, svc, change, manifests);
    if written.Err? {
      return Err(Write(written.error)), base;
    }
    var hash := written.value;
    var loaded := store.Reload(now);
    if loaded {
      LoadServesFiles(store.ps, old(store.snapshot), hash, now, svc);
    }
    return Ok(Changed(hash, change.writes != map[] && manifests != map[] && !applies, !loaded)), base;
  }

  /** The commit carries exactly the change, laid over the newest pulled tree. */
  ghost predicate Built(
    store: Store, codec: Codec, svc: Service, change: Change, manifests: Tree,
    version: History, base: History, pushed: History)
    reads store, store.repo
  {
    && pushed <= base && base != [] && version == store.repo.local
    && var files := ChangeFiles(codec, svc, change, manifests, TreeOf(base));
       && files.Ok?
       && Lands(version, base, TreeOf(base) + files.value, MessageFor(svc, change))
  }

  /** The two ways to commit: secrets are merged into what was pulled, other files are fixed. */
  method WriteChange(repo: Repo, setup: Setup, codec: Codec, svc: Service, change: Change, manifests: Tree)
    returns (r: Result<History, WriteError>, ghost base: History)
    requires repo.Valid() && Faithful(codec) && SecretsPath(svc) !in manifests && AcceptedChange(setup, svc, change)
    requires forall t, t' :: repo.remote.policy(t, t') <==> OnlyAdds(codec, svc, t, t')
    modifies repo, repo.remote
    ensures repo.Valid() && old(repo.local) <= repo.local
    ensures OnlyAdds(codec, svc, TreeOf(old(repo.remote.branch)), TreeOf(repo.remote.branch))
    ensures LandedOnce(repo.remote.landed - old(repo.remote.landed), r.Ok? && r.value != base, r == Err(PushFailed))
    ensures Answers(repo.remote.log, old(repo.remote.log), if r.Ok? then Ok(r.value != base) else Err(r.error))
    ensures r.Err? && r.error.BuildFailed? ==>
              && base != [] && change.writes != map[]
              && ChangeFiles(codec, svc, change, manifests, TreeOf(base)) == Err(r.error.why)
    ensures r.Ok? ==>
              && old(repo.remote.branch) <= base && base != [] && r.value == repo.local
              && ChangeFiles(codec, svc, change, manifests, TreeOf(base)).Ok?
              && Lands(r.value, base, TreeOf(base) + ChangeFiles(codec, svc, change, manifests, TreeOf(base)).value,
                       MessageFor(svc, change))
  {
    hide Answers;
    NoSecretsInBaseFiles(svc, change);
    if change.writes != map[] {
      r, base := WriteSecrets(repo, codec, svc, SecretRequest(svc, change, manifests));
      return;
    }
    var files := BaseFiles(svc, change);
    forall t ensures OnlyAdds(codec, svc, t, t + files) {
      assert SecretsPath(svc) in t + files <==> SecretsPath(svc) in t;
    }
    r, base := repo.CommitAndPushFunc(MessageFor(svc, change), (t: Tree) => Ok(files));
    FollowingOnlyAdds(codec, svc, repo.remote.policy, old(repo.remote.branch), repo.remote.branch);
  }

  lemma NoSecretsInBaseFiles(svc: Service, change: Change)
    ensures SecretsPath(svc) !in BaseFiles(svc, change)
  {
    assert SecretsPath(svc) == ServicePath(svc, SecretsSlot);
    ServicePathClassified(svc, ConfigSlot);
    ServicePathClassified(svc, EnvVarsSlot);
    ServicePathClassified(svc, SecretsSlot);
  }

  // ---------------------------------------------------------------------------
  // What is served of the written files
  // ---------------------------------------------------------------------------

  /** Each of the three files of the service that a real tree has is served as it parses. */
  ghost predicate ServesFiles(ps: Parsers, s: Snapshot, svc: Service, h: History)
    requires h != []
  {
    PrefixFree(TreeOf(h)) ==> forall slot :: ServicePath(svc, slot) in TreeOf(h) ==>
      svc in s.data && ServesFile(ps, s.data[svc].raw, slot, TreeOf(h)[ServicePath(svc, slot)])
  }

  predicate ServesFile(ps: Parsers, raw: Raw, slot: Slot, text: Bytes)
  {
    match slot
    case ConfigSlot => raw.config.Some? && raw.config == ps.config(text)
    case EnvVarsSlot => raw.envVars.Some? && raw.envVars == ps.envVars(text)
    case SecretsSlot => raw.secrets.Some? && raw.secrets == ps.secrets(text)
  }

  lemma LoadServesFiles(ps: Parsers, prev: Snapshot, h: History, now: Time, svc: Service)
    requires Loadable(ps, Attempt(h, true, now))
    ensures ServesFiles(ps, NextSnapshot(ps, prev, h, now), svc, h)
  {
    hide NextSnapshot, ServesFile;
    if PrefixFree(TreeOf(h)) {
      forall slot | ServicePath(svc, slot) in TreeOf(h)
        ensures var s := NextSnapshot(ps, prev, h, now);
                svc in s.data && ServesFile(ps, s.data[svc].raw, slot, TreeOf(h)[ServicePath(svc, slot)])
      {
        LoadServesFile(ps, prev, h, now, svc, slot);
      }
    }
  }

  lemma LoadServesFile(ps: Parsers, prev: Snapshot, h: History, now: Time, svc: Service, slot: Slot)
    requires Loadable(ps, Attempt(h, true, now)) && PrefixFree(TreeOf(h)) && ServicePath(svc, slot) in TreeOf(h)
    ensures var s := NextSnapshot(ps, prev, h, now);
            svc in s.data && ServesFile(ps, s.data[svc].raw, slot, TreeOf(h)[ServicePath(svc, slot)])
  {
    var tree, path := ConfigsOf(TreeOf(h)), ServicePath(svc, slot);
    LoadsWhenAllParse(ps, h, now);
    ServicePathClassified(svc, slot);
    assert ["configs"] < path && path in tree;
    OnlyFileOfSlot(ps, tree, WalkOrder(tree), svc, slot);
    DeclaredRawLoaded(ps, prev, h, now, svc);
    hide Loadable, WalkOrder, NextSnapshot, ServicePath;
  }

  /** A loaded service has the raw parts that the walk declares. */
  lemma DeclaredRawLoaded(ps: Parsers, prev: Snapshot, h: History, now: Time, svc: Service)
    requires h != []
    ensures var s, scan := NextSnapshot(ps, prev, h, now), DeclaredAt(ps, h);
            && (svc in s.data <==> svc in scan.data)
            && (svc in s.data ==> s.data[svc].raw == scan.data[svc].(updatedAt := s.data[svc].raw.updatedAt))
  {
    hide WalkOrder, ScanAll, DeclaredRaw, InheritedEnvVars, NextVersion, SourcesOf, DefaultsFor;
    var tree := ConfigsOf(TreeOf(h));
    ScanIsDeclared(ps, tree, WalkOrder(tree));
  }

  lemma OnlyFileOfSlot(ps: Parsers, tree: Tree, order: seq<Path>, svc: Service, slot: Slot)
    requires PrefixFree(tree) && Walks(tree, order) && ServicePath(svc, slot) in tree
    requires Parses(ps, ServicePath(svc, slot), tree[ServicePath(svc, slot)])
    ensures LastIn(ps, tree, order, svc, slot) == Some(ServicePath(svc, slot))
  {
    var path := ServicePath(svc, slot);
    ServicePathClassified(svc, slot);
    assert Fills(ps, tree, path, svc, slot) && path in order;
    LastInIsLast(ps, tree, order, svc, slot);
    var last := LastIn(ps, tree, order, svc, slot).value;
    BelowSlotPath(last, svc, slot);
    assert !(path < last) && |path| == |last|;
    assert path == last;
  }

  lemma BelowSlotPath(p: Path, svc: Service, slot: Slot)
    requires ClassifyService(p) == Some((svc, slot))
    ensures ServicePath(svc, slot) <= p
  {
  }

  /** A change with secrets, once served: the served list is the one in the commit, and names every written pointer. */
  lemma WrittenSecretsServed(
    ps: Parsers, s: Snapshot, codec: Codec, svc: Service, change: Change, manifests: Tree,
    version: History, base: History)
    requires change.writes != map[] && base != [] && version != [] && Faithful(codec)
    requires ValidWrites(change.writes) && SecretsPath(svc) !in manifests
    requires forall b :: ps.secrets(b) == codec.parse(b)
    requires ChangeFiles(codec, svc, change, manifests, TreeOf(base)).Ok?
    requires TreeOf(version) == TreeOf(base) + ChangeFiles(codec, svc, change, manifests, TreeOf(base)).value
    requires PrefixFree(TreeOf(version)) && ServesFiles(ps, s, svc, version)
    ensures svc in s.data && s.data[svc].raw.secrets.Some?
    ensures ReadSecrets(codec, svc, TreeOf(version)) == Ok(s.data[svc].raw.secrets.value)
    ensures Pointers(s.data[svc].raw.secrets.value) ==
            Pointers(ReadSecrets(codec, svc, TreeOf(base)).value) + Written(change.writes)
  {
    NoSecretsInBaseFiles(svc, change);
    var req := SecretRequest(svc, change, manifests);
    BuildOnlyAdds(codec, svc, req, TreeOf(base));
    assert SecretsPath(svc) == ServicePath(svc, SecretsSlot);
    assert SecretsPath(svc) in TreeOf(version);
  }

  // ---------------------------------------------------------------------------
  // Changes and services, path by path
  // ---------------------------------------------------------------------------

  function TextAt(tree: Tree, p: Path): Option<Bytes>
  {
    if p in tree then Some(tree[p]) else None
  }

  function RootOf(svc: Service): Path
  {
    ["configs", "orgs", svc.org, "projects", svc.project, "services", svc.service]
  }

  /** A change puts each text where it belongs, and leaves every other path alone. */
  lemma ChangeByPaths(codec: Codec, svc: Service, change: Change, manifests: Tree, tree: Tree, p: Path)
    requires SecretsPath(svc) !in manifests && ChangeFiles(codec, svc, change, manifests, tree).Ok?
    ensures var next := tree + ChangeFiles(codec, svc, change, manifests, tree).value;
            TextAt(next, p) ==
            if change.writes != map[] && p == RootOf(svc) + ["secrets.yaml"]
            then Some(codec.render(Merged(ReadSecrets(codec, svc, tree).value, change.writes)))
            else if change.writes != map[] && p in manifests then Some(manifests[p])
            else if p == RootOf(svc) + ["config.yaml"] && change.config.Some? then change.config
            else if p == RootOf(svc) + ["env_vars.yaml"] && change.envVars.Some? then change.envVars
            else TextAt(tree, p)
  {
    NoSecretsInBaseFiles(svc, change);
    assert (RootOf(svc) + ["config.yaml"])[7] != (RootOf(svc) + ["env_vars.yaml"])[7];
    assert BaseFiles(svc, change) + map[] == BaseFiles(svc, change);
    hide Merged;
  }

  /** Only a change with secrets can fail to build: a manifest elsewhere, or an unreadable list. */
  lemma WhenChangeBuilds(codec: Codec, svc: Service, change: Change, manifests: Tree, tree: Tree)
    ensures ChangeFiles(codec, svc, change, manifests, tree).Err? <==>
            && change.writes != map[]
            && ((exists p :: p in manifests && !(RootOf(svc) < p)) ||
                (RootOf(svc) + ["secrets.yaml"] in tree && codec.parse(tree[RootOf(svc) + ["secrets.yaml"]]).None?))
  {
    hide Merged;
    assert ServiceRoot(svc) == RootOf(svc) && SecretsPath(svc) == RootOf(svc) + ["secrets.yaml"];
    forall p | p in BaseFiles(svc, change) ensures ServiceRoot(svc) < p {
    }
    var all := BaseFiles(svc, change) + manifests;
    assert (exists p :: p in all && !(ServiceRoot(svc) < p)) <==> exists p :: p in manifests && !(RootOf(svc) < p);
  }

  /** A loaded service has the parts that its three files say, each from its own path. */
  lemma ServiceByPaths(ps: Parsers, prev: Snapshot, h: History, now: Time, svc: Service)
    requires Loadable(ps, Attempt(h, true, now)) && PrefixFree(TreeOf(h))
    ensures var s, tree, root := NextSnapshot(ps, prev, h, now), TreeOf(h), RootOf(svc);
            var config, env, secrets := TextAt(tree, root + ["config.yaml"]), TextAt(tree, root + ["env_vars.yaml"]),
                                        TextAt(tree, root + ["secrets.yaml"]);
            && (svc in s.data <==> config.Some? || env.Some? || secrets.Some? || HasFileBelow(tree, svc))
            && (config.Some? ==> s.data[svc].raw.config.Some? && s.data[svc].raw.config == ps.config(config.value))
            && (env.Some? ==> s.data[svc].raw.envVars.Some? && s.data[svc].raw.envVars == ps.envVars(env.value))
            && (secrets.Some? ==>
                  s.data[svc].raw.secrets.Some? && s.data[svc].raw.secrets == ps.secrets(secrets.value))
            && (svc in s.data && config.None? && !HasFileBelow(tree, svc) ==> s.data[svc].raw.config.None?)
            && (svc in s.data && env.None? && !HasFileBelow(tree, svc) ==> s.data[svc].raw.envVars.None?)
            && (svc in s.data && secrets.None? && !HasFileBelow(tree, svc) ==> s.data[svc].raw.secrets.None?)
  {
    assert RootOf(svc) + ["config.yaml"] == ServicePath(svc, ConfigSlot);
    assert RootOf(svc) + ["env_vars.yaml"] == ServicePath(svc, EnvVarsSlot);
    assert RootOf(svc) + ["secrets.yaml"] == ServicePath(svc, SecretsSlot);
    LoadServesFiles(ps, prev, h, now, svc);
    ServedServices(ps, prev, h, now, svc);
    if svc in NextSnapshot(ps, prev, h, now).data && !HasFileBelow(TreeOf(h), svc) {
      forall slot | ServicePath(svc, slot) !in TreeOf(h) { AbsentPart(ps, prev, h, now, svc, slot); }
    }
    ShowsUp(h, svc);
    hide NextSnapshot, Loadable, PrefixFree, RootOf, ServicePath, HasFileBelow, ClassifyService;
  }

  /** A file below a directory that is named like a service file. */
  ghost predicate HasFileBelow(tree: Tree, svc: Service)
  {
    exists p, name :: name in {"config.yaml", "env_vars.yaml", "secrets.yaml"} && p in tree && RootOf(svc) + [name] < p
  }

  lemma ShowsUp(h: History, svc: Service)
    requires h != []
    ensures (exists p :: p in ConfigsOf(TreeOf(h)) && ClassifyService(p).Some? && ClassifyService(p).value.0 == svc)
            <==>
            || ServicePath(svc, ConfigSlot) in TreeOf(h) || ServicePath(svc, EnvVarsSlot) in TreeOf(h)
            || ServicePath(svc, SecretsSlot) in TreeOf(h) || HasFileBelow(TreeOf(h), svc)
  {
    var tree := TreeOf(h);
    if p :| p in ConfigsOf(tree) && ClassifyService(p).Some? && ClassifyService(p).value.0 == svc {
      var slot := ClassifyService(p).value.1;
      BelowSlotPath(p, svc, slot);
      if ServicePath(svc, slot) == p {
        assert ServicePath(svc, slot) in tree;
      } else {
        assert RootOf(svc) + [SlotName(slot)] < p;
        assert HasFileBelow(tree, svc);
      }
    }
    forall slot | ServicePath(svc, slot) in tree
      ensures exists p :: p in ConfigsOf(tree) && ClassifyService(p).Some? && ClassifyService(p).value.0 == svc
    {
      ServicePathClassified(svc, slot);
      assert ["configs"] < ServicePath(svc, slot);
      assert ServicePath(svc, slot) in ConfigsOf(tree);
    }
    if p, name :| name in {"config.yaml", "env_vars.yaml", "secrets.yaml"} && p in tree && RootOf(svc) + [name] < p {
      assert p[7] == name && ["configs"] < p;
      assert p in ConfigsOf(tree);
    }
  }

  predicate PartAbsent(raw: Raw, slot: Slot)
  {
    match slot
    case ConfigSlot => raw.config.None?
    case EnvVarsSlot => raw.envVars.None?
    case SecretsSlot => raw.secrets.None?
  }

  lemma AbsentPart(ps: Parsers, prev: Snapshot, h: History, now: Time, svc: Service, slot: Slot)
    requires h != [] && svc in NextSnapshot(ps, prev, h, now).data
    requires ServicePath(svc, slot) !in TreeOf(h) && !HasFileBelow(TreeOf(h), svc)
    ensures PartAbsent(NextSnapshot(ps, prev, h, now).data[svc].raw, slot)
  {
    hide NextSnapshot, WalkOrder, LatestIn, LastIn, HasFileBelow, ServicePath, ServicesIn;
    DeclaredRawLoaded(ps, prev, h, now, svc);
    NothingFills(ps, h, svc, slot);
  }

  lemma NothingFills(ps: Parsers, h: History, svc: Service, slot: Slot)
    requires h != [] && ServicePath(svc, slot) !in TreeOf(h) && !HasFileBelow(TreeOf(h), svc)
    ensures var tree := ConfigsOf(TreeOf(h));
            LastIn(ps, tree, WalkOrder(tree), svc, slot).None?
  {
    hide HasFileBelow, ServicePath;
    var tree := ConfigsOf(TreeOf(h));
    LastInIsLast(ps, tree, WalkOrder(tree), svc, slot);
    if p :| LastIn(ps, tree, WalkOrder(tree), svc, slot) == Some(p) {
      assert p in WalkOrder(tree);
      BelowSlotPath(p, svc, slot);
      AtOrBelow(TreeOf(h), svc, slot, p);
    }
  }

  lemma AtOrBelow(tree: Tree, svc: Service, slot: Slot, p: Path)
    requires ServicePath(svc, slot) <= p && p in tree
    ensures ServicePath(svc, slot) in tree || HasFileBelow(tree, svc)
  {
    assert ServicePath(svc, slot) == RootOf(svc) + [SlotName(slot)];
    if |p| == 8 {
      assert p == ServicePath(svc, slot);
    } else {
      assert RootOf(svc) + [SlotName(slot)] < p;
    }
  }

  /** What a change must have to be accepted, and what is written if it comes without a message. */
  lemma WhichChangesAreAccepted(setup: Setup, svc: Service, change: Change)
    ensures AcceptedChange(setup, svc, change) <==>
            && svc.org != "" && svc.project != "" && svc.service != ""
            && setup.validName(svc.org) && setup.validName(svc.project) && setup.validName(svc.service)
            && !(change.config.None? && change.envVars.None? && change.writes == map[])
            && (forall name :: name in change.writes ==>
                  var write := change.writes[name];
                  && name != "" && setup.validSecret(name) && |write.keys| > 0
                  && write.namespace != "" && setup.validNamespace(write.namespace)
                  && forall key :: key in write.keys ==> key != "" && setup.validName(key))
    ensures MessageFor(svc, change) ==
            if change.message == "" then "update config for " + svc.org + "/" + svc.project + "/" + svc.service
            else change.message
  {
    forall name | name in change.writes
      ensures change.writes[name].keys != {} <==> |change.writes[name].keys| > 0
    {
    }
  }
}
