/**
 Rolling a service back to an earlier commit: the plan, its application as a new
 commit, and what the next reload then serves.
 */
module Revert {
  import opened Common
  import opened Git
  import opened GitRepo
  import opened Snapshots
  import opened Serving

  /** `target` is the hash of the commit to go back to; an empty message asks for the standard one. */
  datatype Request = Request(svc: Service, target: History, message: string)

  /**
   Everything outside the repository: which names are acceptable, how a hash is
   written, which sealed manifests can be identified, and whether there is a cluster
   to apply them to.
   */
  datatype Environment = Environment(
    validName: string -> bool,
    hashText: History -> string,
    identified: (Path, Bytes) -> bool,
    applier: bool)

  datatype RevertError =
    | Invalid | ServiceNotFound | TargetNotFound | Internal
    | UnidentifiedManifest | NoApplier
    | Unloadable // already at the target, which does not load
    | Git(write: WriteError)

  datatype Plan = Plan(
    svc: Service, target: History, message: string, files: Tree, deleted: set<Path>, noop: bool)

  datatype Outcome = Outcome(
    version: History, noop: bool, deleted: set<Path>, applyFailed: bool, reloadFailed: bool)

  // ---------------------------------------------------------------------------
  // Which commits are targets
  // ---------------------------------------------------------------------------

  /** The recognised files of a service as of a commit; before the first commit there are none. */
  function FilesAt(h: History, svc: Service): Tree
  {
    if h == [] then map[] else ServiceFiles(TreeOf(h), svc)
  }

  /** The last commit of `h` changed the service. */
  predicate Changes(h: History, svc: Service)
  {
    h != [] && FilesAt(h, svc) != FilesAt(h[..|h| - 1], svc)
  }

  /** Walks from HEAD to older commits, stopping at the target. */
  method TargetChangedService(head: History, target: History, svc: Service) returns (found: bool)
    ensures found <==> target <= head && Changes(target, svc)
  {
    var n := |head|;
    while n > 0
      invariant 0 <= n <= |head|
      invariant forall k :: n < k <= |head| && Changes(head[..k], svc) ==> head[..k] != target
    {
      if Changes(head[..n], svc) && head[..n] == target {
        return true;
      }
      n := n - 1;
    }
    if target <= head && target != [] {
      assert head[..|target|] == target;
    }
    return false;
  }

  /** The last commit that changed the service. */
  ghost predicate LastChange(h: History, svc: Service, n: nat)
  {
    && 0 < n <= |h| && Changes(h[..n], svc)
    && forall k :: n < k <= |h| ==> !Changes(h[..k], svc)
  }

  /** Since its last change a service's files are what that commit made them. */
  lemma {:induction false} LastChangeHoldsCurrentFiles(h: History, svc: Service, n: nat, m: nat)
    requires LastChange(h, svc, n) && n <= m <= |h|
    ensures FilesAt(h[..m], svc) == FilesAt(h[..n], svc)
    decreases m
  {
    if m > n {
      assert !Changes(h[..m], svc);
      assert h[..m][..m - 1] == h[..m - 1];
      LastChangeHoldsCurrentFiles(h, svc, n, m - 1);
    }
  }

  /** A service with files has a last change, because history starts with none. */
  lemma {:induction false} LastChangeExists(h: History, svc: Service) returns (n: nat)
    requires FilesAt(h, svc) != map[]
    ensures LastChange(h, svc, n)
  {
    n := |h|;
    if Changes(h, svc) {
      assert h[..n] == h;
    } else {
      n := LastChangeExists(h[..|h| - 1], svc);
      LastChangeStays(h, svc, n);
    }
  }

  lemma LastChangeStays(h: History, svc: Service, n: nat)
    requires h != [] && !Changes(h, svc) && LastChange(h[..|h| - 1], svc, n)
    ensures LastChange(h, svc, n)
  {
    var init := h[..|h| - 1];
    assert h[..|h|] == h && init[..n] == h[..n];
    forall k | n < k < |h| ensures !Changes(h[..k], svc) {
      assert init[..k] == h[..k];
    }
  }

  // ---------------------------------------------------------------------------
  // The plan
  // ---------------------------------------------------------------------------

  predicate ValidRequest(env: Environment, req: Request)
  {
    && req.svc.org != "" && req.svc.project != "" && req.svc.service != "" && req.target != []
    && env.validName(req.svc.org) && env.validName(req.svc.project) && env.validName(req.svc.service)
  }

  function MessageOf(env: Environment, req: Request): string
  {
    if req.message == "" then "Rollback to " + env.hashText(req.target) else req.message
  }

  /** What preparing a revert yields while `served` is served and the clone is at `head`. */
  function Prepared(env: Environment, served: Snapshot, head: History, req: Request): Result<Plan, RevertError>
  {
    var target, current := FilesAt(req.target, req.svc), FilesAt(served.version, req.svc);
    if !ValidRequest(env, req) then Err(Invalid)
    else if req.svc !in served.data then Err(ServiceNotFound)
    else if !(req.target <= head) || !Changes(req.target, req.svc) || target == map[] then Err(TargetNotFound)
    else if served.version == [] then Err(Internal)
    else Ok(Plan(req.svc, req.target, MessageOf(env, req), target, current.Keys - target.Keys, current == target))
  }

  method SameFiles(current: Tree, target: Tree) returns (same: bool)
    ensures same <==> current == target
  {
    if |current| != |target| {
      return false;
    }
    var todo := target.Keys;
    while todo != {}
      invariant todo <= target.Keys
      invariant forall p :: p in target.Keys - todo ==> p in current && current[p] == target[p]
    {
      var path :| path in todo;
      todo := todo - {path};
      if path !in current || current[path] != target[path] {
        return false;
      }
    }
    SameSizeSameKeys(target.Keys, current.Keys);
    return true;
  }

  lemma SameSizeSameKeys(a: set<Path>, b: set<Path>)
    requires a <= b && |a| >= |b|
    ensures a == b
  {
    assert b == a + (b - a) && |b| == |a| + |b - a|;
    assert b - a == {};
  }

  method PrepareRevert(store: Store, env: Environment, req: Request) returns (r: Result<Plan, RevertError>)
    ensures r == Prepared(env, store.snapshot, store.repo.local, req)
  {
    if !ValidRequest(env, req) {
      return Err(Invalid);
    }
    if req.svc !in store.snapshot.data {
      return Err(ServiceNotFound);
    }
    var changed := TargetChangedService(store.repo.local, req.target, req.svc);
    var target := FilesAt(req.target, req.svc);
    if !changed || target == map[] {
      return Err(TargetNotFound);
    }
    if store.snapshot.version == [] {
      return Err(Internal);
    }
    var current := FilesAt(store.snapshot.version, req.svc);
    var noop := SameFiles(current, target);
    return Ok(Plan(req.svc, req.target, MessageOf(env, req), target, current.Keys - target.Keys, noop));
  }

  // ---------------------------------------------------------------------------
  // Applying it
  // ---------------------------------------------------------------------------

  predicate Sealed(svc: Service, path: Path)
  {
    Classify(path, svc) == Some(SealedSecretFile)
  }

  predicate HasManifests(plan: Plan)
  {
    exists p :: p in plan.files && Sealed(plan.svc, p)
  }

  /** Manifests can be applied: each is identified, and there is somewhere to apply them. */
  function ManifestError(env: Environment, plan: Plan): Option<RevertError>
  {
    if exists p :: p in plan.files && Sealed(plan.svc, p) && !env.identified(p, plan.files[p])
    then Some(UnidentifiedManifest)
    else if HasManifests(plan) && !env.applier then Some(NoApplier)
    else None
  }

  /** The served files are the target's, as of a load of everything that had been pushed. */
  ghost predicate AlreadyThere(served: Snapshot, pushed: History, req: Request)
  {
    && pushed <= served.version && FilesAt(served.version, req.svc) == FilesAt(req.target, req.svc)
  }

  /** A finished restore: the commit, what it deleted, and how often it reached the remote. */
  ghost predicate Restores(o: Outcome, base: History, pushed: History, plan: Plan, landings: int)
  {
    && !o.noop && base != [] && pushed <= base
    && Lands(o.version, base, Restored(TreeOf(base), plan.svc, plan.files), plan.message)
    && o.deleted == TreeOf(base).Keys - TreeOf(o.version).Keys
    && LandedOnce(landings, o.version != base, false)
  }

  /** HEAD already has the target's files, but does not load. */
  predicate StuckAtTarget(store: Store, req: Request)
    reads store, store.repo
  {
    FilesAt(store.repo.local, req.svc) == FilesAt(req.target, req.svc) && store.Model().degraded
  }

  predicate Eligible(env: Environment, req: Request)
  {
    ValidRequest(env, req) && Changes(req.target, req.svc) && FilesAt(req.target, req.svc) != map[]
  }

  /** The plan an answer was worked out from belongs to this request. */
  predicate PlansFor(env: Environment, plan: Plan, req: Request)
  {
    && Eligible(env, req)
    && plan.svc == req.svc && plan.files == FilesAt(req.target, req.svc) && plan.message == MessageOf(env, req)
  }

  /** A plan or refusal, and the state of the store when it was settled. */
  datatype Settlement = Settlement(plan: Result<Plan, RevertError>, served: Snapshot, local: History, log: seq<Event>)

  ghost function Settled(store: Store, plan: Result<Plan, RevertError>): Settlement
    reads store, store.repo, store.repo.remote
  {
    Settlement(plan, store.snapshot, store.repo.local, store.repo.remote.log)
  }

  /** The first plan stands unless it changes nothing: then HEAD is pulled and loaded before it is believed. */
  ghost predicate Settles(
    env: Environment, ps: Parsers, req: Request, now: Time,
    served: Snapshot, local: History, log: seq<Event>, end: Settlement)
  {
    var first := Prepared(env, served, local, req);
    if first.Err? || !first.value.noop then end == Settlement(first, served, local, log)
    else PullsAndPlans(env, ps, req, first.value, now, served, log, end)
  }

  /** A HEAD that loads is planned on again; one that does not is judged by its files alone. */
  ghost predicate PullsAndPlans(
    env: Environment, ps: Parsers, req: Request, plan: Plan, now: Time,
    served: Snapshot, log: seq<Event>, end: Settlement)
  {
    && end.log == log + [Pulled(end.plan != Err(Git(PullFailed)))]
    && if end.plan == Err(Git(PullFailed)) then end.served == served
       else if Loadable(ps, Attempt(end.local, true, now)) then
         && end.local != [] && end.served == NextSnapshot(ps, served, end.local, now)
         && end.plan == Prepared(env, end.served, end.local, req)
       else
         && end.served == served
         && end.plan == if FilesAt(end.local, req.svc) == plan.files then Err(Unloadable) else Ok(plan.(noop := false))
  }

  /**
   Restores the target's files. Competing pushes are pulled in first, so the files are
   exact even when the plan was made on an older HEAD. `settled` is the plan it went by,
   and the state it was settled in.
   */
  method ApplyRevert(store: Store, env: Environment, req: Request, applies: bool, now: Time, later: Time)
    returns (r: Result<Outcome, RevertError>, ghost base: History, ghost settled: Settlement)
    requires Ready(store)
    requires forall t, files :: store.repo.remote.policy(t, Restored(t, req.svc, files))
    modifies store`snapshot, store`lastReload, store`versionChanged, store.versionChanged
    modifies store.repo, store.repo.remote
    ensures Ready(store) && old(store.repo.local) <= store.repo.local
    ensures Follows(store.repo.remote.policy, old(store.repo.remote.branch), store.repo.remote.branch)
    ensures r.Ok? && r.value.noop ==>
              && AlreadyThere(store.snapshot, old(store.repo.remote.branch), req)
              && r.value.version == store.snapshot.version == store.repo.local && !r.value.reloadFailed
              && store.repo.remote.landed == old(store.repo.remote.landed)
    ensures r.Ok? && !r.value.noop ==>
              && ServesCommit(store, r.value.version, r.value.reloadFailed, settled.served, later)
              && r.value.version == store.repo.local && req.target <= store.repo.local
              && (exists plan :: PlansFor(env, plan, req) &&
                    Restores(r.value, base, old(store.repo.remote.branch), plan,
                             store.repo.remote.landed - old(store.repo.remote.landed)) &&
                    (r.value.applyFailed <==> HasManifests(plan) && !applies))
    ensures r.Err? ==>
              LandedOnce(store.repo.remote.landed - old(store.repo.remote.landed), false, r.error == Git(PushFailed))
    ensures r == Err(Unloadable) ==> StuckAtTarget(store, req) && store.snapshot == old(store.snapshot)
    ensures Prepared(env, old(store.snapshot), old(store.repo.local), req).Err? ==>
              && r == Err(Prepared(env, old(store.snapshot), old(store.repo.local), req).error)
              && store.snapshot == old(store.snapshot) && store.repo.remote.branch == old(store.repo.remote.branch)
    ensures Settles(env, store.ps, req, now,
                    old(store.snapshot), old(store.repo.local), old(store.repo.remote.log), settled)
    ensures if settled.plan.Err? then r == Err(settled.plan.error) && Settled(store, settled.plan) == settled
            else if settled.plan.value.noop then
              && r == Ok(Outcome(settled.served.version, true, {}, false, false))
              && Settled(store, settled.plan) == settled
            else Applied(store.repo.remote.log, settled.log, env, settled.plan.value, r, base)
  {
    hide Applied;
    base := [];
    var plan := SettledPlan(store, env, req, now);
    settled := Settled(store, plan);
    if plan.Err? {
      return Err(plan.error), base, settled;
    }
    if plan.value.noop {
      return Ok(Outcome(store.snapshot.version, true, plan.value.deleted, false, false)), base, settled;
    }
    r, base := ApplyPlan(store, env, plan.value, applies, later, old(store.repo.remote.branch));
  }

  /** Refused for its manifests before anything is pulled, or reported as the remote answered. */
  ghost predicate Applied(
    log: seq<Event>, before: seq<Event>, env: Environment, plan: Plan,
    r: Result<Outcome, RevertError>, base: History)
  {
    if ManifestError(env, plan).Some? then r == Err(ManifestError(env, plan).value) && log == before
    else
      && (r.Err? ==> r.error.Git?) && (r.Ok? ==> !r.value.noop)
      && Answers(log, before, if r.Ok? then Ok(r.value.version != base) else Err(r.error.write))
  }

  /** Commits the planned files and serves the result; `applies` is whether the cluster takes the manifests. */
  method ApplyPlan(store: Store, env: Environment, plan: Plan, applies: bool, later: Time, ghost origin: History)
    returns (r: Result<Outcome, RevertError>, ghost base: History)
    requires Ready(store) && !plan.noop && Follows(store.repo.remote.policy, origin, store.repo.remote.branch)
    requires forall t, files :: store.repo.remote.policy(t, Restored(t, plan.svc, files))
    modifies store`snapshot, store`lastReload, store`versionChanged, store.versionChanged
    modifies store.repo, store.repo.remote
    ensures Ready(store) && old(store.repo.local) <= store.repo.local
    ensures Follows(store.repo.remote.policy, origin, store.repo.remote.branch)
    ensures r.Ok? ==>
              && Restores(r.value, base, origin, plan, store.repo.remote.landed - old(store.repo.remote.landed))
              && ServesCommit(store, r.value.version, r.value.reloadFailed, old(store.snapshot), later)
              && r.value.version == store.repo.local
              && (r.value.applyFailed <==> HasManifests(plan) && !applies)
    ensures r.Err? ==>
              LandedOnce(store.repo.remote.landed - old(store.repo.remote.landed), false, r.error == Git(PushFailed))
    ensures r.Err? ==> r.error != Unloadable && store.snapshot == old(store.snapshot)
    ensures ManifestError(env, plan).Some? ==>
              r == Err(ManifestError(env, plan).value) && store.repo.remote.branch == old(store.repo.remote.branch)
    ensures Applied(store.repo.remote.log, old(store.repo.remote.log), env, plan, r, base)
  {
    hide Answers, Lands, Restored, HasManifests, NextSnapshot, Loadable;
    base := [];
    var unusable := ManifestError(env, plan);
    if unusable.Some? {
      return Err(unusable.value), base;
    }
    ghost var pushed := store.repo.remote.branch;
    var restored;
    restored, base := store.repo.RestoreServiceFilesAndPush(plan.message, plan.svc, plan.files);
    FollowsTransitive(store.repo.remote.policy, origin, pushed, store.repo.remote.branch);
    if restored.Err? {
      return Err(Git(restored.error)), base;
    }
    var (hash, deleted) := restored.value;
    var loaded := store.Reload(later);
    VersionOfLoad(store.ps, old(store.snapshot), hash, later);
    return Ok(Outcome(hash, false, deleted, HasManifests(plan) && !applies, !loaded)), base;
  }

  /** The plan; one that changes nothing is made again on the newest HEAD before it is believed. */
  method SettledPlan(store: Store, env: Environment, req: Request, now: Time) returns (r: Result<Plan, RevertError>)
    requires Ready(store)
    modifies store`snapshot, store`lastReload, store`versionChanged, store.versionChanged
    modifies store.repo, store.repo.remote
    ensures Ready(store) && old(store.repo.local) <= store.repo.local
    ensures Follows(store.repo.remote.policy, old(store.repo.remote.branch), store.repo.remote.branch)
    ensures store.repo.remote.landed == old(store.repo.remote.landed)
    ensures store.versionChanged == old(store.versionChanged) || fresh(store.versionChanged)
    ensures r.Ok? ==>
              && PlansFor(env, r.value, req) && req.target <= store.repo.local
              && (r.value.noop ==> store.snapshot.version == store.repo.local &&
                                   AlreadyThere(store.snapshot, old(store.repo.remote.branch), req))
    ensures r.Err? ==> r.error != Git(PushFailed)
    ensures r == Err(Unloadable) ==> StuckAtTarget(store, req) && store.snapshot == old(store.snapshot)
    ensures Prepared(env, old(store.snapshot), old(store.repo.local), req).Err? ==>
              && r == Err(Prepared(env, old(store.snapshot), old(store.repo.local), req).error)
              && store.snapshot == old(store.snapshot) && store.repo.remote.branch == old(store.repo.remote.branch)
    ensures Settles(env, store.ps, req, now,
                    old(store.snapshot), old(store.repo.local), old(store.repo.remote.log), Settled(store, r))
    ensures r.Ok? && r.value.noop ==> r.value.deleted == {}
  {
    hide PullsAndPlans;
    r := PrepareRevert(store, env, req);
    if r.Err? || !r.value.noop {
      return;
    }
    r := PlanAfterPull(store, env, req, r.value, now);
  }

  /** Pulls, reloads and prepares again; a HEAD that does not load is judged by its files alone. */
  method PlanAfterPull(store: Store, env: Environment, req: Request, plan: Plan, now: Time)
    returns (r: Result<Plan, RevertError>)
    requires Ready(store) && PlansFor(env, plan, req) && req.target <= store.repo.local
    modifies store`snapshot, store`lastReload, store`versionChanged, store.versionChanged
    modifies store.repo, store.repo.remote
    ensures Ready(store) && old(store.repo.local) <= store.repo.local
    ensures Follows(store.repo.remote.policy, old(store.repo.remote.branch), store.repo.remote.branch)
    ensures store.repo.remote.landed == old(store.repo.remote.landed)
    ensures store.versionChanged == old(store.versionChanged) || fresh(store.versionChanged)
    ensures r.Ok? ==>
              && PlansFor(env, r.value, req) && req.target <= store.repo.local
              && (r.value.noop ==> store.snapshot.version == store.repo.local &&
                                   AlreadyThere(store.snapshot, old(store.repo.remote.branch), req))
    ensures r.Err? ==> r.error != Git(PushFailed)
    ensures r == Err(Unloadable) ==> StuckAtTarget(store, req) && store.snapshot == old(store.snapshot)
    ensures PullsAndPlans(env, store.ps, req, plan, now,
                          old(store.snapshot), old(store.repo.remote.log), Settled(store, r))
    ensures r.Ok? && r.value.noop ==> r.value.deleted == {}
  {
    var pulled := store.repo.Pull();
    if pulled.Err? {
      return Err(Git(pulled.error));
    }
    var loaded := store.Reload(now);
    if loaded {
      r := PrepareRevert(store, env, req);
      return;
    }
    var there := SameFiles(FilesAt(store.repo.local, req.svc), plan.files);
    if there {
      return Err(Unloadable);
    }
    return Ok(plan.(noop := false));
  }

  // ---------------------------------------------------------------------------
  // What a revert achieves
  // ---------------------------------------------------------------------------

  lemma FilesAreRecognised(h: History, svc: Service)
    ensures forall p :: p in FilesAt(h, svc) ==> Recognised(p, svc)
  {
  }

  /** The restored commit has the target's files for the service and the base's for everything else. */
  lemma RestoreIsExactFrame(
    env: Environment, o: Outcome, base: History, pushed: History, plan: Plan, landings: int, req: Request)
    requires PlansFor(env, plan, req) && Restores(o, base, pushed, plan, landings)
    ensures FilesAt(o.version, req.svc) == FilesAt(req.target, req.svc)
    ensures forall p :: !Recognised(p, req.svc) ==>
              (p in TreeOf(o.version) <==> p in TreeOf(base)) &&
              (p in TreeOf(base) ==> TreeOf(o.version)[p] == TreeOf(base)[p])
  {
    FilesAreRecognised(req.target, req.svc);
    RestoreIsExact(TreeOf(base), req.svc, plan.files);
  }

  /** One of the three files that make a service show up when loaded. */
  predicate HasMainFile(files: Tree, svc: Service)
  {
    exists slot :: ServicePath(svc, slot) in files
  }

  /** A file below a directory that is named like one of them: loaded, but not a recognised service file. */
  predicate HasDeepFile(tree: Tree, svc: Service)
  {
    exists p :: p in tree && ClassifyService(p).Some? && ClassifyService(p).value.0 == svc && |p| > 8
  }

  /** A service is served exactly when the tree has a main file of it, or a file below a directory named like one. */
  lemma ServedWithMainFile(ps: Parsers, prev: Snapshot, h: History, now: Time, svc: Service)
    requires h != []
    ensures svc in NextSnapshot(ps, prev, h, now).data <==>
            HasMainFile(FilesAt(h, svc), svc) || HasDeepFile(TreeOf(h), svc)
  {
    hide NextSnapshot;
    var tree := ConfigsOf(TreeOf(h));
    ServedServices(ps, prev, h, now, svc);
    if p :| p in tree && ClassifyService(p).Some? && ClassifyService(p).value.0 == svc {
      if |p| == 8 {
        CanonicalPath(p);
        MainFileIsRecognised(svc, ClassifyService(p).value.1);
        assert ServicePath(svc, ClassifyService(p).value.1) in FilesAt(h, svc);
      }
    }
    if slot :| ServicePath(svc, slot) in FilesAt(h, svc) {
      ServicePathClassified(svc, slot);
      MainFileIsRecognised(svc, slot);
      assert ServicePath(svc, slot) in tree;
    }
    if p :| p in TreeOf(h) && ClassifyService(p).Some? && ClassifyService(p).value.0 == svc && |p| > 8 {
      assert ["configs"] < p;
      assert p in tree;
    }
  }

  lemma MainFileIsRecognised(svc: Service, slot: Slot)
    ensures Recognised(ServicePath(svc, slot), svc) && ["configs"] < ServicePath(svc, slot)
  {
    assert ServicePath(svc, slot)[|ServiceRoot(svc)|..] == [ServicePath(svc, slot)[7]];
  }

  lemma DeepFileNotRecognised(p: Path, svc: Service)
    requires ClassifyService(p).Some? && |p| > 8
    ensures !Recognised(p, svc)
  {
    assert |ServiceRoot(svc)| == 7;
    assert |p[7..]| > 1 && p[7..][0] == p[7];
  }

  /** After a restore of these files onto `base` the service is still one that is served. */
  predicate StaysServed(files: Tree, base: Tree, svc: Service)
  {
    HasMainFile(files, svc) || HasDeepFile(base, svc)
  }

  lemma ServedAfterRestore(
    env: Environment, ps: Parsers, before: Snapshot, o: Outcome, base: History, pushed: History,
    plan: Plan, landings: int, req: Request, later: Time)
    requires PlansFor(env, plan, req) && Restores(o, base, pushed, plan, landings)
    ensures req.svc in NextSnapshot(ps, before, o.version, later).data <==>
            StaysServed(plan.files, TreeOf(base), req.svc)
  {
    hide NextSnapshot;
    RestoreIsExactFrame(env, o, base, pushed, plan, landings, req);
    ServedWithMainFile(ps, before, o.version, later, req.svc);
    forall p | ClassifyService(p).Some? && |p| > 8 ensures p in TreeOf(o.version) <==> p in TreeOf(base) {
      DeepFileNotRecognised(p, req.svc);
    }
  }

  /**
   Once a restore is served, preparing it again finds nothing to do; unless the
   target held sealed secrets only, for then the service is no longer served at all.
   */
  lemma PreparingAgain(
    env: Environment, ps: Parsers, before: Snapshot, o: Outcome, base: History, pushed: History,
    plan: Plan, landings: int, req: Request, later: Time, head: History)
    requires PlansFor(env, plan, req) && Restores(o, base, pushed, plan, landings) && req.target <= head
    ensures Prepared(env, NextSnapshot(ps, before, o.version, later), head, req) ==
            if StaysServed(plan.files, TreeOf(base), req.svc)
            then Ok(Plan(req.svc, req.target, plan.message, plan.files, {}, true))
            else Err(ServiceNotFound)
  {
    hide NextSnapshot, StaysServed;
    RestoreIsExactFrame(env, o, base, pushed, plan, landings, req);
    ServedAfterRestore(env, ps, before, o, base, pushed, plan, landings, req, later);
    VersionOfLoad(ps, before, o.version, later);
    assert plan.files.Keys - plan.files.Keys == {};
  }

  lemma VersionOfLoad(ps: Parsers, prev: Snapshot, h: History, now: Time)
    requires h != []
    ensures NextSnapshot(ps, prev, h, now).version == h
  {
  }

  /**
   Going back to the last commit that changed the service before a revert undoes
   that revert: the service has the files it had, whatever was pushed in between, and
   if nothing was, the whole tree is as it was.
   */
  lemma RevertCanBeUndone(
    env: Environment, o: Outcome, base: History, pushed: History, plan: Plan, landings: int, n: nat,
    undo: Request, o': Outcome, base': History, pushed': History, plan': Plan, landings': int)
    requires Restores(o, base, pushed, plan, landings) && LastChange(base, plan.svc, n)
    requires undo.svc == plan.svc && undo.target == base[..n]
    requires PlansFor(env, plan', undo) && Restores(o', base', pushed', plan', landings') && o.version <= base'
    requires forall p :: p in plan.files ==> Recognised(p, plan.svc)
    ensures FilesAt(o'.version, plan.svc) == FilesAt(base, plan.svc)
    ensures base' == o.version ==> TreeOf(o'.version) == TreeOf(base)
  {
    LastChangeHoldsCurrentFiles(base, plan.svc, n, |base|);
    assert base[..|base|] == base;
    RestoreIsExactFrame(env, o', base', pushed', plan', landings', undo);
    if base' == o.version {
      RestoreIsExact(TreeOf(base), plan.svc, plan.files);
      SameFilesAndRest(TreeOf(o'.version), TreeOf(base), plan.svc);
    }
  }

  lemma SameFilesAndRest(a: Tree, b: Tree, svc: Service)
    requires Git.ServiceFiles(a, svc) == Git.ServiceFiles(b, svc)
    requires forall p :: !Recognised(p, svc) ==> (p in a <==> p in b) && (p in b ==> a[p] == b[p])
    ensures a == b
  {
    forall p ensures (p in a <==> p in b) && (p in b ==> a[p] == b[p]) {
      if Recognised(p, svc) {
        assert p in a <==> p in Git.ServiceFiles(a, svc);
        assert p in b <==> p in Git.ServiceFiles(b, svc);
      }
    }
  }

  /**
   The undo is on offer if and only if the reverted service is still served and the
   service had files just before the revert: then, once the revert is loaded, reverting to
   the last commit that changed the service before it is planned with the files of that
   time. A service served no more is not found; a base without files of the service, as
   after a competitor's deletion, is no target.
   */
  lemma UndoIsOnOffer(
    env: Environment, ps: Parsers, before: Snapshot, o: Outcome, base: History, pushed: History,
    plan: Plan, landings: int, req: Request, later: Time, head: History, n: nat, message: string)
    requires PlansFor(env, plan, req) && Restores(o, base, pushed, plan, landings) && o.version <= head
    requires LastChange(base, req.svc, n)
    ensures var undo := Request(req.svc, base[..n], message);
            var r := Prepared(env, NextSnapshot(ps, before, o.version, later), head, undo);
            && (r.Ok? <==> StaysServed(plan.files, TreeOf(base), req.svc) && FilesAt(base, req.svc) != map[])
            && (r.Ok? ==> r.value.files == FilesAt(base, req.svc) && PlansFor(env, r.value, undo))
            && (r.Err? ==> r.error == if StaysServed(plan.files, TreeOf(base), req.svc) then TargetNotFound
                                      else ServiceNotFound)
  {
    hide NextSnapshot, StaysServed, Changes;
    LastChangeHoldsCurrentFiles(base, req.svc, n, |base|);
    assert base[..|base|] == base && base <= o.version;
    ServedAfterRestore(env, ps, before, o, base, pushed, plan, landings, req, later);
    VersionOfLoad(ps, before, o.version, later);
  }

  // ---------------------------------------------------------------------------
  // A target that takes the service away
  // ---------------------------------------------------------------------------

  function SealedPath(svc: Service): Path
  {
    ServiceRoot(svc) + ["sealed-secrets", "secret.yaml"]
  }

  function SealedOnly(svc: Service, sealed: Bytes): Tree
  {
    map[SealedPath(svc) := sealed]
  }

  /** A service that starts with a sealed secret and gets its config in a second commit. */
  function SealedFirst(svc: Service, sealed: Bytes, config: Bytes, message: string): History
  {
    [Commit(SealedOnly(svc, sealed), message),
     Commit(SealedOnly(svc, sealed)[ServicePath(svc, ConfigSlot) := config], message)]
  }

  lemma SealedFirstFiles(svc: Service, sealed: Bytes, config: Bytes, message: string)
    ensures var h := SealedFirst(svc, sealed, config, message);
            && FilesAt(h[..1], svc) == SealedOnly(svc, sealed) && FilesAt(h, svc) == TreeOf(h) != FilesAt(h[..1], svc)
            && Changes(h[..1], svc) && LastChange(h, svc, 2)
            && Restored(TreeOf(h), svc, SealedOnly(svc, sealed)) == SealedOnly(svc, sealed)
  {
    var h := SealedFirst(svc, sealed, config, message);
    MainFileIsRecognised(svc, ConfigSlot);
    assert SealedPath(svc)[|ServiceRoot(svc)|..] == ["sealed-secrets", "secret.yaml"];
    assert Recognised(SealedPath(svc), svc);
    assert |ServicePath(svc, ConfigSlot)| == 8 && |SealedPath(svc)| == 9;
    assert ServicePath(svc, ConfigSlot) != SealedPath(svc);
    hide Recognised, ServicePath, SealedPath;
    assert h[..1] == [h[0]] && h[..1][..0] == [] && h[..2] == h;
    assert ServicePath(svc, ConfigSlot) in TreeOf(h) && ServicePath(svc, ConfigSlot) !in SealedOnly(svc, sealed);
    assert SealedPath(svc) in FilesAt(h[..1], svc);
  }

  /**
   On that history the revert to the first commit is planned, takes the service away, and
   can then neither be prepared again nor undone.
   */
  lemma SealedTargetTakesServiceAway(
    env: Environment, ps: Parsers, svc: Service, sealed: Bytes, config: Bytes, message: string, now: Time, later: Time)
    requires svc.org != "" && svc.project != "" && svc.service != "" && message != ""
    requires env.validName(svc.org) && env.validName(svc.project) && env.validName(svc.service)
    ensures var h := SealedFirst(svc, sealed, config, message);
            var back, undo := Request(svc, h[..1], message), Request(svc, h, message);
            var served := NextSnapshot(ps, EmptySnapshot, h, now);
            var reverted := h + [Commit(SealedOnly(svc, sealed), message)];
            var after := NextSnapshot(ps, served, reverted, later);
            && Prepared(env, served, h, back).Ok? && !Prepared(env, served, h, back).value.noop
            && Restored(TreeOf(h), svc, Prepared(env, served, h, back).value.files) == TreeOf(reverted)
            && svc !in after.data
            && Prepared(env, after, reverted, back) == Prepared(env, after, reverted, undo) == Err(ServiceNotFound)
  {
    hide NextSnapshot, Changes, LastChange, Restored;
    var h := SealedFirst(svc, sealed, config, message);
    var reverted := h + [Commit(SealedOnly(svc, sealed), message)];
    var served := NextSnapshot(ps, EmptySnapshot, h, now);
    SealedFirstFiles(svc, sealed, config, message);
    VersionOfLoad(ps, EmptySnapshot, h, now);
    ServedWithMainFile(ps, EmptySnapshot, h, now, svc);
    assert ServicePath(svc, ConfigSlot) in FilesAt(h, svc);
    ServedWithMainFile(ps, served, reverted, later, svc);
    assert TreeOf(reverted) == SealedOnly(svc, sealed);
    OnlySealedNotServed(svc, sealed, reverted);
    assert |h| == 2 && h[..1] <= h && SealedPath(svc) in SealedOnly(svc, sealed);
  }

  /** Both histories load, provided that the config parses. */
  lemma SealedFirstLoads(
    ps: Parsers, svc: Service, sealed: Bytes, config: Bytes, message: string, now: Time, after: History)
    requires ps.config(config).Some? && after != [] && TreeOf(after) == SealedOnly(svc, sealed)
    ensures Loadable(ps, Attempt(SealedFirst(svc, sealed, config, message), true, now))
    ensures Loadable(ps, Attempt(after, true, now))
  {
    var h := SealedFirst(svc, sealed, config, message);
    ServicePathClassified(svc, ConfigSlot);
    assert |SealedPath(svc)| == 9 && SealedPath(svc)[7] == "sealed-secrets";
    assert ClassifyService(SealedPath(svc)).None? && ClassifyDefaults(SealedPath(svc)).None?;
    hide ServicePath, SealedPath, ClassifyService, ClassifyDefaults, Loadable;
    LoadsWhenAllParse(ps, h, now);
    LoadsWhenAllParse(ps, after, now);
  }

  lemma OnlySealedNotServed(svc: Service, sealed: Bytes, h: History)
    requires h != [] && TreeOf(h) == SealedOnly(svc, sealed)
    ensures !HasMainFile(FilesAt(h, svc), svc) && !HasDeepFile(TreeOf(h), svc)
  {
    assert ClassifyService(SealedPath(svc)).None?;
    forall slot ensures ServicePath(svc, slot) != SealedPath(svc) {
      ServicePathClassified(svc, slot);
    }
  }

  // ---------------------------------------------------------------------------
  // A deletion underneath a revert
  // ---------------------------------------------------------------------------

  function ConfigOnly(svc: Service, config: Bytes): Tree
  {
    map[ServicePath(svc, ConfigSlot) := config]
  }

  lemma ConfigOnlyFiles(svc: Service, config: Bytes)
    ensures Git.ServiceFiles(ConfigOnly(svc, config), svc) == ConfigOnly(svc, config)
    ensures Restored(map[], svc, ConfigOnly(svc, config)) == ConfigOnly(svc, config)
    ensures ServicePath(svc, ConfigSlot) in ConfigOnly(svc, config)
    ensures HasMainFile(ConfigOnly(svc, config), svc)
  {
    MainFileIsRecognised(svc, ConfigSlot);
  }

  /** Two configs, one after the other. */
  function TwoConfigs(svc: Service, first: Bytes, second: Bytes, message: string): (h: History)
    ensures |h| == 2
  {
    [Commit(ConfigOnly(svc, first), message), Commit(ConfigOnly(svc, second), message)]
  }

  /** Then the service is deleted. */
  function ThenDeleted(svc: Service, first: Bytes, second: Bytes, message: string): History
  {
    TwoConfigs(svc, first, second, message) + [Commit(map[], message)]
  }

  /** Then the first config is restored. */
  function ThenRestored(svc: Service, first: Bytes, second: Bytes, message: string): History
  {
    ThenDeleted(svc, first, second, message) + [Commit(Restored(map[], svc, ConfigOnly(svc, first)), message)]
  }

  lemma DeletionFiles(svc: Service, first: Bytes, second: Bytes, message: string)
    requires first != second
    ensures var h, base := TwoConfigs(svc, first, second, message), ThenDeleted(svc, first, second, message);
            var reverted := ThenRestored(svc, first, second, message);
            && FilesAt(h[..1], svc) == ConfigOnly(svc, first) == FilesAt(reverted, svc)
            && FilesAt(h, svc) == ConfigOnly(svc, second) && FilesAt(base, svc) == map[]
            && ConfigOnly(svc, first) != ConfigOnly(svc, second)
            && ConfigOnly(svc, first) != map[] && ConfigOnly(svc, second) != map[]
            && Changes(h[..1], svc) && Changes(h, svc) && LastChange(base, svc, 3)
            && h[..1] <= h <= reverted && base <= reverted
  {
    var h, base := TwoConfigs(svc, first, second, message), ThenDeleted(svc, first, second, message);
    ConfigOnlyFiles(svc, first);
    ConfigOnlyFiles(svc, second);
    var path := ServicePath(svc, ConfigSlot);
    assert ConfigOnly(svc, first)[path] != ConfigOnly(svc, second)[path];
    hide Restored, Recognised, ServicePath, ConfigOnly;
    assert h[..1] == [h[0]] && h[..1][..0] == [] && base[..2] == h && base[..3] == base;
  }

  /**
   A revert from the second config to the first is planned; before it is applied a
   competitor deletes the service. The revert lands on the deletion and brings the service
   back, yet going back to its base is refused. The second config is still a target.
   */
  lemma DeletionUnderneathRevert(
    env: Environment, ps: Parsers, svc: Service, first: Bytes, second: Bytes, message: string, now: Time, later: Time)
    requires svc.org != "" && svc.project != "" && svc.service != "" && message != "" && first != second
    requires env.validName(svc.org) && env.validName(svc.project) && env.validName(svc.service)
    ensures var h, base := TwoConfigs(svc, first, second, message), ThenDeleted(svc, first, second, message);
            var reverted := ThenRestored(svc, first, second, message);
            var served := NextSnapshot(ps, EmptySnapshot, h, now);
            var after := NextSnapshot(ps, served, reverted, later);
            var planned := Prepared(env, served, h, Request(svc, h[..1], message));
            var again := Prepared(env, after, reverted, Request(svc, h, message));
            && planned.Ok? && !planned.value.noop && planned.value.files == ConfigOnly(svc, first)
            && svc in after.data && LastChange(base, svc, 3)
            && Prepared(env, after, reverted, Request(svc, base, message)) == Err(TargetNotFound)
            && again.Ok? && again.value.files == ConfigOnly(svc, second)
  {
    hide NextSnapshot, FilesAt, Changes, ConfigOnly, LastChange;
    var h, reverted := TwoConfigs(svc, first, second, message), ThenRestored(svc, first, second, message);
    var served := NextSnapshot(ps, EmptySnapshot, h, now);
    DeletionFiles(svc, first, second, message);
    ConfigOnlyFiles(svc, first);
    ConfigOnlyFiles(svc, second);
    VersionOfLoad(ps, EmptySnapshot, h, now);
    VersionOfLoad(ps, served, reverted, later);
    ServedWithMainFile(ps, EmptySnapshot, h, now, svc);
    ServedWithMainFile(ps, served, reverted, later, svc);
  }

  // ---------------------------------------------------------------------------
  // What a plan says, and when there is one
  // ---------------------------------------------------------------------------

  /** The request is well-formed, the service is served, and the target is a commit of the branch that touched it. */
  ghost predicate MayRevert(env: Environment, served: Snapshot, head: History, req: Request)
  {
    && req.svc.org != "" && req.svc.project != "" && req.svc.service != "" && req.target != []
    && env.validName(req.svc.org) && env.validName(req.svc.project) && env.validName(req.svc.service)
    && req.svc in served.data && served.version != []
    && req.target <= head
    && (exists p :: p in TreeOf(req.target) && Recognised(p, req.svc))
    && (|req.target| > 1 ==>
          Git.ServiceFiles(TreeOf(req.target), req.svc) !=
          Git.ServiceFiles(TreeOf(req.target[..|req.target| - 1]), req.svc))
  }

  /** A plan restores the target's files, path by path, and names those it takes away. */
  lemma PlanByPaths(env: Environment, served: Snapshot, head: History, req: Request, p: Path)
    ensures var r := Prepared(env, served, head, req);
            && (r.Ok? <==> MayRevert(env, served, head, req))
            && (r.Ok? ==>
                  var plan, now, target := r.value, TreeOf(served.version), TreeOf(req.target);
                  && (p in plan.files <==> p in target && Recognised(p, req.svc))
                  && (p in plan.files ==> plan.files[p] == target[p])
                  && (p in plan.deleted <==> p in now && Recognised(p, req.svc) && p !in target)
                  && (plan.noop <==> Git.ServiceFiles(now, req.svc) == Git.ServiceFiles(target, req.svc))
                  && plan.message == if req.message != "" then req.message
                                     else "Rollback to " + env.hashText(req.target))
  {
    if req.target != [] {
      assert FilesAt(req.target, req.svc) != map[] <==>
             exists q :: q in TreeOf(req.target) && Recognised(q, req.svc) by {
        if q :| q in TreeOf(req.target) && Recognised(q, req.svc) {
          assert q in FilesAt(req.target, req.svc);
        }
        if FilesAt(req.target, req.svc) != map[] {
          var q :| q in FilesAt(req.target, req.svc);
        }
      }
    }
  }

  /** The first thing that is wrong is what a refusal names. */
  lemma RefusalsInOrder(env: Environment, served: Snapshot, head: History, req: Request)
    ensures var r := Prepared(env, served, head, req);
            && (r == Err(Invalid) <==> !ValidRequest(env, req))
            && (r == Err(ServiceNotFound) <==> ValidRequest(env, req) && req.svc !in served.data)
            && (r.Err? ==> r.error in {Invalid, ServiceNotFound, TargetNotFound, Internal})
            && (r == Err(Internal) ==> served.version == [])
  {
  }

  /**
   A plan is applied only if every sealed secret in it can be identified and, where there
   are any, something is there to apply them with.
   */
  lemma ManifestsApplicable(env: Environment, plan: Plan)
    ensures var sealed := ServiceRoot(plan.svc) + ["sealed-secrets"];
            && (ManifestError(env, plan) == None <==>
                  && (forall p :: p in plan.files && sealed < p ==> env.identified(p, plan.files[p]))
                  && ((exists p :: p in plan.files && sealed < p) ==> env.applier))
            && (ManifestError(env, plan) == Some(UnidentifiedManifest) <==>
                  exists p :: p in plan.files && sealed < p && !env.identified(p, plan.files[p]))
            && (ManifestError(env, plan).Some? ==> ManifestError(env, plan).value in {UnidentifiedManifest, NoApplier})
  {
    var sealed := ServiceRoot(plan.svc) + ["sealed-secrets"];
    forall p ensures Sealed(plan.svc, p) <==> sealed < p {
      SealedBelow(plan.svc, p);
    }
  }

  lemma SealedBelow(svc: Service, p: Path)
    ensures Sealed(svc, p) <==> ServiceRoot(svc) + ["sealed-secrets"] < p
  {
    var root := ServiceRoot(svc);
    assert |root| == 7;
    if root <= p {
      assert p == root + p[7..];
      assert root + ["sealed-secrets"] < p <==> |p[7..]| > 1 && p[7] == "sealed-secrets";
    } else {
      assert !(root + ["sealed-secrets"] < p);
    }
  }
}
