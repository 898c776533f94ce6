/** Trees, commits and the files of one service. */
module Git {
  import opened Common

  /** A repository path, split at the slashes. */
  type Path = seq<string>

  type Bytes = string

  /** A tree as the flat map of its files. */
  type Tree = map<Path, Bytes>

  datatype Commit = Commit(tree: Tree, message: string)

  /**
   A branch, oldest commit first. Git names a commit by a hash of its content and
   all its ancestry, so the history up to a commit stands for that commit's hash.
   */
  type History = seq<Commit>

  function TreeOf(h: History): Tree
    requires h != []
  {
    h[|h| - 1].tree
  }

  /** The part of a tree that is served: everything below configs/. */
  function ConfigsOf(tree: Tree): Tree
  {
    map p | p in tree && ["configs"] < p :: tree[p]
  }

  /** `after` extends `before`, and every commit in between keeps `policy` with its parent. */
  ghost predicate Follows(policy: (Tree, Tree) -> bool, before: History, after: History)
  {
    && before != [] && before <= after
    && forall i :: |before| <= i < |after| ==> policy(after[i - 1].tree, after[i].tree)
  }

  lemma FollowsTransitive(policy: (Tree, Tree) -> bool, a: History, b: History, c: History)
    requires Follows(policy, a, b) && Follows(policy, b, c)
    ensures Follows(policy, a, c)
  {
    forall i | |a| <= i < |c| ensures policy(c[i - 1].tree, c[i].tree) {
      if i < |b| {
        assert policy(b[i - 1].tree, b[i].tree);
      }
    }
  }

  // ---------------------------------------------------------------------------
  // The files of one service
  // ---------------------------------------------------------------------------

  datatype Service = Service(org: string, project: string, service: string)

  datatype FileKind = ConfigFile | EnvVarsFile | SecretsFile | SealedSecretFile

  function ServiceRoot(svc: Service): Path
  {
    ["configs", "orgs", svc.org, "projects", svc.project, "services", svc.service]
  }

  function Classify(path: Path, svc: Service): (kind: Option<FileKind>)
    ensures kind.Some? ==> ServiceRoot(svc) < path
  {
    var root := ServiceRoot(svc);
    if !(root < path) then None
    else
      var rel := path[|root|..];
      if rel == ["config.yaml"] then Some(ConfigFile)
      else if rel == ["env_vars.yaml"] then Some(EnvVarsFile)
      else if rel == ["secrets.yaml"] then Some(SecretsFile)
      else if |rel| > 1 && rel[0] == "sealed-secrets" then Some(SealedSecretFile)
      else None
  }

  predicate Recognised(path: Path, svc: Service)
  {
    Classify(path, svc).Some?
  }

  function ServiceFiles(tree: Tree, svc: Service): Tree
  {
    map p | p in tree && Recognised(p, svc) :: tree[p]
  }

  /** What a service deletion asks to remove: three files and one directory. */
  function ServicePaths(svc: Service): seq<Path>
  {
    var root := ServiceRoot(svc);
    [root + ["config.yaml"], root + ["env_vars.yaml"], root + ["secrets.yaml"], root + ["sealed-secrets"]]
  }

  // ---------------------------------------------------------------------------
  // The three tree edits
  // ---------------------------------------------------------------------------

  /** A path names a file, or a directory and everything below it. */
  predicate Under(p: Path, paths: seq<Path>)
  {
    exists q :: q in paths && q <= p
  }

  function Minus(tree: Tree, paths: seq<Path>): Tree
  {
    map p | p in tree && !Under(p, paths) :: tree[p]
  }

  function Restored(tree: Tree, svc: Service, files: Tree): Tree
  {
    (map p | p in tree && (!Recognised(p, svc) || p in files) :: tree[p]) + files
  }

  /** A restore leaves exactly the target files of the service and nothing else changed. */
  lemma RestoreIsExact(tree: Tree, svc: Service, files: Tree)
    requires forall p :: p in files ==> Recognised(p, svc)
    ensures ServiceFiles(Restored(tree, svc, files), svc) == files
    ensures forall p :: !Recognised(p, svc) ==>
              (p in Restored(tree, svc, files) <==> p in tree) &&
              (p in tree ==> Restored(tree, svc, files)[p] == tree[p])
  {
    assert ServiceFiles(Restored(tree, svc, files), svc).Keys == files.Keys;
  }

  /** Restoring what is there already changes nothing, and only that. */
  lemma RestoreIsNoop(tree: Tree, svc: Service, files: Tree)
    requires forall p :: p in files ==> Recognised(p, svc)
    ensures Restored(tree, svc, files) == tree <==> ServiceFiles(tree, svc) == files
  {
    RestoreIsExact(tree, svc, files);
    var after := Restored(tree, svc, files);
    if ServiceFiles(tree, svc) == files {
      forall p ensures (p in after <==> p in tree) && (p in tree ==> after[p] == tree[p]) {
        if Recognised(p, svc) {
          assert p in tree <==> p in ServiceFiles(tree, svc);
        }
      }
      assert after == tree;
    }
  }

  /** Deleting a service removes every recognised file of it and nothing outside its directory. */
  lemma DeleteIsExact(tree: Tree, svc: Service)
    ensures ServiceFiles(Minus(tree, ServicePaths(svc)), svc) == map[]
    ensures forall p :: p in tree && !(ServiceRoot(svc) < p) ==>
              p in Minus(tree, ServicePaths(svc)) && Minus(tree, ServicePaths(svc))[p] == tree[p]
    ensures var root, left := ServiceRoot(svc), Minus(tree, ServicePaths(svc));
            forall p :: p in left <==>
              && p in tree && !(root + ["config.yaml"] <= p) && !(root + ["env_vars.yaml"] <= p)
              && !(root + ["secrets.yaml"] <= p) && !(root + ["sealed-secrets"] <= p)
  {
    var root, paths := ServiceRoot(svc), ServicePaths(svc);
    forall p | Recognised(p, svc) ensures Under(p, paths) {
      var rel := p[|root|..];
      assert p == root + rel;
      if |rel| == 1 {
        assert p == root + ["config.yaml"] || p == root + ["env_vars.yaml"] || p == root + ["secrets.yaml"];
        assert paths[0] in paths && paths[1] in paths && paths[2] in paths;
        assert p <= p && p in paths;
      } else {
        assert paths[3] in paths && paths[3] <= p;
      }
    }
    forall p
      ensures Under(p, paths) <==>
              || root + ["config.yaml"] <= p || root + ["env_vars.yaml"] <= p
              || root + ["secrets.yaml"] <= p || root + ["sealed-secrets"] <= p
    {
      assert paths[0] in paths && paths[1] in paths && paths[2] in paths && paths[3] in paths;
    }
    forall p | !(root < p) ensures !Under(p, paths) {
      forall q | q in paths ensures !(q <= p) {
        assert root < q;
      }
    }
  }
}
