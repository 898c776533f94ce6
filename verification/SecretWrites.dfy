/** Secret writes through the Git protocol: metadata is rebuilt on whatever competitors pushed. */
module SecretWrites {
  import opened Common
  import opened Git
  import opened GitRepo
  import opened SecretEntries

  /** The YAML form of secrets.yaml. */
  datatype Codec = Codec(render: seq<Entry> -> Bytes, parse: Bytes -> Option<seq<Entry>>)

  /** Printing then parsing gives the list back, and only lists the parser checks are ever parsed. */
  ghost predicate Faithful(codec: Codec)
  {
    && (forall es :: Parseable(es) ==> codec.parse(codec.render(es)) == Some(es))
    && (forall b :: codec.parse(b).Some? ==> Parseable(codec.parse(b).value))
  }

  function SecretsPath(svc: Service): Path
  {
    ServiceRoot(svc) + ["secrets.yaml"]
  }

  /** A missing file is an empty list; a malformed one is an error. */
  function ReadSecrets(codec: Codec, svc: Service, tree: Tree): Result<seq<Entry>, string>
  {
    if SecretsPath(svc) !in tree then Ok([])
    else match codec.parse(tree[SecretsPath(svc)])
         case None => Err("parse existing secrets.yaml")
         case Some(es) => Ok(es)
  }

  datatype Request = Request(writes: Writes, extra: Tree, message: string)

  /** The other files of a change: config, env vars and sealed manifests, never secrets.yaml itself. */
  predicate ValidRequest(svc: Service, req: Request)
  {
    ValidWrites(req.writes) && SecretsPath(svc) !in req.extra
  }

  function BuildFiles(codec: Codec, svc: Service, req: Request, tree: Tree): Result<Tree, string>
  {
    if exists p :: p in req.extra && !(ServiceRoot(svc) < p) then Err("manifest path is outside service path")
    else match ReadSecrets(codec, svc, tree)
         case Err(e) => Err(e)
         case Ok(es) => Ok(req.extra[SecretsPath(svc) := codec.render(Merged(es, req.writes))])
  }

  // ---------------------------------------------------------------------------
  // What no writer may undo
  // ---------------------------------------------------------------------------

  /** The list is readable and names no pointer twice (which the parser does not check). */
  ghost predicate Sound(codec: Codec, svc: Service, tree: Tree)
  {
    ReadSecrets(codec, svc, tree).Ok? && DistinctPointers(ReadSecrets(codec, svc, tree).value)
  }

  /** From a sound tree, only entries are added: none disappears, changes its id or its description. */
  ghost predicate OnlyAdds(codec: Codec, svc: Service, before: Tree, after: Tree)
  {
    Sound(codec, svc, before) ==>
      && Sound(codec, svc, after)
      && forall e :: e in ReadSecrets(codec, svc, before).value ==> e in ReadSecrets(codec, svc, after).value
  }

  lemma {:induction false} FollowingOnlyAdds(
    codec: Codec, svc: Service, policy: (Tree, Tree) -> bool, before: History, after: History)
    requires Follows(policy, before, after)
    requires forall t, t' :: policy(t, t') ==> OnlyAdds(codec, svc, t, t')
    ensures OnlyAdds(codec, svc, TreeOf(before), TreeOf(after))
    decreases |after|
  {
    if |after| > |before| {
      var init := after[..|after| - 1];
      FollowingOnlyAdds(codec, svc, policy, before, init);
      assert policy(after[|init| - 1].tree, after[|init|].tree);
    } else {
      assert before == after;
    }
  }

  /** The files a secret write builds, laid over the tree they were built from. */
  lemma BuildOnlyAdds(codec: Codec, svc: Service, req: Request, tree: Tree)
    requires Faithful(codec) && ValidRequest(svc, req)
    requires BuildFiles(codec, svc, req, tree).Ok?
    ensures var next := tree + BuildFiles(codec, svc, req, tree).value;
            && OnlyAdds(codec, svc, tree, next)
            && Sound(codec, svc, next)
            && Pointers(ReadSecrets(codec, svc, next).value) ==
               Pointers(ReadSecrets(codec, svc, tree).value) + Written(req.writes)
  {
    var es := ReadSecrets(codec, svc, tree).value;
    var merged := Merged(es, req.writes);
    MergedIsMerge(es, req.writes);
    MergePointers(merged, es, req.writes);
    MergeKeepsEntries(merged, es, req.writes);
    var next := tree + BuildFiles(codec, svc, req, tree).value;
    assert next[SecretsPath(svc)] == codec.render(merged);
  }

  /** Entries survive to any later tree, and with them the id each pointer has. */
  lemma IdsNeverChange(codec: Codec, svc: Service, before: Tree, after: Tree, e: Entry, f: Entry)
    requires Sound(codec, svc, before) && OnlyAdds(codec, svc, before, after)
    requires e in ReadSecrets(codec, svc, before).value && f in ReadSecrets(codec, svc, after).value
    requires e.pointer == f.pointer
    ensures e == f
  {
    var es := ReadSecrets(codec, svc, after).value;
    var i :| 0 <= i < |es| && es[i] == e;
    var j :| 0 <= j < |es| && es[j] == f;
  }

  // ---------------------------------------------------------------------------
  // Runs of secret writes
  // ---------------------------------------------------------------------------

  method WriteSecrets(repo: Repo, codec: Codec, svc: Service, req: Request)
    returns (r: Result<History, WriteError>, ghost base: History)
    requires repo.Valid() && Faithful(codec) && ValidRequest(svc, req)
    requires forall t, t' :: repo.remote.policy(t, t') <==> OnlyAdds(codec, svc, t, t')
    modifies repo, repo.remote
    ensures repo.Valid() && Follows(repo.remote.policy, old(repo.remote.branch), repo.remote.branch)
    ensures OnlyAdds(codec, svc, TreeOf(old(repo.remote.branch)), TreeOf(repo.remote.branch))
    ensures r.Ok? ==>
              && old(repo.remote.branch) <= r.value <= repo.remote.branch
              && Sound(codec, svc, TreeOf(repo.remote.branch))
              && Written(req.writes) <= Pointers(ReadSecrets(codec, svc, TreeOf(repo.remote.branch)).value)
    ensures old(repo.local) <= repo.local
    ensures LandedOnce(repo.remote.landed - old(repo.remote.landed), r.Ok? && r.value != base, r == Err(PushFailed))
    ensures Answers(repo.remote.log, old(repo.remote.log), if r.Ok? then Ok(r.value != base) else Err(r.error))
    ensures r.Err? && r.error.BuildFailed? ==>
              base != [] && BuildFiles(codec, svc, req, TreeOf(base)) == Err(r.error.why)
    ensures r.Ok? ==>
              && old(repo.remote.branch) <= base && BuildFiles(codec, svc, req, TreeOf(base)).Ok?
              && Lands(r.value, base, TreeOf(base) + BuildFiles(codec, svc, req, TreeOf(base)).value, req.message)
    ensures r.Ok? ==>
              && repo.local == r.value && SecretsPath(svc) in TreeOf(r.value)
              && ReadSecrets(codec, svc, TreeOf(r.value)).Ok?
              && Written(req.writes) <= Pointers(ReadSecrets(codec, svc, TreeOf(r.value)).value)
  {
    hide Answers;
    var build := (t: Tree) => BuildFiles(codec, svc, req, t);
    forall t, files | build(t) == Ok(files) ensures repo.remote.policy(t, t + files) {
      BuildOnlyAdds(codec, svc, req, t);
    }
    r, base := repo.CommitAndPushFunc(req.message, build);
    FollowingOnlyAdds(codec, svc, repo.remote.policy, old(repo.remote.branch), repo.remote.branch);
    if r.Ok? {
      BuildOnlyAdds(codec, svc, req, TreeOf(base));
      AncestorFollows(repo.remote.policy, old(repo.remote.branch), r.value, repo.remote.branch);
      FollowingOnlyAdds(codec, svc, repo.remote.policy, r.value, repo.remote.branch);
      KeptPointers(codec, svc, TreeOf(r.value), TreeOf(repo.remote.branch));
    }
  }

  lemma AncestorFollows(policy: (Tree, Tree) -> bool, a: History, b: History, c: History)
    requires Follows(policy, a, c) && a <= b <= c
    ensures Follows(policy, b, c)
  {
  }

  lemma KeptPointers(codec: Codec, svc: Service, before: Tree, after: Tree)
    requires Sound(codec, svc, before) && OnlyAdds(codec, svc, before, after)
    ensures Sound(codec, svc, after)
    ensures Pointers(ReadSecrets(codec, svc, before).value) <= Pointers(ReadSecrets(codec, svc, after).value)
  {
  }

  /** Every write that succeeded has its pointers in the list. */
  ghost predicate AllNamed(codec: Codec, svc: Service, tree: Tree, requests: seq<Request>, oks: seq<bool>)
    requires |oks| <= |requests|
  {
    forall i :: 0 <= i < |oks| && oks[i] ==>
      && Sound(codec, svc, tree)
      && Written(requests[i].writes) <= Pointers(ReadSecrets(codec, svc, tree).value)
  }

  /** One more write, in a tree that has lost nothing. */
  lemma AllNamedStep(
    codec: Codec, svc: Service, before: Tree, after: Tree, requests: seq<Request>, oks: seq<bool>, ok: bool)
    requires |oks| < |requests| && AllNamed(codec, svc, before, requests, oks) && OnlyAdds(codec, svc, before, after)
    requires ok ==>
               && Sound(codec, svc, after)
               && Written(requests[|oks|].writes) <= Pointers(ReadSecrets(codec, svc, after).value)
    ensures AllNamed(codec, svc, after, requests, oks + [ok])
  {
    if Sound(codec, svc, before) {
      KeptPointers(codec, svc, before, after);
    }
  }

  /**
   However many writes run, rejected or not, among competitors that only add: the
   remote list only grows, and everything a successful write named is in it at the end.
   */
  method WriteAll(repo: Repo, codec: Codec, svc: Service, requests: seq<Request>) returns (oks: seq<bool>)
    requires repo.Valid() && Faithful(codec)
    requires forall i :: 0 <= i < |requests| ==> ValidRequest(svc, requests[i])
    requires forall t, t' :: repo.remote.policy(t, t') <==> OnlyAdds(codec, svc, t, t')
    modifies repo, repo.remote
    ensures repo.Valid() && Follows(repo.remote.policy, old(repo.remote.branch), repo.remote.branch)
    ensures OnlyAdds(codec, svc, TreeOf(old(repo.remote.branch)), TreeOf(repo.remote.branch))
    ensures |oks| == |requests| && AllNamed(codec, svc, TreeOf(repo.remote.branch), requests, oks)
  {
    hide OnlyAdds, Pointers, Written, BuildFiles, Lands, LandedOnce, AllNamed, Answers;
    oks := [];
    assert AllNamed(codec, svc, TreeOf(repo.remote.branch), requests, []) by {
      NothingNamed(codec, svc, TreeOf(repo.remote.branch), requests);
    }
    for n := 0 to |requests|
      invariant repo.Valid() && Follows(repo.remote.policy, old(repo.remote.branch), repo.remote.branch)
      invariant |oks| == n && AllNamed(codec, svc, TreeOf(repo.remote.branch), requests, oks)
    {
      ghost var before := repo.remote.branch;
      var r, _ := WriteSecrets(repo, codec, svc, requests[n]);
      FollowsTransitive(repo.remote.policy, old(repo.remote.branch), before, repo.remote.branch);
      AllNamedStep(codec, svc, TreeOf(before), TreeOf(repo.remote.branch), requests, oks, r.Ok?);
      oks := oks + [r.Ok?];
    }
    FollowingOnlyAdds(codec, svc, repo.remote.policy, old(repo.remote.branch), repo.remote.branch);
  }

  lemma NothingNamed(codec: Codec, svc: Service, tree: Tree, requests: seq<Request>)
    ensures AllNamed(codec, svc, tree, requests, [])
  {
  }
}
