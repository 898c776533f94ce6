/**
 The write protocol between one local clone and one remote branch. Competitors may
 push at any moment, a push may be rejected or fail, and a failed push may or may
 not have reached the remote.
 */
module GitRepo {
  import opened Common
  import opened Git

  const MAX_PUSH_RETRIES := 3

  datatype PushOutcome = Accepted | NonFastForward | Failed

  /** What the remote answered to the clone. */
  datatype Event = Pulled(reached: bool) | Pushed(outcome: PushOutcome)

  datatype WriteError = PullFailed | BuildFailed(why: string) | PushFailed | RetriesExhausted

  /** The remote branch, and what is known of the commits competitors push to it. */
  class Remote {
    const policy: (Tree, Tree) -> bool
    var branch: History
    ghost var landed: nat     // how many pushes of the clone reached the branch
    ghost var log: seq<Event> // every answer to the clone so far

    constructor (policy: (Tree, Tree) -> bool, first: Commit)
      ensures this.policy == policy && branch == [first] && landed == 0 && log == []
    {
      this.policy, branch, landed, log := policy, [first], 0, [];
    }

    /** Competitors push any number of commits. */
    method Interfere()
      requires branch != []
      modifies this`branch
      ensures Follows(policy, old(branch), branch)
    {
      var pushes: int := *;
      while pushes > 0
        invariant Follows(policy, old(branch), branch)
      {
        pushes := pushes - 1;
        var theirs: Commit := *;
        if policy(TreeOf(branch), theirs.tree) {
          branch := branch + [theirs];
        }
      }
    }

    /** A fetch that got through, or did not. */
    ghost method Answer(reached: bool)
      modifies this`log
      ensures log == old(log) + [Pulled(reached)]
    {
      log := log + [Pulled(reached)];
    }

    /** Only a fast-forward is accepted. A transport failure may hide an accepted push. */
    method Push(local: History) returns (outcome: PushOutcome)
      modifies this
      ensures log == old(log) + [Pushed(outcome)]
      ensures outcome.Accepted? ==> landed == old(landed) + 1
      ensures outcome.NonFastForward? ==> landed == old(landed)
      ensures landed == old(landed) ==> branch == old(branch)
      ensures landed != old(landed) ==> landed == old(landed) + 1 && old(branch) <= local && branch == local
    {
      var reachable: bool, answered: bool, raced: bool := *, *, *;
      outcome := if !reachable then Failed
                 else if raced || !(branch <= local) then NonFastForward
                 else if answered then Accepted
                 else Failed;
      if reachable && !raced && branch <= local {
        branch, landed := local, landed + 1;
      }
      log := log + [Pushed(outcome)];
    }
  }

  datatype Published = Committed | Nothing | Rejected | Broken

  class Repo {
    const remote: Remote
    var local: History
    var worktree: Tree

    /** Between operations the clone is a prefix of the remote and its checkout is clean. */
    ghost predicate Valid()
      reads this, remote
    {
      && local != [] && local <= remote.branch
      && worktree == TreeOf(local)
    }

    constructor (remote: Remote)
      requires remote.branch != []
      ensures this.remote == remote && Valid() && local == remote.branch
    {
      this.remote := remote;
      local := remote.branch;
      worktree := remote.branch[|remote.branch| - 1].tree;
    }

    /** Fetches and fast-forwards; competitors act before and after. */
    method Pull() returns (r: Result<bool, WriteError>)
      requires Valid()
      modifies this, remote
      ensures Valid() && Follows(remote.policy, old(remote.branch), remote.branch)
      ensures old(local) <= local
      ensures r.Ok? ==> old(remote.branch) <= local && (r.value <==> local != old(local))
      ensures r.Err? ==> r.error == PullFailed && local == old(local)
      ensures remote.landed == old(remote.landed) && remote.log == old(remote.log) + [Pulled(r.Ok?)]
    {
      remote.Interfere();
      var reachable: bool := *;
      remote.Answer(reachable);
      if !reachable {
        return Err(PullFailed);
      }
      var before := local;
      local := remote.branch;
      worktree := TreeOf(local);
      ghost var pulled := remote.branch;
      remote.Interfere();
      FollowsTransitive(remote.policy, old(remote.branch), pulled, remote.branch);
      return Ok(before != local);
    }

    /**
     Commits the checkout if it differs from HEAD, pushes, and undoes the local
     commit (a hard reset to the parent) when the push does not succeed.
     */
    method Publish(message: string) returns (p: Published)
      requires local != [] && local <= remote.branch
      requires remote.policy(TreeOf(local), worktree)
      modifies this, remote
      ensures Valid() && Follows(remote.policy, old(remote.branch), remote.branch)
      ensures p.Nothing? <==> old(worktree) == TreeOf(old(local))
      ensures p.Committed? ==> local == old(local) + [Commit(old(worktree), message)]
      ensures !p.Committed? ==> local == old(local)
      ensures LandedOnce(remote.landed - old(remote.landed), p.Committed?, p.Broken?)
      ensures remote.log == old(remote.log) + match p
                                              case Nothing => []
                                              case Committed => [Pushed(Accepted)]
                                              case Rejected => [Pushed(NonFastForward)]
                                              case Broken => [Pushed(Failed)]
    {
      if worktree == TreeOf(local) {
        return Nothing;
      }
      var parent := local;
      local := local + [Commit(worktree, message)];
      remote.Interfere();
      ghost var meanwhile := remote.branch;
      var outcome := remote.Push(local);
      PushFollows(remote.policy, meanwhile, remote.branch, parent, local[|parent|]);
      FollowsTransitive(remote.policy, old(remote.branch), meanwhile, remote.branch);
      if outcome.Accepted? {
        remote.Interfere();
        FollowsTransitive(remote.policy, old(remote.branch), local, remote.branch);
        return Committed;
      }
      ResetToParent();
      assert local == parent;
      return if outcome.Failed? then Broken else Rejected;
    }

    /** A hard reset to HEAD~1. */
    method ResetToParent()
      requires |local| > 1
      modifies this`local, this`worktree
      ensures local == old(local)[..|old(local)| - 1] && worktree == TreeOf(local)
    {
      local := local[..|local| - 1];
      worktree := TreeOf(local);
    }

    /**
     Writes files built from the freshly pulled tree. On success `base` is the tree
     they were built from: the last history pulled before the commit.
     */
    method CommitAndPushFunc(message: string, build: Tree -> Result<Tree, string>)
      returns (r: Result<History, WriteError>, ghost base: History)
      requires Valid()
      requires forall t, files :: build(t) == Ok(files) ==> remote.policy(t, t + files)
      modifies this, remote
      ensures Valid() && old(local) <= local && Follows(remote.policy, old(remote.branch), remote.branch)
      ensures r.Ok? ==>
                && old(remote.branch) <= base && build(TreeOf(base)).Ok?
                && Lands(r.value, base, TreeOf(base) + build(TreeOf(base)).value, message)
                && local == r.value
      ensures LandedOnce(remote.landed - old(remote.landed), r.Ok? && r.value != base, r == Err(PushFailed))
      ensures Answers(remote.log, old(remote.log), if r.Ok? then Ok(r.value != base) else Err(r.error))
      ensures r.Err? && r.error.BuildFailed? ==> base != [] && build(TreeOf(base)) == Err(r.error.why)
    {
      hide Answers, Rejections;
      base := [];
      assert remote.log + Rejections(0) == remote.log by { NoRejections(); }
      for attempt := 0 to MAX_PUSH_RETRIES
        invariant Valid() && old(local) <= local && Follows(remote.policy, old(remote.branch), remote.branch)
        invariant remote.landed == old(remote.landed) && remote.log == old(remote.log) + Rejections(attempt)
      {
        var start := StartAttempt(old(remote.branch));
        if start.Err? {
          Decided(remote.log, old(remote.log), attempt, Err(PullFailed));
          return Err(start.error), base;
        }
        base := local;
        var built := build(worktree);
        if built.Err? {
          Decided(remote.log, old(remote.log), attempt, Err(BuildFailed(built.error)));
          return Err(BuildFailed(built.error)), base;
        }
        WriteFiles(built.value);
        ghost var before := remote.branch;
        var p := Publish(message);
        FollowsTransitive(remote.policy, old(remote.branch), before, remote.branch);
        match p
        case Committed =>
          Decided(remote.log, old(remote.log), attempt, Ok(true));
          return Ok(local), base;
        case Nothing =>
          Decided(remote.log, old(remote.log), attempt, Ok(false));
          return Ok(local), base;
        case Broken =>
          Decided(remote.log, old(remote.log), attempt, Err(PushFailed));
          return Err(PushFailed), base;
        case Rejected =>
          RejectedOnceMore(remote.log, old(remote.log), attempt);
      }
      Exhausted(remote.log, old(remote.log));
      return Err(RetriesExhausted), base;
    }

    /** The pull that opens every attempt. */
    method StartAttempt(ghost origin: History) returns (r: Result<bool, WriteError>)
      requires Valid() && Follows(remote.policy, origin, remote.branch)
      modifies this, remote
      ensures Valid() && old(local) <= local && Follows(remote.policy, origin, remote.branch)
      ensures r.Ok? ==> origin <= local
      ensures r.Err? ==> r.error == PullFailed
      ensures remote.landed == old(remote.landed) && remote.log == old(remote.log) + [Pulled(r.Ok?)]
    {
      r := Pull();
      FollowsTransitive(remote.policy, origin, old(remote.branch), remote.branch);
    }

    method WriteFiles(files: Tree)
      modifies this`worktree
      ensures worktree == old(worktree) + files
    {
      var todo := files.Keys;
      while todo != {}
        invariant todo <= files.Keys
        invariant worktree == old(worktree) + (map p | p in files.Keys - todo :: files[p])
      {
        var path :| path in todo;
        todo := todo - {path};
        worktree := worktree[path := files[path]];
      }
      assert (map p | p in files.Keys - todo :: files[p]) == files;
    }

    /** Removes files and directories; reports what was really there. */
    method DeleteAndPush(message: string, paths: seq<Path>)
      returns (r: Result<(History, set<Path>), WriteError>, ghost base: History)
      requires Valid()
      requires forall t :: remote.policy(t, Minus(t, paths))
      modifies this, remote
      ensures Valid() && old(local) <= local && Follows(remote.policy, old(remote.branch), remote.branch)
      ensures r.Ok? ==>
                && old(remote.branch) <= base
                && Lands(r.value.0, base, Minus(TreeOf(base), paths), message)
                && local == r.value.0
                && r.value.1 == TreeOf(base).Keys - TreeOf(r.value.0).Keys
      ensures LandedOnce(remote.landed - old(remote.landed), r.Ok? && r.value.0 != base, r == Err(PushFailed))
      ensures Answers(remote.log, old(remote.log), if r.Ok? then Ok(r.value.0 != base) else Err(r.error))
      ensures r.Err? ==> !r.error.BuildFailed?
    {
      hide Answers, Rejections;
      base := [];
      assert remote.log + Rejections(0) == remote.log by { NoRejections(); }
      for attempt := 0 to MAX_PUSH_RETRIES
        invariant Valid() && old(local) <= local && Follows(remote.policy, old(remote.branch), remote.branch)
        invariant remote.landed == old(remote.landed) && remote.log == old(remote.log) + Rejections(attempt)
      {
        var start := StartAttempt(old(remote.branch));
        if start.Err? {
          Decided(remote.log, old(remote.log), attempt, Err(PullFailed));
          return Err(start.error), base;
        }
        base := local;
        var removed := RemovePaths(paths);
        ghost var before := remote.branch;
        var p := Publish(message);
        FollowsTransitive(remote.policy, old(remote.branch), before, remote.branch);
        match p
        case Committed =>
          Decided(remote.log, old(remote.log), attempt, Ok(true));
          return Ok((local, removed)), base;
        case Nothing =>
          Decided(remote.log, old(remote.log), attempt, Ok(false));
          return Ok((local, {})), base;
        case Broken =>
          Decided(remote.log, old(remote.log), attempt, Err(PushFailed));
          return Err(PushFailed), base;
        case Rejected =>
          RejectedOnceMore(remote.log, old(remote.log), attempt);
      }
      Exhausted(remote.log, old(remote.log));
      return Err(RetriesExhausted), base;
    }

    method RemovePaths(paths: seq<Path>) returns (removed: set<Path>)
      modifies this`worktree
      ensures worktree == Minus(old(worktree), paths)
      ensures removed == old(worktree).Keys - worktree.Keys
    {
      removed := {};
      for i := 0 to |paths|
        invariant worktree == Minus(old(worktree), paths[..i])
        invariant removed == old(worktree).Keys - worktree.Keys
      {
        var path := paths[i];
        var targets := set p | p in worktree && path <= p;
        removed := removed + targets;
        assert paths[..i + 1] == paths[..i] + [path];
        assert forall q :: q in paths[..i + 1] <==> q in paths[..i] || q == path;
        forall p ensures Under(p, paths[..i + 1]) <==> Under(p, paths[..i]) || path <= p {
          if Under(p, paths[..i]) {
            var q :| q in paths[..i] && q <= p;
            assert q in paths[..i + 1];
          }
          if path <= p { assert path in paths[..i + 1]; }
        }
        worktree := worktree - targets;
      }
      assert paths[..|paths|] == paths;
    }

    /** Makes the recognised files of a service exactly `files`. */
    method RestoreServiceFilesAndPush(message: string, svc: Service, files: Tree)
      returns (r: Result<(History, set<Path>), WriteError>, ghost base: History)
      requires Valid()
      requires forall t :: remote.policy(t, Restored(t, svc, files))
      modifies this, remote
      ensures Valid() && old(local) <= local && Follows(remote.policy, old(remote.branch), remote.branch)
      ensures r.Ok? ==>
                && old(remote.branch) <= base
                && Lands(r.value.0, base, Restored(TreeOf(base), svc, files), message)
                && local == r.value.0
                && r.value.1 == TreeOf(base).Keys - TreeOf(r.value.0).Keys
      ensures LandedOnce(remote.landed - old(remote.landed), r.Ok? && r.value.0 != base, r == Err(PushFailed))
      ensures Answers(remote.log, old(remote.log), if r.Ok? then Ok(r.value.0 != base) else Err(r.error))
      ensures r.Err? ==> !r.error.BuildFailed?
    {
      hide Restored, Recognised, Answers, Rejections;
      base := [];
      assert remote.log + Rejections(0) == remote.log by { NoRejections(); }
      for attempt := 0 to MAX_PUSH_RETRIES
        invariant Valid() && old(local) <= local && Follows(remote.policy, old(remote.branch), remote.branch)
        invariant remote.landed == old(remote.landed) && remote.log == old(remote.log) + Rejections(attempt)
      {
        var start := StartAttempt(old(remote.branch));
        if start.Err? {
          Decided(remote.log, old(remote.log), attempt, Err(PullFailed));
          return Err(start.error), base;
        }
        base := local;
        var deleted := DropUnlisted(svc, files);
        WriteFiles(files);
        DroppedAndWritten(TreeOf(base), svc, files);
        ghost var before := remote.branch;
        var p := Publish(message);
        FollowsTransitive(remote.policy, old(remote.branch), before, remote.branch);
        match p
        case Committed =>
          Decided(remote.log, old(remote.log), attempt, Ok(true));
          return Ok((local, deleted)), base;
        case Nothing =>
          Decided(remote.log, old(remote.log), attempt, Ok(false));
          return Ok((local, deleted)), base;
        case Broken =>
          Decided(remote.log, old(remote.log), attempt, Err(PushFailed));
          return Err(PushFailed), base;
        case Rejected =>
          RejectedOnceMore(remote.log, old(remote.log), attempt);
      }
      Exhausted(remote.log, old(remote.log));
      return Err(RetriesExhausted), base;
    }

    method DropUnlisted(svc: Service, files: Tree) returns (deleted: set<Path>)
      modifies this`worktree
      ensures worktree == map p | p in old(worktree) && (!Recognised(p, svc) || p in files) :: old(worktree)[p]
      ensures deleted == old(worktree).Keys - (worktree + files).Keys
    {
      deleted := {};
      var todo := set p | p in worktree && Recognised(p, svc);
      ghost var was := worktree;
      while todo != {}
        invariant todo <= was.Keys && forall p :: p in todo ==> Recognised(p, svc)
        invariant worktree == map p | p in was && (p in todo || !Recognised(p, svc) || p in files) :: was[p]
        invariant deleted == was.Keys - worktree.Keys
      {
        var path :| path in todo;
        todo := todo - {path};
        if path in files {
          continue;
        }
        deleted := deleted + {path};
        worktree := worktree - {path};
      }
    }

    /**
     The HEAD hash together with the files under configs/. Refused when the
     checkout no longer matches HEAD there.
     */
    method Snapshot() returns (r: Result<(History, Tree), string>)
      requires local != []
      ensures r.Ok? <==> forall p: Path :: ["configs"] < p ==>
                           (p in worktree <==> p in TreeOf(local)) &&
                           (p in worktree ==> worktree[p] == TreeOf(local)[p])
      ensures r.Ok? <==> ConfigsOf(worktree) == ConfigsOf(TreeOf(local))
      ensures r.Ok? ==> forall p :: p in r.value.1 <==> p in TreeOf(local) && ["configs"] < p
      ensures r.Ok? ==> r.value == (local, ConfigsOf(TreeOf(local)))
    {
      SameBelowConfigs(worktree, TreeOf(local));
      if ConfigsOf(worktree) != ConfigsOf(TreeOf(local)) {
        return Err("configs/ worktree is dirty; refusing to snapshot");
      }
      return Ok((local, ConfigsOf(worktree)));
    }
  }

  /** A push that landed or not has only extended the branch, by a permitted commit. */
  lemma PushFollows(policy: (Tree, Tree) -> bool, before: History, after: History, parent: History, mine: Commit)
    requires parent != [] && parent <= before && policy(TreeOf(parent), mine.tree)
    requires after == before || (before <= parent + [mine] && after == parent + [mine])
    ensures Follows(policy, before, after)
  {
    if after != before {
      assert |before| >= |parent|;
      assert before == parent;
    }
  }

  /** A number of attempts that each pulled and were rejected. */
  function Rejections(n: nat): (events: seq<Event>)
    ensures |events| == 2 * n
    ensures forall i :: 0 <= i < n ==> events[2 * i] == Pulled(true) && events[2 * i + 1] == Pushed(NonFastForward)
  {
    if n == 0 then [] else Rejections(n - 1) + [Pulled(true), Pushed(NonFastForward)]
  }

  /**
   The answers of the remote that a write reports in this way: `Ok(true)` for a pushed
   commit, `Ok(false)` for nothing to push. Fewer than three attempts were rejected
   before the one that decided, or three were.
   */
  ghost predicate Answers(log: seq<Event>, before: seq<Event>, r: Result<bool, WriteError>)
  {
    if r == Err(RetriesExhausted) then log == before + Rejections(3)
    else exists n :: 0 <= n < 3 && log == before + Rejections(n) + Final(r)
  }

  /** The answers in the attempt that decided. */
  function Final(r: Result<bool, WriteError>): seq<Event>
  {
    match r
    case Ok(true) => [Pulled(true), Pushed(Accepted)]
    case Ok(false) => [Pulled(true)]
    case Err(PullFailed) => [Pulled(false)]
    case Err(BuildFailed(_)) => [Pulled(true)]
    case Err(PushFailed) => [Pulled(true), Pushed(Failed)]
    case Err(RetriesExhausted) => []
  }

  lemma Decided(log: seq<Event>, before: seq<Event>, n: nat, r: Result<bool, WriteError>)
    requires n < 3 && r != Err(RetriesExhausted) && log == before + Rejections(n) + Final(r)
    ensures Answers(log, before, r)
  {
  }

  lemma Exhausted(log: seq<Event>, before: seq<Event>)
    requires log == before + Rejections(3)
    ensures Answers(log, before, Err(RetriesExhausted))
  {
  }

  lemma NoRejections()
    ensures Rejections(0) == []
  {
  }

  lemma RejectedOnceMore(log: seq<Event>, before: seq<Event>, n: nat)
    requires log == before + Rejections(n) + [Pulled(true)] + [Pushed(NonFastForward)]
    ensures log == before + Rejections(n + 1)
  {
  }

  /** What a write reports is what the remote answered: each way of ending has its own answers. */
  lemma ReportedAsAnswered(log: seq<Event>, before: seq<Event>, r: Result<bool, WriteError>)
    requires Answers(log, before, r)
    ensures before < log
    ensures var answers := log[|before|..];
            && (r == Ok(true) <==> Pushed(Accepted) in answers)
            && (r == Err(PullFailed) <==> Pulled(false) in answers)
            && (r == Err(PushFailed) <==> Pushed(Failed) in answers)
            && (r == Err(RetriesExhausted) <==> |answers| == 6 && answers[5] == Pushed(NonFastForward))
            && (r == Ok(false) || (r.Err? && r.error.BuildFailed?) <==> answers[|answers| - 1] == Pulled(true))
  {
    hide Rejections, Answers;
    var n := AnsweredAfter(log, before, r);
    var answers := log[|before|..];
    assert answers == Rejections(n) + Final(r);
    RejectionsThen(n, Final(r), answers);
    EveryEnding(r, n, answers);
  }

  lemma AnsweredAfter(log: seq<Event>, before: seq<Event>, r: Result<bool, WriteError>) returns (n: nat)
    requires Answers(log, before, r)
    ensures log == before + Rejections(n) + Final(r) && |log| == |before| + 2 * n + |Final(r)|
    ensures if r == Err(RetriesExhausted) then n == 3 else n < 3
  {
    if r == Err(RetriesExhausted) {
      n := 3;
    } else {
      n :| 0 <= n < 3 && log == before + Rejections(n) + Final(r);
    }
  }

  lemma EveryEnding(r: Result<bool, WriteError>, n: nat, answers: seq<Event>)
    requires |answers| == 2 * n + |Final(r)| && if r == Err(RetriesExhausted) then n == 3 else n < 3
    requires forall e :: e in answers ==> e == Pulled(true) || e == Pushed(NonFastForward) || e in Final(r)
    requires forall e :: e in Final(r) ==> e in answers
    requires Final(r) == [] && n > 0 ==> answers[|answers| - 1] == Pushed(NonFastForward)
    requires Final(r) != [] ==> answers[|answers| - 1] == Final(r)[|Final(r)| - 1]
    ensures answers != []
    ensures r == Ok(true) <==> Pushed(Accepted) in answers
    ensures r == Err(PullFailed) <==> Pulled(false) in answers
    ensures r == Err(PushFailed) <==> Pushed(Failed) in answers
    ensures r == Err(RetriesExhausted) <==> |answers| == 6 && answers[5] == Pushed(NonFastForward)
    ensures r == Ok(false) || (r.Err? && r.error.BuildFailed?) <==> answers[|answers| - 1] == Pulled(true)
  {
    match r
    case Ok(true) => assert Final(r)[1] in Final(r);
    case Ok(false) => assert Final(r)[0] in Final(r);
    case Err(PullFailed) => assert Final(r)[0] in Final(r);
    case Err(BuildFailed(_)) => assert Final(r)[0] in Final(r);
    case Err(PushFailed) => assert Final(r)[1] in Final(r);
    case Err(RetriesExhausted) =>
  }

  lemma RejectionsThen(n: nat, tail: seq<Event>, answers: seq<Event>)
    requires answers == Rejections(n) + tail
    ensures forall e :: e in answers ==> e == Pulled(true) || e == Pushed(NonFastForward) || e in tail
    ensures forall e :: e in tail ==> e in answers
    ensures tail == [] && n > 0 ==> answers[|answers| - 1] == Pushed(NonFastForward)
    ensures tail != [] ==> answers[|answers| - 1] == tail[|tail| - 1]
  {
    OnlyRejections(n);
    assert n > 0 ==> Rejections(n)[2 * (n - 1) + 1] == Pushed(NonFastForward);
  }

  lemma {:induction false} OnlyRejections(n: nat)
    ensures forall e :: e in Rejections(n) ==> e == Pulled(true) || e == Pushed(NonFastForward)
  {
    if n > 0 {
      OnlyRejections(n - 1);
    }
  }

  lemma SameBelowConfigs(a: Tree, b: Tree)
    ensures ConfigsOf(a) == ConfigsOf(b) <==>
            forall p: Path :: ["configs"] < p ==> (p in a <==> p in b) && (p in a ==> a[p] == b[p])
  {
    if ConfigsOf(a) == ConfigsOf(b) {
      forall p: Path | ["configs"] < p ensures (p in a <==> p in b) && (p in a ==> a[p] == b[p]) {
        assert p in ConfigsOf(a) <==> p in a;
        assert p in ConfigsOf(b) <==> p in b;
      }
    }
  }

  lemma DroppedAndWritten(tree: Tree, svc: Service, files: Tree)
    ensures (map p | p in tree && (!Recognised(p, svc) || p in files) :: tree[p]) + files == Restored(tree, svc, files)
  {
  }

  /** A write puts one commit on the remote when it says so, at most one when it cannot tell, and none otherwise. */
  predicate LandedOnce(landed: int, committed: bool, unknown: bool)
  {
    if unknown then 0 <= landed <= 1 else landed == if committed then 1 else 0
  }

  /**
   `hash` carries exactly `tree`: it is the pulled base itself when nothing had to
   change, and otherwise one new commit on top of it.
   */
  ghost predicate Lands(hash: History, base: History, tree: Tree, message: string)
  {
    && base != [] && hash != [] && TreeOf(hash) == tree
    && hash == if tree == TreeOf(base) then base else base + [Commit(tree, message)]
  }
}
