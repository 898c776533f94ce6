/**
 The in-memory cache of the Console App Registry: a last-writer-wins map of apps
 with one event-time watermark per key, tombstones that expire, and bulk Replace.
 */
module Registry {
  import opened Common

  /** Instants in nanoseconds. */
  type Time = int

  /** How long the watermark of a vanished key is kept: 24 hours. */
  const RETENTION: Time := 24 * 3600 * 1_000_000_000

  /** The `updated_at` field: empty, not RFC3339, or an instant with the text it was read from. */
  datatype Stamp = Unset | Malformed(raw: string) | At(raw: string, instant: Time)

  datatype App = App(org: string, project: string, service: string, name: string, updatedAt: Stamp)

  datatype Key = Key(org: string, project: string, service: string)

  datatype Invalid = OrgRequired | ProjectRequired | ServiceRequired | BadUpdatedAt | UpdatedAtRequired

  function KeyFor(app: App): Key
  {
    Key(app.org, app.project, app.service)
  }

  function Normalize(app: App): (r: Result<App, Invalid>)
    ensures r.Ok? <==>
              && app.org != "" && app.project != "" && (app.service != "" || app.name != "")
              && !app.updatedAt.Malformed?
    ensures r.Ok? ==>
              && r.value.service in {app.service, app.name} && r.value.name in {app.service, app.name}
              && r.value.service != "" && r.value.name != ""
              && (app.service != "" ==> r.value.service == app.service) && (app.name != "" ==> r.value.name == app.name)
              && r.value.org == app.org && r.value.project == app.project && r.value.updatedAt == app.updatedAt
    ensures r == Err(OrgRequired) <==> app.org == ""
    ensures r == Err(ProjectRequired) <==> app.org != "" && app.project == ""
    ensures r != Err(UpdatedAtRequired)
    ensures r == Err(ServiceRequired) <==> app.org != "" && app.project != "" && app.service == "" && app.name == ""
  {
    var named := app.(service := if app.service == "" then app.name else app.service);
    var full := named.(name := if named.name == "" then named.service else named.name);
    if full.org == "" then Err(OrgRequired)
    else if full.project == "" then Err(ProjectRequired)
    else if full.service == "" then Err(ServiceRequired)
    else if full.updatedAt.Malformed? then Err(BadUpdatedAt)
    else Ok(full)
  }

  /** A webhook event must name a complete key and carry an event time. */
  function Accept(app: App): (r: Result<App, Invalid>)
    ensures r.Ok? ==> r.value.updatedAt.At? && r.value.updatedAt == app.updatedAt
    ensures r.Ok? <==> Normalize(app).Ok? && app.updatedAt.At?
    ensures r.Ok? ==> r == Normalize(app)
    ensures r == Err(UpdatedAtRequired) <==> Normalize(app).Ok? && app.updatedAt.Unset?
    ensures Normalize(app).Err? ==> r == Normalize(app)
  {
    match Normalize(app)
    case Err(e) => Err(e)
    case Ok(n) => if n.updatedAt.Unset? then Err(UpdatedAtRequired) else Ok(n)
  }

  // ---------------------------------------------------------------------------
  // The cache as a value
  // ---------------------------------------------------------------------------

  datatype State = State(apps: map<Key, App>, marks: map<Key, Time>)

  const Empty := State(map[], map[])

  /** Tombstones older than the retention before `now` are forgotten. */
  function Prune(s: State, now: Time): State
  {
    s.(marks := map k | k in s.marks && (k in s.apps || s.marks[k] >= now - RETENTION) :: s.marks[k])
  }

  function Remember(marks: map<Key, Time>, k: Key, t: Time): map<Key, Time>
  {
    if k in marks && t <= marks[k] then marks else marks[k := t]
  }

  function ShouldApply(current: App, incoming: App): (r: Result<bool, Invalid>)
  {
    if incoming.updatedAt.Malformed? then Err(BadUpdatedAt)
    else if incoming.updatedAt.Unset? then Ok(true)
    else if current.updatedAt.Malformed? then Err(BadUpdatedAt)
    else if current.updatedAt.Unset? then Ok(true)
    else Ok(incoming.updatedAt.instant >= current.updatedAt.instant)
  }

  datatype Op =
    | Upsert(app: App)
    | Delete(app: App)
    | Replace(snapshot: seq<App>, loadedAt: Time)

  /** Whether an accepted event on key `k` passes both the watermark and the stored app's own time. */
  function Passes(s: State, event: App): (r: Result<bool, Invalid>)
    requires event.updatedAt.At?
  {
    var k := KeyFor(event);
    if k in s.marks && event.updatedAt.instant < s.marks[k] then Ok(false)
    else if k in s.apps then ShouldApply(s.apps[k], event)
    else Ok(true)
  }

  datatype Outcome = Rejected(error: Invalid) | Ignored | Applied

  function Step(s: State, op: Op): (r: (State, Outcome))
  {
    if op.Replace? then (Reload(s, op.snapshot, op.loadedAt), Applied)
    else match Accept(op.app)
         case Err(e) => (s, Rejected(e))
         case Ok(event) =>
           var pruned := Prune(s, event.updatedAt.instant);
           match Passes(pruned, event)
           case Err(e) => (pruned, Rejected(e))
           case Ok(false) => (pruned, Ignored)
           case Ok(true) =>
             var k := KeyFor(event);
             (State(if op.Upsert? then pruned.apps[k := event] else pruned.apps - {k},
                    Remember(pruned.marks, k, event.updatedAt.instant)),
              Applied)
  }

  // Bulk load: malformed entries are dropped, later entries of one key win.

  function Normalized(apps: seq<App>): (m: map<Key, App>)
  {
    if apps == [] then map[]
    else var init := Normalized(apps[..|apps| - 1]);
         match Normalize(apps[|apps| - 1])
         case Err(_) => init
         case Ok(n) => init[KeyFor(n) := n]
  }

  function SnapshotTimes(apps: seq<App>): (m: map<Key, Time>)
  {
    if apps == [] then map[]
    else var init := SnapshotTimes(apps[..|apps| - 1]);
         match Normalize(apps[|apps| - 1])
         case Err(_) => init
         case Ok(n) => if n.updatedAt.At? then init[KeyFor(n) := n.updatedAt.instant] else init
  }

  /** Watermarks after a bulk load: kept for listed keys, retained as tombstones for a day, raised by the listing. */
  function Reload(s: State, apps: seq<App>, loadedAt: Time): State
  {
    var listed := Normalized(apps);
    var times := SnapshotTimes(apps);
    var kept := map k | k in s.marks && (k in listed || s.marks[k] > loadedAt - RETENTION) :: s.marks[k];
    State(listed, RaisedMarks(kept, times))
  }

  function RaisedMarks(kept: map<Key, Time>, times: map<Key, Time>): map<Key, Time>
  {
    map k | k in kept.Keys + times.Keys ::
      if k !in times then kept[k]
      else if k !in kept then times[k]
      else if times[k] > kept[k] then times[k]
      else kept[k]
  }

  // ---------------------------------------------------------------------------
  // The cache as the program keeps it
  // ---------------------------------------------------------------------------

  datatype Health = NotConfigured | Healthy | Degraded

  class Cache {
    var apps: map<Key, App>
    var lastEventAt: map<Key, Time>
    var lastLoaded: Option<Time>
    var lastUpdated: Option<Time>
    var lastLoadErr: Option<string>
    var status: Health

    function Model(): State
      reads this
    {
      State(apps, lastEventAt)
    }

    constructor ()
      ensures Model() == Empty
      ensures lastLoaded.None? && lastUpdated.None? && lastLoadErr.None? && status == NotConfigured
    {
      apps, lastEventAt := map[], map[];
      lastLoaded, lastUpdated, lastLoadErr, status := None, None, None, NotConfigured;
    }

    method ReplaceAll(snapshot: seq<App>, loadedAt: Time)
      modifies this
      ensures Model() == Step(old(Model()), Replace(snapshot, loadedAt)).0
      ensures lastLoaded == lastUpdated == Some(loadedAt) && lastLoadErr.None? && status == Healthy
    {
      var normalized, times := ReadSnapshot(snapshot);
      apps := normalized;
      var kept := Retained(lastEventAt, normalized.Keys, loadedAt - RETENTION);
      lastEventAt := Raised(kept, times);
      lastLoaded, lastUpdated, lastLoadErr, status := Some(loadedAt), Some(loadedAt), None, Healthy;
    }

    static method ReadSnapshot(snapshot: seq<App>) returns (normalized: map<Key, App>, times: map<Key, Time>)
      ensures normalized == Normalized(snapshot) && times == SnapshotTimes(snapshot)
    {
      normalized, times := map[], map[];
      for i := 0 to |snapshot|
        invariant normalized == Normalized(snapshot[..i]) && times == SnapshotTimes(snapshot[..i])
      {
        assert snapshot[..i + 1][..i] == snapshot[..i];
        match Normalize(snapshot[i])
        case Err(_) =>
        case Ok(next) =>
          normalized := normalized[KeyFor(next) := next];
          if next.updatedAt.At? {
            times := times[KeyFor(next) := next.updatedAt.instant];
          }
      }
      assert snapshot[..|snapshot|] == snapshot;
    }

    static method Retained(marks: map<Key, Time>, listed: set<Key>, cutoff: Time) returns (next: map<Key, Time>)
      ensures next == map k | k in marks && (k in listed || marks[k] > cutoff) :: marks[k]
    {
      next := map[];
      var todo := marks.Keys;
      while todo != {}
        invariant todo <= marks.Keys
        invariant next == map k | k in marks.Keys - todo && (k in listed || marks[k] > cutoff) :: marks[k]
      {
        var key :| key in todo;
        todo := todo - {key};
        if key in listed || marks[key] > cutoff {
          next := next[key := marks[key]];
        }
      }
    }

    static method Raised(kept: map<Key, Time>, times: map<Key, Time>) returns (next: map<Key, Time>)
      ensures next == RaisedMarks(kept, times)
    {
      next := kept;
      var todo := times.Keys;
      while todo != {}
        invariant todo <= times.Keys
        invariant next == RaisedMarks(kept, map k | k in times.Keys - todo :: times[k])
      {
        var key :| key in todo;
        todo := todo - {key};
        next := Remember(next, key, times[key]);
      }
      assert times == map k | k in times.Keys - todo :: times[k];
    }

    method PruneExpiredTombstones(now: Time)
      modifies this`lastEventAt
      ensures Model() == Prune(old(Model()), now)
    {
      var cutoff := now - RETENTION;
      var todo := lastEventAt.Keys;
      ghost var was := lastEventAt;
      while todo != {}
        invariant todo <= was.Keys
        invariant lastEventAt == map k | k in was && (k in todo || k in apps || was[k] >= cutoff) :: was[k]
      {
        var key :| key in todo;
        todo := todo - {key};
        if key !in apps && lastEventAt[key] < cutoff {
          lastEventAt := lastEventAt - {key};
        }
      }
    }

    /** Returns the app now served for the key (the incoming one where the key is absent). */
    method UpsertApp(app: App, updatedAt: Time) returns (served: Option<App>, outcome: Outcome)
      modifies this
      ensures (Model(), outcome) == Step(old(Model()), Upsert(app))
      ensures served.None? <==> outcome.Rejected?
      ensures served.Some? && KeyFor(served.value) in apps ==>
                outcome == Ignored || served.value == apps[KeyFor(served.value)]
      ensures outcome == Applied ==> KeyFor(served.value) in apps && lastUpdated == Some(updatedAt)
      ensures outcome == Applied ==> Accept(app) == Ok(served.value) && AnswerTo(Model(), served.value) == served.value
      ensures outcome == Ignored ==>
                Accept(app).Ok? && served == Some(AnswerTo(old(Model()), Accept(app).value)) && apps == old(apps)
      ensures outcome != Applied ==> lastUpdated == old(lastUpdated) && lastLoadErr == old(lastLoadErr)
      ensures status == old(status) && lastLoaded == old(lastLoaded)
    {
      match Accept(app)
      case Err(e) => return None, Rejected(e);
      case Ok(normalized) =>
        var eventAt := normalized.updatedAt.instant;
        PruneExpiredTombstones(eventAt);
        var key := KeyFor(normalized);
        if key in lastEventAt && eventAt < lastEventAt[key] {
          return Some(if key in apps then apps[key] else normalized), Ignored;
        }
        if key in apps {
          match ShouldApply(apps[key], normalized)
          case Err(e) => return None, Rejected(e);
          case Ok(apply) => if !apply { return Some(apps[key]), Ignored; }
        }
        apps := apps[key := normalized];
        lastEventAt := Remember(lastEventAt, key, eventAt);
        MarkUpdated(updatedAt);
        return Some(normalized), Applied;
    }

    /** Deleting an absent key succeeds; `existed` says whether anything was removed. */
    method DeleteApp(app: App, updatedAt: Time) returns (existed: bool, outcome: Outcome)
      modifies this
      ensures (Model(), outcome) == Step(old(Model()), Delete(app))
      ensures existed <==> apps != old(apps)
      ensures outcome == Applied ==> lastUpdated == Some(updatedAt)
      ensures outcome != Applied ==> lastUpdated == old(lastUpdated) && lastLoadErr == old(lastLoadErr)
      ensures status == old(status) && lastLoaded == old(lastLoaded)
    {
      match Accept(app)
      case Err(e) => return false, Rejected(e);
      case Ok(normalized) =>
        var eventAt := normalized.updatedAt.instant;
        PruneExpiredTombstones(eventAt);
        var key := KeyFor(normalized);
        if key in lastEventAt && eventAt < lastEventAt[key] {
          return false, Ignored;
        }
        if key in apps {
          match ShouldApply(apps[key], normalized)
          case Err(e) => return false, Rejected(e);
          case Ok(apply) => if !apply { return false, Ignored; }
        }
        existed := key in apps;
        apps := apps - {key};
        lastEventAt := Remember(lastEventAt, key, eventAt);
        MarkUpdated(updatedAt);
        return existed, Applied;
    }

    method MarkUpdated(updatedAt: Time)
      modifies this`lastUpdated, this`lastLoadErr
      ensures lastUpdated == Some(updatedAt)
      ensures lastLoadErr == if status == Healthy then None else old(lastLoadErr)
    {
      lastUpdated := Some(updatedAt);
      if status == Healthy {
        lastLoadErr := None;
      }
    }

    method MarkLoadSkipped()
      modifies this`status, this`lastLoadErr
      ensures status == NotConfigured && lastLoadErr.None?
    {
      status, lastLoadErr := NotConfigured, None;
    }

    method MarkLoadFailed(err: string)
      modifies this`status, this`lastLoadErr
      ensures status == Degraded && lastLoadErr == Some(err)
    {
      status, lastLoadErr := Degraded, Some(err);
    }
  }

  // ---------------------------------------------------------------------------
  // Every reachable state
  // ---------------------------------------------------------------------------

  function Run(s: State, ops: seq<Op>): State
  {
    if ops == [] then s else Step(Run(s, ops[..|ops| - 1]), ops[|ops| - 1]).0
  }

  /** Stored apps sit under their own key, and a stored event time never exceeds the key's watermark. */
  ghost predicate Consistent(s: State)
  {
    forall k :: k in s.apps ==>
      && KeyFor(s.apps[k]) == k
      && !s.apps[k].updatedAt.Malformed?
      && (s.apps[k].updatedAt.At? ==> k in s.marks && s.apps[k].updatedAt.instant <= s.marks[k])
  }

  lemma {:induction false} SnapshotConsistent(apps: seq<App>)
    ensures var listed, times := Normalized(apps), SnapshotTimes(apps);
            && times.Keys <= listed.Keys
            && forall k :: k in listed ==>
                 && KeyFor(listed[k]) == k
                 && !listed[k].updatedAt.Malformed?
                 && (listed[k].updatedAt.At? ==> k in times && listed[k].updatedAt.instant == times[k])
  {
    if apps != [] {
      SnapshotConsistent(apps[..|apps| - 1]);
    }
  }

  lemma StepConsistent(s: State, op: Op)
    requires Consistent(s)
    ensures Consistent(Step(s, op).0)
  {
    if op.Replace? {
      SnapshotConsistent(op.snapshot);
    }
  }

  lemma {:induction false} RunConsistent(ops: seq<Op>)
    ensures Consistent(Run(Empty, ops))
  {
    if ops != [] {
      RunConsistent(ops[..|ops| - 1]);
      StepConsistent(Run(Empty, ops[..|ops| - 1]), ops[|ops| - 1]);
    }
  }

  /** In every reachable state the stored app's own time never rejects what the watermark let through. */
  lemma WatermarkDecidesAlone(ops: seq<Op>, app: App)
    requires Accept(app).Ok?
    ensures var event := Accept(app).value;
            var s := Prune(Run(Empty, ops), event.updatedAt.instant);
            var k := KeyFor(event);
            Passes(s, event) == Ok(!(k in s.marks && event.updatedAt.instant < s.marks[k]))
  {
    RunConsistent(ops);
  }

  // ---------------------------------------------------------------------------
  // What a bulk load leaves behind
  // ---------------------------------------------------------------------------

  /** Entry `i` of the listing is well-formed and names this key. */
  predicate Lists(apps: seq<App>, i: int, k: Key)
  {
    && 0 <= i < |apps| && Normalize(apps[i]).Ok?
    && var n := Normalize(apps[i]).value; n.org == k.org && n.project == k.project && n.service == k.service
  }

  /** The last entry that does. */
  ghost predicate LastListed(apps: seq<App>, i: int, k: Key)
  {
    Lists(apps, i, k) && forall j :: i < j < |apps| ==> !Lists(apps, j, k)
  }

  /** It does and carries a time. */
  predicate Dates(apps: seq<App>, i: int, k: Key)
  {
    Lists(apps, i, k) && apps[i].updatedAt.At?
  }

  /** The last entry that does both. */
  ghost predicate LastDated(apps: seq<App>, i: int, k: Key)
  {
    Dates(apps, i, k) && forall j :: i < j < |apps| ==> !Dates(apps, j, k)
  }

  lemma {:induction false} ListedByIndex(apps: seq<App>, k: Key)
    ensures k in Normalized(apps) <==> exists i :: Lists(apps, i, k)
  {
    if apps != [] {
      hide Normalize, Lists, Normalized;
      var n := |apps|;
      ListedByIndex(apps[..n - 1], k);
      NormalizedSnoc(apps, k);
      ListsBefore(apps, k);
    }
  }

  lemma {:induction false} LastListedStands(apps: seq<App>, i: int, k: Key)
    requires LastListed(apps, i, k)
    ensures k in Normalized(apps) && Normalized(apps)[k] == Normalize(apps[i]).value
  {
    hide Normalize, Normalized;
    var n := |apps|;
    NormalizedSnoc(apps, k);
    if i < n - 1 {
      ListsBefore(apps, k);
      assert LastListed(apps[..n - 1], i, k);
      LastListedStands(apps[..n - 1], i, k);
    }
  }

  lemma {:induction false} DatedByIndex(apps: seq<App>, k: Key)
    ensures k in SnapshotTimes(apps) <==> exists i :: Dates(apps, i, k)
  {
    if apps != [] {
      hide Normalize, Lists, Dates, SnapshotTimes;
      var n := |apps|;
      DatedByIndex(apps[..n - 1], k);
      TimesSnoc(apps, k);
      DatesBefore(apps, k);
    }
  }

  lemma {:induction false} LastDatedStands(apps: seq<App>, i: int, k: Key)
    requires LastDated(apps, i, k)
    ensures k in SnapshotTimes(apps) && SnapshotTimes(apps)[k] == apps[i].updatedAt.instant
  {
    hide Normalize, SnapshotTimes;
    var n := |apps|;
    TimesSnoc(apps, k);
    if i < n - 1 {
      DatesBefore(apps, k);
      assert LastDated(apps[..n - 1], i, k);
      LastDatedStands(apps[..n - 1], i, k);
    }
  }

  lemma DatesBefore(apps: seq<App>, k: Key)
    requires apps != []
    ensures forall i :: 0 <= i < |apps| - 1 ==>
              (Dates(apps, i, k) <==> Dates(apps[..|apps| - 1], i, k)) && apps[..|apps| - 1][i] == apps[i]
    ensures forall i :: Dates(apps[..|apps| - 1], i, k) ==> Dates(apps, i, k)
    ensures forall i :: Dates(apps, i, k) ==> 0 <= i < |apps| && (i < |apps| - 1 ==> Dates(apps[..|apps| - 1], i, k))
  {
    ListsBefore(apps, k);
    hide Normalize;
  }

  lemma ListsBefore(apps: seq<App>, k: Key)
    requires apps != []
    ensures forall i :: 0 <= i < |apps| - 1 ==>
              (Lists(apps, i, k) <==> Lists(apps[..|apps| - 1], i, k)) && apps[..|apps| - 1][i] == apps[i]
    ensures forall i :: Lists(apps[..|apps| - 1], i, k) ==> Lists(apps, i, k)
    ensures forall i :: Lists(apps, i, k) ==> 0 <= i < |apps| && (i < |apps| - 1 ==> Lists(apps[..|apps| - 1], i, k))
  {
    hide Normalize;
  }

  lemma NormalizedSnoc(apps: seq<App>, k: Key)
    requires apps != []
    ensures var n, listed := |apps|, Normalized(apps[..|apps| - 1]);
            if Lists(apps, n - 1, k) then k in Normalized(apps) && Normalized(apps)[k] == Normalize(apps[n - 1]).value
            else (k in Normalized(apps) <==> k in listed) && (k in listed ==> Normalized(apps)[k] == listed[k])
  {
    hide Normalize;
  }

  lemma TimesSnoc(apps: seq<App>, k: Key)
    requires apps != []
    ensures var n, times := |apps|, SnapshotTimes(apps[..|apps| - 1]);
            if Dates(apps, n - 1, k)
            then k in SnapshotTimes(apps) && SnapshotTimes(apps)[k] == apps[n - 1].updatedAt.instant
            else (k in SnapshotTimes(apps) <==> k in times) && (k in times ==> SnapshotTimes(apps)[k] == times[k])
  {
    if Normalize(apps[|apps| - 1]).Ok? {
      assert Normalize(apps[|apps| - 1]).value.updatedAt == apps[|apps| - 1].updatedAt;
    }
    hide Normalize;
  }

  function Later(a: Option<Time>, b: Option<Time>): Option<Time>
  {
    if a.None? then b else if b.None? then a else if b.value > a.value then b else a
  }

  function MarkOf(s: State, k: Key): Option<Time>
  {
    if k in s.marks then Some(s.marks[k]) else None
  }

  /**
   After a bulk load a key is served exactly when some well-formed entry names it, as the
   last such entry says. Its watermark is the later of what it was and the time of its last
   dated entry; that of a key no longer listed is kept for a day.
   */
  lemma ReplaceServesListing(s: State, apps: seq<App>, loadedAt: Time, k: Key)
    ensures var s' := Step(s, Replace(apps, loadedAt)).0;
            && (k in s'.apps <==> exists i :: Lists(apps, i, k))
            && (forall i :: LastListed(apps, i, k) ==> s'.apps[k] == Normalize(apps[i]).value)
            && (forall i :: LastDated(apps, i, k) ==>
                  MarkOf(s', k) == Later(MarkOf(s, k), Some(apps[i].updatedAt.instant)))
            && (k in s'.apps && (forall i :: !Dates(apps, i, k)) ==> MarkOf(s', k) == MarkOf(s, k))
            && (k !in s'.apps ==>
                  MarkOf(s', k) ==
                  if k in s.marks && s.marks[k] + 86_400_000_000_000 > loadedAt then MarkOf(s, k) else None)
  {
    hide Step, Normalize, Lists, Dates, LastListed, LastDated, MarkOf;
    ReplaceServesApps(s, apps, loadedAt, k);
    ReplaceRaisesMarks(s, apps, loadedAt, k);
  }

  lemma ReplaceServesApps(s: State, apps: seq<App>, loadedAt: Time, k: Key)
    ensures var s' := Step(s, Replace(apps, loadedAt)).0;
            && (k in s'.apps <==> exists i :: Lists(apps, i, k))
            && (forall i :: LastListed(apps, i, k) ==> k in s'.apps && s'.apps[k] == Normalize(apps[i]).value)
  {
    hide Normalize, Normalized, SnapshotTimes, Lists;
    ListedByIndex(apps, k);
    forall i | LastListed(apps, i, k) { LastListedStands(apps, i, k); }
  }

  lemma ReplaceRaisesMarks(s: State, apps: seq<App>, loadedAt: Time, k: Key)
    ensures var s' := Step(s, Replace(apps, loadedAt)).0;
            && (forall i :: LastDated(apps, i, k) ==>
                  MarkOf(s', k) == Later(MarkOf(s, k), Some(apps[i].updatedAt.instant)))
            && (k in s'.apps && (forall i :: !Dates(apps, i, k)) ==> MarkOf(s', k) == MarkOf(s, k))
            && (k !in s'.apps ==>
                  MarkOf(s', k) ==
                  if k in s.marks && s.marks[k] + 86_400_000_000_000 > loadedAt then MarkOf(s, k) else None)
  {
    DatedByIndex(apps, k);
    SnapshotConsistent(apps);
    MarkAfterReload(s, apps, loadedAt, k);
    hide Step, Normalize, Normalized, SnapshotTimes, Lists, Dates;
    forall i | LastDated(apps, i, k) { LastDatedStands(apps, i, k); }
  }

  lemma MarkAfterReload(s: State, apps: seq<App>, loadedAt: Time, k: Key)
    ensures var s', times, listed := Step(s, Replace(apps, loadedAt)).0, SnapshotTimes(apps), Normalized(apps);
            && s'.apps == listed
            && MarkOf(s', k) ==
               Later(if k in s.marks && (k in listed || s.marks[k] + 86_400_000_000_000 > loadedAt)
                     then MarkOf(s, k) else None,
                     if k in times then Some(times[k]) else None)
  {
    hide Normalize, Normalized, SnapshotTimes;
  }

  /** An event that is ignored is answered with the app that is served, or with itself if there is none. */
  function AnswerTo(s: State, event: App): App
  {
    var k := Key(event.org, event.project, event.service);
    if k in s.apps then s.apps[k] else event
  }

  // ---------------------------------------------------------------------------
  // No resurrection
  // ---------------------------------------------------------------------------

  ghost predicate Guarded(s: State, k: Key, t: Time)
  {
    k in s.marks && s.marks[k] >= t
  }

  /** The two ways in which the cache may forget that key `k` was touched at `t`. */
  ghost predicate Forgets(s: State, op: Op, k: Key, t: Time)
  {
    k !in Step(s, op).0.apps &&
    if op.Replace? then op.loadedAt >= t + RETENTION
    else Accept(op.app).Ok? && op.app.updatedAt.instant > t + RETENTION && KeyFor(Accept(op.app).value) != k
  }

  lemma StepKeepsGuard(s: State, op: Op, k: Key, t: Time)
    requires Guarded(s, k, t) && !Forgets(s, op, k, t)
    ensures Guarded(Step(s, op).0, k, t)
    ensures op.Upsert? && Accept(op.app).Ok? && KeyFor(Accept(op.app).value) == k && op.app.updatedAt.instant < t
            ==> Step(s, op).1 != Applied
  {
    if op.Replace? {
      SnapshotConsistent(op.snapshot);
    }
  }

  ghost predicate NeverForgets(s: State, ops: seq<Op>, k: Key, t: Time)
  {
    forall i :: 0 <= i < |ops| ==> !Forgets(Run(s, ops[..i]), ops[i], k, t)
  }

  lemma {:induction false} RunKeepsGuard(s: State, ops: seq<Op>, k: Key, t: Time)
    requires Guarded(s, k, t) && NeverForgets(s, ops, k, t)
    ensures Guarded(Run(s, ops), k, t)
  {
    if ops != [] {
      var init := ops[..|ops| - 1];
      forall i | 0 <= i < |init| ensures !Forgets(Run(s, init[..i]), init[i], k, t) {
        assert init[..i] == ops[..i];
      }
      RunKeepsGuard(s, init, k, t);
      StepKeepsGuard(Run(s, init), ops[|ops| - 1], k, t);
    }
  }

  /**
   Once a delete stamped t is applied, no upsert of that key stamped before t is
   applied, however many operations come in between, until one of them forgets t.
   */
  lemma NoResurrection(s: State, gone: App, ops: seq<Op>, late: App)
    requires Step(s, Delete(gone)).1 == Applied
    requires Accept(late).Ok? && KeyFor(Accept(late).value) == KeyFor(Accept(gone).value)
    requires late.updatedAt.instant < gone.updatedAt.instant
    requires NeverForgets(Step(s, Delete(gone)).0, ops, KeyFor(Accept(gone).value), gone.updatedAt.instant)
    ensures Step(Run(Step(s, Delete(gone)).0, ops), Upsert(late)).1 != Applied
  {
    var k, t := KeyFor(Accept(gone).value), gone.updatedAt.instant;
    var after := Step(s, Delete(gone)).0;
    RunKeepsGuard(after, ops, k, t);
    StepKeepsGuard(Run(after, ops), Upsert(late), k, t);
  }

  /** The bound is tight: an operation that forgets the delete lets a stale upsert through. */
  lemma ForgettingAdmitsStaleUpsert(s: State, op: Op, late: App, t: Time)
    requires Accept(late).Ok? && late.updatedAt.instant < t
    requires var k := KeyFor(Accept(late).value); k !in s.apps && k in s.marks && s.marks[k] == t
    requires Forgets(s, op, KeyFor(Accept(late).value), t)
    ensures Step(Step(s, op).0, Upsert(late)).1 == Applied
  {
    if op.Replace? {
      SnapshotConsistent(op.snapshot);
    }
  }

  // ---------------------------------------------------------------------------
  // Convergence
  // ---------------------------------------------------------------------------

  ghost predicate EventsOnly(ops: seq<Op>)
  {
    forall op :: op in ops ==> !op.Replace?
  }

  predicate On(op: Op, k: Key)
  {
    !op.Replace? && Accept(op.app).Ok? && KeyFor(Accept(op.app).value) == k
  }

  function TimeOf(op: Op): Time
    requires !op.Replace? && Accept(op.app).Ok?
  {
    op.app.updatedAt.instant
  }

  /** `op` is a newest event on key `k` among those delivered. */
  ghost predicate Newest(ops: seq<Op>, k: Key, op: Op)
  {
    op in ops && On(op, k) && forall e :: e in ops && On(e, k) ==> TimeOf(e) <= TimeOf(op)
  }

  /** Two events of one key and time leave the same entry behind. */
  predicate SameEffect(a: Op, b: Op)
    requires !a.Replace? && !b.Replace?
  {
    a.Upsert? == b.Upsert? && (a.Upsert? ==> Accept(a.app) == Accept(b.app))
  }

  /** All newest events of a key have the same effect. */
  ghost predicate NewestAgree(ops: seq<Op>)
    requires EventsOnly(ops)
  {
    forall k, a, b :: Newest(ops, k, a) && Newest(ops, k, b) ==> SameEffect(a, b)
  }

  /** No event is stamped so late that it expires the tombstone a key ends with. */
  ghost predicate TombstonesOutlast(ops: seq<Op>)
  {
    forall k, a, e :: Newest(ops, k, a) && a.Delete? && e in ops && !e.Replace? && Accept(e.app).Ok? ==>
      TimeOf(e) <= TimeOf(a) + RETENTION
  }

  ghost predicate SameEvents(ops: seq<Op>, other: seq<Op>)
  {
    forall op :: op in ops <==> op in other
  }

  /** A key's part of the state is what its newest event alone dictates. */
  ghost predicate Dictated(s: State, k: Key, op: Op)
    requires On(op, k)
  {
    && k in s.marks && s.marks[k] == TimeOf(op)
    && (if op.Upsert? then k in s.apps && s.apps[k] == Accept(op.app).value else k !in s.apps)
  }

  ghost predicate Untouched(s: State, k: Key)
  {
    k !in s.marks && k !in s.apps
  }

  /** The state holds each key's newest event and nothing else. */
  ghost predicate Converged(s: State, ops: seq<Op>)
  {
    forall k :: ConvergedAt(s, ops, k)
  }

  ghost predicate ConvergedAt(s: State, ops: seq<Op>, k: Key)
  {
    && (forall op :: Newest(ops, k, op) ==> Dictated(s, k, op))
    && ((forall op :: op in ops ==> !On(op, k)) ==> Untouched(s, k))
  }

  lemma {:induction false} NewestExists(ops: seq<Op>, k: Key, some: Op) returns (op: Op)
    requires some in ops && On(some, k)
    ensures Newest(ops, k, op)
  {
    var init, last := ops[..|ops| - 1], ops[|ops| - 1];
    assert ops == init + [last];
    if other :| other in init && On(other, k) {
      op := NewestExists(init, k, other);
      if On(last, k) && TimeOf(last) > TimeOf(op) {
        op := last;
      }
    } else {
      op := last;
    }
  }

  /**
   Part of the way through `all`: a key is as its newest event `a` dictates once an event as
   new has been delivered, and its watermark is older than `a` before that.
   */
  ghost predicate OnItsWay(s: State, seen: bool, k: Key, a: Op)
    requires On(a, k)
  {
    if seen then Dictated(s, k, a) else k in s.marks ==> s.marks[k] < TimeOf(a)
  }

  lemma StepOnItsWay(s: State, seen: bool, k: Key, a: Op, last: Op)
    requires Consistent(s) && On(a, k) && OnItsWay(s, seen, k, a) && !last.Replace?
    requires On(last, k) ==> TimeOf(last) <= TimeOf(a) && (TimeOf(last) == TimeOf(a) ==> SameEffect(last, a))
    requires a.Delete? && Accept(last.app).Ok? ==> TimeOf(last) <= TimeOf(a) + RETENTION
    ensures OnItsWay(Step(s, last).0, seen || (On(last, k) && TimeOf(last) == TimeOf(a)), k, a)
  {
  }

  /** An event as new as the newest one of the key has been delivered. */
  ghost predicate Delivered(ops: seq<Op>, k: Key, a: Op)
    requires On(a, k)
  {
    exists e :: e in ops && On(e, k) && TimeOf(e) == TimeOf(a)
  }

  lemma {:induction false} RunOnItsWay(all: seq<Op>, ops: seq<Op>, k: Key, a: Op)
    requires EventsOnly(all) && NewestAgree(all) && TombstonesOutlast(all) && Newest(all, k, a)
    requires forall op :: op in ops ==> op in all
    ensures OnItsWay(Run(Empty, ops), Delivered(ops, k, a), k, a)
  {
    if ops != [] {
      var init, last := ops[..|ops| - 1], ops[|ops| - 1];
      assert ops == init + [last];
      RunOnItsWay(all, init, k, a);
      RunConsistent(init);
      assert last in all;
      if On(last, k) && TimeOf(last) == TimeOf(a) {
        assert Newest(all, k, last);
      }
      StepOnItsWay(Run(Empty, init), Delivered(init, k, a), k, a, last);
      assert Delivered(ops, k, a) <==> Delivered(init, k, a) || (On(last, k) && TimeOf(last) == TimeOf(a));
    }
  }

  lemma {:induction false} NothingTouches(ops: seq<Op>, k: Key)
    requires EventsOnly(ops) && forall op :: op in ops ==> !On(op, k)
    ensures Untouched(Run(Empty, ops), k)
  {
    if ops != [] {
      var init, last := ops[..|ops| - 1], ops[|ops| - 1];
      assert ops == init + [last];
      NothingTouches(init, k);
    }
  }

  /** Under the two conditions every key ends as its newest event dictates. */
  lemma RunConverges(ops: seq<Op>)
    requires EventsOnly(ops) && NewestAgree(ops) && TombstonesOutlast(ops)
    ensures Converged(Run(Empty, ops), ops)
  {
    forall k ensures ConvergedAt(Run(Empty, ops), ops, k) {
      forall op | Newest(ops, k, op) ensures Dictated(Run(Empty, ops), k, op) {
        RunOnItsWay(ops, ops, k, op);
      }
      if forall op :: op in ops ==> !On(op, k) {
        NothingTouches(ops, k);
      }
    }
  }

  lemma SameEventsSameConditions(ops: seq<Op>, other: seq<Op>)
    requires EventsOnly(ops) && SameEvents(ops, other)
    ensures EventsOnly(other)
    ensures forall k, op :: Newest(ops, k, op) <==> Newest(other, k, op)
    ensures NewestAgree(ops) <==> NewestAgree(other)
    ensures TombstonesOutlast(ops) <==> TombstonesOutlast(other)
  {
  }

  lemma ConvergedIsUnique(s: State, s': State, ops: seq<Op>)
    requires Converged(s, ops) && Converged(s', ops)
    ensures s == s'
  {
    forall k
      ensures (k in s.marks <==> k in s'.marks) && (k in s.marks ==> s.marks[k] == s'.marks[k])
      ensures (k in s.apps <==> k in s'.apps) && (k in s.apps ==> s.apps[k] == s'.apps[k])
    {
      assert ConvergedAt(s, ops, k) && ConvergedAt(s', ops, k);
      if some :| some in ops && On(some, k) {
        var op := NewestExists(ops, k, some);
        assert Dictated(s, k, op) && Dictated(s', k, op);
      }
    }
    assert s.marks == s'.marks && s.apps == s'.apps;
  }

  lemma {:induction false} MarksWithinNewest(ops: seq<Op>, k: Key, t: Time)
    requires EventsOnly(ops) && forall e :: e in ops && On(e, k) ==> TimeOf(e) <= t
    ensures k in Run(Empty, ops).marks ==> Run(Empty, ops).marks[k] <= t
  {
    if ops != [] {
      var init, last := ops[..|ops| - 1], ops[|ops| - 1];
      assert ops == init + [last];
      MarksWithinNewest(init, k, t);
    }
  }

  /** Delivering a newest event once more makes its key what it dictates. */
  lemma NewestLastDictates(ops: seq<Op>, k: Key, a: Op)
    requires EventsOnly(ops) && Newest(ops, k, a)
    ensures Run(Empty, ops + [a]) == Step(Run(Empty, ops), a).0
    ensures Dictated(Run(Empty, ops + [a]), k, a)
  {
    assert (ops + [a])[..|ops|] == ops;
    MarksWithinNewest(ops, k, TimeOf(a));
    RunConsistent(ops);
  }

  /** Newest events of one key that differ in effect: whichever of them comes last wins. */
  lemma TieBreaksConvergence(ops: seq<Op>, k: Key, a: Op, b: Op)
    requires EventsOnly(ops) && Newest(ops, k, a) && Newest(ops, k, b) && !SameEffect(a, b)
    ensures SameEvents(ops + [a], ops + [b]) && Run(Empty, ops + [a]) != Run(Empty, ops + [b])
  {
    NewestLastDictates(ops, k, a);
    NewestLastDictates(ops, k, b);
  }

  /** An event beyond the retention of a final tombstone: delivered last it expires the tombstone. */
  lemma SpanIsNeeded(ops: seq<Op>, k: Key, a: Op, e: Op)
    requires EventsOnly(ops) && Newest(ops, k, a) && a.Delete?
    requires e in ops && Accept(e.app).Ok? && TimeOf(e) > TimeOf(a) + RETENTION
    ensures SameEvents(ops + [a], ops + [a] + [e]) && Run(Empty, ops + [a]) != Run(Empty, ops + [a] + [e])
  {
    NewestLastDictates(ops, k, a);
    assert (ops + [a] + [e])[..|ops| + 1] == ops + [a];
    assert Run(Empty, ops + [a] + [e]) == Step(Run(Empty, ops + [a]), e).0;
    assert !On(e, k);
    assert k !in Run(Empty, ops + [a] + [e]).marks;
  }

  ghost predicate OrderIrrelevant(ops: seq<Op>)
  {
    forall other :: SameEvents(ops, other) ==> Run(Empty, other) == Run(Empty, ops)
  }

  /**
   Every delivery of the same events, in any order and with any repetition, ends in the
   same cache if and only if the newest events of each key agree and no event expires the
   tombstone that a key ends with.
   */
  lemma ConvergesExactly(ops: seq<Op>)
    requires EventsOnly(ops)
    ensures OrderIrrelevant(ops) <==> NewestAgree(ops) && TombstonesOutlast(ops)
  {
    if NewestAgree(ops) && TombstonesOutlast(ops) {
      forall other | SameEvents(ops, other) ensures Run(Empty, other) == Run(Empty, ops) {
        hide NewestAgree, TombstonesOutlast;
        SameEventsSameConditions(ops, other);
        RunConverges(ops);
        RunConverges(other);
        SameConverged(Run(Empty, other), ops, other);
        ConvergedIsUnique(Run(Empty, ops), Run(Empty, other), ops);
      }
    }
    if OrderIrrelevant(ops) {
      ConditionsAreNeeded(ops);
    }
  }

  lemma ConditionsAreNeeded(ops: seq<Op>)
    requires EventsOnly(ops) && OrderIrrelevant(ops)
    ensures NewestAgree(ops) && TombstonesOutlast(ops)
  {
    hide Run;
    forall k, a, b | Newest(ops, k, a) && Newest(ops, k, b) ensures SameEffect(a, b) {
      assert SameEvents(ops, ops + [a]) && SameEvents(ops, ops + [b]);
      if !SameEffect(a, b) {
        TieBreaksConvergence(ops, k, a, b);
      }
    }
    forall k, a, e | Newest(ops, k, a) && a.Delete? && e in ops && !e.Replace? && Accept(e.app).Ok?
      ensures TimeOf(e) <= TimeOf(a) + RETENTION
    {
      assert SameEvents(ops, ops + [a]) && SameEvents(ops, ops + [a] + [e]);
      if TimeOf(e) > TimeOf(a) + RETENTION {
        SpanIsNeeded(ops, k, a, e);
      }
    }
  }

  lemma SameConverged(s: State, ops: seq<Op>, other: seq<Op>)
    requires EventsOnly(ops) && SameEvents(ops, other) && Converged(s, other)
    ensures Converged(s, ops)
  {
    SameEventsSameConditions(ops, other);
    forall k ensures ConvergedAt(s, ops, k) {
      assert ConvergedAt(s, other, k);
    }
  }

  /** All acceptable events lie within one retention span from `start`. */
  ghost predicate WithinSpan(ops: seq<Op>, start: Time)
  {
    forall op :: op in ops && !op.Replace? && Accept(op.app).Ok? ==> start <= TimeOf(op) <= start + RETENTION
  }

  /** No two different events on one key share an event time. */
  ghost predicate NoTies(ops: seq<Op>)
  {
    forall k, a, b :: a in ops && b in ops && On(a, k) && On(b, k) && TimeOf(a) == TimeOf(b) ==> SameEffect(a, b)
  }

  /** In particular, within one retention span and without ties the order of delivery does not matter. */
  lemma DeliveryOrderDoesNotMatter(ops: seq<Op>, other: seq<Op>, start: Time)
    requires EventsOnly(ops) && SameEvents(ops, other) && WithinSpan(ops, start) && NoTies(ops)
    ensures Run(Empty, ops) == Run(Empty, other)
  {
    ConvergesExactly(ops);
  }
}
