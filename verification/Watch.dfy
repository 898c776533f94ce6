/**
 Long-poll watching as interleaved steps: one reloader that stores a new snapshot
 and only afterwards closes and replaces the wake-up channel, and any number of
 watchers that may run between any two of its steps.
 */
module Watch {
  import opened Common
  import opened Git
  import opened Serving
  import Snapshots
  import VersionTokens

  /** What a watcher asks for: one resource of one service, as stored or with defaults inherited. */
  datatype Target = Target(svc: Service, kind: VersionTokens.Resource, inherit: bool)

  /** What a snapshot says of a target's service: its raw token, and whether defaults contribute. */
  datatype Seen = Seen(token: History, contributes: bool)

  function SeenOf(s: Snapshot, t: Target): Option<Seen>
  {
    if t.svc !in s.data then None
    else Some(Seen(VersionTokens.ViewToken(s, t.svc, t.kind, false), VersionTokens.Contributes(s.data[t.svc], t.kind)))
  }

  /**
   The token a watcher works out, if the service exists: raw token and HEAD from one
   snapshot and, for an inherited target, the sources from a second, possibly later one.
   */
  function Combined(first: Snapshot, second: Snapshot, t: Target): Option<History>
  {
    if SeenOf(first, t).None? then None
    else if !t.inherit then Some(SeenOf(first, t).value.token)
    else if SeenOf(second, t).None? then None
    else if SeenOf(second, t).value.contributes then Some(first.version)
    else Some(SeenOf(first, t).value.token)
  }

  /** The token of a target in one snapshot. */
  function TokenOf(s: Snapshot, t: Target): Option<History>
  {
    Combined(s, s, t)
  }

  lemma TokenOfIsViewToken(s: Snapshot, t: Target)
    ensures TokenOf(s, t) ==
            if t.svc in s.data then Some(VersionTokens.ViewToken(s, t.svc, t.kind, t.inherit)) else None
  {
  }

  type Id = nat

  type Channel = nat

  // ---------------------------------------------------------------------------
  // State
  // ---------------------------------------------------------------------------

  /** Where the reloader is: idle, or between the pointer store and the end of the notification. */
  datatype Reloader =
    | Idle
    | Stored(changed: bool) // new pointer visible, outcome not yet recorded
    | Notifying             // must still take the watch mutex
    | Holding               // holds the mutex, channel still open
    | Closed                // channel closed, not yet replaced

  /** The two snapshots a token was worked out from; the same one twice for a raw target. */
  datatype Loads = Loads(read: nat, sources: nat)

  /** A wait for HEAD to differ from `head`, which the first of `loads` had; it began when `since` was current. */
  datatype Wait = Wait(head: History, loads: Loads, since: nat)

  datatype Watcher =
    | Top                            // about to read its token
    | Half(at: nat)                  // has the raw token and HEAD of snapshot `at`, about to read the sources
    | Calling(head: History, loads: Loads) // token unchanged, about to wait for a new HEAD
    | Enter(wait: Wait)              // about to take the watch mutex
    | Inside(wait: Wait)             // holds the mutex, HEAD not read
    | Read(wait: Wait)               // holds the mutex, HEAD read and not different
    | Parked(wait: Wait, on: Channel)
    | Expired(wait: Wait)            // the deadline won; one more look at HEAD
    | Woken(wait: Wait, seen: History) // the wait returned "changed" with this HEAD
    | Changed(loads: Loads)          // answered: the token worked out from these differs
    | NotFound
    | TimedOut                       // answered: not modified

  datatype Request = Request(target: Target, version: History)

  datatype Mutex = Free | ByReloader | ByWatcher(id: Id)

  datatype State = State(
    served: seq<Snapshot>,    // every snapshot stored so far, the current one last
    degraded: bool,
    reloader: Reloader,
    mutex: Mutex,
    channel: Channel,     // the current wake-up channel
    closed: set<Channel>,
    requests: map<Id, Request>,
    watchers: map<Id, Watcher>)

  function Current(s: State): Snapshot
    requires s.served != []
  {
    s.served[|s.served| - 1]
  }

  function Init(): State
  {
    State([EmptySnapshot], false, Idle, Free, 0, {}, map[], map[])
  }

  // ---------------------------------------------------------------------------
  // Steps
  // ---------------------------------------------------------------------------

  datatype ReloadStep =
    | ReloadFails
    | StorePointer(next: Snapshot)
    | RecordOutcome
    | LockToNotify
    | CloseChannel
    | ReplaceChannel

  datatype WatchStep =
    | ReadToken
    | ReadSources
    | DeadlineAtTop
    | BeginWait
    | LockToRead
    | ReadHead
    | Park
    | Wake
    | Expire
    | LastLook
    | Recheck

  datatype Step = Reload(r: ReloadStep) | Arrive(id: Id, request: Request) | Watch(id: Id, w: WatchStep)

  /**
   HEAD only moves forward, reloading the same HEAD changes nothing that is seen, and a
   token is kept or becomes the new HEAD.
   */
  ghost predicate MayFollow(before: Snapshot, next: Snapshot)
  {
    && before.version <= next.version
    && (before.version == next.version ==> forall t :: SeenOf(before, t) == SeenOf(next, t))
    && forall t :: SeenOf(next, t).Some? ==> KeptOrNew(before, next, t)
  }

  predicate KeptOrNew(before: Snapshot, next: Snapshot, t: Target)
    requires SeenOf(next, t).Some?
  {
    var token := SeenOf(next, t).value.token;
    token == next.version || (SeenOf(before, t).Some? && SeenOf(before, t).value.token == token)
  }

  ghost predicate ReloadEnabled(s: State, r: ReloadStep)
    requires s.served != []
  {
    match r
    case ReloadFails => s.reloader.Idle?
    case StorePointer(next) => s.reloader.Idle? && MayFollow(Current(s), next)
    case RecordOutcome => s.reloader.Stored?
    case LockToNotify => s.reloader.Notifying? && s.mutex.Free?
    case CloseChannel => s.reloader.Holding?
    case ReplaceChannel => s.reloader.Closed?
  }

  function ReloadNext(s: State, r: ReloadStep): State
    requires s.served != [] && ReloadEnabled(s, r)
  {
    match r
    case ReloadFails => s.(degraded := true)
    case StorePointer(next) =>
      s.(served := s.served + [next], reloader := Stored(next.version != Current(s).version))
    case RecordOutcome =>
      s.(degraded := false, reloader := if s.reloader.changed then Notifying else Idle)
    case LockToNotify => s.(reloader := Holding, mutex := ByReloader)
    case CloseChannel => s.(reloader := Closed, closed := s.closed + {s.channel})
    case ReplaceChannel => s.(reloader := Idle, mutex := Free, channel := s.channel + 1)
  }

  predicate WatchEnabled(s: State, w: Watcher, step: WatchStep)
  {
    match step
    case ReadToken => w.Top?
    case ReadSources => w.Half?
    case DeadlineAtTop => w.Top?
    case BeginWait => w.Calling?
    case LockToRead => w.Enter? && s.mutex.Free?
    case ReadHead => w.Inside?
    case Park => w.Read?
    case Wake => w.Parked? && w.on in s.closed
    case Expire => w.Parked?
    case LastLook => w.Expired? && s.mutex.Free?
    case Recheck => w.Woken?
  }

  function WatchNext(s: State, q: Request, w: Watcher, step: WatchStep): Watcher
    requires s.served != [] && WatchEnabled(s, w, step) && (w.Half? ==> w.at < |s.served|)
  {
    var now := |s.served| - 1;
    match step
    case ReadToken =>
      if SeenOf(Current(s), q.target).None? then NotFound
      else if q.target.inherit then Half(now)
      else Compare(s, q, Loads(now, now))
    case ReadSources => Compare(s, q, Loads(w.at, now))
    case DeadlineAtTop => TimedOut
    case BeginWait => Enter(Wait(w.head, w.loads, now))
    case LockToRead => Inside(w.wait)
    case ReadHead => if Current(s).version != w.wait.head then Woken(w.wait, Current(s).version) else Read(w.wait)
    case Park => Parked(w.wait, s.channel)
    case Wake => Enter(w.wait)
    case Expire => Expired(w.wait)
    case LastLook => if Current(s).version != w.wait.head then Woken(w.wait, Current(s).version) else TimedOut
    case Recheck => Top
  }

  function Compare(s: State, q: Request, loads: Loads): Watcher
    requires loads.read < |s.served| && loads.sources < |s.served|
  {
    var token := Combined(s.served[loads.read], s.served[loads.sources], q.target);
    if token.None? then NotFound
    else if token != Some(q.version) then Changed(loads)
    else Calling(s.served[loads.read].version, loads)
  }

  predicate Holds(w: Watcher)
  {
    w.Inside? || w.Read?
  }

  ghost predicate Enabled(s: State, step: Step)
    requires s.served != []
  {
    match step
    case Reload(r) => ReloadEnabled(s, r)
    case Arrive(id, _) => id !in s.watchers
    case Watch(id, w) =>
      && id in s.watchers && id in s.requests && WatchEnabled(s, s.watchers[id], w)
      && (s.watchers[id].Half? ==> s.watchers[id].at < |s.served|) // always so: see Honest
  }

  function Next(s: State, step: Step): State
    requires s.served != [] && Enabled(s, step)
  {
    match step
    case Reload(r) => ReloadNext(s, r)
    case Arrive(id, request) => s.(watchers := s.watchers[id := Top], requests := s.requests[id := request])
    case Watch(id, w) =>
      var next := WatchNext(s, s.requests[id], s.watchers[id], w);
      s.(watchers := s.watchers[id := next],
         mutex := if Holds(next) then ByWatcher(id) else if Holds(s.watchers[id]) then Free else s.mutex)
  }

  /** The states that an interleaving of enabled steps passes through. */
  ghost predicate Execution(states: seq<State>, steps: seq<Step>)
  {
    && |states| == |steps| + 1 && states[0] == Init()
    && forall i :: 0 <= i < |steps| ==>
         && states[i].served != [] && Enabled(states[i], steps[i])
         && states[i + 1] == Next(states[i], steps[i])
  }

  // ---------------------------------------------------------------------------
  // What every state satisfies
  // ---------------------------------------------------------------------------

  ghost predicate Locking(s: State)
  {
    && (s.mutex.ByReloader? <==> s.reloader.Holding? || s.reloader.Closed?)
    && (forall id :: id in s.watchers && Holds(s.watchers[id]) <==> s.mutex == ByWatcher(id))
    && (forall c: Channel :: c in s.closed <==> c < s.channel || (c == s.channel && s.reloader.Closed?))
  }

  ghost predicate Forward(s: State)
  {
    && s.served != [] && s.served[0] == EmptySnapshot
    && forall i :: 0 < i < |s.served| ==> MayFollow(s.served[i - 1], s.served[i])
  }

  /** The reloader has made a different HEAD visible and has not yet closed the channel for it. */
  predicate ClosePending(s: State)
  {
    (s.reloader.Stored? && s.reloader.changed) || s.reloader.Notifying? || s.reloader.Holding?
  }

  /** No wake-up is lost: a parked watcher's channel is closed, or will be, or there is nothing to wake for. */
  predicate Covered(s: State, w: Watcher)
    requires s.served != []
  {
    && (w.Read? ==> Current(s).version == w.wait.head || ClosePending(s))
    && (w.Parked? ==> w.on in s.closed ||
                      (w.on == s.channel && (Current(s).version == w.wait.head || ClosePending(s))))
  }

  /** A snapshot with this HEAD was current at some time since snapshot `since` was. */
  ghost predicate ServedSince(s: State, head: History, since: nat)
  {
    exists i :: since <= i < |s.served| && s.served[i].version == head
  }

  predicate HasWait(w: Watcher)
  {
    w.Enter? || w.Inside? || w.Read? || w.Parked? || w.Expired? || w.Woken?
  }

  /** The loads happened in this order, and the service was there. */
  predicate Happened(s: State, q: Request, loads: Loads)
  {
    && loads.read <= loads.sources < |s.served|
    && Combined(s.served[loads.read], s.served[loads.sources], q.target).Some?
  }

  predicate TokenRead(s: State, q: Request, head: History, loads: Loads)
  {
    && Happened(s, q, loads) && s.served[loads.read].version == head
    && Combined(s.served[loads.read], s.served[loads.sources], q.target) == Some(q.version)
  }

  /** What a watcher acts on was really served, and when it says so. */
  ghost predicate Honest(s: State, q: Request, w: Watcher)
  {
    && (w.Half? ==> w.at < |s.served| && SeenOf(s.served[w.at], q.target).Some?)
    && (w.Calling? ==> TokenRead(s, q, w.head, w.loads))
    && (HasWait(w) ==> TokenRead(s, q, w.wait.head, w.wait.loads) && w.wait.loads.sources <= w.wait.since < |s.served|)
    && (w.Woken? ==> w.seen != w.wait.head && ServedSince(s, w.seen, w.wait.since))
    && (w.Changed? ==> Happened(s, q, w.loads) &&
                       Combined(s.served[w.loads.read], s.served[w.loads.sources], q.target) != Some(q.version))
  }

  ghost predicate Inv(s: State)
  {
    && s.served != [] && Locking(s) && Forward(s)
    && s.requests.Keys == s.watchers.Keys
    && (forall id :: id in s.watchers ==> Covered(s, s.watchers[id]))
    && (forall id :: id in s.watchers ==> Honest(s, s.requests[id], s.watchers[id]))
  }

  lemma ReloadKeepsWatcher(s: State, r: ReloadStep, q: Request, w: Watcher)
    requires s.served != [] && ReloadEnabled(s, r) && Locking(s)
    requires Covered(s, w) && Honest(s, q, w) && (w.Read? ==> s.mutex.ByWatcher?)
    ensures Covered(ReloadNext(s, r), w) && Honest(ReloadNext(s, r), q, w)
  {
    var s' := ReloadNext(s, r);
    assert forall i :: 0 <= i < |s.served| ==> s'.served[i] == s.served[i];
    if w.Woken? {
      var i :| w.wait.since <= i < |s.served| && s.served[i].version == w.seen;
      assert s'.served[i].version == w.seen;
    }
  }

  lemma ReloadKeepsInv(s: State, r: ReloadStep)
    requires Inv(s) && ReloadEnabled(s, r)
    ensures Inv(ReloadNext(s, r))
  {
    forall id | id in s.watchers
      ensures Covered(ReloadNext(s, r), s.watchers[id]) && Honest(ReloadNext(s, r), s.requests[id], s.watchers[id])
    {
      ReloadKeepsWatcher(s, r, s.requests[id], s.watchers[id]);
    }
    ReloadKeepsOrder(s, r);
  }

  lemma ReloadKeepsOrder(s: State, r: ReloadStep)
    requires s.served != [] && Locking(s) && Forward(s) && ReloadEnabled(s, r)
    ensures Locking(ReloadNext(s, r)) && Forward(ReloadNext(s, r))
  {
    var s' := ReloadNext(s, r);
    forall i | 0 < i < |s'.served| ensures MayFollow(s'.served[i - 1], s'.served[i]) {
      assert i < |s.served| ==> s'.served[i] == s.served[i] && s'.served[i - 1] == s.served[i - 1];
    }
  }

  lemma WatchKeepsWatcher(s: State, q: Request, w: Watcher, step: WatchStep)
    requires s.served != [] && WatchEnabled(s, w, step) && Locking(s)
    requires Covered(s, w) && Honest(s, q, w)
    ensures Covered(s, WatchNext(s, q, w, step)) && Honest(s, q, WatchNext(s, q, w, step))
  {
    var w' := WatchNext(s, q, w, step);
    if w'.Woken? {
      assert s.served[|s.served| - 1].version == w'.seen;
    }
  }

  lemma WatchKeepsLocking(s: State, id: Id, step: WatchStep)
    requires s.served != [] && Locking(s) && Enabled(s, Watch(id, step))
    ensures Locking(Next(s, Watch(id, step)))
  {
  }

  lemma ArriveKeepsInv(s: State, id: Id, request: Request)
    requires Inv(s) && id !in s.watchers
    ensures Inv(Next(s, Arrive(id, request)))
  {
    var s' := Next(s, Arrive(id, request));
    forall other | other in s'.watchers
      ensures Covered(s', s'.watchers[other]) && Honest(s', s'.requests[other], s'.watchers[other])
    {
      if other != id {
        SameFacts(s, s', s.requests[other], s.watchers[other]);
      }
    }
  }

  lemma StepKeepsInv(s: State, step: Step)
    requires Inv(s) && Enabled(s, step)
    ensures Inv(Next(s, step))
  {
    match step
    case Reload(r) => ReloadKeepsInv(s, r);
    case Arrive(id, request) => ArriveKeepsInv(s, id, request);
    case Watch(id, w) =>
      WatchKeepsWatcher(s, s.requests[id], s.watchers[id], w);
      WatchKeepsLocking(s, id, w);
      var s' := Next(s, step);
      forall other | other in s'.watchers
        ensures Covered(s', s'.watchers[other]) && Honest(s', s'.requests[other], s'.watchers[other])
      {
        assert Covered(s, s'.watchers[other]) && Honest(s, s.requests[other], s'.watchers[other]);
        SameFacts(s, s', s.requests[other], s'.watchers[other]);
      }
  }

  lemma SameFacts(s: State, s': State, q: Request, w: Watcher)
    requires s.served != [] && s'.served == s.served && s'.reloader == s.reloader
    requires s'.channel == s.channel && s'.closed == s.closed
    requires Covered(s, w) && Honest(s, q, w)
    ensures Covered(s', w) && Honest(s', q, w)
  {
    if w.Woken? {
      var i :| w.wait.since <= i < |s.served| && s.served[i].version == w.seen;
      assert s'.served[i].version == w.seen;
    }
  }

  lemma InitInv()
    ensures Inv(Init())
  {
  }

  lemma {:induction false} EveryStateInv(states: seq<State>, steps: seq<Step>, n: nat)
    requires Execution(states, steps) && n < |states|
    ensures Inv(states[n])
  {
    if n == 0 {
      InitInv();
    } else {
      EveryStateInv(states, steps, n - 1);
      assert states[n - 1 + 1] == Next(states[n - 1], steps[n - 1]);
      StepKeepsInv(states[n - 1], steps[n - 1]);
    }
  }

  // ---------------------------------------------------------------------------
  // What the sequence of served snapshots allows
  // ---------------------------------------------------------------------------

  lemma {:induction false} VersionsGrow(s: State, i: nat, j: nat)
    requires Forward(s) && i <= j < |s.served|
    ensures s.served[i].version <= s.served[j].version
    decreases j
  {
    if i < j {
      VersionsGrow(s, i, j - 1);
      assert MayFollow(s.served[j - 1], s.served[j]);
    }
  }

  lemma {:induction false} SameHeadSameSeen(s: State, i: nat, j: nat, t: Target)
    requires Forward(s) && i <= j < |s.served| && s.served[i].version == s.served[j].version
    ensures SeenOf(s.served[i], t) == SeenOf(s.served[j], t)
    decreases j
  {
    if i < j {
      VersionsGrow(s, i, j - 1);
      assert MayFollow(s.served[j - 1], s.served[j]);
      SameHeadSameSeen(s, i, j - 1, t);
    }
  }

  /** A raw token is a HEAD that was served no later. */
  lemma {:induction false} TokenWithinHead(s: State, i: nat, t: Target)
    requires Forward(s) && i < |s.served| && SeenOf(s.served[i], t).Some?
    ensures SeenOf(s.served[i], t).value.token <= s.served[i].version
  {
    if i > 0 {
      assert MayFollow(s.served[i - 1], s.served[i]);
      if SeenOf(s.served[i], t).value.token != s.served[i].version {
        TokenWithinHead(s, i - 1, t);
      }
    }
  }

  /** A later token that is an earlier HEAD was the token at that HEAD already. */
  lemma {:induction false} TokenReachesBack(s: State, i: nat, j: nat, t: Target)
    requires Forward(s) && i <= j < |s.served| && SeenOf(s.served[j], t).Some?
    requires SeenOf(s.served[j], t).value.token == s.served[i].version
    ensures SeenOf(s.served[i], t).Some? && SeenOf(s.served[i], t).value.token == s.served[i].version
    decreases j
  {
    if s.served[i].version == s.served[j].version {
      SameHeadSameSeen(s, i, j, t);
    } else {
      assert MayFollow(s.served[j - 1], s.served[j]) && KeptOrNew(s.served[j - 1], s.served[j], t);
      TokenReachesBack(s, i, j - 1, t);
    }
  }

  /** A token worked out from two snapshots differs from `v` only if that of one of the two does. */
  lemma CombinedIsReal(s: State, i: nat, j: nat, t: Target, v: History)
    requires Forward(s) && i <= j < |s.served|
    requires Combined(s.served[i], s.served[j], t).Some? && Combined(s.served[i], s.served[j], t) != Some(v)
    ensures (TokenOf(s.served[i], t).Some? && TokenOf(s.served[i], t) != Some(v)) ||
            (TokenOf(s.served[j], t).Some? && TokenOf(s.served[j], t) != Some(v))
  {
    if t.inherit {
      VersionsGrow(s, i, j);
      TokenWithinHead(s, i, t);
      var a, b := s.served[i], s.served[j];
      assert SeenOf(a, t).value.token == b.version ==> |a.version| == |b.version| && a.version == b.version;
      if SeenOf(s.served[j], t).value.token == s.served[i].version {
        TokenReachesBack(s, i, j, t);
      }
    }
  }

  // ---------------------------------------------------------------------------
  // What watchers can rely on
  // ---------------------------------------------------------------------------

  /** In every interleaving, a parked watcher's channel is closed, or nothing has moved, or the close is on its way. */
  lemma NoLostWakeup(states: seq<State>, steps: seq<Step>, n: nat, id: Id)
    requires Execution(states, steps) && n < |states|
    requires id in states[n].watchers && states[n].watchers[id].Parked?
    ensures var s, w := states[n], states[n].watchers[id];
            s.served != [] &&
            (w.on in s.closed || (w.on == s.channel && (Current(s).version == w.wait.head || ClosePending(s))))
  {
    EveryStateInv(states, steps, n);
  }

  /** Once the reloader is done, a watcher stays blocked only while the token it holds is the one served. */
  lemma BlockedMeansCurrent(states: seq<State>, steps: seq<Step>, n: nat, id: Id)
    requires Execution(states, steps) && n < |states|
    requires id in states[n].watchers && states[n].watchers[id].Parked?
    requires states[n].reloader.Idle? && states[n].watchers[id].on !in states[n].closed
    ensures var s := states[n];
            && s.served != [] && id in s.requests
            && TokenOf(Current(s), s.requests[id].target) == Some(s.requests[id].version)
  {
    EveryStateInv(states, steps, n);
    var s, w := states[n], states[n].watchers[id];
    UnmovedHeadSameToken(s, s.requests[id], w.wait.loads);
  }

  lemma UnmovedHeadSameToken(s: State, q: Request, loads: Loads)
    requires Forward(s) && TokenRead(s, q, Current(s).version, loads)
    ensures TokenOf(Current(s), q.target) == Some(q.version)
  {
    var last := |s.served| - 1;
    VersionsGrow(s, loads.read, loads.sources);
    VersionsGrow(s, loads.sources, last);
    SameHeadSameSeen(s, loads.read, last, q.target);
    SameHeadSameSeen(s, loads.sources, last, q.target);
  }

  /** A wait reports a change only with a HEAD that differs and was served while it waited. */
  lemma WakeupsAreReal(states: seq<State>, steps: seq<Step>, n: nat, id: Id)
    requires Execution(states, steps) && n < |states|
    requires id in states[n].watchers && states[n].watchers[id].Woken?
    ensures var w := states[n].watchers[id];
            w.seen != w.wait.head && ServedSince(states[n], w.seen, w.wait.since)
  {
    EveryStateInv(states, steps, n);
  }

  /**
   A watcher is told of a change only when a snapshot it read had another token for its
   target, even where a reload fell between its two reads.
   */
  lemma ChangesAreReal(states: seq<State>, steps: seq<Step>, n: nat, id: Id)
    requires Execution(states, steps) && n < |states|
    requires id in states[n].watchers && states[n].watchers[id].Changed?
    ensures var s, loads := states[n], states[n].watchers[id].loads;
            && id in s.requests && loads.read <= loads.sources < |s.served|
            && exists at :: at in {loads.read, loads.sources} &&
                 TokenOf(s.served[at], s.requests[id].target).Some? &&
                 TokenOf(s.served[at], s.requests[id].target) != Some(s.requests[id].version)
  {
    EveryStateInv(states, steps, n);
    var s, loads := states[n], states[n].watchers[id].loads;
    CombinedIsReal(s, loads.read, loads.sources, s.requests[id].target, s.requests[id].version);
  }

  // ---------------------------------------------------------------------------
  // When each answer is given
  // ---------------------------------------------------------------------------

  /** How a step moves its own watcher, and nobody else's. */
  lemma StepMoves(states: seq<State>, steps: seq<Step>, k: nat, id: Id)
    requires Execution(states, steps) && k < |steps| && id in states[k].watchers
    ensures id in states[k + 1].watchers && id in states[k].requests && id in states[k + 1].requests
    ensures states[k + 1].requests[id] == states[k].requests[id]
    ensures !(steps[k].Watch? && steps[k].id == id) ==> states[k + 1].watchers[id] == states[k].watchers[id]
  {
    EveryStateInv(states, steps, k);
    assert states[k + 1] == Next(states[k], steps[k]);
  }

  /** A watcher appears by arriving, and at the top. */
  lemma FirstSeen(states: seq<State>, steps: seq<Step>, k: nat, id: Id)
    requires Execution(states, steps) && k < |steps| && id !in states[k].watchers && id in states[k + 1].watchers
    ensures states[k + 1].watchers[id] == Top
  {
    assert states[k + 1] == Next(states[k], steps[k]);
  }

  /**
   A raw watcher that looks is told: it answers "changed" exactly when the token served at
   that moment is another, "not found" when the service is gone, and waits otherwise.
   */
  lemma RawLookTells(states: seq<State>, steps: seq<Step>, k: nat, id: Id)
    requires Execution(states, steps) && k < |steps| && steps[k] == Watch(id, ReadToken)
    requires id in states[k].requests && !states[k].requests[id].target.inherit
    ensures states[k].served != [] && id in states[k + 1].watchers
    ensures var q, view, w := states[k].requests[id], Current(states[k]), states[k + 1].watchers[id];
            if q.target.svc !in view.data then w == NotFound
            else if VersionTokens.ViewToken(view, q.target.svc, q.target.kind, false) != q.version then w.Changed?
            else w.Calling? && w.head == view.version
  {
    assert states[k + 1] == Next(states[k], steps[k]);
  }

  /**
   So is an inherited one after its second read: the token is HEAD of the first snapshot if
   defaults contribute in the second, and the raw token of the first otherwise.
   */
  lemma InheritedLookTells(states: seq<State>, steps: seq<Step>, k: nat, id: Id)
    requires Execution(states, steps) && k < |steps| && steps[k] == Watch(id, ReadSources)
    requires id in states[k].requests && states[k].requests[id].target.inherit
    ensures states[k].served != [] && id in states[k].watchers && id in states[k + 1].watchers
    ensures states[k].watchers[id].Half? && states[k].watchers[id].at < |states[k].served|
    ensures var q, w := states[k].requests[id], states[k + 1].watchers[id];
            var first, second := states[k].served[states[k].watchers[id].at], Current(states[k]);
            && q.target.svc in first.data
            && if q.target.svc !in second.data then w == NotFound
               else if (if VersionTokens.Contributes(second.data[q.target.svc], q.target.kind) then first.version
                        else VersionTokens.ViewToken(first, q.target.svc, q.target.kind, false)) != q.version
               then w.Changed?
               else w.Calling? && w.head == first.version
  {
    EveryStateInv(states, steps, k);
    assert states[k + 1] == Next(states[k], steps[k]);
  }

  /** Its first read keeps the snapshot that was current. */
  lemma InheritedFirstRead(states: seq<State>, steps: seq<Step>, k: nat, id: Id)
    requires Execution(states, steps) && k < |steps| && steps[k] == Watch(id, ReadToken)
    requires id in states[k].requests && states[k].requests[id].target.inherit
    ensures states[k].served != [] && id in states[k + 1].watchers
    ensures var q, view, w := states[k].requests[id], Current(states[k]), states[k + 1].watchers[id];
            if q.target.svc !in view.data then w == NotFound else w == Half(|states[k].served| - 1)
  {
    assert states[k + 1] == Next(states[k], steps[k]);
  }

  /** The deadline overtook this wait, and one more look found the awaited HEAD unmoved. */
  ghost predicate LookedOnceMore(states: seq<State>, steps: seq<Step>, k: int, id: Id)
    requires Execution(states, steps)
  {
    && 0 <= k < |steps| && steps[k] == Watch(id, LastLook)
    && id in states[k].watchers && states[k].watchers[id].Expired? && states[k].served != []
    && Current(states[k]).version == states[k].watchers[id].wait.head
    && exists m :: 0 <= m < k && steps[m] == Watch(id, Expire)
  }

  /** The deadline had passed before the watcher looked at all. */
  ghost predicate PassedDeadline(states: seq<State>, steps: seq<Step>, k: int, id: Id)
    requires Execution(states, steps)
  {
    && 0 <= k < |steps| && steps[k] == Watch(id, DeadlineAtTop)
    && id in states[k].watchers && states[k].watchers[id].Top?
  }

  lemma {:induction false} ExpiredByDeadline(states: seq<State>, steps: seq<Step>, n: nat, id: Id)
    requires Execution(states, steps) && n < |states| && id in states[n].watchers && states[n].watchers[id].Expired?
    ensures exists m :: 0 <= m < n && steps[m] == Watch(id, Expire)
  {
    if n > 0 && id in states[n - 1].watchers {
      StepMoves(states, steps, n - 1, id);
      assert states[n - 1 + 1] == Next(states[n - 1], steps[n - 1]);
      if states[n - 1].watchers[id].Expired? && !(steps[n - 1].Watch? && steps[n - 1].id == id) {
        ExpiredByDeadline(states, steps, n - 1, id);
      } else {
        assert steps[n - 1] == Watch(id, Expire);
      }
    } else if n > 0 {
      FirstSeen(states, steps, n - 1, id);
    }
  }

  /** Past the deadline a watcher answers "not modified", unless its last look finds that HEAD has moved. */
  lemma DeadlineTells(states: seq<State>, steps: seq<Step>, k: nat, id: Id)
    requires Execution(states, steps) && k < |steps| && steps[k] in {Watch(id, DeadlineAtTop), Watch(id, LastLook)}
    ensures states[k].served != [] && id in states[k].watchers && id in states[k + 1].watchers
    ensures var w, w', head := states[k].watchers[id], states[k + 1].watchers[id], Current(states[k]).version;
            if steps[k].w.DeadlineAtTop? then w.Top? && w' == TimedOut
            else w.Expired? && w' == if head == w.wait.head then TimedOut else Woken(w.wait, head)
  {
    StepTaken(states, steps, k);
  }

  /** An answer is final. */
  lemma AnswersAreFinal(states: seq<State>, steps: seq<Step>, k: nat, id: Id)
    requires Execution(states, steps) && k < |steps| && id in states[k].watchers
    requires states[k].watchers[id].Changed? || states[k].watchers[id].NotFound? || states[k].watchers[id].TimedOut?
    ensures id in states[k + 1].watchers && states[k + 1].watchers[id] == states[k].watchers[id]
  {
    StepMoves(states, steps, k, id);
    StepTaken(states, steps, k);
  }

  /** Some snapshot that was served had no such service. */
  ghost predicate OnceGone(served: seq<Snapshot>, svc: Service)
  {
    exists i :: 0 <= i < |served| && svc !in served[i].data
  }

  lemma StillOnceGone(before: seq<Snapshot>, after: seq<Snapshot>, svc: Service)
    requires before <= after && OnceGone(before, svc)
    ensures OnceGone(after, svc)
  {
    var i :| 0 <= i < |before| && svc !in before[i].data;
    assert after[i] == before[i];
  }

  lemma NotFoundNow(states: seq<State>, steps: seq<Step>, k: nat, id: Id)
    requires Execution(states, steps) && k < |steps| && id in states[k].watchers && !states[k].watchers[id].NotFound?
    requires id in states[k + 1].watchers && states[k + 1].watchers[id].NotFound? && id in states[k + 1].requests
    ensures OnceGone(states[k + 1].served, states[k + 1].requests[id].target.svc)
  {
    EveryStateInv(states, steps, k);
    StepMoves(states, steps, k, id);
    StepTaken(states, steps, k);
    hide Execution, OnceGone;
    var s, svc := states[k], states[k].requests[id].target.svc;
    assert svc !in s.served[|s.served| - 1].data;
    assert OnceGone(s.served, svc) by { LastGone(s.served, svc); }
  }

  lemma LastGone(served: seq<Snapshot>, svc: Service)
    requires served != [] && svc !in served[|served| - 1].data
    ensures OnceGone(served, svc)
  {
  }

  /** "Not found" is answered only if a served snapshot had no such service. */
  lemma {:induction false} NotFoundIsReal(states: seq<State>, steps: seq<Step>, n: nat, id: Id)
    requires Execution(states, steps) && n < |states| && id in states[n].watchers && states[n].watchers[id].NotFound?
    ensures id in states[n].requests && OnceGone(states[n].served, states[n].requests[id].target.svc)
  {
    EveryStateInv(states, steps, n);
    hide Next, Enabled, OnceGone, Inv;
    assert id in states[n].requests by { Requested(states, steps, n, id); }
    assert n > 0 by { NobodyAtStart(states, steps, id); }
    if id !in states[n - 1].watchers {
      FirstSeen(states, steps, n - 1, id);
      assert false;
    } else if states[n - 1].watchers[id].NotFound? {
      NotFoundIsReal(states, steps, n - 1, id);
      StepMoves(states, steps, n - 1, id);
      ServedGrows(states, steps, n - 1, n);
      StillOnceGone(states[n - 1].served, states[n].served, states[n].requests[id].target.svc);
    } else {
      NotFoundNow(states, steps, n - 1, id);
    }
  }

  lemma Requested(states: seq<State>, steps: seq<Step>, n: nat, id: Id)
    requires Execution(states, steps) && n < |states| && id in states[n].watchers
    ensures id in states[n].requests
  {
    EveryStateInv(states, steps, n);
  }

  /** "Not modified" is answered for two reasons only. */
  lemma {:induction false} NotModifiedOnlyAtDeadline(states: seq<State>, steps: seq<Step>, n: nat, id: Id)
    requires Execution(states, steps) && n < |states| && id in states[n].watchers && states[n].watchers[id].TimedOut?
    ensures exists k :: 0 <= k < n && (PassedDeadline(states, steps, k, id) || LookedOnceMore(states, steps, k, id))
  {
    hide Next, Enabled, PassedDeadline, LookedOnceMore;
    assert n > 0 by { NobodyAtStart(states, steps, id); }
    if id !in states[n - 1].watchers {
      FirstSeen(states, steps, n - 1, id);
      assert false;
    } else if states[n - 1].watchers[id].TimedOut? {
      NotModifiedOnlyAtDeadline(states, steps, n - 1, id);
    } else {
      TimesOutNow(states, steps, n - 1, id);
    }
  }

  lemma NobodyAtStart(states: seq<State>, steps: seq<Step>, id: Id)
    requires Execution(states, steps)
    ensures states != [] && id !in states[0].watchers
  {
  }

  /** The step that makes a watcher answer "not modified". */
  lemma TimesOutNow(states: seq<State>, steps: seq<Step>, k: nat, id: Id)
    requires Execution(states, steps) && k < |steps| && id in states[k].watchers && !states[k].watchers[id].TimedOut?
    requires id in states[k + 1].watchers && states[k + 1].watchers[id].TimedOut?
    ensures PassedDeadline(states, steps, k, id) || LookedOnceMore(states, steps, k, id)
  {
    StepMoves(states, steps, k, id);
    StepTaken(states, steps, k);
    if states[k].watchers[id].Expired? {
      ExpiredByDeadline(states, steps, k, id);
    }
    hide Execution;
  }

  /** How often this watcher moved in these steps. */
  function Moves(steps: seq<Step>, id: Id): nat
  {
    if steps == [] then 0
    else Moves(steps[..|steps| - 1], id) + if steps[|steps| - 1].Watch? && steps[|steps| - 1].id == id then 1 else 0
  }

  lemma MovesBefore(steps: seq<Step>, k: nat, n: nat, id: Id)
    requires k < n <= |steps|
    ensures Moves(steps[k..n], id) ==
            Moves(steps[k..n - 1], id) + if steps[n - 1].Watch? && steps[n - 1].id == id then 1 else 0
  {
    assert steps[k..n][..n - k - 1] == steps[k..n - 1] && steps[k..n][n - k - 1] == steps[n - 1];
  }

  lemma StepTaken(states: seq<State>, steps: seq<Step>, k: nat)
    requires Execution(states, steps) && k < |steps|
    ensures states[k].served != [] && Enabled(states[k], steps[k]) && states[k + 1] == Next(states[k], steps[k])
  {
  }

  /** Where a woken watcher is after so many moves of its own. */
  predicate Stage(w: Watcher, wait: Wait, moves: nat)
  {
    match moves
    case 0 => w == Enter(wait)
    case 1 => w == Inside(wait)
    case 2 => w.Woken? && w.wait == wait && w.seen != wait.head
    case 3 => w == Top
    case _ => true
  }

  lemma NextStage(s: State, id: Id, w: WatchStep, wait: Wait, moves: nat)
    requires s.served != [] && Enabled(s, Watch(id, w)) && Stage(s.watchers[id], wait, moves)
    requires Current(s).version != wait.head
    ensures id in Next(s, Watch(id, w)).watchers && Stage(Next(s, Watch(id, w)).watchers[id], wait, moves + 1)
  {
  }

  /**
   A watcher woken on its closed channel while another HEAD is served takes the mutex,
   finds that HEAD has moved, and is back at the top, about to read its token again, after
   exactly three moves of its own, whatever everybody else does in between.
   */
  lemma {:induction false} WokenWatcherLooksAgain(states: seq<State>, steps: seq<Step>, k: nat, n: nat, id: Id)
    requires Execution(states, steps) && k < n < |states| && steps[k] == Watch(id, Wake)
    requires id in states[k].watchers && states[k].watchers[id].Parked? && states[k].served != []
    requires Current(states[k]).version != states[k].watchers[id].wait.head
    ensures id in states[n].watchers
    ensures Stage(states[n].watchers[id], states[k].watchers[id].wait, Moves(steps[k + 1..n], id))
    decreases n
  {
    hide Stage, Moves, Current;
    if n == k + 1 {
      JustWoken(states, steps, k, id);
    } else {
      hide Next, Enabled;
      WokenWatcherLooksAgain(states, steps, k, n - 1, id);
      OneStepOn(states, steps, k, n - 1, id, states[k].watchers[id].wait);
    }
  }

  lemma OneStepOn(states: seq<State>, steps: seq<Step>, k: nat, n: nat, id: Id, wait: Wait)
    requires Execution(states, steps) && k < n < |steps|
    requires id in states[k].watchers && states[k].watchers[id].Parked? && states[k].watchers[id].wait == wait
    requires states[k].served != [] && Current(states[k]).version != wait.head
    requires id in states[n].watchers && Stage(states[n].watchers[id], wait, Moves(steps[k + 1..n], id))
    ensures id in states[n + 1].watchers && Stage(states[n + 1].watchers[id], wait, Moves(steps[k + 1..n + 1], id))
  {
    hide Stage, Next, Moves, Enabled, Current;
    MovesBefore(steps, k + 1, n + 1, id);
    StepTaken(states, steps, n);
    StepMoves(states, steps, n, id);
    MovedHeadStaysMoved(states, steps, k, n, id);
    if steps[n].Watch? && steps[n].id == id {
      NextStage(states[n], id, steps[n].w, wait, Moves(steps[k + 1..n], id));
    }
  }

  lemma JustWoken(states: seq<State>, steps: seq<Step>, k: nat, id: Id)
    requires Execution(states, steps) && k < |steps| && steps[k] == Watch(id, Wake)
    requires id in states[k].watchers && states[k].watchers[id].Parked?
    ensures id in states[k + 1].watchers && Moves(steps[k + 1..k + 1], id) == 0
    ensures Stage(states[k + 1].watchers[id], states[k].watchers[id].wait, 0)
  {
    StepTaken(states, steps, k);
    assert steps[k + 1..k + 1] == [];
  }

  /** Once the served HEAD has left the one awaited it never comes back. */
  lemma MovedHeadStaysMoved(states: seq<State>, steps: seq<Step>, k: nat, n: nat, id: Id)
    requires Execution(states, steps) && k <= n < |states| && states[k].served != []
    requires id in states[k].watchers && states[k].watchers[id].Parked?
    requires Current(states[k]).version != states[k].watchers[id].wait.head
    ensures states[n].served != [] && Current(states[n]).version != states[k].watchers[id].wait.head
  {
    EveryStateInv(states, steps, k);
    EveryStateInv(states, steps, n);
    ServedGrows(states, steps, k, n);
    var s, s', wait := states[k], states[n], states[k].watchers[id].wait;
    var i, j := wait.loads.read, |s.served| - 1;
    assert s'.served[i] == s.served[i] && s'.served[j] == s.served[j];
    VersionsGrow(s', i, j);
    VersionsGrow(s', j, |s'.served| - 1);
  }

  lemma {:induction false} ServedGrows(states: seq<State>, steps: seq<Step>, k: nat, n: nat)
    requires Execution(states, steps) && k <= n < |states|
    ensures states[k].served <= states[n].served
    decreases n
  {
    if k < n {
      ServedGrows(states, steps, k, n - 1);
      assert states[n - 1 + 1] == Next(states[n - 1], steps[n - 1]);
    }
  }

  /** What a woken watcher needs is always there or on its way: whoever holds the mutex can let go of it. */
  lemma WokenWatcherCanMove(states: seq<State>, steps: seq<Step>, n: nat, id: Id)
    requires Execution(states, steps) && n < |states| && id in states[n].watchers
    ensures states[n].served != []
    ensures var s, w := states[n], states[n].watchers[id];
            && (w.Parked? && w.on in s.closed ==> Enabled(s, Watch(id, Wake)))
            && (w.Enter? ==> if s.mutex.Free? then Enabled(s, Watch(id, LockToRead)) else HolderCanMove(s))
            && (w.Expired? ==> if s.mutex.Free? then Enabled(s, Watch(id, LastLook)) else HolderCanMove(s))
            && (w.Inside? ==> Enabled(s, Watch(id, ReadHead)))
            && (w.Read? ==> Enabled(s, Watch(id, Park)))
            && (w.Woken? ==> Enabled(s, Watch(id, Recheck)))
            && (w.Top? ==> Enabled(s, Watch(id, ReadToken)))
            && (w.Half? ==> Enabled(s, Watch(id, ReadSources)))
            && (w.Calling? ==> Enabled(s, Watch(id, BeginWait)))
  {
    EveryStateInv(states, steps, n);
  }

  /** The reloader waits for nothing but the mutex, and may fail or store at any time in between. */
  lemma ReloaderCanMove(states: seq<State>, steps: seq<Step>, n: nat)
    requires Execution(states, steps) && n < |states|
    ensures states[n].served != []
    ensures var s := states[n];
            match s.reloader
            case Idle =>
              && Enabled(s, Reload(ReloadFails))
              && forall next :: MayFollow(Current(s), next) ==> Enabled(s, Reload(StorePointer(next)))
            case Stored(_) => Enabled(s, Reload(RecordOutcome))
            case Notifying => if s.mutex.Free? then Enabled(s, Reload(LockToNotify)) else HolderCanMove(s)
            case Holding => Enabled(s, Reload(CloseChannel))
            case Closed => Enabled(s, Reload(ReplaceChannel))
  {
    EveryStateInv(states, steps, n);
  }

  ghost predicate HolderCanMove(s: State)
    requires s.served != []
  {
    match s.mutex
    case Free => true
    case ByReloader => Enabled(s, Reload(CloseChannel)) || Enabled(s, Reload(ReplaceChannel))
    case ByWatcher(id) => Enabled(s, Watch(id, ReadHead)) || Enabled(s, Watch(id, Park))
  }

  /** While HEAD is being announced, the snapshot before had another one. */
  ghost predicate Announces(s: State)
  {
    var n := |s.served|;
    match s.reloader
    case Idle => true
    case Stored(changed) => n > 1 && (changed <==> s.served[n - 2].version != s.served[n - 1].version)
    case _ => n > 1 && s.served[n - 2].version != s.served[n - 1].version
  }

  /** The channel is closed for a different HEAD only. */
  lemma {:induction false} CloseOnlyForNewHead(states: seq<State>, steps: seq<Step>, n: nat)
    requires Execution(states, steps) && n < |states|
    ensures Announces(states[n])
  {
    if n > 0 {
      CloseOnlyForNewHead(states, steps, n - 1);
      StepTaken(states, steps, n - 1);
    }
  }

  /** Degraded means that the outcome recorded last was a failure. */
  lemma {:induction false} DegradedByLastOutcome(states: seq<State>, steps: seq<Step>, n: nat)
    requires Execution(states, steps) && n < |states|
    ensures states[n].degraded <==>
            exists k :: 0 <= k < n && steps[k] == Reload(ReloadFails) &&
                        forall j :: k < j < n ==> steps[j] != Reload(RecordOutcome)
  {
    if n > 0 {
      DegradedByLastOutcome(states, steps, n - 1);
      StepTaken(states, steps, n - 1);
      if states[n].degraded && states[n - 1].degraded {
        var k :| 0 <= k < n - 1 && steps[k] == Reload(ReloadFails) &&
                 forall j :: k < j < n - 1 ==> steps[j] != Reload(RecordOutcome);
        assert forall j :: k < j < n ==> steps[j] != Reload(RecordOutcome);
      }
    }
  }

  /** A failed reload is invisible to watchers: it commutes with every step that any of them can take. */
  lemma FailureChangesNothing(s: State, id: Id, w: WatchStep)
    requires Inv(s) && Enabled(s, Reload(ReloadFails))
    ensures Enabled(Next(s, Reload(ReloadFails)), Watch(id, w)) <==> Enabled(s, Watch(id, w))
    ensures Enabled(s, Watch(id, w)) ==>
              && Next(s, Watch(id, w)).served != [] && Enabled(Next(s, Watch(id, w)), Reload(ReloadFails))
              && Next(Next(s, Reload(ReloadFails)), Watch(id, w)) == Next(Next(s, Watch(id, w)), Reload(ReloadFails))
  {
  }

  // ---------------------------------------------------------------------------
  // Watching the snapshots that reloads really produce
  // ---------------------------------------------------------------------------

  /** The pointer was stored once per successful reload, in order, starting from the empty snapshot. */
  ghost predicate Serves(s: State, ps: Snapshots.Parsers, loads: seq<VersionTokens.Load>)
    requires VersionTokens.RealLoads(loads)
  {
    |s.served| == |loads| + 1 &&
    forall i {:trigger s.served[i]} :: 0 <= i <= |loads| ==> s.served[i] == VersionTokens.Loaded(ps, loads[..i])
  }

  /** Real reloads step as the reloader may, as long as the branch only grows. */
  lemma ReloadsMayFollow(ps: Snapshots.Parsers, loads: seq<VersionTokens.Load>, last: VersionTokens.Load)
    requires Snapshots.CollisionFree(ps) && VersionTokens.RealLoads(loads) && last.hash != []
    requires VersionTokens.RealLoads(loads + [last]) && VersionTokens.Loaded(ps, loads).version <= last.hash
    ensures MayFollow(VersionTokens.Loaded(ps, loads), VersionTokens.Loaded(ps, loads + [last]))
  {
    hide VersionTokens.Loaded, NextSnapshot, SeenOf;
    VersionTokens.LoadedSnoc(ps, loads, last);
    VersionTokens.KeysOfLoad(ps, VersionTokens.Loaded(ps, loads), last.hash, last.now);
    var s, s' := VersionTokens.Loaded(ps, loads), VersionTokens.Loaded(ps, loads + [last]);
    forall t
      ensures s.version == s'.version ==> SeenOf(s, t) == SeenOf(s', t)
      ensures SeenOf(s', t).Some? ==> KeptOrNew(s, s', t)
    {
      TokenKeptOrNew(ps, loads, last, t);
      if s.version == s'.version {
        SameHeadSameView(ps, loads, last, t);
      }
    }
  }

  lemma SameHeadSameView(ps: Snapshots.Parsers, loads: seq<VersionTokens.Load>, last: VersionTokens.Load, t: Target)
    requires Snapshots.CollisionFree(ps) && VersionTokens.RealLoads(loads) && last.hash != []
    requires VersionTokens.RealLoads(loads + [last]) && VersionTokens.Loaded(ps, loads).version == last.hash
    ensures SeenOf(VersionTokens.Loaded(ps, loads), t) == SeenOf(VersionTokens.Loaded(ps, loads + [last]), t)
  {
    assert loads != [];
    VersionTokens.LastLoad(ps, loads, t.svc, t.kind);
    assert last == VersionTokens.Load(loads[|loads| - 1].hash, last.now);
    hide VersionTokens.Loaded;
    VersionTokens.ReloadingSameHeadKeepsTokens(ps, loads, last.now, t.svc, t.kind, false);
  }

  lemma TokenKeptOrNew(ps: Snapshots.Parsers, loads: seq<VersionTokens.Load>, last: VersionTokens.Load, t: Target)
    requires Snapshots.CollisionFree(ps) && VersionTokens.RealLoads(loads) && last.hash != []
    requires VersionTokens.RealLoads(loads + [last])
    ensures SeenOf(VersionTokens.Loaded(ps, loads + [last]), t).Some? ==>
            KeptOrNew(VersionTokens.Loaded(ps, loads), VersionTokens.Loaded(ps, loads + [last]), t)
  {
    hide VersionTokens.Loaded, NextSnapshot, VersionTokens.Fingerprint;
    var s, s' := VersionTokens.Loaded(ps, loads), VersionTokens.Loaded(ps, loads + [last]);
    VersionTokens.LoadedSnoc(ps, loads, last);
    VersionTokens.KeysOfLoad(ps, s, last.hash, last.now);
    if t.svc in s'.data {
      VersionTokens.LoadFingerprint(ps, s, last.hash, last.now, t.svc, t.kind);
      VersionTokens.NextToken(ps, s, last.hash, last.now, t.svc, t.kind);
    }
  }

  /**
   A raw watcher never misses a change: once the reloader is done, whoever is still
   blocked holds a token under which load `k` served exactly what is served now.
   */
  lemma BlockedRawWatcherIsUpToDate(
    states: seq<State>, steps: seq<Step>, n: nat, id: Id,
    ps: Snapshots.Parsers, loads: seq<VersionTokens.Load>, k: nat)
    requires Execution(states, steps) && n < |states|
    requires id in states[n].watchers && states[n].watchers[id].Parked?
    requires states[n].reloader.Idle? && states[n].watchers[id].on !in states[n].closed
    requires Snapshots.CollisionFree(ps) && VersionTokens.RealLoads(loads) && Serves(states[n], ps, loads)
    requires 0 < k <= |loads| && id in states[n].requests && !states[n].requests[id].target.inherit
    requires TokenOf(states[n].served[k], states[n].requests[id].target) == Some(states[n].requests[id].version)
    ensures SamePayload(ps, loads, k, states[n].requests[id].target)
  {
    BlockedMeansCurrent(states, steps, n, id);
    SameTokenServed(states[n], states[n].requests[id], ps, loads, k);
  }

  /**
   A blocked inherited watcher holds what is served now if and only if both loads agree
   on whether defaults contribute, or the defaults of the one that has them are redundant.
   */
  lemma BlockedInheritedWatcher(
    states: seq<State>, steps: seq<Step>, n: nat, id: Id,
    ps: Snapshots.Parsers, loads: seq<VersionTokens.Load>, k: nat)
    requires Execution(states, steps) && n < |states|
    requires id in states[n].watchers && states[n].watchers[id].Parked?
    requires states[n].reloader.Idle? && states[n].watchers[id].on !in states[n].closed
    requires Snapshots.CollisionFree(ps) && VersionTokens.RealLoads(loads) && Serves(states[n], ps, loads)
    requires 0 < k <= |loads| && id in states[n].requests && states[n].requests[id].target.inherit
    requires TokenOf(states[n].served[k], states[n].requests[id].target) == Some(states[n].requests[id].version)
    ensures var t := states[n].requests[id].target;
            SamePayload(ps, loads, k, t) <==> NoVisibleDrop(ps, loads, k, t)
  {
    BlockedMeansCurrent(states, steps, n, id);
    SameTokenServed(states[n], states[n].requests[id], ps, loads, k);
  }

  lemma SameTokenServed(s: State, q: Request, ps: Snapshots.Parsers, loads: seq<VersionTokens.Load>, k: nat)
    requires Snapshots.CollisionFree(ps) && VersionTokens.RealLoads(loads) && Serves(s, ps, loads)
    requires 0 < k <= |loads|
    requires TokenOf(s.served[k], q.target) == Some(q.version) == TokenOf(Current(s), q.target)
    ensures SamePayload(ps, loads, k, q.target) <==> !q.target.inherit || NoVisibleDrop(ps, loads, k, q.target)
  {
    hide VersionTokens.Loaded, TokenOf, SameView, NextSnapshot, AgreeOnDefaults;
    assert loads[..|loads|] == loads;
    HeldTokenIsPayload(ps, loads[..k], loads, q);
  }

  /** Load `k` served this target exactly as the last load serves it. */
  ghost predicate SamePayload(ps: Snapshots.Parsers, loads: seq<VersionTokens.Load>, k: nat, t: Target)
    requires VersionTokens.RealLoads(loads) && k <= |loads|
  {
    SameView(VersionTokens.Loaded(ps, loads[..k]), VersionTokens.Loaded(ps, loads), t)
  }

  predicate SameView(a: Snapshot, b: Snapshot, t: Target)
  {
    && t.svc in a.data && t.svc in b.data
    && VersionTokens.View(a.data[t.svc], t.kind, t.inherit) == VersionTokens.View(b.data[t.svc], t.kind, t.inherit)
  }

  /** Load `k` and the last agree on contributing defaults, or those of the one that has them are redundant. */
  ghost predicate NoVisibleDrop(ps: Snapshots.Parsers, loads: seq<VersionTokens.Load>, k: nat, t: Target)
    requires VersionTokens.RealLoads(loads) && k <= |loads|
  {
    AgreeOnDefaults(ps, VersionTokens.Loaded(ps, loads[..k]), VersionTokens.Loaded(ps, loads), t)
  }

  ghost predicate AgreeOnDefaults(ps: Snapshots.Parsers, a: Snapshot, b: Snapshot, t: Target)
  {
    && t.svc in a.data && t.svc in b.data && a.version != [] && b.version != []
    && var c, c' := VersionTokens.Contributes(a.data[t.svc], t.kind), VersionTokens.Contributes(b.data[t.svc], t.kind);
       || c == c'
       || (if c then VersionTokens.DefaultsRedundant(ps, a.version, t.svc, a.data[t.svc], t.kind)
           else VersionTokens.DefaultsRedundant(ps, b.version, t.svc, b.data[t.svc], t.kind))
  }

  lemma HeldTokenIsPayload(
    ps: Snapshots.Parsers, earlier: seq<VersionTokens.Load>, loads: seq<VersionTokens.Load>, q: Request)
    requires Snapshots.CollisionFree(ps) && VersionTokens.RealLoads(earlier) && VersionTokens.RealLoads(loads)
    requires earlier != [] && loads != []
    requires TokenOf(VersionTokens.Loaded(ps, earlier), q.target) == Some(q.version)
    requires TokenOf(VersionTokens.Loaded(ps, loads), q.target) == Some(q.version)
    ensures var a, b := VersionTokens.Loaded(ps, earlier), VersionTokens.Loaded(ps, loads);
            SameView(a, b, q.target) <==> !q.target.inherit || AgreeOnDefaults(ps, a, b, q.target)
  {
    hide VersionTokens.Loaded, VersionTokens.View, VersionTokens.DefaultsRedundant;
    var svc, kind := q.target.svc, q.target.kind;
    TokenOfIsViewToken(VersionTokens.Loaded(ps, earlier), q.target);
    TokenOfIsViewToken(VersionTokens.Loaded(ps, loads), q.target);
    VersionTokens.TokenNotEmpty(ps, earlier, svc, kind);
    VersionTokens.TokenNotEmpty(ps, loads, svc, kind);
    VersionTokens.LastLoad(ps, earlier, svc, kind);
    VersionTokens.LastLoad(ps, loads, svc, kind);
    if q.target.inherit {
      VersionTokens.EqualTokensEqualViews(ps, earlier, loads, svc, kind);
    } else {
      VersionTokens.SameTokenSameRaw(ps, earlier, loads, svc, kind);
    }
  }
}
