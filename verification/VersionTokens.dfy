/**
 What a version token means: raw tokens name the load that last changed a resource,
 inherited views are labelled with HEAD where defaults contribute.
 */
module VersionTokens {
  import opened Common
  import opened ConfigMerge
  import opened Git
  import opened Snapshots
  import opened Serving

  datatype Resource = ConfigResource | EnvVarsResource

  function Present(raw: Raw, r: Resource): bool
  {
    if r.ConfigResource? then raw.config.Some? else raw.envVars.Some?
  }

  function DigestOf(raw: Raw, r: Resource): string
  {
    if r.ConfigResource? then raw.configDigest else raw.envVarsDigest
  }

  function Token(d: ServiceData, r: Resource): History
  {
    if r.ConfigResource? then d.configVersion else d.envVarsVersion
  }

  // ---------------------------------------------------------------------------
  // Runs of loads
  // ---------------------------------------------------------------------------

  datatype Load = Load(hash: History, now: Time)

  ghost predicate RealLoads(loads: seq<Load>)
  {
    forall i :: 0 <= i < |loads| ==> loads[i].hash != []
  }

  /** The snapshot after a run of successful reloads. */
  function Loaded(ps: Parsers, loads: seq<Load>): Snapshot
    requires RealLoads(loads)
  {
    if loads == [] then EmptySnapshot
    else var last := loads[|loads| - 1];
         NextSnapshot(ps, Loaded(ps, loads[..|loads| - 1]), last.hash, last.now)
  }

  function Successes(ps: Parsers, attempts: seq<Attempt>): (loads: seq<Load>)
    ensures RealLoads(loads)
  {
    if attempts == [] then []
    else var last := attempts[|attempts| - 1];
         Successes(ps, attempts[..|attempts| - 1]) + if Loadable(ps, last) then [Load(last.hash, last.now)] else []
  }

  /** Failed attempts leave no trace in the served snapshot. */
  lemma {:induction false} OnlySuccessesCount(ps: Parsers, attempts: seq<Attempt>)
    ensures Run(ps, attempts).snapshot == Loaded(ps, Successes(ps, attempts))
  {
    if attempts != [] {
      var init, last := attempts[..|attempts| - 1], attempts[|attempts| - 1];
      OnlySuccessesCount(ps, init);
      var before := Successes(ps, init);
      if Loadable(ps, last) {
        assert Successes(ps, attempts) == before + [Load(last.hash, last.now)];
        LoadedSnoc(ps, before, Load(last.hash, last.now));
      } else {
        assert Successes(ps, attempts) == before;
      }
    }
  }

  lemma LoadedSnoc(ps: Parsers, loads: seq<Load>, last: Load)
    requires RealLoads(loads) && last.hash != []
    ensures RealLoads(loads + [last])
    ensures Loaded(ps, loads + [last]) == NextSnapshot(ps, Loaded(ps, loads), last.hash, last.now)
  {
    assert (loads + [last])[..|loads|] == loads;
  }

  /** What a commit says of a resource: no such service, no such file, or the digest of the file. */
  function Fingerprint(ps: Parsers, hash: History, svc: Service, r: Resource): Option<Option<string>>
  {
    if hash == [] then None else FingerprintIn(Scanned(ps, TreeOf(hash)).data, svc, r)
  }

  function FingerprintIn(data: map<Service, Raw>, svc: Service, r: Resource): Option<Option<string>>
  {
    if svc !in data then None
    else if Present(data[svc], r) then Some(Some(DigestOf(data[svc], r)))
    else Some(None)
  }

  function Fingerprints(ps: Parsers, loads: seq<Load>, svc: Service, r: Resource): (s: seq<Option<Option<string>>>)
    ensures |s| == |loads| && forall i :: 0 <= i < |loads| ==> s[i] == Fingerprint(ps, loads[i].hash, svc, r)
  {
    seq(|loads|, i requires 0 <= i < |loads| => Fingerprint(ps, loads[i].hash, svc, r))
  }

  /** The first position of the unbroken stretch at the end of `s`. */
  ghost predicate StretchStart<T>(s: seq<T>, j: nat)
  {
    && j < |s|
    && (forall i :: j <= i < |s| ==> s[i] == s[|s| - 1])
    && (j > 0 ==> s[j - 1] != s[|s| - 1])
  }

  lemma {:induction false} StretchStarts<T>(s: seq<T>) returns (j: nat)
    requires s != []
    ensures StretchStart(s, j)
  {
    var n := |s|;
    if n > 1 && s[n - 2] == s[n - 1] {
      j := StretchStarts(s[..n - 1]);
    } else {
      j := n - 1;
    }
  }

  lemma StretchShrinks<T>(s: seq<T>, j: nat)
    requires |s| > 1 && StretchStart(s, j)
    ensures if s[|s| - 2] == s[|s| - 1] then StretchStart(s[..|s| - 1], j) else j == |s| - 1
  {
  }

  /** The same, read off a served snapshot. */
  function ServedFingerprint(s: Snapshot, svc: Service, r: Resource): Option<Option<string>>
  {
    if svc !in s.data then None
    else if Present(s.data[svc].raw, r) then Some(Some(DigestOf(s.data[svc].raw, r)))
    else Some(None)
  }

  lemma LoadFingerprint(ps: Parsers, prev: Snapshot, hash: History, now: Time, svc: Service, r: Resource)
    requires hash != []
    ensures ServedFingerprint(NextSnapshot(ps, prev, hash, now), svc, r) == Fingerprint(ps, hash, svc, r)
  {
  }

  lemma KeysOfLoad(ps: Parsers, prev: Snapshot, hash: History, now: Time)
    requires hash != []
    ensures NextSnapshot(ps, prev, hash, now).version == hash
    ensures NextSnapshot(ps, prev, hash, now).data.Keys == Scanned(ps, TreeOf(hash)).data.Keys
  {
  }

  /** A reload keeps the token of a resource that has not changed, and takes the new hash otherwise. */
  lemma NextToken(ps: Parsers, prev: Snapshot, hash: History, now: Time, svc: Service, r: Resource)
    requires CollisionFree(ps) && hash != [] && svc in NextSnapshot(ps, prev, hash, now).data
    ensures Token(NextSnapshot(ps, prev, hash, now).data[svc], r) ==
            if ServedFingerprint(prev, svc, r) == Fingerprint(ps, hash, svc, r) && Token(prev.data[svc], r) != []
            then Token(prev.data[svc], r) else hash
  {
    hide Scanned, InheritedConfig, InheritedEnvVars, SourcesOf, DefaultsFor, Backed;
    DigestsOfScan(ps, TreeOf(hash), svc);
  }

  lemma LastLoad(ps: Parsers, loads: seq<Load>, svc: Service, r: Resource)
    requires RealLoads(loads) && loads != []
    ensures Loaded(ps, loads).version == loads[|loads| - 1].hash
    ensures ServedFingerprint(Loaded(ps, loads), svc, r) == Fingerprint(ps, loads[|loads| - 1].hash, svc, r)
    ensures svc in Loaded(ps, loads).data ==> Fingerprint(ps, loads[|loads| - 1].hash, svc, r).Some?
  {
    var last := loads[|loads| - 1];
    LoadFingerprint(ps, Loaded(ps, loads[..|loads| - 1]), last.hash, last.now, svc, r);
  }

  /** A token is the hash of the load that began the current stretch. */
  lemma {:induction false} TokenNamesStretchStart(ps: Parsers, loads: seq<Load>, svc: Service, r: Resource, j: nat)
    requires CollisionFree(ps) && RealLoads(loads)
    requires svc in Loaded(ps, loads).data && StretchStart(Fingerprints(ps, loads, svc, r), j)
    ensures Token(Loaded(ps, loads).data[svc], r) == loads[j].hash
    decreases |loads|
  {
    hide NextSnapshot, Fingerprint;
    TokenAfterLoad(ps, loads, svc, r);
    if |loads| > 1 {
      EarlierStretch(ps, loads, svc, r, j);
      if Continues(ps, loads, svc, r) {
        TokenNamesStretchStart(ps, loads[..|loads| - 1], svc, r, j);
      }
    }
  }

  /** The last load left the resource as the load before it had it. */
  predicate Continues(ps: Parsers, loads: seq<Load>, svc: Service, r: Resource)
  {
    |loads| > 1 &&
    Fingerprint(ps, loads[|loads| - 2].hash, svc, r) == Fingerprint(ps, loads[|loads| - 1].hash, svc, r)
  }

  lemma {:induction false} EarlierStretch(ps: Parsers, loads: seq<Load>, svc: Service, r: Resource, j: nat)
    requires |loads| > 1 && StretchStart(Fingerprints(ps, loads, svc, r), j)
    ensures if Continues(ps, loads, svc, r) then StretchStart(Fingerprints(ps, loads[..|loads| - 1], svc, r), j)
            else j == |loads| - 1
  {
    var fps := Fingerprints(ps, loads, svc, r);
    StretchShrinks(fps, j);
    assert fps[..|loads| - 1] == Fingerprints(ps, loads[..|loads| - 1], svc, r);
  }

  lemma {:induction false} TokenAfterLoad(ps: Parsers, loads: seq<Load>, svc: Service, r: Resource)
    requires CollisionFree(ps) && RealLoads(loads) && loads != [] && svc in Loaded(ps, loads).data
    ensures var prev := Loaded(ps, loads[..|loads| - 1]);
            && (Continues(ps, loads, svc, r) ==> svc in prev.data)
            && Token(Loaded(ps, loads).data[svc], r) ==
               if Continues(ps, loads, svc, r) && Token(prev.data[svc], r) != [] then Token(prev.data[svc], r)
               else loads[|loads| - 1].hash
  {
    var n := |loads|;
    var init, last := loads[..n - 1], loads[n - 1];
    LastLoad(ps, loads, svc, r);
    NextToken(ps, Loaded(ps, init), last.hash, last.now, svc, r);
    if n > 1 {
      LastLoad(ps, init, svc, r);
    }
  }

  // ---------------------------------------------------------------------------
  // Digests stand for contents
  // ---------------------------------------------------------------------------

  /** Each present resource was parsed from bytes with the recorded digest. */
  ghost predicate Backed(ps: Parsers, raw: Raw)
  {
    && (raw.config.Some? ==> exists b :: ps.config(b) == raw.config && ps.digest(b) == raw.configDigest)
    && (raw.envVars.Some? ==> exists b :: ps.envVars(b) == raw.envVars && ps.digest(b) == raw.envVarsDigest)
  }

  lemma AbsorbBacked(ps: Parsers, raw: Raw, slot: Slot, bytes: Bytes)
    requires Backed(ps, raw)
    ensures Backed(ps, Absorb(ps, raw, slot, bytes).0)
  {
    var next := Absorb(ps, raw, slot, bytes).0;
    if next.config.Some? && next.config == raw.config && next.configDigest == raw.configDigest {
      var b :| ps.config(b) == raw.config && ps.digest(b) == raw.configDigest;
      assert ps.config(b) == next.config;
    } else {
      assert next.config.Some? ==> ps.config(bytes) == next.config && ps.digest(bytes) == next.configDigest;
    }
    if next.envVars.Some? && next.envVars == raw.envVars && next.envVarsDigest == raw.envVarsDigest {
      var b :| ps.envVars(b) == raw.envVars && ps.digest(b) == raw.envVarsDigest;
      assert ps.envVars(b) == next.envVars;
    } else {
      assert next.envVars.Some? ==> ps.envVars(bytes) == next.envVars && ps.digest(bytes) == next.envVarsDigest;
    }
  }

  lemma {:induction false} ScanBacked(ps: Parsers, tree: Tree, order: seq<Path>)
    requires forall p :: p in order ==> p in tree
    ensures forall svc :: svc in ScanAll(ps, tree, order).data ==> Backed(ps, ScanAll(ps, tree, order).data[svc])
  {
    if order != [] {
      var init, last := order[..|order| - 1], order[|order| - 1];
      ScanBacked(ps, tree, init);
      var s := ScanAll(ps, tree, init);
      VisitEffect(ps, s, last, tree[last]);
      if ClassifyService(last).Some? {
        var (svc, slot) := ClassifyService(last).value;
        AbsorbBacked(ps, if svc in s.data then s.data[svc] else NoFiles, slot, tree[last]);
      }
    }
  }

  lemma DigestsOfScan(ps: Parsers, tree: Tree, svc: Service)
    requires CollisionFree(ps)
    ensures var data := Scanned(ps, tree).data;
            svc in data ==>
              && Backed(ps, data[svc])
              && (Present(data[svc], ConfigResource) ==> DigestOf(data[svc], ConfigResource) != "")
              && (Present(data[svc], EnvVarsResource) ==> DigestOf(data[svc], EnvVarsResource) != "")
  {
    ScanBacked(ps, ConfigsOf(tree), WalkOrder(ConfigsOf(tree)));
  }

  // ---------------------------------------------------------------------------
  // What readers get
  // ---------------------------------------------------------------------------

  /** The config block of a raw response: absent reads as empty. */
  function RawConfig(d: ServiceData): Config
  {
    if d.raw.config.Some? then d.raw.config.value.config else map[]
  }

  function RawEnvVars(d: ServiceData): EnvVars
  {
    if d.raw.envVars.Some? then d.raw.envVars.value.envVars else EnvVars(map[], map[])
  }

  function ViewConfig(d: ServiceData, inherit: bool): Config
  {
    if inherit && d.inheritedConfig.Some? then d.inheritedConfig.value else RawConfig(d)
  }

  function ViewEnvVars(d: ServiceData, inherit: bool): EnvVars
  {
    if inherit && d.inheritedEnvVars.Some? then d.inheritedEnvVars.value else RawEnvVars(d)
  }

  /** The block of the response, without its metadata. */
  datatype Body = ConfigBody(config: Config) | EnvVarsBody(envVars: EnvVars)

  function View(d: ServiceData, r: Resource, inherit: bool): Body
  {
    if r.ConfigResource? then ConfigBody(ViewConfig(d, inherit)) else EnvVarsBody(ViewEnvVars(d, inherit))
  }

  predicate Contributes(d: ServiceData, r: Resource)
  {
    exists i :: 0 <= i < |d.sources| && if r.ConfigResource? then d.sources[i].hasConfig else d.sources[i].hasEnvVars
  }

  /** The token a watcher is compared against, both loads answered by the same snapshot. */
  function ViewToken(s: Snapshot, svc: Service, r: Resource, inherit: bool): History
    requires svc in s.data
  {
    var d := s.data[svc];
    if inherit && Contributes(d, r) then s.version
    else if Token(d, r) == [] then s.version
    else Token(d, r)
  }

  /**
   The label of a response whose data comes from `d` while HEAD is read again from
   whatever snapshot is served by then.
   */
  function Label(d: ServiceData, r: Resource, inherit: bool, headNow: History): History
  {
    if r.ConfigResource? then
      var version := if inherit && Contributes(d, r) then headNow else d.configVersion;
      if version == [] then headNow else version
    else
      if (!inherit || !Contributes(d, r)) && d.envVarsVersion != [] then d.envVarsVersion else headNow
  }

  /** Read from one snapshot, the label of a response is the token a watcher compares against. */
  lemma LabelIsToken(s: Snapshot, svc: Service, r: Resource, inherit: bool)
    requires svc in s.data
    ensures Label(s.data[svc], r, inherit, s.version) == ViewToken(s, svc, r, inherit)
  {
  }

  /** A raw label does not depend on when HEAD is read; an inherited one is HEAD at that later moment. */
  lemma LabelUnderSwap(ps: Parsers, loads: seq<Load>, svc: Service, r: Resource, inherit: bool, headNow: History)
    requires CollisionFree(ps) && RealLoads(loads) && loads != [] && svc in Loaded(ps, loads).data
    ensures var s := Loaded(ps, loads);
            Label(s.data[svc], r, inherit, headNow) ==
            if inherit && Contributes(s.data[svc], r) then headNow else ViewToken(s, svc, r, inherit)
  {
    hide Loaded;
    TokenNotEmpty(ps, loads, svc, r);
  }

  // ---------------------------------------------------------------------------
  // Equal tokens, equal payloads
  // ---------------------------------------------------------------------------

  lemma SameFingerprintSameRaw(ps: Parsers, a: History, b: History, svc: Service, r: Resource)
    requires CollisionFree(ps) && a != [] && b != []
    requires Fingerprint(ps, a, svc, r) == Fingerprint(ps, b, svc, r) != None
    ensures var d, d' := Scanned(ps, TreeOf(a)).data[svc], Scanned(ps, TreeOf(b)).data[svc];
            if r.ConfigResource? then d.config == d'.config else d.envVars == d'.envVars
  {
    DigestsOfScan(ps, TreeOf(a), svc);
    DigestsOfScan(ps, TreeOf(b), svc);
  }

  lemma RawOfLoad(ps: Parsers, loads: seq<Load>, svc: Service)
    requires RealLoads(loads) && loads != [] && svc in Loaded(ps, loads).data
    ensures var raw := Scanned(ps, TreeOf(loads[|loads| - 1].hash)).data;
            svc in raw && Loaded(ps, loads).data[svc].raw.config == raw[svc].config
                       && Loaded(ps, loads).data[svc].raw.envVars == raw[svc].envVars
  {
  }

  /** Where a service's defaults come from is a matter of the commit alone. */
  lemma SourcesOfLoad(ps: Parsers, loads: seq<Load>, svc: Service)
    requires RealLoads(loads) && loads != [] && svc in Loaded(ps, loads).data
    ensures Loaded(ps, loads).data[svc].sources ==
            SourcesOf(DefaultsFor(svc, Scanned(ps, TreeOf(loads[|loads| - 1].hash)).defaults))
  {
    hide Scanned, NextVersion, InheritedConfig, InheritedEnvVars, DefaultsFor, SourcesOf;
    var last := loads[|loads| - 1];
    assert Loaded(ps, loads).data[svc] ==
           Completed(svc, Scanned(ps, TreeOf(last.hash)), Loaded(ps, loads[..|loads| - 1]), last.hash, last.now);
  }

  /** Any two loads of a run, even of different runs, whose raw tokens are equal. */
  lemma SameTokenSameRaw(ps: Parsers, first: seq<Load>, second: seq<Load>, svc: Service, r: Resource)
    requires CollisionFree(ps) && RealLoads(first) && RealLoads(second) && first != [] && second != []
    requires svc in Loaded(ps, first).data && svc in Loaded(ps, second).data
    requires Token(Loaded(ps, first).data[svc], r) == Token(Loaded(ps, second).data[svc], r)
    ensures View(Loaded(ps, first).data[svc], r, false) == View(Loaded(ps, second).data[svc], r, false)
    ensures Present(Loaded(ps, first).data[svc].raw, r) == Present(Loaded(ps, second).data[svc].raw, r)
  {
    var j := StretchStarts(Fingerprints(ps, first, svc, r));
    var k := StretchStarts(Fingerprints(ps, second, svc, r));
    TokenNamesStretchStart(ps, first, svc, r, j);
    TokenNamesStretchStart(ps, second, svc, r, k);
    LastLoad(ps, first, svc, r);
    LastLoad(ps, second, svc, r);
    var a, b := first[|first| - 1].hash, second[|second| - 1].hash;
    assert Fingerprint(ps, a, svc, r) == Fingerprints(ps, first, svc, r)[j] == Fingerprint(ps, first[j].hash, svc, r);
    assert Fingerprint(ps, b, svc, r) == Fingerprints(ps, second, svc, r)[k] == Fingerprint(ps, second[k].hash, svc, r);
    SameFingerprintSameRaw(ps, a, b, svc, r);
    RawOfLoad(ps, first, svc);
    RawOfLoad(ps, second, svc);
  }

  /** The inherited parts of a snapshot depend on its commit alone. */
  lemma SameVersionSameView(ps: Parsers, first: seq<Load>, second: seq<Load>, svc: Service, r: Resource)
    requires RealLoads(first) && RealLoads(second) && first != [] && second != []
    requires svc in Loaded(ps, first).data && svc in Loaded(ps, second).data
    requires Loaded(ps, first).version == Loaded(ps, second).version
    ensures View(Loaded(ps, first).data[svc], r, true) == View(Loaded(ps, second).data[svc], r, true)
  {
    assert first[|first| - 1].hash == second[|second| - 1].hash;
  }

  /** The merged defaults of a service at a commit. */
  function DefaultConfig(ps: Parsers, h: History, svc: Service): Config
    requires h != []
  {
    Fold(Configs(DefaultsFor(svc, Scanned(ps, TreeOf(h)).defaults)))
  }

  function DefaultEnvVars(ps: Parsers, h: History, svc: Service): EnvVars
    requires h != []
  {
    FoldEnvVars(EnvVarsLayers(DefaultsFor(svc, Scanned(ps, TreeOf(h)).defaults)))
  }

  /** The service's own resource laid over the defaults of a commit. */
  function Overlaid(ps: Parsers, h: History, svc: Service, d: ServiceData, r: Resource): Body
    requires h != []
  {
    if r.ConfigResource? then ConfigBody(Merge(DefaultConfig(ps, h, svc), RawConfig(d)))
    else EnvVarsBody(MergeEnvVars(DefaultEnvVars(ps, h, svc), RawEnvVars(d)))
  }

  /** Every inherited view is the raw resource laid over the defaults of the loaded commit. */
  lemma ViewIsOverlay(ps: Parsers, loads: seq<Load>, svc: Service, r: Resource)
    requires RealLoads(loads) && loads != [] && svc in Loaded(ps, loads).data
    ensures var d := Loaded(ps, loads).data[svc];
            View(d, r, true) == Overlaid(ps, loads[|loads| - 1].hash, svc, d, r)
  {
    hide Scanned, Merge, MergeEnvVars, Fold, FoldEnvVars, NextVersion;
    var last := loads[|loads| - 1];
    var scan := Scanned(ps, TreeOf(last.hash));
    var entries := DefaultsFor(svc, scan.defaults);
    assert Loaded(ps, loads).data[svc] ==
           Completed(svc, scan, Loaded(ps, loads[..|loads| - 1]), last.hash, last.now);
    InheritedConfigIsMerge(Configs(entries), OwnConfig(scan.data[svc]));
    InheritedEnvVarsIsMerge(EnvVarsLayers(entries), OwnEnvVars(scan.data[svc]));
  }

  /** Sources that do not contribute leave the merged defaults empty. */
  lemma NothingContributed(ps: Parsers, loads: seq<Load>, svc: Service, r: Resource)
    requires RealLoads(loads) && loads != [] && svc in Loaded(ps, loads).data
    requires !Contributes(Loaded(ps, loads).data[svc], r)
    ensures var h := loads[|loads| - 1].hash;
            if r.ConfigResource? then DefaultConfig(ps, h, svc) == map[]
            else DefaultEnvVars(ps, h, svc) == EnvVars(map[], map[])
  {
    hide Scanned, NextVersion, InheritedConfig, InheritedEnvVars;
    var last := loads[|loads| - 1];
    var scan := Scanned(ps, TreeOf(last.hash));
    var d, entries := Loaded(ps, loads).data[svc], DefaultsFor(svc, scan.defaults);
    assert d == Completed(svc, scan, Loaded(ps, loads[..|loads| - 1]), last.hash, last.now);
    assert forall i :: 0 <= i < |entries| ==>
      d.sources[i] == Source(entries[i].0, entries[i].1.config != map[], HasEnvVars(entries[i].1.envVars));
    if r.ConfigResource? {
      assert forall i :: 0 <= i < |entries| ==> Configs(entries)[i] == map[];
      EmptyFold(Configs(entries));
    } else {
      assert forall i :: 0 <= i < |entries| ==> !HasEnvVars(EnvVarsLayers(entries)[i]);
      EmptyEnvVarsFold(EnvVarsLayers(entries));
    }
  }

  /** Where no defaults contribute, the inherited view follows from the raw resource. */
  lemma ViewWithoutDefaults(ps: Parsers, loads: seq<Load>, svc: Service, r: Resource)
    requires RealLoads(loads) && loads != [] && svc in Loaded(ps, loads).data
    requires !Contributes(Loaded(ps, loads).data[svc], r)
    ensures var d := Loaded(ps, loads).data[svc];
            View(d, r, true) ==
            if r.ConfigResource? then ConfigBody(Merge(map[], RawConfig(d)))
            else EnvVarsBody(RawEnvVars(d))
  {
    hide Loaded, Contributes, DefaultConfig, DefaultEnvVars, View, Merge;
    ViewIsOverlay(ps, loads, svc, r);
    NothingContributed(ps, loads, svc, r);
    var env := RawEnvVars(Loaded(ps, loads).data[svc]);
    assert map[] + env.plain == env.plain && map[] + env.secretRefs == env.secretRefs;
  }

  /**
   Inherited reads: equal tokens mean equal payloads as long as both snapshots agree
   on whether defaults contribute.
   */
  lemma SameTokenSameView(ps: Parsers, first: seq<Load>, second: seq<Load>, svc: Service, r: Resource)
    requires CollisionFree(ps) && RealLoads(first) && RealLoads(second) && first != [] && second != []
    requires svc in Loaded(ps, first).data && svc in Loaded(ps, second).data
    requires ViewToken(Loaded(ps, first), svc, r, true) == ViewToken(Loaded(ps, second), svc, r, true)
    requires Contributes(Loaded(ps, first).data[svc], r) == Contributes(Loaded(ps, second).data[svc], r)
    ensures View(Loaded(ps, first).data[svc], r, true) == View(Loaded(ps, second).data[svc], r, true)
  {
    if Contributes(Loaded(ps, first).data[svc], r) {
      SameVersionSameView(ps, first, second, svc, r);
    } else {
      TokenNotEmpty(ps, first, svc, r);
      TokenNotEmpty(ps, second, svc, r);
      SameTokenSameRaw(ps, first, second, svc, r);
      ViewWithoutDefaults(ps, first, svc, r);
      ViewWithoutDefaults(ps, second, svc, r);
    }
  }

  lemma TokenNotEmpty(ps: Parsers, loads: seq<Load>, svc: Service, r: Resource)
    requires CollisionFree(ps) && RealLoads(loads) && loads != [] && svc in Loaded(ps, loads).data
    ensures Token(Loaded(ps, loads).data[svc], r) != []
  {
    var j := StretchStarts(Fingerprints(ps, loads, svc, r));
    TokenNamesStretchStart(ps, loads, svc, r, j);
  }

  /**
   Where only one of the two has contributing defaults, the tokens are equal exactly when
   the other's current content of the resource was first loaded with the very HEAD of the
   one with the defaults.
   */
  lemma DisagreeingTokensCollide(ps: Parsers, first: seq<Load>, second: seq<Load>, svc: Service, r: Resource, j: nat)
    requires CollisionFree(ps) && RealLoads(first) && RealLoads(second) && first != [] && second != []
    requires svc in Loaded(ps, first).data && svc in Loaded(ps, second).data
    requires Contributes(Loaded(ps, first).data[svc], r) && !Contributes(Loaded(ps, second).data[svc], r)
    requires StretchStart(Fingerprints(ps, second, svc, r), j)
    ensures ViewToken(Loaded(ps, first), svc, r, true) == ViewToken(Loaded(ps, second), svc, r, true)
            <==> second[j].hash == first[|first| - 1].hash
  {
    TokenNamesStretchStart(ps, second, svc, r, j);
    LastLoad(ps, first, svc, r);
  }

  /** The defaults of a commit change nothing in the view of this service. */
  ghost predicate DefaultsRedundant(ps: Parsers, h: History, svc: Service, d: ServiceData, r: Resource)
    requires h != []
  {
    if r.ConfigResource? then Redundant(DefaultConfig(ps, h, svc), RawConfig(d))
    else
      && DefaultEnvVars(ps, h, svc).plain.Keys <= RawEnvVars(d).plain.Keys
      && DefaultEnvVars(ps, h, svc).secretRefs.Keys <= RawEnvVars(d).secretRefs.Keys
  }

  lemma OverlayRedundant(ps: Parsers, h: History, svc: Service, d: ServiceData, r: Resource)
    requires h != []
    ensures DefaultsRedundant(ps, h, svc, d, r) <==>
            Overlaid(ps, h, svc, d, r) ==
            if r.ConfigResource? then ConfigBody(Merge(map[], RawConfig(d))) else EnvVarsBody(RawEnvVars(d))
  {
    hide Merge, Redundant, DefaultConfig, DefaultEnvVars;
    DroppingRedundantDefaults(DefaultConfig(ps, h, svc), RawConfig(d));
    var dflt, own := DefaultEnvVars(ps, h, svc), RawEnvVars(d);
    LaidOver(dflt.plain, own.plain);
    LaidOver(dflt.secretRefs, own.secretRefs);
  }

  lemma LaidOver(d: map<string, string>, own: map<string, string>)
    ensures d + own == own <==> d.Keys <= own.Keys
  {
    if d.Keys <= own.Keys {
      assert (d + own).Keys == own.Keys;
    } else {
      var k :| k in d && k !in own;
      assert k in d + own;
    }
  }

  /** The raw resource of a collision is the same on both sides. */
  lemma CollidingRaw(ps: Parsers, first: seq<Load>, second: seq<Load>, svc: Service, r: Resource)
    requires CollisionFree(ps) && RealLoads(first) && RealLoads(second) && first != [] && second != []
    requires svc in Loaded(ps, first).data && svc in Loaded(ps, second).data
    requires Token(Loaded(ps, second).data[svc], r) == first[|first| - 1].hash
    ensures View(Loaded(ps, first).data[svc], r, false) == View(Loaded(ps, second).data[svc], r, false)
  {
    hide Loaded, Scanned, View;
    var j := StretchStarts(Fingerprints(ps, second, svc, r));
    TokenNamesStretchStart(ps, second, svc, r, j);
    LastLoad(ps, first, svc, r);
    var a, b := first[|first| - 1].hash, second[|second| - 1].hash;
    assert Fingerprint(ps, b, svc, r) == Fingerprints(ps, second, svc, r)[j] == Fingerprint(ps, second[j].hash, svc, r);
    SameFingerprintSameView(ps, first, second, svc, r);
  }

  lemma SameFingerprintSameView(ps: Parsers, first: seq<Load>, second: seq<Load>, svc: Service, r: Resource)
    requires CollisionFree(ps) && RealLoads(first) && RealLoads(second) && first != [] && second != []
    requires svc in Loaded(ps, first).data && svc in Loaded(ps, second).data
    requires Fingerprint(ps, first[|first| - 1].hash, svc, r) == Fingerprint(ps, second[|second| - 1].hash, svc, r)
    ensures View(Loaded(ps, first).data[svc], r, false) == View(Loaded(ps, second).data[svc], r, false)
  {
    hide Loaded, Scanned;
    LastLoad(ps, first, svc, r);
    SameFingerprintSameRaw(ps, first[|first| - 1].hash, second[|second| - 1].hash, svc, r);
    RawOfLoad(ps, first, svc);
    RawOfLoad(ps, second, svc);
  }

  /** A collision goes unseen by the reader exactly when the defaults of the one side are redundant. */
  lemma CollidingViews(ps: Parsers, first: seq<Load>, second: seq<Load>, svc: Service, r: Resource)
    requires CollisionFree(ps) && RealLoads(first) && RealLoads(second) && first != [] && second != []
    requires svc in Loaded(ps, first).data && svc in Loaded(ps, second).data
    requires Contributes(Loaded(ps, first).data[svc], r) && !Contributes(Loaded(ps, second).data[svc], r)
    requires ViewToken(Loaded(ps, first), svc, r, true) == ViewToken(Loaded(ps, second), svc, r, true)
    ensures View(Loaded(ps, first).data[svc], r, true) == View(Loaded(ps, second).data[svc], r, true) <==>
            DefaultsRedundant(ps, first[|first| - 1].hash, svc, Loaded(ps, first).data[svc], r)
  {
    hide Loaded, Contributes, DefaultsRedundant, Overlaid;
    TokenNotEmpty(ps, second, svc, r);
    LastLoad(ps, first, svc, r);
    CollidingRaw(ps, first, second, svc, r);
    ViewIsOverlay(ps, first, svc, r);
    ViewWithoutDefaults(ps, second, svc, r);
    OverlayRedundant(ps, first[|first| - 1].hash, svc, Loaded(ps, first).data[svc], r);
  }

  /**
   Inherited reads with equal tokens, whatever the two snapshots: the payloads are equal if
   and only if both agree on whether defaults contribute, or those of the one side are redundant.
   */
  lemma EqualTokensEqualViews(ps: Parsers, first: seq<Load>, second: seq<Load>, svc: Service, r: Resource)
    requires CollisionFree(ps) && RealLoads(first) && RealLoads(second) && first != [] && second != []
    requires svc in Loaded(ps, first).data && svc in Loaded(ps, second).data
    requires ViewToken(Loaded(ps, first), svc, r, true) == ViewToken(Loaded(ps, second), svc, r, true)
    ensures var d, d' := Loaded(ps, first).data[svc], Loaded(ps, second).data[svc];
            View(d, r, true) == View(d', r, true) <==>
            || Contributes(d, r) == Contributes(d', r)
            || (if Contributes(d, r) then DefaultsRedundant(ps, first[|first| - 1].hash, svc, d, r)
                else DefaultsRedundant(ps, second[|second| - 1].hash, svc, d', r))
  {
    hide Loaded, Contributes, DefaultsRedundant, View, ViewToken;
    var d, d' := Loaded(ps, first).data[svc], Loaded(ps, second).data[svc];
    if Contributes(d, r) == Contributes(d', r) {
      SameTokenSameView(ps, first, second, svc, r);
    } else if Contributes(d, r) {
      CollidingViews(ps, first, second, svc, r);
    } else {
      CollidingViews(ps, second, first, svc, r);
    }
  }

  /**
   A reader is stranded: it was answered with the data of snapshot `a` under a label that
   was completed when `b` was served, the label is the token of `b`, so that no watch with
   it returns, and yet `b` has another payload.
   */
  ghost predicate Stranded(a: Snapshot, b: Snapshot, svc: Service, r: Resource, inherit: bool)
    requires svc in a.data && svc in b.data
  {
    && Label(a.data[svc], r, inherit, b.version) == ViewToken(b, svc, r, inherit)
    && View(a.data[svc], r, inherit) != View(b.data[svc], r, inherit)
  }

  /** Readers of raw resources are never stranded. */
  lemma RawReaderNotStranded(ps: Parsers, first: seq<Load>, second: seq<Load>, svc: Service, r: Resource)
    requires CollisionFree(ps) && RealLoads(first) && RealLoads(second) && first != [] && second != []
    requires svc in Loaded(ps, first).data && svc in Loaded(ps, second).data
    ensures !Stranded(Loaded(ps, first), Loaded(ps, second), svc, r, false)
  {
    hide Loaded, View;
    var a, b := Loaded(ps, first), Loaded(ps, second);
    LabelUnderSwap(ps, first, svc, r, false, b.version);
    TokenNotEmpty(ps, first, svc, r);
    TokenNotEmpty(ps, second, svc, r);
    if Token(a.data[svc], r) == Token(b.data[svc], r) {
      SameTokenSameRaw(ps, first, second, svc, r);
    }
  }

  /**
   A reader of an inherited resource to which defaults contributed is stranded if and only
   if the merged content differs and in the later snapshot defaults still contribute or the
   resource was last changed by that very HEAD. One to which none did is stranded only by
   a snapshot whose HEAD is the token of its own resource, with defaults that matter.
   */
  lemma StrandedExactly(ps: Parsers, first: seq<Load>, second: seq<Load>, svc: Service, r: Resource)
    requires CollisionFree(ps) && RealLoads(first) && RealLoads(second) && first != [] && second != []
    requires svc in Loaded(ps, first).data && svc in Loaded(ps, second).data
    ensures var a, b := Loaded(ps, first), Loaded(ps, second);
            var h, h' := first[|first| - 1].hash, second[|second| - 1].hash;
            Stranded(a, b, svc, r, true) <==>
            if Contributes(a.data[svc], r) then
              && (Contributes(b.data[svc], r) || Token(b.data[svc], r) == h')
              && Overlaid(ps, h, svc, a.data[svc], r) != Overlaid(ps, h', svc, b.data[svc], r)
            else
              && Contributes(b.data[svc], r) && Token(a.data[svc], r) == h'
              && !DefaultsRedundant(ps, h', svc, b.data[svc], r)
  {
    hide Loaded, View, Contributes, DefaultsRedundant, Overlaid;
    var a, b := Loaded(ps, first), Loaded(ps, second);
    LastLoad(ps, second, svc, r);
    LabelUnderSwap(ps, first, svc, r, true, b.version);
    TokenNotEmpty(ps, first, svc, r);
    TokenNotEmpty(ps, second, svc, r);
    ViewIsOverlay(ps, first, svc, r);
    ViewIsOverlay(ps, second, svc, r);
    if !Contributes(a.data[svc], r) && ViewToken(a, svc, r, true) == ViewToken(b, svc, r, true) {
      EqualTokensEqualViews(ps, first, second, svc, r);
    }
  }

  /** Reloading a HEAD that did not move changes no token. */
  lemma ReloadingSameHeadKeepsTokens(ps: Parsers, loads: seq<Load>, now: Time, svc: Service, r: Resource, inherit: bool)
    requires CollisionFree(ps) && RealLoads(loads) && loads != []
    ensures var s, s' := Loaded(ps, loads), Loaded(ps, loads + [Load(loads[|loads| - 1].hash, now)]);
            && s'.version == s.version && s'.data.Keys == s.data.Keys
            && (svc in s.data ==>
                  && Token(s'.data[svc], r) == Token(s.data[svc], r)
                  && Contributes(s'.data[svc], r) == Contributes(s.data[svc], r)
                  && ViewToken(s', svc, r, inherit) == ViewToken(s, svc, r, inherit))
  {
    hide Scanned, NextSnapshot, Fingerprint, ServedFingerprint, SourcesOf, DefaultsFor;
    var hash, init := loads[|loads| - 1].hash, Loaded(ps, loads[..|loads| - 1]);
    var all := loads + [Load(hash, now)];
    KeysOfLoad(ps, init, hash, loads[|loads| - 1].now);
    KeysOfLoad(ps, Loaded(ps, loads), hash, now);
    LoadedSnoc(ps, loads, Load(hash, now));
    if svc in Loaded(ps, loads).data {
      LastLoad(ps, loads, svc, r);
      TokenNotEmpty(ps, loads, svc, r);
      NextToken(ps, Loaded(ps, loads), hash, now, svc, r);
      SourcesOfLoad(ps, loads, svc);
      SourcesOfLoad(ps, all, svc);
    }
  }
}
