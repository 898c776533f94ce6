/**
 From a Git tree to the served snapshot: every recognised file parsed, defaults
 folded into each service, and a version token per service resource.
 */
module Snapshots {
  import opened Common
  import opened ConfigMerge
  import opened Git
  import opened Ordering
  import opened SecretEntries

  /** Instants; zero stands for an unset time. */
  type Time = nat

  // ---------------------------------------------------------------------------
  // Files and parsers
  // ---------------------------------------------------------------------------

  datatype EnvVars = EnvVars(plain: map<string, string>, secretRefs: map<string, string>)

  datatype ConfigDoc = ConfigDoc(config: Config, updatedAt: Time)

  datatype EnvVarsDoc = EnvVarsDoc(envVars: EnvVars, updatedAt: Time)

  datatype DefaultsDoc = DefaultsDoc(config: Config, envVars: EnvVars)

  /** The parsers and the content digest, whatever they are; a parser that fails yields nothing. */
  datatype Parsers = Parsers(
    config: Bytes -> Option<ConfigDoc>,
    envVars: Bytes -> Option<EnvVarsDoc>,
    secrets: Bytes -> Option<seq<Entry>>,
    defaults: Bytes -> Option<DefaultsDoc>,
    digest: Bytes -> string)

  ghost predicate CollisionFree(ps: Parsers)
  {
    (forall a, b :: ps.digest(a) == ps.digest(b) ==> a == b) && forall a :: ps.digest(a) != ""
  }

  datatype Slot = ConfigSlot | EnvVarsSlot | SecretsSlot

  /** A path below a service directory counts by its eighth component, however deep it goes. */
  function ClassifyService(path: Path): Option<(Service, Slot)>
  {
    if |path| < 8 || path[0] != "configs" || path[1] != "orgs" || path[3] != "projects" || path[5] != "services"
    then None
    else
      var svc := Service(path[2], path[4], path[6]);
      if path[7] == "config.yaml" then Some((svc, ConfigSlot))
      else if path[7] == "env_vars.yaml" then Some((svc, EnvVarsSlot))
      else if path[7] == "secrets.yaml" then Some((svc, SecretsSlot))
      else None
  }

  datatype Scope = Global | OrgWide(org: string) | ProjectWide(org: string, project: string)

  function ClassifyDefaults(path: Path): Option<Scope>
  {
    if path == DefaultsPath(Global) then Some(Global)
    else if |path| == 5 && path[2] != "" && path == DefaultsPath(OrgWide(path[2])) then Some(OrgWide(path[2]))
    else if |path| == 7 && path[2] != "" && path[4] != "" && path == DefaultsPath(ProjectWide(path[2], path[4])) then
      Some(ProjectWide(path[2], path[4]))
    else None
  }

  function DefaultsPath(scope: Scope): Path
  {
    match scope
    case Global => ["configs", "_defaults", "common.yaml"]
    case OrgWide(org) => ["configs", "orgs", org, "_defaults", "common.yaml"]
    case ProjectWide(org, project) => ["configs", "orgs", org, "projects", project, "_defaults", "common.yaml"]
  }

  // ---------------------------------------------------------------------------
  // The walk over the checkout
  // ---------------------------------------------------------------------------

  /** What one service's own files say. */
  datatype Raw = Raw(
    config: Option<ConfigDoc>,
    envVars: Option<EnvVarsDoc>,
    secrets: Option<seq<Entry>>,
    updatedAt: Time,
    configDigest: string,
    envVarsDigest: string)

  const NoFiles := Raw(None, None, None, 0, "", "")

  datatype Scan = Scan(data: map<Service, Raw>, defaults: map<Scope, DefaultsDoc>, failed: set<Path>)

  const NothingScanned := Scan(map[], map[], {})

  /** The latest timestamp wins; unset ones are ignored. */
  function Adopt(current: Time, t: Time): Time
  {
    if t != 0 && (current == 0 || t > current) then t else current
  }

  /** One service file. A file that does not parse leaves its service without that part. */
  function Absorb(ps: Parsers, raw: Raw, slot: Slot, bytes: Bytes): (Raw, bool)
  {
    match slot
    case ConfigSlot =>
      (match ps.config(bytes)
       case None => (raw, false)
       case Some(doc) =>
         (raw.(config := Some(doc), configDigest := ps.digest(bytes),
               updatedAt := Adopt(raw.updatedAt, doc.updatedAt)), true))
    case EnvVarsSlot =>
      (match ps.envVars(bytes)
       case None => (raw, false)
       case Some(doc) =>
         (raw.(envVars := Some(doc), envVarsDigest := ps.digest(bytes),
               updatedAt := Adopt(raw.updatedAt, doc.updatedAt)), true))
    case SecretsSlot =>
      match ps.secrets(bytes)
      case None => (raw, false)
      case Some(entries) => (raw.(secrets := Some(entries)), true)
  }

  function Visit(ps: Parsers, s: Scan, path: Path, bytes: Bytes): Scan
  {
    if ClassifyDefaults(path).Some? then
      match ps.defaults(bytes)
      case None => s.(failed := s.failed + {path})
      case Some(doc) => s.(defaults := s.defaults[ClassifyDefaults(path).value := doc])
    else if ClassifyService(path).Some? then
      var (svc, slot) := ClassifyService(path).value;
      var (raw, parsed) := Absorb(ps, if svc in s.data then s.data[svc] else NoFiles, slot, bytes);
      Scan(s.data[svc := raw], s.defaults, if parsed then s.failed else s.failed + {path})
    else s
  }

  function ScanAll(ps: Parsers, tree: Tree, order: seq<Path>): Scan
    requires forall p :: p in order ==> p in tree
  {
    if order == [] then NothingScanned
    else var last := order[|order| - 1]; Visit(ps, ScanAll(ps, tree, order[..|order| - 1]), last, tree[last])
  }

  function PathKey(p: Path): seq<string>
  {
    p
  }

  /** A walk visits every file of a tree once. */
  ghost predicate Walks(tree: Tree, order: seq<Path>)
  {
    NoRepeats(order) && forall p :: p in order <==> p in tree
  }

  /** The program's walk is in lexical order. */
  function WalkOrder(tree: Tree): (order: seq<Path>)
    ensures Walks(tree, order) && SortedBy(order, PathKey)
  {
    ListByIsSorted(tree.Keys, PathKey);
    NoRepeatsCounts(ListBy(tree.Keys, PathKey));
    assert (set p | p in ListBy(tree.Keys, PathKey)) == tree.Keys;
    ListBy(tree.Keys, PathKey)
  }

  function Scanned(ps: Parsers, tree: Tree): Scan
  {
    ScanAll(ps, ConfigsOf(tree), WalkOrder(ConfigsOf(tree)))
  }

  // ---------------------------------------------------------------------------
  // The same scan, stated file by file
  // ---------------------------------------------------------------------------

  function SlotName(slot: Slot): string
  {
    match slot case ConfigSlot => "config.yaml" case EnvVarsSlot => "env_vars.yaml" case SecretsSlot => "secrets.yaml"
  }

  function ServicePath(svc: Service, slot: Slot): Path
  {
    ServiceRoot(svc) + [SlotName(slot)]
  }

  predicate Parses(ps: Parsers, path: Path, bytes: Bytes)
  {
    if ClassifyDefaults(path).Some? then ps.defaults(bytes).Some?
    else if ClassifyService(path).Some? then Absorb(ps, NoFiles, ClassifyService(path).value.1, bytes).1
    else true
  }

  /** A file that fills this slot of the service: the right place, and it parses. */
  predicate Fills(ps: Parsers, tree: Tree, p: Path, svc: Service, slot: Slot)
    requires p in tree
  {
    ClassifyService(p) == Some((svc, slot)) && Parses(ps, p, tree[p])
  }

  /** The last file of the walk that fills the slot. */
  function LastIn(ps: Parsers, tree: Tree, order: seq<Path>, svc: Service, slot: Slot): Option<Path>
    requires forall p :: p in order ==> p in tree
  {
    if order == [] then None
    else if Fills(ps, tree, order[|order| - 1], svc, slot) then Some(order[|order| - 1])
    else LastIn(ps, tree, order[..|order| - 1], svc, slot)
  }

  ghost predicate LastFill(ps: Parsers, tree: Tree, order: seq<Path>, i: int, svc: Service, slot: Slot)
    requires forall p :: p in order ==> p in tree
  {
    && 0 <= i < |order| && Fills(ps, tree, order[i], svc, slot)
    && forall j :: i < j < |order| ==> !Fills(ps, tree, order[j], svc, slot)
  }

  lemma {:induction false} LastInIsLast(ps: Parsers, tree: Tree, order: seq<Path>, svc: Service, slot: Slot)
    requires forall p :: p in order ==> p in tree
    ensures var last := LastIn(ps, tree, order, svc, slot);
            if last.None? then forall p :: p in order ==> !Fills(ps, tree, p, svc, slot)
            else exists i :: LastFill(ps, tree, order, i, svc, slot) && order[i] == last.value
  {
    hide Fills;
    var n := |order|;
    if order == [] {
    } else if Fills(ps, tree, order[n - 1], svc, slot) {
      assert LastFill(ps, tree, order, n - 1, svc, slot);
    } else {
      var init := order[..n - 1];
      assert order == init + [order[n - 1]];
      LastInIsLast(ps, tree, init, svc, slot);
      if last :| LastIn(ps, tree, init, svc, slot) == Some(last) {
        var i :| LastFill(ps, tree, init, i, svc, slot) && init[i] == last;
        assert forall j :: 0 <= j < n - 1 ==> order[j] == init[j];
        assert LastFill(ps, tree, order, i, svc, slot);
      }
    }
  }

  /** The timestamp a file contributes to its service, if any. */
  function StampOf(ps: Parsers, slot: Slot, bytes: Bytes): Time
  {
    if slot.ConfigSlot? && ps.config(bytes).Some? then ps.config(bytes).value.updatedAt
    else if slot.EnvVarsSlot? && ps.envVars(bytes).Some? then ps.envVars(bytes).value.updatedAt
    else 0
  }

  function LatestIn(ps: Parsers, tree: Tree, order: seq<Path>, svc: Service): Time
    requires forall p :: p in order ==> p in tree
  {
    if order == [] then 0
    else
      var init, last := LatestIn(ps, tree, order[..|order| - 1], svc), order[|order| - 1];
      if ClassifyService(last).Some? && ClassifyService(last).value.0 == svc
      then Adopt(init, StampOf(ps, ClassifyService(last).value.1, tree[last]))
      else init
  }

  predicate Stamps(ps: Parsers, tree: Tree, p: Path, svc: Service, t: Time)
    requires p in tree
  {
    match ClassifyService(p)
    case Some((owner, slot)) => owner == svc && StampOf(ps, slot, tree[p]) == t
    case None => false
  }

  /** It is the latest timestamp of the service's files, whatever their order. */
  lemma {:induction false} LatestInIsLatest(ps: Parsers, tree: Tree, order: seq<Path>, svc: Service)
    requires forall p :: p in order ==> p in tree
    ensures var t := LatestIn(ps, tree, order, svc);
            && (forall p, u: Time :: p in order && Stamps(ps, tree, p, svc, u) ==> u <= t)
            && (t == 0 || exists p :: p in order && Stamps(ps, tree, p, svc, t))
  {
    if order != [] {
      var init, last := order[..|order| - 1], order[|order| - 1];
      LatestInIsLatest(ps, tree, init, svc);
      assert forall p :: p in order <==> p in init || p == last;
      var was, t := LatestIn(ps, tree, init, svc), LatestIn(ps, tree, order, svc);
      if t != was {
        assert Stamps(ps, tree, last, svc, t);
      } else if t != 0 {
        var p :| p in init && Stamps(ps, tree, p, svc, t);
        assert p in order;
      }
    }
  }

  function At<D>(tree: Tree, p: Option<Path>, f: Bytes -> D, none: D): D
    requires p.Some? ==> p.value in tree
  {
    if p.Some? then f(tree[p.value]) else none
  }

  /** Each part of a service comes from the last file of the walk that fills its slot. */
  function DeclaredRaw(ps: Parsers, tree: Tree, order: seq<Path>, svc: Service): Raw
    requires forall p :: p in order ==> p in tree
  {
    LastInTree(ps, tree, order, svc);
    var c, e := LastIn(ps, tree, order, svc, ConfigSlot), LastIn(ps, tree, order, svc, EnvVarsSlot);
    Raw(At(tree, c, ps.config, None), At(tree, e, ps.envVars, None),
        At(tree, LastIn(ps, tree, order, svc, SecretsSlot), ps.secrets, None),
        LatestIn(ps, tree, order, svc), At(tree, c, ps.digest, ""), At(tree, e, ps.digest, ""))
  }

  lemma LastInTree(ps: Parsers, tree: Tree, order: seq<Path>, svc: Service)
    requires forall p :: p in order ==> p in tree
    ensures forall slot :: LastIn(ps, tree, order, svc, slot).Some? ==> LastIn(ps, tree, order, svc, slot).value in tree
  {
    forall slot | LastIn(ps, tree, order, svc, slot).Some? ensures LastIn(ps, tree, order, svc, slot).value in tree {
      LastInIsLast(ps, tree, order, svc, slot);
    }
  }

  function ServicesIn(order: seq<Path>): set<Service>
  {
    set p | p in order && ClassifyService(p).Some? :: ClassifyService(p).value.0
  }

  function DeclaredData(ps: Parsers, tree: Tree, order: seq<Path>): map<Service, Raw>
    requires forall p :: p in order ==> p in tree
  {
    map svc | svc in ServicesIn(order) :: DeclaredRaw(ps, tree, order, svc)
  }

  function DefaultsIn(ps: Parsers, tree: Tree, order: seq<Path>): map<Scope, DefaultsDoc>
    requires forall p :: p in order ==> p in tree
  {
    map scope | scope in (set p | p in order && ClassifyDefaults(p).Some? :: ClassifyDefaults(p).value)
                && DefaultsPath(scope) in order && ps.defaults(tree[DefaultsPath(scope)]).Some? ::
      ps.defaults(tree[DefaultsPath(scope)]).value
  }

  function FailuresIn(ps: Parsers, tree: Tree, order: seq<Path>): set<Path>
    requires forall p :: p in order ==> p in tree
  {
    set p | p in order && !Parses(ps, p, tree[p])
  }

  function Declared(ps: Parsers, tree: Tree, order: seq<Path>): Scan
    requires forall p :: p in order ==> p in tree
  {
    Scan(DeclaredData(ps, tree, order), DefaultsIn(ps, tree, order), FailuresIn(ps, tree, order))
  }

  lemma ServicePathClassified(svc: Service, slot: Slot)
    ensures ClassifyService(ServicePath(svc, slot)) == Some((svc, slot))
    ensures ClassifyDefaults(ServicePath(svc, slot)).None?
  {
  }

  lemma CanonicalPath(p: Path)
    requires ClassifyService(p).Some? && |p| == 8
    ensures p == ServicePath(ClassifyService(p).value.0, ClassifyService(p).value.1) && ClassifyDefaults(p).None?
  {
  }

  lemma DefaultsPathBack(p: Path)
    ensures ClassifyDefaults(p).Some? ==> DefaultsPath(ClassifyDefaults(p).value) == p
  {
  }

  /** The effect of one file on the three parts of a scan. */
  lemma VisitEffect(ps: Parsers, s: Scan, p: Path, bytes: Bytes)
    ensures var next := Visit(ps, s, p, bytes);
            && next.failed == (if Parses(ps, p, bytes) then s.failed else s.failed + {p})
            && next.data == (if ClassifyService(p).None? then s.data else
                               var (svc, slot) := ClassifyService(p).value;
                               s.data[svc := Absorb(ps, if svc in s.data then s.data[svc] else NoFiles, slot, bytes).0])
            && next.defaults == (if ClassifyDefaults(p).Some? && ps.defaults(bytes).Some?
                                 then s.defaults[ClassifyDefaults(p).value := ps.defaults(bytes).value] else s.defaults)
  {
    assert ClassifyDefaults(p).Some? ==> |p| < 8;
  }

  /** One more file of the walk, for one service. */
  lemma RawGrows(ps: Parsers, tree: Tree, order: seq<Path>, svc: Service)
    requires order != [] && forall p :: p in order ==> p in tree
    ensures var init, last := order[..|order| - 1], order[|order| - 1];
            DeclaredRaw(ps, tree, order, svc) ==
            if ClassifyService(last).None? || ClassifyService(last).value.0 != svc then DeclaredRaw(ps, tree, init, svc)
            else Absorb(ps, DeclaredRaw(ps, tree, init, svc), ClassifyService(last).value.1, tree[last]).0
  {
    var last := order[|order| - 1];
    assert ClassifyService(last).Some? ==> ClassifyDefaults(last).None?;
  }

  lemma {:induction false} NoFilesDeclared(ps: Parsers, tree: Tree, order: seq<Path>, svc: Service)
    requires forall p :: p in order ==> p in tree
    requires svc !in ServicesIn(order)
    ensures DeclaredRaw(ps, tree, order, svc) == NoFiles
  {
    if order != [] {
      var init, last := order[..|order| - 1], order[|order| - 1];
      assert order == init + [last];
      assert last in order && (ClassifyService(last).Some? ==> ClassifyService(last).value.0 in ServicesIn(order));
      assert forall p :: p in init && ClassifyService(p).Some? ==>
        p in order && ClassifyService(p).value.0 in ServicesIn(order);
      NoFilesDeclared(ps, tree, init, svc);
      RawGrows(ps, tree, order, svc);
    }
  }

  /** One more file takes the scan of a walk to the scan of the longer walk. */
  lemma VisitDeclared(ps: Parsers, tree: Tree, order: seq<Path>)
    requires order != [] && forall p :: p in order ==> p in tree
    ensures var init, last := order[..|order| - 1], order[|order| - 1];
            Visit(ps, Declared(ps, tree, init), last, tree[last]) == Declared(ps, tree, order)
  {
    var init, last := order[..|order| - 1], order[|order| - 1];
    assert order == init + [last];
    VisitEffect(ps, Declared(ps, tree, init), last, tree[last]);
    DataGrows(ps, tree, init, last);
    DefaultsGrow(ps, tree, init, last);
    assert FailuresIn(ps, tree, order) ==
           FailuresIn(ps, tree, init) + if Parses(ps, last, tree[last]) then {} else {last};
  }

  lemma DataGrows(ps: Parsers, tree: Tree, init: seq<Path>, last: Path)
    requires last in tree && forall p :: p in init ==> p in tree
    ensures var data := DeclaredData(ps, tree, init);
            DeclaredData(ps, tree, init + [last]) ==
            if ClassifyService(last).None? then data else
              var (svc, slot) := ClassifyService(last).value;
              data[svc := Absorb(ps, if svc in data then data[svc] else NoFiles, slot, tree[last]).0]
  {
    hide DeclaredRaw, Absorb, ServicesIn;
    ServicesGrow(init, last);
    forall svc { RawAfter(ps, tree, init, last, svc); }
  }

  lemma ServicesGrow(init: seq<Path>, last: Path)
    ensures ServicesIn(init + [last]) ==
            ServicesIn(init) + if ClassifyService(last).Some? then {ClassifyService(last).value.0} else {}
  {
  }

  lemma RawAfter(ps: Parsers, tree: Tree, init: seq<Path>, last: Path, svc: Service)
    requires last in tree && forall p :: p in init ==> p in tree
    ensures svc !in ServicesIn(init) ==> DeclaredRaw(ps, tree, init, svc) == NoFiles
    ensures DeclaredRaw(ps, tree, init + [last], svc) ==
            if ClassifyService(last).None? || ClassifyService(last).value.0 != svc then DeclaredRaw(ps, tree, init, svc)
            else Absorb(ps, DeclaredRaw(ps, tree, init, svc), ClassifyService(last).value.1, tree[last]).0
  {
    var order := init + [last];
    assert order[..|order| - 1] == init;
    RawGrows(ps, tree, order, svc);
    if svc !in ServicesIn(init) {
      NoFilesDeclared(ps, tree, init, svc);
    }
  }

  lemma DefaultsGrow(ps: Parsers, tree: Tree, init: seq<Path>, last: Path)
    requires last in tree && forall p :: p in init ==> p in tree
    ensures DefaultsIn(ps, tree, init + [last]) ==
            if ClassifyDefaults(last).Some? && ps.defaults(tree[last]).Some?
            then DefaultsIn(ps, tree, init)[ClassifyDefaults(last).value := ps.defaults(tree[last]).value]
            else DefaultsIn(ps, tree, init)
  {
    DefaultsPathBack(last);
    forall scope ensures DefaultsPath(scope) in init ==> ClassifyDefaults(DefaultsPath(scope)).Some? ==>
      DefaultsPath(ClassifyDefaults(DefaultsPath(scope)).value) == DefaultsPath(scope)
    {
      DefaultsPathBack(DefaultsPath(scope));
    }
  }

  /** Every walk finds exactly what its files declare, the later of two files for one slot winning. */
  lemma {:induction false} ScanIsDeclared(ps: Parsers, tree: Tree, order: seq<Path>)
    requires forall p :: p in order ==> p in tree
    ensures ScanAll(ps, tree, order) == Declared(ps, tree, order)
  {
    if order == [] {
      assert ServicesIn([]) == {};
    } else {
      ScanIsDeclared(ps, tree, order[..|order| - 1]);
      VisitDeclared(ps, tree, order);
    }
  }

  // ---------------------------------------------------------------------------
  // When the order of the walk matters
  // ---------------------------------------------------------------------------

  predicate SameContent(ps: Parsers, slot: Slot, a: Bytes, b: Bytes)
  {
    match slot
    case ConfigSlot => ps.config(a) == ps.config(b) && ps.digest(a) == ps.digest(b)
    case EnvVarsSlot => ps.envVars(a) == ps.envVars(b) && ps.digest(a) == ps.digest(b)
    case SecretsSlot => ps.secrets(a) == ps.secrets(b)
  }

  /** No two files fill one slot with different content. */
  ghost predicate SlotsAgree(ps: Parsers, tree: Tree)
  {
    forall p, q, svc, slot ::
      p in tree && q in tree && Fills(ps, tree, p, svc, slot) && Fills(ps, tree, q, svc, slot) ==>
        SameContent(ps, slot, tree[p], tree[q])
  }

  /** No recognised service file lies deeper than its file name. */
  ghost predicate Canonical(tree: Tree)
  {
    forall p :: p in tree && ClassifyService(p).Some? ==> |p| == 8
  }

  lemma CanonicalSlotsAgree(ps: Parsers, tree: Tree)
    requires Canonical(tree)
    ensures SlotsAgree(ps, tree)
  {
    forall p, q, svc, slot |
      p in tree && q in tree && Fills(ps, tree, p, svc, slot) && Fills(ps, tree, q, svc, slot)
      ensures p == q
    {
      CanonicalPath(p);
      CanonicalPath(q);
    }
  }

  lemma SameRaw(ps: Parsers, tree: Tree, order: seq<Path>, other: seq<Path>, svc: Service)
    requires Walks(tree, order) && Walks(tree, other) && SlotsAgree(ps, tree)
    ensures DeclaredRaw(ps, tree, order, svc) == DeclaredRaw(ps, tree, other, svc)
  {
    forall slot
      ensures var a, b := LastIn(ps, tree, order, svc, slot), LastIn(ps, tree, other, svc, slot);
              a.Some? == b.Some? &&
              (a.Some? ==> a.value in tree && b.value in tree && SameContent(ps, slot, tree[a.value], tree[b.value]))
    {
      LastInIsLast(ps, tree, order, svc, slot);
      LastInIsLast(ps, tree, other, svc, slot);
    }
    LatestInIsLatest(ps, tree, order, svc);
    LatestInIsLatest(ps, tree, other, svc);
  }

  lemma SameScan(ps: Parsers, tree: Tree, order: seq<Path>, other: seq<Path>)
    requires Walks(tree, order) && Walks(tree, other) && SlotsAgree(ps, tree)
    ensures ScanAll(ps, tree, order) == ScanAll(ps, tree, other)
  {
    ScanIsDeclared(ps, tree, order);
    ScanIsDeclared(ps, tree, other);
    SameData(ps, tree, order, other);
    SameDefaultsAndFailures(ps, tree, order, other);
  }

  lemma SameData(ps: Parsers, tree: Tree, order: seq<Path>, other: seq<Path>)
    requires Walks(tree, order) && Walks(tree, other) && SlotsAgree(ps, tree)
    ensures DeclaredData(ps, tree, order) == DeclaredData(ps, tree, other)
  {
    hide DeclaredRaw, SlotsAgree;
    assert ServicesIn(order) == ServicesIn(other);
    forall svc { SameRaw(ps, tree, order, other, svc); }
  }

  lemma SameDefaultsAndFailures(ps: Parsers, tree: Tree, order: seq<Path>, other: seq<Path>)
    requires Walks(tree, order) && Walks(tree, other)
    ensures DefaultsIn(ps, tree, order) == DefaultsIn(ps, tree, other)
    ensures FailuresIn(ps, tree, order) == FailuresIn(ps, tree, other)
  {
  }

  /** A walk that ends with a given file. */
  lemma WalkEndingWith(tree: Tree, p: Path) returns (order: seq<Path>)
    requires p in tree
    ensures Walks(tree, order) && order != [] && order[|order| - 1] == p
  {
    var rest := tree - {p};
    order := WalkOrder(rest) + [p];
    assert Walks(rest, WalkOrder(rest)) && p !in WalkOrder(rest);
  }

  /** The order of the walk does not matter if and only if no two files fill one slot with different content. */
  lemma WalkOrderDoesNotMatter(ps: Parsers, tree: Tree)
    ensures (forall order :: Walks(tree, order) ==> ScanAll(ps, tree, order) == ScanAll(ps, tree, WalkOrder(tree)))
            <==> SlotsAgree(ps, tree)
  {
    if SlotsAgree(ps, tree) {
      forall order | Walks(tree, order) ensures ScanAll(ps, tree, order) == ScanAll(ps, tree, WalkOrder(tree)) {
        SameScan(ps, tree, order, WalkOrder(tree));
      }
    }
    if forall order :: Walks(tree, order) ==> ScanAll(ps, tree, order) == ScanAll(ps, tree, WalkOrder(tree)) {
      forall p, q, svc, slot |
        p in tree && q in tree && Fills(ps, tree, p, svc, slot) && Fills(ps, tree, q, svc, slot)
        ensures SameContent(ps, slot, tree[p], tree[q])
      {
        LastFileShows(ps, tree, p, svc, slot);
        LastFileShows(ps, tree, q, svc, slot);
      }
    }
  }

  /** Whatever fills a slot is what some walk finds there. */
  lemma LastFileShows(ps: Parsers, tree: Tree, p: Path, svc: Service, slot: Slot)
    requires p in tree && Fills(ps, tree, p, svc, slot)
    requires forall order :: Walks(tree, order) ==> ScanAll(ps, tree, order) == ScanAll(ps, tree, WalkOrder(tree))
    ensures var data := ScanAll(ps, tree, WalkOrder(tree)).data;
            svc in data &&
            match slot
            case ConfigSlot => data[svc].config == ps.config(tree[p]) && data[svc].configDigest == ps.digest(tree[p])
            case EnvVarsSlot =>
              data[svc].envVars == ps.envVars(tree[p]) && data[svc].envVarsDigest == ps.digest(tree[p])
            case SecretsSlot => data[svc].secrets == ps.secrets(tree[p])
  {
    var order := WalkEndingWith(tree, p);
    ScanIsDeclared(ps, tree, order);
    assert LastIn(ps, tree, order, svc, slot) == Some(p);
    assert svc in ServicesIn(order);
  }

  /** Where files lie directly in their service's directory, each part is what the file at its path says. */
  lemma CanonicalFiles(ps: Parsers, tree: Tree, order: seq<Path>, svc: Service, slot: Slot)
    requires Canonical(tree) && Walks(tree, order)
    ensures LastIn(ps, tree, order, svc, slot) ==
            var p := ServicePath(svc, slot); if p in tree && Parses(ps, p, tree[p]) then Some(p) else None
  {
    var p := ServicePath(svc, slot);
    ServicePathClassified(svc, slot);
    LastInIsLast(ps, tree, order, svc, slot);
    assert p in tree && Parses(ps, p, tree[p]) ==> p in order && Fills(ps, tree, p, svc, slot);
    if LastIn(ps, tree, order, svc, slot).Some? {
      CanonicalPath(LastIn(ps, tree, order, svc, slot).value);
    }
  }
}
