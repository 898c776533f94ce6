/**
 The change history of one service, newest first, read page by page: each request
 names the last version of the page before it.
 */
module HistoryPages {
  import opened Common
  import opened Git
  import opened Serving
  import opened Revert

  /** A commit that changed recognised files of the service. */
  datatype Entry = Entry(version: History, message: string, filesChanged: set<Path>)

  datatype HistoryError = MissingName | BadLimit | BadFile | UnknownService

  // ---------------------------------------------------------------------------
  // The history
  // ---------------------------------------------------------------------------

  function ChangedFiles(h: History, svc: Service): set<Path>
    requires h != []
  {
    var now, past := FilesAt(h, svc), FilesAt(h[..|h| - 1], svc);
    set p | p in now.Keys + past.Keys && (p !in now || p !in past || now[p] != past[p])
  }

  lemma ChangesMeansChangedFiles(h: History, svc: Service)
    requires h != []
    ensures Changes(h, svc) <==> ChangedFiles(h, svc) != {}
  {
    var now, past := FilesAt(h, svc), FilesAt(h[..|h| - 1], svc);
    if ChangedFiles(h, svc) == {} {
      assert now.Keys == past.Keys by {
        assert forall p :: p in now.Keys + past.Keys ==> p !in ChangedFiles(h, svc);
      }
      assert now == past by {
        assert forall p :: p in now.Keys + past.Keys ==> p !in ChangedFiles(h, svc);
      }
    }
  }

  function EntryOf(h: History, svc: Service): Entry
    requires h != []
  {
    Entry(h, h[|h| - 1].message, ChangedFiles(h, svc))
  }

  /** All entries, newest first. */
  function Entries(h: History, svc: Service): seq<Entry>
  {
    if h == [] then []
    else if Changes(h, svc) then [EntryOf(h, svc)] + Entries(h[..|h| - 1], svc)
    else Entries(h[..|h| - 1], svc)
  }

  // ---------------------------------------------------------------------------
  // Filter, cursor and limit
  // ---------------------------------------------------------------------------

  predicate ValidFile(file: string)
  {
    file == "config" || file == "env_vars" || file == "secrets"
  }

  predicate KindMatches(kind: Option<FileKind>, file: string)
  {
    || (file == "config" && kind == Some(ConfigFile))
    || (file == "env_vars" && kind == Some(EnvVarsFile))
    || (file == "secrets" && (kind == Some(SecretsFile) || kind == Some(SealedSecretFile)))
  }

  predicate Matches(e: Entry, svc: Service, file: string)
  {
    file == "" || exists p :: p in e.filesChanged && KindMatches(Classify(p, svc), file)
  }

  function Filter(es: seq<Entry>, svc: Service, file: string): (r: seq<Entry>)
    ensures forall e :: e in r <==> e in es && Matches(e, svc, file)
  {
    if es == [] then []
    else (if Matches(es[0], svc, file) then [es[0]] else []) + Filter(es[1..], svc, file)
  }

  /** What comes after the entry with this version; nothing if there is none. */
  function After(es: seq<Entry>, version: History): seq<Entry>
  {
    if es == [] then [] else if es[0].version == version then es[1..] else After(es[1..], version)
  }

  function Take<T>(s: seq<T>, n: int): seq<T>
  {
    if n <= 0 then [] else if n >= |s| then s else s[..n]
  }

  /** An empty `before` starts at the newest entry. */
  function Page(es: seq<Entry>, svc: Service, file: string, before: History, limit: int): seq<Entry>
  {
    Take(Filter(if before == [] then es else After(es, before), svc, file), limit)
  }

  function HistoryErrorOf(served: Snapshot, svc: Service, file: string, limit: int): Option<HistoryError>
  {
    if svc.org == "" || svc.project == "" || svc.service == "" then Some(MissingName)
    else if limit <= 0 then Some(BadLimit)
    else if file != "" && !ValidFile(file) then Some(BadFile)
    else if svc !in served.data then Some(UnknownService)
    else None
  }

  /** Walks from HEAD to older commits and stops as soon as the page is full. */
  method ServiceHistory(store: Store, svc: Service, file: string, before: History, limit: int)
    returns (r: Result<seq<Entry>, HistoryError>)
    ensures r == match HistoryErrorOf(store.snapshot, svc, file, limit)
                 case Some(e) => Err(e)
                 case None => Ok(Page(Entries(store.repo.local, svc), svc, file, before, limit))
  {
    if svc.org == "" || svc.project == "" || svc.service == "" {
      return Err(MissingName);
    }
    if limit <= 0 {
      return Err(BadLimit);
    }
    if file != "" && !ValidFile(file) {
      return Err(BadFile);
    }
    if svc !in store.snapshot.data {
      return Err(UnknownService);
    }
    var entries := CollectPage(store.repo.local, svc, file, before, limit);
    return Ok(entries);
  }

  method CollectPage(head: History, svc: Service, file: string, before: History, limit: int)
    returns (entries: seq<Entry>)
    requires limit > 0
    ensures entries == Page(Entries(head, svc), svc, file, before, limit)
  {
    hide Page, Changes, Matches;
    entries := [];
    var beforeSeen := before == [];
    var rest := head;
    ghost var page := Page(Entries(rest, svc), svc, file, before, limit);
    while rest != []
      invariant |entries| < limit && (!beforeSeen ==> entries == [] && before != [])
      invariant page ==
                entries + Page(Entries(rest, svc), svc, file, if beforeSeen then [] else before, limit - |entries|)
      decreases |rest|
    {
      var commit := rest;
      rest := rest[..|rest| - 1];
      ChangesMeansChangedFiles(commit, svc);
      if ChangedFiles(commit, svc) == {} {
        continue;
      }
      var entry := EntryOf(commit, svc);
      EntryThenRest(entry, Entries(rest, svc), svc, file, if beforeSeen then [] else before, limit - |entries|);
      if !beforeSeen {
        beforeSeen := entry.version == before;
        continue;
      }
      if !Matches(entry, svc, file) {
        continue;
      }
      entries := entries + [entry];
      if |entries| >= limit {
        EmptyPage(Entries(rest, svc), svc, file, [], 0);
        return;
      }
    }
    EmptyPage([], svc, file, if beforeSeen then [] else before, limit - |entries|);
  }

  lemma EmptyPage(es: seq<Entry>, svc: Service, file: string, before: History, limit: int)
    requires es == [] || limit == 0
    ensures Page(es, svc, file, before, limit) == []
  {
  }

  lemma EntryThenRest(e: Entry, es: seq<Entry>, svc: Service, file: string, before: History, limit: int)
    requires limit > 0
    ensures Page([e] + es, svc, file, before, limit) ==
            if before != [] then Page(es, svc, file, if e.version == before then [] else before, limit)
            else if Matches(e, svc, file) then [e] + Page(es, svc, file, [], limit - 1)
            else Page(es, svc, file, [], limit)
  {
    assert ([e] + es)[1..] == es;
  }

  // ---------------------------------------------------------------------------
  // The whole history, once and in order
  // ---------------------------------------------------------------------------

  /** Entries stand for the commits up to `h` that changed the service, and no others. */
  lemma {:induction false} EntriesAreTheChanges(h: History, svc: Service, e: Entry)
    ensures e in Entries(h, svc) <==>
            e.version != [] && e.version <= h && Changes(e.version, svc) && e == EntryOf(e.version, svc)
  {
    hide Changes, EntryOf;
    if h != [] {
      var init := h[..|h| - 1];
      EntriesAreTheChanges(init, svc, e);
      assert e.version <= h <==> e.version <= init || e.version == h;
      assert Changes(h, svc) ==> EntryOf(h, svc).version == h by { VersionOfEntry(h, svc); }
    }
  }

  lemma VersionOfEntry(h: History, svc: Service)
    requires h != []
    ensures EntryOf(h, svc).version == h
  {
  }

  /** Newest first: every entry comes from a longer history than the entries after it. */
  lemma {:induction false} EntriesNewestFirst(h: History, svc: Service, i: nat, j: nat)
    requires i < j < |Entries(h, svc)|
    ensures Entries(h, svc)[j].version < Entries(h, svc)[i].version <= h
  {
    hide Changes, EntryOf;
    var init := h[..|h| - 1];
    var older := Entries(init, svc);
    VersionOfEntry(h, svc);
    if !Changes(h, svc) {
      EntriesNewestFirst(init, svc, i, j);
    } else if i > 0 {
      EntriesNewestFirst(init, svc, i - 1, j - 1);
    } else {
      assert Entries(h, svc)[j] == older[j - 1];
      EntriesAreTheChanges(init, svc, older[j - 1]);
    }
  }

  ghost predicate Distinct(es: seq<Entry>)
  {
    forall i, j :: 0 <= i < j < |es| ==> es[i].version != es[j].version
  }

  lemma EntriesAreDistinct(h: History, svc: Service)
    ensures Distinct(Entries(h, svc))
  {
    var es := Entries(h, svc);
    forall i, j | 0 <= i < j < |es| ensures es[i].version != es[j].version {
      EntriesNewestFirst(h, svc, i, j);
    }
  }

  /** Continuing after an entry of the filtered list gives the rest of that list. */
  lemma {:induction false} AfterFiltered(es: seq<Entry>, svc: Service, file: string, k: nat)
    requires Distinct(es) && k < |Filter(es, svc, file)|
    ensures Filter(After(es, Filter(es, svc, file)[k].version), svc, file) == Filter(es, svc, file)[k + 1..]
  {
    hide Matches;
    var rest := Filter(es[1..], svc, file);
    if Matches(es[0], svc, file) {
      if k > 0 {
        NotTheFirst(es, rest[k - 1]);
        AfterFiltered(es[1..], svc, file, k - 1);
      }
    } else {
      NotTheFirst(es, rest[k]);
      AfterFiltered(es[1..], svc, file, k);
    }
  }

  lemma NotTheFirst(es: seq<Entry>, e: Entry)
    requires Distinct(es) && es != [] && e in es[1..]
    ensures e.version != es[0].version
  {
    var i :| 0 <= i < |es[1..]| && es[1..][i] == e;
    assert es[i + 1] == e;
  }

  /** Commits added in front do not disturb a cursor. */
  lemma {:induction false} AfterIgnoresNewer(h: History, head: History, svc: Service, version: History)
    requires h <= head && version <= h
    ensures After(Entries(head, svc), version) == After(Entries(h, svc), version)
  {
    hide Changes;
    if h != head {
      var init := head[..|head| - 1];
      assert h <= init;
      AfterIgnoresNewer(h, init, svc, version);
      if Changes(head, svc) {
        assert Entries(head, svc)[1..] == Entries(init, svc);
      }
    }
  }

  /** The page after entry `k`, asked of any later HEAD. */
  lemma NextPage(h: History, head: History, svc: Service, file: string, k: nat, limit: int)
    requires h <= head && k < |Filter(Entries(h, svc), svc, file)|
    ensures var all := Filter(Entries(h, svc), svc, file);
            && all[k].version != []
            && Page(Entries(head, svc), svc, file, all[k].version, limit) == Take(all[k + 1..], limit)
  {
    var e := Filter(Entries(h, svc), svc, file)[k];
    EntriesAreTheChanges(h, svc, e);
    AfterIgnoresNewer(h, head, svc, e.version);
    EntriesAreDistinct(h, svc);
    AfterFiltered(Entries(h, svc), svc, file, k);
  }

  /** A page request: the HEAD it meets and its limit. */
  datatype Ask = Ask(head: History, limit: nat)

  /** A reader who follows the cursor until a page comes back empty. */
  function ReadPages(asks: seq<Ask>, svc: Service, file: string): seq<Entry>
  {
    if asks == [] then []
    else
      var init, last := asks[..|asks| - 1], asks[|asks| - 1];
      var read := ReadPages(init, svc, file);
      if init == [] then Page(Entries(last.head, svc), svc, file, [], last.limit)
      else if read == [] then []
      else read + Page(Entries(last.head, svc), svc, file, read[|read| - 1].version, last.limit)
  }

  function TotalLimit(asks: seq<Ask>): nat
  {
    if asks == [] then 0 else TotalLimit(asks[..|asks| - 1]) + asks[|asks| - 1].limit
  }

  /**
   Paging reads the filtered history as of the first request, from its newest entry
   on, with nothing repeated or skipped, whatever the limits and however many commits
   arrive in between.
   */
  lemma {:induction false} PagesReadTheHistory(asks: seq<Ask>, svc: Service, file: string)
    requires asks != []
    requires forall i :: 0 <= i < |asks| ==> asks[0].head <= asks[i].head && asks[i].limit > 0
    ensures ReadPages(asks, svc, file) == Take(Filter(Entries(asks[0].head, svc), svc, file), TotalLimit(asks))
  {
    hide Entries, Filter, EntryOf;
    var all := Filter(Entries(asks[0].head, svc), svc, file);
    var init, last := asks[..|asks| - 1], asks[|asks| - 1];
    if init == [] {
      assert TotalLimit(init) == 0;
    } else {
      PagesReadTheHistory(init, svc, file);
      AskedForSome(init);
      var read := ReadPages(init, svc, file);
      if read != [] {
        assert read == all[..|read|];
        NextPage(asks[0].head, last.head, svc, file, |read| - 1, last.limit);
        assert read[|read| - 1] == all[|read| - 1];
      }
    }
  }

  lemma AskedForSome(asks: seq<Ask>)
    requires asks != [] && forall i :: 0 <= i < |asks| ==> asks[i].limit > 0
    ensures TotalLimit(asks) > 0
  {
    assert asks[|asks| - 1].limit > 0;
  }

  /** With enough pages every matching change is read exactly once, and nothing else is. */
  lemma EnoughPagesReadEverythingOnce(asks: seq<Ask>, svc: Service, file: string)
    requires asks != []
    requires forall i :: 0 <= i < |asks| ==> asks[0].head <= asks[i].head && asks[i].limit > 0
    requires TotalLimit(asks) >= |Filter(Entries(asks[0].head, svc), svc, file)|
    ensures var read := ReadPages(asks, svc, file);
            && Distinct(read)
            && forall e :: e in read <==>
                 && e.version != [] && e.version <= asks[0].head && Changes(e.version, svc)
                 && e == EntryOf(e.version, svc) && Matches(e, svc, file)
  {
    PagesReadTheHistory(asks, svc, file);
    var es := Entries(asks[0].head, svc);
    EntriesAreDistinct(asks[0].head, svc);
    FilterKeepsDistinct(es, svc, file);
    forall e { EntriesAreTheChanges(asks[0].head, svc, e); }
  }

  lemma {:induction false} FilterKeepsDistinct(es: seq<Entry>, svc: Service, file: string)
    requires Distinct(es)
    ensures Distinct(Filter(es, svc, file))
  {
    if es != [] {
      FilterKeepsDistinct(es[1..], svc, file);
      forall e | e in Filter(es[1..], svc, file) { NotTheFirst(es, e); }
    }
  }

  // ---------------------------------------------------------------------------
  // What filters, cursors and entries mean
  // ---------------------------------------------------------------------------

  /** What the last commit did to one path. */
  predicate Touched(h: History, p: Path)
    requires h != []
  {
    var now, past := TreeOf(h), if |h| == 1 then map[] else TreeOf(h[..|h| - 1]);
    (p in now) != (p in past) || (p in now && p in past && now[p] != past[p])
  }

  /** An entry lists the recognised files that its commit added, removed or changed, and has its message. */
  lemma EntryListsTouchedFiles(h: History, svc: Service, p: Path)
    requires h != []
    ensures p in EntryOf(h, svc).filesChanged <==> Recognised(p, svc) && Touched(h, p)
    ensures EntryOf(h, svc).message == h[|h| - 1].message
  {
    assert |h| > 1 ==> h[..|h| - 1] != [];
  }

  /** The files behind each filter, by their paths below the service's directory. */
  predicate Admits(file: string, p: Path, svc: Service)
  {
    var root := ["configs", "orgs", svc.org, "projects", svc.project, "services", svc.service];
    || (file == "config" && p == root + ["config.yaml"])
    || (file == "env_vars" && p == root + ["env_vars.yaml"])
    || (file == "secrets" && (p == root + ["secrets.yaml"] || root + ["sealed-secrets"] < p))
  }

  lemma FilterAdmitsPaths(file: string, p: Path, svc: Service)
    ensures KindMatches(Classify(p, svc), file) <==> Admits(file, p, svc)
  {
    var root := ["configs", "orgs", svc.org, "projects", svc.project, "services", svc.service];
    assert ServiceRoot(svc) == root && |root| == 7;
    if root <= p {
      assert p == root + p[7..];
      assert root + ["sealed-secrets"] < p <==> |p[7..]| > 1 && p[7] == "sealed-secrets";
    } else {
      assert !(root + ["sealed-secrets"] < p);
    }
  }

  /** An entry is shown under a filter exactly when its commit touched a file behind it; without a filter, always. */
  lemma ShownByPaths(h: History, svc: Service, file: string)
    requires h != []
    ensures Matches(EntryOf(h, svc), svc, file) <==> file == "" || exists p :: Touched(h, p) && Admits(file, p, svc)
  {
    var e := EntryOf(h, svc);
    if file != "" {
      if p :| p in e.filesChanged && KindMatches(Classify(p, svc), file) {
        EntryListsTouchedFiles(h, svc, p);
        FilterAdmitsPaths(file, p, svc);
      }
      if p :| Touched(h, p) && Admits(file, p, svc) {
        EntryListsTouchedFiles(h, svc, p);
        FilterAdmitsPaths(file, p, svc);
        assert Recognised(p, svc);
        assert p in e.filesChanged;
      }
    }
  }

  /** Which requests get a page, and what the others are told, in this order. */
  lemma RefusalsInOrder(served: Snapshot, svc: Service, file: string, limit: int)
    ensures var r, named := HistoryErrorOf(served, svc, file, limit),
                            svc.org != "" && svc.project != "" && svc.service != "";
            && (r == Some(MissingName) <==> !named)
            && (r == Some(BadLimit) <==> named && limit < 1)
            && (r == Some(BadFile) <==> named && limit >= 1 && file !in {"", "config", "env_vars", "secrets"})
            && (r == None <==> && named && limit >= 1 && file in {"", "config", "env_vars", "secrets"}
                               && svc in served.data)
            && (r == Some(UnknownService) ==> svc !in served.data)
  {
  }

  /** A cursor that names no entry of the service yields an empty page. */
  lemma {:induction false} UnknownCursor(es: seq<Entry>, svc: Service, file: string, before: History, limit: int)
    requires before != [] && forall e :: e in es ==> e.version != before
    ensures Page(es, svc, file, before, limit) == []
  {
    if es != [] {
      assert forall e :: e in es[1..] ==> e in es;
      UnknownCursor(es[1..], svc, file, before, limit);
    }
  }
}
