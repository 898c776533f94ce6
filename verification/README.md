# Verification of the config server and its agent

A Dafny model of the parts of the system that carry real protocol, state or algebra, with proofs of what
they promise. `dafny verify dfyconfig.toml` checks everything.

The config server serves a Git branch: it pulls, parses everything below `configs/`, and swaps in a new
snapshot only when all of it parsed. Writers commit through one local clone and push to a remote that other
writers push to as well. An agent watches for new versions, delays rollouts, and renders shell exports. A
second service keeps a registry of apps from events that may arrive late, twice, or out of order.

| Module | What it models |
|---|---|
| `Git`, `GitRepo` | trees, branches, and the retry protocol between one clone and one contended remote |
| `SecretEntries`, `SecretWrites` | the merge of secret metadata, and runs of secret writes through the protocol |
| `Snapshots`, `Serving` | the scan of one commit, inheritance, and fail-closed reload |
| `Inheritance` | which of the four files an inherited value comes from |
| `VersionTokens`, `DroppedDefaults` | what equal version tokens say about payloads, and exactly where they do not |
| `StoreWrites` | changes and deletions of a service together with the reload that ends them |
| `Watch` | long polling, interleaved step by step with reloads |
| `Revert`, `HistoryPages` | rolling a service back, and paging through its history |
| `ConfigMerge` | the recursive merge with delete-by-null and the fold of layers |
| `Registry` | the last-writer-wins app cache with watermarks and tombstones |
| `Debounce` | the agent's cooldown and debounce timer |
| `EnvShell`, `JsonNumber` | the `env.sh` printer against a shell reader, and the number scanner against the JSON grammar |
| `Ordering`, `Common` | sorting, and options and results |

## Conventions

- A branch is the sequence of its commits, and a commit hash is the history it names: equal hashes mean equal
  ancestry, which is what Git's hashing is for. An empty history is the empty string the program uses for
  "no version".
- Paths are split at the slashes; a tree is the flat map of its files.
- Parsers, the YAML printer and the digest are parameters. Digests are assumed free of collisions, and YAML
  printing is assumed to be undone by parsing.
- Competitors push whenever they like. What is assumed of their commits is the parameter `policy`, a relation
  between a commit's tree and its parent's; the protocol theorems hold for every policy that admits the clone's
  own commits.
- A push that fails may still have reached the remote. Then the clone resets its commit and the remote keeps it.
- Times are integers. `Registry` and `Debounce` work on instants; a malformed timestamp is a case of its own.

## Findings

- Dropping the last contributing defaults of a service can go unnoticed by a watcher of its inherited view. It does
  exactly when the new commit leaves the service's own file alone, that file was last changed by the very HEAD
  being replaced, and the defaults were not redundant (`DroppedDefaults.DroppedDefaultsGoUnnoticed`). Had the file
  been loaded at any earlier HEAD, its token would differ from that HEAD and the watcher would be told. In general,
  equal inherited tokens mean equal payloads if and only if both snapshots agree on whether defaults contribute, or
  the defaults of the one that has them change nothing for this service (`VersionTokens.EqualTokensEqualViews`).
- Merging the same override twice is not always merging it once: a null nested under a key the base does not
  have as a map survives the first merge and deletes in the second. The exact condition is
  `ConfigMerge.Settles`; the exact condition for associativity is `ConfigMerge.Associates`.
- A `secrets.yaml` that names one pointer twice passes the parser, and the next merge, whatever it writes, drops the
  entry listed first (`SecretEntries.PointerListedTwice`). Existing entries survive a merge exactly when pointers are
  distinct (`SecretEntries.MergeKeepsEntries`).
- Reverting to a commit whose only service files are sealed secrets succeeds, and takes the service out of what is
  served, unless some other file lies below a directory named like a service file. Preparing that revert again is
  then refused as "service not found" (`Revert.PreparingAgain`; two commits on which it happens:
  `Revert.SealedTargetTakesServiceAway`).
- A revert can be undone by reverting to the last change before it if and only if the reverted service is still
  served and had files just before the revert (`Revert.UndoIsOnOffer`). It had none if a competitor deleted it while
  the revert was being applied: the revert brings the service back, and its own base is then refused as a target
  (`Revert.DeletionUnderneathRevert`).
- A response whose HEAD is read after another reload can carry the old content under the new label, and a watch with
  that label does not return. For inherited resources to which defaults contributed, it happens exactly when the
  merged content differs and, in the later snapshot, defaults still contribute or the resource was last changed by
  that very HEAD (`VersionTokens.StrandedExactly`; two commits on which it happens:
  `DroppedDefaults.LateLabelStrandsReader`). Raw responses are safe (`VersionTokens.RawReaderNotStranded`).
- Deliveries of the same registry events end in the same cache, whatever their order and repetition, if and only if
  the newest events of each key agree in effect and no event is stamped more than the retention after a delete that
  is its key's newest event (`Registry.ConvergesExactly`).
- The order in which files are walked matters if and only if two files fill the same slot of a service with
  different content, which needs a directory named like a service file (`Snapshots.WalkOrderDoesNotMatter`).

## Model

| member | source | states |
|---|---|---|
| `GitRepo.Remote.Interfere` | internal/gitops/repo.go:326-411 | competitors may extend the remote by any commits their policy allows, at any point |
| `GitRepo.Remote.Push` | internal/gitops/repo.go:378-409 | only a fast-forward lands; a failed answer may hide a landed push, a rejection never does |
| `GitRepo.Repo.Pull` | internal/gitops/repo.go:280-315 | the clone moves forward to the remote as fetched and reports whether HEAD moved; on failure nothing moves |
| `GitRepo.Repo.Publish` | internal/gitops/repo.go:361-409 | a clean checkout commits nothing; an accepted push leaves one new commit holding the checkout; otherwise the clone is back at the parent with a clean checkout and still a prefix of the remote |
| `GitRepo.Repo.ResetToParent` | internal/gitops/repo.go:1017-1035 | branch and checkout go back to HEAD~1 |
| `GitRepo.Repo.CommitAndPushFunc` | internal/gitops/repo.go:326-411 | however it returns, the clone is a prefix of a remote that was only extended; on success the returned commit is the freshly pulled base overlaid with files built from that same base, pushed once, or the base itself when nothing differs; what it reports is what the remote answered in at most three attempts |
| `GitRepo.Repo.DeleteAndPush` | internal/gitops/repo.go:422-510 | the same protocol; the commit is the pulled base minus the paths, and the reported paths are exactly those that were there |
| `GitRepo.Repo.RemovePaths` | internal/gitops/repo.go:666-699 | files and whole directories go, and what is reported is exactly what went |
| `GitRepo.Repo.RestoreServiceFilesAndPush` | internal/gitops/repo.go:515-617 | the same protocol; the recognised files of the service become exactly the given ones |
| `GitRepo.Repo.Snapshot` | internal/gitops/repo.go:745-797 | the files handed out are those of the reported HEAD below configs/; refused exactly when the checkout differs from HEAD there |
| `GitRepo.ReportedAsAnswered` | internal/gitops/repo.go:339-411 | an accepted push is reported as success, a failed push, a failed pull and three rejections each as their own error, and nothing else is |
| `GitRepo.SameBelowConfigs` | internal/gitops/repo.go:766-797 | two trees agree below configs/ exactly when they agree on every path there |
| `Git.Classify` | internal/gitops/repo.go:981-1002 | the four kinds of recognised file, all strictly below the service's own directory |
| `Git.FollowsTransitive` | internal/gitops/repo.go:326-411 | extension of a branch by permitted commits composes |
| `Git.RestoreIsExact` | internal/gitops/repo.go:515-617 | after a restore the recognised files equal the target set and every other path is untouched |
| `Git.RestoreIsNoop` | internal/gitops/repo.go:515-617 | a restore changes nothing if and only if the files were the target's already |
| `Git.DeleteIsExact` | internal/store/store.go:1370-1376 | deleting a service removes all its recognised files and nothing outside its directory |
| `SecretEntries.FirstFreeIsFirst` | internal/store/store.go:1219-1237 | the suffix search ends (ids in use run out) at the smallest free number |
| `SecretEntries.UniqueIDIsFresh` | internal/store/store.go:1219-1237 | the chosen id is in use by no entry, and is not empty |
| `SecretEntries.UniqueIDPrefersShort` | internal/store/store.go:1219-1237 | the key if it is free, else name-key, else namespace-name-key, else that with the first free number from 2 on |
| `SecretEntries.DecimalReadsBack` | internal/store/store.go:1231-1236 | numbers are written in decimal |
| `SecretEntries.UniqueSecretID` | internal/store/store.go:1219-1237 | the unbounded loop ends and returns the specified free id |
| `SecretEntries.MergeSecretEntries` | internal/store/store.go:1162-1217 | existing entries, then an entry with a fresh id for each new pointer in the order of the writes, sorted by id |
| `SecretEntries.WriteOrder` | internal/store/store.go:1334-1351 | every written pointer once, by name and then by key |
| `SecretEntries.MergePointers` | internal/store/store.go:1162-1217 | the output passes the parser's duplicate check, repeats no pointer, and names exactly the existing and the written pointers |
| `SecretEntries.NewEntriesInTurn` | internal/store/store.go:1179-1200 | in the order of the writes, each new pointer gets the first id free in its turn, and no description |
| `SecretEntries.MergeSortedByID` | internal/store/store.go:1202-1217 | the output is in byte order of the ids |
| `SecretEntries.MergeKeepsEntries` | internal/store/store.go:1162-1178 | all existing entries survive unchanged if and only if no pointer was listed twice |
| `SecretEntries.PointerListedTwice` | internal/store/store.go:1162-1178 | an input: of two entries for one pointer, which the parser accepts, every merge drops the first |
| `SecretEntries.MergeAgain` | internal/store/store.go:1162-1217 | merging the same writes again changes nothing |
| `SecretEntries.MergeIsDeterministic` | internal/store/store.go:1162-1217 | two merges of the same inputs agree, although maps are walked in no fixed order |
| `SecretEntries.MergedIsMerge` | internal/store/store.go:1162-1217 | such an output exists for all inputs, so the merge is a total function |
| `SecretEntries.LoadCoherent` | internal/parser/secrets.go:23-32 | what the parser accepts loads into two tables that agree, with every id owned by one pointer |
| `SecretEntries.AddAllKeeps` | internal/store/store.go:1162-1217 | adding pointers keeps every present entry and its id and gives new pointers ids of their own |
| `SecretWrites.BuildOnlyAdds` | internal/store/store.go:1040-1075 | the files of a secret write, laid over the tree they were built from, add exactly the written pointers and lose no entry |
| `SecretWrites.WriteSecrets` | internal/store/store.go:1034-1075 | whatever the outcome and the competition, the remote's entries only grow; after success the written pointers are in the remote's list |
| `SecretWrites.WriteAll` | internal/gitops/repo.go:339-348 | over any run of writes, rejected or not, no entry is lost and every successful write's pointers are there at the end |
| `SecretWrites.IdsNeverChange` | internal/store/store.go:1040-1075 | a pointer keeps its id and description in every later tree |
| `SecretWrites.KeptPointers` | internal/store/store.go:1116-1129 | the set of pointers only grows |
| `Snapshots.VisitEffect` | internal/store/store.go:1558-1620 | what one file does to services, defaults and failures |
| `Snapshots.VisitDeclared` | internal/store/store.go:1558-1620 | one more file takes the scan of any walk to the scan of the longer walk |
| `Snapshots.ScanIsDeclared` | internal/store/store.go:1420-1443 | every walk finds exactly what its files declare, part by part from the last file that fills it |
| `Snapshots.LastInIsLast` | internal/store/store.go:1558-1598 | a part comes from the last file of the walk that is in its place and parses, and is absent only if there is none |
| `Snapshots.LatestInIsLatest` | internal/store/store.go:1827-1840 | the timestamp of a service is the latest of its files, whatever their order |
| `Snapshots.WalkOrderDoesNotMatter` | internal/gitops/repo.go:716-735 | all orders of the walk give the same services, defaults and failures if and only if no two files fill one slot with different content |
| `Snapshots.CanonicalSlotsAgree` | internal/store/store.go:1842-1878 | which holds when service files lie directly in their service's directory |
| `Snapshots.CanonicalFiles` | internal/store/store.go:1842-1878 | and then each part is what the file at its one path says |
| `Snapshots.DefaultsPathBack` | internal/store/store.go:1880-1917 | a defaults file is recognised only at the one path of its scope |
| `Snapshots.CanonicalPath` | internal/store/store.go:1842-1878 | a recognised path of eight components is the path of its service and file |
| `Serving.InheritedEnvVarsFor` | internal/store/store.go:1713-1744 | skipping empty defaults gives the same as the plain right-biased fold of all layers |
| `Serving.Store.Reload` | internal/store/store.go:1420-1468 | the whole new state of a reload: either one complete commit and a clean flag, or the old snapshot and degraded; the channel is closed and replaced exactly when a different HEAD was stored |
| `Serving.Store.NotifyVersionChange` | internal/store/store.go:1480-1485 | the old channel is closed, the new one is open |
| `Serving.Store.ScanFiles` | internal/store/store.go:1420-1443 | the callback over all files amounts to the scan |
| `Serving.Store.CompleteAll` | internal/store/store.go:1448-1458 | every scanned service gets timestamp, inheritance and tokens from the previous snapshot |
| `Serving.Store.RefreshFromRepo` | internal/store/store.go:187-215 | what it reports and leaves behind for each answer of the remote: pull failed, HEAD unmoved, HEAD moved and loaded, HEAD moved and not loadable |
| `Serving.Store.ReloadFromRepo` | internal/store/store.go:217-244 | the same for the forced reload, which reports an update exactly when the pull moved HEAD, another version is served, or it was degraded |
| `Serving.LoadIsWholeCommit` | internal/store/store.go:1420-1468 | a loaded snapshot is the complete parse of one commit: every service with its raw parts, the sources of its defaults, and its inherited config and variables, at every path and name that of the last layer deciding it |
| `Serving.LoadsWhenAllParse` | internal/store/store.go:1432-1443 | a clean checkout loads if and only if every file below configs/ parses |
| `Serving.LoadsWhenFilesParse` | internal/store/store.go:1420-1443 | the same by kind of file: defaults, configs, variables and secret lists, each by its own parser |
| `Serving.DatedByFilesOrLoad` | internal/store/store.go:1448-1454 | a service is dated by its files, or by the load if they carry no date |
| `Serving.ServedServices` | internal/store/store.go:1842-1878 | a loaded commit serves exactly the services with a file in one of their slots |
| `Serving.FoldReadsLastSetting` | internal/store/store.go:1713-1744 | for every variable and secret reference, the fold of the layers has the value of the last layer setting it |
| `Serving.EnvVarsViewReads` | internal/store/store.go:1713-1744 | and so does the inherited view, present or not |
| `Serving.ViewReadsLastDecision` | internal/store/store.go:1683-1711 | the inherited view reads, at every path, as the last layer deciding that path |
| `Serving.ServedIsWholeCommit` | internal/store/store.go:306-309 | after any run of attempts on any commits the served view is empty or one whole commit, and degraded means exactly that the last attempt failed |
| `Inheritance.ScopesByFiles` | internal/store/store.go:1880-1917 | in a commit that loads, the defaults of each scope are those of the file at its one path, and the file parses |
| `Inheritance.InheritedConfigByFiles` | internal/store/store.go:1669-1711 | at every path the inherited config is that of the own file where it decides, else of the project's defaults file, else of the organisation's, else of the global one |
| `Inheritance.InheritedEnvVarsByFiles` | internal/store/store.go:1713-1744 | for every variable and secret reference likewise |
| `Inheritance.SourcesByFiles` | internal/store/store.go:1658-1681 | the named sources are the files that exist, from the widest scope on, with what each contributes; there is a view exactly if some file has a block |
| `Inheritance.ContributionsByFiles` | internal/handler/handler.go:1629-1645 | defaults contribute to a resource exactly when one of the three files has a block for it |
| `VersionTokens.OnlySuccessesCount` | internal/store/store.go:1420-1468 | failed reloads leave no trace in the served snapshot |
| `VersionTokens.NextToken` | internal/store/store.go:1487-1537 | a reload keeps the token when presence and digest are as before, and otherwise takes the new hash |
| `VersionTokens.TokenNamesStretchStart` | internal/store/store.go:1487-1537 | a token is the hash of the first reload of the unbroken stretch in which the service was there and the resource unchanged |
| `VersionTokens.TokenNotEmpty` | internal/store/store.go:1539-1551 | a served service always has a token |
| `VersionTokens.ScanBacked` | internal/store/store.go:1558-1598 | every recorded digest is that of bytes which parse to the recorded content |
| `VersionTokens.SameTokenSameRaw` | internal/store/store.go:1487-1537 | equal raw tokens mean equal raw payloads and presence, even across runs |
| `VersionTokens.SameTokenSameView` | internal/handler/handler.go:612-636 | equal inherited tokens mean equal inherited payloads where both agree on whether defaults contribute |
| `VersionTokens.DisagreeingTokensCollide` | internal/handler/handler.go:612-636 | where only one has contributing defaults, tokens collide if and only if the other's current content of the resource was first loaded with the very HEAD of the one with the defaults |
| `VersionTokens.EqualTokensEqualViews` | internal/handler/handler.go:612-636 | equal inherited tokens mean equal payloads if and only if both agree on contributing defaults or the defaults of the one side are redundant, for both resources and any two snapshots |
| `VersionTokens.CollidingViews` | internal/handler/handler.go:612-636 | the half of that where they disagree |
| `VersionTokens.ViewIsOverlay` | internal/store/store.go:1658-1744 | every inherited view is the raw resource laid over the commit's merged defaults |
| `VersionTokens.ViewWithoutDefaults` | internal/store/store.go:1658-1711 | without contributing defaults the inherited view follows from the raw resource |
| `VersionTokens.SameVersionSameView` | internal/store/store.go:1658-1744 | inherited views depend on the commit alone |
| `VersionTokens.LabelIsToken` | internal/handler/handler.go:676-754 | data and HEAD read from one snapshot: the label is the token watchers compare with |
| `VersionTokens.LabelUnderSwap` | internal/handler/handler.go:676-754 | HEAD read from a later snapshot: a raw label is unaffected, an inherited one with defaults is that later HEAD |
| `VersionTokens.RawReaderNotStranded` | internal/handler/handler.go:676-754 | a raw response never carries a token under which other content is served |
| `VersionTokens.StrandedExactly` | internal/handler/handler.go:676-754 | exactly when an inherited response, labelled after another reload, carries the later token and the earlier content |
| `VersionTokens.ReloadingSameHeadKeepsTokens` | internal/store/store.go:217-244 | reloading a HEAD that has not moved changes no token, raw or inherited |
| `DroppedDefaults.DroppedDefaultsGoUnnoticed` | internal/handler/handler.go:612-636 | a reload that ends the contribution of defaults of any scope changes a view without changing its token if and only if the resource is unchanged, was last changed by the replaced HEAD, and the defaults were not redundant |
| `DroppedDefaults.TwoCommitsGoUnnoticed` | internal/handler/handler.go:612-636 | an input: config and defaults in one commit, the defaults deleted in the next |
| `DroppedDefaults.WhatTheLoadsServe` | internal/store/store.go:1622-1711 | what the two loads of that example serve |
| `DroppedDefaults.LateLabelStrandsReader` | internal/handler/handler.go:676-718 | an input: a key taken out of the defaults between reading the data and reading HEAD |
| `Watch.StepKeepsInv` | internal/store/store.go:1460-1485 | every step of the reloader or of any waiter keeps the invariant: lock ownership, forward-moving HEAD, no lost wake-up, honest answers |
| `Watch.EveryStateInv` | internal/store/store.go:283-302 | so every state of every interleaving has it |
| `Watch.RawLookTells` | internal/handler/handler.go:571-580 | a raw watcher that looks is told of another token, or that the service is gone, at once, and waits otherwise |
| `Watch.InheritedFirstRead` | internal/handler/handler.go:617-620 | an inherited watcher keeps the snapshot of its first read |
| `Watch.InheritedLookTells` | internal/handler/handler.go:612-636 | after its second read it is told exactly if HEAD, or where no defaults contribute the raw token, differs from its own |
| `Watch.NotModifiedOnlyAtDeadline` | internal/handler/handler.go:566-570 | not modified is answered only past the deadline: before looking at all, or after one more look that found HEAD unmoved |
| `Watch.DeadlineTells` | internal/handler/handler.go:566-595 | past the deadline not modified is answered, unless the last look finds that HEAD has moved |
| `Watch.NotFoundIsReal` | internal/handler/handler.go:571-575 | not found is answered only if a served snapshot had no such service |
| `Watch.AnswersAreFinal` | internal/handler/handler.go:541-599 | an answer, once given, stands |
| `Watch.WokenWatcherLooksAgain` | internal/store/store.go:283-302 | a watcher woken while another HEAD is served is back at reading its token after exactly three moves of its own |
| `Watch.WokenWatcherCanMove` | internal/store/store.go:1470-1485 | no waiting watcher is stuck: its next move is enabled, or whoever holds the mutex can let go |
| `Watch.ReloaderCanMove` | internal/store/store.go:1460-1485 | the reloader waits for nothing but the mutex |
| `Watch.CloseOnlyForNewHead` | internal/store/store.go:1460-1468 | the channel is closed only for a HEAD that differs from the one before |
| `Watch.DegradedByLastOutcome` | internal/store/store.go:306-309 | degraded means that the outcome recorded last was a failure |
| `Watch.NoLostWakeup` | internal/store/store.go:1470-1485 | a parked waiter's channel is closed, or is current with the awaited HEAD still served, or is current and the reloader is between store and close |
| `Watch.BlockedMeansCurrent` | internal/handler/handler.go:541-599 | with the reloader idle, whoever is still blocked, raw or inherited, holds the token that is served |
| `Watch.WakeupsAreReal` | internal/store/store.go:283-302 | a change is reported only with a different HEAD that was served during the call |
| `Watch.ChangesAreReal` | internal/handler/handler.go:612-636 | a watcher is answered only when one of the snapshots it read had another token, even if a reload fell between the two reads of an inherited token |
| `Watch.CombinedIsReal` | internal/handler/handler.go:612-636 | a token put together from two snapshots differs only if that of one of them does |
| `Watch.TokenReachesBack` | internal/store/store.go:1515-1537 | a later token that is an earlier HEAD was the token at that HEAD already |
| `Watch.FailureChangesNothing` | internal/store/store.go:1438-1446 | a failed reload is invisible to watchers: it commutes with every step of every watcher |
| `Watch.ReloadsMayFollow` | internal/store/store.go:1460-1468 | real reloads of a growing branch are steps of this state machine |
| `Watch.BlockedRawWatcherIsUpToDate` | internal/handler/handler.go:541-599 | a raw watcher still blocked holds exactly the payload now served: it has missed no change |
| `Watch.BlockedInheritedWatcher` | internal/handler/handler.go:541-599 | a blocked inherited watcher holds the payload now served if and only if no defaults that mattered to it came or went |
| `Revert.TargetChangedService` | internal/store/store.go:857-873 | true if and only if the target is on the branch and changed the service |
| `Revert.SameFiles` | internal/store/store.go:914-925 | the comparison by size and lookups decides equality |
| `Revert.PrepareRevert` | internal/store/store.go:609-681 | the plan or the error, as a function of what is served and of HEAD |
| `Revert.PlanByPaths` | internal/store/store.go:609-681 | when there is a plan, and path by path what it restores and deletes, when it is a no-op, and its message |
| `Revert.RefusalsInOrder` | internal/store/store.go:609-660 | the first thing that is wrong is what a refusal names |
| `Revert.ManifestsApplicable` | internal/store/store.go:737-743 | no restore goes ahead with an unidentified sealed secret, or with any and no applier |
| `Revert.SettledPlan` | internal/store/store.go:686-722 | the first plan stands unless it is a no-op; then exactly what pull, reload and the second plan give, or the files of a HEAD that does not load |
| `Revert.PlanAfterPull` | internal/store/store.go:695-722 | the three ways that ends: the pull failed, HEAD loaded and was planned on again, or HEAD did not load and is judged by its files |
| `Revert.ApplyPlan` | internal/store/store.go:737-771 | on success the commit is the pulled base with the service's files replaced, served exactly if it loads; refused for its manifests before any pull; otherwise reported as the remote answered |
| `Revert.ApplyRevert` | internal/store/store.go:686-772 | the two together: every answer as a function of the settled plan and of what the remote answered |
| `Revert.LastChangeExists` | internal/gitops/repo.go:904-951 | a service with files has a last change |
| `Revert.LastChangeHoldsCurrentFiles` | internal/gitops/repo.go:953-976 | since its last change a service's files are that commit's |
| `Revert.RestoreIsExactFrame` | internal/gitops/repo.go:515-617 | a successful revert's tree has the target's files for the service and the base's everywhere else |
| `Revert.ServedWithMainFile` | internal/store/store.go:1842-1878 | a service is served if and only if one of its three main files, or a file below a directory named like one, is in the commit |
| `Revert.PreparingAgain` | internal/store/store.go:609-681 | preparing the same revert after it is served is a no-op, unless the revert left the service without a file that makes it served, when it is not found |
| `Revert.RevertCanBeUndone` | internal/store/store.go:686-772 | reverting to the last commit that changed the service before a revert brings its files back, and the whole tree if nothing else was pushed |
| `Revert.UndoIsOnOffer` | internal/store/store.go:609-681 | once a revert is served, going back to the last change before it is planned, with the files of that time, if and only if the service is still served and its base had files of it; which error it is otherwise |
| `Revert.SealedTargetTakesServiceAway` | internal/store/store.go:609-681 | two commits on which a planned revert takes the service away and can neither be repeated nor undone |
| `Revert.SealedFirstLoads` | internal/store/store.go:1842-1878 | both histories of that example load |
| `Revert.DeletionUnderneathRevert` | internal/store/store.go:646-648 | a deletion pulled in by a revert: the service is back and served, the undo is refused, the last commit with files is not |
| `StoreWrites.DeleteChanges` | internal/store/store.go:1353-1405 | on success the commit is the pulled base without the service's files and, once reloaded, the service is not served |
| `StoreWrites.DeletedNotServed` | internal/store/store.go:1370-1376 | no file is left that would make the service show up |
| `StoreWrites.ApplyChanges` | internal/store/store.go:928-1114 | which requests are refused and why; on success the pulled base overlaid with the change's files is committed once and served, unless its reload failed |
| `StoreWrites.WriteChange` | internal/store/store.go:1023-1075 | changes with secrets and without: the commit is the newest pulled tree overlaid with exactly the files built from it |
| `StoreWrites.ChangeByPaths` | internal/store/store.go:985-1075 | each text of a change ends up at its own path, secrets and manifests included, and every other path is as before |
| `StoreWrites.WhenChangeBuilds` | internal/store/store.go:1040-1075 | a change fails to build exactly for a manifest outside the service or an unreadable secret list |
| `StoreWrites.WhichChangesAreAccepted` | internal/store/store.go:928-950 | which requests are accepted, and the message of one without |
| `StoreWrites.ServiceByPaths` | internal/store/store.go:1558-1598 | a loaded service has the config, variables and secret list of its own three paths, and is served exactly if there is a file |
| `StoreWrites.LoadServesFiles` | internal/store/store.go:1558-1598 | in a loaded commit each of a service's three files is served as it parses |
| `StoreWrites.WrittenSecretsServed` | internal/store/store.go:1040-1075 | once served, the secret list is the one in the commit and names exactly the pointers of the base and the written ones |
| `HistoryPages.ServiceHistory` | internal/store/store.go:464-510 | one page or the validation error: entries after the cursor that match the filter, up to the limit, stopping early |
| `HistoryPages.CollectPage` | internal/store/store.go:478-509 | the early-stopping walk computes the specified page |
| `HistoryPages.EntriesAreTheChanges` | internal/gitops/repo.go:904-951 | an entry for each commit that changed recognised files, and no other |
| `HistoryPages.EntriesNewestFirst` | internal/gitops/repo.go:904-951 | newest first, all versions different |
| `HistoryPages.EntryListsTouchedFiles` | internal/gitops/repo.go:953-976 | an entry lists exactly the recognised files its commit added, removed or changed |
| `HistoryPages.FilterAdmitsPaths` | internal/store/store.go:533-544 | which paths each filter admits |
| `HistoryPages.ShownByPaths` | internal/store/store.go:512-522 | an entry is shown exactly when its commit touched an admitted path |
| `HistoryPages.RefusalsInOrder` | internal/store/store.go:464-477 | which requests get a page, and what the others are told |
| `HistoryPages.UnknownCursor` | internal/store/store.go:480-487 | a cursor that names no entry yields an empty page |
| `HistoryPages.NextPage` | internal/store/store.go:464-510 | the page after an entry continues right behind it, also when commits were added in front |
| `HistoryPages.PagesReadTheHistory` | internal/store/store.go:464-510 | any sequence of pages reads a prefix of the filtered history, nothing repeated or skipped |
| `HistoryPages.EnoughPagesReadEverythingOnce` | internal/store/store.go:464-544 | with enough pages every matching change is read exactly once and nothing else is |
| `ConfigMerge.DeepMergeMap` | internal/store/store.go:1746-1785 | key by key on a copy, in any order, gives the merge |
| `ConfigMerge.InheritedConfigFor` | internal/store/store.go:1683-1711 | skipping empty defaults gives the same as folding all layers |
| `ConfigMerge.MergeReading` | internal/store/store.go:1746-1785 | at every path the override's reading where it decides, the base's elsewhere |
| `ConfigMerge.FoldReadsLastDecision` | internal/store/store.go:1683-1711 | at every path the fold of any layers reads as the last layer deciding it |
| `ConfigMerge.NoTopLevelNull` | internal/store/store.go:1746-1762 | no null survives at the top level |
| `ConfigMerge.InheritedConfigIsMerge` | internal/store/store.go:1683-1711 | what a reader sees is the own config merged onto the folded defaults, whether or not there is a view |
| `ConfigMerge.DroppingRedundantDefaults` | internal/store/store.go:1746-1785 | exactly which defaults can be dropped without changing the merge |
| `ConfigMerge.AbsorbedMeansOverwritten` | internal/store/store.go:1746-1762 | when a merge gives back its override, exactly |
| `ConfigMerge.MergeTwice` | internal/store/store.go:1746-1785 | merging an override twice is merging it once if and only if it is null-free wherever it lands on no map |
| `ConfigMerge.NullFreeSettles` | internal/store/store.go:1746-1785 | null-free overrides always meet that condition |
| `ConfigMerge.MergeTwiceReadsAsOnce` | internal/store/store.go:1746-1785 | with null read as absent, twice is once for all overrides |
| `ConfigMerge.MergeAssociates` | internal/store/store.go:1746-1785 | the exact condition under which three layers may be merged in either grouping |
| `ConfigMerge.SameShapeAssociates` | internal/store/store.go:1746-1785 | layers that agree on where maps are, the last null-free, associate |
| `ConfigMerge.NestedNullSurvivesOnce` | internal/store/store.go:1752-1759 | a null under a key the base lacks survives one merge, not two |
| `ConfigMerge.NullBreaksAssociativity` | internal/store/store.go:1752-1759 | a counterexample with a null |
| `ConfigMerge.ScalarBetweenMapsBreaksAssociativity` | internal/store/store.go:1752-1759 | a counterexample with a scalar between two maps |
| `Registry.Normalize` | internal/registry/types.go:50-72 | which field is reported missing, and how service and name stand in for each other |
| `Registry.Cache.ReplaceAll` | internal/registry/cache.go:57-107 | the whole new state: snapshot apps, watermarks retained and raised, status fields |
| `Registry.ReplaceServesListing` | internal/registry/cache.go:57-107 | after a bulk load a key is served exactly when a well-formed entry names it, as the last such entry says; its watermark is the later of the old one and its last dated entry; others are kept for a day |
| `Registry.Cache.UpsertApp` | internal/registry/cache.go:112-148 | the new state of the specified step; an applied event is answered with itself, an ignored one with the stored app |
| `Registry.Cache.DeleteApp` | internal/registry/cache.go:153-187 | the new state and answer are those of the specified step |
| `Registry.Cache.PruneExpiredTombstones` | internal/registry/cache.go:284-297 | drops exactly the watermarks of absent keys older than the retention |
| `Registry.Cache.MarkLoadSkipped` | internal/registry/cache.go:189-199 | the status after a skipped load |
| `Registry.Cache.MarkLoadFailed` | internal/registry/cache.go:201-211 | the status after a failed load |
| `Registry.RunConsistent` | internal/registry/cache.go:284-329 | in every reachable state a watermark is at least the stored update time |
| `Registry.WatermarkDecidesAlone` | internal/registry/cache.go:313-329 | so the second staleness check never rejects what the first let through |
| `Registry.NoResurrection` | internal/registry/cache.go:127-146 | after an applied delete no older upsert is applied until the tombstone may be forgotten |
| `Registry.StepKeepsGuard` | internal/registry/cache.go:169-184 | the only operations that forget: a later event beyond the retention while the key is absent, or a snapshot that omits it |
| `Registry.ForgettingAdmitsStaleUpsert` | internal/registry/cache.go:284-297 | each such operation really lets a stale upsert in |
| `Registry.ConvergesExactly` | internal/registry/cache.go:112-187 | all deliveries of the same events, in any order and with any repetition, end in the same apps and watermarks if and only if the newest events of each key agree and none expires a final tombstone |
| `Registry.RunConverges` | internal/registry/cache.go:112-187 | under those two conditions each key ends as its newest event dictates |
| `Registry.DeliveryOrderDoesNotMatter` | internal/registry/cache.go:112-187 | in particular within one retention span and without ties |
| `Registry.TieBreaksConvergence` | internal/registry/cache.go:313-329 | any two newest events of a key that differ in effect: the one delivered last wins |
| `Registry.SpanIsNeeded` | internal/registry/cache.go:284-297 | any event beyond the retention of a final tombstone: delivered last, it expires it |
| `Debounce.Debouncer.RecordChange` | internal/agent/debounce.go:76-104 | the new state and decision are those of the specified step |
| `Debounce.Debouncer.Due` | internal/agent/debounce.go:108-122 | the new state and decision are those of the specified step |
| `Debounce.NewDebouncer` | internal/agent/debounce.go:46-52 | a debouncer exactly for valid configurations |
| `Debounce.AppliesSpaced` | internal/agent/debounce.go:76-122 | consecutive rollouts are at least one cooldown apart, whatever times the caller passes |
| `Debounce.PendingTracksWaiting` | internal/agent/debounce.go:76-122 | pending holds exactly while some change is not covered by a rollout |
| `Debounce.NothingLost` | internal/agent/debounce.go:76-122 | every change is covered once or still waiting, in order |
| `Debounce.DecidesExactly` | internal/agent/debounce.go:76-153 | every decision of every ordered run: with changes waiting, the later of the cooldown's end and the earlier of quiet after the last and limit after the first; nothing before it, a rollout at the first event from it on, for the reason that came first |
| `Debounce.NextAtBounded` | internal/agent/debounce.go:129-153 | the announced time lies after the first waiting change and within the maximum wait of it |
| `Debounce.AppliedWithinMaxWait` | internal/agent/debounce.go:108-153 | if the announced timer is served, a change at t is rolled out within [t, t + MaxWait] |
| `Debounce.MaxWaitNeedsCooldownBound` | internal/agent/debounce.go:54-71 | the validated bound between the two durations is exactly what that needs |
| `EnvShell.RenderEnvSH` | internal/agent/render.go:44-75 | prints the disjoint union of plain and secret values, or a justified error, and errs only when it must |
| `EnvShell.AddEnvValues` | internal/agent/render.go:77-91 | adds all values or names one that cannot be added |
| `EnvShell.IsValidEnvName` | internal/agent/render.go:93-112 | accepts exactly a letter or underscore followed by letters, digits and underscores |
| `EnvShell.ReadQuoted` | internal/agent/render.go:114-116 | a reader takes back exactly the quoted value, quotes and newlines included |
| `EnvShell.PlainValueVerbatim` | internal/agent/render.go:114-116 | a value without quotes is printed as it stands |
| `EnvShell.OneVariablePrinted` | internal/agent/render.go:66-74 | the text of one exported variable |
| `EnvShell.ReadScript` | internal/agent/render.go:66-74 | a reader of the printed lines gets exactly their variables |
| `EnvShell.RoundTrip` | internal/agent/render.go:44-75 | a shell reading the script ends with exactly the printed values if and only if names and values are ones a shell can hold |
| `EnvShell.PrintingIsDeterministic` | internal/agent/render.go:60-75 | the output does not depend on the order of the map |
| `EnvShell.PrintingIsInjective` | internal/agent/render.go:44-75 | different environments never print alike |
| `JsonNumber.IsJSONNumberLiteral` | internal/agent/render.go:207-250 | the index scanner, never out of range, accepts exactly the number grammar of section 6 of RFC 8259 |
| `JsonNumber.SplitIsAccepted` | internal/agent/render.go:207-250 | every number of the grammar is accepted |
| `JsonNumber.AcceptedSplits` | internal/agent/render.go:207-250 | everything accepted splits into the grammar's parts |
| `Ordering.SortedUnique` | internal/store/store.go:1213-1216 | records with different keys have one sorted order |
| `Ordering.StringLeByFirstDifference` | internal/store/store.go:1206-1216 | a prefix comes first, otherwise the first difference decides |

## Left out

- HTTP routing, authentication, compression, ETags, rate limits, JSON envelopes, audit logging and metrics.
- Applying manifests and sealing secrets: `Revert` keeps only whether a manifest can be identified, whether an applier is configured, and an arbitrary outcome; secret values never occur.
- Git beneath commits: objects, merge commits, renames in commit statistics, ignored files, empty directories, files that turn into directories, and a reset that fails. History order is ancestry, which is committer-time order on a branch without merges.
- Commit authors and timestamps, and the order of lists of deleted or changed files, which are sets here.
- Changes made to the checkout from outside while a write is under way; a reload does check for them.
- YAML syntax, schemas and RFC 3339 parsing, which are parameters; instants are not before the zero time.
- The metadata block of a response: `metadata.updated_at` can change under an unchanged token when only the other resource of the service is edited.
- In-place sharing of configuration values: maps are values, so the deep copies of the source have no counterpart.
- The metrics and the context cancellation inside waits, apart from the deadline itself.
- Reads at a historical version, listing of services, runtime configuration, probes, the fetch loop and bootstrap backoff: thin.
- Replica coordination and leader election.
- Rewritten branches: the remote only grows, and `Watch.ReloadsMayFollow` needs that.
- Writers that drop secret entries: `SecretWrites` assumes that competitors only add them; its theorems are about the clone's own writes among such competitors.
- Revert.PrepareRevert: does not tell an unknown target commit from one that is not on the branch; both are the same not-found error, as in the program, with another message.
- VersionTokens.SameTokenSameView: speaks of data and HEAD taken from one snapshot. A response whose HEAD is read after another reload is covered by VersionTokens.StrandedExactly; watchers that read twice are covered by Watch.
- StoreWrites.ApplyChanges: takes the texts of config and env vars and the sealed manifests as given; printing and sealing are outside, and a sealer that writes over the metadata file is excluded.
- Serving.Store.RefreshFromRepo: runs pull and reload without a break, where the program takes the store lock for the reload alone and another write may land in between.
- Serving.Store.ReloadFromRepo: likewise, and the version and flag it compares with are read before that lock too.
