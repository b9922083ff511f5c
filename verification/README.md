# Operator SDK fork and case editor: a verified model

This Dafny project models the parts of `operator-sdk/` and `powerful-front/` whose
correctness is not obvious from reading one function: protocols between several
processes and the Kubernetes API server, reconcilers that can fail or stop at every call,
tree and string transformations, and small stateful components. `dafny verify
dfyconfig.toml` checks all of it.

**How the protocols are modelled.** A process is an automaton: `Ask` gives the call that
is pending at a point, `Resume` the next point for an answer, and `After` the whole run
for a script of answers. The source's own form is a set of methods over `Api.Client`;
each of them is proved to make exactly the calls of `After` and to end where it ends,
for every script, including one that runs out (the process is killed during a call). The
same automaton is then put into a cluster: a step is one call of one process, an act of a
user, of another controller or of Kubernetes, a crash, or a call whose request or reply is
lost. Safety statements are about every run of such steps.

So that a branch of the automaton and of its method cannot be wrong together, every run is
also told a second time, by its calls and answers alone: `Tells` says which answers end it
and how (`Refuses`, `Fails`, `Elects`, `Closes`), which call may come after which answer
(`Follows`), and what that call carries. `EveryRunIsTold` proves it of every script, and the
method of the source promises it without naming the automaton.

**What is assumed.**

- Leader: a container of a pod runs only while the pod object exists and has not failed,
  uids are never reused, no pod is created under a name that an existing lock holds, and
  the garbage collector removes a lock only when the owning pods are gone, by uid.
- TLS: no custom CA, one custom resource, certificate name neither empty nor `ca`. Keys are
  identifiers and a certificate names its subject and its signer.
- Helm: a chart renders a spec always to the same manifest; Install fails on a non-empty
  history, Upgrade and Rollback supersede the latest deployed release, Uninstall empties the
  history and can fail with or without a response. Nobody but the operator touches its finalizer and its history. The status keeps
  one condition per type.
- Helm and Ansible: one reconciliation of a resource runs at a time, an update with an old
  version is refused, the status is a subresource, and a cached read may return any version
  ever stored. Of a resource update only the finalizers are modelled, which is all that the
  reconcilers change.
- A lock found at the start holds uids that were given out before.
- Statements that require an invariant instead of an initial state hold at every reachable
  state, by the `RunKeeps...` lemmas of their module; `ApiResources` keeps its own in
  `NextIsDirect`. Three of these conditions hold at the start and for as long as nothing
  happens that their statement is about: `TargetsStand` until a pod is re-created under a
  name about to be deleted, `StaysUninstalled` and `IsAttended` until a harmful read.

**Where the code does not do what it says.** Each of these is proved with a state, a run or
an input in which it happens, next to the exact condition under which it does.

- `leader.go`: the eviction delete goes by pod name, so a delayed one can mark the pod of
  a newly elected leader for deletion, once a pod was created under that name.
- `leader.go`: a restarted candidate recognises its lock by owner name, not uid, so a pod
  name used again while a lock holds it gives two leaders.
- `leader.go`: the owner of the lock is read once, so candidates that began before the
  present lock was made never delete its evicted owner, and wait until a pod is restarted or
  removed.
- `tls.go`: the CA Secret is created before its ConfigMap, contrary to the comment at
  lines 330-331, and stopping in between can make every later call fail for ever.
- `paramconv.go`: `ToSnake` panics on blank names, is not idempotent on some names with digits,
  and does not undo `ToCamel` on neighbouring one-letter words or acronyms and on some words
  with numbers; keys that convert to one name, such as two that differ in a dash for an
  underscore, make the result of a tree depend on Go's map order.
- `manager_factory.go`: `mergeMaps` is not associative across a scalar, and a migration
  that is stopped between its two calls for a release never succeeds again on that history.
- `manager.go`: the patch drops a null that would have to be added, so it is the deep merge
  exactly when there is none.
- `manager.go`: an uninstallation that fails without a response panics, because the release
  of the response is read before the error is looked at.
- `manager.go`: Sync leaves releases without Info in the history, and when nothing else is
  left there every installation fails.
- Helm `reconcile.go`: a stale cached read can bring a release back after the finalizer has
  gone, and the resource then leaves with its release still installed.
- Ansible `reconcile.go`: with status management, a stale cached copy of a deleted
  resource takes the finalizer off a new, live one of the same name after an ordinary run.
- Ansible status: `SetCondition` returns early, so with duplicate conditions a status can
  be running and failed at once, and a failure that stands hides the message of the next one;
  and a demoted condition keeps its old transition time.
- `controller.go`: check and record are separate, so all workers can watch one type, and
  with two workers or more this is so for exactly the types that can be watched at all.
- `proxy.go`: a discovery answer that fails to parse leaves a partial cache, and asking
  again then hides the error.
- `crd.go`: with the deprecated `spec.version` set, a generation fails whenever another
  version is sorted to the front, so no newer version can ever be generated.

## Model

| member | source | states |
|---|---|---|
| `Leader.Identify` | operator-sdk/pkg/leader/leader.go:45-100 | everything before the loop: same calls and same point as the automaton, for every script of answers |
| `Leader.InspectLeader` | operator-sdk/pkg/leader/leader.go:116-139 | the look at the current leader: exactly which calls it makes for which owner and answers, when it gives up, and when it waits |
| `Leader.Become` | operator-sdk/pkg/leader/leader.go:45-154 | the whole of Become, its backoff loop included, makes exactly the automaton's calls; told without it: an error exactly if one of the listed answers is met, the lead exactly for a created lock or one with the own name, and which call follows which |
| `Leader.EveryRunIsTold` | operator-sdk/pkg/leader/leader.go:45-154 | for every script: each answer but the last leads to the one call listed for it, and the last one settles the outcome or never comes |
| `Leader.VerdictsAreMet` | operator-sdk/pkg/leader/leader.go:45-154 | so a run fails exactly if it meets a refusal, and leads exactly if it meets an election, from explicit lists call by call |
| `Leader.EveryRunBacksOff` | operator-sdk/pkg/leader/leader.go:105-152 | in every run the n-th wait has base min(2^n, 16) seconds |
| `LeaderCluster.RunKeepsInv` | operator-sdk/pkg/leader/leader.go:45-154 | every run keeps the invariant that a running leader's pod owns the existing lock |
| `LeaderCluster.AtMostOneLeader` | operator-sdk/pkg/leader/leader.go:38-154 | in every run of any candidates, crashes, evictions and collections two running leaders are the same one, and its pod owns the lock |
| `LeaderCluster.LockIsForLife` | operator-sdk/pkg/leader/leader.go:62-106 | over every run in which the collector does not take the lock, it stays and its owners never change |
| `LeaderCluster.LeadersAreSeparatedByRemoval` | operator-sdk/pkg/leader/leader.go:102-154 | between two different leaders the very pod of the first one is removed |
| `LeaderCluster.OwnedLockIsNotCollected` | operator-sdk/pkg/leader/leader.go:92-100 | the collector never removes a lock whose owner pod exists |
| `LeaderCluster.EvictionHitsTheEvictedPod` | operator-sdk/pkg/leader/leader.go:128-139 | what the eviction delete hits is evicted and runs nothing, unless the pod of that name is no longer the inspected one |
| `LeaderCluster.EvictionIsExactWithoutRecreation` | operator-sdk/pkg/leader/leader.go:128-139 | throughout a run every eviction delete would hit an evicted pod that runs nothing exactly when no pod is created under a name about to be deleted |
| `LeaderStaleEviction.DelayedEvictionHitsTheNewLeader` | operator-sdk/pkg/leader/leader.go:128-139 | a run in which the delete marks the pod of the running leader for deletion |
| `LeaderNameReuse.NameReuseGivesTwoLeadersExactlyWhen` | operator-sdk/pkg/leader/leader.go:77-86 | in every reachable state a new pod makes two leaders possible exactly when the existing lock holds its name, because the check compares names and not uids |
| `LeaderNameReuse.NameReuseGivesTwoLeaders` | operator-sdk/pkg/leader/leader.go:77-86 | such a state is reached |
| `LeaderSnapshot.CanFreeExactlyWhen` | operator-sdk/pkg/leader/leader.go:77-152 | without a restart and without help, the running candidates can get rid of the lock of an evicted leader exactly when its pod is already marked for deletion or one of them has yet to read the lock, or read it when it was that leader's |
| `LeaderSnapshot.OldSnapshotKeepsTheLock` | operator-sdk/pkg/leader/leader.go:77-152 | a run to a state in which a candidate is waiting and they cannot |
| `LeaderHandover.CandidateTakesOver` | operator-sdk/pkg/leader/leader.go:102-152 | from every reachable cluster in which the collector can take the lock, any candidate, wherever it is in Become, leads after the collection and at most eight answered calls |
| `LeaderHandover.RestartedLeaderReturns` | operator-sdk/pkg/leader/leader.go:72-86 | a restarted container whose pod owns the lock leads again after four answered calls, and the lock is unchanged |
| `LeaderHandover.GivesUpExactlyWhen` | operator-sdk/pkg/leader/leader.go:45-154 | in every reachable cluster a candidate fails at a step exactly if that call is lost or cancelled and is not the eviction delete |
| `Tls.AppNameIsCaNameExactlyFor` | operator-sdk/pkg/tls/tls.go:284-290 | an application secret has the name of the CA secret exactly for certificate name `ca` |
| `Tls.ReadCluster` | operator-sdk/pkg/tls/tls.go:292-339 | the three reads and their errors; if all three are answered, what they settle: assets, the missing CA, the missing half, a CA that is no key, or something to make |
| `Tls.CreateCa` | operator-sdk/pkg/tls/tls.go:222-255 | the two CA writes in the code's order: Secret, then ConfigMap |
| `Tls.GenerateCert` | operator-sdk/pkg/tls/tls.go:147-272 | a whole call makes exactly the automaton's calls; told without it, as a table over the three reads: with an application secret or half a CA nothing is created and assets, ErrCANotFound or the half-CA error are returned; otherwise the listed creations follow |
| `Tls.EveryRunIsTold` | operator-sdk/pkg/tls/tls.go:147-272 | the same for every script: the calls follow the plan of that table up to the first refused or unanswered one, and the result is that of the table or the error of the call |
| `TlsCluster.RunKeepsInv` | operator-sdk/pkg/tls/tls.go:147-272 | every interleaving of calls with kills and lost replies keeps stored and held assets in agreement |
| `TlsCluster.StoredAssetsBelongTogether` | operator-sdk/pkg/tls/tls.go:222-272 | the ConfigMap exists only with the Secret, both from one key, and every stored application secret is signed by that CA |
| `TlsCluster.ReturnedAssetsBelongTogether` | operator-sdk/pkg/tls/tls.go:147-272 | every returned triple is consistent and is what is stored; no call ends with ErrCANotFound |
| `TlsCluster.WedgedForEver` | operator-sdk/pkg/tls/tls.go:309-339 | a CA Secret without ConfigMap that nobody is completing stays so in every run, and no call ever returns assets |
| `TlsWedge.StepWedgesExactlyWhen` | operator-sdk/pkg/tls/tls.go:222-246 | a step leaves such a state exactly when the last call before the ConfigMap is killed or its request is lost, or the reply to the Secret's creation is lost with no other call there |
| `TlsWedge.NoCallReturnsExactlyWhenWedged` | operator-sdk/pkg/tls/tls.go:147-339 | such a state is exactly one from which no run ever brings any call to its end; from every other one a call gets through |
| `TlsWedge.BesideOldAssetsNothingIsMade` | operator-sdk/pkg/tls/tls.go:204-209 | beside an application secret or half a CA, whoever put it there, a call is over after its three reads, leaves the cluster as it was, and returns what is there or says what is missing |
| `TlsWedge.WedgeIsReachable` | operator-sdk/pkg/tls/tls.go:222-246 | from every initial state and usable certificate name some run leads there |
| `ParamConv.CollectWords` | operator-sdk/pkg/ansible/paramconv/paramconv.go:51-62 | the word loop of ToCamel splits at exactly the delimiters |
| `ParamConv.ToCamel` | operator-sdk/pkg/ansible/paramconv/paramconv.go:51-71 | the loop form computes Camel |
| `ParamConv.CollectChunks` | operator-sdk/pkg/ansible/paramconv/paramconv.go:84-118 | the index-juggling loop of ToSnake never indexes out of range and computes the chunks |
| `ParamConv.ToSnake` | operator-sdk/pkg/ansible/paramconv/paramconv.go:74-125 | the loop form computes Snake, with its panic |
| `ParamConvProperties.CamelKeepsContent` | operator-sdk/pkg/ansible/paramconv/paramconv.go:51-71 | every non-delimiter character is kept, in order, up to case |
| `ParamConvProperties.SnakeKeepsContent` | operator-sdk/pkg/ansible/paramconv/paramconv.go:74-125 | the same for ToSnake |
| `ParamConvProperties.SnakePanicsExactlyOnBlank` | operator-sdk/pkg/ansible/paramconv/paramconv.go:74-82 | ToSnake indexes an empty string exactly for blank names |
| `ParamConvProperties.CamelIsDelimFree` | operator-sdk/pkg/ansible/paramconv/paramconv.go:51-71 | camel names hold no delimiter |
| `ParamConvProperties.SnakeIsClean` | operator-sdk/pkg/ansible/paramconv/paramconv.go:74-125 | snake names hold no capital, space or dash |
| `ParamConvIdempotence.SnakeKeepsSequences` | operator-sdk/pkg/ansible/paramconv/paramconv.go:34-125 | the number pattern is in a snake name exactly when the number rule left one behind |
| `ParamConvIdempotence.SnakeOfSnake` | operator-sdk/pkg/ansible/paramconv/paramconv.go:74-125 | a second ToSnake changes nothing exactly when the first output holds no number pattern |
| `ParamConvIdempotence.SnakeIsIdempotentExactlyWhen` | operator-sdk/pkg/ansible/paramconv/paramconv.go:34-125 | ToSnake is idempotent at a name exactly when no maximal run in it of letters each followed by digits has an odd number of three or more |
| `ParamConvIdempotence.SnakeIsIdempotentWithoutDigits` | operator-sdk/pkg/ansible/paramconv/paramconv.go:74-125 | and so on every non-blank name without digits |
| `ParamConvIdempotence.NumberRuleIsNotIdempotent` | operator-sdk/pkg/ansible/paramconv/paramconv.go:34-38 | every name of three letters each with a digit, such as a1b2c3, changes a second time |
| `ParamConvRoundTrip.SnakeOfCamel` | operator-sdk/pkg/ansible/paramconv/paramconv.go:40-125 | the exact result of ToSnake after ToCamel for all names of lower-case words: runs of one-letter words and acronyms are glued |
| `ParamConvRoundTrip.AbbreviationsAreExactly` | operator-sdk/pkg/ansible/paramconv/paramconv.go:27-49 | of all lower-case words of more than one letter exactly http, url and ip are written in capitals |
| `ParamConvNumberedWords.SnakeUndoesCamelExactlyWhen` | operator-sdk/pkg/ansible/paramconv/paramconv.go:34-125 | for all names of lower-case words with or without a number at the end: the name comes back exactly when of every two neighbours the first ends, or the second starts, with a visible change of case; so not at two letters or acronyms, nor at a number in front of a letter, an acronym or a letter with a number |
| `ParamConvSpelling.OuterSpacesDoNotMatter` | operator-sdk/pkg/ansible/paramconv/paramconv.go:34-125 | spaces around a name make no difference to either converter, whatever the number rule does at its ends |
| `ParamConvSpelling.PunctuationStartsACapital` | operator-sdk/pkg/ansible/paramconv/paramconv.go:40-71 | a later word gets a capital after any punctuation in it, and the first word none |
| `ParamConvTree.ConvertParameter` | operator-sdk/pkg/ansible/paramconv/paramconv.go:127-140 | converting a tree panics exactly if some name in it does, and otherwise gives a result that some order of the keys has |
| `ParamConvTree.ConvertArray` | operator-sdk/pkg/ansible/paramconv/paramconv.go:142-148 | the same for the items of an array, in place |
| `ParamConvTree.ConvertMapKeys` | operator-sdk/pkg/ansible/paramconv/paramconv.go:150-156 | the same for a map, in any iteration order |
| `ParamConvTree.OrderDoesNotMatterExactlyWhen` | operator-sdk/pkg/ansible/paramconv/paramconv.go:127-164 | all iteration orders give one result exactly when, at every depth, keys with one converted name hold values that convert alike |
| `ParamConvCollisions.DashesAreUnderscores` | operator-sdk/pkg/ansible/paramconv/paramconv.go:34-125 | both converters give the same for names that differ only in which of dash and underscore stands where |
| `ParamConvCollisions.KeyOrderMatters` | operator-sdk/pkg/ansible/paramconv/paramconv.go:127-164 | with different scalars under two such keys MapToCamel and MapToSnake have several possible results |
| `ParamConvTree.TreeComesBack` | operator-sdk/pkg/ansible/paramconv/paramconv.go:127-164 | a conversion whose names all come back under another is undone by it, in any orders |
| `ParamConvTree.MapToSnakeUndoesMapToCamel` | operator-sdk/pkg/ansible/paramconv/paramconv.go:158-164 | MapToSnake undoes MapToCamel on every tree whose keys are names that come back |
| `GoMaps.CopyFields` | operator-sdk/pkg/helm/release/manager_factory.go:314-318 | the first loop copies the map, in any iteration order |
| `GoMaps.MergeFields` | operator-sdk/pkg/helm/release/manager_factory.go:314-331 | on maps that are objects and refer to one another: in any iteration order a new map stands for the one deep merge, no map that existed changes, and all values but merged maps are those of the inputs themselves |
| `MergeMaps.MergedLookup` | operator-sdk/pkg/helm/release/manager_factory.go:314-331 | the value at every path: b where it has one or cuts the path off, a where b is silent, their merge where both are maps |
| `MergeMaps.EmptyIsIdentity` | operator-sdk/pkg/helm/release/manager_factory.go:314-331 | the empty map is a unit on both sides |
| `MergeMaps.MergeIsIdempotent` | operator-sdk/pkg/helm/release/manager_factory.go:314-331 | merging a value over itself changes nothing |
| `MergeMaps.CoversMeansAbsorbs` | operator-sdk/pkg/helm/release/manager_factory.go:314-331 | merging c over a gives c exactly when c covers every path of a |
| `MergeMaps.MergeIsAssociativeExactlyWhen` | operator-sdk/pkg/helm/release/manager_factory.go:314-331 | associative on a, b, c exactly when no scalar of b separates a map of a from a map of c that it adds to |
| `MergeMaps.MergeIsNotAssociative` | operator-sdk/pkg/helm/release/manager_factory.go:314-331 | every non-empty map, then a scalar or array, then an empty map, under one key, break it |
| `JsonPatch.GeneratePatch` | operator-sdk/pkg/helm/release/manager.go:280-315 | the filtering loop keeps exactly the operations that are no remove and no add of null, and gives nil for none |
| `JsonPatch.ApplyKeyByKey` | operator-sdk/pkg/helm/release/manager.go:237-278 | applying operations in sequence is applying, key by key, the operations below each key |
| `JsonPatch.DiffExists` | operator-sdk/pkg/helm/release/manager.go:291-294 | every two objects whose common arrays agree have an object diff |
| `JsonPatch.PatchGivesOverlay` | operator-sdk/pkg/helm/release/manager.go:280-315 | applying the patch succeeds for every order of the diff and gives the overlay of the manifest over the live object |
| `JsonPatch.OverlayIsMergeExactlyWhen` | operator-sdk/pkg/helm/release/manager.go:296-305 | the overlay is the deep merge exactly when no null would be added |
| `JsonPatch.NullIsDropped` | operator-sdk/pkg/helm/release/manager.go:296-305 | a null under a new key is lost |
| `JsonPatch.PatchGivesMergeExactlyWhen` | operator-sdk/pkg/helm/release/manager.go:280-315 | applying the patch gives exactly the deep merge under exactly that condition |
| `JsonPatch.OverlayLookup` | operator-sdk/pkg/helm/release/manager.go:296-300 | what the manifest sets holds afterwards, and what it is silent about survives |
| `JsonPatch.OverlaySettles` | operator-sdk/pkg/helm/release/manager.go:280-315 | overlaying twice is overlaying once |
| `JsonPatch.PatchIsNilExactlyWhen` | operator-sdk/pkg/helm/release/manager.go:307-312 | the patch is nil exactly when the live object is the overlay already |
| `JsonPatch.SecondPatchIsNil` | operator-sdk/pkg/helm/release/manager.go:262-312 | after one patch the next one is nil |
| `HelmWatches.AddWatch` | operator-sdk/pkg/helm/controller/controller.go:123-160 | what the hook does with a type that is not in the set makes the automaton's calls |
| `HelmWatches.ReleaseHook` | operator-sdk/pkg/helm/controller/controller.go:104-165 | the hook over a whole manifest makes exactly the automaton's calls; told without it: it fails exactly for a malformed document, a mapping that gives no scope or a failed Watch, and deals with the types one after the other |
| `HelmWatches.EveryRunIsTold` | operator-sdk/pkg/helm/controller/controller.go:104-165 | the same for every manifest and script, with the call that follows each answer |
| `HelmWatches.CoveredHookReturnsNil` | operator-sdk/pkg/helm/controller/controller.go:116-127 | with all types in the set a hook returns nil with its n-th act for n types, never fails and watches nothing, whatever the other workers do |
| `HelmWatches.AtMostOneWatchPerWorker` | operator-sdk/pkg/helm/controller/controller.go:97-168 | with W workers running hooks for ever no type is watched successfully more than W times |
| `HelmWatches.WatchesAreJustified` | operator-sdk/pkg/helm/controller/controller.go:97-168 | the set only grows and holds only types that were watched, or are cluster-scoped under a namespaced owner |
| `HelmWatches.NilMeansCovered` | operator-sdk/pkg/helm/controller/controller.go:104-165 | a hook that returns nil leaves every non-empty type of its manifest in the set |
| `HelmWatches.CanBeWatchedExactlyWhen` | operator-sdk/pkg/helm/controller/controller.go:104-160 | some run makes exactly n successful Watch calls for a type exactly when there are at least n workers, and the type is not empty, known to the mapper, and not cluster-scoped under a namespaced owner |
| `HelmWatches.WatchedTwiceExactlyWhen` | operator-sdk/pkg/helm/controller/controller.go:116-160 | so more than one exactly when there are two workers and such a type |
| `HelmReconcile.CleanUp` | operator-sdk/pkg/helm/release/manager.go:91-110 | the clean-up loop of Sync makes the automaton's calls: it deletes exactly the stale releases |
| `HelmReconcile.FindPlan` | operator-sdk/pkg/helm/release/manager.go:111-131 | the rest of Sync, and the finalizer check after it, lead where the automaton leads |
| `HelmReconcile.InstallRelease` | operator-sdk/pkg/helm/release/manager.go:157-189 | Install, and Uninstall exactly after a partial answer; an error is reported exactly if the installation did not work |
| `HelmReconcile.UpdateRelease` | operator-sdk/pkg/helm/release/manager.go:199-228 | Upgrade, and Rollback exactly after a partial answer; an error is reported exactly if the upgrade did not work |
| `HelmReconcile.Terminate` | operator-sdk/pkg/helm/controller/reconcile.go:101-156 | the deletion branch with UninstallRelease makes the automaton's calls, and panics where it does |
| `HelmReconcile.DropFinalizer` | operator-sdk/pkg/helm/controller/reconcile.go:135-156 | status update, finalizer removal and wait, each only after the one before |
| `HelmReconcile.BringUpToDate` | operator-sdk/pkg/helm/controller/reconcile.go:241-312 | upgrade or repair up to the release hook |
| `HelmReconcile.Finish` | operator-sdk/pkg/helm/controller/reconcile.go:201-229 | hook and final status, or the report of an error |
| `HelmReconcile.Maintain` | operator-sdk/pkg/helm/controller/reconcile.go:158-327 | the branch for a live resource has the automaton's calls and result |
| `HelmReconcile.Reconcile` | operator-sdk/pkg/helm/controller/reconcile.go:68-327 | a whole reconciliation makes exactly the automaton's calls; told without it: it fails exactly if it meets one of the listed failures, partial work is undone by the next call, and each call, resource and status written is what the answers before it call for |
| `HelmReconcile.EveryRunIsTold` | operator-sdk/pkg/helm/controller/reconcile.go:68-327 | the same for every script: which answer leads to which call, which one ends the reconciliation and how, and the status that is written |
| `HelmReconcile.PartialWorkIsUndone` | operator-sdk/pkg/helm/release/manager.go:157-228 | in the calls of every run an Install answered partially is followed by Uninstall and such an Upgrade by Rollback, if only as the call in which the operator is killed |
| `HelmPanic.PanicsExactlyWhen` | operator-sdk/pkg/helm/release/manager.go:337-338 | a step panics exactly when an uninstallation in the deletion branch fails without a response |
| `HelmPanic.CanPanicForEver` | operator-sdk/pkg/helm/release/manager.go:337-338 | while it does, any number of reconciliations panic one after the other, and resource, status and history stay as they were |
| `HelmUndo.PartialInstallIsUndone` | operator-sdk/pkg/helm/release/manager.go:157-189 | after an installation that left a failed release, if the calls that follow are answered, the reconciliation ends with an error and an empty history, whatever users and other controllers do |
| `HelmUndo.UninstallingUndoesExactlyWhen` | operator-sdk/pkg/helm/release/manager.go:168-187 | the failed release stays exactly if the call that uninstalls it is lost or fails too |
| `HelmUndo.PartialUpgradeIsUndone` | operator-sdk/pkg/helm/release/manager.go:199-228 | after a partial upgrade it ends with an error and with the manifest that was deployed before in the last release of the history, deployed |
| `HelmCluster.RunKeepsInv` | operator-sdk/pkg/helm/controller/reconcile.go:68-327 | every run keeps the working copy faithful to a stored version, and the history empty before the finalizer goes |
| `HelmCluster.FinalizerGoesOnlyWithEmptyHistory` | operator-sdk/pkg/helm/controller/reconcile.go:101-144 | in every run, stale reads included, the finalizer goes only by the operator's update, from a resource being deleted, with an empty history |
| `HelmCluster.ErrorFreeMeansGuarded` | operator-sdk/pkg/helm/controller/reconcile.go:158-327 | a reconciliation of a live resource that ends without error leaves the finalizer on it |
| `HelmCluster.LeavesOnlyUninstalled` | operator-sdk/pkg/helm/controller/reconcile.go:101-156 | unless a reconciliation of a resource that has lost the finalizer begins with a copy from before its deletion, a resource that ever carried it leaves the cluster only with an empty history |
| `HelmCluster.StaleVersionsAreAll` | operator-sdk/pkg/helm/release/manager.go:101-108 | the list that Sync works off holds every stale release |
| `HelmCluster.DropKeeps` | operator-sdk/pkg/helm/release/manager.go:101-108 | deleting one version leaves only the rest of the list stale |
| `HelmCluster.SyncMatchesTheStore` | operator-sdk/pkg/helm/release/manager.go:91-131 | in every run after Sync only deployed or nil-Info releases are left and its two flags say what the store holds |
| `HelmStaleRead.ReadIsHarmfulExactlyWhen` | operator-sdk/pkg/helm/controller/reconcile.go:82-156 | at that point a stale copy makes it possible that a release is left behind exactly when it is from before the deletion |
| `HelmStaleRead.StaleReadLeavesARelease` | operator-sdk/pkg/helm/controller/reconcile.go:82-156 | a run with such a read in which a resource that carried the finalizer leaves its release behind |
| `HelmConvergence.EveryAnswerMakesProgress` | operator-sdk/pkg/helm/controller/reconcile.go:68-327 | every answer brings a reconciliation nearer to its end, so it makes finitely many calls |
| `HelmConvergence.CleaningSettles` | operator-sdk/pkg/helm/release/manager.go:101-131 | the clean-up leaves the deployed release deployed and nothing stale |
| `HelmConvergence.OneReconciliationConverges` | operator-sdk/pkg/helm/controller/reconcile.go:158-327 | one fault-free reconciliation converges, with one install or upgrade exactly if the wanted manifest is not deployed; or fails, if nothing is deployed and a release has no Info |
| `HelmConvergence.RepeatConverges` | operator-sdk/pkg/helm/controller/reconcile.go:158-327 | n of them converge exactly unless that is so, with that one change in all and repairs in all others; if it is so each of them fails |
| `HelmConvergence.EveryHistoryConverges` | operator-sdk/pkg/helm/controller/reconcile.go:158-327 | the same from the end of every run whatsoever, with neither ReleaseFailed nor Irreconcilable left |
| `AnsibleStatus.Status.GetCondition` | operator-sdk/pkg/ansible/controller/status/utils.go:54-62 | the search loop finds the first condition of the type |
| `AnsibleStatus.Status.SetCondition` | operator-sdk/pkg/ansible/controller/status/utils.go:66-77 | the new state in all three cases: unchanged, same status, new |
| `AnsibleStatus.Status.RemoveCondition` | operator-sdk/pkg/ansible/controller/status/utils.go:80-82 | all conditions of the type go |
| `AnsibleStatus.FilterOutCondition` | operator-sdk/pkg/ansible/controller/status/utils.go:85-94 | the filter loop keeps the others in order |
| `AnsibleStatus.Status.Record` | operator-sdk/pkg/ansible/controller/reconcile.go:284-401 | what markRunning, markError and markDone make of the conditions |
| `AnsibleStatus.MarkContradictsExactlyWhen` | operator-sdk/pkg/ansible/controller/reconcile.go:284-401 | exactly when a mark writes running and failed at once, for every status; foreign conditions stay |
| `AnsibleStatus.DuplicatesContradict` | operator-sdk/pkg/ansible/controller/status/utils.go:66-70 | a status with duplicates for which it does |
| `AnsibleStatus.MarkKeepsUnique` | operator-sdk/pkg/ansible/controller/reconcile.go:284-401 | with one condition per type it never does, and types stay unique |
| `AnsibleStatus.TransitionTimes` | operator-sdk/pkg/ansible/controller/reconcile.go:284-401 | after every mark on every status: the raised condition carries the time of the mark unless it was true before, the one taken down keeps its old time even if its status changes, the others are as they were |
| `AnsibleReconcile.Contains` | operator-sdk/pkg/ansible/controller/reconcile.go:403-410 | the membership loop |
| `AnsibleReconcile.WithoutFinalizer` | operator-sdk/pkg/ansible/controller/reconcile.go:229-235 | the loop that drops the finalizer keeps the others in order |
| `AnsibleReconcile.Listen` | operator-sdk/pkg/ansible/controller/reconcile.go:165-191 | the event loop: unreadable stats, no stats, or the failures that are not ignored, in order |
| `AnsibleReconcile.RunIsCleanExactlyWhen` | operator-sdk/pkg/ansible/controller/reconcile.go:165-230 | unreadable statistics anywhere, no statistics at all, and a clean run: exactly for which events each of them |
| `AnsibleReconcile.FailuresAreInOrder` | operator-sdk/pkg/ansible/controller/reconcile.go:187-191 | the failures of a run are those of its beginning and then those of its end, the ignored ones left out |
| `AnsibleReconcile.MarkAsRunning` | operator-sdk/pkg/ansible/controller/reconcile.go:284-313 | markRunning makes the automaton's calls |
| `AnsibleReconcile.MarkAsFailed` | operator-sdk/pkg/ansible/controller/reconcile.go:317-351 | markError makes the automaton's calls; the reconciliation fails |
| `AnsibleReconcile.MarkAsDone` | operator-sdk/pkg/ansible/controller/reconcile.go:353-401 | markDone and the final result: the status that is written for the failures of the run, and success exactly without failures and if it was saved |
| `AnsibleReconcile.RunAnsible` | operator-sdk/pkg/ansible/runner/runner.go:157-163 | kubeconfig, the runner's deletion guard, the run and its events |
| `AnsibleReconcile.FinishRun` | operator-sdk/pkg/ansible/controller/reconcile.go:212-263 | the re-read, the finalizer decision and the status after a run |
| `AnsibleReconcile.Work` | operator-sdk/pkg/ansible/controller/reconcile.go:125-263 | everything from the decision to run on |
| `AnsibleReconcile.Reconcile` | operator-sdk/pkg/ansible/controller/reconcile.go:66-264 | a whole reconciliation makes exactly the automaton's calls; told without it: which call follows which answer, with which status and finalizers, and whether it ends well |
| `AnsibleReconcile.EveryRunIsTold` | operator-sdk/pkg/ansible/controller/reconcile.go:66-264 | the same for every configuration and script |
| `AnsibleReport.StoredReportIsTrue` | operator-sdk/pkg/ansible/controller/reconcile.go:353-401 | in every run, stale reads and crashes included, the status stored after a playbook says Successful and no failure exactly if the latest run was clean, and otherwise failed, with all its failures, and not running |
| `AnsibleReport.EndsWellExactlyWhen` | operator-sdk/pkg/ansible/controller/reconcile.go:212-263 | in every run a reconciliation that has run a playbook to its end ends without error exactly if its last call was answered well and the run was clean or the resource was gone when it was read again |
| `AnsibleReport.UnfinishedRunsFail` | operator-sdk/pkg/ansible/controller/reconcile.go:142-210 | every other reconciliation that reads a resource and does not end at once ends with an error |
| `AnsibleReport.EveryFailureIsALine` | operator-sdk/pkg/ansible/controller/reconcile.go:377-383 | the message of several failures has each of them on a line of its own, in order |
| `AnsibleReport.MessageIsStoredExactlyWhen` | operator-sdk/pkg/ansible/controller/status/utils.go:66-77 | a mark stores its message exactly unless its kind is already true for the same reason with another one |
| `AnsibleReport.StandingFailureHidesTheNext` | operator-sdk/pkg/ansible/controller/reconcile.go:317-351 | so after a failed run the error over a bad annotation is not stored |
| `AnsibleCluster.RunKeepsInv` | operator-sdk/pkg/ansible/controller/reconcile.go:66-401 | every run keeps the relation of first copy, copy handed to the runner and re-read copy |
| `AnsibleCluster.NoContradictionIsStored` | operator-sdk/pkg/ansible/controller/reconcile.go:284-401 | no version ever stored is running and failed at once |
| `AnsibleFinalizer.FinalizerGoesAfterACleanRun` | operator-sdk/pkg/ansible/controller/reconcile.go:100-241 | in every run the finalizer goes only by the operator and after a failure-free run; it was a finalizer run of this incarnation exactly when the copy handed over was marked for deletion and of this incarnation, as it is if the cached copy was |
| `AnsibleFinalizer.LeavesOnlyCleaned` | operator-sdk/pkg/ansible/controller/reconcile.go:100-241 | without unsafe cached copies at the start of reconciliations, a resource that ever carried the finalizer leaves only after a failure-free finalizer run on it |
| `AnsibleStaleRead.ReadIsHarmfulExactlyWhen` | operator-sdk/pkg/ansible/controller/reconcile.go:69-241 | a stale copy makes it possible that a resource leaves without a finalizer run on it exactly when it is unsafe: taken for deleted, while the present resource has lost the finalizer, or is another incarnation that is neither cleaned up nor, under status management, deleted |
| `AnsibleStaleRead.StaleReadRemovesTheFinalizerOfALiveResource` | operator-sdk/pkg/ansible/controller/reconcile.go:100-241 | a run in which an ordinary playbook run takes the finalizer off a live resource |
| `Conditions.ConditionSet.constructor` | operator-sdk/pkg/status/conditions.go:86-92 | NewConditions sets one condition after the other |
| `Conditions.ConditionSet.SetCondition` | operator-sdk/pkg/status/conditions.go:133-150 | the new list; true exactly for a new type or a changed status, reason or message |
| `Conditions.ConditionSet.RemoveCondition` | operator-sdk/pkg/status/conditions.go:168-179 | the first condition of the type goes; true exactly if there was one |
| `Conditions.ConditionSet.GetCondition` | operator-sdk/pkg/status/conditions.go:155-162 | the search is the look-up in the map that the list stands for |
| `Conditions.PlacedView` | operator-sdk/pkg/status/conditions.go:133-150 | setting is an update of that map, with the old time if the status stays |
| `Conditions.RemovedView` | operator-sdk/pkg/status/conditions.go:168-179 | removing is removal from it |
| `Conditions.SortKeepsView` | operator-sdk/pkg/status/conditions.go:183-189 | the sort in place of MarshalJSON leaves it alone |
| `Conditions.BeforeMeansFirstDifference` | operator-sdk/pkg/status/conditions.go:183-187 | the order of the types is decided at the first difference |
| `Conditions.HistoryExplainsTheSet` | operator-sdk/pkg/status/conditions.go:86-189 | over every sequence of operations: types unique, presence, status, reason and message as last set, transition time that of the latest change of status since the type was last added |
| `Conditions.MarshallingIsCanonical` | operator-sdk/pkg/status/conditions.go:183-189 | equal sets are marshalled alike, however they came about |
| `HelmMigration.Storage.CreateV3` | operator-sdk/pkg/helm/release/manager_factory.go:189-191 | creating fails for an existing release, and under faults takes effect or not |
| `HelmMigration.Storage.DeleteV2` | operator-sdk/pkg/helm/release/manager_factory.go:192-194 | the same for deleting |
| `HelmMigration.ConvertHistoryToV3` | operator-sdk/pkg/helm/release/manager_factory.go:182-197 | the loop leaves the stores and the outcome of the specification for every list of faults |
| `HelmMigration.ConvertV2ToV3` | operator-sdk/pkg/helm/release/manager_factory.go:158-180 | the legacy history first, else that of the resource's name |
| `HelmMigration.NothingIsLost` | operator-sdk/pkg/helm/release/manager_factory.go:182-197 | at every exit and crash point each release is in one of the stores; on success all in the new one and none in the old |
| `HelmMigration.MigrationLosesNothing` | operator-sdk/pkg/helm/release/manager_factory.go:158-197 | the same for the whole migration |
| `HelmMigration.SucceedsExactlyWhenNothingIsThere` | operator-sdk/pkg/helm/release/manager_factory.go:182-197 | without faults it succeeds exactly when all releases convert and none is in the new store yet |
| `HelmMigration.BlockedForEver` | operator-sdk/pkg/helm/release/manager_factory.go:158-197 | a release that does not convert or is in both stores stays so through any later attempts, and none that works on its history succeeds: a legacy one, or one under the resource's own name without a legacy history |
| `HelmMigration.NeverSucceedsExactlyWhen` | operator-sdk/pkg/helm/release/manager_factory.go:158-197 | no sequence of attempts, whatever fails in them, ever ends in success exactly when a release of the history that is worked on does not convert or is in the new store already |
| `HelmMigration.IsLeftStuckExactlyWhen` | operator-sdk/pkg/helm/release/manager_factory.go:182-197 | for every list of faults, release i of a history is left in both stores exactly when everything before it works, its creation takes effect and its deletion does not |
| `HelmMigration.MigrationLeavesStuckExactlyWhen` | operator-sdk/pkg/helm/release/manager_factory.go:158-197 | the same for a whole migration, under either name |
| `HelmMigration.MigratedReleaseIsFound` | operator-sdk/pkg/helm/release/manager_factory.go:234-270 | getReleaseName finds a migrated history again, and exactly when for one under the resource's own name |
| `HelmMigration.ReleaseNameExactlyWhen` | operator-sdk/pkg/helm/release/manager_factory.go:234-270 | the legacy name exactly if a release is under it, otherwise the own name, also without any release; refused exactly if the first release under it is of another chart or of none |
| `HelmMigration.ReleaseNameIsStable` | operator-sdk/pkg/helm/release/manager_factory.go:234-270 | a name once chosen is chosen again whatever the operator has released under it since |
| `ApiResources.ApiResources.ResetResources` | operator-sdk/pkg/ansible/proxy/proxy.go:326-358 | the nested loops rebuild the cache up to the first list that does not parse; a discovery error leaves it alone |
| `ApiResources.ApiResources.IsVirtualResource` | operator-sdk/pkg/ansible/proxy/proxy.go:360-389 | cache and answer after a query |
| `ApiResources.ListsLookUp` | operator-sdk/pkg/ansible/proxy/proxy.go:337-355 | the rebuilt cache holds, for every kind, the last entry that is not a subresource |
| `ApiResources.InterleavedQueriesAreDirect` | operator-sdk/pkg/ansible/proxy/proxy.go:320-389 | any interleaving of any clients gets the answers of direct look-ups, or the error of an unreachable discovery |
| `ApiResources.CacheIsDirectExactlyWhen` | operator-sdk/pkg/ansible/proxy/proxy.go:320-389 | all query sequences get the direct answers, errors included, exactly when discovery parses or fails to before its first entry |
| `ApiResources.AskingTwiceHidesTheError` | operator-sdk/pkg/ansible/proxy/proxy.go:335-341 | otherwise a repeated query gets an answer in place of the error |
| `ApiResources.SomeDiscoveryIsHarmful` | operator-sdk/pkg/ansible/proxy/proxy.go:337-341 | there is such a discovery answer |
| `CrdVersions.Definition.AppendVersion` | operator-sdk/internal/generate/crd/crd.go:257-273 | a version is appended exactly if its name is new |
| `CrdVersions.Definition.SetCRDStorageVersion` | operator-sdk/internal/generate/crd/crd.go:352-364 | the first version becomes the storage version exactly if none is |
| `CrdVersions.Definition.CheckCRDVersions` | operator-sdk/internal/generate/crd/crd.go:371-398 | which of the three errors, if any |
| `CrdVersions.GenerateNonGo` | operator-sdk/internal/generate/crd/crd.go:240-312 | a generation writes what the specification says, or fails as it says |
| `CrdVersions.FailsExactlyWhen` | operator-sdk/internal/generate/crd/crd.go:277-281 | fails exactly for two storage versions in the file or a deprecated version that is not sorted first; never for want of a storage version |
| `CrdVersions.FailureSaysWhich` | operator-sdk/internal/generate/crd/crd.go:371-398 | of the two failures the misplaced version is reported first |
| `CrdVersions.GenerationFailsExactlyWhen` | operator-sdk/internal/generate/crd/crd.go:257-281 | the same told from file and requested name: the deprecated version is not among the names, or one of them is newer |
| `CrdVersions.NewerThanDeprecatedFails` | operator-sdk/internal/generate/crd/crd.go:371-384 | with the deprecated version set, generating a newer version always fails |
| `CrdVersions.GenerationKeeps` | operator-sdk/internal/generate/crd/crd.go:240-312 | names distinct and sorted, the requested and all old ones there, one storage version, unchanged if there was one |
| `CrdVersions.GenerationWrites` | operator-sdk/internal/generate/crd/crd.go:240-312 | the versions written are those of the file, served as they were, and the requested one, served; if none was the storage version the newest becomes it |
| `CrdVersions.GenerationsKeepTheFileGood` | operator-sdk/internal/generate/crd/crd.go:240-398 | over every sequence of generations on a good file, failed ones included: distinct and sorted names, all versions of the file and of every successful generation, one storage version, unchanged |
| `CrdVersions.NoGenerationFails` | operator-sdk/internal/generate/crd/crd.go:240-398 | without the deprecated version every generation of the sequence succeeds |
| `CrdVersions.StorageNeverMoves` | operator-sdk/internal/generate/crd/crd.go:352-364 | the storage version of a file is the one that any generations leave |
| `CaseView.ConvertArrayToObj` | powerful-front/src/data.ts:50-61 | the loop puts the counting lines into an object, or gives undefined |
| `CaseView.ConvertObjToArray` | powerful-front/src/data.ts:39-48 | the loop lists the properties in order, or gives undefined |
| `CaseView.ConvertViewToPost` | powerful-front/src/data.ts:2-24 | headers and queries of every step are converted and validate is dropped |
| `CaseView.ConvertPostToView` | powerful-front/src/data.ts:26-37 | both branches show the same view |
| `CaseView.LastLineWins` | powerful-front/src/data.ts:50-56 | of several lines with one name the last that has a value wins |
| `CaseView.StepsKeepTheirFields` | powerful-front/src/data.ts:2-24 | every step is posted in its place, headers from headers and queries from queries, with the last value of each name |
| `CaseView.StepsAreShownInPlace` | powerful-front/src/data.ts:26-48 | every step is shown in its place, a line for each property in order and nothing for none; validate is shown |
| `CaseView.PostComesBackExactlyWhen` | powerful-front/src/data.ts:2-61 | viewToPost undoes postToView, order included, exactly on posts without validate whose maps are non-empty with non-empty names and values |
| `CaseView.ViewComesBackExactlyWhen` | powerful-front/src/data.ts:2-61 | postToView undoes viewToPost exactly on views without validate in which every line counts under a name of its own |
| `CaseView.PostingSettles` | powerful-front/src/data.ts:2-37 | posting, showing and posting again is posting once, for every view |

## Left out

- Leader.Become: does not model the jitter on top of the base wait, the namespace look-up error ErrNoNamespace as a separate outcome, or log output.
- Tls.GenerateCert: does not model a custom CA (an existing application secret may then have been signed by a different one), RSA, X.509 and PEM.
- ParamConv.ToSnake: ASCII only; strings.Title and the case functions are modelled for ASCII characters.
- ParamConvNumberedWords.SnakeUndoesCamelExactlyWhen: words with digits in front of or between letters, on which the number rule acts before the words are split, are not covered.
- GoMaps.MergeFields: the map that is being built is a local value until it is complete.
- JsonPatch.PatchGivesOverlay: two different arrays under one key are outside the diff relation, because CreatePatch then lists index-based operations whose filtered form is no merge; JSON marshalling and its errors are left out.
- HelmReconcile.Reconcile: the Istio and namespace set-up, override events, the force annotation, status messages and the release name in the status are left out; getCandidateRelease is a deterministic function of the spec.
- AnsibleReconcile.RunAnsible: input directory, event receiver and process start are one call that works or fails; makeParameters, event handlers and the requeue period are left out.
- AnsibleStatus.Status.Record: the Ansible result counters, the custom status and the defaults for malformed stored conditions are left out.
- Conditions.ConditionSet.GetCondition: IsTrueFor, IsFalseFor and IsUnknownFor repeat its search and are left out, as are JSON encoding and aliasing between copies of a slice.
- HelmMigration.ConvertHistoryToV3: that a Helm 2 release cannot be converted is a property of the release; the conversion itself is identified with the release.
- ApiResources.ApiResources.IsVirtualResource: a kind is its group, version and kind, not the string they are printed as; ParseGroupVersion is a flag of the list.
- CrdVersions.GenerateNonGo: the sorted list is a parameter, any list that the sort may leave under the order of version names, which is not part of this model; YAML, file access and the v1 output are left out.
- CaseView.ConvertViewToPost: JavaScript's order of integer-like keys, `__proto__`, null in place of a missing map, and whether postToView returns a copy are left out.
- Scaffold templates, CLI commands, React components, real clients and codecs: text generation, wiring and I/O.
