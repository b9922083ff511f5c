/**
 A Helm custom resource over its whole life: users create, change and delete it, other
 controllers add and remove finalizers of their own, and the operator reconciles it
 with stale reads, conflicts, lost requests and replies, partial failures and crashes.

 Nobody but the operator touches its finalizer or its release history, one
 reconciliation runs at a time, and an update with an old version is refused.
 */
module HelmCluster {
  import opened Wrappers
  import opened HelmReconcile

  /**
   seen holds every version of the resource that was ever stored: a cached read may
   return any of them. carried says whether the present resource ever had the
   operator's finalizer; changes counts installs and upgrades, repairs the runs of
   ReconcileRelease.
   */
  datatype System = System(
    cr: Option<Cr>,
    carried: bool,
    seen: map<nat, Cr>,
    nextVersion: nat,
    store: seq<Release>,
    at: Local,
    changes: nat,
    repairs: nat)

  datatype Fault = Reliable | StaleRead(version: nat) | PartialFailure | RequestLost | ReplyLost

  datatype Step =
    | Create(manifest: nat)
    | Change(manifest: nat)
    | Delete
    | AddFinalizer(name: string)
    | DropFinalizer(name: string)
    | Start
    | Crash
    | Act(fault: Fault)

  // ----------------------------------------------------------- the API server

  /** The resource is stored under a new version, or goes if it is being deleted and nothing holds it. */
  function Save(s: System, cr: Cr): System {
    var cr' := cr.(version := s.nextVersion);
    s.(carried := s.carried || FINALIZER in cr.finalizers,
       cr := if cr.deleting && cr.finalizers == {} then None else Some(cr'),
       seen := s.seen[s.nextVersion := cr'],
       nextVersion := s.nextVersion + 1)
  }

  predicate IsCurrent(s: System, o: Cr) {
    s.cr.Some? && s.cr.value.version == o.version
  }

  // ---------------------------------------------------------- the Helm library

  function NextRelease(h: seq<Release>): nat {
    if h == [] then 1 else h[|h| - 1].version + 1
  }

  /** The latest deployed release. */
  function LatestDeployed(h: seq<Release>): Option<Release> {
    if h == [] then None
    else if h[|h| - 1].status == Some(IsDeployed) then Some(h[|h| - 1])
    else LatestDeployed(h[..|h| - 1])
  }

  /** The latest deployed release is superseded. */
  function Supersede(h: seq<Release>): seq<Release> {
    if h == [] then []
    else if h[|h| - 1].status == Some(IsDeployed) then
      h[..|h| - 1] + [h[|h| - 1].(status := Some(Superseded))]
    else Supersede(h[..|h| - 1]) + [h[|h| - 1]]
  }

  function Drop(h: seq<Release>, version: nat): seq<Release> {
    if h == [] then []
    else if h[0].version == version then Drop(h[1..], version)
    else [h[0]] + Drop(h[1..], version)
  }

  function Record(h: seq<Release>, status: ReleaseStatus, manifest: nat): seq<Release> {
    h + [Release(NextRelease(h), Some(status), manifest)]
  }

  datatype Served = Served(response: Response, after: System)

  function Serve(s: System, req: Request, fault: Fault): Served {
    match req
    case GetCr =>
      if fault.StaleRead? && fault.version in s.seen then Served(CrIs(s.seen[fault.version]), s)
      else if s.cr.Some? then Served(CrIs(s.cr.value), s)
      else Served(NotFound, s)
    case NewManager => Served(Done, s)
    case History => Served(HistoryIs(s.store), s)
    case Uninstall => if fault.PartialFailure? then Served(Partial, s) else Served(Done, s.(store := []))
    case UpdateStatus(o, st) =>
      if !IsCurrent(s, o) then Served(Failure, s)
      else Served(Saved(s.nextVersion), Save(s, s.cr.value.(status := st)))
    case UpdateCr(o) =>
      if !IsCurrent(s, o) then Served(Failure, s)
      else Served(Saved(s.nextVersion), Save(s, s.cr.value.(finalizers := o.finalizers)))
    case AwaitGone => Served(if s.cr.None? then Done else Failure, s)
    case DeleteRelease(v) => Served(Done, s.(store := Drop(s.store, v)))
    case GetDeployed =>
      var d := LatestDeployed(s.store);
      Served(if d.Some? then ReleaseIs(d.value.manifest) else NotFound, s)
    case Render(m) => Served(ReleaseIs(m), s)
    case Install(m) =>
      if s.store != [] then Served(Failure, s)
      else if fault.PartialFailure? then Served(Partial, s.(store := Record(s.store, HasFailed, m)))
      else Served(ReleaseIs(m), s.(store := Record(s.store, IsDeployed, m), changes := s.changes + 1))
    case Upgrade(m) =>
      if LatestDeployed(s.store).None? then Served(Failure, s)
      else if fault.PartialFailure? then Served(Partial, s.(store := Record(s.store, HasFailed, m)))
      else Served(ReleaseIs(m),
                  s.(store := Record(Supersede(s.store), IsDeployed, m), changes := s.changes + 1))
    case Rollback =>
      var d := LatestDeployed(s.store);
      if d.None? then Served(Failure, s)
      else Served(Done, s.(store := Record(Supersede(s.store), IsDeployed, d.value.manifest)))
    case Repair(_) => Served(Done, s.(repairs := s.repairs + 1))
    case RunHook(_) => Served(Done, s)
  }

  // ------------------------------------------------------------------- steps

  predicate Enabled(s: System, step: Step) {
    match step
    case Create(_) => s.cr.None?
    case Change(_) => s.cr.Some?
    case Delete => s.cr.Some?
    case AddFinalizer(f) => s.cr.Some? && !s.cr.value.deleting && f != FINALIZER
    case DropFinalizer(f) => s.cr.Some? && f != FINALIZER
    case Start => s.at.Ended?
    case Crash => true
    case Act(_) => !s.at.Ended? && Sound(s.at)
  }

  function Next(s: System, step: Step): System
    requires Enabled(s, step)
  {
    match step
    case Create(m) => Save(s.(carried := false), Cr(0, false, {}, m, Status(map[], None)))
    case Change(m) => Save(s, s.cr.value.(manifest := m))
    case Delete => Save(s, s.cr.value.(deleting := true))
    case AddFinalizer(f) => Save(s, s.cr.value.(finalizers := s.cr.value.finalizers + {f}))
    case DropFinalizer(f) => Save(s, s.cr.value.(finalizers := s.cr.value.finalizers - {f}))
    case Start => s.(at := Fetching)
    case Crash => s.(at := Ended(Erred))
    case Act(fault) =>
      var served := Serve(s, Ask(s.at), fault);
      var s' := if fault.RequestLost? then s else served.after;
      var r := if fault.RequestLost? || fault.ReplyLost? then Failure else served.response;
      s'.(at := Resume(s.at, r))
  }

  predicate IsRun(s: System, steps: seq<Step>)
    decreases |steps|
  {
    steps == [] || (Enabled(s, steps[0]) && IsRun(Next(s, steps[0]), steps[1..]))
  }

  function Final(s: System, steps: seq<Step>): System
    requires IsRun(s, steps)
    decreases |steps|
  {
    if steps == [] then s else Final(Next(s, steps[0]), steps[1..])
  }

  predicate Initial(s: System) {
    s.cr == None && s.seen == map[] && s.store == [] && s.at.Ended?
  }

  // -------------------------------------------------------------- invariant

  predicate VersionsAreKept(s: System) {
    && (forall v :: v in s.seen ==> v < s.nextVersion && s.seen[v].version == v)
    && (s.cr.Some? ==> s.cr.value.version in s.seen && s.seen[s.cr.value.version] == s.cr.value)
  }

  /** o is a faithful copy of a stored version, up to its status. */
  predicate IsCopy(s: System, o: Cr) {
    && o.version in s.seen
    && s.seen[o.version].deleting == o.deleting && s.seen[o.version].finalizers == o.finalizers
  }

  predicate HasCopy(l: Local) {
    !l.Fetching? && !l.AwaitingDeletion? && !l.Ended?
  }

  /** Points of the deletion branch, of the other branch, and of its part after the finalizer. */
  predicate Terminating(l: Local) {
    l.Listing? || l.Uninstalling? || l.Marking? || l.RemovingFinalizer?
  }

  predicate Equipped(l: Local) {
    l.Upgrading? || l.Repairing? || l.Hooking? || l.Finishing?
  }

  predicate Maintaining(l: Local) {
    l.SyncListing? || l.Cleaning? || l.FindingDeployed? || l.Rendering? || l.Installing? ||
    l.AddingFinalizer? || Equipped(l)
  }

  /** The working copy, and the finalizer on it, at every point of a reconciliation. */
  predicate CopyIsRight(s: System, l: Local) {
    && (HasCopy(l) && !l.RemovingFinalizer? && !l.AddingFinalizer? ==> IsCopy(s, l.o))
    && (l.RemovingFinalizer? || l.AddingFinalizer? ==>
          l.o.version in s.seen && s.seen[l.o.version].deleting == l.o.deleting)
    && (Terminating(l) ==> l.o.deleting)
    && (Maintaining(l) ==> !l.o.deleting)
    && (Equipped(l) || l.AddingFinalizer? ==> FINALIZER in l.o.finalizers)
    && (l.Marking? || l.RemovingFinalizer? ==> s.store == [])
  }

  /** The latest deployed release has manifest m and no stale release is left. */
  predicate IsSynced(h: seq<Release>, m: nat) {
    StaleIn(h, []) && LatestDeployed(h).Some? && LatestDeployed(h).value.manifest == m
  }

  /** The latest deployed release does not have the manifest that the spec renders to. */
  predicate IsOutdated(h: seq<Release>, m: nat) {
    StaleIn(h, []) && LatestDeployed(h).Some? && LatestDeployed(h).value.manifest != m
  }

  /** What Sync has achieved: stale releases are gone, or still on its list; its flags match the store. */
  predicate SyncIsRight(h: seq<Release>, l: Local) {
    match l
    case Cleaning(_, _, stale) => StaleIn(h, stale)
    case FindingDeployed(_, _) => StaleIn(h, [])
    case Rendering(_, _, deployed) => IsSynced(h, deployed)
    case Installing(_, _) => StaleIn(h, []) && LatestDeployed(h).None?
    case AddingFinalizer(o, _, plan) =>
      (plan.DoRepair? ==> IsSynced(h, plan.manifest) && plan.manifest == o.manifest) &&
      (plan.DoUpgrade? ==> IsOutdated(h, o.manifest))
    case Upgrading(o, _) => IsOutdated(h, o.manifest)
    case Repairing(o, _, m) => IsSynced(h, m) && m == o.manifest
    case _ => true
  }

  /** Every stale release of the store has its version on the list. */
  predicate StaleIn(h: seq<Release>, versions: seq<nat>) {
    forall i :: 0 <= i < |h| && IsStale(h[i]) ==> h[i].version in versions
  }

  predicate Inv(s: System) {
    VersionsAreKept(s) && Sound(s.at) && CopyIsRight(s, s.at)
  }

  lemma CopyStaysRight(s: System, s': System, l: Local)
    requires CopyIsRight(s, l) && s'.store == s.store
    requires forall v :: v in s.seen ==> v in s'.seen && s'.seen[v] == s.seen[v]
    ensures CopyIsRight(s', l)
  {
  }

  lemma ServeKeepsVersions(s: System, req: Request, fault: Fault)
    requires VersionsAreKept(s)
    ensures var s' := Serve(s, req, fault).after;
      && VersionsAreKept(s')
      && forall v :: v in s.seen ==> v in s'.seen && s'.seen[v] == s.seen[v]
  {
  }

  /** Where the copy of the next point comes from. */
  predicate CopyComesFrom(l: Local, r: Response, l': Local)
    requires HasCopy(l')
  {
    if l.Fetching? then r.CrIs? && l'.Managing? && l'.o == r.cr
    else if !HasCopy(l) then false
    else if l.Marking? then
      r.Saved? && l'.RemovingFinalizer? && l'.o.version == r.version && l'.o.deleting == l.o.deleting
    else if l.AddingFinalizer? then r.Saved? && Equipped(l') && l'.o == l.o.(version := r.version)
    else if l'.AddingFinalizer? then Maintaining(l) && l'.o == WithFinalizer(l.o)
    else l'.o == l.o && !l.RemovingFinalizer? && !l'.RemovingFinalizer?
  }

  lemma ResumeCopy(l: Local, r: Response)
    requires !l.Ended? && Sound(l) && HasCopy(Resume(l, r))
    ensures CopyComesFrom(l, r, Resume(l, r))
  {
  }

  /** How a reconciliation moves between its branches. */
  lemma ResumeBranch(l: Local, r: Response)
    requires !l.Ended? && Sound(l)
    ensures var l' := Resume(l, r);
      && (Terminating(l') ==> Terminating(l) || (l.Managing? && l.o.deleting))
      && (Maintaining(l') ==> Maintaining(l) || (l.Managing? && !l.o.deleting))
      && (Equipped(l') ==> Equipped(l) || l.AddingFinalizer? || (l.Rendering? && FINALIZER in l.o.finalizers))
      && (l'.Marking? ==> (l.Listing? && (r.NotFound? || r == HistoryIs([]))) || (l.Uninstalling? && r.Done?))
      && (l'.RemovingFinalizer? ==> l.Marking?)
  {
  }

  /** A saved copy is the new current version. */
  lemma SavedIsCurrent(s: System, req: Request, fault: Fault)
    requires VersionsAreKept(s) && Serve(s, req, fault).response.Saved?
    ensures req.UpdateCr? || req.UpdateStatus?
    ensures var v, s' := Serve(s, req, fault).response.version, Serve(s, req, fault).after;
      && IsCurrent(s, req.o) && req.o.version in s.seen && s'.store == s.store
      && v in s'.seen && s'.seen[v].deleting == s.seen[req.o.version].deleting
      && s'.seen[v].finalizers ==
           (if req.UpdateCr? then req.o.finalizers else s.seen[req.o.version].finalizers)
  {
  }

  lemma ActKeepsCopy(s: System, fault: Fault)
    requires Inv(s) && Enabled(s, Act(fault))
    ensures CopyIsRight(Next(s, Act(fault)), Next(s, Act(fault)).at)
  {
    var s' := Next(s, Act(fault));
    var served := Serve(s, Ask(s.at), fault);
    var r := if fault.RequestLost? || fault.ReplyLost? then Failure else served.response;
    ServeKeepsVersions(s, Ask(s.at), fault);
    ResumeBranch(s.at, r);
    if r.Saved? {
      SavedIsCurrent(s, Ask(s.at), fault);
    }
    if HasCopy(s'.at) {
      ResumeCopy(s.at, r);
    }
  }

  lemma NextKeepsInv(s: System, step: Step)
    requires Inv(s) && Enabled(s, step)
    ensures Inv(Next(s, step))
  {
    match step {
      case Act(fault) =>
        ServeKeepsVersions(s, Ask(s.at), fault);
        ActKeepsCopy(s, fault);
      case Start =>
      case Crash =>
      case _ => CopyStaysRight(s, Next(s, step), s.at);
    }
  }

  lemma {:induction false} RunKeepsInv(s: System, steps: seq<Step>)
    requires Inv(s) && IsRun(s, steps)
    ensures Inv(Final(s, steps))
    decreases |steps|
  {
    if steps != [] {
      NextKeepsInv(s, steps[0]);
      RunKeepsInv(Next(s, steps[0]), steps[1..]);
    }
  }

  // ------------------------------------------------------------- the finalizer

  predicate Guarded(s: System) {
    s.cr.Some? && FINALIZER in s.cr.value.finalizers
  }

  lemma GuardIsRemovedByTheOperator(t: System, step: Step)
    requires Inv(t) && Enabled(t, step) && Guarded(t) && !Guarded(Next(t, step))
    ensures step.Act? && t.at.RemovingFinalizer? && IsCurrent(t, t.at.o)
  {
  }

  /**
   Whatever is read, lost or crashes: the operator's finalizer leaves the resource only
   by the operator's own update, while the release history is empty.
   */
  lemma FinalizerGoesOnlyWithEmptyHistory(s: System, steps: seq<Step>, step: Step)
    requires Initial(s) && IsRun(s, steps) && Enabled(Final(s, steps), step)
    requires Guarded(Final(s, steps)) && !Guarded(Next(Final(s, steps), step))
    ensures step.Act? && Final(s, steps).at.RemovingFinalizer? && Final(s, steps).store == []
    ensures Final(s, steps).cr.value.deleting
  {
    RunKeepsInv(s, steps);
    GuardIsRemovedByTheOperator(Final(s, steps), step);
  }

  lemma FinishedIsCurrent(t: System, fault: Fault)
    requires Inv(t) && Enabled(t, Act(fault)) && Maintaining(t.at) && Next(t, Act(fault)).at == Ended(Fine)
    ensures Guarded(t) && Guarded(Next(t, Act(fault))) && !t.cr.value.deleting
  {
    assert t.at.Finishing?;
  }

  /** A reconciliation of a live resource that ends without error leaves the finalizer on it. */
  lemma ErrorFreeMeansGuarded(s: System, steps: seq<Step>, fault: Fault)
    requires Initial(s) && IsRun(s, steps) && Enabled(Final(s, steps), Act(fault))
    requires Maintaining(Final(s, steps).at)
    requires Next(Final(s, steps), Act(fault)).at == Ended(Fine)
    ensures Guarded(Final(s, steps)) && Guarded(Next(Final(s, steps), Act(fault)))
    ensures !Final(s, steps).cr.value.deleting
  {
    RunKeepsInv(s, steps);
    FinishedIsCurrent(Final(s, steps), fault);
  }

  // -------------------------------------------------- leaving the cluster

  /** The operator's finalizer has been on the present resource and is gone. */
  predicate LostFinalizer(s: System) {
    s.cr.Some? && s.carried && FINALIZER !in s.cr.value.finalizers
  }

  /** A reconciliation of such a resource begins with a cached copy from before its deletion. */
  predicate IsHarmfulRead(s: System, step: Step) {
    step.Act? && step.fault.StaleRead? && s.at.Fetching? && LostFinalizer(s) &&
    step.fault.version in s.seen && !s.seen[step.fault.version].deleting
  }

  predicate HarmlessReads(s: System, steps: seq<Step>)
    requires IsRun(s, steps)
    decreases |steps|
  {
    steps == [] || (!IsHarmfulRead(s, steps[0]) && HarmlessReads(Next(s, steps[0]), steps[1..]))
  }

  /** Where a reconciliation can be once the finalizer is gone: a stale copy may still have it. */
  predicate IsSpent(l: Local) {
    match l
    case Managing(o) => o.deleting
    case Listing(o, _) => o.deleting && FINALIZER in o.finalizers
    case Marking(o, _) => o.deleting && FINALIZER in o.finalizers
    case _ => l.AwaitingDeletion? || l.Ended? || l.Fetching? || l.Reporting?
  }

  /** Once its finalizer was removed a resource is being deleted, has no history and gets none. */
  predicate StaysUninstalled(s: System) {
    LostFinalizer(s) ==> s.cr.value.deleting && s.store == [] && IsSpent(s.at)
  }

  lemma NextStaysUninstalled(s: System, step: Step)
    requires Inv(s) && StaysUninstalled(s) && Enabled(s, step) && !IsHarmfulRead(s, step)
    ensures StaysUninstalled(Next(s, step))
  {
    assert s.cr.Some? ==> s.seen[s.cr.value.version] == s.cr.value;
    if step.Act? && LostFinalizer(s) && s.at.Marking? {
      assert !IsCurrent(s, s.at.o);
    }
  }

  lemma {:induction false} RunStaysUninstalled(s: System, steps: seq<Step>)
    requires Inv(s) && StaysUninstalled(s) && IsRun(s, steps) && HarmlessReads(s, steps)
    ensures Inv(Final(s, steps)) && StaysUninstalled(Final(s, steps))
    decreases |steps|
  {
    if steps != [] {
      NextKeepsInv(s, steps[0]);
      NextStaysUninstalled(s, steps[0]);
      RunStaysUninstalled(Next(s, steps[0]), steps[1..]);
    }
  }

  /** A resource that ever carried the finalizer goes, and its release stays. */
  predicate LeavesARelease(s: System, step: Step) {
    Enabled(s, step) && s.cr.Some? && s.carried && Next(s, step).cr.None? && s.store != []
  }

  lemma UninstalledLeavesNothing(s: System, step: Step)
    requires Inv(s) && StaysUninstalled(s) && Enabled(s, step)
    ensures !LeavesARelease(s, step)
  {
    if Guarded(s) && !Guarded(Next(s, step)) {
      GuardIsRemovedByTheOperator(s, step);
    }
  }

  /**
   Unless a reconciliation begins with such a copy, a resource that ever carried the
   finalizer leaves the cluster, by whosever step, only when its release history is empty.
   */
  lemma LeavesOnlyUninstalled(s: System, steps: seq<Step>, step: Step)
    requires Initial(s) && IsRun(s, steps) && HarmlessReads(s, steps) && Enabled(Final(s, steps), step)
    requires Final(s, steps).cr.Some? && Final(s, steps).carried && Next(Final(s, steps), step).cr.None?
    ensures Final(s, steps).store == []
  {
    RunStaysUninstalled(s, steps);
    UninstalledLeavesNothing(Final(s, steps), step);
  }

  // ------------------------------------------------------------------ Sync

  lemma {:induction false} DropKeeps(h: seq<Release>, version: nat, versions: seq<nat>)
    requires StaleIn(h, [version] + versions)
    ensures StaleIn(Drop(h, version), versions)
  {
    if h != [] {
      forall i | 0 <= i < |h| - 1 && IsStale(h[1..][i]) ensures h[1..][i].version in [version] + versions {
        assert IsStale(h[i + 1]);
      }
      DropKeeps(h[1..], version, versions);
    }
  }

  lemma {:induction false} StaleVersionsAreAll(h: seq<Release>)
    ensures StaleIn(h, StaleVersions(h))
  {
    if h != [] {
      StaleVersionsAreAll(h[1..]);
      forall i | 0 <= i < |h| && IsStale(h[i]) ensures h[i].version in StaleVersions(h) {
        if i > 0 {
          assert h[1..][i - 1] == h[i];
        }
      }
    }
  }

  lemma QuietStepKeepsSync(h: seq<Release>, l: Local, r: Response)
    requires SyncIsRight(h, l) && !l.Ended? && Sound(l) && !l.SyncListing? && !l.Cleaning?
    requires l.FindingDeployed? && r.ReleaseIs? ==> LatestDeployed(h).Some? && LatestDeployed(h).value.manifest == r.manifest
    requires l.FindingDeployed? && r.NotFound? ==> LatestDeployed(h).None?
    requires l.Rendering? && r.ReleaseIs? ==> r.manifest == l.o.manifest
    ensures SyncIsRight(h, Resume(l, r))
  {
  }

  lemma ActKeepsSync(s: System, fault: Fault)
    requires Sound(s.at) && SyncIsRight(s.store, s.at) && Enabled(s, Act(fault))
    ensures SyncIsRight(Next(s, Act(fault)).store, Next(s, Act(fault)).at)
  {
    var s' := Next(s, Act(fault));
    var served := Serve(s, Ask(s.at), fault);
    if s.at.SyncListing? {
      StaleVersionsAreAll(s.store);
    } else if s.at.Cleaning? {
      assert s.at.stale == [s.at.stale[0]] + s.at.stale[1..];
      DropKeeps(s.store, s.at.stale[0], s.at.stale[1..]);
    } else if s'.store == s.store {
      QuietStepKeepsSync(s.store, s.at,
        if fault.RequestLost? || fault.ReplyLost? then Failure else served.response);
    }
  }

  /** At every point of every run what a reconciliation knows from Sync matches the store. */
  lemma {:induction false} SyncMatchesTheStore(s: System, steps: seq<Step>)
    requires Inv(s) && SyncIsRight(s.store, s.at) && IsRun(s, steps)
    ensures SyncIsRight(Final(s, steps).store, Final(s, steps).at)
    decreases |steps|
  {
    if steps != [] {
      NextKeepsInv(s, steps[0]);
      if steps[0].Act? {
        ActKeepsSync(s, steps[0].fault);
      }
      SyncMatchesTheStore(Next(s, steps[0]), steps[1..]);
    }
  }
}
