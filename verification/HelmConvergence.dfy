/**
 Reconciling an unchanged resource without faults: at most one install or upgrade, and
 from then on every reconciliation only repairs what is deployed.
 */
module HelmConvergence {
  import opened Wrappers
  import opened HelmReconcile
  import opened HelmCluster

  /** How far a reconciliation is from its end. */
  function Phase(l: Local): nat {
    match l
    case Fetching => 20
    case Managing(_) => 19
    case Listing(_, _) => 18
    case Uninstalling(_, _) => 17
    case Marking(_, _) => 16
    case RemovingFinalizer(_) => 15
    case AwaitingDeletion => 14
    case SyncListing(_, _) => 18
    case Cleaning(_, _, _) => 17
    case FindingDeployed(_, _) => 16
    case Rendering(_, _, _) => 15
    case Installing(_, _) => 14
    case UndoingInstall(_, _) => 13
    case AddingFinalizer(_, _, _) => 12
    case Upgrading(_, _) => 11
    case UndoingUpgrade(_, _) => 10
    case Repairing(_, _, _) => 11
    case Hooking(_, _, _, _) => 9
    case Finishing(_, _) => 8
    case Reporting(_, _) => 7
    case Ended(_) => 0
  }

  function StaleLeft(l: Local): nat {
    if l.Cleaning? then |l.stale| else 0
  }

  lemma EveryAnswerMakesProgress(l: Local, r: Response)
    requires !l.Ended? && Sound(l)
    ensures var l' := Resume(l, r);
      Phase(l') < Phase(l) || (Phase(l') == Phase(l) && StaleLeft(l') < StaleLeft(l))
  {
  }

  /** A reconciliation that is left alone runs to its end: it makes finitely many calls. */
  function Settle(s: System): (t: System)
    requires Sound(s.at)
    ensures t.at.Ended?
    decreases Phase(s.at), StaleLeft(s.at)
  {
    if s.at.Ended? then s
    else
      EveryAnswerMakesProgress(s.at, Serve(s, Ask(s.at), Reliable).response);
      Settle(Next(s, Act(Reliable)))
  }

  function Reconciled(s: System): System
    requires s.at.Ended?
  {
    Settle(Next(s, Start))
  }

  /** The releases are stored in the order of their versions. */
  predicate Orderly(h: seq<Release>) {
    forall i, j :: 0 <= i < j < |h| ==> h[i].version < h[j].version
  }

  predicate HasInfo(h: seq<Release>) {
    forall r :: r in h ==> r.status.Some?
  }

  /** Nothing is deployed, and there is a release without Info, which Sync does not delete. */
  predicate IsBlocked(h: seq<Release>) {
    LatestDeployed(h).None? && !HasInfo(h)
  }

  /** The resource is live, carries the finalizer, and what it asks for is what is deployed, with no failure on record. */
  predicate Converged(s: System) {
    && s.at.Ended? && Guarded(s) && !s.cr.value.deleting
    && LatestDeployed(s.store).Some? && LatestDeployed(s.store).value.manifest == s.cr.value.manifest
    && s.cr.value.status.deployed == Some(s.cr.value.manifest)
    && ReleaseFailed !in s.cr.value.status.conditions && Irreconcilable !in s.cr.value.status.conditions
  }

  // ----------------------------------------------------------- stage by stage

  lemma {:induction false} DropIsPart(h: seq<Release>, v: nat)
    ensures forall r :: r in Drop(h, v) ==> r in h
  {
    if h != [] {
      DropIsPart(h[1..], v);
    }
  }

  lemma {:induction false} DropKeepsOrder(h: seq<Release>, v: nat)
    requires Orderly(h)
    ensures Orderly(Drop(h, v))
  {
    if h != [] {
      assert forall i :: 0 <= i < |h| - 1 ==> h[1..][i] == h[i + 1];
      DropKeepsOrder(h[1..], v);
      DropIsPart(h[1..], v);
      assert forall r :: r in h[1..] ==> h[0].version < r.version;
    }
  }

  lemma {:induction false} DropSnoc(front: seq<Release>, last: Release, v: nat)
    ensures Drop(front + [last], v) == Drop(front, v) + if last.version == v then [] else [last]
  {
    if front == [] {
      assert front + [last] == [last] && [last][1..] == [];
    } else {
      assert (front + [last])[1..] == front[1..] + [last];
      DropSnoc(front[1..], last, v);
    }
  }

  /** Sync's clean-up does not lose what is deployed. */
  lemma {:induction false} DropKeepsLatest(h: seq<Release>, v: nat)
    requires forall i :: 0 <= i < |h| && h[i].version == v ==> IsStale(h[i])
    ensures LatestDeployed(Drop(h, v)) == LatestDeployed(h)
  {
    if h != [] {
      var front, last := h[..|h| - 1], h[|h| - 1];
      assert h == front + [last];
      DropKeepsLatest(front, v);
      DropSnoc(front, last, v);
      if last.version == v {
        assert IsStale(last);
        assert Drop(h, v) == Drop(front, v) + [] == Drop(front, v);
      } else {
        var d := Drop(front, v);
        assert Drop(h, v) == d + [last];
        assert (d + [last])[|d|] == last && (d + [last])[..|d|] == d;
      }
    }
  }

  /** Only stale releases have a version on the list. */
  predicate OnlyStale(h: seq<Release>, versions: seq<nat>) {
    forall i :: 0 <= i < |h| && h[i].version in versions ==> IsStale(h[i])
  }

  lemma {:induction false} StaleVersionsAreOnlyStale(h: seq<Release>)
    requires Orderly(h)
    ensures OnlyStale(h, StaleVersions(h))
    ensures forall v :: v in StaleVersions(h) ==> exists i :: 0 <= i < |h| && h[i].version == v
  {
    if h != [] {
      var rest := h[1..];
      assert forall i :: 0 <= i < |rest| ==> rest[i] == h[i + 1];
      StaleVersionsAreOnlyStale(rest);
      forall i | 0 <= i < |h| && h[i].version in StaleVersions(h) ensures IsStale(h[i]) {
        if i > 0 && h[i].version != h[0].version {
          assert rest[i - 1] == h[i];
        }
      }
    }
  }

  lemma DropKeepsOnlyStale(h: seq<Release>, v: nat, versions: seq<nat>)
    requires OnlyStale(h, [v] + versions)
    ensures OnlyStale(Drop(h, v), versions)
  {
    DropIsPart(h, v);
    forall i | 0 <= i < |Drop(h, v)| && Drop(h, v)[i].version in versions ensures IsStale(Drop(h, v)[i]) {
      assert Drop(h, v)[i] in h;
    }
  }

  lemma {:induction false} DropKeepsInfo(h: seq<Release>, v: nat)
    requires forall i :: 0 <= i < |h| && h[i].version == v ==> IsStale(h[i])
    ensures HasInfo(Drop(h, v)) <==> HasInfo(h)
  {
    if h != [] {
      assert forall i :: 0 <= i < |h| - 1 ==> h[1..][i] == h[i + 1];
      DropKeepsInfo(h[1..], v);
      assert h == [h[0]] + h[1..];
    }
  }

  /** One deletion of the clean-up. */
  lemma DropCleans(h: seq<Release>, v: nat, versions: seq<nat>)
    requires Orderly(h) && StaleIn(h, [v] + versions) && OnlyStale(h, [v] + versions)
    ensures var d := Drop(h, v);
      && Orderly(d) && StaleIn(d, versions) && OnlyStale(d, versions)
      && LatestDeployed(d) == LatestDeployed(h) && (HasInfo(d) <==> HasInfo(h))
  {
    assert v in [v] + versions;
    DropKeeps(h, v, versions);
    DropKeepsOrder(h, v);
    DropKeepsLatest(h, v);
    DropKeepsInfo(h, v);
    DropKeepsOnlyStale(h, v, versions);
  }

  lemma {:induction false} CleaningSettles(s: System) returns (h: seq<Release>)
    requires s.at.Cleaning? && Sound(s.at) && Orderly(s.store)
    requires StaleIn(s.store, s.at.stale) && OnlyStale(s.store, s.at.stale)
    ensures Orderly(h) && StaleIn(h, []) && LatestDeployed(h) == LatestDeployed(s.store)
    ensures HasInfo(h) <==> HasInfo(s.store)
    ensures Settle(s) == Settle(s.(store := h, at := FindingDeployed(s.at.o, s.at.st)))
    decreases |s.at.stale|
  {
    var s' := Next(s, Act(Reliable));
    var v, rest := s.at.stale[0], s.at.stale[1..];
    assert s.at.stale == [v] + rest;
    DropCleans(s.store, v, rest);
    assert s' == s.(store := Drop(s.store, v), at := Clean(s.at.o, s.at.st, rest)) && Settle(s) == Settle(s');
    if rest == [] {
      h := s'.store;
    } else {
      h := CleaningSettles(s');
      assert s.(store := h, at := FindingDeployed(s.at.o, s.at.st)) ==
             s'.(store := h, at := FindingDeployed(s.at.o, s.at.st));
    }
  }

  /** The working copy is the stored resource. */
  predicate HoldsCurrent(s: System, o: Cr) {
    s.cr.Some? && s.cr.value.version == o.version && s.cr.value.manifest == o.manifest &&
    !s.cr.value.deleting && s.cr.value.finalizers == o.finalizers
  }

  /** From the hook on: the status is stored and nothing else changes. */
  lemma HookingSettles(s: System)
    requires s.at.Hooking? && HoldsCurrent(s, s.at.o) && FINALIZER in s.at.o.finalizers
    ensures var t := Settle(s);
      && t.at == Ended(Fine) && t.store == s.store && t.changes == s.changes && t.repairs == s.repairs
      && t.cr.Some? && t.cr.value == s.cr.value.(
           version := t.cr.value.version, status := Conclude(s.at.st, s.at.manifest, s.at.kind))
  {
    var s1 := Next(s, Act(Reliable));
    var s2 := Next(s1, Act(Reliable));
    assert s1 == s.(at := Finishing(s.at.o, Conclude(s.at.st, s.at.manifest, s.at.kind)));
    assert s2.at == Ended(Fine);
    assert Settle(s) == Settle(s1) == Settle(s2) == s2;
  }

  /** Saving the finalizer keeps the working copy current. */
  lemma AddingSettles(s: System) returns (s': System)
    requires s.at.AddingFinalizer? && FINALIZER in s.at.o.finalizers
    requires s.cr.Some? && s.cr.value.version == s.at.o.version
    requires s.cr.value.manifest == s.at.o.manifest && !s.cr.value.deleting
    ensures Sound(s'.at) && HasCopy(s'.at) && Settle(s) == Settle(s')
    ensures s'.at == Follow(s'.at.o, s.at.st, s.at.plan)
    ensures HoldsCurrent(s', s'.at.o) && s'.at.o == s.at.o.(version := s'.at.o.version)
    ensures s'.store == s.store && s'.changes == s.changes && s'.repairs == s.repairs
    ensures s'.cr.value.manifest == s.cr.value.manifest
  {
    s' := Next(s, Act(Reliable));
  }

  lemma {:induction false} SupersedeKeepsVersions(h: seq<Release>)
    ensures |Supersede(h)| == |h|
    ensures forall i :: 0 <= i < |h| ==> Supersede(h)[i].version == h[i].version
    ensures forall i :: 0 <= i < |h| && h[i].status.Some? ==> Supersede(h)[i].status.Some?
  {
    if h != [] && h[|h| - 1].status != Some(IsDeployed) {
      SupersedeKeepsVersions(h[..|h| - 1]);
    }
  }

  lemma SupersedeKeepsOrder(h: seq<Release>)
    requires Orderly(h)
    ensures Orderly(Supersede(h)) && (HasInfo(h) ==> HasInfo(Supersede(h)))
  {
    SupersedeKeepsVersions(h);
  }

  lemma RecordKeepsOrder(h: seq<Release>, status: ReleaseStatus, m: nat)
    requires Orderly(h)
    ensures Orderly(Record(h, status, m)) && (HasInfo(h) ==> HasInfo(Record(h, status, m)))
  {
    if h != [] {
      assert forall i :: 0 <= i < |h| ==> h[i].version <= h[|h| - 1].version;
    }
  }

  /** A live resource between reconciliations, with an orderly release history. */
  predicate Ready(s: System) {
    s.at.Ended? && s.cr.Some? && !s.cr.value.deleting && Orderly(s.store)
  }

  /** What one fault-free reconciliation of a live resource leaves behind. */
  predicate Reached(s: System, t: System, changes: nat) {
    && s.cr.Some? && Converged(t) && Orderly(t.store) && changes <= 1
    && t.cr.value.manifest == s.cr.value.manifest
    && t.changes == s.changes + changes && t.repairs == s.repairs + 1 - changes
  }

  /** The final status of each way through. */
  predicate NoFailures(st: Status) {
    ReleaseFailed !in st.conditions && Irreconcilable !in st.conditions
  }

  lemma HookingConverges(s: System)
    requires s.at.Hooking? && HoldsCurrent(s, s.at.o) && FINALIZER in s.at.o.finalizers
    requires NoFailures(s.at.st) && s.at.manifest == s.cr.value.manifest
    requires LatestDeployed(s.store).Some? && LatestDeployed(s.store).value.manifest == s.at.manifest
    ensures Converged(Settle(s)) && Settle(s).store == s.store
    ensures Settle(s).changes == s.changes && Settle(s).repairs == s.repairs
    ensures Settle(s).cr.value.manifest == s.cr.value.manifest && Settle(s).at == Ended(Fine)
  {
    HookingSettles(s);
  }

  /** Upgrade or repair, with the finalizer in place. */
  lemma EquippedConverges(s: System)
    requires s.at.Upgrading? || s.at.Repairing?
    requires HoldsCurrent(s, s.at.o) && FINALIZER in s.at.o.finalizers && Orderly(s.store)
    requires SyncIsRight(s.store, s.at) && Irreconcilable !in s.at.st.conditions
    requires s.at.Repairing? ==> NoFailures(s.at.st)
    ensures Reached(s, Settle(s), if s.at.Upgrading? then 1 else 0) && Settle(s).at == Ended(Fine)
  {
    var s1 := Next(s, Act(Reliable));
    if s.at.Upgrading? {
      SupersedeKeepsOrder(s.store);
      RecordKeepsOrder(Supersede(s.store), IsDeployed, s.at.o.manifest);
    }
    HookingConverges(s1);
  }

  /** Nothing is deployed: install, add the finalizer, run the hook. */
  lemma InstallConverges(s: System)
    requires s.at.Installing? && s.store == [] && HoldsCurrent(s, s.at.o) && Irreconcilable !in s.at.st.conditions
    ensures Reached(s, Settle(s), 1) && Settle(s).at == Ended(Fine)
  {
    var s1 := Next(s, Act(Reliable));
    RecordKeepsOrder([], IsDeployed, s.at.o.manifest);
    assert s1.at == AddingFinalizer(WithFinalizer(s.at.o), s.at.st.Without(ReleaseFailed), AfterInstall(s.at.o.manifest));
    var s2 := AddingSettles(s1);
    HookingConverges(s2);
  }

  predicate IsWanted(s: System)
    requires s.cr.Some?
  {
    LatestDeployed(s.store).Some? && LatestDeployed(s.store).value.manifest == s.cr.value.manifest
  }

  /** Something is deployed: upgrade it or repair it, with the finalizer in place. */
  lemma RenderingConverges(s: System)
    requires s.at.Rendering? && HoldsCurrent(s, s.at.o) && Orderly(s.store) && IsSynced(s.store, s.at.deployed)
    ensures Reached(s, Settle(s), if IsWanted(s) then 0 else 1) && Settle(s).at == Ended(Fine)
  {
    var s1 := Next(s, Act(Reliable));
    if s1.at.AddingFinalizer? {
      var s2 := AddingSettles(s1);
      EquippedConverges(s2);
    } else {
      EquippedConverges(s1);
    }
  }

  /** What a reconciliation leaves behind that cannot install: an error, and everything as before but the status. */
  predicate Failed(s: System, t: System) {
    && s.cr.Some? && t.at == Ended(Erred) && Ready(t) && IsBlocked(t.store)
    && t.cr.value.manifest == s.cr.value.manifest && t.changes == s.changes && t.repairs == s.repairs
  }

  /** The report of an error is stored and nothing else changes. */
  lemma ReportingSettles(s: System)
    requires s.at.Reporting? && HoldsCurrent(s, s.at.o)
    ensures var t := Settle(s);
      && t.at == Ended(Erred) && t.store == s.store && t.changes == s.changes && t.repairs == s.repairs
      && t.cr.Some? && t.cr.value == s.cr.value.(version := t.cr.value.version, status := s.at.st)
  {
    var s' := Next(s, Act(Reliable));
    assert Serve(s, Ask(s.at), Reliable).after == Save(s, s.cr.value.(status := s.at.st));
    assert s' == Save(s, s.cr.value.(status := s.at.st)).(at := Ended(Erred));
    assert Settle(s) == Settle(s') == s';
  }

  /** Install refuses the name, which is in use. */
  lemma InstallFails(s: System)
    requires s.at.Installing? && s.store != [] && HoldsCurrent(s, s.at.o) && Orderly(s.store) && IsBlocked(s.store)
    ensures Failed(s, Settle(s))
  {
    var s1 := Next(s, Act(Reliable));
    assert s1.at.Reporting? && s1 == s.(at := s1.at) && Settle(s) == Settle(s1);
    ReportingSettles(s1);
  }

  lemma FindingFails(s: System)
    requires s.at.FindingDeployed? && HoldsCurrent(s, s.at.o) && Orderly(s.store) && IsBlocked(s.store)
    ensures Failed(s, Settle(s))
  {
    InstallFails(Next(s, Act(Reliable)));
  }

  lemma FindingConverges(s: System)
    requires s.at.FindingDeployed? && HoldsCurrent(s, s.at.o)
    requires Orderly(s.store) && StaleIn(s.store, []) && !IsBlocked(s.store)
    ensures Reached(s, Settle(s), if IsWanted(s) then 0 else 1) && Settle(s).at == Ended(Fine)
  {
    var s1 := Next(s, Act(Reliable));
    if s.store == [] {
      InstallConverges(s1);
    } else {
      assert s.store[0] in s.store && LatestDeployed(s.store).Some?;
      RenderingConverges(s1);
    }
  }

  // --------------------------------------------------------------- the promise

  /** From the start of a reconciliation of a live resource to Sync. */
  lemma ReachesSync(s: System)
    requires Ready(s)
    ensures Reconciled(s) ==
            Settle(s.(at := SyncListing(s.cr.value, s.cr.value.status.With(Initialized, true, NoReason))))
  {
    var s1 := Next(s, Start);
    var s2 := Next(s1, Act(Reliable));
    assert s2 == s.(at := Managing(s.cr.value));
    var s3 := Next(s2, Act(Reliable));
    assert s3 == s.(at := SyncListing(s.cr.value, s.cr.value.status.With(Initialized, true, NoReason)));
    assert Settle(s1) == Settle(s2) == Settle(s3);
  }

  /**
   One fault-free reconciliation converges, with one install or upgrade unless the release
   is as wanted; but it fails when nothing is deployed and a release has no Info.
   */
  lemma OneReconciliationConverges(s: System)
    requires Ready(s)
    ensures IsBlocked(s.store) ==> Failed(s, Reconciled(s))
    ensures !IsBlocked(s.store) ==>
              Reached(s, Reconciled(s), if IsWanted(s) then 0 else 1) && Reconciled(s).at == Ended(Fine)
  {
    var o := s.cr.value;
    var st := o.status.With(Initialized, true, NoReason);
    ReachesSync(s);
    var s3 := s.(at := SyncListing(o, st));
    StaleVersionsAreAll(s.store);
    StaleVersionsAreOnlyStale(s.store);
    var s4 := Next(s3, Act(Reliable));
    assert s4 == s.(at := Clean(o, st, StaleVersions(s.store)));
    assert Settle(s3) == Settle(s4);
    var h := s.store;
    if s4.at.Cleaning? {
      h := CleaningSettles(s4);
    }
    var s5 := s.(store := h, at := FindingDeployed(o, st));
    assert Settle(s4) == Settle(s5);
    if IsBlocked(s.store) {
      FindingFails(s5);
    } else {
      FindingConverges(s5);
    }
  }

  lemma ServeKeepsOrder(s: System, req: Request, fault: Fault)
    requires Orderly(s.store) && HasInfo(s.store)
    ensures Orderly(Serve(s, req, fault).after.store) && HasInfo(Serve(s, req, fault).after.store)
  {
    SupersedeKeepsOrder(s.store);
    match req {
      case DeleteRelease(v) =>
        DropKeepsOrder(s.store, v);
        DropIsPart(s.store, v);
      case Install(m) =>
        RecordKeepsOrder(s.store, HasFailed, m);
        RecordKeepsOrder(s.store, IsDeployed, m);
      case Upgrade(m) =>
        RecordKeepsOrder(s.store, HasFailed, m);
        RecordKeepsOrder(Supersede(s.store), IsDeployed, m);
      case Rollback =>
        if LatestDeployed(s.store).Some? {
          RecordKeepsOrder(Supersede(s.store), IsDeployed, LatestDeployed(s.store).value.manifest);
        }
      case _ =>
    }
  }

  /** The history stays orderly whatever happens. */
  lemma NextKeepsOrder(s: System, step: Step)
    requires Enabled(s, step) && Orderly(s.store) && HasInfo(s.store)
    ensures Orderly(Next(s, step).store) && HasInfo(Next(s, step).store)
  {
    if step.Act? {
      ServeKeepsOrder(s, Ask(s.at), step.fault);
    }
  }

  lemma {:induction false} RunKeepsOrder(s: System, steps: seq<Step>)
    requires IsRun(s, steps) && Orderly(s.store) && HasInfo(s.store)
    ensures Orderly(Final(s, steps).store) && HasInfo(Final(s, steps).store)
    decreases |steps|
  {
    if steps != [] {
      NextKeepsOrder(s, steps[0]);
      RunKeepsOrder(Next(s, steps[0]), steps[1..]);
    }
  }

  /** n reconciliations, one after the other, with nothing in between. */
  function Repeat(s: System, n: nat): (t: System)
    requires s.at.Ended?
    ensures t.at.Ended?
  {
    if n == 0 then s else Reconciled(Repeat(s, n - 1))
  }

  /** What n of them leave behind: one install or upgrade in all if it was needed, and repairs. */
  predicate ReachedIn(s: System, t: System, n: nat) {
    && s.cr.Some? && Converged(t) && Orderly(t.store) && t.at == Ended(Fine)
    && t.cr.value.manifest == s.cr.value.manifest
    && var changes := if IsWanted(s) then 0 else 1;
       t.changes == s.changes + changes && t.repairs == s.repairs + n - changes
  }

  /** They converge exactly unless nothing is deployed and a release has no Info; then each of them fails. */
  lemma {:induction false} RepeatConverges(s: System, n: nat)
    requires Ready(s) && n > 0
    ensures Converged(Repeat(s, n)) <==> !IsBlocked(s.store)
    ensures if IsBlocked(s.store) then Failed(s, Repeat(s, n)) else ReachedIn(s, Repeat(s, n), n)
  {
    var t := Repeat(s, n - 1);
    assert Repeat(s, n) == Reconciled(t);
    if n > 1 {
      RepeatConverges(s, n - 1);
    }
    assert Ready(t) && (IsBlocked(t.store) <==> IsBlocked(s.store));
    OneReconciliationConverges(t);
  }

  /**
   Whatever went wrong before: once the spec of a live resource no longer changes and
   nothing fails, n reconciliations make exactly one install or upgrade if what is
   deployed is not what is asked for, none otherwise, only repair in all the others, and
   all end without error in a converged state.
   */
  lemma EveryHistoryConverges(s: System, steps: seq<Step>, n: nat)
    requires Initial(s) && IsRun(s, steps) && n > 0
    requires Final(s, steps).at.Ended? && Final(s, steps).cr.Some? && !Final(s, steps).cr.value.deleting
    ensures ReachedIn(Final(s, steps), Repeat(Final(s, steps), n), n)
  {
    RunKeepsOrder(s, steps);
    RepeatConverges(Final(s, steps), n);
  }
}
