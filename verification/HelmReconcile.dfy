/**
 One reconciliation of a Helm custom resource: Reconcile
 (operator-sdk/pkg/helm/controller/reconcile.go) with the release manager's Sync,
 InstallRelease, UpdateRelease and UninstallRelease
 (operator-sdk/pkg/helm/release/manager.go).

 A chart is taken to render a given spec always to the same manifest, and a spec is
 identified with that manifest. The status keeps one condition per type.
 */
module HelmReconcile {
  import opened Wrappers
  import opened Api

  const FINALIZER := "uninstall-helm-release"

  // ------------------------------------------------------------------ status

  datatype ConditionType = Initialized | Deployed | ReleaseFailed | Irreconcilable

  datatype Reason =
    | NoReason
    | InstallSuccessful | UpdateSuccessful | UninstallSuccessful
    | InstallError | UpdateError | ReconcileError | UninstallError

  datatype Condition = Condition(holds: bool, reason: Reason)

  datatype Status = Status(conditions: map<ConditionType, Condition>, deployed: Option<nat>)
  {
    function With(t: ConditionType, holds: bool, reason: Reason): Status {
      this.(conditions := conditions[t := Condition(holds, reason)])
    }

    function Without(t: ConditionType): Status {
      this.(conditions := conditions - {t})
    }
  }

  // ---------------------------------------------------------------- objects

  /** A copy of the custom resource, with the manifest that its spec renders to. */
  datatype Cr = Cr(version: nat, deleting: bool, finalizers: set<string>, manifest: nat, status: Status)

  datatype ReleaseStatus = IsDeployed | Superseded | HasFailed | Other

  /** A stored release; without a status its Info is nil. */
  datatype Release = Release(version: nat, status: Option<ReleaseStatus>, manifest: nat)

  predicate IsStale(r: Release) {
    r.status.Some? && r.status != Some(IsDeployed)
  }

  /** The versions that Sync deletes. */
  function StaleVersions(h: seq<Release>): seq<nat> {
    if h == [] then []
    else if IsStale(h[0]) then [h[0].version] + StaleVersions(h[1..])
    else StaleVersions(h[1..])
  }

  // ------------------------------------------------------------- the automaton

  datatype Request =
    | GetCr
    | NewManager
    | History
    | Uninstall
    | UpdateStatus(o: Cr, status: Status)
    | UpdateCr(o: Cr)
    | AwaitGone
    | DeleteRelease(version: nat)
    | GetDeployed
    | Render(manifest: nat)
    | Install(manifest: nat)
    | Upgrade(manifest: nat)
    | Rollback
    | Repair(manifest: nat)
    | RunHook(manifest: nat)

  datatype Response =
    | CrIs(cr: Cr)
    | HistoryIs(releases: seq<Release>)
    | ReleaseIs(manifest: nat)
    | Saved(version: nat)
    | Done
    | NotFound
    | Partial
    | Failure

  /** How a reconciliation goes on once the finalizer is in place. */
  datatype Plan = AfterInstall(manifest: nat) | DoUpgrade | DoRepair(manifest: nat)

  datatype Kind = Installed | Updated | Reconciled

  /** A run-time panic ends the operator like a kill. */
  datatype Ending = Fine | Erred | Panicked

  function EndingOf(ok: bool): Ending {
    if ok then Fine else Erred
  }

  datatype Local =
    | Fetching
    | Managing(o: Cr)
    | Listing(o: Cr, st: Status)
    | Uninstalling(o: Cr, st: Status)
    | Marking(o: Cr, st: Status)
    | RemovingFinalizer(o: Cr)
    | AwaitingDeletion
    | SyncListing(o: Cr, st: Status)
    | Cleaning(o: Cr, st: Status, stale: seq<nat>)
    | FindingDeployed(o: Cr, st: Status)
    | Rendering(o: Cr, st: Status, deployed: nat)
    | Installing(o: Cr, st: Status)
    | UndoingInstall(o: Cr, st: Status)
    | AddingFinalizer(o: Cr, st: Status, plan: Plan)
    | Upgrading(o: Cr, st: Status)
    | UndoingUpgrade(o: Cr, st: Status)
    | Repairing(o: Cr, st: Status, manifest: nat)
    | Hooking(o: Cr, st: Status, manifest: nat, kind: Kind)
    | Finishing(o: Cr, st: Status)
    | Reporting(o: Cr, st: Status)
    | Ended(how: Ending)

  function Ask(l: Local): Request
    requires !l.Ended?
    requires l.Cleaning? ==> l.stale != []
  {
    match l
    case Fetching => GetCr
    case Managing(_) => NewManager
    case Listing(_, _) => History
    case Uninstalling(_, _) => Uninstall
    case Marking(o, st) => UpdateStatus(o, st)
    case RemovingFinalizer(o) => UpdateCr(o)
    case AwaitingDeletion => AwaitGone
    case SyncListing(_, _) => History
    case Cleaning(_, _, stale) => DeleteRelease(stale[0])
    case FindingDeployed(_, _) => GetDeployed
    case Rendering(o, _, _) => Render(o.manifest)
    case Installing(o, _) => Install(o.manifest)
    case UndoingInstall(_, _) => Uninstall
    case AddingFinalizer(o, _, _) => UpdateCr(o)
    case Upgrading(o, _) => Upgrade(o.manifest)
    case UndoingUpgrade(_, _) => Rollback
    case Repairing(_, _, m) => Repair(m)
    case Hooking(_, _, m, _) => RunHook(m)
    case Finishing(o, st) => UpdateStatus(o, st)
    case Reporting(o, st) => UpdateStatus(o, st)
  }

  function Clean(o: Cr, st: Status, stale: seq<nat>): Local {
    if stale == [] then FindingDeployed(o, st) else Cleaning(o, st, stale)
  }

  function Follow(o: Cr, st: Status, plan: Plan): Local {
    match plan
    case AfterInstall(m) => Hooking(o, st, m, Installed)
    case DoUpgrade => Upgrading(o, st)
    case DoRepair(m) => Repairing(o, st.Without(ReleaseFailed), m)
  }

  function WithFinalizer(o: Cr): Cr {
    o.(finalizers := o.finalizers + {FINALIZER})
  }

  function Irreconcilably(o: Cr, st: Status): Local {
    Reporting(o, st.With(Irreconcilable, true, ReconcileError))
  }

  function Conclude(st: Status, m: nat, kind: Kind): Status {
    match kind
    case Installed => st.With(Deployed, true, InstallSuccessful).(deployed := Some(m))
    case Updated => st.With(Deployed, true, UpdateSuccessful).(deployed := Some(m))
    case Reconciled => st.(deployed := Some(m))
  }

  function Resume(l: Local, r: Response): (l': Local)
    requires !l.Ended?
    requires l.Cleaning? ==> l.stale != []
    ensures l'.Cleaning? ==> l'.stale != []
  {
    match l
    case Fetching => if r.CrIs? then Managing(r.cr) else Ended(EndingOf(r.NotFound?))
    case Managing(o) =>
      if !r.Done? then Ended(Erred)
      else if !o.deleting then SyncListing(o, o.status.With(Initialized, true, NoReason))
      else if FINALIZER !in o.finalizers then Ended(Fine)
      else Listing(o, o.status)
    case Listing(o, st) =>
      if r.HistoryIs? && r.releases != [] then Uninstalling(o, st)
      else if r.HistoryIs? || r.NotFound? then Marking(o, st.Without(ReleaseFailed))
      else Reporting(o, st.With(ReleaseFailed, true, UninstallError))
    case Uninstalling(o, st) =>
      if r.Done? then
        Marking(o, st.Without(ReleaseFailed).With(Deployed, false, UninstallSuccessful).(deployed := None))
      else if r.Partial? then Reporting(o, st.With(ReleaseFailed, true, UninstallError))
      else Ended(Panicked)
    case Marking(o, st) =>
      if r.Saved? then
        RemovingFinalizer(o.(version := r.version, status := st, finalizers := o.finalizers - {FINALIZER}))
      else Ended(Erred)
    case RemovingFinalizer(_) => if r.Saved? then AwaitingDeletion else Ended(Erred)
    case AwaitingDeletion => Ended(EndingOf(r.Done?))
    case SyncListing(o, st) =>
      if r.HistoryIs? then Clean(o, st, StaleVersions(r.releases))
      else if r.NotFound? then FindingDeployed(o, st)
      else Irreconcilably(o, st)
    case Cleaning(o, st, stale) =>
      if r.Done? || r.NotFound? then Clean(o, st, stale[1..]) else Irreconcilably(o, st)
    case FindingDeployed(o, st) =>
      if r.ReleaseIs? then Rendering(o, st, r.manifest)
      else if r.NotFound? then Installing(o, st.Without(Irreconcilable))
      else Irreconcilably(o, st)
    case Rendering(o, st, deployed) =>
      if !r.ReleaseIs? then Irreconcilably(o, st)
      else
        var plan := if deployed != r.manifest then DoUpgrade else DoRepair(deployed);
        var st' := st.Without(Irreconcilable);
        if FINALIZER in o.finalizers then Follow(o, st', plan) else AddingFinalizer(WithFinalizer(o), st', plan)
    case Installing(o, st) =>
      if r.ReleaseIs? then
        AddingFinalizer(WithFinalizer(o), st.Without(ReleaseFailed), AfterInstall(r.manifest))
      else if r.Partial? then UndoingInstall(o, st)
      else Reporting(o, st.With(ReleaseFailed, true, InstallError))
    case UndoingInstall(o, st) => Reporting(o, st.With(ReleaseFailed, true, InstallError))
    case AddingFinalizer(o, st, plan) =>
      if r.Saved? then Follow(o.(version := r.version), st, plan) else Ended(Erred)
    case Upgrading(o, st) =>
      if r.ReleaseIs? then Hooking(o, st.Without(ReleaseFailed), r.manifest, Updated)
      else if r.Partial? then UndoingUpgrade(o, st)
      else Reporting(o, st.With(ReleaseFailed, true, UpdateError))
    case UndoingUpgrade(o, st) => Reporting(o, st.With(ReleaseFailed, true, UpdateError))
    case Repairing(o, st, m) =>
      if r.Done? then Hooking(o, st.Without(Irreconcilable), m, Reconciled) else Irreconcilably(o, st)
    case Hooking(o, st, m, kind) =>
      if r.Done? then Finishing(o, Conclude(st, m, kind)) else Ended(Erred)
    case Finishing(_, _) => Ended(EndingOf(r.Saved?))
    case Reporting(_, _) => Ended(Erred)
  }

  datatype Run = Run(calls: seq<Request>, end: Local)

  predicate Sound(l: Local) {
    l.Cleaning? ==> l.stale != []
  }

  function After(calls: seq<Request>, l: Local, answers: seq<Response>): Run
    requires Sound(l)
    decreases |answers|
  {
    if l.Ended? then Run(calls, l)
    else if answers == [] then Run(calls + [Ask(l)], l)
    else After(calls + [Ask(l)], Resume(l, answers[0]), answers[1..])
  }

  /** The run stands at l; without l it was cut off in its last call. */
  predicate StandsAt(run: Run, calls: seq<Request>, answers: seq<Response>, l: Option<Local>) {
    if l.Some? then Sound(l.value) && After(calls, l.value, answers) == run
    else run.calls == calls && !run.end.Ended?
  }

  /** The result of a reconciliation; None if the operator stopped or panicked. */
  function Outcome(l: Local): Option<bool> {
    if l == Ended(Fine) then Some(true) else if l == Ended(Erred) then Some(false) else None
  }

  // ------------------------------------------- a run told by its calls and answers

  /** The answers that make a reconciliation fail. */
  predicate Fails(req: Request, resp: Response) {
    match req
    case GetCr => !resp.CrIs? && resp != NotFound
    case NewManager => resp != Done
    case History => !resp.HistoryIs? && resp != NotFound
    case DeleteRelease(_) => resp != Done && resp != NotFound
    case GetDeployed => !resp.ReleaseIs? && resp != NotFound
    case Render(_) => !resp.ReleaseIs?
    case Install(_) => !resp.ReleaseIs?
    case Upgrade(_) => !resp.ReleaseIs?
    case Uninstall => resp != Done
    case Rollback => resp != Done
    case Repair(_) => resp != Done
    case RunHook(_) => resp != Done
    case UpdateStatus(_, _) => !resp.Saved?
    case UpdateCr(_) => !resp.Saved?
    case AwaitGone => resp != Done
  }

  /** The versions to delete that the third answer, the history of a live resource, tells. */
  function ToDelete(answers: seq<Response>): seq<nat> {
    if |answers| > 2 && answers[2].HistoryIs? then StaleVersions(answers[2].releases) else []
  }

  /** What the first i answers make of the status. */
  function StatusAt(calls: seq<Request>, answers: seq<Response>, i: nat): Status
    requires i <= |calls| && i <= |answers| && answers != [] && answers[0].CrIs?
  {
    var cr := answers[0].cr;
    if i <= 1 then cr.status
    else
      var st, req, resp := StatusAt(calls, answers, i - 1), calls[i - 1], answers[i - 1];
      var irreconcilable := st.With(Irreconcilable, true, ReconcileError);
      match req
      case NewManager => if cr.deleting then st else st.With(Initialized, true, NoReason)
      case History =>
        if !cr.deleting then if Fails(req, resp) then irreconcilable else st
        else if Fails(req, resp) then st.With(ReleaseFailed, true, UninstallError)
        else if resp.HistoryIs? && resp.releases != [] then st
        else st.Without(ReleaseFailed)
      case Uninstall =>
        if !cr.deleting then st
        else if Fails(req, resp) then st.With(ReleaseFailed, true, UninstallError)
        else st.Without(ReleaseFailed).With(Deployed, false, UninstallSuccessful).(deployed := None)
      case DeleteRelease(_) => if Fails(req, resp) then irreconcilable else st
      case GetDeployed =>
        if Fails(req, resp) then irreconcilable
        else if resp == NotFound then st.Without(Irreconcilable) else st
      case Render(_) =>
        if Fails(req, resp) then irreconcilable
        else if answers[i - 2] == resp then st.Without(Irreconcilable).Without(ReleaseFailed)
        else st.Without(Irreconcilable)
      case Install(_) => if Fails(req, resp) then st.With(ReleaseFailed, true, InstallError) else st.Without(ReleaseFailed)
      case Upgrade(_) => if Fails(req, resp) then st.With(ReleaseFailed, true, UpdateError) else st.Without(ReleaseFailed)
      case Repair(_) => if Fails(req, resp) then irreconcilable else st.Without(Irreconcilable)
      case RunHook(m) =>
        if Fails(req, resp) then st
        else if calls[i - 2].UpdateCr? then st.With(Deployed, true, InstallSuccessful).(deployed := Some(m))
        else if calls[i - 2].Upgrade? then st.With(Deployed, true, UpdateSuccessful).(deployed := Some(m))
        else st.(deployed := Some(m))
      case _ => st
  }

  /** The operator's copy of the resource after i answers: as it was read, or as it was last stored. */
  function CopyAt(calls: seq<Request>, answers: seq<Response>, i: nat): Cr
    requires i <= |calls| && i <= |answers| && answers != [] && answers[0].CrIs?
  {
    if i <= 1 then answers[0].cr
    else if calls[i - 1].UpdateCr? && answers[i - 1].Saved? then calls[i - 1].o.(version := answers[i - 1].version)
    else CopyAt(calls, answers, i - 1)
  }

  /** The call that may come after i answers, the last of which was resp to req. */
  predicate Follows(calls: seq<Request>, answers: seq<Response>, i: nat, next: Request)
    requires 0 < i <= |calls| && i <= |answers| && answers[0].CrIs?
  {
    var cr, req, resp := answers[0].cr, calls[i - 1], answers[i - 1];
    var stale := ToDelete(answers);
    // The last answer of Render: the one before the update of the resource, if that came in between.
    var r := if req.UpdateCr? then i - 2 else i - 1;
    var synced := r > 0 && calls[r].Render? && answers[r].ReleaseIs? && (req.UpdateCr? || FINALIZER in cr.finalizers);
    match next
    case GetCr => false
    case NewManager => req == GetCr
    case History => req == NewManager
    case DeleteRelease(v) => !cr.deleting && 0 <= i - 3 < |stale| && v == stale[i - 3] && !Fails(req, resp)
    case GetDeployed => !cr.deleting && i == 3 + |stale| && !Fails(req, resp)
    case Render(m) => req == GetDeployed && resp.ReleaseIs? && m == cr.manifest
    case Install(m) => req == GetDeployed && resp == NotFound && m == cr.manifest
    case Uninstall =>
      if cr.deleting then req == History && resp.HistoryIs? && resp.releases != []
      else req.Install? && resp == Partial
    case Rollback => req.Upgrade? && resp == Partial
    case UpdateCr(o) =>
      if cr.deleting then
        req.UpdateStatus? && resp.Saved?
        && o == cr.(version := resp.version, status := req.status, finalizers := cr.finalizers - {FINALIZER})
      else
        resp.ReleaseIs? && (req.Install? || (req.Render? && FINALIZER !in cr.finalizers)) && o == WithFinalizer(cr)
    case AwaitGone => cr.deleting && req.UpdateCr?
    case Upgrade(m) => !cr.deleting && synced && answers[r] != answers[r - 1] && m == cr.manifest
    case Repair(m) => !cr.deleting && synced && answers[r] == answers[r - 1] == ReleaseIs(m)
    case RunHook(m) =>
      || (!cr.deleting && req.UpdateCr? && i > 1 && calls[i - 2].Install? && answers[i - 2] == ReleaseIs(m))
      || (req.Upgrade? && resp == ReleaseIs(m))
      || (req == Repair(m) && resp == Done)
    case UpdateStatus(o, st) =>
      && o == CopyAt(calls, answers, i) && st == StatusAt(calls, answers, i)
      && match req {
           case History => Fails(req, resp) || (cr.deleting && !(resp.HistoryIs? && resp.releases != []))
           case DeleteRelease(_) => Fails(req, resp)
           case GetDeployed => Fails(req, resp)
           case Render(_) => Fails(req, resp)
           case Install(_) => Fails(req, resp) && resp != Partial
           case Upgrade(_) => Fails(req, resp) && resp != Partial
           case Uninstall => true
           case Rollback => true
           case Repair(_) => Fails(req, resp)
           case RunHook(_) => !Fails(req, resp)
           case _ => false
         }
  }

  /** Whether the i-th answer is the last one that a reconciliation waits for. */
  predicate Closes(calls: seq<Request>, answers: seq<Response>, i: nat)
    requires i < |calls| && i < |answers|
  {
    var req, resp := calls[i], answers[i];
    match req
    case GetCr => !resp.CrIs?
    case NewManager =>
      Fails(req, resp) || (answers[0].CrIs? && answers[0].cr.deleting && FINALIZER !in answers[0].cr.finalizers)
    case Uninstall => answers[0].CrIs? && answers[0].cr.deleting && resp != Done && resp != Partial
    case UpdateStatus(_, _) =>
      Fails(req, resp) || !answers[0].CrIs? || !answers[0].cr.deleting || (i > 0 && Fails(calls[i - 1], answers[i - 1]))
    case UpdateCr(_) => Fails(req, resp)
    case AwaitGone => true
    case RunHook(_) => Fails(req, resp)
    case _ => false
  }

  predicate GoesOn(calls: seq<Request>, answers: seq<Response>, i: nat, next: Request)
    requires i < |calls| && i < |answers|
  {
    !Closes(calls, answers, i) && answers[0].CrIs? && Follows(calls, answers, i + 1, next)
  }

  predicate LeadsTo(calls: seq<Request>, answers: seq<Response>, i: nat)
    requires i + 1 < |calls| && i < |answers|
  {
    GoesOn(calls, answers, i, calls[i + 1])
  }

  predicate MeetsFailure(calls: seq<Request>, answers: seq<Response>) {
    exists i :: 0 <= i < |calls| && i < |answers| && Fails(calls[i], answers[i])
  }

  /**
   Every answer but the last leads to the next call. The last one closes the reconciliation,
   which has failed exactly if it met a failure, and panics over an uninstallation; or it
   never comes.
   */
  predicate Tells(calls: seq<Request>, answers: seq<Response>, ok: Option<bool>) {
    var last := |calls| - 1;
    && 0 <= last <= |answers|
    && calls[0] == GetCr
    && (forall i :: 0 <= i < last ==> LeadsTo(calls, answers, i))
    && (last < |answers| ==> Closes(calls, answers, last))
    && (ok.None? <==> last == |answers| || (calls[last] == Uninstall && last < |answers|))
    && (ok.Some? ==> (ok.value <==> !MeetsFailure(calls, answers)))
  }

  // What is known at a point of the automaton, and that every answer keeps it so.

  predicate Pictures(o: Cr, st: Status, calls: seq<Request>, answers: seq<Response>)
    requires |calls| <= |answers| && answers != [] && answers[0].CrIs?
  {
    o == CopyAt(calls, answers, |calls|) && st == StatusAt(calls, answers, |calls|)
  }

  /** What a live resource's plan for an update of it rests on. */
  predicate PlanIsRight(plan: Plan, st: Status, calls: seq<Request>, answers: seq<Response>)
    requires |calls| <= |answers| && answers != [] && answers[0].CrIs?
  {
    var n := |calls|;
    && n > 1 && answers[n - 1].ReleaseIs?
    && match plan
       case AfterInstall(m) =>
         calls[n - 1].Install? && answers[n - 1] == ReleaseIs(m) && st == StatusAt(calls, answers, n)
       case DoUpgrade =>
         calls[n - 1].Render? && answers[n - 2].ReleaseIs? && answers[n - 2] != answers[n - 1] && st == StatusAt(calls, answers, n)
       case DoRepair(m) =>
         calls[n - 1].Render? && answers[n - 2] == answers[n - 1] == ReleaseIs(m)
         && st.Without(ReleaseFailed) == StatusAt(calls, answers, n)
  }

  predicate Knows(l: Local, calls: seq<Request>, answers: seq<Response>)
    requires |calls| <= |answers| && answers != [] && answers[0].CrIs? && calls != []
  {
    var n, cr := |calls|, answers[0].cr;
    var req, resp := calls[n - 1], answers[n - 1];
    match l
    case Fetching => false
    case Managing(o) => n == 1 && o == cr
    case Listing(o, st) => n == 2 && cr.deleting && FINALIZER in cr.finalizers && o == cr && Pictures(o, st, calls, answers)
    case Uninstalling(o, st) => cr.deleting && o == cr && Pictures(o, st, calls, answers)
    case Marking(o, st) => cr.deleting && o == cr && Pictures(o, st, calls, answers)
    case RemovingFinalizer(_) => cr.deleting
    case AwaitingDeletion => cr.deleting
    case SyncListing(o, st) => n == 2 && !cr.deleting && o == cr && Pictures(o, st, calls, answers)
    case Cleaning(o, st, stale) =>
      && !cr.deleting && o == cr && Pictures(o, st, calls, answers)
      && 0 <= n - 3 < |ToDelete(answers)| && stale == ToDelete(answers)[n - 3..]
    case FindingDeployed(o, st) => !cr.deleting && o == cr && Pictures(o, st, calls, answers)
    case Rendering(o, st, deployed) =>
      !cr.deleting && o == cr && Pictures(o, st, calls, answers) && req == GetDeployed && resp == ReleaseIs(deployed)
    case Installing(o, st) => !cr.deleting && o == cr && Pictures(o, st, calls, answers)
    case UndoingInstall(o, st) => !cr.deleting && Pictures(o, st.With(ReleaseFailed, true, InstallError), calls, answers)
    case AddingFinalizer(o, st, plan) =>
      !cr.deleting && o == WithFinalizer(cr) && PlanIsRight(plan, st, calls, answers)
    case Upgrading(o, st) => !cr.deleting && o.manifest == cr.manifest && Pictures(o, st, calls, answers)
    case UndoingUpgrade(o, st) => !cr.deleting && Pictures(o, st.With(ReleaseFailed, true, UpdateError), calls, answers)
    case Repairing(o, st, m) => !cr.deleting && Pictures(o, st, calls, answers)
    case Hooking(o, st, m, kind) =>
      && !cr.deleting && Pictures(o, st, calls, answers)
      && match kind {
           case Installed => req.UpdateCr?
           case Updated => req.Upgrade?
           case Reconciled => req.Repair?
         }
    case Finishing(o, st) => !cr.deleting && Pictures(o, st, calls, answers)
    case Reporting(o, st) => Pictures(o, st, calls, answers)
    case Ended(_) => false
  }

  /** What is known before a call. */
  predicate IsInThePicture(l: Local, calls: seq<Request>, answers: seq<Response>)
    requires |calls| <= |answers|
  {
    && Sound(l) && !l.Ended? && calls != [] && calls[0] == GetCr
    && answers[0].CrIs? && Knows(l, calls, answers)
  }

  predicate IsFailing(l: Local) {
    l.Reporting? || l.UndoingInstall? || l.UndoingUpgrade?
  }

  predicate Remembers(l: Local, calls: seq<Request>, answers: seq<Response>)
    requires |calls| <= |answers|
  {
    var n := |calls|;
    && Sound(l) && !l.Ended?
    && (n == 0 <==> l == Fetching)
    && (n > 0 ==>
          && IsInThePicture(l, calls, answers)
          && GoesOn(calls, answers, n - 1, Ask(l))
          && (l.Marking? ==> !Fails(calls[n - 1], answers[n - 1]))
          && (l.Reporting? && answers[0].cr.deleting ==> Fails(calls[n - 1], answers[n - 1])))
    && (forall i :: 0 <= i < n - 1 ==> LeadsTo(calls, answers, i))
    && (IsFailing(l) <==> MeetsFailure(calls, answers))
  }

  lemma {:induction false} PicturesStand(calls: seq<Request>, answers: seq<Response>, next: Request, i: nat)
    requires i <= |calls| && i <= |answers| && answers != [] && answers[0].CrIs?
    ensures StatusAt(calls + [next], answers, i) == StatusAt(calls, answers, i)
    ensures CopyAt(calls + [next], answers, i) == CopyAt(calls, answers, i)
  {
    if i > 1 {
      PicturesStand(calls, answers, next, i - 1);
    }
  }

  lemma CallsStillLead(calls: seq<Request>, answers: seq<Response>, next: Request)
    requires |calls| <= |answers|
    requires calls != [] ==> GoesOn(calls, answers, |calls| - 1, next)
    requires forall i :: 0 <= i < |calls| - 1 ==> LeadsTo(calls, answers, i)
    ensures forall i :: 0 <= i < |calls| ==> LeadsTo(calls + [next], answers, i)
  {
    forall i | 0 <= i < |calls| ensures LeadsTo(calls + [next], answers, i) {
      assert i < |calls| - 1 ==> LeadsTo(calls, answers, i);
      PicturesStand(calls, answers, next, i + 1);
    }
  }

  lemma FailureIsMet(calls: seq<Request>, answers: seq<Response>, next: Request)
    requires |calls| < |answers|
    ensures MeetsFailure(calls + [next], answers) <==> MeetsFailure(calls, answers) || Fails(next, answers[|calls|])
  {
    var calls', n := calls + [next], |calls|;
    if Fails(next, answers[n]) {
      assert Fails(calls'[n], answers[n]);
    }
    if MeetsFailure(calls, answers) {
      var i :| 0 <= i < n && Fails(calls[i], answers[i]);
      assert Fails(calls'[i], answers[i]);
    }
    if MeetsFailure(calls', answers) {
      var i :| 0 <= i < |calls'| && i < |answers| && Fails(calls'[i], answers[i]);
      assert i < n ==> calls'[i] == calls[i];
    }
  }

  lemma FailingReports(l: Local, r: Response)
    requires Sound(l) && !l.Ended?
    ensures var l', failed := Resume(l, r), IsFailing(l) || Fails(Ask(l), r);
      && (!l'.Ended? ==> (IsFailing(l') <==> failed))
      && (l'.Ended? ==> Outcome(l') == if Ask(l) == Uninstall then None else Some(!failed))
  {
  }

  /** Where an answer closes the reconciliation, the automaton ends. */
  lemma ClosingEnds(l: Local, calls: seq<Request>, answers: seq<Response>)
    requires |calls| < |answers| && Remembers(l, calls, answers)
    ensures Closes(calls + [Ask(l)], answers, |calls|) <==> Resume(l, answers[|calls|]).Ended?
  {
  }

  /** And after its answer again. */
  predicate StaysInThePicture(l: Local, calls: seq<Request>, answers: seq<Response>)
    requires |calls| < |answers| && Sound(l) && !l.Ended?
  {
    var calls', l' := calls + [Ask(l)], Resume(l, answers[|calls|]);
    !l'.Ended? ==> IsInThePicture(l', calls', answers) && Follows(calls', answers, |calls'|, Ask(l'))
  }

  lemma LookingStaysInThePicture(l: Local, calls: seq<Request>, answers: seq<Response>)
    requires |calls| < |answers| && IsInThePicture(l, calls, answers)
    requires l.Managing? || l.SyncListing? || l.Cleaning?
    ensures StaysInThePicture(l, calls, answers)
  {
    PicturesStand(calls, answers, Ask(l), |calls|);
  }

  lemma DeletingStaysInThePicture(l: Local, calls: seq<Request>, answers: seq<Response>)
    requires |calls| < |answers| && IsInThePicture(l, calls, answers)
    requires l.Listing? || l.Uninstalling? || l.Marking? || l.RemovingFinalizer? || l.AwaitingDeletion?
    ensures StaysInThePicture(l, calls, answers)
  {
    PicturesStand(calls, answers, Ask(l), |calls|);
  }

  lemma FindingStaysInThePicture(l: Local, calls: seq<Request>, answers: seq<Response>)
    requires |calls| < |answers| && IsInThePicture(l, calls, answers)
    requires l.FindingDeployed?
    ensures StaysInThePicture(l, calls, answers)
  {
    PicturesStand(calls, answers, Ask(l), |calls|);
  }

  lemma RenderingStaysInThePicture(l: Local, calls: seq<Request>, answers: seq<Response>)
    requires |calls| < |answers| && IsInThePicture(l, calls, answers)
    requires l.Rendering?
    ensures StaysInThePicture(l, calls, answers)
  {
    PicturesStand(calls, answers, Ask(l), |calls|);
  }

  lemma InstallingStaysInThePicture(l: Local, calls: seq<Request>, answers: seq<Response>)
    requires |calls| < |answers| && IsInThePicture(l, calls, answers)
    requires l.Installing?
    ensures StaysInThePicture(l, calls, answers)
  {
    PicturesStand(calls, answers, Ask(l), |calls|);
  }

  lemma AddingStaysInThePicture(l: Local, calls: seq<Request>, answers: seq<Response>)
    requires |calls| < |answers| && IsInThePicture(l, calls, answers)
    requires l.AddingFinalizer?
    ensures StaysInThePicture(l, calls, answers)
  {
    PicturesStand(calls, answers, Ask(l), |calls|);
  }

  lemma UpgradingStaysInThePicture(l: Local, calls: seq<Request>, answers: seq<Response>)
    requires |calls| < |answers| && IsInThePicture(l, calls, answers)
    requires l.Upgrading?
    ensures StaysInThePicture(l, calls, answers)
  {
    PicturesStand(calls, answers, Ask(l), |calls|);
  }

  lemma UndoingStaysInThePicture(l: Local, calls: seq<Request>, answers: seq<Response>)
    requires |calls| < |answers| && IsInThePicture(l, calls, answers)
    requires l.UndoingInstall? || l.UndoingUpgrade?
    ensures StaysInThePicture(l, calls, answers)
  {
    PicturesStand(calls, answers, Ask(l), |calls|);
  }

  lemma RepairingStaysInThePicture(l: Local, calls: seq<Request>, answers: seq<Response>)
    requires |calls| < |answers| && IsInThePicture(l, calls, answers)
    requires l.Repairing?
    ensures StaysInThePicture(l, calls, answers)
  {
    PicturesStand(calls, answers, Ask(l), |calls|);
  }

  lemma EndingStaysInThePicture(l: Local, calls: seq<Request>, answers: seq<Response>)
    requires |calls| < |answers| && IsInThePicture(l, calls, answers)
    requires l.Hooking? || l.Finishing? || l.Reporting?
    ensures StaysInThePicture(l, calls, answers)
  {
    PicturesStand(calls, answers, Ask(l), |calls|);
  }

  lemma AllStayInThePicture(l: Local, calls: seq<Request>, answers: seq<Response>)
    requires |calls| < |answers| && Remembers(l, calls, answers)
    ensures StaysInThePicture(l, calls, answers)
  {
    match l {
      case Fetching =>
      case Managing(_) => LookingStaysInThePicture(l, calls, answers);
      case SyncListing(_, _) => LookingStaysInThePicture(l, calls, answers);
      case Cleaning(_, _, _) => LookingStaysInThePicture(l, calls, answers);
      case FindingDeployed(_, _) => FindingStaysInThePicture(l, calls, answers);
      case Rendering(_, _, _) => RenderingStaysInThePicture(l, calls, answers);
      case Installing(_, _) => InstallingStaysInThePicture(l, calls, answers);
      case UndoingInstall(_, _) => UndoingStaysInThePicture(l, calls, answers);
      case AddingFinalizer(_, _, _) => AddingStaysInThePicture(l, calls, answers);
      case Upgrading(_, _) => UpgradingStaysInThePicture(l, calls, answers);
      case UndoingUpgrade(_, _) => UndoingStaysInThePicture(l, calls, answers);
      case Repairing(_, _, _) => RepairingStaysInThePicture(l, calls, answers);
      case Hooking(_, _, _, _) => EndingStaysInThePicture(l, calls, answers);
      case Finishing(_, _) => EndingStaysInThePicture(l, calls, answers);
      case Reporting(_, _) => EndingStaysInThePicture(l, calls, answers);
      case _ => DeletingStaysInThePicture(l, calls, answers);
    }
  }

  lemma StillRemembers(l: Local, calls: seq<Request>, answers: seq<Response>)
    requires |calls| < |answers| && Remembers(l, calls, answers)
    ensures var calls', l' := calls + [Ask(l)], Resume(l, answers[|calls|]);
      if l'.Ended? then Tells(calls', answers, Outcome(l')) else Remembers(l', calls', answers)
  {
    CallsStillLead(calls, answers, Ask(l));
    ClosingEnds(l, calls, answers);
    FailingReports(l, answers[|calls|]);
    FailureIsMet(calls, answers, Ask(l));
    AllStayInThePicture(l, calls, answers);
  }

  lemma {:induction false} RestIsTold(l: Local, calls: seq<Request>, answers: seq<Response>)
    requires |calls| <= |answers| && Remembers(l, calls, answers)
    ensures var run := After(calls, l, answers[|calls|..]); Tells(run.calls, answers, Outcome(run.end))
    decreases |answers| - |calls|
  {
    var rest := answers[|calls|..];
    if rest == [] {
      CallsStillLead(calls, answers, Ask(l));
    } else {
      StillRemembers(l, calls, answers);
      assert rest[1..] == answers[|calls| + 1..];
      if !Resume(l, rest[0]).Ended? {
        RestIsTold(Resume(l, rest[0]), calls + [Ask(l)], answers);
      }
    }
  }

  lemma {:induction false} CallsAreAppended(before: seq<Request>, calls: seq<Request>, l: Local, answers: seq<Response>)
    requires Sound(l)
    ensures var run := After(calls, l, answers); After(before + calls, l, answers) == Run(before + run.calls, run.end)
    decreases |answers|
  {
    if !l.Ended? {
      assert before + (calls + [Ask(l)]) == before + calls + [Ask(l)];
      if answers != [] {
        CallsAreAppended(before, calls + [Ask(l)], Resume(l, answers[0]), answers[1..]);
      }
    }
  }

  /** Every run of Reconcile, whatever was called before it. */
  lemma EveryRunIsTold(before: seq<Request>, answers: seq<Response>)
    ensures var run := After(before, Fetching, answers);
      before <= run.calls && Tells(run.calls[|before|..], answers, Outcome(run.end))
  {
    CallsAreAppended(before, [], Fetching, answers);
    RestIsTold(Fetching, [], answers);
    var run := After([], Fetching, answers);
    assert before + [] == before && answers[0..] == answers;
    assert (before + run.calls)[|before|..] == run.calls;
  }

  /** Right after a partial installation comes Uninstall, and after a partial upgrade Rollback. */
  predicate IsUndone(calls: seq<Request>, answers: seq<Response>, i: nat)
    requires i < |calls| && i < |answers|
  {
    answers[i] == Partial ==>
      && (calls[i].Install? ==> i + 1 < |calls| && calls[i + 1] == Uninstall)
      && (calls[i].Upgrade? ==> i + 1 < |calls| && calls[i + 1] == Rollback)
  }

  lemma PartialWorkIsUndone(calls: seq<Request>, answers: seq<Response>, ok: Option<bool>, i: nat)
    requires Tells(calls, answers, ok) && i < |calls| && i < |answers|
    ensures IsUndone(calls, answers, i)
  {
    if answers[i] == Partial && i > 0 {
      assert LeadsTo(calls, answers, i - 1);
      assert i + 1 < |calls| ==> LeadsTo(calls, answers, i);
      if i > 1 {
        assert LeadsTo(calls, answers, i - 2);
      }
    }
  }

  lemma AllPartialWorkIsUndone(calls: seq<Request>, answers: seq<Response>, ok: Option<bool>)
    requires Tells(calls, answers, ok)
    ensures forall i :: 0 <= i < |calls| && i < |answers| ==> IsUndone(calls, answers, i)
  {
    forall i | 0 <= i < |calls| && i < |answers| ensures IsUndone(calls, answers, i) {
      PartialWorkIsUndone(calls, answers, ok, i);
    }
  }

  // ------------------------------------------------------------ the source's form

  /** The end of the deletion branch: record it, drop the finalizer, wait. */
  method DropFinalizer(api: Client<Request, Response>, o: Cr, st: Status) returns (l: Option<Local>)
    modifies api
    ensures l.Some? ==> l.value.Ended?
    ensures StandsAt(old(After(api.calls, Marking(o, st), api.answers)), api.calls, api.answers, l)
  {
    ghost var run := After(api.calls, Marking(o, st), api.answers);
    var saved := api.Call(UpdateStatus(o, st));
    if saved.None? { return None; }
    if !saved.value.Saved? { return Some(Ended(Erred)); }
    var o' := o.(version := saved.value.version, status := st, finalizers := o.finalizers - {FINALIZER});
    assert After(api.calls, RemovingFinalizer(o'), api.answers) == run;
    var removed := api.Call(UpdateCr(o'));
    if removed.None? { return None; }
    if !removed.value.Saved? { return Some(Ended(Erred)); }
    assert After(api.calls, AwaitingDeletion, api.answers) == run;
    var gone := api.Call(AwaitGone);
    if gone.None? { return None; }
    return Some(Ended(EndingOf(gone.value.Done?)));
  }

  /** The deletion branch, from the look at the history. */
  method Terminate(api: Client<Request, Response>, o: Cr) returns (l: Option<Local>)
    requires o.deleting && FINALIZER in o.finalizers
    modifies api
    ensures l.Some? ==> l.value.Ended? || l.value.Reporting?
    ensures StandsAt(old(After(api.calls, Listing(o, o.status), api.answers)), api.calls, api.answers, l)
  {
    ghost var run := After(api.calls, Listing(o, o.status), api.answers);
    var st := o.status;
    var h := api.Call(History);
    if h.None? { return None; }
    assert After(api.calls, Resume(Listing(o, st), h.value), api.answers) == run;
    var failed := Reporting(o, st.With(ReleaseFailed, true, UninstallError));
    if !h.value.HistoryIs? && !h.value.NotFound? { return Some(failed); }
    if h.value.HistoryIs? && h.value.releases != [] {
      var u := api.Call(Uninstall);
      if u.None? { return None; }
      if u.value.Partial? { return Some(failed); }
      // The release of the response is read before the error is looked at.
      if !u.value.Done? { return Some(Ended(Panicked)); }
      st := st.Without(ReleaseFailed);
      st := st.With(Deployed, false, UninstallSuccessful).(deployed := None);
    } else {
      st := st.Without(ReleaseFailed);
    }
    assert After(api.calls, Marking(o, st), api.answers) == run;
    l := DropFinalizer(api, o, st);
  }

  /** Sync's clean-up loop, up to the look-up of the deployed release. */
  method CleanUp(api: Client<Request, Response>, o: Cr, st: Status) returns (l: Option<Local>)
    modifies api
    ensures l.Some? ==> l.value.Reporting? || l.value == FindingDeployed(o, st)
    ensures StandsAt(old(After(api.calls, SyncListing(o, st), api.answers)), api.calls, api.answers, l)
  {
    ghost var run := After(api.calls, SyncListing(o, st), api.answers);
    var h := api.Call(History);
    if h.None? { return None; }
    assert After(api.calls, Resume(SyncListing(o, st), h.value), api.answers) == run;
    if h.value.NotFound? { return Some(FindingDeployed(o, st)); }
    if !h.value.HistoryIs? { return Some(Irreconcilably(o, st)); }
    var releases := h.value.releases;
    for i := 0 to |releases|
      invariant After(api.calls, Clean(o, st, StaleVersions(releases[i..])), api.answers) == run
    {
      assert releases[i..][1..] == releases[i + 1..];
      if releases[i].status.Some? && releases[i].status != Some(IsDeployed) {
        ghost var stale := StaleVersions(releases[i..]);
        assert stale[1..] == StaleVersions(releases[i + 1..]);
        var deleted := api.Call(DeleteRelease(releases[i].version));
        if deleted.None? { return None; }
        assert After(api.calls, Resume(Cleaning(o, st, stale), deleted.value), api.answers) == run;
        if !deleted.value.Done? && !deleted.value.NotFound? { return Some(Irreconcilably(o, st)); }
      }
    }
    return Some(FindingDeployed(o, st));
  }

  /** The rest of Sync: is the release installed, and is an update required? */
  method FindPlan(api: Client<Request, Response>, o: Cr, st: Status) returns (l: Option<Local>)
    modifies api
    ensures l.Some? ==>
      l.value.Reporting? || l.value.Installing? || l.value.AddingFinalizer? ||
      l.value.Upgrading? || l.value.Repairing?
    ensures l.Some? && l.value.AddingFinalizer? ==> !l.value.plan.AfterInstall?
    ensures StandsAt(old(After(api.calls, FindingDeployed(o, st), api.answers)), api.calls, api.answers, l)
  {
    ghost var run := After(api.calls, FindingDeployed(o, st), api.answers);
    var d := api.Call(GetDeployed);
    if d.None? { return None; }
    assert After(api.calls, Resume(FindingDeployed(o, st), d.value), api.answers) == run;
    if d.value.NotFound? { return Some(Installing(o, st.Without(Irreconcilable))); }
    if !d.value.ReleaseIs? { return Some(Irreconcilably(o, st)); }
    var deployed := d.value.manifest;
    var c := api.Call(Render(o.manifest));
    if c.None? { return None; }
    if !c.value.ReleaseIs? { return Some(Irreconcilably(o, st)); }
    var plan := if deployed != c.value.manifest then DoUpgrade else DoRepair(deployed);
    var st' := st.Without(Irreconcilable);
    if FINALIZER !in o.finalizers { return Some(AddingFinalizer(WithFinalizer(o), st', plan)); }
    return Some(Follow(o, st', plan));
  }

  /** InstallRelease: a partial installation is uninstalled again, whatever comes of that. */
  method InstallRelease(api: Client<Request, Response>, o: Cr, st: Status) returns (l: Option<Local>)
    modifies api
    ensures l.Some? ==> l.value.Reporting? || (l.value.AddingFinalizer? && l.value.plan.AfterInstall?)
    ensures var partial := old(api.answers) != [] && old(api.answers)[0] == Partial;
      && api.calls == old(api.calls) + [Install(o.manifest)] + (if partial then [Uninstall] else [])
      && (l.None? <==> |old(api.answers)| < if partial then 2 else 1)
    ensures l.Some? ==> (l.value.Reporting? <==> Fails(Install(o.manifest), old(api.answers)[0]))
    ensures StandsAt(old(After(api.calls, Installing(o, st), api.answers)), api.calls, api.answers, l)
  {
    ghost var run := After(api.calls, Installing(o, st), api.answers);
    var r := api.Call(Install(o.manifest));
    if r.None? { return None; }
    assert After(api.calls, Resume(Installing(o, st), r.value), api.answers) == run;
    if r.value.ReleaseIs? {
      return Some(AddingFinalizer(WithFinalizer(o), st.Without(ReleaseFailed), AfterInstall(r.value.manifest)));
    }
    if r.value.Partial? {
      var undone := api.Call(Uninstall);
      if undone.None? { return None; }
    }
    return Some(Reporting(o, st.With(ReleaseFailed, true, InstallError)));
  }

  /** UpdateRelease: a partial upgrade is rolled back, whatever comes of that. */
  method UpdateRelease(api: Client<Request, Response>, o: Cr, st: Status) returns (l: Option<Local>)
    modifies api
    ensures l.Some? ==> l.value.Reporting? || l.value.Hooking?
    ensures var partial := old(api.answers) != [] && old(api.answers)[0] == Partial;
      && api.calls == old(api.calls) + [Upgrade(o.manifest)] + (if partial then [Rollback] else [])
      && (l.None? <==> |old(api.answers)| < if partial then 2 else 1)
    ensures l.Some? ==> (l.value.Reporting? <==> Fails(Upgrade(o.manifest), old(api.answers)[0]))
    ensures StandsAt(old(After(api.calls, Upgrading(o, st), api.answers)), api.calls, api.answers, l)
  {
    ghost var run := After(api.calls, Upgrading(o, st), api.answers);
    var r := api.Call(Upgrade(o.manifest));
    if r.None? { return None; }
    assert After(api.calls, Resume(Upgrading(o, st), r.value), api.answers) == run;
    if r.value.ReleaseIs? { return Some(Hooking(o, st.Without(ReleaseFailed), r.value.manifest, Updated)); }
    if r.value.Partial? {
      var undone := api.Call(Rollback);
      if undone.None? { return None; }
    }
    return Some(Reporting(o, st.With(ReleaseFailed, true, UpdateError)));
  }

  /** From an installed release with its finalizer in place to the release hook. */
  method BringUpToDate(api: Client<Request, Response>, l: Local) returns (l': Option<Local>)
    requires l.Upgrading? || l.Repairing? || l.Hooking?
    modifies api
    ensures l'.Some? ==> l'.value.Reporting? || l'.value.Hooking?
    ensures StandsAt(old(After(api.calls, l, api.answers)), api.calls, api.answers, l')
  {
    if l.Hooking? { return Some(l); }
    if l.Upgrading? {
      l' := UpdateRelease(api, l.o, l.st);
      return l';
    }
    ghost var run := After(api.calls, l, api.answers);
    var r := api.Call(Repair(l.manifest));
    if r.None? { return None; }
    assert After(api.calls, Resume(l, r.value), api.answers) == run;
    if !r.value.Done? { return Some(Irreconcilably(l.o, l.st)); }
    return Some(Hooking(l.o, l.st.Without(Irreconcilable), l.manifest, Reconciled));
  }

  /** Hook and final status, or the best-effort report of an error. */
  method Finish(api: Client<Request, Response>, l: Local) returns (ok: Option<bool>)
    requires l.Hooking? || l.Reporting?
    modifies api
    ensures var run := old(After(api.calls, l, api.answers));
      api.calls == run.calls && ok == Outcome(run.end)
  {
    ghost var run := After(api.calls, l, api.answers);
    if l.Reporting? {
      var reported := api.Call(UpdateStatus(l.o, l.st));
      if reported.None? { return None; }
      return Some(false);
    }
    var hooked := api.Call(RunHook(l.manifest));
    if hooked.None? { return None; }
    assert After(api.calls, Resume(l, hooked.value), api.answers) == run;
    if !hooked.value.Done? { return Some(false); }
    var saved := api.Call(UpdateStatus(l.o, Conclude(l.st, l.manifest, l.kind)));
    if saved.None? { return None; }
    assert After(api.calls, Ended(EndingOf(saved.value.Saved?)), api.answers) == run;
    return Some(saved.value.Saved?);
  }

  /** The branch for a live resource. */
  method Maintain(api: Client<Request, Response>, o: Cr) returns (ok: Option<bool>)
    modifies api
    ensures var st := o.status.With(Initialized, true, NoReason);
      var run := old(After(api.calls, SyncListing(o, st), api.answers));
      api.calls == run.calls && ok == Outcome(run.end)
  {
    var st := o.status.With(Initialized, true, NoReason);
    ghost var run := After(api.calls, SyncListing(o, st), api.answers);
    var l := CleanUp(api, o, st);
    if l.None? { return None; }
    if l.value.FindingDeployed? {
      l := FindPlan(api, o, st);
      if l.None? { return None; }
    }
    if l.value.Installing? {
      l := InstallRelease(api, l.value.o, l.value.st);
      if l.None? { return None; }
    }
    if l.value.AddingFinalizer? {
      var saved := api.Call(UpdateCr(l.value.o));
      if saved.None? { return None; }
      assert After(api.calls, Resume(l.value, saved.value), api.answers) == run;
      if !saved.value.Saved? { return Some(false); }
      l := Some(Follow(l.value.o.(version := saved.value.version), l.value.st, l.value.plan));
    }
    if !l.value.Reporting? {
      l := BringUpToDate(api, l.value);
      if l.None? { return None; }
    }
    ok := Finish(api, l.value);
  }

  /** Reconcile; None stands for an operator that stopped during a call or panicked after it. */
  method Reconcile(api: Client<Request, Response>) returns (ok: Option<bool>)
    modifies api
    ensures var run := old(After(api.calls, Fetching, api.answers));
      api.calls == run.calls && ok == Outcome(run.end)
    ensures old(api.calls) <= api.calls
    ensures var calls, answers := api.calls[|old(api.calls)|..], old(api.answers);
      && Tells(calls, answers, ok)
      && (forall i :: 0 <= i < |calls| && i < |answers| ==> IsUndone(calls, answers, i))
  {
    ghost var run := After(api.calls, Fetching, api.answers);
    EveryRunIsTold(api.calls, api.answers);
    AllPartialWorkIsUndone(run.calls[|api.calls|..], api.answers, Outcome(run.end));
    ok := Attend(api);
  }

  method Attend(api: Client<Request, Response>) returns (ok: Option<bool>)
    modifies api
    ensures var run := old(After(api.calls, Fetching, api.answers));
      api.calls == run.calls && ok == Outcome(run.end)
  {
    ghost var run := After(api.calls, Fetching, api.answers);
    var r := api.Call(GetCr);
    if r.None? { return None; }
    if !r.value.CrIs? { return Some(r.value.NotFound?); }
    var o := r.value.cr;
    assert After(api.calls, Managing(o), api.answers) == run;
    var m := api.Call(NewManager);
    if m.None? { return None; }
    assert After(api.calls, Resume(Managing(o), m.value), api.answers) == run;
    if !m.value.Done? { return Some(false); }
    if !o.deleting {
      ok := Maintain(api, o);
      return ok;
    }
    if FINALIZER !in o.finalizers { return Some(true); }
    var l := Terminate(api, o);
    if l.None? { return None; }
    if l.value.Ended? { return Outcome(l.value); }
    ok := Finish(api, l.value);
  }
}
