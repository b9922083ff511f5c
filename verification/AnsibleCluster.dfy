/**
 An Ansible custom resource over its whole life: users create, annotate and delete it,
 also again under the same name, other controllers add and remove finalizers of their
 own, and the operator reconciles it with stale cached reads, conflicts, lost requests
 and replies, failing playbooks and crashes.

 Nobody but the operator removes its finalizer or writes the status, one reconciliation
 runs at a time, and an update with an old version is refused.
 */
module AnsibleCluster {
  import opened Wrappers
  import opened AnsibleStatus
  import opened AnsibleReconcile

  /** A run of a playbook on a copy of the resource. */
  datatype PlaybookRun = PlaybookRun(o: Cr, finalizerRun: bool, outcome: Outcome)
  {
    predicate IsClean() {
      outcome == Finished([])
    }
  }

  /**
   seen holds every version ever stored: a cached read may return any of them. The rest
   is history: the uid that the cached read of this reconciliation returned, the latest
   run of a playbook, the incarnations ever marked for deletion, those on which a
   finalizer run succeeded, and whether the present one ever had the finalizer.
   */
  datatype System = System(
    cr: Option<Cr>,
    seen: map<nat, Cr>,
    nextVersion: nat,
    nextUid: nat,
    at: Local,
    origin: nat,
    last: Option<PlaybookRun>,
    doomed: set<nat>,
    cleaned: set<nat>,
    carried: bool)

  datatype Fault = Reliable | StaleRead(version: nat) | RequestLost | ReplyLost

  datatype Step =
    | Create(finalizers: seq<string>, periodOk: bool)
    | Annotate(periodOk: bool)
    | Delete
    | AddFinalizer(name: string)
    | DropFinalizer(name: string)
    | Start
    | Crash
    | Act(fault: Fault, events: seq<Event>)

  // ----------------------------------------------------------- the API server

  /** The resource is stored under a new version, or goes if it is being deleted and nothing holds it. */
  function Save(c: Config, s: System, cr: Cr): System {
    var cr' := cr.(version := s.nextVersion);
    s.(cr := if cr.deleting && cr.finalizers == [] then None else Some(cr'),
       seen := s.seen[s.nextVersion := cr'],
       nextVersion := s.nextVersion + 1,
       doomed := if cr.deleting then s.doomed + {cr.uid} else s.doomed,
       carried := s.carried || FinalizerName(c) in cr.finalizers)
  }

  predicate IsCurrent(s: System, o: Cr) {
    s.cr.Some? && s.cr.value.version == o.version
  }

  datatype Served = Served(response: Response, after: System)

  /** The status is a subresource: one update writes nothing but the status, the other everything but the status. */
  function Serve(c: Config, s: System, req: Request, fault: Fault, events: seq<Event>): Served {
    match req
    case GetCached =>
      if fault.StaleRead? && fault.version in s.seen then
        Served(CrIs(s.seen[fault.version], s.nextVersion), s.(origin := s.seen[fault.version].uid))
      else if s.cr.Some? then Served(CrIs(s.cr.value, s.nextVersion), s.(origin := s.cr.value.uid))
      else Served(NotFound, s)
    case GetLive => Served(if s.cr.Some? then CrIs(s.cr.value, s.nextVersion) else NotFound, s)
    case UpdateCr(o) =>
      if !IsCurrent(s, o) then Served(Failure, s)
      else Served(Saved(s.nextVersion), Save(c, s, s.cr.value.(finalizers := o.finalizers)))
    case UpdateStatus(o) =>
      if !IsCurrent(s, o) then Served(Failure, s)
      else Served(Saved(s.nextVersion), Save(c, s, s.cr.value.(conditions := o.conditions)))
    case CreateKubeconfig => Served(Done, s)
    case Play(o, finalizerRun) =>
      var run := PlaybookRun(o, finalizerRun, Digest(events));
      Served(Played(events),
             s.(last := Some(run), cleaned := if finalizerRun && run.IsClean() then s.cleaned + {o.uid} else s.cleaned))
    case ReadStdout => Served(Done, s)
  }

  // ------------------------------------------------------------------- steps

  predicate Enabled(c: Config, s: System, step: Step) {
    match step
    case Create(_, _) => s.cr.None?
    case Annotate(_) => s.cr.Some?
    case Delete => s.cr.Some?
    case AddFinalizer(f) => s.cr.Some? && !s.cr.value.deleting && f != FinalizerName(c)
    case DropFinalizer(f) => s.cr.Some? && f != FinalizerName(c)
    case Start => s.at.Ended?
    case Crash => true
    case Act(_, _) => !s.at.Ended?
  }

  function Answer(c: Config, s: System, fault: Fault, events: seq<Event>): Response
    requires !s.at.Ended?
  {
    if fault.RequestLost? || fault.ReplyLost? then Failure
    else Serve(c, s, Ask(c, s.at), fault, events).response
  }

  function Next(c: Config, s: System, step: Step): System
    requires Enabled(c, s, step)
  {
    match step
    case Create(fs, ok) =>
      Save(c, s.(nextUid := s.nextUid + 1, carried := false), Cr(s.nextUid, 0, false, fs, ok, []))
    case Annotate(ok) => Save(c, s, s.cr.value.(periodOk := ok))
    case Delete => Save(c, s, s.cr.value.(deleting := true))
    case AddFinalizer(f) => Save(c, s, s.cr.value.(finalizers := s.cr.value.finalizers + [f]))
    case DropFinalizer(f) => Save(c, s, s.cr.value.(finalizers := Filtered(s.cr.value.finalizers, f)))
    case Start => s.(at := Fetching)
    case Crash => s.(at := Ended(false))
    case Act(fault, events) =>
      var s' := if fault.RequestLost? then s else Serve(c, s, Ask(c, s.at), fault, events).after;
      s'.(at := Resume(c, s.at, Answer(c, s, fault, events)))
  }

  predicate IsRun(c: Config, s: System, steps: seq<Step>)
    decreases |steps|
  {
    steps == [] || (Enabled(c, s, steps[0]) && IsRun(c, Next(c, s, steps[0]), steps[1..]))
  }

  function Final(c: Config, s: System, steps: seq<Step>): System
    requires IsRun(c, s, steps)
    decreases |steps|
  {
    if steps == [] then s else Final(c, Next(c, s, steps[0]), steps[1..])
  }

  predicate Initial(s: System) {
    s.cr == None && s.seen == map[] && s.at.Ended? && s.last == None && s.doomed == {} && s.cleaned == {}
  }

  // -------------------------------------------------------------- invariant

  predicate IsSane(cs: seq<Condition>) {
    Unique(cs) && !Contradicts(cs)
  }

  predicate StoredIsRight(s: System) {
    && (forall v :: v in s.seen ==>
          && v < s.nextVersion && s.seen[v].version == v && s.seen[v].uid < s.nextUid
          && (s.seen[v].deleting ==> s.seen[v].uid in s.doomed) && IsSane(s.seen[v].conditions))
    && (forall u :: u in s.doomed ==> u < s.nextUid)
    && (s.cr.Some? ==>
          && s.cr.value.version in s.seen && s.seen[s.cr.value.version] == s.cr.value
          && s.cr.value.uid == s.nextUid - 1 && (s.cr.value.uid in s.doomed ==> s.cr.value.deleting))
  }

  /** The copy that is handed to the runner, against the first copy. */
  predicate IsToRun(c: Config, s: System, o: Cr, deleted: bool) {
    && s.origin <= o.uid < s.nextUid && (deleted && o.uid == s.origin ==> o.deleting)
    && (!c.manageStatus && deleted ==> o.uid == s.origin && o.deleting)
  }

  /** The latest run was made on such a copy, as the runner decides. */
  predicate RunIsRight(c: Config, s: System, deleted: bool) {
    && s.last.Some? && IsToRun(c, s, s.last.value.o, deleted)
    && (s.last.value.finalizerRun <==> s.last.value.o.deleting)
    && (s.last.value.finalizerRun && s.last.value.IsClean() ==> s.last.value.o.uid in s.cleaned)
  }

  predicate LocalIsRight(c: Config, s: System, l: Local) {
    match l
    case Fetching => true
    case AddingFinalizer(o) => s.origin == o.uid < s.nextUid && !o.deleting && FinalizerName(c) in o.finalizers
    case ReadingToRun(deleted) => s.origin < s.nextUid && c.manageStatus && (deleted ==> s.origin in s.doomed)
    case MarkingRunning(o, deleted) => IsToRun(c, s, o, deleted) && IsSane(o.conditions)
    case Configuring(o, deleted) => IsToRun(c, s, o, deleted)
    case Playing(o, deleted) => IsToRun(c, s, o, deleted) && (IsFinalizerRun(c, o) <==> o.deleting)
    case FetchingStdout => true
    case Rereading(deleted, failures) => RunIsRight(c, s, deleted) && (failures == [] ==> s.last.value.IsClean())
    case RemovingFinalizer(o) =>
      && RunIsRight(c, s, true) && s.last.value.IsClean()
      && o.version in s.seen && s.seen[o.version].uid == o.uid >= s.last.value.o.uid
    case ReadingWhenDone(_) => true
    case MarkingDone(o, _) => IsSane(o.conditions)
    case ReadingToFail(_) => true
    case MarkingFailed(o) => IsSane(o.conditions)
    case Ended(_) => true
  }

  predicate Inv(c: Config, s: System) {
    StoredIsRight(s) && LocalIsRight(c, s, s.at)
  }

  lemma SaveKeepsStored(c: Config, s: System, cr: Cr)
    requires StoredIsRight(s) && s.cr.Some? && cr.uid == s.cr.value.uid && IsSane(cr.conditions)
    requires s.cr.value.deleting ==> cr.deleting
    ensures StoredIsRight(Save(c, s, cr))
  {
  }

  /** s' is s after steps of others. */
  predicate OthersMoved(s: System, s': System) {
    && s'.origin == s.origin && s'.last == s.last && s.nextUid <= s'.nextUid
    && s.doomed <= s'.doomed && s.cleaned <= s'.cleaned
    && (forall v :: v in s.seen ==> v in s'.seen && s'.seen[v] == s.seen[v])
  }

  lemma LocalStaysRight(c: Config, s: System, s': System, l: Local)
    requires LocalIsRight(c, s, l) && OthersMoved(s, s')
    ensures LocalIsRight(c, s', l)
  {
  }

  lemma ServeKeepsStored(c: Config, s: System, fault: Fault, events: seq<Event>)
    requires Inv(c, s) && !s.at.Ended?
    ensures StoredIsRight(Serve(c, s, Ask(c, s.at), fault, events).after)
  {
    match Ask(c, s.at) {
      case UpdateCr(o) =>
        if IsCurrent(s, o) {
          SaveKeepsStored(c, s, s.cr.value.(finalizers := o.finalizers));
        }
      case UpdateStatus(o) =>
        if IsCurrent(s, o) {
          SaveKeepsStored(c, s, s.cr.value.(conditions := o.conditions));
        }
      case _ =>
    }
  }

  /** What was served to a reconciliation at l, as far as its next point depends on it. */
  predicate IsServed(s: System, s': System, l: Local, r: Response) {
    && (r.CrIs? ==> r.cr.version in s'.seen && s'.seen[r.cr.version] == r.cr && r.cr.uid < s'.nextUid
                    && IsSane(r.cr.conditions))
    && (r.CrIs? && l.Fetching? ==> s'.origin == r.cr.uid && (r.cr.deleting ==> r.cr.uid in s'.doomed))
    && (r.CrIs? && !l.Fetching? ==> r.cr.uid == s'.nextUid - 1 && (r.cr.uid in s'.doomed ==> r.cr.deleting))
    && (r.Played? ==> l.Playing?)
    && (!l.Fetching? ==> s'.origin == s.origin)
    && (!l.Playing? ==> s'.last == s.last && s'.cleaned == s.cleaned)
    && s.nextUid == s'.nextUid && s.doomed <= s'.doomed
    && (forall v :: v in s.seen ==> v in s'.seen && s'.seen[v] == s.seen[v])
  }

  lemma ServeServes(c: Config, s: System, fault: Fault, events: seq<Event>)
    requires Inv(c, s) && !s.at.Ended?
    ensures var served := Serve(c, s, Ask(c, s.at), fault, events);
      IsServed(s, served.after, s.at, served.response)
  {
  }

  lemma DecideIsRight(c: Config, s: System, o: Cr)
    requires s.origin == o.uid < s.nextUid && (o.deleting ==> o.uid in s.doomed)
    ensures LocalIsRight(c, s, Decide(c, o))
  {
  }

  lemma MarkIsRight(o: Cr, mark: Mark, now: nat)
    requires IsSane(o.conditions)
    ensures IsSane(Remark(o, mark, now).conditions)
  {
    MarkKeepsUnique(o.conditions, mark, now);
  }

  lemma ResumeAfterRead(c: Config, s: System, s': System, r: Response)
    requires LocalIsRight(c, s, s.at) && !s.at.Ended? && r.CrIs? && IsServed(s, s', s.at, r)
    ensures LocalIsRight(c, s', Resume(c, s.at, r))
  {
    match s.at {
      case Fetching => DecideIsRight(c, s', r.cr);
      case ReadingToRun(_) => MarkIsRight(r.cr, MarkRunning, r.now);
      case ReadingWhenDone(failures) => MarkIsRight(r.cr, MarkDone(failures), r.now);
      case ReadingToFail(m) => MarkIsRight(r.cr, MarkError(m), r.now);
      case _ =>
    }
  }

  lemma ResumeIsRight(c: Config, s: System, s': System, r: Response)
    requires LocalIsRight(c, s, s.at) && !s.at.Ended? && !s.at.Playing? && IsServed(s, s', s.at, r)
    ensures LocalIsRight(c, s', Resume(c, s.at, r))
  {
    if r.CrIs? {
      ResumeAfterRead(c, s, s', r);
    }
  }

  lemma MovingKeepsInv(c: Config, s: System, l: Local)
    requires StoredIsRight(s) && LocalIsRight(c, s, l)
    ensures Inv(c, s.(at := l))
  {
    LocalStaysRight(c, s, s.(at := l), l);
  }

  lemma ActKeepsInv(c: Config, s: System, fault: Fault, events: seq<Event>)
    requires Inv(c, s) && Enabled(c, s, Act(fault, events))
    ensures Inv(c, Next(c, s, Act(fault, events)))
  {
    ServeKeepsStored(c, s, fault, events);
    if !s.at.Playing? {
      ServeServes(c, s, fault, events);
      var after := if fault.RequestLost? then s else Serve(c, s, Ask(c, s.at), fault, events).after;
      var r := Answer(c, s, fault, events);
      assert IsServed(s, after, s.at, r);
      ResumeIsRight(c, s, after, r);
      MovingKeepsInv(c, after, Resume(c, s.at, r));
    }
  }

  /** A user or another controller has stored cr. */
  lemma SavingKeepsInv(c: Config, s: System, cr: Cr)
    requires Inv(c, s) && s.cr.Some? && cr.uid == s.cr.value.uid && cr.conditions == s.cr.value.conditions
    requires s.cr.value.deleting ==> cr.deleting
    ensures Inv(c, Save(c, s, cr))
  {
    SaveKeepsStored(c, s, cr);
    LocalStaysRight(c, s, Save(c, s, cr), s.at);
  }

  lemma NextKeepsInv(c: Config, s: System, step: Step)
    requires Inv(c, s) && Enabled(c, s, step)
    ensures Inv(c, Next(c, s, step))
  {
    match step {
      case Create(fs, ok) => LocalStaysRight(c, s, Next(c, s, step), s.at);
      case Annotate(ok) => SavingKeepsInv(c, s, s.cr.value.(periodOk := ok));
      case Delete => SavingKeepsInv(c, s, s.cr.value.(deleting := true));
      case AddFinalizer(f) => SavingKeepsInv(c, s, s.cr.value.(finalizers := s.cr.value.finalizers + [f]));
      case DropFinalizer(f) =>
        SavingKeepsInv(c, s, s.cr.value.(finalizers := Filtered(s.cr.value.finalizers, f)));
      case Start => MovingKeepsInv(c, s, Fetching);
      case Crash => MovingKeepsInv(c, s, Ended(false));
      case Act(fault, events) => ActKeepsInv(c, s, fault, events);
    }
  }

  lemma {:induction false} RunKeepsInv(c: Config, s: System, steps: seq<Step>)
    requires Inv(c, s) && IsRun(c, s, steps)
    ensures Inv(c, Final(c, s, steps))
    decreases |steps|
  {
    if steps != [] {
      NextKeepsInv(c, s, steps[0]);
      RunKeepsInv(c, Next(c, s, steps[0]), steps[1..]);
    }
  }

  /** No status that is running and failed at once is ever stored. */
  lemma NoContradictionIsStored(c: Config, s: System, steps: seq<Step>)
    requires Initial(s) && IsRun(c, s, steps)
    ensures forall v :: v in Final(c, s, steps).seen ==> !Contradicts(Final(c, s, steps).seen[v].conditions)
  {
    RunKeepsInv(c, s, steps);
  }

  // ------------------------------------------------------------- the finalizer

  predicate Guarded(c: Config, s: System) {
    s.cr.Some? && FinalizerName(c) in s.cr.value.finalizers
  }

  lemma {:induction false} FilteredMembers(fs: seq<string>, name: string)
    ensures forall f :: f in Filtered(fs, name) <==> f in fs && f != name
  {
    if fs != [] {
      FilteredMembers(fs[1..], name);
      assert fs == [fs[0]] + fs[1..];
    }
  }

  lemma GuardIsRemovedByTheOperator(c: Config, s: System, step: Step)
    requires Inv(c, s) && Enabled(c, s, step) && Guarded(c, s) && !Guarded(c, Next(c, s, step))
    ensures step.Act? && s.at.RemovingFinalizer? && IsCurrent(s, s.at.o)
  {
    match step {
      case DropFinalizer(f) => FilteredMembers(s.cr.value.finalizers, f);
      case Act(fault, events) => ActKeepsGuard(c, s, fault, events);
      case _ =>
    }
  }

  lemma ActKeepsGuard(c: Config, s: System, fault: Fault, events: seq<Event>)
    requires LocalIsRight(c, s, s.at) && !s.at.Ended? && Guarded(c, s)
    ensures Guarded(c, Next(c, s, Act(fault, events))) || (s.at.RemovingFinalizer? && IsCurrent(s, s.at.o))
  {
  }
}
