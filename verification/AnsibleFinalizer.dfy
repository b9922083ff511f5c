/** When the finalizer of an Ansible custom resource goes, and when it should not have gone. */
module AnsibleFinalizer {
  import opened Wrappers
  import opened AnsibleReconcile
  import opened AnsibleCluster

  /** The latest playbook run was a finalizer run without failures, made on the present incarnation. */
  predicate IsJustified(s: System) {
    s.last.Some? && s.cr.Some? &&
    s.last.value.finalizerRun && s.last.value.IsClean() && s.last.value.o.uid == s.cr.value.uid
  }

  /**
   Whatever is stale, lost or crashes, and in every run: the finalizer leaves a resource
   only by the operator's own update and after a run without failures. The removal is
   justified exactly when the copy handed to the runner was marked for deletion and is a
   copy of this very incarnation. That holds when the first, cached copy was one of this
   incarnation; and without status management the run was a finalizer run at any rate.
   */
  lemma FinalizerGoesAfterACleanRun(c: Config, s: System, steps: seq<Step>, step: Step)
    requires c.finalizer.Some? && Initial(s) && IsRun(c, s, steps) && Enabled(c, Final(c, s, steps), step)
    requires Guarded(c, Final(c, s, steps)) && !Guarded(c, Next(c, Final(c, s, steps), step))
    ensures var t := Final(c, s, steps);
      && step.Act? && t.at.RemovingFinalizer? && t.last.Some? && t.last.value.IsClean()
      && (IsJustified(t) <==> t.last.value.o.deleting && t.last.value.o.uid == t.cr.value.uid)
      && (t.origin == t.cr.value.uid ==> IsJustified(t) && t.cr.value.uid in t.cleaned)
      && (!c.manageStatus ==> t.last.value.finalizerRun)
  {
    RunKeepsInv(c, s, steps);
    var t := Final(c, s, steps);
    GuardIsRemovedByTheOperator(c, t, step);
    assert t.seen[t.cr.value.version] == t.cr.value;
  }

  // ------------------------------------------------------- which reads are harmful

  /** A reconciliation that begins with copy o takes the resource to be deleted, and runs. */
  predicate IsTakenForDeleted(c: Config, o: Cr) {
    o.deleting && FinalizerName(c) in o.finalizers && o.periodOk
  }

  /**
   Such a reconciliation does no harm if the resource carries the finalizer and is the
   incarnation that was read, or has been cleaned up, or will be seen to be deleted by
   markRunning.
   */
  predicate IsSafeCopy(c: Config, s: System, o: Cr) {
    IsTakenForDeleted(c, o) ==>
      Guarded(c, s) &&
      (s.cr.value.uid == o.uid || s.cr.value.uid in s.cleaned || (c.manageStatus && s.cr.value.deleting))
  }

  predicate IsHarmfulRead(c: Config, s: System, step: Step) {
    step.Act? && step.fault.StaleRead? && s.at.Fetching? && step.fault.version in s.seen &&
    !IsSafeCopy(c, s, s.seen[step.fault.version])
  }

  predicate HarmlessReads(c: Config, s: System, steps: seq<Step>)
    requires IsRun(c, s, steps)
    decreases |steps|
  {
    steps == [] || (!IsHarmfulRead(c, s, steps[0]) && HarmlessReads(c, Next(c, s, steps[0]), steps[1..]))
  }

  /** A copy handed to the runner that makes it clean up the present incarnation, if that has not been done. */
  predicate WillClean(s: System, o: Cr) {
    s.cr.Some? && (s.cr.value.uid in s.cleaned || (o.uid == s.cr.value.uid && o.deleting))
  }

  /** A reconciliation that takes the resource to be deleted attends to the present incarnation. */
  predicate Attends(c: Config, s: System, l: Local) {
    match l
    case ReadingToRun(deleted) =>
      deleted ==> Guarded(c, s) && (s.cr.value.uid in s.cleaned || s.cr.value.deleting)
    case MarkingRunning(o, deleted) => deleted ==> Guarded(c, s) && WillClean(s, o)
    case Configuring(o, deleted) => deleted ==> Guarded(c, s) && WillClean(s, o)
    case Playing(o, deleted) => deleted ==> Guarded(c, s) && WillClean(s, o)
    case Rereading(deleted, failures) =>
      deleted ==> Guarded(c, s) && (failures == [] ==> s.cr.value.uid in s.cleaned)
    case RemovingFinalizer(_) => Guarded(c, s) && s.cr.value.uid in s.cleaned
    case _ => true
  }

  predicate IsAttended(c: Config, s: System) {
    && Attends(c, s, s.at)
    && (Guarded(c, s) ==> s.carried)
    && (forall u :: u in s.cleaned ==> u < s.nextUid)
    && (s.cr.Some? && s.carried && !Guarded(c, s) ==> s.cr.value.uid in s.cleaned)
  }

  lemma PlayKeepsAttended(c: Config, s: System, fault: Fault, events: seq<Event>)
    requires c.finalizer.Some? && Inv(c, s) && IsAttended(c, s) && Enabled(c, s, Act(fault, events))
    requires s.at.Playing?
    ensures IsAttended(c, Next(c, s, Act(fault, events)))
  {
  }

  predicate IsSaving(l: Local) {
    l.AddingFinalizer? || l.MarkingRunning? || l.MarkingDone? || l.MarkingFailed?
  }

  lemma SavingKeepsAttended(c: Config, s: System, fault: Fault, events: seq<Event>)
    requires c.finalizer.Some? && Inv(c, s) && IsAttended(c, s) && Enabled(c, s, Act(fault, events))
    requires IsSaving(s.at)
    ensures IsAttended(c, Next(c, s, Act(fault, events)))
  {
  }

  lemma QuietActKeepsAttended(c: Config, s: System, fault: Fault, events: seq<Event>)
    requires c.finalizer.Some? && Inv(c, s) && IsAttended(c, s) && Enabled(c, s, Act(fault, events))
    requires !s.at.RemovingFinalizer? && !s.at.Fetching? && !s.at.Playing? && !IsSaving(s.at)
    ensures IsAttended(c, Next(c, s, Act(fault, events)))
  {
    assert Next(c, s, Act(fault, events)) == s.(at := Resume(c, s.at, Answer(c, s, fault, events)));
  }

  lemma ActKeepsAttended(c: Config, s: System, fault: Fault, events: seq<Event>)
    requires c.finalizer.Some? && Inv(c, s) && IsAttended(c, s) && Enabled(c, s, Act(fault, events))
    requires !IsHarmfulRead(c, s, Act(fault, events))
    ensures IsAttended(c, Next(c, s, Act(fault, events)))
  {
    if s.at.RemovingFinalizer? {
    } else if s.at.Fetching? {
    } else if s.at.Playing? {
      PlayKeepsAttended(c, s, fault, events);
    } else if IsSaving(s.at) {
      SavingKeepsAttended(c, s, fault, events);
    } else {
      QuietActKeepsAttended(c, s, fault, events);
    }
  }

  lemma NextKeepsAttended(c: Config, s: System, step: Step)
    requires c.finalizer.Some? && Inv(c, s) && IsAttended(c, s) && Enabled(c, s, step) && !IsHarmfulRead(c, s, step)
    ensures IsAttended(c, Next(c, s, step))
  {
    match step {
      case Act(fault, events) => ActKeepsAttended(c, s, fault, events);
      case DropFinalizer(f) => FilteredMembers(s.cr.value.finalizers, f);
      case _ =>
    }
  }

  lemma {:induction false} RunKeepsAttended(c: Config, s: System, steps: seq<Step>)
    requires c.finalizer.Some? && Inv(c, s) && IsAttended(c, s) && IsRun(c, s, steps) && HarmlessReads(c, s, steps)
    ensures Inv(c, Final(c, s, steps)) && IsAttended(c, Final(c, s, steps))
    decreases |steps|
  {
    if steps != [] {
      NextKeepsInv(c, s, steps[0]);
      NextKeepsAttended(c, s, steps[0]);
      RunKeepsAttended(c, Next(c, s, steps[0]), steps[1..]);
    }
  }

  /** A resource that ever carried the finalizer goes without a finalizer run on it. */
  predicate LeavesUncleaned(c: Config, s: System, step: Step) {
    Enabled(c, s, step) && s.cr.Some? && s.carried && Next(c, s, step).cr.None? && s.cr.value.uid !in s.cleaned
  }

  lemma AttendedLeavesCleaned(c: Config, s: System, step: Step)
    requires Inv(c, s) && IsAttended(c, s)
    ensures !LeavesUncleaned(c, s, step)
  {
    if Enabled(c, s, step) && Guarded(c, s) && !Guarded(c, Next(c, s, step)) {
      GuardIsRemovedByTheOperator(c, s, step);
    }
  }

  /**
   Without harmful reads a resource that ever carried the finalizer leaves the cluster,
   by whosever step, only after a finalizer run without failures on this very
   incarnation.
   */
  lemma LeavesOnlyCleaned(c: Config, s: System, steps: seq<Step>, step: Step)
    requires c.finalizer.Some? && Initial(s)
    requires IsRun(c, s, steps) && HarmlessReads(c, s, steps) && Enabled(c, Final(c, s, steps), step)
    requires var t := Final(c, s, steps); t.cr.Some? && t.carried && Next(c, t, step).cr.None?
    ensures Final(c, s, steps).cr.value.uid in Final(c, s, steps).cleaned
  {
    RunKeepsAttended(c, s, steps);
    AttendedLeavesCleaned(c, Final(c, s, steps), step);
  }
}
