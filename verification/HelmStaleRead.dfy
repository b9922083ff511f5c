/**
 A run in which a stale cached read brings back a release: the finalizer has done its
 work and is gone, another controller's finalizer still holds the resource, and a
 reconciliation that reads the resource as it was before its deletion installs again.
 */
module HelmStaleRead {
  import opened Wrappers
  import opened HelmReconcile
  import opened HelmCluster

  lemma {:induction false} OneMoreStep(s: System, steps: seq<Step>, step: Step) returns (more: seq<Step>)
    requires IsRun(s, steps) && Enabled(Final(s, steps), step)
    ensures more == steps + [step] && IsRun(s, more) && Final(s, more) == Next(Final(s, steps), step)
    decreases |steps|
  {
    more := steps + [step];
    if steps == [] {
      assert more[1..] == [] && IsRun(Next(s, step), []);
    } else {
      var rest := OneMoreStep(Next(s, steps[0]), steps[1..], step);
      assert more[1..] == rest;
    }
  }

  function Reliably(n: nat): seq<Step> {
    seq(n, i => Act(Reliable))
  }

  lemma {:induction false} RunGoesOn(s: System, steps: seq<Step>, rest: seq<Step>)
    requires IsRun(s, steps) && IsRun(Final(s, steps), rest)
    ensures IsRun(s, steps + rest) && Final(s, steps + rest) == Final(Final(s, steps), rest)
    decreases |steps|
  {
    if steps == [] {
      assert steps + rest == rest;
    } else {
      assert (steps + rest)[1..] == steps[1..] + rest;
      RunGoesOn(Next(s, steps[0]), steps[1..], rest);
    }
  }

  lemma {:induction false} WorkIsARun(s: System, n: nat)
    requires CanWork(s, n)
    ensures IsRun(s, Reliably(n)) && Final(s, Reliably(n)) == Worked(s, n)
    decreases n
  {
    var steps := Reliably(n);
    if n > 0 {
      assert steps[0] == Act(Reliable) && steps[1..] == Reliably(n - 1);
      WorkIsARun(Next(s, steps[0]), n - 1);
    }
  }

  /** The operator takes n steps without a fault. */
  lemma Works(s: System, steps: seq<Step>, n: nat) returns (more: seq<Step>)
    requires IsRun(s, steps) && CanWork(Final(s, steps), n)
    ensures more == steps + Reliably(n)
    ensures IsRun(s, more) && Final(s, more) == Worked(Final(s, steps), n)
  {
    WorkIsARun(Final(s, steps), n);
    RunGoesOn(s, steps, Reliably(n));
    more := steps + Reliably(n);
  }

  predicate CanWork(s: System, n: nat)
    decreases n
  {
    n == 0 || (Enabled(s, Act(Reliable)) && CanWork(Next(s, Act(Reliable)), n - 1))
  }

  function Worked(s: System, n: nat): System
    requires CanWork(s, n)
    decreases n
  {
    if n == 0 then s else Worked(Next(s, Act(Reliable)), n - 1)
  }

  predicate HeldBy(s: System, version: nat, deleting: bool, finalizers: set<string>) {
    && s.cr.Some? && s.cr.value.version == version && s.cr.value.deleting == deleting
    && s.cr.value.finalizers == finalizers && s.nextVersion == version + 1 && version in s.seen
    && s.seen[version] == s.cr.value
  }

  lemma FindsNothing(s: System, o: Cr, st: Status)
    requires s.at == FindingDeployed(o, st) && s.store == []
    ensures Next(s, Act(Reliable)) == s.(at := Installing(o, st.Without(Irreconcilable)))
  {
  }

  lemma InstallsIt(s: System, o: Cr, st: Status)
    requires s.at == Installing(o, st) && s.store == []
    ensures Next(s, Act(Reliable)) ==
            s.(at := AddingFinalizer(WithFinalizer(o), st.Without(ReleaseFailed), AfterInstall(o.manifest)),
               store := Record([], IsDeployed, o.manifest), changes := s.changes + 1)
  {
  }

  /** With nothing deployed, up to the update that adds the finalizer. */
  lemma InstallsAnew(s: System, o: Cr, st: Status)
    requires s.at == FindingDeployed(o, st) && s.store == []
    ensures CanWork(s, 2)
    ensures Worked(s, 2) == s.(at := Worked(s, 2).at, store := Record([], IsDeployed, o.manifest), changes := s.changes + 1)
    ensures Worked(s, 2).at.AddingFinalizer? && Worked(s, 2).at.o == WithFinalizer(o)
    ensures Worked(s, 2).at.plan.AfterInstall?
  {
    var s1 := s.(at := Installing(o, st.Without(Irreconcilable)));
    FindsNothing(s, o, st);
    InstallsIt(s1, o, st.Without(Irreconcilable));
  }

  /** From a look at an empty history to the same point. */
  lemma Installs(s: System)
    requires s.at.Managing? && !s.at.o.deleting && s.store == []
    ensures CanWork(s, 4)
    ensures Worked(s, 4) ==
            s.(at := Worked(s, 4).at, store := Record([], IsDeployed, s.at.o.manifest), changes := s.changes + 1)
    ensures Worked(s, 4).at.AddingFinalizer? && Worked(s, 4).at.o == WithFinalizer(s.at.o)
    ensures Worked(s, 4).at.plan.AfterInstall?
  {
    var o, st := s.at.o, s.at.o.status.With(Initialized, true, NoReason);
    var s1, s2 := s.(at := SyncListing(o, st)), s.(at := FindingDeployed(o, st));
    assert Next(s, Act(Reliable)) == s1 && Next(s1, Act(Reliable)) == s2;
    InstallsAnew(s2, o, st);
  }

  /** A run extended by an installation. */
  lemma InstallsInRun(s: System, before: seq<Step>) returns (steps: seq<Step>)
    requires IsRun(s, before)
    requires var t := Final(s, before); t.at.Managing? && !t.at.o.deleting && t.store == []
    ensures steps == before + Reliably(4) && IsRun(s, steps)
    ensures var t, u := Final(s, before), Final(s, steps);
      && u == t.(at := u.at, store := Record([], IsDeployed, t.at.o.manifest), changes := t.changes + 1)
      && u.at.AddingFinalizer? && u.at.o == WithFinalizer(t.at.o) && u.at.plan.AfterInstall?
  {
    Installs(Final(s, before));
    steps := Works(s, before, 4);
  }

  /** From the uninstallation to the removal of the operator's finalizer. */
  lemma Uninstalls(s: System)
    requires HeldBy(s, 3, true, {"other", FINALIZER}) && s.at == Uninstalling(s.cr.value, s.cr.value.status)
    ensures CanWork(s, 2)
    ensures var t := Worked(s, 2);
      && t.at.RemovingFinalizer? && t.at.o.finalizers == {"other"} && t.at.o.version == 4
      && HeldBy(t, 4, true, {"other", FINALIZER}) && t.store == [] && t.carried
      && t.seen == s.seen[4 := t.seen[4]]
  {
    var s1 := Next(s, Act(Reliable));
    assert s1 == s.(at := Marking(s.at.o, s1.at.st), store := []);
    var s2 := Next(s1, Act(Reliable));
    assert {"other", FINALIZER} - {FINALIZER} == {"other"};
    assert CanWork(s2, 0) && CanWork(s1, 1) && Worked(s2, 0) == s2 && Worked(s1, 1) == s2;
  }

  /** A resource that another controller holds, about to be reconciled. */
  lemma HeldResource() returns (s: System, steps: seq<Step>)
    ensures Initial(s) && IsRun(s, steps)
    ensures var t := Final(s, steps);
      HeldBy(t, 1, false, {"other"}) && t.store == [] && t.at == Managing(t.cr.value)
  {
    s := System(None, false, map[], 0, [], Ended(Fine), 0, 0);
    var s1 := Next(s, Create(7));
    assert HeldBy(s1, 0, false, {});
    var s2 := Next(s1, AddFinalizer("other"));
    assert HeldBy(s2, 1, false, {"other"});
    var s3 := Next(s2, Start);
    var s4 := Next(s3, Act(Reliable));
    assert s4 == s2.(at := Managing(s2.cr.value));
    steps := [Create(7), AddFinalizer("other"), Start, Act(Reliable)];
    assert steps[1..] == [AddFinalizer("other"), Start, Act(Reliable)];
    assert steps[1..][1..] == [Start, Act(Reliable)] && steps[1..][1..][1..] == [Act(Reliable)];
    assert IsRun(s4, []) && Final(s4, []) == s4;
    assert IsRun(s3, [Act(Reliable)]) && Final(s3, [Act(Reliable)]) == s4;
    assert IsRun(s2, steps[1..][1..]) && Final(s2, steps[1..][1..]) == s4;
    assert IsRun(s1, steps[1..]) && Final(s1, steps[1..]) == s4;
  }

  /** It gets a release and the operator's finalizer. */
  lemma FirstReconciliation() returns (s: System, steps: seq<Step>)
    ensures Initial(s) && IsRun(s, steps)
    ensures var t := Final(s, steps);
      HeldBy(t, 2, false, {"other", FINALIZER}) && t.store != [] && t.carried && t.at.Ended?
  {
    s, steps := HeldResource();
    steps := InstallsInRun(s, steps);
    steps := OneMoreStep(s, steps, Act(Reliable));
    steps := OneMoreStep(s, steps, Crash);
  }

  lemma DeletionIsRead(s: System, before: seq<Step>) returns (steps: seq<Step>)
    requires IsRun(s, before)
    requires HeldBy(Final(s, before), 2, false, {"other", FINALIZER}) && Final(s, before).at.Ended?
    ensures IsRun(s, steps)
    ensures var t, u := Final(s, before), Final(s, steps);
      && HeldBy(u, 3, true, {"other", FINALIZER}) && u.at == Managing(u.cr.value) && u.store == t.store
      && u.seen == t.seen[3 := u.cr.value]
  {
    steps := OneMoreStep(s, before, Delete);
    steps := OneMoreStep(s, steps, Start);
    steps := OneMoreStep(s, steps, Act(Reliable));
  }

  lemma UninstallsInRun(s: System, before: seq<Step>) returns (steps: seq<Step>)
    requires IsRun(s, before)
    requires var t := Final(s, before);
      HeldBy(t, 3, true, {"other", FINALIZER}) && t.at == Managing(t.cr.value) && t.store != []
    ensures IsRun(s, steps)
    ensures var u := Final(s, steps);
      && u.at.RemovingFinalizer? && u.at.o.finalizers == {"other"} && u.at.o.version == 4
      && HeldBy(u, 4, true, {"other", FINALIZER}) && u.store == [] && u.carried
      && u.seen == Final(s, before).seen[4 := u.seen[4]]
  {
    steps := Works(s, before, 2);
    Uninstalls(Final(s, steps));
    steps := Works(s, steps, 2);
  }

  /** Deleted and uninstalled, the resource waits for the other finalizer. */
  lemma Termination(s: System, before: seq<Step>) returns (steps: seq<Step>)
    requires IsRun(s, before)
    requires HeldBy(Final(s, before), 2, false, {"other", FINALIZER})
    requires Final(s, before).store != [] && Final(s, before).at.Ended?
    ensures IsRun(s, steps)
    ensures var t := Final(s, steps);
      && HeldBy(t, 5, true, {"other"}) && t.store == [] && t.carried && t.at.Ended?
      && 2 in t.seen && t.seen[2] == Final(s, before).cr.value
  {
    steps := DeletionIsRead(s, before);
    steps := UninstallsInRun(s, steps);
    steps := OneMoreStep(s, steps, Act(Reliable));
    steps := OneMoreStep(s, steps, Crash);
  }

  /** So with stale reads a resource that carried the finalizer can leave its release behind. */
  lemma StaleReadLeavesARelease()
    ensures exists s: System, steps: seq<Step>, step: Step ::
      && Initial(s) && IsRun(s, steps) && Enabled(Final(s, steps), step)
      && var t := Final(s, steps);
         t.cr.Some? && t.carried && Next(t, step).cr.None? && t.store != []
  {
    var s, steps := FirstReconciliation();
    steps := Termination(s, steps);
    steps := OneMoreStep(s, steps, Start);
    steps := OneMoreStep(s, steps, Act(StaleRead(2)));
    steps := InstallsInRun(s, steps);
    assert Enabled(Final(s, steps), DropFinalizer("other"));
    assert Next(Final(s, steps), DropFinalizer("other")).cr.None?;
  }

  // --------------------------------------------------- exactly which reads do it

  /** From here, without a harmful read, a resource that carried the finalizer can leave a release behind. */
  ghost predicate CanLeaveARelease(s: System) {
    exists steps, step ::
      IsRun(s, steps) && HarmlessReads(s, steps) && LeavesARelease(Final(s, steps), step)
  }

  predicate NoStaleReads(steps: seq<Step>) {
    forall step :: step in steps && step.Act? ==> !step.fault.StaleRead?
  }

  lemma {:induction false} NoStaleReadIsHarmful(s: System, steps: seq<Step>)
    requires IsRun(s, steps) && NoStaleReads(steps)
    ensures HarmlessReads(s, steps)
    decreases |steps|
  {
    if steps != [] {
      assert steps[0] in steps && forall step :: step in steps[1..] ==> step in steps;
      NoStaleReadIsHarmful(Next(s, steps[0]), steps[1..]);
    }
  }

  /** The others let go of it, one after the other. */
  lemma {:induction false} OthersLetGo(s: System, before: seq<Step>) returns (steps: seq<Step>, last: Step)
    requires IsRun(s, before) && NoStaleReads(before)
    requires LostFinalizer(Final(s, before)) && Final(s, before).cr.value.deleting && Final(s, before).store != []
    ensures IsRun(s, steps) && NoStaleReads(steps) && LeavesARelease(Final(s, steps), last)
    decreases Final(s, before).cr.value.finalizers
  {
    var t := Final(s, before);
    var held := t.cr.value.finalizers;
    steps := before;
    if held == {} {
      last := Delete;
    } else {
      var f :| f in held;
      last := DropFinalizer(f);
      if held - {f} != {} {
        var next := OneMoreStep(s, before, DropFinalizer(f));
        steps, last := OthersLetGo(s, next);
      }
    }
  }

  lemma LiveReadLeavesARelease(s: System, v: nat)
    requires Inv(s) && StaysUninstalled(s) && LostFinalizer(s) && s.at.Fetching? && v in s.seen && !s.seen[v].deleting
    ensures CanLeaveARelease(Next(s, Act(StaleRead(v))))
  {
    var t := Next(s, Act(StaleRead(v)));
    assert t == s.(at := Managing(s.seen[v]));
    assert IsRun(t, []) && Final(t, []) == t;
    var steps := InstallsInRun(t, []);
    var last: Step;
    steps, last := OthersLetGo(t, steps);
    NoStaleReadIsHarmful(t, steps);
  }

  /**
   At the start of a reconciliation of a resource that has lost its finalizer, a cached
   copy of version v makes it possible that a release is left behind exactly when that
   copy is from before the deletion.
   */
  lemma ReadIsHarmfulExactlyWhen(s: System, v: nat)
    requires Inv(s) && StaysUninstalled(s) && LostFinalizer(s) && s.at.Fetching? && v in s.seen
    ensures CanLeaveARelease(Next(s, Act(StaleRead(v)))) <==> !s.seen[v].deleting
  {
    if s.seen[v].deleting {
      var t := Next(s, Act(StaleRead(v)));
      NextKeepsInv(s, Act(StaleRead(v)));
      NextStaysUninstalled(s, Act(StaleRead(v)));
      forall steps, step | IsRun(t, steps) && HarmlessReads(t, steps) ensures !LeavesARelease(Final(t, steps), step) {
        RunStaysUninstalled(t, steps);
        if Enabled(Final(t, steps), step) {
          UninstalledLeavesNothing(Final(t, steps), step);
        }
      }
    } else {
      LiveReadLeavesARelease(s, v);
    }
  }
}
