/**
 What a harmful cached read of an Ansible custom resource can lead to, and that no other
 read can.
 */
module AnsibleStaleRead {
  import opened Wrappers
  import opened AnsibleStatus
  import opened AnsibleReconcile
  import opened AnsibleCluster
  import opened AnsibleFinalizer

  // ------------------------------------------------------------- building runs

  predicate NoStaleReads(steps: seq<Step>) {
    forall step :: step in steps && step.Act? ==> !step.fault.StaleRead?
  }

  lemma {:induction false} NoStaleReadIsHarmful(c: Config, s: System, steps: seq<Step>)
    requires IsRun(c, s, steps) && NoStaleReads(steps)
    ensures HarmlessReads(c, s, steps)
    decreases |steps|
  {
    if steps != [] {
      assert steps[0] in steps && forall step :: step in steps[1..] ==> step in steps;
      NoStaleReadIsHarmful(c, Next(c, s, steps[0]), steps[1..]);
    }
  }

  lemma {:induction false} OneMoreStep(c: Config, s: System, steps: seq<Step>, step: Step) returns (more: seq<Step>)
    requires IsRun(c, s, steps) && Enabled(c, Final(c, s, steps), step)
    ensures more == steps + [step] && IsRun(c, s, more)
    ensures Final(c, s, more) == Next(c, Final(c, s, steps), step)
    decreases |steps|
  {
    more := steps + [step];
    if steps == [] {
      assert more[1..] == [] && IsRun(c, Next(c, s, step), []);
    } else {
      var rest := OneMoreStep(c, Next(c, s, steps[0]), steps[1..], step);
      assert more[1..] == rest;
    }
  }

  /** A call that is answered; a playbook, if it is one, runs to its end without failures. */
  const OK := Act(Reliable, [Stats(true)])

  predicate CanWork(c: Config, s: System, n: nat)
    decreases n
  {
    n == 0 || (Enabled(c, s, OK) && CanWork(c, Next(c, s, OK), n - 1))
  }

  function Worked(c: Config, s: System, n: nat): System
    requires CanWork(c, s, n)
    decreases n
  {
    if n == 0 then s else Worked(c, Next(c, s, OK), n - 1)
  }

  lemma {:induction false} Works(c: Config, s: System, steps: seq<Step>, n: nat) returns (more: seq<Step>)
    requires IsRun(c, s, steps) && CanWork(c, Final(c, s, steps), n) && NoStaleReads(steps)
    ensures IsRun(c, s, more) && Final(c, s, more) == Worked(c, Final(c, s, steps), n) && NoStaleReads(more)
    decreases n
  {
    more := steps;
    if n > 0 {
      var next := OneMoreStep(c, s, steps, OK);
      more := Works(c, s, next, n - 1);
    }
  }

  // -------------------------------------------- from the read to the removal

  function AfterPlay(c: Config, s: System, o: Cr): System {
    s.(at := Rereading(true, []), last := Some(PlaybookRun(o, IsFinalizerRun(c, o), Finished([]))),
       cleaned := if IsFinalizerRun(c, o) then s.cleaned + {o.uid} else s.cleaned)
  }

  /** The run of the playbook on copy o, up to the removal of the finalizer. */
  lemma Plays(c: Config, s: System, o: Cr)
    requires c.finalizer.Some? && s.cr.Some? && s.at == Configuring(o, true)
    requires o.deleting ==> IsFinalizerRun(c, o)
    ensures CanWork(c, s, 3)
    ensures var cr := s.cr.value;
      Worked(c, s, 3) ==
      AfterPlay(c, s, o).(at := RemovingFinalizer(cr.(finalizers := Filtered(cr.finalizers, FinalizerName(c)))))
  {
    var s1 := s.(at := Playing(o, true));
    assert Next(c, s, OK) == s1;
    var s2 := AfterPlay(c, s1, o);
    assert s2 == AfterPlay(c, s, o);
  }

  /** A reconciliation that stands before the removal, and the copy that it has run on. */
  predicate IsAboutToRemove(c: Config, t: System, u: System, ran: Cr) {
    && t.cr.Some? && u.cr.Some? && Guarded(c, u) && u.carried
    && u.at == RemovingFinalizer(u.cr.value.(finalizers := Filtered(u.cr.value.finalizers, FinalizerName(c))))
    && u.cr.value == t.cr.value.(version := u.cr.value.version, conditions := u.cr.value.conditions)
    && u.last == Some(PlaybookRun(ran, IsFinalizerRun(c, ran), Finished([])))
    && u.cleaned == (if IsFinalizerRun(c, ran) then t.cleaned + {ran.uid} else t.cleaned)
    && u.nextUid == t.nextUid
    && t.nextVersion <= u.nextVersion && (forall v :: v in t.seen && v < t.nextVersion ==> v in u.seen && u.seen[v] == t.seen[v])
  }

  lemma ReachesRemovalManaged(c: Config, s: System, before: seq<Step>) returns (steps: seq<Step>, ran: Cr)
    requires c.finalizer.Some? && IsRun(c, s, before) && NoStaleReads(before)
    requires Final(c, s, before).at == ReadingToRun(true) && Guarded(c, Final(c, s, before))
    ensures IsRun(c, s, steps) && NoStaleReads(steps)
    ensures IsAboutToRemove(c, Final(c, s, before), Final(c, s, steps), ran)
    ensures ran.deleting == Final(c, s, before).cr.value.deleting
    ensures ran.uid == Final(c, s, before).cr.value.uid && ran.finalizers == Final(c, s, before).cr.value.finalizers
  {
    steps := Works(c, s, before, 2);
    var t := Final(c, s, steps);
    ran := t.cr.value;
    Plays(c, t, ran);
    steps := Works(c, s, steps, 3);
  }

  lemma ReachesRemovalUnmanaged(c: Config, s: System, before: seq<Step>, ran: Cr) returns (steps: seq<Step>)
    requires c.finalizer.Some? && IsRun(c, s, before) && NoStaleReads(before)
    requires Final(c, s, before).at == Configuring(ran, true) && IsFinalizerRun(c, ran)
    requires Guarded(c, Final(c, s, before)) && Final(c, s, before).carried
    ensures IsRun(c, s, steps) && NoStaleReads(steps)
    ensures IsAboutToRemove(c, Final(c, s, before), Final(c, s, steps), ran)
  {
    Plays(c, Final(c, s, before), ran);
    steps := Works(c, s, before, 3);
  }

  // ----------------------------------------------------------- leaving for good

  lemma {:induction false} FilteredShrinks(fs: seq<string>, f: string)
    ensures |Filtered(fs, f)| <= |fs| && (f in fs ==> |Filtered(fs, f)| < |fs|)
  {
    if fs != [] {
      FilteredShrinks(fs[1..], f);
    }
  }

  /** Everything but versions and the deletion mark is as it was. */
  predicate IsLeftTo(t: System, u: System) {
    && t.cr.Some? && u.cr.Some? && u.cr.value.uid == t.cr.value.uid && u.carried == t.carried
    && u.at == t.at && u.cleaned == t.cleaned && u.nextUid == t.nextUid
  }

  /** A resource without the operator's finalizer can be made to go: deleted, and let go by the others. */
  lemma {:induction false} OthersLetGo(c: Config, s: System, before: seq<Step>) returns (steps: seq<Step>, last: Step)
    requires c.finalizer.Some? && IsRun(c, s, before) && NoStaleReads(before)
    requires Final(c, s, before).cr.Some? && !Guarded(c, Final(c, s, before))
    ensures IsRun(c, s, steps) && NoStaleReads(steps)
    ensures IsLeftTo(Final(c, s, before), Final(c, s, steps)) && !Guarded(c, Final(c, s, steps))
    ensures !last.Act? && Enabled(c, Final(c, s, steps), last) && Next(c, Final(c, s, steps), last).cr.None?
    decreases !Final(c, s, before).cr.value.deleting, |Final(c, s, before).cr.value.finalizers|
  {
    var t := Final(c, s, before);
    var fs := t.cr.value.finalizers;
    steps := before;
    if fs == [] {
      last := Delete;
    } else if !t.cr.value.deleting {
      var next := OneMoreStep(c, s, before, Delete);
      steps, last := OthersLetGo(c, s, next);
    } else {
      last := DropFinalizer(fs[0]);
      FilteredMembers(fs, fs[0]);
      FilteredShrinks(fs, fs[0]);
      if Filtered(fs, fs[0]) != [] {
        var next := OneMoreStep(c, s, before, DropFinalizer(fs[0]));
        steps, last := OthersLetGo(c, s, next);
      }
    }
  }

  /** From here, without a harmful read, a resource that carried the finalizer can go without being cleaned up. */
  ghost predicate CanLeaveUncleaned(c: Config, s: System) {
    exists steps, step ::
      IsRun(c, s, steps) && HarmlessReads(c, s, steps) && LeavesUncleaned(c, Final(c, s, steps), step)
  }

  lemma RemovalLetsItGo(c: Config, s: System, before: seq<Step>)
    requires c.finalizer.Some? && IsRun(c, s, before) && NoStaleReads(before)
    requires var t := Final(c, s, before);
      && Guarded(c, t) && t.carried && t.cr.value.uid !in t.cleaned
      && t.at == RemovingFinalizer(t.cr.value.(finalizers := Filtered(t.cr.value.finalizers, FinalizerName(c))))
    ensures CanLeaveUncleaned(c, s)
  {
    var t := Final(c, s, before);
    if Next(c, t, OK).cr.None? {
      NoStaleReadIsHarmful(c, s, before);
      assert LeavesUncleaned(c, t, OK);
    } else {
      FilteredMembers(t.cr.value.finalizers, FinalizerName(c));
      var steps := OneMoreStep(c, s, before, OK);
      var last: Step;
      steps, last := OthersLetGo(c, s, steps);
      NoStaleReadIsHarmful(c, s, steps);
      assert LeavesUncleaned(c, Final(c, s, steps), last);
    }
  }

  // --------------------------------------------------- exactly which reads do it

  /** The point after a harmful read, with an incarnation in place that will not be cleaned up. */
  predicate IsSetUp(c: Config, t: System, o: Cr) {
    && t.at == Proceed(c, o, true) && Guarded(c, t) && t.carried && t.cr.value.uid !in t.cleaned
    && t.cr.value.uid != o.uid && (c.manageStatus ==> !t.cr.value.deleting)
  }

  lemma SetUpLeavesUncleaned(c: Config, s: System, before: seq<Step>, o: Cr)
    requires c.finalizer.Some? && IsRun(c, s, before) && NoStaleReads(before)
    requires IsTakenForDeleted(c, o) && IsSetUp(c, Final(c, s, before), o)
    ensures CanLeaveUncleaned(c, s)
  {
    var steps;
    if c.manageStatus {
      var ran;
      steps, ran := ReachesRemovalManaged(c, s, before);
    } else {
      steps := ReachesRemovalUnmanaged(c, s, before, o);
    }
    RemovalLetsItGo(c, s, steps);
  }

  /** Whatever is there without the finalizer goes, and a new incarnation is created with it. */
  lemma IsReplaced(c: Config, s: System, before: seq<Step>) returns (steps: seq<Step>)
    requires c.finalizer.Some? && IsRun(c, s, before) && NoStaleReads(before) && !Guarded(c, Final(c, s, before))
    ensures IsRun(c, s, steps) && NoStaleReads(steps)
    ensures var t, u := Final(c, s, before), Final(c, s, steps);
      && Guarded(c, u) && u.carried && u.cr.value.uid == t.nextUid && !u.cr.value.deleting
      && u.at == t.at && u.cleaned == t.cleaned
  {
    steps := before;
    if Final(c, s, before).cr.Some? {
      var last: Step;
      steps, last := OthersLetGo(c, s, before);
      steps := OneMoreStep(c, s, steps, last);
    }
    steps := OneMoreStep(c, s, steps, Create([FinalizerName(c)], true));
  }

  lemma UnsafeCopyLeavesUncleaned(c: Config, s: System, v: nat)
    requires c.finalizer.Some? && Inv(c, s) && IsAttended(c, s) && s.at.Fetching? && v in s.seen
    requires !IsSafeCopy(c, s, s.seen[v])
    ensures CanLeaveUncleaned(c, Next(c, s, Act(StaleRead(v), [])))
  {
    var t, o := Next(c, s, Act(StaleRead(v), [])), s.seen[v];
    assert t == s.(at := Proceed(c, o, true), origin := o.uid);
    assert IsRun(c, t, []) && Final(c, t, []) == t;
    var steps := [];
    if !Guarded(c, s) {
      steps := IsReplaced(c, t, []);
    }
    SetUpLeavesUncleaned(c, t, steps, o);
  }

  /**
   At the start of a reconciliation a cached copy of version v makes it possible that a
   resource goes without a finalizer run on it exactly when that copy is not safe: it is
   taken for deleted, while the resource that is there has lost the finalizer, or is
   another incarnation that is not cleaned up and not seen to be deleted.
   */
  lemma ReadIsHarmfulExactlyWhen(c: Config, s: System, v: nat)
    requires c.finalizer.Some? && Inv(c, s) && IsAttended(c, s) && s.at.Fetching? && v in s.seen
    ensures CanLeaveUncleaned(c, Next(c, s, Act(StaleRead(v), []))) <==> !IsSafeCopy(c, s, s.seen[v])
  {
    if IsSafeCopy(c, s, s.seen[v]) {
      var read := Act(StaleRead(v), []);
      var t := Next(c, s, read);
      NextKeepsInv(c, s, read);
      NextKeepsAttended(c, s, read);
      forall steps, step | IsRun(c, t, steps) && HarmlessReads(c, t, steps)
        ensures !LeavesUncleaned(c, Final(c, t, steps), step)
      {
        RunKeepsAttended(c, t, steps);
        AttendedLeavesCleaned(c, Final(c, t, steps), step);
      }
    } else {
      UnsafeCopyLeavesUncleaned(c, s, v);
    }
  }

  // ------------------------------------------------------------- it is reachable

  const MANAGED := Config(Some("f"), true)

  /** Incarnation 0 is created, deleted and about to be run. */
  lemma FirstIncarnation() returns (s: System, steps: seq<Step>)
    ensures Initial(s) && IsRun(MANAGED, s, steps) && NoStaleReads(steps)
    ensures var t := Final(MANAGED, s, steps);
      && t.at == ReadingToRun(true) && t.cr == Some(Cr(0, 1, true, ["f"], true, [])) && t.nextUid == 1
      && t.nextVersion == 2 && 1 in t.seen && t.seen[1] == t.cr.value && t.cleaned == {}
  {
    s := System(None, map[], 0, 0, Ended(true), 0, None, {}, {}, false);
    steps := OneMoreStep(MANAGED, s, [], Create(["f"], true));
    steps := OneMoreStep(MANAGED, s, steps, Delete);
    steps := OneMoreStep(MANAGED, s, steps, Start);
    steps := OneMoreStep(MANAGED, s, steps, OK);
  }

  /** It is gone, and created again under the same name. */
  lemma SecondIncarnation(s: System)
    requires s.at.RemovingFinalizer? && s.at.o.finalizers == [] && IsCurrent(s, s.at.o)
    requires s.cr.value.deleting && s.nextUid == 1
    ensures Enabled(MANAGED, s, OK) && Enabled(MANAGED, Next(MANAGED, s, OK), Crash)
    ensures var t := Next(MANAGED, Next(MANAGED, s, OK), Crash);
      && Enabled(MANAGED, t, Create(["f"], true))
      && Enabled(MANAGED, Next(MANAGED, t, Create(["f"], true)), Start)
      && var u := Next(MANAGED, Next(MANAGED, t, Create(["f"], true)), Start);
      && u.cr == Some(Cr(1, s.nextVersion + 1, false, ["f"], true, [])) && u.at == Fetching && u.cleaned == s.cleaned
      && (forall v :: v in s.seen && v < s.nextVersion ==> v in u.seen && u.seen[v] == s.seen[v])
  {
  }

  /** The new incarnation is live, and the old one is still in the cache. */
  lemma NewIncarnationIsLive() returns (s: System, steps: seq<Step>)
    ensures Initial(s) && IsRun(MANAGED, s, steps)
    ensures var t := Final(MANAGED, s, steps);
      && t.at == Fetching && t.cleaned == {0} && 1 in t.seen && t.seen[1] == Cr(0, 1, true, ["f"], true, [])
      && t.cr.Some? && t.cr.value.uid == 1 && !t.cr.value.deleting && t.cr.value.finalizers == ["f"]
  {
    assert Filtered(["f"], "f") == [] by {
      assert ["f"][1..] == [];
    }
    s, steps := FirstIncarnation();
    var ran;
    steps, ran := ReachesRemovalManaged(MANAGED, s, steps);
    assert IsFinalizerRun(MANAGED, ran);
    SecondIncarnation(Final(MANAGED, s, steps));
    steps := OneMoreStep(MANAGED, s, steps, OK);
    steps := OneMoreStep(MANAGED, s, steps, Crash);
    steps := OneMoreStep(MANAGED, s, steps, Create(["f"], true));
    steps := OneMoreStep(MANAGED, s, steps, Start);
  }

  lemma ReachesRemovalFrom(s: System) returns (steps: seq<Step>)
    requires s.at == ReadingToRun(true) && Guarded(MANAGED, s) && !s.cr.value.deleting && s.cr.value.finalizers == ["f"]
    ensures IsRun(MANAGED, s, steps)
    ensures var t := Final(MANAGED, s, steps);
      && t.cr.Some? && t.cr.value.uid == s.cr.value.uid && !t.cr.value.deleting && Guarded(MANAGED, t)
      && t.at == RemovingFinalizer(t.cr.value.(finalizers := [])) && t.cleaned == s.cleaned
      && t.last.Some? && !t.last.value.finalizerRun
  {
    assert Filtered(["f"], "f") == [] by {
      assert ["f"][1..] == [];
    }
    assert IsRun(MANAGED, s, []) && Final(MANAGED, s, []) == s;
    var ran;
    steps, ran := ReachesRemovalManaged(MANAGED, s, []);
  }

  /**
   The removal is not always justified: a cached copy of the old incarnation, marked for
   deletion, takes the finalizer off the new, live one after an ordinary playbook run.
   */
  lemma StaleReadRemovesTheFinalizerOfALiveResource()
    ensures exists s: System, before: seq<Step>, after: seq<Step> ::
      && Initial(s) && IsRun(MANAGED, s, before) && Enabled(MANAGED, Final(MANAGED, s, before), Act(StaleRead(1), []))
      && var r := Next(MANAGED, Final(MANAGED, s, before), Act(StaleRead(1), []));
         IsRun(MANAGED, r, after) && Enabled(MANAGED, Final(MANAGED, r, after), OK) &&
         var t, u := Final(MANAGED, r, after), Next(MANAGED, Final(MANAGED, r, after), OK);
         Guarded(MANAGED, t) && !t.cr.value.deleting && !IsJustified(t) && t.cr.value.uid !in t.cleaned &&
         u.cr.Some? && u.cr.value.uid == t.cr.value.uid && !Guarded(MANAGED, u)
  {
    var s, before := NewIncarnationIsLive();
    var f := Final(MANAGED, s, before);
    var r := Next(MANAGED, f, Act(StaleRead(1), []));
    var after := ReachesRemovalFrom(r);
  }
}
