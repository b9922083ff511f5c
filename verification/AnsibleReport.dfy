/**
 What is said of a playbook run once it is over: the status that markDone stores and the
 result with which the reconciliation ends, against what the run really did
 (operator-sdk/pkg/ansible/controller/reconcile.go).
 */
module AnsibleReport {
  import opened Wrappers
  import opened AnsibleStatus
  import opened AnsibleReconcile
  import opened AnsibleCluster

  // ------------------------------------------------------------- what a status says

  predicate SaysFailed(cs: seq<Condition>, message: string) {
    && Find(cs, FAILURE).Some?
    && Find(cs, FAILURE).value.status == "True" && Find(cs, FAILURE).value.reason == "Failed"
    && Find(cs, FAILURE).value.message == message
    && !Holds(cs, RUNNING)
  }

  predicate SaysSuccessful(cs: seq<Condition>) {
    && Find(cs, RUNNING).Some?
    && Find(cs, RUNNING).value.status == "True" && Find(cs, RUNNING).value.reason == "Successful"
    && Find(cs, FAILURE).None?
  }

  predicate SaysRunning(cs: seq<Condition>) {
    && Find(cs, RUNNING).Some?
    && Find(cs, RUNNING).value.status == "True" && Find(cs, RUNNING).value.reason == "Running"
    && !Holds(cs, FAILURE)
  }

  predicate HasFailureNow(cs: seq<Condition>) {
    Find(cs, FAILURE).Some? && Find(cs, FAILURE).value.status == "True"
  }

  /** The report of a finished run. */
  predicate Reports(cs: seq<Condition>, failures: seq<string>) {
    if failures == [] then SaysSuccessful(cs) else SaysFailed(cs, Joined(failures))
  }

  /** The condition that a mark is meant to raise. */
  function Meant(mark: Mark, now: nat): Condition {
    match mark
    case MarkRunning => Condition(RUNNING, "True", now, "Running", RUNNING_MESSAGE)
    case MarkError(m) => Condition(FAILURE, "True", now, "Failed", m)
    case MarkDone(failures) =>
      if failures == [] then Condition(RUNNING, "True", now, "Successful", SUCCESSFUL_MESSAGE)
      else Condition(FAILURE, "True", now, "Failed", Joined(failures))
  }

  /** What stands for the raised kind: a condition that was true for the same reason stays, message and all. */
  lemma MarkFinds(cs: seq<Condition>, mark: Mark, now: nat)
    ensures var meant := Meant(mark, now);
      var before := Find(cs, meant.kind);
      Find(Marked(cs, mark, now), meant.kind) ==
      Some(if before.None? || before.value.status != "True" then meant
           else if before.value.reason == meant.reason then before.value
           else meant.(since := before.value.since))
  {
    BaseFinds(cs, mark, Meant(mark, now).kind);
    SetFinds(Base(cs, mark), Meant(mark, now));
  }

  /**
   A mark stores its message exactly when the kind that it raises is not already true for the
   same reason with another message: so a failure is not heard while an older one stands.
   */
  lemma MessageIsStoredExactlyWhen(cs: seq<Condition>, mark: Mark, now: nat)
    ensures var meant := Meant(mark, now);
      var before, after := Find(cs, meant.kind), Find(Marked(cs, mark, now), meant.kind);
      after.Some? &&
      (after.value.message == meant.message <==>
         !(before.Some? && before.value.status == "True" && before.value.reason == meant.reason
           && before.value.message != meant.message))
  {
    MarkFinds(cs, mark, now);
  }

  /** After a failed run the error over a bad annotation is not heard: the old failure stands. */
  lemma StandingFailureHidesTheNext(first: string, second: string, now: nat, later: nat)
    requires first != second
    ensures var cs := Marked(Marked([], MarkDone([first]), now), MarkError(second), later);
      Find(cs, FAILURE) == Some(Condition(FAILURE, "True", now, "Failed", first))
  {
    var cs := Marked([], MarkDone([first]), now);
    MarkFinds([], MarkDone([first]), now);
    MarkFinds(cs, MarkError(second), later);
  }

  lemma {:induction false} FoundMeansHolds(cs: seq<Condition>, kind: string)
    requires Unique(cs)
    ensures Holds(cs, kind) <==> Find(cs, kind).Some? && Find(cs, kind).value.status == "True"
  {
    FindIsMember(cs, kind);
    if Holds(cs, kind) {
      var c :| c in cs && c.kind == kind && c.status == "True";
      assert Find(cs, kind) == Some(c);
    }
  }

  /** markDone reports the run, if no failure was standing. */
  lemma DoneReports(cs: seq<Condition>, failures: seq<string>, now: nat)
    requires IsSane(cs) && !HasFailureNow(cs)
    ensures Reports(Marked(cs, MarkDone(failures), now), failures)
  {
    var mark := MarkDone(failures);
    var after := Marked(cs, mark, now);
    MarkFinds(cs, mark, now);
    TransitionTimes(cs, mark, now);
    MarkKeepsUnique(cs, mark, now);
    FoundMeansHolds(after, RUNNING);
    FoundMeansHolds(after, FAILURE);
  }

  /** The text before the first line break, and the lines after it. */
  function Lines(s: string): (lines: seq<string>)
    ensures lines != []
  {
    if s == "" then [""]
    else if s[0] == '\n' then [""] + Lines(s[1..])
    else [[s[0]] + Lines(s[1..])[0]] + Lines(s[1..])[1..]
  }

  lemma {:induction false} LineIsRead(m: string, rest: string)
    requires '\n' !in m
    ensures Lines(m) == [m] && Lines(m + "\n" + rest) == [m] + Lines(rest)
  {
    if m == "" {
      assert m + "\n" + rest == "\n" + rest && ("\n" + rest)[1..] == rest;
    } else {
      LineIsRead(m[1..], rest);
      assert (m + "\n" + rest)[1..] == m[1..] + "\n" + rest;
      assert [m[0]] + m[1..] == m;
    }
  }

  /** The message of several failures has each of them on a line of its own, in order. */
  lemma {:induction false} EveryFailureIsALine(failures: seq<string>)
    requires failures != [] && forall i :: 0 <= i < |failures| ==> '\n' !in failures[i]
    ensures Lines(Joined(failures)) == failures
  {
    LineIsRead(failures[0], "");
    if |failures| > 1 {
      var rest := failures[1..];
      assert forall i :: 0 <= i < |rest| ==> rest[i] == failures[i + 1];
      EveryFailureIsALine(rest);
      LineIsRead(failures[0], Joined(rest));
      assert failures == [failures[0]] + rest;
    }
  }

  /** markRunning takes every standing failure down. */
  lemma RunningIsCalm(cs: seq<Condition>, now: nat)
    requires IsSane(cs)
    ensures !HasFailureNow(Marked(cs, MarkRunning, now))
  {
    TransitionTimes(cs, MarkRunning, now);
  }

  // --------------------------------------------------------------- over every run

  predicate IsCalm(s: System) {
    s.cr.Some? ==> !HasFailureNow(s.cr.value.conditions)
  }

  /** From markRunning to markDone no failure stands, and what is to be reported is what the run did. */
  predicate KnowsTheRun(c: Config, s: System, l: Local) {
    match l
    case MarkingRunning(o, _) => !HasFailureNow(o.conditions)
    case Configuring(_, _) => c.manageStatus ==> IsCalm(s)
    case Playing(_, _) => c.manageStatus ==> IsCalm(s)
    case Rereading(_, failures) =>
      s.last.Some? && s.last.value.outcome == Finished(failures) && (c.manageStatus ==> IsCalm(s))
    case RemovingFinalizer(_) => s.last.Some? && s.last.value.IsClean() && (c.manageStatus ==> IsCalm(s))
    case ReadingWhenDone(failures) => s.last.Some? && s.last.value.outcome == Finished(failures) && IsCalm(s)
    case MarkingDone(o, failures) =>
      s.last.Some? && s.last.value.outcome == Finished(failures) && Reports(o.conditions, failures)
    case _ => true
  }

  lemma OthersKeepTheRun(c: Config, s: System, step: Step)
    requires KnowsTheRun(c, s, s.at) && Enabled(c, s, step) && !step.Act?
    ensures KnowsTheRun(c, Next(c, s, step), Next(c, s, step).at)
  {
  }

  lemma ReadKeepsTheRun(c: Config, s: System, fault: Fault, events: seq<Event>)
    requires Inv(c, s) && KnowsTheRun(c, s, s.at) && Enabled(c, s, Act(fault, events)) && Answer(c, s, fault, events).CrIs?
    ensures var t := Next(c, s, Act(fault, events)); KnowsTheRun(c, t, t.at)
  {
    if s.cr.Some? {
      var cs := s.cr.value.conditions;
      if s.at.ReadingToRun? {
        RunningIsCalm(cs, s.nextVersion);
      } else if s.at.ReadingWhenDone? {
        DoneReports(cs, s.at.failures, s.nextVersion);
      }
    }
  }

  lemma ActKeepsTheRun(c: Config, s: System, fault: Fault, events: seq<Event>)
    requires Inv(c, s) && KnowsTheRun(c, s, s.at) && Enabled(c, s, Act(fault, events))
    ensures var t := Next(c, s, Act(fault, events)); KnowsTheRun(c, t, t.at)
  {
    if Answer(c, s, fault, events).CrIs? {
      ReadKeepsTheRun(c, s, fault, events);
    }
  }

  lemma {:induction false} RunKeepsTheRun(c: Config, s: System, steps: seq<Step>)
    requires Inv(c, s) && KnowsTheRun(c, s, s.at) && IsRun(c, s, steps)
    ensures Inv(c, Final(c, s, steps)) && KnowsTheRun(c, Final(c, s, steps), Final(c, s, steps).at)
    decreases |steps|
  {
    if steps != [] {
      NextKeepsInv(c, s, steps[0]);
      if steps[0].Act? {
        ActKeepsTheRun(c, s, steps[0].fault, steps[0].events);
      } else {
        OthersKeepTheRun(c, s, steps[0]);
      }
      RunKeepsTheRun(c, Next(c, s, steps[0]), steps[1..]);
    }
  }

  /** A step of markDone stores a status. */
  predicate StoresTheReport(c: Config, s: System, step: Step) {
    && Enabled(c, s, step) && step.Act? && !step.fault.RequestLost?
    && s.at.MarkingDone? && IsCurrent(s, s.at.o)
  }

  /**
   In every run, whatever is stale, lost or crashes: the status that is stored after a
   playbook says Successful, and no failure, exactly when the latest run of a playbook was
   without failures; and otherwise that it failed, with all its failures, and not that it runs.
   */
  lemma StoredReportIsTrue(c: Config, s: System, steps: seq<Step>, step: Step)
    requires Initial(s) && IsRun(c, s, steps) && StoresTheReport(c, Final(c, s, steps), step)
    ensures var t, t' := Final(c, s, steps), Next(c, Final(c, s, steps), step);
      var stored := t'.seen[t.nextVersion].conditions;
      && t.last.Some? && t.last.value.outcome.Finished?
      && (SaysSuccessful(stored) <==> t.last.value.IsClean())
      && (SaysFailed(stored, Joined(t.last.value.outcome.failures)) <==> !t.last.value.IsClean())
  {
    RunKeepsTheRun(c, s, steps);
  }

  predicate IsAfterTheRun(l: Local) {
    l.Rereading? || l.RemovingFinalizer? || l.ReadingWhenDone? || l.MarkingDone?
  }

  /**
   And a reconciliation that has run a playbook to its end ends without error exactly when
   its last call was answered well and that run was without failures, or the resource was
   gone when it was read again.
   */
  lemma EndsWellExactlyWhen(c: Config, s: System, steps: seq<Step>, fault: Fault, events: seq<Event>)
    requires Initial(s) && IsRun(c, s, steps)
    requires IsAfterTheRun(Final(c, s, steps).at)
    requires Next(c, Final(c, s, steps), Act(fault, events)).at.Ended?
    ensures var t := Final(c, s, steps);
      t.last.Some? &&
      (Next(c, t, Act(fault, events)).at.ok <==>
      && Answer(c, t, fault, events) != Failure
      && (t.last.value.IsClean() || (t.at.Rereading? && t.cr.None?)))
  {
    RunKeepsTheRun(c, s, steps);
  }

  /** A run that stopped short, without readable statistics, or that was never made, ends with an error. */
  lemma UnfinishedRunsFail(c: Config, s: System, fault: Fault, events: seq<Event>)
    requires !s.at.Ended? && Next(c, s, Act(fault, events)).at == Ended(true)
    ensures s.at.Fetching? || IsAfterTheRun(s.at)
  {
  }
}
