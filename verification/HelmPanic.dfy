/**
 UninstallRelease reads the release of Helm's response before it looks at the error
 (operator-sdk/pkg/helm/release/manager.go), so an uninstallation that fails without a
 response panics: nothing is reported, and the next reconciliation does the same.
 */
module HelmPanic {
  import opened Wrappers
  import opened HelmReconcile
  import opened HelmCluster

  lemma PanicsExactlyWhen(s: System, step: Step)
    requires Enabled(s, step) && s.at != Ended(Panicked)
    ensures Next(s, step).at == Ended(Panicked) <==>
            s.at.Uninstalling? && step.Act? && (step.fault.RequestLost? || step.fault.ReplyLost?)
  {
  }

  /** The steps of a run at which the operator panics. */
  function Panics(s: System, steps: seq<Step>): nat
    requires IsRun(s, steps)
    decreases |steps|
  {
    if steps == [] then 0
    else
      var s' := Next(s, steps[0]);
      (if !s.at.Ended? && s'.at == Ended(Panicked) then 1 else 0) + Panics(s', steps[1..])
  }

  lemma OneStep(s: System, step: Step, rest: seq<Step>)
    requires Enabled(s, step) && IsRun(Next(s, step), rest)
    ensures var steps := [step] + rest; var s' := Next(s, step);
      && IsRun(s, steps) && Final(s, steps) == Final(s', rest)
      && Panics(s, steps) == (if !s.at.Ended? && s'.at == Ended(Panicked) then 1 else 0) + Panics(s', rest)
  {
    assert ([step] + rest)[1..] == rest;
  }

  /** A resource being deleted whose release is still there, between reconciliations. */
  predicate AwaitsUninstall(s: System) {
    s.at.Ended? && s.cr.Some? && s.cr.value.deleting && FINALIZER in s.cr.value.finalizers && s.store != []
  }

  /** From the look at the history to the panic. */
  lemma UninstallPanics(s: System, rest: seq<Step>)
    requires s.cr.Some? && s.at == Listing(s.cr.value, s.cr.value.status) && s.store != []
    requires IsRun(s.(at := Ended(Panicked)), rest)
    ensures var steps := [Act(Reliable)] + ([Act(RequestLost)] + rest); var t := s.(at := Ended(Panicked));
      IsRun(s, steps) && Final(s, steps) == Final(t, rest) && Panics(s, steps) == 1 + Panics(t, rest)
  {
    var s1 := s.(at := Uninstalling(s.at.o, s.at.st));
    assert Next(s, Act(Reliable)) == s1 && Next(s1, Act(RequestLost)) == s.(at := Ended(Panicked));
    OneStep(s1, Act(RequestLost), rest);
    OneStep(s, Act(Reliable), [Act(RequestLost)] + rest);
  }

  /** A reconciliation whose uninstallation fails without a response. */
  lemma OnePanic(s: System, rest: seq<Step>) returns (steps: seq<Step>)
    requires AwaitsUninstall(s) && IsRun(s.(at := Ended(Panicked)), rest)
    ensures IsRun(s, steps) && Panics(s, steps) == 1 + Panics(s.(at := Ended(Panicked)), rest)
    ensures Final(s, steps) == Final(s.(at := Ended(Panicked)), rest)
  {
    var o := s.cr.value;
    var s1, s2, s3 := s.(at := Fetching), s.(at := Managing(o)), s.(at := Listing(o, o.status));
    assert Next(s, Start) == s1 && Next(s1, Act(Reliable)) == s2 && Next(s2, Act(Reliable)) == s3;
    UninstallPanics(s3, rest);
    steps := [Act(Reliable)] + ([Act(RequestLost)] + rest);
    OneStep(s2, Act(Reliable), steps);
    steps := [Act(Reliable)] + steps;
    OneStep(s1, Act(Reliable), steps);
    steps := [Act(Reliable)] + steps;
    OneStep(s, Start, steps);
    steps := [Start] + steps;
  }

  /**
   While its uninstallation fails so, any number of reconciliations panic one after the
   other, and resource, status and history stay as they were.
   */
  lemma {:induction false} CanPanicForEver(s: System, n: nat) returns (steps: seq<Step>)
    requires AwaitsUninstall(s)
    ensures IsRun(s, steps) && Panics(s, steps) == n
    ensures Final(s, steps) == if n == 0 then s else s.(at := Ended(Panicked))
    decreases n
  {
    steps := [];
    if n > 0 {
      steps := CanPanicForEver(s.(at := Ended(Panicked)), n - 1);
      steps := OnePanic(s, steps);
    }
  }
}
