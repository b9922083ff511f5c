/**
 What becomes of an installation or an upgrade that fails half way: the same reconciliation
 undoes it (operator-sdk/pkg/helm/release/manager.go), while users and other controllers
 do what they like.
 */
module HelmUndo {
  import opened Wrappers
  import opened HelmReconcile
  import opened HelmCluster

  /** The reconciliation goes on to its end, and every call of it is answered. */
  predicate IsAnswered(step: Step) {
    step != Start && step != Crash && (step.Act? ==> step.fault == Reliable)
  }

  predicate AllAnswered(steps: seq<Step>) {
    forall i :: 0 <= i < |steps| ==> IsAnswered(steps[i])
  }

  // ------------------------------------------------------------ installations

  predicate InstallIsBeingUndone(s: System) {
    s.at.UndoingInstall? || (s.at.Reporting? && s.store == []) || (s.at == Ended(Erred) && s.store == [])
  }

  lemma {:induction false} UndoingLeavesNothing(s: System, steps: seq<Step>)
    requires InstallIsBeingUndone(s) && IsRun(s, steps) && AllAnswered(steps)
    ensures InstallIsBeingUndone(Final(s, steps))
    decreases |steps|
  {
    if steps != [] {
      assert IsAnswered(steps[0]);
      assert forall i :: 0 <= i < |steps| - 1 ==> steps[1..][i] == steps[i + 1];
      UndoingLeavesNothing(Next(s, steps[0]), steps[1..]);
    }
  }

  /**
   An installation leaves a failed release behind: if the calls after it are answered, the
   reconciliation ends with an error and with an empty history.
   */
  lemma PartialInstallIsUndone(s: System, steps: seq<Step>)
    requires s.at.Installing? && s.store == []
    requires IsRun(Next(s, Act(PartialFailure)), steps) && AllAnswered(steps)
    ensures Next(s, Act(PartialFailure)).store == [Release(1, Some(HasFailed), s.at.o.manifest)]
    ensures var t := Final(Next(s, Act(PartialFailure)), steps);
      t.at.Ended? ==> t.at == Ended(Erred) && t.store == []
  {
    UndoingLeavesNothing(Next(s, Act(PartialFailure)), steps);
  }

  /** The half-made release stays exactly when the call that uninstalls it is lost or fails too. */
  lemma UninstallingUndoesExactlyWhen(s: System, fault: Fault)
    requires s.at.UndoingInstall? && s.store != []
    ensures Next(s, Act(fault)).at.Reporting?
    ensures Next(s, Act(fault)).store == [] <==> !fault.RequestLost? && !fault.PartialFailure?
  {
  }

  // ----------------------------------------------------------------- upgrades

  /** The last release of the history is the deployed one and has manifest m. */
  predicate EndsDeployed(h: seq<Release>, m: nat) {
    && h != [] && h[|h| - 1].manifest == m && h[|h| - 1].status == Some(IsDeployed)
    && LatestDeployed(h) == Some(h[|h| - 1])
  }

  /** What a rollback to the deployed release has to start from. */
  predicate StillDeployed(h: seq<Release>, m: nat) {
    LatestDeployed(h).Some? && LatestDeployed(h).value.manifest == m
  }

  predicate UpgradeIsBeingUndone(s: System, m: nat) {
    || (s.at.UndoingUpgrade? && StillDeployed(s.store, m))
    || (s.at.Reporting? && EndsDeployed(s.store, m))
    || (s.at == Ended(Erred) && EndsDeployed(s.store, m))
  }

  lemma RecordEndsDeployed(h: seq<Release>, m: nat)
    ensures EndsDeployed(Record(h, IsDeployed, m), m)
  {
  }

  lemma FailedReleaseIsPassedOver(h: seq<Release>, m: nat)
    ensures LatestDeployed(Record(h, HasFailed, m)) == LatestDeployed(h)
  {
    assert Record(h, HasFailed, m)[..|h|] == h;
  }

  lemma {:induction false} RollbackRestores(s: System, steps: seq<Step>, m: nat)
    requires UpgradeIsBeingUndone(s, m) && IsRun(s, steps) && AllAnswered(steps)
    ensures UpgradeIsBeingUndone(Final(s, steps), m)
    decreases |steps|
  {
    if steps != [] {
      assert IsAnswered(steps[0]);
      assert forall i :: 0 <= i < |steps| - 1 ==> steps[1..][i] == steps[i + 1];
      if steps[0].Act? && s.at.UndoingUpgrade? {
        RecordEndsDeployed(Supersede(s.store), m);
      }
      RollbackRestores(Next(s, steps[0]), steps[1..], m);
    }
  }

  /**
   An upgrade fails half way: if the calls after it are answered, the reconciliation ends
   with an error and the manifest that was deployed before is deployed again, by the last
   release of the history.
   */
  lemma PartialUpgradeIsUndone(s: System, steps: seq<Step>)
    requires s.at.Upgrading? && SyncIsRight(s.store, s.at)
    requires IsRun(Next(s, Act(PartialFailure)), steps) && AllAnswered(steps)
    ensures var h := Next(s, Act(PartialFailure)).store;
      h == s.store + [Release(NextRelease(s.store), Some(HasFailed), s.at.o.manifest)]
    ensures var t := Final(Next(s, Act(PartialFailure)), steps);
      t.at.Ended? ==> t.at == Ended(Erred) && EndsDeployed(t.store, LatestDeployed(s.store).value.manifest)
  {
    var m := LatestDeployed(s.store).value.manifest;
    FailedReleaseIsPassedOver(s.store, s.at.o.manifest);
    RollbackRestores(Next(s, Act(PartialFailure)), steps, m);
  }
}
