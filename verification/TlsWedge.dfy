/**
 The half-made CA: which states no call ever gets out of, and which steps lead there.
 */
module TlsWedge {
  import opened Wrappers
  import opened Tls
  import opened TlsCluster

  // ----------------------------------------------------------- how it comes about

  /** Nobody, or nobody but id, is about to create the ConfigMap. */
  predicate NobodyCompletes(a: Assets) {
    forall i :: i in a.callers ==> !a.callers[i].at.CreatingCaMap?
  }

  predicate NobodyElseCompletes(a: Assets, id: nat) {
    forall i :: i in a.callers && i != id ==> !a.callers[i].at.CreatingCaMap?
  }

  /** The last call before its ConfigMap is killed, or its request is lost. */
  predicate StopsBeforeTheMap(a: Assets, step: Step) {
    (step.Kill? || (step.Act? && step.fault == RequestLost)) &&
    step.id in a.callers && a.callers[step.id].at.CreatingCaMap? &&
    NobodyElseCompletes(a, step.id) && a.Ca() !in a.maps
  }

  /** The Secret is created and the call is not told. */
  predicate LosesTheReplyToTheSecret(a: Assets, step: Step) {
    step.Act? && step.fault == ReplyLost && step.id in a.callers && a.callers[step.id].at.CreatingCaSecret? &&
    a.Ca() !in a.secrets && NobodyElseCompletes(a, step.id)
  }

  lemma KillWedgesExactlyWhen(a: Assets, id: nat)
    requires Inv(a) && !Wedged(a) && Enabled(a, Kill(id))
    ensures Wedged(Next(a, Kill(id))) <==> StopsBeforeTheMap(a, Kill(id))
  {
    var b := Next(a, Kill(id));
    assert CallerIsRight(a, a.callers[id]);
    if NobodyElseCompletes(a, id) {
      assert NobodyCompletes(b);
      assert NobodyCompletes(a) <==> !a.callers[id].at.CreatingCaMap?;
    } else {
      var i :| i in a.callers && i != id && a.callers[i].at.CreatingCaMap?;
      assert b.callers[i] == a.callers[i];
    }
  }

  lemma CallDoesNotWedge(a: Assets, id: nat, certName: string)
    requires !Wedged(a) && Enabled(a, Call(id, certName))
    ensures !Wedged(Next(a, Call(id, certName)))
  {
    var b := Next(a, Call(id, certName));
    if a.Ca() in a.secrets && a.Ca() !in a.maps {
      var i :| i in a.callers && a.callers[i].at.CreatingCaMap?;
      assert b.callers[i] == a.callers[i];
    }
  }

  lemma ActWedgesExactlyWhen(a: Assets, id: nat, fault: Fault)
    requires Inv(a) && !Wedged(a) && Enabled(a, Act(id, fault))
    ensures Wedged(Next(a, Act(id, fault))) <==>
            StopsBeforeTheMap(a, Act(id, fault)) || LosesTheReplyToTheSecret(a, Act(id, fault))
  {
    var b := Next(a, Act(id, fault));
    assert CallerIsRight(a, a.callers[id]);
    if NobodyElseCompletes(a, id) {
      assert NobodyCompletes(b) <==> !b.callers[id].at.CreatingCaMap?;
      assert NobodyCompletes(a) <==> !a.callers[id].at.CreatingCaMap?;
    } else {
      var i :| i in a.callers && i != id && a.callers[i].at.CreatingCaMap?;
      assert b.callers[i] == a.callers[i];
    }
  }

  /** The steps that leave a half-made CA are these, and no others. */
  lemma StepWedgesExactlyWhen(a: Assets, step: Step)
    requires Inv(a) && !Wedged(a) && Enabled(a, step)
    ensures Wedged(Next(a, step)) <==> StopsBeforeTheMap(a, step) || LosesTheReplyToTheSecret(a, step)
  {
    match step {
      case Call(id, certName) => CallDoesNotWedge(a, id, certName);
      case Kill(id) => KillWedgesExactlyWhen(a, id);
      case Act(id, fault) => ActWedgesExactlyWhen(a, id, fault);
    }
  }

  // --------------------------------------------------------- what it costs: all

  lemma {:induction false} AboveAll(ids: set<nat>) returns (n: nat)
    ensures forall i :: i in ids ==> i < n
  {
    n := 0;
    if ids != {} {
      var i :| i in ids;
      n := AboveAll(ids - {i});
      n := if i < n then n else i + 1;
      assert ids == (ids - {i}) + {i};
    }
  }

  lemma {:induction false} OneMoreStep(a: Assets, steps: seq<Step>, step: Step) returns (more: seq<Step>)
    requires IsRun(a, steps) && Enabled(Final(a, steps), step)
    ensures more == steps + [step] && IsRun(a, more) && Final(a, more) == Next(Final(a, steps), step)
    decreases |steps|
  {
    more := steps + [step];
    if steps == [] {
      assert more[1..] == [] && IsRun(Next(a, step), []);
    } else {
      var rest := OneMoreStep(Next(a, steps[0]), steps[1..], step);
      assert more[1..] == rest;
    }
  }

  /** Caller id works without a fault for n steps. */
  predicate CanWork(a: Assets, id: nat, n: nat)
    decreases n
  {
    n == 0 || (Enabled(a, Act(id, Reliable)) && CanWork(Next(a, Act(id, Reliable)), id, n - 1))
  }

  function Worked(a: Assets, id: nat, n: nat): Assets
    requires CanWork(a, id, n)
    decreases n
  {
    if n == 0 then a else Worked(Next(a, Act(id, Reliable)), id, n - 1)
  }

  lemma {:induction false} Works(a: Assets, steps: seq<Step>, id: nat, n: nat) returns (more: seq<Step>)
    requires IsRun(a, steps) && CanWork(Final(a, steps), id, n)
    ensures IsRun(a, more) && Final(a, more) == Worked(Final(a, steps), id, n)
    decreases n
  {
    more := steps;
    if n > 0 {
      var next := OneMoreStep(a, steps, Act(id, Reliable));
      more := Works(a, next, id, n - 1);
    }
  }

  function At(a: Assets, id: nat, l: Local): Assets
    requires id in a.callers
  {
    a.(callers := a.callers[id := a.callers[id].(at := l)])
  }

  function Get(secrets: map<string, Secret>, n: string): Option<Secret> {
    if n in secrets then Some(secrets[n]) else None
  }

  function CertOf(a: Assets): Option<Cert> {
    if a.Ca() in a.maps then Some(a.maps[a.Ca()]) else None
  }

  predicate IsCaller(a: Assets, id: nat) {
    id in a.callers && a.callers[id].names.ca == a.Ca()
  }

  lemma ReadsApp(a: Assets, id: nat)
    requires IsCaller(a, id)
    ensures var b := At(a, id, ReadingApp);
      && Enabled(b, Act(id, Reliable))
      && Next(b, Act(id, Reliable)) == At(a, id, ReadingMap(Get(a.secrets, a.callers[id].names.app)))
  {
  }

  lemma ReadsMap(a: Assets, id: nat, app: Option<Secret>)
    requires IsCaller(a, id)
    ensures var b := At(a, id, ReadingMap(app));
      Enabled(b, Act(id, Reliable)) && Next(b, Act(id, Reliable)) == At(a, id, ReadingCa(app, CertOf(a)))
  {
  }

  /** Three answered reads bring a call to its decision. */
  lemma Reads(a: Assets, id: nat)
    requires IsCaller(a, id)
    ensures CanWork(At(a, id, ReadingApp), id, 3)
    ensures Worked(At(a, id, ReadingApp), id, 3) ==
            At(a, id, Decide(Get(a.secrets, a.callers[id].names.app), CertOf(a), Get(a.secrets, a.Ca())))
  {
    var app := Get(a.secrets, a.callers[id].names.app);
    ReadsMap(a, id, app);
    ReadsApp(a, id);
  }

  /**
   Where there is an application secret already, or one half of a CA, whoever put it there,
   a call is over after its three reads and leaves the cluster as it was: it returns what it
   found if that is complete, and otherwise says what is missing.
   */
  lemma BesideOldAssetsNothingIsMade(a: Assets, id: nat)
    requires IsCaller(a, id) && a.callers[id].at == ReadingApp
    requires var half := (a.Ca() in a.secrets) != (a.Ca() in a.maps); half || a.callers[id].names.app in a.secrets
    ensures CanWork(a, id, 3)
    ensures Worked(a, id, 3) ==
            At(a, id, if a.Ca() in a.secrets && a.Ca() in a.maps
                      then Returned(a.secrets[a.callers[id].names.app], a.maps[a.Ca()], a.secrets[a.Ca()])
                      else Failed(if a.Ca() in a.secrets || a.Ca() in a.maps then CaHalfMissing else CANotFound))
  {
    assert a == At(a, id, ReadingApp);
    Reads(a, id);
  }

  /** A call with the CA in hand makes its certificate. */
  lemma Certifies(a: Assets, id: nat)
    requires id in a.callers && a.callers[id].at.MakingKey? && a.callers[id].names.app !in a.secrets
    ensures CanWork(a, id, 2) && id in Worked(a, id, 2).callers && Worked(a, id, 2).callers[id].at.Returned?
  {
    var a1 := Next(a, Act(id, Reliable));
    assert a1.callers[id].at.CreatingApp? && a1.secrets == a.secrets;
    var a2 := Next(a1, Act(id, Reliable));
    assert CanWork(a2, id, 0) && CanWork(a1, id, 1) && Worked(a2, id, 0) == a2 && Worked(a1, id, 1) == a2;
  }

  lemma CreatesCaMap(a: Assets, id: nat, k: nat)
    requires id in a.callers && a.callers[id].at == CreatingCaMap(k) && a.callers[id].names.ca == a.Ca()
    requires a.Ca() !in a.maps
    ensures var b := Next(a, Act(id, Reliable));
      id in b.callers && b.callers[id] == a.callers[id].(at := MakingKey(Cert(k, k), CaSecret(k))) && b.secrets == a.secrets
  {
  }

  /** From nothing to the CA in hand. */
  lemma MakesCa(a: Assets, id: nat)
    requires id in a.callers && a.callers[id].at == MakingCa && a.callers[id].names.ca == a.Ca()
    requires a.callers[id].names.app != a.Ca()
    requires a.Ca() !in a.secrets && a.Ca() !in a.maps && a.callers[id].names.app !in a.secrets
    ensures CanWork(a, id, 3)
    ensures var b := Worked(a, id, 3);
      id in b.callers && b.callers[id].at.MakingKey? && b.callers[id].names.app !in b.secrets
  {
    var k := a.nextKey;
    var a1 := At(a, id, CreatingCaSecret(k)).(nextKey := k + 1);
    var a2 := At(a1, id, CreatingCaMap(k)).(secrets := a1.secrets[a.Ca() := CaSecret(k)]);
    CreatesCaMap(a2, id, k);
    assert Next(a1, Act(id, Reliable)) == a2 && CanWork(a2, id, 1) && CanWork(a1, id, 2);
    assert Next(a, Act(id, Reliable)) == a1;
  }

  /** Some run from here brings some call to its end with assets in hand. */
  ghost predicate SomeCallReturns(a: Assets) {
    exists steps, id :: IsRun(a, steps) && id in Final(a, steps).callers && Final(a, steps).callers[id].at.Returned?
  }

  /** A new call gets through where the CA is whole, or where there is none. */
  lemma NewCallReturns(a: Assets, before: seq<Step>)
    requires Inv(a) && IsRun(a, before)
    requires var b := Final(a, before); b.Ca() in b.secrets <==> b.Ca() in b.maps
    ensures SomeCallReturns(a)
  {
    RunKeepsInv(a, before);
    var b := Final(a, before);
    var id := AboveAll(b.callers.Keys);
    var steps := OneMoreStep(a, before, Call(id, "x"));
    RunKeepsInv(a, steps);
    var c := Final(a, steps);
    AppNameIsCaNameExactlyFor(c.kind, c.name, "x");
    assert c == At(c, id, ReadingApp);
    Reads(c, id);
    steps := Works(a, steps, id, 3);
    var d := Final(a, steps);
    if !d.callers[id].at.Returned? {
      if d.callers[id].at.MakingCa? {
        MakesCa(d, id);
        steps := Works(a, steps, id, 3);
      }
      Certifies(Final(a, steps), id);
      steps := Works(a, steps, id, 2);
    }
    assert IsRun(a, steps) && Final(a, steps).callers[id].at.Returned?;
  }

  /** The call that is about to create the ConfigMap completes the CA. */
  lemma CompletionReturns(a: Assets, i: nat)
    requires Inv(a) && a.Ca() in a.secrets && a.Ca() !in a.maps && i in a.callers && a.callers[i].at.CreatingCaMap?
    ensures SomeCallReturns(a)
  {
    assert CallerIsRight(a, a.callers[i]);
    var steps := OneMoreStep(a, [], Act(i, Reliable));
    NewCallReturns(a, steps);
  }

  /** A half-made CA that nobody completes is exactly what keeps every call from ever returning. */
  lemma NoCallReturnsExactlyWhenWedged(a: Assets)
    requires Inv(a)
    ensures Wedged(a) <==> !SomeCallReturns(a)
  {
    if Wedged(a) {
      forall steps, id | IsRun(a, steps) && id in Final(a, steps).callers
        ensures !Final(a, steps).callers[id].at.Returned?
      {
        WedgedForEver(a, steps);
      }
    } else if a.Ca() in a.secrets && a.Ca() !in a.maps {
      var i :| i in a.callers && a.callers[i].at.CreatingCaMap?;
      CompletionReturns(a, i);
    } else {
      NewCallReturns(a, []);
    }
  }

  // ------------------------------------------------------------- it is reachable

  /** Every first call that is killed before its second CA write gets there. */
  lemma WedgeIsReachable(a: Assets, certName: string)
    requires Initial(a) && certName != "" && certName != "ca"
    ensures exists steps :: IsRun(a, steps) && Wedged(Final(a, steps))
  {
    AppNameIsCaNameExactlyFor(a.kind, a.name, certName);
    var steps := OneMoreStep(a, [], Call(0, certName));
    var b := Final(a, steps);
    assert b == At(b, 0, ReadingApp);
    Reads(b, 0);
    steps := Works(a, steps, 0, 3);
    steps := CreatesSecretInRun(a, steps, 0);
    RunKeepsInv(a, steps);
    b := Final(a, steps);
    assert b.callers.Keys == {0};
    StepWedgesExactlyWhen(b, Kill(0));
    steps := OneMoreStep(a, steps, Kill(0));
  }

  lemma CreatesSecretInRun(a: Assets, before: seq<Step>, id: nat) returns (steps: seq<Step>)
    requires IsRun(a, before)
    requires var b := Final(a, before);
      && id in b.callers && b.callers[id].at == MakingCa && b.callers[id].names.ca == b.Ca()
      && b.Ca() !in b.secrets && b.Ca() !in b.maps
    ensures IsRun(a, steps)
    ensures var b, c := Final(a, before), Final(a, steps);
      && c.callers.Keys == b.callers.Keys && c.callers[id].at.CreatingCaMap? && c.Ca() in c.secrets
      && c.maps == b.maps && c.Ca() == b.Ca()
  {
    steps := OneMoreStep(a, before, Act(id, Reliable));
    steps := OneMoreStep(a, steps, Act(id, Reliable));
  }
}
