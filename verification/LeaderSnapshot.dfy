/**
 What reading the lock only once costs: a candidate deletes the evicted owner of the lock
 that it saw at its start, and of no later one. So the lock of an evicted leader can stay
 for ever although candidates are waiting for it (operator-sdk/pkg/leader/leader.go).
 */
module LeaderSnapshot {
  import opened Wrappers
  import opened Leader
  import opened LeaderCluster
  import opened LeaderStaleEviction

  /** The lock belongs to the pod of o, which has been evicted. */
  predicate HeldByEvicted(c: Cluster, o: OwnerRef) {
    o.kind == "Pod" && c.lock == Some([o]) && Owns(c, o) && IsPodEvicted(c.pods[o.name])
  }

  predicate Names(seen: seq<OwnerRef>, name: string) {
    OnlyPod(seen) == Some(name)
  }

  /** The candidate saw the pod of that name as the owner of the lock, or has not looked yet. */
  predicate WillInspect(l: Local, name: string) {
    if l.InLoop() then Names(l.attempt.seen, name) else !l.Ended()
  }

  /** Nobody looks at a pod, or deletes one, but the owner of the lock that it saw. */
  predicate KnowsWhom(l: Local) {
    && (l.Inspecting? ==> Names(l.attempt.seen, l.name))
    && (l.Evicting? ==> Names(l.attempt.seen, l.target.name))
  }

  predicate AllKnowWhom(c: Cluster) {
    forall u :: u in c.processes ==> KnowsWhom(c.processes[u].at)
  }

  lemma NextKeepsWhom(c: Cluster, step: Step)
    requires Inv(c) && AllKnowWhom(c) && Enabled(c, step)
    ensures AllKnowWhom(Next(c, step))
  {
    var c' := Next(c, step);
    forall u | u in c'.processes ensures KnowsWhom(c'.processes[u].at) {
      if u in c.processes {
        assert KnowsWhom(c.processes[u].at);
      }
    }
  }

  /** What every run keeps. */
  predicate Sound(c: Cluster) {
    Inv(c) && UidsAreUnique(c) && AllKnowWhom(c)
  }

  lemma NextKeepsSound(c: Cluster, step: Step)
    requires Sound(c) && Enabled(c, step)
    ensures Sound(Next(c, step))
  {
    NextKeepsInv(c, step);
    NextKeepsUids(c, step);
    NextKeepsWhom(c, step);
  }

  lemma {:induction false} RunKeepsSound(c: Cluster, steps: seq<Step>)
    requires Sound(c) && IsRun(c, steps)
    ensures Sound(Final(c, steps))
    decreases |steps|
  {
    if steps != [] {
      NextKeepsSound(c, steps[0]);
      RunKeepsSound(Next(c, steps[0]), steps[1..]);
    }
  }

  // ------------------------------------------------------ left to the candidates

  /** No container starts, and only a candidate marks the pod of that name for deletion. */
  predicate IsLeft(c: Cluster, step: Step, name: string) {
    && !step.StartProcess? && step != MarkPodDeleted(name)
    && (step == RemovePod(name) ==> name in c.pods && c.pods[name].deleting)
  }

  predicate AllAreLeft(c: Cluster, steps: seq<Step>, name: string)
    requires IsRun(c, steps)
    decreases |steps|
  {
    steps == [] || (IsLeft(c, steps[0], name) && AllAreLeft(Next(c, steps[0]), steps[1..], name))
  }

  /** The candidates that are running can get rid of the lock without help. */
  ghost predicate CanFree(c: Cluster, o: OwnerRef) {
    exists steps :: IsRun(c, steps) && AllAreLeft(c, steps, o.name) && Final(c, steps).lock == None
  }

  // --------------------------------------------------------------- how it is freed

  /** How far a candidate is from the eviction delete. */
  function Distance(l: Local): nat {
    match l
    case Starting => 7
    case Connecting => 6
    case Identifying => 5
    case Checking(_) => 4
    case Waiting(_) => 3
    case Trying(_) => 2
    case Inspecting(_, _) => 1
    case _ => 0
  }

  lemma DeletedIsFreed(c: Cluster, o: OwnerRef) returns (steps: seq<Step>)
    requires Sound(c) && HeldByEvicted(c, o) && c.pods[o.name].deleting
    ensures IsRun(c, steps) && AllAreLeft(c, steps, o.name) && Final(c, steps).lock == None
  {
    forall u | u in c.processes ensures u != o.uid {
      assert HasPod(c, c.processes[u]);
    }
    var d := Next(c, RemovePod(o.name));
    steps := [RemovePod(o.name), CollectLock];
    assert steps[1..] == [CollectLock] && [CollectLock][1..] == [];
    assert IsRun(Next(d, CollectLock), []) && IsRun(d, [CollectLock]);
  }

  /** One answered call brings such a candidate nearer, and nothing else changes. */
  lemma ComesNearer(c: Cluster, o: OwnerRef, u: nat)
    requires Sound(c) && HeldByEvicted(c, o) && !c.pods[o.name].deleting
    requires u in c.processes && WillInspect(c.processes[u].at, o.name) && !c.processes[u].at.Evicting?
    ensures Enabled(c, Act(u, Reliable))
    ensures var d := Next(c, Act(u, Reliable));
      && HeldByEvicted(d, o) && u in d.processes && WillInspect(d.processes[u].at, o.name)
      && Distance(d.processes[u].at) < Distance(c.processes[u].at)
  {
    var p := c.processes[u];
    assert HasPod(c, p) && KnowsItself(p) && KnowsWhom(p.at);
  }

  lemma EvictionMarks(c: Cluster, o: OwnerRef, u: nat)
    requires Sound(c) && HeldByEvicted(c, o)
    requires u in c.processes && WillInspect(c.processes[u].at, o.name) && c.processes[u].at.Evicting?
    ensures Enabled(c, Act(u, Reliable))
    ensures var d := Next(c, Act(u, Reliable)); HeldByEvicted(d, o) && d.pods[o.name].deleting
  {
    assert KnowsWhom(c.processes[u].at);
  }

  lemma {:induction false} NamedIsFreed(c: Cluster, o: OwnerRef, u: nat) returns (steps: seq<Step>)
    requires Sound(c) && HeldByEvicted(c, o)
    requires u in c.processes && WillInspect(c.processes[u].at, o.name)
    ensures IsRun(c, steps) && AllAreLeft(c, steps, o.name) && Final(c, steps).lock == None
    decreases Distance(c.processes[u].at)
  {
    var step := Act(u, Reliable);
    if c.pods[o.name].deleting {
      steps := DeletedIsFreed(c, o);
    } else if c.processes[u].at.Evicting? {
      EvictionMarks(c, o, u);
      NextKeepsSound(c, step);
      var rest := DeletedIsFreed(Next(c, step), o);
      steps := OneMore(c, o, step, rest);
    } else {
      ComesNearer(c, o, u);
      NextKeepsSound(c, step);
      var rest := NamedIsFreed(Next(c, step), o, u);
      steps := OneMore(c, o, step, rest);
    }
  }

  lemma OneMore(c: Cluster, o: OwnerRef, step: Step, rest: seq<Step>) returns (steps: seq<Step>)
    requires Enabled(c, step) && IsLeft(c, step, o.name)
    requires IsRun(Next(c, step), rest) && AllAreLeft(Next(c, step), rest, o.name)
    ensures IsRun(c, steps) && AllAreLeft(c, steps, o.name) && Final(c, steps) == Final(Next(c, step), rest)
  {
    steps := [step] + rest;
    assert steps[1..] == rest;
  }

  // --------------------------------------------------------------- when it is not

  /** Nobody who is running looks at the pod of o, or deletes it. */
  predicate IsIgnored(c: Cluster, o: OwnerRef) {
    && HeldByEvicted(c, o) && !c.pods[o.name].deleting
    && forall u :: u in c.processes ==> !WillInspect(c.processes[u].at, o.name)
  }

  lemma StaysIgnorant(l: Local, r: Response, name: string)
    requires !l.Ended() && !WillInspect(l, name)
    ensures !WillInspect(Resume(l, r), name)
  {
  }

  lemma ServeKeepsHolder(c: Cluster, o: OwnerRef, own: string, l: Local)
    requires HeldByEvicted(c, o) && l.InLoop() && KnowsWhom(l) && !WillInspect(l, o.name)
    ensures var after := Serve(c, own, Ask(l)).after;
      && after.lock == c.lock && after.processes == c.processes
      && o.name in after.pods && after.pods[o.name] == c.pods[o.name]
  {
  }

  lemma ActKeepsIgnored(c: Cluster, o: OwnerRef, u: nat, fault: Fault)
    requires Sound(c) && IsIgnored(c, o) && Enabled(c, Act(u, fault))
    ensures IsIgnored(Next(c, Act(u, fault)), o)
  {
    var p, c' := c.processes[u], Next(c, Act(u, fault));
    assert KnowsWhom(p.at) && p.at.InLoop();
    var served := Serve(c, p.name, Ask(p.at));
    ServeKeepsHolder(c, o, p.name, p.at);
    StaysIgnorant(p.at, served.response, o.name);
    StaysIgnorant(p.at, Failure, o.name);
    StaysIgnorant(p.at, Cancelled, o.name);
  }

  lemma {:induction false} RunKeepsIgnored(c: Cluster, o: OwnerRef, steps: seq<Step>)
    requires Sound(c) && IsIgnored(c, o) && IsRun(c, steps) && AllAreLeft(c, steps, o.name)
    ensures IsIgnored(Final(c, steps), o)
    decreases |steps|
  {
    if steps != [] {
      var step := steps[0];
      NextKeepsSound(c, step);
      if step.Act? {
        ActKeepsIgnored(c, o, step.uid, step.fault);
      } else if step.CollectLock? {
        OwnedLockIsNotCollected(c, o);
      }
      RunKeepsIgnored(Next(c, step), o, steps[1..]);
    }
  }

  /**
   Without a restart and without help the candidates can free the lock of an evicted
   leader exactly when its pod is already marked for deletion, or one of them has yet to
   read the lock or had read it when it was that leader's.
   */
  lemma CanFreeExactlyWhen(c: Cluster, o: OwnerRef)
    requires Sound(c) && HeldByEvicted(c, o)
    ensures CanFree(c, o) <==>
            c.pods[o.name].deleting || exists u :: u in c.processes && WillInspect(c.processes[u].at, o.name)
  {
    if c.pods[o.name].deleting {
      var steps := DeletedIsFreed(c, o);
    } else if u :| u in c.processes && WillInspect(c.processes[u].at, o.name) {
      var steps := NamedIsFreed(c, o, u);
    } else {
      forall steps | IsRun(c, steps) && AllAreLeft(c, steps, o.name) ensures Final(c, steps).lock != None {
        RunKeepsIgnored(c, o, steps);
      }
    }
  }

  // ------------------------------------------------------------- it is reachable

  /** A candidate that begins before there is a lock. */
  lemma BeginsEarly(c: Cluster, name: string) returns (steps: seq<Step>)
    requires name in c.pods && c.pods[name].name == name && c.pods[name].phase != "Failed"
    requires c.pods[name].uid !in c.processes && c.lock == None
    ensures IsRun(c, steps)
    ensures var u := c.pods[name].uid;
      Final(c, steps) == c.(processes := c.processes[u := Process(name, u, Trying(Attempt(OwnerRef("Pod", name, u), [], 1)))])
  {
    var u := c.pods[name].uid;
    var me := OwnerRef("Pod", name, u);
    OneStep(c, StartProcess(name));
    steps := [StartProcess(name)];
    var c1 := Next(c, StartProcess(name));
    ReachesTheLock(c1, u);
    RunsConcatenate(c, steps, Acts(u, 3));
    steps := steps + Acts(u, 3);
    var c2 := MovedTo(c1, u, Checking(me));
    Moves(c2, u, NotFound, c2);
    MovedAgain(c1, u, Checking(me), Trying(Attempt(me, [], 1)));
    OneStep(c2, Act(u, Reliable));
    RunsConcatenate(c, steps, [Act(u, Reliable)]);
    steps := steps + [Act(u, Reliable)];
  }

  /** It goes on trying, and never looks at the leader that comes next. */
  lemma OldSnapshotKeepsTheLock()
    ensures exists c: Cluster, steps: seq<Step> ::
      && Initial(c) && IsRun(c, steps) && HeldByEvicted(Final(c, steps), HOLDER)
      && 1 in Final(c, steps).processes && Final(c, steps).processes[1].at.InLoop()
      && !CanFree(Final(c, steps), HOLDER)
  {
    var a, b := Pod("a", 0, "Running", "", false), Pod("b", 1, "Running", "", false);
    var c := Cluster(map["a" := a, "b" := b], None, map[], 2);
    var before := BeginsEarly(c, "b");
    var evicted := HolderIsEvicted(Final(c, before));
    RunsConcatenate(c, before, evicted);
    RunKeepsSound(c, before + evicted);
    CanFreeExactlyWhen(Final(c, before + evicted), HOLDER);
  }
}
