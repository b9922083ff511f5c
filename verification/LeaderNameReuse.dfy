/**
 Why a pod name must not be used again while a lock holds it: the check for an earlier
 lock of one's own compares owner names, not uids.
 */
module LeaderNameReuse {
  import opened Wrappers
  import opened Leader
  import opened LeaderCluster
  import opened LeaderStaleEviction

  /** From here some run ends with two leaders. */
  ghost predicate TwoCanLead(c: Cluster) {
    exists steps, u, v :: IsRun(c, steps) && u != v && IsLeader(Final(c, steps), u) && IsLeader(Final(c, steps), v)
  }

  /** The uids in a lock were given out before. */
  predicate OwnersAreOld(c: Cluster) {
    c.lock.Some? ==> forall i :: 0 <= i < |c.lock.value| ==> c.lock.value[i].uid < c.nextUid
  }

  // --------------------------------------------------------------- the namesake

  function Started(c: Cluster, name: string): Cluster
    requires name in c.pods
  {
    c.(processes := c.processes[c.pods[name].uid := Process(name, c.pods[name].uid, Starting)])
  }

  /** A process in a pod named by the lock reaches the lock and leads. */
  lemma NamesakeLeads(c: Cluster, name: string) returns (steps: seq<Step>)
    requires name in c.pods && c.pods[name].name == name && c.pods[name].phase != "Failed"
    requires c.pods[name].uid !in c.processes && NamedByLock(c, name)
    ensures IsRun(c, steps)
    ensures var u := c.pods[name].uid;
      Final(c, steps) == MovedTo(Started(c, name), u, Leading(OwnerRef("Pod", name, u)))
  {
    var u := c.pods[name].uid;
    steps := [StartProcess(name)];
    var c1 := Started(c, name);
    ReachesTheLock(c1, u);
    RunsConcatenate(c, steps, Acts(u, 3));
    steps := steps + Acts(u, 3);
    RunsConcatenate(c, steps, [Act(u, Reliable)]);
    steps := steps + [Act(u, Reliable)];
  }

  // -------------------------------------------------------------- a second leader

  lemma {:induction false} LongerThanAll(used: set<string>) returns (n: nat)
    ensures forall s :: s in used ==> |s| < n
  {
    n := 0;
    if used != {} {
      var s :| s in used;
      n := LongerThanAll(used - {s});
      n := if |s| < n then n else |s| + 1;
    }
  }

  lemma FreshName(used: set<string>) returns (name: string)
    ensures name !in used
  {
    var n := LongerThanAll(used);
    name := seq(n, i => 'a');
  }

  /** Without a lock a new pod of a fresh name is elected, whoever else believes to lead. */
  lemma NewcomerLeads(c: Cluster, name: string) returns (steps: seq<Step>)
    requires c.lock == None && name !in c.pods && c.nextUid !in c.processes
    ensures IsRun(c, steps) && IsLeader(Final(c, steps), c.nextUid)
    ensures forall u :: u in c.processes && IsLeader(c, u) ==> IsLeader(Final(c, steps), u)
  {
    var u := c.nextUid;
    var me := OwnerRef("Pod", name, u);
    OneStep(c, CreatePod(name));
    steps := [CreatePod(name)];
    var c1 := WithNewPod(c, name);
    RunsConcatenate(c, steps, [StartProcess(name)]);
    steps := steps + [StartProcess(name)];
    var c2 := Started(c1, name);
    ReachesTheLock(c2, u);
    RunsConcatenate(c, steps, Acts(u, 3));
    steps := steps + Acts(u, 3);
    IsElected(MovedTo(c2, u, Checking(me)), u, me);
    RunsConcatenate(c, steps, Acts(u, 2));
    steps := steps + Acts(u, 2);
  }

  /** The collector takes the lock away from the namesake. */
  lemma LockIsTaken(c: Cluster, name: string, e: Cluster)
    requires Inv(c) && OwnersAreOld(c) && name !in c.pods && NamedByLock(c, name)
    requires e.pods == WithNewPod(c, name).pods && e.lock == c.lock
    ensures Enabled(e, CollectLock)
  {
    forall i | 0 <= i < |c.lock.value| && c.lock.value[i].kind == "Pod" ensures !Owns(e, c.lock.value[i]) {
      assert c.lock.value[i].name !in c.pods;
    }
  }

  lemma TwoLeadAfterReuse(c: Cluster, name: string)
    requires Inv(c) && UidsAreUnique(c) && OwnersAreOld(c) && name !in c.pods && NamedByLock(c, name)
    ensures TwoCanLead(WithNewPod(c, name))
  {
    var e, n := WithNewPod(c, name), c.nextUid;
    assert forall u :: u in c.processes ==> HasPod(c, c.processes[u]) && u < n;
    var steps := NamesakeLeads(e, name);
    var f := Final(e, steps);
    LockIsTaken(c, name, f);
    OneStep(f, CollectLock);
    RunsConcatenate(e, steps, [CollectLock]);
    steps := steps + [CollectLock];
    var g := Final(e, steps);
    assert g.nextUid == n + 1 && IsLeader(g, n);
    var unused := FreshName(g.pods.Keys);
    var more := NewcomerLeads(g, unused);
    RunsConcatenate(e, steps, more);
    assert IsRun(e, steps + more) && IsLeader(Final(e, steps + more), n + 1);
  }

  lemma OneLeadsOtherwise(c: Cluster, name: string)
    requires Inv(c) && name !in c.pods && !NamedByLock(c, name)
    ensures !TwoCanLead(WithNewPod(c, name))
  {
    NextKeepsInv(c, CreatePod(name));
    var e := WithNewPod(c, name);
    assert e == Next(c, CreatePod(name));
    forall steps, u, v | IsRun(e, steps) && IsLeader(Final(e, steps), u) && IsLeader(Final(e, steps), v)
      ensures u == v
    {
      RunKeepsInv(e, steps);
    }
  }

  /**
   In every state that runs can reach, a new pod makes two leaders possible exactly when
   the existing lock holds its name.
   */
  lemma NameReuseGivesTwoLeadersExactlyWhen(c: Cluster, name: string)
    requires Inv(c) && UidsAreUnique(c) && OwnersAreOld(c) && name !in c.pods
    ensures TwoCanLead(WithNewPod(c, name)) <==> NamedByLock(c, name)
  {
    if NamedByLock(c, name) {
      TwoLeadAfterReuse(c, name);
    } else {
      OneLeadsOtherwise(c, name);
    }
  }

  // ------------------------------------------------------------- it is reachable

  /** Every run keeps the uids in the lock old. */
  lemma {:induction false} RunKeepsOwnersOld(c: Cluster, steps: seq<Step>)
    requires Inv(c) && UidsAreUnique(c) && OwnersAreOld(c) && IsRun(c, steps)
    ensures UidsAreUnique(Final(c, steps)) && OwnersAreOld(Final(c, steps))
    decreases |steps|
  {
    if steps != [] {
      var step := steps[0];
      NextKeepsInv(c, step);
      NextKeepsUids(c, step);
      if step.Act? {
        ActEffect(c, step.uid, step.fault);
        assert HasPod(c, c.processes[step.uid]);
      }
      RunKeepsOwnersOld(Next(c, step), steps[1..]);
    }
  }

  /** A lock that outlives its pod is reached, so the assumption on names is needed. */
  lemma NameReuseGivesTwoLeaders()
    ensures exists c: Cluster, steps: seq<Step>, name: string ::
      && Initial(c) && IsRun(c, steps) && name !in Final(c, steps).pods && NamedByLock(Final(c, steps), name)
      && TwoCanLead(WithNewPod(Final(c, steps), name))
  {
    var c, steps := LeaderIsEvicted();
    OneStep(Final(c, steps), RemovePod("a"));
    RunsConcatenate(c, steps, [RemovePod("a")]);
    steps := steps + [RemovePod("a")];
    var d := Final(c, steps);
    assert d.lock.value[0].name == "a";
    RunKeepsInv(c, steps);
    RunKeepsTargets(c, steps);
    NameReuseGivesTwoLeadersExactlyWhen(d, "a");
  }
}
