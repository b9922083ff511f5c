/**
 A run in which the eviction delete, which goes by pod name, arrives late: the evicted
 pod is gone, and a new pod of the same name has become the leader.
 */
module LeaderStaleEviction {
  import opened Wrappers
  import opened Leader
  import opened LeaderCluster

  lemma {:induction false} RunsConcatenate(c: Cluster, a: seq<Step>, b: seq<Step>)
    requires IsRun(c, a) && IsRun(Final(c, a), b)
    ensures IsRun(c, a + b) && Final(c, a + b) == Final(Final(c, a), b)
    decreases |a|
  {
    if a == [] {
      assert a + b == b;
    } else {
      assert (a + b)[1..] == a[1..] + b;
      RunsConcatenate(Next(c, a[0]), a[1..], b);
    }
  }

  function MovedTo(c: Cluster, u: nat, at: Local): Cluster
    requires u in c.processes
  {
    c.(processes := c.processes[u := c.processes[u].(at := at)])
  }

  /** An answered call. */
  lemma Moves(c: Cluster, u: nat, r: Response, after: Cluster)
    requires Enabled(c, Act(u, Reliable)) && after.processes == c.processes
    requires Serve(c, c.processes[u].name, Ask(c.processes[u].at)) == Served(r, after)
    ensures Next(c, Act(u, Reliable)) == MovedTo(after, u, Resume(c.processes[u].at, r))
  {
  }

  lemma MovedAgain(c: Cluster, u: nat, a: Local, b: Local)
    requires u in c.processes
    ensures MovedTo(MovedTo(c, u, a), u, b) == MovedTo(c, u, b)
  {
    assert MovedTo(MovedTo(c, u, a), u, b).processes == MovedTo(c, u, b).processes;
  }

  function Acts(u: nat, n: nat): seq<Step> {
    if n == 0 then [] else [Act(u, Reliable)] + Acts(u, n - 1)
  }

  lemma FirstAct(c: Cluster, u: nat, n: nat)
    requires n > 0 && Enabled(c, Act(u, Reliable))
    requires IsRun(Next(c, Act(u, Reliable)), Acts(u, n - 1))
    ensures IsRun(c, Acts(u, n)) && Final(c, Acts(u, n)) == Final(Next(c, Act(u, Reliable)), Acts(u, n - 1))
  {
    assert Acts(u, n)[0] == Act(u, Reliable) && Acts(u, n)[1..] == Acts(u, n - 1);
  }

  /** Without faults a candidate reaches its look at the lock in three steps. */
  lemma ReachesTheLock(c: Cluster, u: nat)
    requires u in c.processes && c.processes[u].at == Starting
    requires c.processes[u].name in c.pods
    ensures IsRun(c, Acts(u, 3))
    ensures var own := c.pods[c.processes[u].name];
      Final(c, Acts(u, 3)) == MovedTo(c, u, Checking(OwnerRef("Pod", own.name, own.uid)))
  {
    var own := c.pods[c.processes[u].name];
    var c1, c2 := MovedTo(c, u, Connecting), MovedTo(c, u, Identifying);
    var c3 := MovedTo(c, u, Checking(OwnerRef("Pod", own.name, own.uid)));
    MovedAgain(c, u, c1.processes[u].at, c2.processes[u].at);
    MovedAgain(c, u, c2.processes[u].at, c3.processes[u].at);
    Moves(c, u, Done, c);
    Moves(c1, u, Done, c1);
    Moves(c2, u, PodIs(own), c2);
    assert IsRun(c3, Acts(u, 0)) && Final(c3, Acts(u, 0)) == c3;
    FirstAct(c2, u, 1);
    FirstAct(c1, u, 2);
    FirstAct(c, u, 3);
  }

  /** Two more steps elect it when nobody holds the lock. */
  lemma IsElected(c: Cluster, u: nat, me: OwnerRef)
    requires u in c.processes && c.processes[u].at == Checking(me) && c.lock == None
    ensures IsRun(c, Acts(u, 2))
    ensures Final(c, Acts(u, 2)) == MovedTo(c.(lock := Some([me])), u, Leading(me))
  {
    var c1 := MovedTo(c, u, Trying(Attempt(me, [], 1)));
    var c2 := MovedTo(c.(lock := Some([me])), u, Leading(me));
    MovedAgain(c.(lock := Some([me])), u, c1.processes[u].at, Leading(me));
    Moves(c, u, NotFound, c);
    Moves(c1, u, Done, c1.(lock := Some([me])));
    assert IsRun(c2, Acts(u, 0)) && Final(c2, Acts(u, 0)) == c2;
    FirstAct(c1, u, 1);
    FirstAct(c, u, 2);
  }

  /** Two more steps bring it to the look at the owner of the lock. */
  lemma FindsTheOwner(c: Cluster, u: nat, me: OwnerRef, o: OwnerRef)
    requires u in c.processes && c.processes[u].at == Checking(me)
    requires c.lock == Some([o]) && o.kind == "Pod" && o.name != me.name
    ensures IsRun(c, Acts(u, 2))
    ensures Final(c, Acts(u, 2)) == MovedTo(c, u, Inspecting(Attempt(me, [o], 1), o.name))
  {
    var a := Attempt(me, [o], 1);
    var c1, c2 := MovedTo(c, u, Trying(a)), MovedTo(c, u, Inspecting(a, o.name));
    MovedAgain(c, u, Trying(a), Inspecting(a, o.name));
    Moves(c, u, LockIs([o]), c);
    Moves(c1, u, AlreadyExists, c1);
    assert IsRun(c2, Acts(u, 0)) && Final(c2, Acts(u, 0)) == c2;
    FirstAct(c1, u, 1);
    FirstAct(c, u, 2);
  }

  lemma OneStep(c: Cluster, step: Step)
    requires Enabled(c, step)
    ensures IsRun(c, [step]) && Final(c, [step]) == Next(c, step)
  {
    assert IsRun(Next(c, step), []);
  }

  const EVICTED := Pod("a", 0, "Failed", "Evicted", false)

  const HOLDER := OwnerRef("Pod", "a", 0)

  /** A leader in pod "a" is elected, stops and is evicted, whoever else is running. */
  lemma HolderIsEvicted(c: Cluster) returns (steps: seq<Step>)
    requires "a" in c.pods && c.pods["a"] == Pod("a", 0, "Running", "", false) && 0 !in c.processes && c.lock == None
    ensures IsRun(c, steps)
    ensures Final(c, steps) == c.(pods := c.pods["a" := EVICTED], lock := Some([HOLDER]))
  {
    var c1 := Next(c, StartProcess("a"));
    steps := [StartProcess("a")];
    OneStep(c, StartProcess("a"));
    ReachesTheLock(c1, 0);
    RunsConcatenate(c, steps, Acts(0, 3));
    steps := steps + Acts(0, 3);
    IsElected(MovedTo(c1, 0, Checking(HOLDER)), 0, HOLDER);
    RunsConcatenate(c, steps, Acts(0, 2));
    steps := steps + Acts(0, 2);
    var c3 := Final(c, steps);
    OneStep(c3, StopProcess(0));
    RunsConcatenate(c, steps, [StopProcess(0)]);
    steps := steps + [StopProcess(0)];
    var c4 := Next(c3, StopProcess(0));
    assert c4.processes == c.processes;
    OneStep(c4, FailPod("a", "Evicted"));
    RunsConcatenate(c, steps, [FailPod("a", "Evicted")]);
    steps := steps + [FailPod("a", "Evicted")];
  }

  lemma LeaderIsEvicted() returns (c: Cluster, steps: seq<Step>)
    ensures Initial(c) && IsRun(c, steps)
    ensures var d := Final(c, steps);
      && d.pods.Keys == {"a", "b"} && d.nextUid == 2 && d.processes == map[]
      && d.pods["a"] == EVICTED && d.pods["b"] == Pod("b", 1, "Running", "", false)
      && d.lock == Some([HOLDER])
  {
    var a, b := Pod("a", 0, "Running", "", false), Pod("b", 1, "Running", "", false);
    c := Cluster(map["a" := a, "b" := b], None, map[], 2);
    steps := HolderIsEvicted(c);
  }

  /** A candidate in pod "b" finds the evicted leader. */
  lemma EvictedLeaderIsFound(c: Cluster) returns (steps: seq<Step>)
    requires c.pods.Keys == {"a", "b"} && c.nextUid == 2 && c.processes == map[]
    requires c.pods["a"] == Pod("a", 0, "Failed", "Evicted", false)
    requires c.pods["b"] == Pod("b", 1, "Running", "", false)
    requires c.lock == Some([OwnerRef("Pod", "a", 0)])
    ensures IsRun(c, steps)
    ensures var d := Final(c, steps);
      && d.pods.Keys == {"a", "b"} && d.pods["a"].uid == 0 && d.nextUid == 2
      && d.lock == Some([OwnerRef("Pod", "a", 0)])
      && d.processes.Keys == {1} && d.processes[1].at.Evicting? && d.processes[1].at.target.name == "a"
  {
    var refA, refB := OwnerRef("Pod", "a", 0), OwnerRef("Pod", "b", 1);
    steps := [StartProcess("b")];
    OneStep(c, StartProcess("b"));
    var c6 := Next(c, StartProcess("b"));
    ReachesTheLock(c6, 1);
    RunsConcatenate(c, steps, Acts(1, 3));
    steps := steps + Acts(1, 3);
    FindsTheOwner(MovedTo(c6, 1, Checking(refB)), 1, refB, refA);
    RunsConcatenate(c, steps, Acts(1, 2));
    steps := steps + Acts(1, 2);
    RunsConcatenate(c, steps, Acts(1, 1));
    steps := steps + Acts(1, 1);
  }

  /** The old pod goes, its lock is collected, and a new pod "a" is elected before the delete is sent. */
  lemma NewPodIsElected(d: Cluster) returns (steps: seq<Step>)
    requires d.pods.Keys == {"a", "b"} && d.pods["a"].uid == 0 && d.nextUid == 2
    requires d.lock == Some([OwnerRef("Pod", "a", 0)])
    requires d.processes.Keys == {1} && d.processes[1].at.Evicting? && d.processes[1].at.target.name == "a"
    ensures IsRun(d, steps)
    ensures var e := Final(d, steps);
      && 1 in e.processes && e.processes[1] == d.processes[1]
      && "a" in e.pods && e.pods["a"].uid == 2 && !e.pods["a"].deleting && IsLeader(e, 2)
  {
    OneStep(d, RemovePod("a"));
    var d1 := Next(d, RemovePod("a"));
    steps := [RemovePod("a")];
    OneStep(d1, CollectLock);
    RunsConcatenate(d, steps, [CollectLock]);
    steps := steps + [CollectLock];
    var d2 := Next(d1, CollectLock);
    OneStep(d2, CreatePod("a"));
    RunsConcatenate(d, steps, [CreatePod("a")]);
    steps := steps + [CreatePod("a")];
    var d3 := Next(d2, CreatePod("a"));
    OneStep(d3, StartProcess("a"));
    RunsConcatenate(d, steps, [StartProcess("a")]);
    steps := steps + [StartProcess("a")];
    var d4 := Next(d3, StartProcess("a"));
    ReachesTheLock(d4, 2);
    RunsConcatenate(d, steps, Acts(2, 3));
    steps := steps + Acts(2, 3);
    var me := OwnerRef("Pod", "a", 2);
    IsElected(MovedTo(d4, 2, Checking(me)), 2, me);
    RunsConcatenate(d, steps, Acts(2, 2));
    steps := steps + Acts(2, 2);
  }

  /** So a delayed eviction can mark the pod of the running leader for deletion. */
  lemma DelayedEvictionHitsTheNewLeader()
    ensures exists c: Cluster, steps: seq<Step> ::
      && Initial(c) && IsRun(c, steps) && Enabled(Final(c, steps), Act(1, Reliable))
      && var d, e := Final(c, steps), Next(Final(c, steps), Act(1, Reliable));
         "a" in d.pods && IsLeader(e, 2) && "a" in e.pods && e.pods["a"].uid == 2 && !d.pods["a"].deleting && e.pods["a"].deleting
  {
    var c, before := LeaderIsEvicted();
    var found := EvictedLeaderIsFound(Final(c, before));
    RunsConcatenate(c, before, found);
    before := before + found;
    var after := NewPodIsElected(Final(c, before));
    RunsConcatenate(c, before, after);
    assert IsRun(c, before + after);
  }
}
