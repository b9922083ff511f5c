/**
 How the lead passes on: a candidate wins as soon as the lock of a removed pod has been
 collected, a restarted leader finds its lock again, and a candidate gives up only over a
 call that failed (operator-sdk/pkg/leader/leader.go).
 */
module LeaderHandover {
  import opened Wrappers
  import opened Leader
  import opened LeaderCluster
  import opened LeaderSnapshot
  import opened LeaderStaleEviction

  /** The calls that a candidate is at most away from the lead while nobody holds the lock. */
  function ToTheLead(l: Local): nat
    requires !l.Ended()
  {
    match l
    case Starting => 8
    case Connecting => 7
    case Identifying => 6
    case Checking(_) => 5
    case Inspecting(_, _) => 4
    case Evicting(_, _) => 3
    case Waiting(_) => 2
    case Trying(_) => 1
  }

  predicate IsCandidate(c: Cluster, u: nat) {
    u in c.processes && !c.processes[u].at.Ended()
  }

  /** One answered call: it leads, or it is nearer to the lead and the lock is still free. */
  lemma ComesToTheLock(c: Cluster, u: nat)
    requires Sound(c) && IsCandidate(c, u) && c.lock == None
    ensures var d := Next(c, Act(u, Reliable));
      || IsLeader(d, u)
      || (IsCandidate(d, u) && d.lock == None && ToTheLead(d.processes[u].at) < ToTheLead(c.processes[u].at))
  {
    assert HasPod(c, c.processes[u]);
  }

  lemma {:induction false} WinsAFreeLock(c: Cluster, u: nat) returns (n: nat)
    requires Sound(c) && IsCandidate(c, u) && c.lock == None
    ensures n <= ToTheLead(c.processes[u].at)
    ensures IsRun(c, Acts(u, n)) && IsLeader(Final(c, Acts(u, n)), u)
    decreases ToTheLead(c.processes[u].at)
  {
    var d := Next(c, Act(u, Reliable));
    ComesToTheLock(c, u);
    if IsLeader(d, u) {
      assert Acts(u, 0) == [] && IsRun(d, []);
      n := 1;
    } else {
      NextKeepsSound(c, Act(u, Reliable));
      n := WinsAFreeLock(d, u);
      n := n + 1;
    }
    FirstAct(c, u, n);
  }

  /**
   The pod that owned the lock is gone and the lock is collected: any candidate, wherever
   it is in Become, leads after at most eight answered calls.
   */
  lemma CandidateTakesOver(c: Cluster, u: nat) returns (n: nat)
    requires Sound(c) && IsCandidate(c, u) && Enabled(c, CollectLock)
    ensures n <= 8
    ensures IsRun(c, [CollectLock] + Acts(u, n)) && IsLeader(Final(c, [CollectLock] + Acts(u, n)), u)
  {
    NextKeepsSound(c, CollectLock);
    n := WinsAFreeLock(Next(c, CollectLock), u);
    OneStep(c, CollectLock);
    RunsConcatenate(c, [CollectLock], Acts(u, n));
  }

  lemma FindsItsLock(c: Cluster, u: nat, me: OwnerRef)
    requires u in c.processes && c.processes[u].at == Checking(me) && c.lock == Some([me])
    ensures IsRun(c, Acts(u, 1)) && Final(c, Acts(u, 1)) == MovedTo(c, u, Leading(me))
  {
    assert c.lock.value[0].name == me.name;
    Moves(c, u, LockIs([me]), c);
    assert IsRun(MovedTo(c, u, Leading(me)), Acts(u, 0));
    FirstAct(c, u, 1);
  }

  /** A leader whose container was restarted leads again after four answered calls, and the lock is the same. */
  lemma RestartedLeaderReturns(c: Cluster, u: nat)
    requires Sound(c) && u in c.processes && c.processes[u].at == Starting
    requires c.lock == Some([Me(c.processes[u])])
    ensures IsRun(c, Acts(u, 4)) && IsLeader(Final(c, Acts(u, 4)), u)
    ensures Final(c, Acts(u, 4)).lock == c.lock
  {
    var p := c.processes[u];
    assert HasPod(c, p);
    ReachesTheLock(c, u);
    FindsItsLock(MovedTo(c, u, Checking(Me(p))), u, Me(p));
    RunsConcatenate(c, Acts(u, 3), Acts(u, 1));
    assert Acts(u, 4) == Acts(u, 3) + Acts(u, 1);
  }

  /** A candidate gives up exactly at a call that was lost or cancelled, if it was not the eviction delete. */
  lemma GivesUpExactlyWhen(c: Cluster, u: nat, fault: Fault)
    requires Sound(c) && Enabled(c, Act(u, fault))
    ensures Next(c, Act(u, fault)).processes[u].at.Failed? <==> fault != Reliable && !c.processes[u].at.Evicting?
  {
    var p := c.processes[u];
    assert HasPod(c, p) && KnowsItself(p);
  }
}
