/**
 Any number of candidates racing for one lock in one namespace, with pods that come
 and go, restarts, evictions, lost requests and replies, and the garbage collector.

 What the environment is trusted to do: a container of a pod runs only while the pod
 object exists and has not failed, a pod's uid is never given out twice, no pod is
 created under a name that an existing lock holds, the garbage collector removes the
 lock only when the pods that own it (by uid) are gone, and candidates run inside
 the cluster.
 */
module LeaderCluster {
  import opened Wrappers
  import opened Leader

  /** A container: the pod it runs in and where it is in Become. */
  datatype Process = Process(name: string, uid: nat, at: Local)

  datatype Cluster = Cluster(
    pods: map<string, Pod>,
    lock: Option<seq<OwnerRef>>,
    processes: map<nat, Process>,
    nextUid: nat)

  // --------------------------------------------------------- the API server

  datatype Served = Served(response: Response, after: Cluster)

  /** What the server does with a request of the process in pod `own`. */
  function Serve(c: Cluster, own: string, req: Request): Served {
    match req
    case GetNamespace => Served(Done, c)
    case Connect => Served(Done, c)
    case GetOwnPod => Served(if own in c.pods then PodIs(c.pods[own]) else NotFound, c)
    case GetLock => Served(if c.lock.Some? then LockIs(c.lock.value) else NotFound, c)
    case CreateLock(owner) =>
      if c.lock.Some? then Served(AlreadyExists, c) else Served(Done, c.(lock := Some([owner])))
    case GetPod(name) => Served(if name in c.pods then PodIs(c.pods[name]) else NotFound, c)
    case DeletePod(name) =>
      if name in c.pods then Served(Done, c.(pods := c.pods[name := c.pods[name].(deleting := true)]))
      else Served(NotFound, c)
    case Wait(_) => Served(Done, c)
  }

  datatype Fault = Reliable | RequestLost | ReplyLost | ContextDone

  datatype Step =
    | CreatePod(name: string)
    | StartProcess(name: string)
    | StopProcess(uid: nat)
    | FailPod(name: string, reason: string)
    | MarkPodDeleted(name: string)
    | RemovePod(name: string)
    | CollectLock
    | Act(uid: nat, fault: Fault)

  predicate NamedByLock(c: Cluster, name: string) {
    c.lock.Some? && exists i :: 0 <= i < |c.lock.value| && c.lock.value[i].name == name
  }

  predicate Owns(c: Cluster, o: OwnerRef) {
    o.name in c.pods && c.pods[o.name].uid == o.uid
  }

  predicate Enabled(c: Cluster, step: Step) {
    match step
    case CreatePod(name) => name !in c.pods && !NamedByLock(c, name)
    case StartProcess(name) =>
      name in c.pods && c.pods[name].phase != "Failed" && c.pods[name].uid !in c.processes
    case StopProcess(uid) => uid in c.processes
    case FailPod(name, _) =>
      name in c.pods && c.pods[name].phase != "Failed" && c.pods[name].uid !in c.processes
    case MarkPodDeleted(name) => name in c.pods
    case RemovePod(name) => name in c.pods && c.pods[name].uid !in c.processes
    case CollectLock =>
      c.lock.Some? && c.lock.value != [] &&
      forall i :: 0 <= i < |c.lock.value| && c.lock.value[i].kind == "Pod" ==> !Owns(c, c.lock.value[i])
    case Act(uid, fault) =>
      uid in c.processes && !c.processes[uid].at.Ended() &&
      (fault == ContextDone ==> c.processes[uid].at.Waiting?)
  }

  function WithNewPod(c: Cluster, name: string): Cluster {
    c.(pods := c.pods[name := Pod(name, c.nextUid, "Running", "", false)], nextUid := c.nextUid + 1)
  }

  function Next(c: Cluster, step: Step): Cluster
    requires Enabled(c, step)
  {
    match step
    case CreatePod(name) => WithNewPod(c, name)
    case StartProcess(name) =>
      var uid := c.pods[name].uid;
      c.(processes := c.processes[uid := Process(name, uid, Starting)])
    case StopProcess(uid) => c.(processes := c.processes - {uid})
    case FailPod(name, reason) =>
      c.(pods := c.pods[name := c.pods[name].(phase := "Failed", reason := reason)])
    case MarkPodDeleted(name) => c.(pods := c.pods[name := c.pods[name].(deleting := true)])
    case RemovePod(name) => c.(pods := c.pods - {name})
    case CollectLock => c.(lock := None)
    case Act(uid, fault) =>
      var p := c.processes[uid];
      var served := Serve(c, p.name, Ask(p.at));
      var c' := if fault == Reliable || fault == ReplyLost then served.after else c;
      var r := match fault
        case Reliable => served.response
        case ContextDone => Cancelled
        case _ => Failure;
      c'.(processes := c.processes[uid := p.(at := Resume(p.at, r))])
  }

  // ------------------------------------------------------------------- runs

  predicate IsRun(c: Cluster, steps: seq<Step>)
    decreases |steps|
  {
    steps == [] || (Enabled(c, steps[0]) && IsRun(Next(c, steps[0]), steps[1..]))
  }

  function Final(c: Cluster, steps: seq<Step>): Cluster
    requires IsRun(c, steps)
    decreases |steps|
  {
    if steps == [] then c else Final(Next(c, steps[0]), steps[1..])
  }

  /** Where the model starts: some pods, nothing running, and possibly a lock left by someone else. */
  predicate Initial(c: Cluster) {
    && c.processes == map[]
    && PodsAreNamed(c)
    && UidsAreUnique(c)
    && (c.lock.Some? ==> forall i :: 0 <= i < |c.lock.value| ==> c.lock.value[i].name !in c.pods)
  }

  predicate IsLeader(c: Cluster, uid: nat) {
    uid in c.processes && c.processes[uid].at.Leading?
  }

  // -------------------------------------------------------------- invariant

  predicate UidsAreUnique(c: Cluster) {
    && (forall n :: n in c.pods ==> c.pods[n].uid < c.nextUid)
    && (forall m, n :: m in c.pods && n in c.pods && c.pods[m].uid == c.pods[n].uid ==> m == n)
  }

  predicate PodsAreNamed(c: Cluster) {
    forall n :: n in c.pods ==> c.pods[n].name == n
  }

  function Me(p: Process): OwnerRef {
    OwnerRef("Pod", p.name, p.uid)
  }

  /** What a candidate believes about itself. */
  predicate KnowsItself(p: Process) {
    && (p.at.Checking? || p.at.Leading? ==> p.at.me == Me(p))
    && (p.at.InLoop() ==> p.at.attempt.me == Me(p))
  }

  predicate HasPod(c: Cluster, p: Process) {
    Owns(c, Me(p)) && c.pods[p.name].phase != "Failed"
  }

  predicate ProcessesHavePods(c: Cluster) {
    forall u :: u in c.processes ==>
      c.processes[u].uid == u && HasPod(c, c.processes[u]) && KnowsItself(c.processes[u])
  }

  /** A lock that names a live pod is that pod's own lock and nobody else's. */
  predicate LockIsOwned(c: Cluster) {
    c.lock.Some? ==>
      forall i :: 0 <= i < |c.lock.value| && c.lock.value[i].name in c.pods ==>
        |c.lock.value| == 1 && c.lock.value[i].kind == "Pod" && Owns(c, c.lock.value[i])
  }

  /** The pod of a running leader owns the existing lock. */
  predicate LeadersHoldTheLock(c: Cluster) {
    forall u :: u in c.processes && IsLeader(c, u) ==> c.lock == Some([Me(c.processes[u])])
  }

  predicate Inv(c: Cluster) {
    PodsAreNamed(c) && ProcessesHavePods(c) && LockIsOwned(c) && LeadersHoldTheLock(c)
  }

  /** What one served request can do to the pods: set a deletion mark. */
  predicate PodsUpToDeletion(c: Cluster, c': Cluster) {
    c'.pods.Keys == c.pods.Keys &&
    forall n :: n in c.pods ==> c'.pods[n] == c.pods[n].(deleting := c'.pods[n].deleting)
  }

  lemma ServeEffect(c: Cluster, own: string, req: Request)
    ensures var served := Serve(c, own, req);
      && PodsUpToDeletion(c, served.after)
      && served.after.processes == c.processes
      && (served.after.lock == c.lock ||
          (c.lock == None && req.CreateLock? && served.after.lock == Some([req.owner])))
      && (req.CreateLock? && served.response.Done? ==> served.after.lock == Some([req.owner]))
      && (req.GetLock? && served.response.LockIs? ==> c.lock == Some(served.response.owners))
      && (req.GetOwnPod? && served.response.PodIs? ==> own in c.pods && served.response.pod == c.pods[own])
  {
  }

  /** What a reply tells a candidate about itself, and when it makes a leader. */
  lemma ResumeEffect(p: Process, r: Response)
    requires !p.at.Ended() && KnowsItself(p)
    requires p.at.Identifying? && r.PodIs? ==> r.pod.name == p.name && r.pod.uid == p.uid
    ensures KnowsItself(p.(at := Resume(p.at, r)))
    ensures Resume(p.at, r).Leading? ==>
      (p.at.Trying? && r.Done?) || (p.at.Checking? && r.LockIs? && OwnsByName(r.owners, Me(p)))
  {
  }

  /** A candidate's step: it still knows itself, and it leads only with its own lock in place. */
  predicate ActsWell(c: Cluster, c': Cluster, uid: nat)
    requires uid in c.processes
  {
    var p := c.processes[uid];
    && PodsUpToDeletion(c, c')
    && uid in c'.processes
    && c'.processes == c.processes[uid := c'.processes[uid]]
    && Me(c'.processes[uid]) == Me(p)
    && KnowsItself(c'.processes[uid])
    && (c'.lock == c.lock || (c.lock == None && c'.lock == Some([Me(p)])))
    && (c'.processes[uid].at.Leading? ==> c'.lock == Some([Me(p)]))
  }

  lemma AnsweredActEffect(c: Cluster, uid: nat)
    requires Inv(c) && Enabled(c, Act(uid, Reliable))
    ensures ActsWell(c, Next(c, Act(uid, Reliable)), uid)
  {
    var p := c.processes[uid];
    assert HasPod(c, p) && KnowsItself(p);
    ServeEffect(c, p.name, Ask(p.at));
    ResumeEffect(p, Serve(c, p.name, Ask(p.at)).response);
    if p.at.Checking? && c.lock.Some? && OwnsByName(c.lock.value, Me(p)) {
      var i :| 0 <= i < |c.lock.value| && c.lock.value[i].name == p.name;
      assert c.lock.value == [Me(p)];
    }
  }

  lemma FailedActEffect(c: Cluster, uid: nat, fault: Fault)
    requires Inv(c) && Enabled(c, Act(uid, fault)) && fault != Reliable
    ensures ActsWell(c, Next(c, Act(uid, fault)), uid)
  {
    var p := c.processes[uid];
    assert HasPod(c, p) && KnowsItself(p);
    ServeEffect(c, p.name, Ask(p.at));
    ResumeEffect(p, Failure);
    ResumeEffect(p, Cancelled);
  }

  lemma ActEffect(c: Cluster, uid: nat, fault: Fault)
    requires Inv(c) && Enabled(c, Act(uid, fault))
    ensures ActsWell(c, Next(c, Act(uid, fault)), uid)
  {
    if fault == Reliable {
      AnsweredActEffect(c, uid);
    } else {
      FailedActEffect(c, uid, fault);
    }
  }

  lemma ActKeepsInv(c: Cluster, uid: nat, fault: Fault)
    requires Inv(c) && Enabled(c, Act(uid, fault))
    ensures Inv(Next(c, Act(uid, fault)))
  {
    ActEffect(c, uid, fault);
    var c', p := Next(c, Act(uid, fault)), c.processes[uid];
    assert HasPod(c, p);
    forall u | u in c'.processes
      ensures c'.processes[u].uid == u && HasPod(c', c'.processes[u]) && KnowsItself(c'.processes[u])
      ensures IsLeader(c', u) ==> c'.lock == Some([Me(c'.processes[u])])
    {
      assert u != uid ==> c'.processes[u] == c.processes[u] && HasPod(c, c.processes[u]);
      assert u != uid && IsLeader(c', u) ==> IsLeader(c, u);
    }
  }

  lemma PodStepKeepsInv(c: Cluster, step: Step)
    requires Inv(c) && Enabled(c, step)
    requires step.CreatePod? || step.FailPod? || step.MarkPodDeleted? || step.RemovePod?
    ensures Inv(Next(c, step))
  {
    var c' := Next(c, step);
    forall u | u in c.processes
      ensures HasPod(c', c.processes[u]) && (IsLeader(c', u) ==> IsLeader(c, u))
    {
      assert HasPod(c, c.processes[u]);
    }
    if c.lock.Some? {
      forall i | 0 <= i < |c.lock.value| && c.lock.value[i].name in c'.pods
        ensures c.lock.value[i].name in c.pods
      {
      }
    }
  }

  lemma ContainerStepKeepsInv(c: Cluster, step: Step)
    requires Inv(c) && Enabled(c, step)
    requires step.StartProcess? || step.StopProcess?
    ensures Inv(Next(c, step))
  {
    var c' := Next(c, step);
    assert forall u :: u in c'.processes && IsLeader(c', u) ==> IsLeader(c, u);
  }

  /** The collector never takes a lock whose pod is there. */
  lemma OwnedLockIsNotCollected(c: Cluster, o: OwnerRef)
    requires c.lock == Some([o]) && o.kind == "Pod" && Owns(c, o)
    ensures !Enabled(c, CollectLock)
  {
    assert c.lock.value[0] == o;
  }

  lemma CollectKeepsInv(c: Cluster)
    requires Inv(c) && Enabled(c, CollectLock)
    ensures Inv(Next(c, CollectLock))
  {
    forall u | u in c.processes ensures !IsLeader(c, u) {
      assert HasPod(c, c.processes[u]);
      if c.lock == Some([Me(c.processes[u])]) {
        OwnedLockIsNotCollected(c, Me(c.processes[u]));
      }
    }
  }

  lemma NextKeepsInv(c: Cluster, step: Step)
    requires Inv(c) && Enabled(c, step)
    ensures Inv(Next(c, step))
  {
    match step {
      case StartProcess(_) => ContainerStepKeepsInv(c, step);
      case StopProcess(_) => ContainerStepKeepsInv(c, step);
      case CollectLock => CollectKeepsInv(c);
      case Act(uid, fault) => ActKeepsInv(c, uid, fault);
      case _ => PodStepKeepsInv(c, step);
    }
  }

  lemma {:induction false} RunKeepsInv(c: Cluster, steps: seq<Step>)
    requires Inv(c) && IsRun(c, steps)
    ensures Inv(Final(c, steps))
    decreases |steps|
  {
    if steps != [] {
      NextKeepsInv(c, steps[0]);
      RunKeepsInv(Next(c, steps[0]), steps[1..]);
    }
  }

  /** In every run there is at most one running leader, and its pod owns the lock. */
  lemma AtMostOneLeader(c: Cluster, steps: seq<Step>, u: nat, v: nat)
    requires Initial(c) && IsRun(c, steps)
    requires IsLeader(Final(c, steps), u) && IsLeader(Final(c, steps), v)
    ensures u == v
    ensures Final(c, steps).lock == Some([Me(Final(c, steps).processes[u])])
  {
    RunKeepsInv(c, steps);
  }

  // -------------------------------------------------------------- leader for life

  /** Until the collector removes a lock it is there, with the owners that it had from the start. */
  lemma {:induction false} LockIsForLife(c: Cluster, steps: seq<Step>)
    requires IsRun(c, steps) && c.lock.Some? && CollectLock !in steps
    ensures Final(c, steps).lock == c.lock
    decreases |steps|
  {
    if steps != [] {
      var step := steps[0];
      if step.Act? {
        ServeEffect(c, c.processes[step.uid].name, Ask(c.processes[step.uid].at));
      }
      assert step in steps;
      LockIsForLife(Next(c, step), steps[1..]);
    }
  }

  /** o's pod exists and owns the lock. */
  predicate Holds(c: Cluster, o: OwnerRef) {
    o.kind == "Pod" && c.lock == Some([o]) && Owns(c, o)
  }

  /** At some step of the run the very pod of o, by uid, is removed. */
  predicate RemovedDuring(c: Cluster, steps: seq<Step>, o: OwnerRef)
    requires IsRun(c, steps)
    decreases |steps|
  {
    steps != [] &&
    ((steps[0] == RemovePod(o.name) && Owns(c, o)) || RemovedDuring(Next(c, steps[0]), steps[1..], o))
  }

  lemma HolderStays(c: Cluster, step: Step, o: OwnerRef)
    requires Inv(c) && Enabled(c, step) && Holds(c, o) && step != RemovePod(o.name)
    ensures Holds(Next(c, step), o)
  {
    if step.Act? {
      ActEffect(c, step.uid, step.fault);
    } else if step.CollectLock? {
      OwnedLockIsNotCollected(c, o);
    }
  }

  lemma {:induction false} HolderStaysUntilRemoved(c: Cluster, steps: seq<Step>, o: OwnerRef)
    requires Inv(c) && IsRun(c, steps) && Holds(c, o)
    ensures Holds(Final(c, steps), o) || RemovedDuring(c, steps, o)
    decreases |steps|
  {
    if steps != [] && steps[0] != RemovePod(o.name) {
      NextKeepsInv(c, steps[0]);
      HolderStays(c, steps[0], o);
      HolderStaysUntilRemoved(Next(c, steps[0]), steps[1..], o);
    }
  }

  /** Between two different leaders, the pod of the first one is removed. */
  lemma LeadersAreSeparatedByRemoval(c: Cluster, steps: seq<Step>, u: nat, v: nat)
    requires Inv(c) && IsRun(c, steps)
    requires IsLeader(c, u) && IsLeader(Final(c, steps), v) && u != v
    ensures RemovedDuring(c, steps, Me(c.processes[u]))
  {
    var o := Me(c.processes[u]);
    assert HasPod(c, c.processes[u]);
    RunKeepsInv(c, steps);
    HolderStaysUntilRemoved(c, steps, o);
    var d := Final(c, steps);
    assert IsLeader(d, v) && d.processes[v].uid == v;
  }

  // ------------------------------------------------------ whom the eviction deletes

  /** A pod that a candidate found evicted still is, if it is still there. */
  predicate TargetsWereEvicted(c: Cluster) {
    forall u :: u in c.processes && c.processes[u].at.Evicting? ==> TargetWasEvicted(c, c.processes[u].at.target)
  }

  predicate TargetWasEvicted(c: Cluster, t: Pod) {
    && IsPodEvicted(t) && t.uid < c.nextUid
    && (t.name in c.pods && c.pods[t.name].uid == t.uid ==> IsPodEvicted(c.pods[t.name]))
  }

  lemma ResumeToEvicting(p: Process, r: Response)
    requires !p.at.Ended() && Resume(p.at, r).Evicting?
    ensures p.at.Inspecting? && r.PodIs? && Resume(p.at, r).target == r.pod && IsPodEvicted(r.pod)
  {
  }

  lemma NextKeepsUids(c: Cluster, step: Step)
    requires UidsAreUnique(c) && Enabled(c, step)
    ensures UidsAreUnique(Next(c, step)) && c.nextUid <= Next(c, step).nextUid
  {
    if step.Act? {
      ServeEffect(c, c.processes[step.uid].name, Ask(c.processes[step.uid].at));
    }
  }

  /** What a candidate has just found evicted, or found so before. */
  lemma ActorTargetWasEvicted(c: Cluster, uid: nat, fault: Fault)
    requires UidsAreUnique(c) && PodsAreNamed(c) && TargetsWereEvicted(c) && Enabled(c, Act(uid, fault))
    requires Next(c, Act(uid, fault)).processes[uid].at.Evicting?
    ensures TargetWasEvicted(c, Next(c, Act(uid, fault)).processes[uid].at.target)
  {
    var p := c.processes[uid];
    ResumeToEvicting(p, match fault
      case Reliable => Serve(c, p.name, Ask(p.at)).response
      case ContextDone => Cancelled
      case _ => Failure);
  }

  lemma ActKeepsTargets(c: Cluster, uid: nat, fault: Fault)
    requires Inv(c) && UidsAreUnique(c) && TargetsWereEvicted(c) && Enabled(c, Act(uid, fault))
    ensures TargetsWereEvicted(Next(c, Act(uid, fault)))
  {
    ActEffect(c, uid, fault);
    var c' := Next(c, Act(uid, fault));
    forall u | u in c'.processes && c'.processes[u].at.Evicting?
      ensures TargetWasEvicted(c', c'.processes[u].at.target)
    {
      if u == uid {
        ActorTargetWasEvicted(c, uid, fault);
      } else {
        assert c'.processes[u] == c.processes[u];
      }
      ServeEffect(c, c.processes[uid].name, Ask(c.processes[uid].at));
    }
  }

  lemma NextKeepsTargets(c: Cluster, step: Step)
    requires Inv(c) && UidsAreUnique(c) && TargetsWereEvicted(c) && Enabled(c, step)
    ensures TargetsWereEvicted(Next(c, step))
  {
    if step.Act? {
      ActKeepsTargets(c, step.uid, step.fault);
    } else {
      var c' := Next(c, step);
      forall u | u in c'.processes && c'.processes[u].at.Evicting?
        ensures TargetWasEvicted(c', c'.processes[u].at.target)
      {
        assert u in c.processes && c'.processes[u] == c.processes[u];
        assert TargetWasEvicted(c, c.processes[u].at.target);
      }
    }
  }

  lemma {:induction false} RunKeepsTargets(c: Cluster, steps: seq<Step>)
    requires Inv(c) && UidsAreUnique(c) && TargetsWereEvicted(c) && IsRun(c, steps)
    ensures UidsAreUnique(Final(c, steps)) && TargetsWereEvicted(Final(c, steps))
    decreases |steps|
  {
    if steps != [] {
      NextKeepsInv(c, steps[0]);
      NextKeepsUids(c, steps[0]);
      NextKeepsTargets(c, steps[0]);
      RunKeepsTargets(Next(c, steps[0]), steps[1..]);
    }
  }

  /**
   The eviction delete goes by name. It hits a pod that is evicted and runs nothing,
   unless the pod under that name is no longer the one that was inspected.
   */
  lemma EvictionHitsTheEvictedPod(c: Cluster, steps: seq<Step>, u: nat)
    requires Initial(c) && IsRun(c, steps)
    requires var d := Final(c, steps);
      && u in d.processes && d.processes[u].at.Evicting?
      && d.processes[u].at.target.name in d.pods
    ensures var d := Final(c, steps);
      var target := d.processes[u].at.target;
      var hit := d.pods[target.name];
      hit.uid != target.uid || (IsPodEvicted(hit) && hit.uid !in d.processes)
  {
    RunKeepsInv(c, steps);
    RunKeepsTargets(c, steps);
    var d := Final(c, steps);
    var target := d.processes[u].at.target;
    assert TargetWasEvicted(d, target);
    forall v | v in d.processes && IsPodEvicted(d.pods[target.name]) ensures v != d.pods[target.name].uid {
      assert HasPod(d, d.processes[v]) && d.processes[v].uid == v;
    }
  }

  /** Nobody creates a pod under a name that a candidate is about to delete. */
  predicate NoRecreation(c: Cluster, steps: seq<Step>)
    requires IsRun(c, steps)
    decreases |steps|
  {
    steps == [] ||
    (&& (steps[0].CreatePod? ==>
           forall u :: u in c.processes && c.processes[u].at.Evicting? ==>
             c.processes[u].at.target.name != steps[0].name)
     && NoRecreation(Next(c, steps[0]), steps[1..]))
  }

  /** The pod that a candidate is about to delete, if there is one, is the pod it inspected. */
  predicate TargetsStand(c: Cluster) {
    forall u :: u in c.processes && c.processes[u].at.Evicting? ==>
      var t := c.processes[u].at.target;
      t.name in c.pods ==> c.pods[t.name].uid == t.uid
  }

  lemma NextKeepsStanding(c: Cluster, step: Step)
    requires Inv(c) && TargetsStand(c) && Enabled(c, step)
    requires NoRecreation(c, [step]) || !step.CreatePod?
    ensures TargetsStand(Next(c, step))
  {
    var c' := Next(c, step);
    if step.Act? {
      ActEffect(c, step.uid, step.fault);
      var p := c.processes[step.uid];
      if c'.processes[step.uid].at.Evicting? {
        ResumeToEvicting(p, if step.fault == Reliable then Serve(c, p.name, Ask(p.at)).response else Failure);
      }
    }
    forall u | u in c'.processes && c'.processes[u].at.Evicting?
      ensures var t := c'.processes[u].at.target; t.name in c'.pods ==> c'.pods[t.name].uid == t.uid
    {
      assert step != Act(u, Reliable) ==> u in c.processes && c'.processes[u] == c.processes[u];
    }
  }

  /** What a candidate is about to delete, if it is there, is evicted and runs nothing. */
  predicate TargetsAreIdle(c: Cluster) {
    forall u :: u in c.processes && c.processes[u].at.Evicting? ==>
      var t := c.processes[u].at.target;
      t.name in c.pods ==> IsPodEvicted(c.pods[t.name]) && c.pods[t.name].uid !in c.processes
  }

  predicate TargetsStayIdle(c: Cluster, steps: seq<Step>)
    requires IsRun(c, steps)
    decreases |steps|
  {
    TargetsAreIdle(c) && (steps != [] ==> TargetsStayIdle(Next(c, steps[0]), steps[1..]))
  }

  /**
   Throughout a run every eviction delete would hit an evicted pod that runs nothing
   exactly when nobody creates a pod under a name that is about to be deleted.
   */
  lemma {:induction false} EvictionIsExactWithoutRecreation(c: Cluster, steps: seq<Step>)
    requires Inv(c) && UidsAreUnique(c) && TargetsWereEvicted(c) && TargetsStand(c) && IsRun(c, steps)
    ensures TargetsStayIdle(c, steps) <==> NoRecreation(c, steps)
    decreases |steps|
  {
    if steps != [] {
      var step, d := steps[0], Next(c, steps[0]);
      if step.CreatePod? && !NoRecreation(c, [step]) {
        assert NoRecreation(d, []);
        var u :| u in c.processes && c.processes[u].at.Evicting? && c.processes[u].at.target.name == step.name;
      } else {
        NextKeepsInv(c, step);
        NextKeepsUids(c, step);
        NextKeepsTargets(c, step);
        NextKeepsStanding(c, step);
        assert NoRecreation(d, []);
        EvictionIsExactWithoutRecreation(d, steps[1..]);
      }
    }
  }
}
