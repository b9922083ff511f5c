/**
 Leader-for-life election, one candidate: Become
 (operator-sdk/pkg/leader/leader.go).

 `Ask` and `Resume` describe the candidate between two calls to the API server, which
 is the grain at which candidates interleave; the method `Become` is the loop of the
 source, proved to make those calls in that order.
 */
module Leader {
  import opened Wrappers
  import opened Api

  datatype OwnerRef = OwnerRef(kind: string, name: string, uid: nat)

  datatype Pod = Pod(name: string, uid: nat, phase: string, reason: string, deleting: bool)

  predicate IsPodEvicted(pod: Pod) {
    pod.phase == "Failed" && pod.reason == "Evicted"
  }

  datatype Request =
    | GetNamespace
    | Connect
    | GetOwnPod
    | GetLock
    | CreateLock(owner: OwnerRef)
    | GetPod(name: string)
    | DeletePod(name: string)
    | Wait(seconds: nat)

  datatype Response =
    | Done
    | NotInCluster
    | NotFound
    | AlreadyExists
    | LockIs(owners: seq<OwnerRef>)
    | PodIs(pod: Pod)
    | Cancelled
    | Failure

  /** What a candidate carries round its loop: the lock is read once, before the loop. */
  datatype Attempt = Attempt(me: OwnerRef, seen: seq<OwnerRef>, backoff: nat)

  /** What a candidate is about to do, with what it remembers. */
  datatype Local =
    | Starting
    | Connecting
    | Identifying
    | Checking(me: OwnerRef)
    | Trying(attempt: Attempt)
    | Inspecting(attempt: Attempt, name: string)
    | Evicting(attempt: Attempt, target: Pod)
    | Waiting(attempt: Attempt)
    | Leading(me: OwnerRef)
    | Skipped
    | Failed
  {
    predicate Ended() {
      Leading? || Skipped? || Failed?
    }

    predicate InLoop() {
      Trying? || Inspecting? || Evicting? || Waiting?
    }
  }

  const MAX_BACKOFF := 16

  function Ask(l: Local): Request
    requires !l.Ended()
  {
    match l
    case Starting => GetNamespace
    case Connecting => Connect
    case Identifying => GetOwnPod
    case Checking(_) => GetLock
    case Trying(a) => CreateLock(a.me)
    case Inspecting(_, name) => GetPod(name)
    case Evicting(_, target) => DeletePod(target.name)
    case Waiting(a) => Wait(a.backoff)
  }

  predicate OwnsByName(owners: seq<OwnerRef>, me: OwnerRef) {
    exists i :: 0 <= i < |owners| && owners[i].name == me.name
  }

  function Resume(l: Local, r: Response): Local
    requires !l.Ended()
  {
    match l
    case Starting => if r.Done? then Connecting else if r.NotInCluster? then Skipped else Failed
    case Connecting => if r.Done? then Identifying else Failed
    case Identifying => if r.PodIs? then Checking(OwnerRef("Pod", r.pod.name, r.pod.uid)) else Failed
    case Checking(me) =>
      if r.LockIs? then
        if OwnsByName(r.owners, me) then Leading(me) else Trying(Attempt(me, r.owners, 1))
      else if r.NotFound? then Trying(Attempt(me, [], 1))
      else Failed
    case Trying(a) =>
      if r.Done? then Leading(a.me)
      else if !r.AlreadyExists? then Failed
      else if |a.seen| == 1 && a.seen[0].kind == "Pod" then Inspecting(a, a.seen[0].name)
      else Waiting(a)
    case Inspecting(a, _) =>
      if r.NotFound? then Waiting(a)
      else if !r.PodIs? then Failed
      else if IsPodEvicted(r.pod) && !r.pod.deleting then Evicting(a, r.pod)
      else Waiting(a)
    case Evicting(a, _) => Waiting(a)
    case Waiting(a) =>
      if r.Done? then Trying(a.(backoff := if a.backoff < MAX_BACKOFF then a.backoff * 2 else a.backoff))
      else Failed
  }

  // ------------------------------------------------------------- whole runs

  datatype Run = Run(calls: seq<Request>, end: Local)

  /** The run of a candidate at l against a script, after the given calls. */
  function After(calls: seq<Request>, l: Local, answers: seq<Response>): Run
    decreases |answers|
  {
    if l.Ended() then Run(calls, l)
    else if answers == [] then Run(calls + [Ask(l)], l)
    else After(calls + [Ask(l)], Resume(l, answers[0]), answers[1..])
  }

  datatype Outcome = Elected | NoElection | Error | Killed

  function OutcomeOf(l: Local): Outcome {
    match l
    case Leading(_) => Elected
    case Skipped => NoElection
    case Failed => Error
    case _ => Killed
  }

  // ------------------------------------------------- a run told by its calls alone

  /** The answers with which Become gives up. */
  predicate Refuses(req: Request, resp: Response) {
    match req
    case GetNamespace => resp != Done && resp != NotInCluster
    case Connect => resp != Done
    case GetOwnPod => !resp.PodIs?
    case GetLock => !resp.LockIs? && resp != NotFound
    case CreateLock(_) => resp != Done && resp != AlreadyExists
    case GetPod(_) => !resp.PodIs? && resp != NotFound
    case DeletePod(_) => false
    case Wait(_) => resp != Done
  }

  /** The answers that make a leader of the pod of that name. */
  predicate Elects(req: Request, resp: Response, me: string) {
    || (req.CreateLock? && resp == Done)
    || (req.GetLock? && resp.LockIs? && exists o :: o in resp.owners && o.name == me)
  }

  /** The answer with which there is no election. */
  predicate Excuses(req: Request, resp: Response) {
    req == GetNamespace && resp == NotInCluster
  }

  /** The third answer tells a candidate who it is. */
  function Myself(answers: seq<Response>): OwnerRef {
    if |answers| > 2 && answers[2].PodIs? then OwnerRef("Pod", answers[2].pod.name, answers[2].pod.uid)
    else OwnerRef("", "", 0)
  }

  function OnlyPod(owners: seq<OwnerRef>): Option<string> {
    if |owners| == 1 && owners[0].kind == "Pod" then Some(owners[0].name) else None
  }

  /** The fourth one tells it which pod to look at for as long as the lock is taken. */
  function HolderSeen(answers: seq<Response>): Option<string> {
    if |answers| > 3 && answers[3].LockIs? then OnlyPod(answers[3].owners) else None
  }

  predicate IsEvictedAndStays(resp: Response) {
    resp.PodIs? && resp.pod.phase == "Failed" && resp.pod.reason == "Evicted" && !resp.pod.deleting
  }

  /** Which call may come after an answered one. */
  predicate Follows(req: Request, resp: Response, answers: seq<Response>, next: Request) {
    match next
    case GetNamespace => false
    case Connect => req == GetNamespace
    case GetOwnPod => req == Connect
    case GetLock => req == GetOwnPod
    case CreateLock(owner) => (req == GetLock || req.Wait?) && owner == Myself(answers)
    case GetPod(name) => req.CreateLock? && HolderSeen(answers) == Some(name)
    case DeletePod(name) => req.GetPod? && IsEvictedAndStays(resp) && name == resp.pod.name
    case Wait(_) =>
      || (req.CreateLock? && HolderSeen(answers) == None)
      || (req.GetPod? && !IsEvictedAndStays(resp))
      || req.DeletePod?
  }

  /** The i-th answer settles nothing and leads to the next call. */
  predicate GoesOn(calls: seq<Request>, answers: seq<Response>, i: nat)
    requires i < |calls| && i < |answers|
  {
    && !Refuses(calls[i], answers[i])
    && !Elects(calls[i], answers[i], Myself(answers).name)
    && !Excuses(calls[i], answers[i])
    && (i + 1 < |calls| ==> Follows(calls[i], answers[i], answers, calls[i + 1]))
  }

  /** All answers but the last go on; the last one settles the outcome, or never comes. */
  predicate Tells(calls: seq<Request>, answers: seq<Response>, out: Outcome) {
    var last := |calls| - 1;
    && 0 <= last <= |answers|
    && calls[0] == GetNamespace
    && (forall i :: 0 <= i < last ==> GoesOn(calls, answers, i))
    && match out {
         case Killed => last == |answers|
         case Error => last < |answers| && Refuses(calls[last], answers[last])
         case Elected => last < |answers| && Elects(calls[last], answers[last], Myself(answers).name)
         case NoElection => last < |answers| && Excuses(calls[last], answers[last])
       }
  }

  /** What a candidate at l has behind it. */
  predicate Remembers(l: Local, calls: seq<Request>, answers: seq<Response>)
    requires |calls| <= |answers|
  {
    var n := |calls|;
    && !l.Ended()
    && (forall i :: 0 <= i < n ==> GoesOn(calls, answers, i))
    && (n == 0 ==> l == Starting)
    && (n > 0 ==> calls[0] == GetNamespace && Follows(calls[n - 1], answers[n - 1], answers, Ask(l)))
    && (l.Connecting? ==> n == 1)
    && (l.Identifying? ==> n == 2)
    && (l.Checking? ==> n == 3 && l.me == Myself(answers))
    && (l.InLoop() ==> l.attempt.me == Myself(answers) && OnlyPod(l.attempt.seen) == HolderSeen(answers))
  }

  lemma AnswerSettles(l: Local, r: Response, me: string)
    requires !l.Ended()
    requires (l.Checking? ==> l.me.name == me)
    ensures Resume(l, r).Failed? <==> Refuses(Ask(l), r)
    ensures Resume(l, r).Leading? <==> Elects(Ask(l), r, me)
    ensures Resume(l, r).Skipped? <==> Excuses(Ask(l), r)
  {
    if l.Checking? && r.LockIs? {
      if OwnsByName(r.owners, l.me) {
        var i :| 0 <= i < |r.owners| && r.owners[i].name == me;
        assert r.owners[i] in r.owners;
      }
    }
  }

  lemma StillRemembers(l: Local, calls: seq<Request>, answers: seq<Response>)
    requires |calls| < |answers| && Remembers(l, calls, answers)
    ensures var calls', l' := calls + [Ask(l)], Resume(l, answers[|calls|]);
      if l'.Ended() then Tells(calls', answers, OutcomeOf(l')) else Remembers(l', calls', answers)
  {
    var calls', r := calls + [Ask(l)], answers[|calls|];
    forall i | 0 <= i < |calls| ensures GoesOn(calls', answers, i) {
      assert GoesOn(calls, answers, i);
    }
    AnswerSettles(l, r, Myself(answers).name);
  }

  lemma {:induction false} RestIsTold(l: Local, calls: seq<Request>, answers: seq<Response>)
    requires |calls| <= |answers| && Remembers(l, calls, answers)
    ensures var run := After(calls, l, answers[|calls|..]); Tells(run.calls, answers, OutcomeOf(run.end))
    decreases |answers| - |calls|
  {
    var rest := answers[|calls|..];
    if rest == [] {
      forall i | 0 <= i < |calls| ensures GoesOn(calls + [Ask(l)], answers, i) {
        assert GoesOn(calls, answers, i);
      }
    } else {
      StillRemembers(l, calls, answers);
      assert rest[1..] == answers[|calls| + 1..];
      if !Resume(l, rest[0]).Ended() {
        RestIsTold(Resume(l, rest[0]), calls + [Ask(l)], answers);
      }
    }
  }

  lemma {:induction false} CallsAreAppended(before: seq<Request>, calls: seq<Request>, l: Local, answers: seq<Response>)
    ensures var run := After(calls, l, answers); After(before + calls, l, answers) == Run(before + run.calls, run.end)
    decreases |answers|
  {
    if !l.Ended() {
      assert before + (calls + [Ask(l)]) == before + calls + [Ask(l)];
      if answers != [] {
        CallsAreAppended(before, calls + [Ask(l)], Resume(l, answers[0]), answers[1..]);
      }
    }
  }

  /** Every run of Become, whatever was called before it. */
  lemma EveryRunIsTold(before: seq<Request>, answers: seq<Response>)
    ensures var run := After(before, Starting, answers);
      before <= run.calls && Tells(run.calls[|before|..], answers, OutcomeOf(run.end))
  {
    CallsAreAppended(before, [], Starting, answers);
    RestIsTold(Starting, [], answers);
    var run := After([], Starting, answers);
    assert before + [] == before && answers[0..] == answers;
    assert (before + run.calls)[|before|..] == run.calls;
  }

  predicate MeetsRefusal(calls: seq<Request>, answers: seq<Response>) {
    exists i :: 0 <= i < |calls| && i < |answers| && Refuses(calls[i], answers[i])
  }

  predicate MeetsElection(calls: seq<Request>, answers: seq<Response>) {
    exists i :: 0 <= i < |calls| && i < |answers| && Elects(calls[i], answers[i], Myself(answers).name)
  }

  /** Become fails exactly when it meets one of the refusals, and wins exactly when it meets an election. */
  lemma VerdictsAreMet(calls: seq<Request>, answers: seq<Response>, out: Outcome)
    requires Tells(calls, answers, out)
    ensures out == Error <==> MeetsRefusal(calls, answers)
    ensures out == Elected <==> MeetsElection(calls, answers)
  {
    forall i | 0 <= i < |calls| && i < |answers|
      ensures Refuses(calls[i], answers[i]) <==> out == Error && i == |calls| - 1
      ensures Elects(calls[i], answers[i], Myself(answers).name) <==> out == Elected && i == |calls| - 1
    {
      assert i < |calls| - 1 ==> GoesOn(calls, answers, i);
    }
  }

  // ------------------------------------------------------------- the source's form

  /**
   The run, which has made the given calls, stands at l; or, without l, it was killed
   in its last call.
   */
  predicate StandsAt(run: Run, calls: seq<Request>, answers: seq<Response>, l: Option<Local>) {
    if l.Some? then After(calls, l.value, answers) == run
    else run.calls == calls && OutcomeOf(run.end) == Killed
  }

  /** The part of Become before its loop: identify this pod and look for a lock of its own. */
  method Identify(api: Client<Request, Response>) returns (l: Option<Local>)
    modifies api
    ensures l.Some? ==> l.value.Ended() || (l.value.Trying? && l.value.attempt.backoff == 1)
    ensures StandsAt(old(After(api.calls, Starting, api.answers)), api.calls, api.answers, l)
  {
    ghost var run := After(api.calls, Starting, api.answers);
    var ns := api.Call(GetNamespace);
    if ns.None? { return None; }
    if ns.value.NotInCluster? { return Some(Skipped); }
    if !ns.value.Done? { return Some(Failed); }
    assert After(api.calls, Connecting, api.answers) == run;
    var client := api.Call(Connect);
    if client.None? { return None; }
    if !client.value.Done? { return Some(Failed); }
    assert After(api.calls, Identifying, api.answers) == run;
    var pod := api.Call(GetOwnPod);
    if pod.None? { return None; }
    if !pod.value.PodIs? { return Some(Failed); }
    var owner := OwnerRef("Pod", pod.value.pod.name, pod.value.pod.uid);
    assert After(api.calls, Checking(owner), api.answers) == run;
    var existing := api.Call(GetLock);
    if existing.None? { return None; }
    match existing.value {
      case LockIs(owners) =>
        for i := 0 to |owners|
          invariant forall k :: 0 <= k < i ==> owners[k].name != owner.name
        {
          if owners[i].name == owner.name { return Some(Leading(owner)); }
        }
        return Some(Trying(Attempt(owner, owners, 1)));
      case NotFound => return Some(Trying(Attempt(owner, [], 1)));
      case _ => return Some(Failed);
    }
  }

  /** What Become does when the lock is taken: look at the pod that held it, and delete it if it was evicted. */
  method InspectLeader(api: Client<Request, Response>, a: Attempt) returns (l: Option<Local>)
    modifies api
    ensures l.Some? ==> l.value == Failed || l.value == Waiting(a)
    ensures |api.answers| <= old(|api.answers|)
    ensures var holder, answers := OnlyPod(a.seen), old(api.answers);
      if holder == None then l == Some(Waiting(a)) && api.calls == old(api.calls)
      else if answers == [] then l == None && api.calls == old(api.calls) + [GetPod(holder.value)]
      else if !IsEvictedAndStays(answers[0]) then
        && api.calls == old(api.calls) + [GetPod(holder.value)]
        && l == Some(if Refuses(GetPod(holder.value), answers[0]) then Failed else Waiting(a))
      else
        && api.calls == old(api.calls) + [GetPod(holder.value), DeletePod(answers[0].pod.name)]
        && (l == if |answers| == 1 then None else Some(Waiting(a)))
    ensures StandsAt(old(After(api.calls, Resume(Trying(a), AlreadyExists), api.answers)),
                     api.calls, api.answers, l)
  {
    if |a.seen| != 1 || a.seen[0].kind != "Pod" { return Some(Waiting(a)); }
    ghost var run := After(api.calls, Inspecting(a, a.seen[0].name), api.answers);
    var pod := api.Call(GetPod(a.seen[0].name));
    if pod.None? { return None; }
    if pod.value.NotFound? { return Some(Waiting(a)); }
    if !pod.value.PodIs? { return Some(Failed); }
    var leaderPod := pod.value.pod;
    if IsPodEvicted(leaderPod) && !leaderPod.deleting {
      assert After(api.calls, Evicting(a, leaderPod), api.answers) == run;
      var deleted := api.Call(DeletePod(leaderPod.name));
      if deleted.None? { return None; }
    }
    return Some(Waiting(a));
  }

  /** The loop of Become. */
  method TryUntilSettled(api: Client<Request, Response>, owner: OwnerRef, existing: seq<OwnerRef>)
    returns (out: Outcome)
    modifies api
    ensures var run := old(After(api.calls, Trying(Attempt(owner, existing, 1)), api.answers));
      api.calls == run.calls && out == OutcomeOf(run.end)
  {
    ghost var run := After(api.calls, Trying(Attempt(owner, existing, 1)), api.answers);
    var backoff: nat := 1;
    while true
      invariant After(api.calls, Trying(Attempt(owner, existing, backoff)), api.answers) == run
      decreases |api.answers|
    {
      var a := Attempt(owner, existing, backoff);
      var created := api.Call(CreateLock(owner));
      if created.None? { return Killed; }
      if created.value.Done? { return Elected; }
      if !created.value.AlreadyExists? { return Error; }
      var l := InspectLeader(api, a);
      if l.None? { return Killed; }
      if l.value.Failed? { return Error; }
      var waited := api.Call(Wait(backoff));
      if waited.None? { return Killed; }
      assert After(api.calls, Resume(Waiting(a), waited.value), api.answers) == run;
      if !waited.value.Done? { return Error; }
      if backoff < MAX_BACKOFF {
        backoff := backoff * 2;
      }
    }
  }

  method Become(api: Client<Request, Response>) returns (out: Outcome)
    modifies api
    ensures var run := old(After(api.calls, Starting, api.answers));
      api.calls == run.calls && out == OutcomeOf(run.end)
    ensures old(api.calls) <= api.calls
    ensures var calls, answers := api.calls[|old(api.calls)|..], old(api.answers);
      && Tells(calls, answers, out)
      && (out == Error <==> MeetsRefusal(calls, answers))
      && (out == Elected <==> MeetsElection(calls, answers))
  {
    ghost var run := After(api.calls, Starting, api.answers);
    EveryRunIsTold(api.calls, api.answers);
    VerdictsAreMet(run.calls[|api.calls|..], api.answers, OutcomeOf(run.end));
    var l := Identify(api);
    if l.None? { return Killed; }
    if !l.value.Trying? { return OutcomeOf(l.value); }
    out := TryUntilSettled(api, l.value.attempt.me, l.value.attempt.seen);
  }

  // ---------------------------------------------------------- the loop's habits

  /** The waits of a run, in order. */
  function Waits(calls: seq<Request>): seq<nat> {
    if calls == [] then []
    else
      var before := Waits(calls[..|calls| - 1]);
      var last := calls[|calls| - 1];
      if last.Wait? then before + [last.seconds] else before
  }

  function Pow2(n: nat): nat {
    if n == 0 then 1 else 2 * Pow2(n - 1)
  }

  /** min(2^n, 16) seconds. */
  function Backoff(n: nat): nat {
    if Pow2(n) < MAX_BACKOFF then Pow2(n) else MAX_BACKOFF
  }

  predicate BacksOff(waits: seq<nat>) {
    forall i :: 0 <= i < |waits| ==> waits[i] == Backoff(i)
  }

  lemma {:induction false} Pow2Grows(m: nat, n: nat)
    requires m <= n
    ensures 1 <= Pow2(m) <= Pow2(n)
  {
    if m < n {
      Pow2Grows(m, n - 1);
    } else if n > 0 {
      Pow2Grows(m - 1, n - 1);
    }
  }

  lemma BackoffDoubles(n: nat)
    ensures Backoff(n + 1) == if Backoff(n) < MAX_BACKOFF then 2 * Backoff(n) else Backoff(n)
  {
    if n >= 4 {
      assert Pow2(4) == 16;
      Pow2Grows(4, n);
    } else {
      assert Pow2(0) == 1 && Pow2(1) == 2 && Pow2(2) == 4 && Pow2(3) == 8;
    }
  }

  /** The next wait of a candidate at l is the next one of the sequence 1, 2, 4, 8, 16, 16, ... */
  predicate OnSchedule(calls: seq<Request>, l: Local) {
    && BacksOff(Waits(calls))
    && (if l.InLoop() then l.attempt.backoff == Backoff(|Waits(calls)|) else l.Ended() || Waits(calls) == [])
  }

  lemma {:induction false} StaysOnSchedule(calls: seq<Request>, l: Local, answers: seq<Response>)
    requires OnSchedule(calls, l)
    ensures BacksOff(Waits(After(calls, l, answers).calls))
    decreases |answers|
  {
    if !l.Ended() {
      var calls' := calls + [Ask(l)];
      assert calls'[..|calls|] == calls;
      BackoffDoubles(|Waits(calls)|);
      if answers != [] {
        StaysOnSchedule(calls', Resume(l, answers[0]), answers[1..]);
      }
    }
  }

  /** In every run of Become the n-th wait has base min(2^n, 16) seconds. */
  lemma EveryRunBacksOff(answers: seq<Response>)
    ensures BacksOff(Waits(After([], Starting, answers).calls))
  {
    StaysOnSchedule([], Starting, answers);
  }
}
