/**
 One reconciliation of an Ansible custom resource: Reconcile with markRunning, markError
 and markDone (operator-sdk/pkg/ansible/controller/reconcile.go), and what Run,
 isFinalizerRun and GetFinalizer of the runner
 (operator-sdk/pkg/ansible/runner/runner.go) decide.
 */
module AnsibleReconcile {
  import opened Wrappers
  import opened Api
  import opened AnsibleStatus

  const PERIOD_MESSAGE := "Unable to parse reconcile period annotation"
  const RUN_MESSAGE := "Unable to run reconciliation"
  const STDOUT_MESSAGE := "Failed to get ansible-runner stdout"

  datatype Config = Config(finalizer: Option<string>, manageStatus: bool)

  /** A copy of the custom resource; periodOk says whether its reconcile-period annotation parses. */
  datatype Cr = Cr(
    uid: nat, version: nat, deleting: bool, finalizers: seq<string>, periodOk: bool, conditions: seq<Condition>)

  /** The name that GetFinalizer returns, empty without a finalizer. */
  function FinalizerName(c: Config): string {
    if c.finalizer.Some? then c.finalizer.value else ""
  }

  predicate IsFinalizerRun(c: Config, o: Cr) {
    c.finalizer.Some? && o.deleting && c.finalizer.value in o.finalizers
  }

  function Filtered(finalizers: seq<string>, name: string): seq<string> {
    if finalizers == [] then []
    else if finalizers[0] == name then Filtered(finalizers[1..], name)
    else [finalizers[0]] + Filtered(finalizers[1..], name)
  }

  // ------------------------------------------------------------------ events

  datatype Event = Stats(parses: bool) | TaskFailed(ignored: bool, message: string) | OtherEvent

  datatype Outcome = Unreadable | NoStats | Finished(failures: seq<string>)

  /** What the reconciler makes of the events of a run: the failures that are not ignored, in order. */
  function Digest(events: seq<Event>): Outcome {
    if Stats(false) in events then Unreadable
    else if !HasStats(events) then NoStats
    else Finished(Failures(events))
  }

  predicate HasStats(events: seq<Event>) {
    Stats(true) in events || Stats(false) in events
  }

  function Failures(events: seq<Event>): seq<string> {
    if events == [] then []
    else (if events[0].TaskFailed? && !events[0].ignored then [events[0].message] else []) + Failures(events[1..])
  }

  // ------------------------------------------------------------- the automaton

  datatype Request =
    | GetCached
    | GetLive
    | UpdateCr(o: Cr)
    | UpdateStatus(o: Cr)
    | CreateKubeconfig
    | Play(o: Cr, finalizerRun: bool)
    | ReadStdout

  datatype Response =
    | CrIs(cr: Cr, now: nat)
    | Saved(version: nat)
    | Played(events: seq<Event>)
    | Done
    | NotFound
    | Failure

  datatype Local =
    | Fetching
    | AddingFinalizer(o: Cr)
    | ReadingToRun(deleted: bool)
    | MarkingRunning(o: Cr, deleted: bool)
    | Configuring(o: Cr, deleted: bool)
    | Playing(o: Cr, deleted: bool)
    | FetchingStdout
    | Rereading(deleted: bool, failures: seq<string>)
    | RemovingFinalizer(o: Cr)
    | ReadingWhenDone(failures: seq<string>)
    | MarkingDone(o: Cr, failures: seq<string>)
    | ReadingToFail(message: string)
    | MarkingFailed(o: Cr)
    | Ended(ok: bool)

  function Ask(c: Config, l: Local): Request
    requires !l.Ended?
  {
    match l
    case Fetching => GetCached
    case AddingFinalizer(o) => UpdateCr(o)
    case ReadingToRun(_) => GetLive
    case MarkingRunning(o, _) => UpdateStatus(o)
    case Configuring(_, _) => CreateKubeconfig
    case Playing(o, _) => Play(o, IsFinalizerRun(c, o))
    case FetchingStdout => ReadStdout
    case Rereading(_, _) => GetLive
    case RemovingFinalizer(o) => UpdateCr(o)
    case ReadingWhenDone(_) => GetLive
    case MarkingDone(o, _) => UpdateStatus(o)
    case ReadingToFail(_) => GetLive
    case MarkingFailed(o) => UpdateStatus(o)
  }

  function Remark(o: Cr, mark: Mark, now: nat): Cr {
    o.(conditions := Marked(o.conditions, mark, now))
  }

  function Proceed(c: Config, o: Cr, deleted: bool): Local {
    if c.manageStatus then ReadingToRun(deleted) else Configuring(o, deleted)
  }

  function Conclude(c: Config, failures: seq<string>): Local {
    if c.manageStatus then ReadingWhenDone(failures) else Ended(failures == [])
  }

  function Decide(c: Config, o: Cr): Local {
    if !o.periodOk then ReadingToFail(PERIOD_MESSAGE)
    else if c.finalizer.Some? && !o.deleting && FinalizerName(c) !in o.finalizers then
      AddingFinalizer(o.(finalizers := o.finalizers + [FinalizerName(c)]))
    else if o.deleting && FinalizerName(c) !in o.finalizers then Ended(true)
    else Proceed(c, o, o.deleting)
  }

  function Resume(c: Config, l: Local, r: Response): Local
    requires !l.Ended?
  {
    match l
    case Fetching => if r.CrIs? then Decide(c, r.cr) else Ended(r.NotFound?)
    case AddingFinalizer(o) =>
      if r.Saved? then Proceed(c, o.(version := r.version), false) else Ended(false)
    case ReadingToRun(deleted) =>
      if r.CrIs? then MarkingRunning(Remark(r.cr, MarkRunning, r.now), deleted) else Ended(false)
    case MarkingRunning(o, deleted) =>
      if r.Saved? then Configuring(o.(version := r.version), deleted) else Ended(false)
    case Configuring(o, deleted) =>
      if !r.Done? || (o.deleting && !IsFinalizerRun(c, o)) then ReadingToFail(RUN_MESSAGE)
      else Playing(o, deleted)
    case Playing(_, deleted) =>
      if !r.Played? then ReadingToFail(RUN_MESSAGE)
      else if Digest(r.events).Finished? then Rereading(deleted, Digest(r.events).failures)
      else if Digest(r.events).NoStats? then FetchingStdout
      else Ended(false)
    case FetchingStdout => if r.Done? then Ended(false) else ReadingToFail(STDOUT_MESSAGE)
    case Rereading(deleted, failures) =>
      if !r.CrIs? then Ended(r.NotFound?)
      else if deleted && c.finalizer.Some? && failures == [] then
        RemovingFinalizer(r.cr.(finalizers := Filtered(r.cr.finalizers, FinalizerName(c))))
      else Conclude(c, failures)
    case RemovingFinalizer(_) => if r.Saved? then Conclude(c, []) else Ended(false)
    case ReadingWhenDone(failures) =>
      if r.CrIs? then MarkingDone(Remark(r.cr, MarkDone(failures), r.now), failures)
      else Ended(r.NotFound? && failures == [])
    case MarkingDone(_, failures) => Ended(r.Saved? && failures == [])
    case ReadingToFail(m) =>
      if r.CrIs? then MarkingFailed(Remark(r.cr, MarkError(m), r.now)) else Ended(false)
    case MarkingFailed(_) => Ended(false)
  }

  datatype Run = Run(calls: seq<Request>, end: Local)

  function After(c: Config, calls: seq<Request>, l: Local, answers: seq<Response>): Run
    decreases |answers|
  {
    if l.Ended? then Run(calls, l)
    else if answers == [] then Run(calls + [Ask(c, l)], l)
    else After(c, calls + [Ask(c, l)], Resume(c, l, answers[0]), answers[1..])
  }

  /** The run stands at l; without l it was cut off in its last call. */
  predicate StandsAt(c: Config, run: Run, calls: seq<Request>, answers: seq<Response>, l: Option<Local>) {
    if l.Some? then After(c, calls, l.value, answers) == run
    else run.calls == calls && !run.end.Ended?
  }

  // ------------------------------------------- a run told by its calls and answers

  /** The copy of the resource that the operator works on, what was played and what went wrong. */
  datatype Picture = Picture(copy: Option<Cr>, played: Option<Outcome>, trouble: Option<string>)

  /** The runner takes a copy that is not being deleted, or has the finalizer whose run it is. */
  predicate IsRunnable(c: Config, o: Cr) {
    o.deleting ==> IsFinalizerRun(c, o)
  }

  function Learn(c: Config, p: Picture, req: Request, resp: Response): Picture {
    match req
    case GetCached =>
      if !resp.CrIs? then p
      else Picture(Some(resp.cr), None, if resp.cr.periodOk then None else Some(PERIOD_MESSAGE))
    case GetLive => p
    case UpdateCr(o) => if resp.Saved? then p.(copy := Some(o.(version := resp.version))) else p
    case UpdateStatus(o) => if resp.Saved? then p.(copy := Some(o.(version := resp.version))) else p
    case CreateKubeconfig =>
      if resp == Done && p.copy.Some? && IsRunnable(c, p.copy.value) then p else p.(trouble := Some(RUN_MESSAGE))
    case Play(_, _) =>
      if resp.Played? then p.(played := Some(Digest(resp.events))) else p.(trouble := Some(RUN_MESSAGE))
    case ReadStdout => if resp == Done then p else p.(trouble := Some(STDOUT_MESSAGE))
  }

  /** After i answers. */
  function PictureAt(c: Config, calls: seq<Request>, answers: seq<Response>, i: nat): Picture
    requires i <= |calls| && i <= |answers|
  {
    if i == 0 then Picture(None, None, None)
    else Learn(c, PictureAt(c, calls, answers, i - 1), calls[i - 1], answers[i - 1])
  }

  /** What is to be done with the copy read first: add the finalizer, nothing at all, or run at once. */
  predicate IsToBeAdded(c: Config, o: Cr) {
    c.finalizer.Some? && !o.deleting && c.finalizer.value !in o.finalizers
  }

  predicate IsTerminated(c: Config, o: Cr) {
    o.deleting && FinalizerName(c) !in o.finalizers
  }

  /** The run is over and, of a resource that was being deleted at first, the finalizer goes. */
  predicate IsToBeRemoved(c: Config, first: Cr, p: Picture) {
    first.deleting && c.finalizer.Some? && p.played == Some(Finished([]))
  }

  /** The mark that a status update makes next. */
  function MarkNow(p: Picture): Mark {
    if p.trouble.Some? then MarkError(p.trouble.value)
    else if p.played.Some? && p.played.value.Finished? then MarkDone(p.played.value.failures)
    else MarkRunning
  }

  /** Whether the call after i answers, if it reads the resource, is the first look after a run. */
  predicate IsReread(p: Picture, calls: seq<Request>, i: nat)
    requires i <= |calls|
  {
    p.trouble.None? && i > 0 && calls[i - 1].Play?
  }

  /** The call that may come after i answers. */
  predicate Follows(c: Config, calls: seq<Request>, answers: seq<Response>, i: nat, next: Request)
    requires 0 < i <= |calls| && i <= |answers| && answers[0].CrIs?
  {
    var first, req, resp, p := answers[0].cr, calls[i - 1], answers[i - 1], PictureAt(c, calls, answers, i);
    var begins := p.trouble.None? && p.played.None? &&
      (req.UpdateCr? || (req == GetCached && !IsToBeAdded(c, first) && !IsTerminated(c, first)));
    var reread := req == GetLive && IsReread(p, calls, i - 1);
    match next
    case GetCached => false
    case UpdateCr(o) =>
      || (req == GetCached && p.trouble.None? && IsToBeAdded(c, first)
          && o == first.(finalizers := first.finalizers + [FinalizerName(c)]))
      || (reread && IsToBeRemoved(c, first, p) && resp.CrIs?
          && o == resp.cr.(finalizers := Filtered(resp.cr.finalizers, FinalizerName(c))))
    case GetLive =>
      || (p.trouble.Some? && !req.GetLive?)
      || (begins && c.manageStatus)
      || (p.trouble.None? && req.Play? && p.played.Some? && p.played.value.Finished?)
      || (p.trouble.None? && p.played.Some? && c.manageStatus
          && (req.UpdateCr? || (reread && !IsToBeRemoved(c, first, p))))
    case UpdateStatus(o) =>
      req == GetLive && !reread && resp.CrIs? && o == Remark(resp.cr, MarkNow(p), resp.now)
    case CreateKubeconfig =>
      p.trouble.None? && p.played.None? && if c.manageStatus then req.UpdateStatus? else begins
    case Play(o, finalizerRun) =>
      req == CreateKubeconfig && p.trouble.None? && p.copy == Some(o) && finalizerRun == IsFinalizerRun(c, o)
    case ReadStdout => req.Play? && p.played == Some(NoStats)
  }

  /** Whether the i-th answer is the last one that a reconciliation waits for. */
  predicate Closes(c: Config, calls: seq<Request>, answers: seq<Response>, i: nat)
    requires i < |calls| && i < |answers|
  {
    var resp, p := answers[i], PictureAt(c, calls, answers, i + 1);
    match calls[i]
    case GetCached => !resp.CrIs? || (p.trouble.None? && IsTerminated(c, resp.cr))
    case GetLive =>
      !resp.CrIs? ||
      (IsReread(p, calls, i) && !c.manageStatus && answers[0].CrIs? && !IsToBeRemoved(c, answers[0].cr, p))
    case UpdateCr(_) => !resp.Saved? || (p.played.Some? && !c.manageStatus)
    case UpdateStatus(_) => !resp.Saved? || p.trouble.Some? || p.played.Some?
    case CreateKubeconfig => false
    case Play(_, _) => p.played == Some(Unreadable)
    case ReadStdout => resp == Done
  }

  /** Whether a reconciliation that the i-th answer closes ends without error. */
  predicate EndsWell(c: Config, calls: seq<Request>, answers: seq<Response>, i: nat)
    requires i < |calls| && i < |answers|
  {
    var resp, p := answers[i], PictureAt(c, calls, answers, i + 1);
    var clean := p.trouble.None? && p.played == Some(Finished([]));
    match calls[i]
    case GetCached => resp.CrIs? || resp == NotFound
    case GetLive => (resp == NotFound && (clean || IsReread(p, calls, i))) || (resp.CrIs? && clean)
    case UpdateCr(_) => resp.Saved?
    case UpdateStatus(_) => resp.Saved? && clean
    case _ => false
  }

  predicate GoesOn(c: Config, calls: seq<Request>, answers: seq<Response>, i: nat, next: Request)
    requires i < |calls| && i < |answers|
  {
    !Closes(c, calls, answers, i) && answers[0].CrIs? && Follows(c, calls, answers, i + 1, next)
  }

  predicate LeadsTo(c: Config, calls: seq<Request>, answers: seq<Response>, i: nat)
    requires i + 1 < |calls| && i < |answers|
  {
    GoesOn(c, calls, answers, i, calls[i + 1])
  }

  /** Every answer but the last leads to the next call; the last one closes the reconciliation, or never comes. */
  predicate Tells(c: Config, calls: seq<Request>, answers: seq<Response>, ok: Option<bool>) {
    var last := |calls| - 1;
    && 0 <= last <= |answers|
    && calls[0] == GetCached
    && (forall i :: 0 <= i < last ==> LeadsTo(c, calls, answers, i))
    && (last == |answers| ==> ok == None)
    && (last < |answers| ==> Closes(c, calls, answers, last) && ok == Some(EndsWell(c, calls, answers, last)))
  }

  function ResultOf(l: Local): Option<bool> {
    if l.Ended? then Some(l.ok) else None
  }

  // What is known at a point of the automaton, and that every answer keeps it so.

  predicate Knows(c: Config, l: Local, calls: seq<Request>, answers: seq<Response>)
    requires 0 < |calls| <= |answers| && answers[0].CrIs?
  {
    var n, first := |calls|, answers[0].cr;
    var p := PictureAt(c, calls, answers, n);
    var quiet := p.trouble.None? && p.played.None?;
    match l
    case Fetching => false
    case AddingFinalizer(o) => quiet && calls[n - 1] == GetCached
    case ReadingToRun(deleted) => quiet && c.manageStatus && deleted == first.deleting && !IsReread(p, calls, n)
    case MarkingRunning(o, deleted) => quiet && c.manageStatus && deleted == first.deleting
    case Configuring(o, deleted) => quiet && p.copy == Some(o) && deleted == first.deleting
    case Playing(o, deleted) => quiet && p.copy == Some(o) && deleted == first.deleting
    case FetchingStdout => p.trouble.None? && p.played == Some(NoStats)
    case Rereading(deleted, failures) =>
      p.trouble.None? && p.played == Some(Finished(failures)) && deleted == first.deleting && IsReread(p, calls, n)
    case RemovingFinalizer(o) => p.trouble.None? && p.played == Some(Finished([]))
    case ReadingWhenDone(failures) =>
      p.trouble.None? && p.played == Some(Finished(failures)) && c.manageStatus && !IsReread(p, calls, n)
    case MarkingDone(o, failures) => p.trouble.None? && p.played == Some(Finished(failures))
    case ReadingToFail(m) => p.trouble == Some(m)
    case MarkingFailed(o) => p.trouble.Some?
    case Ended(_) => false
  }

  /** What is known before a call. */
  predicate IsInThePicture(c: Config, l: Local, calls: seq<Request>, answers: seq<Response>)
    requires |calls| <= |answers|
  {
    !l.Ended? && calls != [] && calls[0] == GetCached && answers[0].CrIs? && Knows(c, l, calls, answers)
  }

  predicate Remembers(c: Config, l: Local, calls: seq<Request>, answers: seq<Response>)
    requires |calls| <= |answers|
  {
    var n := |calls|;
    && !l.Ended?
    && (n == 0 ==> l == Fetching)
    && (n > 0 ==> IsInThePicture(c, l, calls, answers) && GoesOn(c, calls, answers, n - 1, Ask(c, l)))
    && (forall i :: 0 <= i < n - 1 ==> LeadsTo(c, calls, answers, i))
  }

  lemma {:induction false} PictureStands(c: Config, calls: seq<Request>, answers: seq<Response>, next: Request, i: nat)
    requires i <= |calls| && i <= |answers|
    ensures PictureAt(c, calls + [next], answers, i) == PictureAt(c, calls, answers, i)
  {
    if i > 0 {
      PictureStands(c, calls, answers, next, i - 1);
    }
  }

  lemma CallsStillLead(c: Config, calls: seq<Request>, answers: seq<Response>, next: Request)
    requires |calls| <= |answers|
    requires calls != [] ==> GoesOn(c, calls, answers, |calls| - 1, next)
    requires forall i :: 0 <= i < |calls| - 1 ==> LeadsTo(c, calls, answers, i)
    ensures forall i :: 0 <= i < |calls| ==> LeadsTo(c, calls + [next], answers, i)
  {
    forall i | 0 <= i < |calls| ensures LeadsTo(c, calls + [next], answers, i) {
      assert i < |calls| - 1 ==> LeadsTo(c, calls, answers, i);
      PictureStands(c, calls, answers, next, i + 1);
    }
  }

  /** Where an answer closes the reconciliation, the automaton ends. */
  lemma ClosingEnds(c: Config, l: Local, calls: seq<Request>, answers: seq<Response>)
    requires |calls| < |answers| && Remembers(c, l, calls, answers)
    ensures var calls', l' := calls + [Ask(c, l)], Resume(c, l, answers[|calls|]);
      && (Closes(c, calls', answers, |calls|) <==> l'.Ended?)
      && (l'.Ended? ==> (EndsWell(c, calls', answers, |calls|) <==> l'.ok))
  {
    PictureStands(c, calls, answers, Ask(c, l), |calls|);
  }

  /** What is known is known again after an answer, and leads to the next call. */
  predicate StaysInThePicture(c: Config, l: Local, calls: seq<Request>, answers: seq<Response>)
    requires |calls| < |answers| && !l.Ended?
  {
    var calls', l' := calls + [Ask(c, l)], Resume(c, l, answers[|calls|]);
    !l'.Ended? ==> IsInThePicture(c, l', calls', answers) && Follows(c, calls', answers, |calls'|, Ask(c, l'))
  }

  lemma BeginningStaysInThePicture(c: Config, l: Local, calls: seq<Request>, answers: seq<Response>)
    requires |calls| < |answers| && Remembers(c, l, calls, answers)
    requires l.Fetching? || l.AddingFinalizer?
    ensures StaysInThePicture(c, l, calls, answers)
  {
    PictureStands(c, calls, answers, Ask(c, l), |calls|);
  }

  lemma RunningStaysInThePicture(c: Config, l: Local, calls: seq<Request>, answers: seq<Response>)
    requires |calls| < |answers| && IsInThePicture(c, l, calls, answers)
    requires l.ReadingToRun? || l.MarkingRunning? || l.Configuring?
    ensures StaysInThePicture(c, l, calls, answers)
  {
    PictureStands(c, calls, answers, Ask(c, l), |calls|);
  }

  lemma PlayingStaysInThePicture(c: Config, l: Local, calls: seq<Request>, answers: seq<Response>)
    requires |calls| < |answers| && IsInThePicture(c, l, calls, answers)
    requires l.Playing? || l.FetchingStdout? || l.Rereading?
    ensures StaysInThePicture(c, l, calls, answers)
  {
    PictureStands(c, calls, answers, Ask(c, l), |calls|);
  }

  lemma EndingStaysInThePicture(c: Config, l: Local, calls: seq<Request>, answers: seq<Response>)
    requires |calls| < |answers| && IsInThePicture(c, l, calls, answers)
    requires l.RemovingFinalizer? || l.ReadingWhenDone? || l.MarkingDone? || l.ReadingToFail? || l.MarkingFailed?
    ensures StaysInThePicture(c, l, calls, answers)
  {
    PictureStands(c, calls, answers, Ask(c, l), |calls|);
  }

  lemma StillRemembers(c: Config, l: Local, calls: seq<Request>, answers: seq<Response>)
    requires |calls| < |answers| && Remembers(c, l, calls, answers)
    ensures var calls', l' := calls + [Ask(c, l)], Resume(c, l, answers[|calls|]);
      if l'.Ended? then Tells(c, calls', answers, ResultOf(l')) else Remembers(c, l', calls', answers)
  {
    CallsStillLead(c, calls, answers, Ask(c, l));
    ClosingEnds(c, l, calls, answers);
    if l.Fetching? || l.AddingFinalizer? {
      BeginningStaysInThePicture(c, l, calls, answers);
    } else if l.ReadingToRun? || l.MarkingRunning? || l.Configuring? {
      RunningStaysInThePicture(c, l, calls, answers);
    } else if l.Playing? || l.FetchingStdout? || l.Rereading? {
      PlayingStaysInThePicture(c, l, calls, answers);
    } else {
      EndingStaysInThePicture(c, l, calls, answers);
    }
  }

  lemma {:induction false} RestIsTold(c: Config, l: Local, calls: seq<Request>, answers: seq<Response>)
    requires |calls| <= |answers| && Remembers(c, l, calls, answers)
    ensures var run := After(c, calls, l, answers[|calls|..]); Tells(c, run.calls, answers, ResultOf(run.end))
    decreases |answers| - |calls|
  {
    var rest := answers[|calls|..];
    if rest == [] {
      CallsStillLead(c, calls, answers, Ask(c, l));
    } else {
      StillRemembers(c, l, calls, answers);
      assert rest[1..] == answers[|calls| + 1..];
      if !Resume(c, l, rest[0]).Ended? {
        RestIsTold(c, Resume(c, l, rest[0]), calls + [Ask(c, l)], answers);
      }
    }
  }

  lemma {:induction false} CallsAreAppended(c: Config, before: seq<Request>, calls: seq<Request>, l: Local, answers: seq<Response>)
    ensures var run := After(c, calls, l, answers);
      After(c, before + calls, l, answers) == Run(before + run.calls, run.end)
    decreases |answers|
  {
    if !l.Ended? {
      assert before + (calls + [Ask(c, l)]) == before + calls + [Ask(c, l)];
      if answers != [] {
        CallsAreAppended(c, before, calls + [Ask(c, l)], Resume(c, l, answers[0]), answers[1..]);
      }
    }
  }

  /** Every run of Reconcile, whatever was called before it. */
  lemma EveryRunIsTold(c: Config, before: seq<Request>, answers: seq<Response>)
    ensures var run := After(c, before, Fetching, answers);
      before <= run.calls && Tells(c, run.calls[|before|..], answers, ResultOf(run.end))
  {
    CallsAreAppended(c, before, [], Fetching, answers);
    RestIsTold(c, Fetching, [], answers);
    var run := After(c, [], Fetching, answers);
    assert before + [] == before && answers[0..] == answers;
    assert (before + run.calls)[|before|..] == run.calls;
  }

  // ------------------------------------------------------------ the source's form

  method Contains(l: seq<string>, s: string) returns (found: bool)
    ensures found <==> s in l
  {
    for i := 0 to |l|
      invariant s !in l[..i]
    {
      if l[i] == s {
        return true;
      }
    }
    return false;
  }

  method WithoutFinalizer(pending: seq<string>, name: string) returns (finalizers: seq<string>)
    ensures finalizers == Filtered(pending, name)
  {
    finalizers := [];
    for i := 0 to |pending|
      invariant finalizers + Filtered(pending[i..], name) == Filtered(pending, name)
    {
      assert pending[i..][1..] == pending[i + 1..];
      if pending[i] != name {
        finalizers := finalizers + [pending[i]];
      }
    }
  }

  lemma OneMoreEvent(events: seq<Event>, i: nat)
    requires i < |events|
    ensures forall e :: e in events[..i + 1] <==> e in events[..i] || e == events[i]
    ensures var e := events[i];
      Failures(events[i..]) == (if e.TaskFailed? && !e.ignored then [e.message] else []) + Failures(events[i + 1..])
  {
    assert events[i..][1..] == events[i + 1..];
    assert events[..i + 1] == events[..i] + [events[i]];
  }

  predicate IsReported(e: Event) {
    e.TaskFailed? && !e.ignored
  }

  /** The failures of two runs one after the other are those of the first and then those of the second. */
  lemma {:induction false} FailuresAreInOrder(a: seq<Event>, b: seq<Event>)
    ensures Failures(a + b) == Failures(a) + Failures(b)
    ensures |a| == 1 ==> Failures(a) == if IsReported(a[0]) then [a[0].message] else []
  {
    if a == [] {
      assert a + b == b;
    } else {
      assert (a + b)[1..] == a[1..] + b;
      FailuresAreInOrder(a[1..], b);
    }
  }

  lemma {:induction false} NoFailuresExactlyWhen(events: seq<Event>)
    ensures Failures(events) == [] <==> forall i :: 0 <= i < |events| ==> !IsReported(events[i])
  {
    if events != [] {
      NoFailuresExactlyWhen(events[1..]);
      assert forall i :: 0 <= i < |events| - 1 ==> events[1..][i] == events[i + 1];
    }
  }

  predicate IsStats(e: Event, parses: bool) {
    e == Stats(parses)
  }

  /**
   Statistics that cannot be read spoil a run wherever they come, and a run without any was
   not finished; it is clean if its statistics can all be read and no failure is reported.
   */
  lemma RunIsCleanExactlyWhen(events: seq<Event>)
    ensures Digest(events).Unreadable? <==> exists i :: 0 <= i < |events| && IsStats(events[i], false)
    ensures Digest(events).NoStats? <==>
            forall i :: 0 <= i < |events| ==> !IsStats(events[i], true) && !IsStats(events[i], false)
    ensures Digest(events) == Finished([]) <==>
            && (exists i :: 0 <= i < |events| && IsStats(events[i], true))
            && forall i :: 0 <= i < |events| ==> !IsStats(events[i], false) && !IsReported(events[i])
  {
    NoFailuresExactlyWhen(events);
    if Stats(true) in events {
      var i :| 0 <= i < |events| && events[i] == Stats(true);
      assert IsStats(events[i], true);
    }
    if Stats(false) in events {
      var i :| 0 <= i < |events| && events[i] == Stats(false);
      assert IsStats(events[i], false);
    }
  }

  /** The loop over the events of a run. */
  method Listen(events: seq<Event>) returns (outcome: Outcome)
    ensures outcome == Digest(events)
  {
    var stats, failures := false, [];
    for i := 0 to |events|
      invariant failures + Failures(events[i..]) == Failures(events)
      invariant Stats(false) !in events[..i] && (stats <==> Stats(true) in events[..i])
    {
      OneMoreEvent(events, i);
      if events[i].Stats? {
        if !events[i].parses {
          assert events[i] in events;
          return Unreadable;
        }
        stats := true;
      } else if events[i].TaskFailed? && !events[i].ignored {
        failures := failures + [events[i].message];
      }
    }
    assert events[..|events|] == events;
    return if stats then Finished(failures) else NoStats;
  }

  /** markRunning, up to the kubeconfig. */
  method MarkAsRunning(api: Client<Request, Response>, c: Config, deleted: bool) returns (l: Option<Local>)
    modifies api
    ensures l.Some? ==> l.value.Ended? || l.value.Configuring?
    ensures StandsAt(c, old(After(c, api.calls, ReadingToRun(deleted), api.answers)), api.calls, api.answers, l)
  {
    ghost var run := After(c, api.calls, ReadingToRun(deleted), api.answers);
    var r := api.Call(GetLive);
    if r.None? { return None; }
    if !r.value.CrIs? { return Some(Ended(false)); }
    var status := new Status(r.value.cr.conditions);
    status.Record(MarkRunning, r.value.now);
    var u := r.value.cr.(conditions := status.conditions);
    assert After(c, api.calls, MarkingRunning(u, deleted), api.answers) == run;
    var saved := api.Call(UpdateStatus(u));
    if saved.None? { return None; }
    if !saved.value.Saved? { return Some(Ended(false)); }
    return Some(Configuring(u.(version := saved.value.version), deleted));
  }

  /** markError; the reconciliation has failed, whatever comes of it. */
  method MarkAsFailed(api: Client<Request, Response>, c: Config, message: string) returns (ok: Option<bool>)
    modifies api
    ensures var run := old(After(c, api.calls, ReadingToFail(message), api.answers));
      api.calls == run.calls && ok == ResultOf(run.end)
  {
    ghost var run := After(c, api.calls, ReadingToFail(message), api.answers);
    var r := api.Call(GetLive);
    if r.None? { return None; }
    if !r.value.CrIs? { return Some(false); }
    var status := new Status(r.value.cr.conditions);
    status.Record(MarkError(message), r.value.now);
    var u := r.value.cr.(conditions := status.conditions);
    assert After(c, api.calls, MarkingFailed(u), api.answers) == run;
    var saved := api.Call(UpdateStatus(u));
    if saved.None? { return None; }
    assert After(c, api.calls, Ended(false), api.answers) == run;
    return Some(false);
  }

  /** markDone, and the result of the reconciliation. */
  method MarkAsDone(api: Client<Request, Response>, c: Config, failures: seq<string>) returns (ok: Option<bool>)
    modifies api
    ensures var run := old(After(c, api.calls, Conclude(c, failures), api.answers));
      api.calls == run.calls && ok == ResultOf(run.end)
    ensures !c.manageStatus ==> api.calls == old(api.calls) && ok == Some(failures == [])
    ensures c.manageStatus && old(api.answers) != [] && old(api.answers)[0].CrIs? ==>
      var r, rest := old(api.answers)[0], old(api.answers)[1..];
      && api.calls == old(api.calls) + [GetLive, UpdateStatus(Remark(r.cr, MarkDone(failures), r.now))]
      && ok == if rest == [] then None else Some(rest[0].Saved? && failures == [])
  {
    if !c.manageStatus { return Some(failures == []); }
    ghost var run := After(c, api.calls, ReadingWhenDone(failures), api.answers);
    var r := api.Call(GetLive);
    if r.None? { return None; }
    if !r.value.CrIs? { return Some(r.value.NotFound? && failures == []); }
    var status := new Status(r.value.cr.conditions);
    status.Record(MarkDone(failures), r.value.now);
    var u := r.value.cr.(conditions := status.conditions);
    assert After(c, api.calls, MarkingDone(u, failures), api.answers) == run;
    var saved := api.Call(UpdateStatus(u));
    if saved.None? { return None; }
    assert After(c, api.calls, Ended(saved.value.Saved? && failures == []), api.answers) == run;
    return Some(saved.value.Saved? && failures == []);
  }

  /** The kubeconfig, the runner's check of the object, the run and its events. */
  method RunAnsible(api: Client<Request, Response>, c: Config, o: Cr, deleted: bool) returns (l: Option<Local>)
    modifies api
    ensures l.Some? ==> l.value.Ended? || l.value.ReadingToFail? || l.value.Rereading?
    ensures StandsAt(c, old(After(c, api.calls, Configuring(o, deleted), api.answers)), api.calls, api.answers, l)
  {
    ghost var run := After(c, api.calls, Configuring(o, deleted), api.answers);
    var kc := api.Call(CreateKubeconfig);
    if kc.None? { return None; }
    assert After(c, api.calls, Resume(c, Configuring(o, deleted), kc.value), api.answers) == run;
    if !kc.value.Done? { return Some(ReadingToFail(RUN_MESSAGE)); }
    var pending := Contains(o.finalizers, FinalizerName(c));
    var finalizerRun := c.finalizer.Some? && o.deleting && pending;
    if o.deleting && !finalizerRun { return Some(ReadingToFail(RUN_MESSAGE)); }
    var played := api.Call(Play(o, finalizerRun));
    if played.None? { return None; }
    assert After(c, api.calls, Resume(c, Playing(o, deleted), played.value), api.answers) == run;
    if !played.value.Played? { return Some(ReadingToFail(RUN_MESSAGE)); }
    var outcome := Listen(played.value.events);
    if outcome.Unreadable? { return Some(Ended(false)); }
    if outcome.Finished? { return Some(Rereading(deleted, outcome.failures)); }
    assert After(c, api.calls, FetchingStdout, api.answers) == run;
    var stdout := api.Call(ReadStdout);
    if stdout.None? { return None; }
    if !stdout.value.Done? { return Some(ReadingToFail(STDOUT_MESSAGE)); }
    return Some(Ended(false));
  }

  /** After the run: remove the finalizer if its work is done, and mark the status. */
  method FinishRun(api: Client<Request, Response>, c: Config, deleted: bool, failures: seq<string>)
    returns (ok: Option<bool>)
    modifies api
    ensures var run := old(After(c, api.calls, Rereading(deleted, failures), api.answers));
      api.calls == run.calls && ok == ResultOf(run.end)
  {
    ghost var run := After(c, api.calls, Rereading(deleted, failures), api.answers);
    var r := api.Call(GetLive);
    if r.None? { return None; }
    assert After(c, api.calls, Resume(c, Rereading(deleted, failures), r.value), api.answers) == run;
    if !r.value.CrIs? { return Some(r.value.NotFound?); }
    if deleted && c.finalizer.Some? && failures == [] {
      var finalizers := WithoutFinalizer(r.value.cr.finalizers, FinalizerName(c));
      var u := r.value.cr.(finalizers := finalizers);
      var saved := api.Call(UpdateCr(u));
      if saved.None? { return None; }
      assert After(c, api.calls, Resume(c, RemovingFinalizer(u), saved.value), api.answers) == run;
      if !saved.value.Saved? { return Some(false); }
    }
    ok := MarkAsDone(api, c, failures);
  }

  /** Everything from the decision to run on. */
  method Work(api: Client<Request, Response>, c: Config, o: Cr, deleted: bool) returns (ok: Option<bool>)
    modifies api
    ensures var run := old(After(c, api.calls, Proceed(c, o, deleted), api.answers));
      api.calls == run.calls && ok == ResultOf(run.end)
  {
    var l := Some(Configuring(o, deleted));
    if c.manageStatus {
      l := MarkAsRunning(api, c, deleted);
      if l.None? { return None; }
      if l.value.Ended? { return Some(l.value.ok); }
    }
    l := RunAnsible(api, c, l.value.o, l.value.deleted);
    if l.None? { return None; }
    if l.value.Ended? { return Some(l.value.ok); }
    if l.value.ReadingToFail? {
      ok := MarkAsFailed(api, c, l.value.message);
    } else {
      ok := FinishRun(api, c, l.value.deleted, l.value.failures);
    }
  }

  method Attend(api: Client<Request, Response>, c: Config) returns (ok: Option<bool>)
    modifies api
    ensures var run := old(After(c, api.calls, Fetching, api.answers));
      api.calls == run.calls && ok == ResultOf(run.end)
  {
    ghost var run := After(c, api.calls, Fetching, api.answers);
    var r := api.Call(GetCached);
    if r.None? { return None; }
    assert After(c, api.calls, Resume(c, Fetching, r.value), api.answers) == run;
    if !r.value.CrIs? { return Some(r.value.NotFound?); }
    var u := r.value.cr;
    if !u.periodOk {
      ok := MarkAsFailed(api, c, PERIOD_MESSAGE);
      return ok;
    }
    var deleted := u.deleting;
    var pending := Contains(u.finalizers, FinalizerName(c));
    if c.finalizer.Some? && !deleted && !pending {
      u := u.(finalizers := u.finalizers + [FinalizerName(c)]);
      var saved := api.Call(UpdateCr(u));
      if saved.None? { return None; }
      assert After(c, api.calls, Resume(c, AddingFinalizer(u), saved.value), api.answers) == run;
      if !saved.value.Saved? { return Some(false); }
      u := u.(version := saved.value.version);
    }
    if !pending && deleted { return Some(true); }
    ok := Work(api, c, u, deleted);
  }

  /** Reconcile; None stands for an operator that stopped during a call. */
  method Reconcile(api: Client<Request, Response>, c: Config) returns (ok: Option<bool>)
    modifies api
    ensures var run := old(After(c, api.calls, Fetching, api.answers));
      api.calls == run.calls && ok == ResultOf(run.end)
    ensures old(api.calls) <= api.calls
    ensures Tells(c, api.calls[|old(api.calls)|..], old(api.answers), ok)
  {
    EveryRunIsTold(c, api.calls, api.answers);
    ok := Attend(api, c);
  }
}
