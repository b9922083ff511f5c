/**
 Watches on the resources of released charts: the release hook of
 watchDependentResources (operator-sdk/pkg/helm/controller/controller.go), run for ever
 by several workers over one shared set under a read-write mutex.
 */
module HelmWatches {
  import opened Wrappers
  import opened Api

  datatype Gvk = Gvk(group: string, version: string, kind: string)

  predicate Empty(g: Gvk) {
    g == Gvk("", "", "")
  }

  /** One step of the YAML decoder. */
  datatype Doc = Object(gvk: Gvk) | Malformed

  datatype Request =
    | IsWatched(gvk: Gvk)
    | MapResource(gvk: Gvk)
    | MapOwner
    | Watch(gvk: Gvk)
    | Record(gvk: Gvk)

  datatype Scope = ClusterScoped | Namespaced

  datatype Response = Yes | No | ScopeIs(scope: Scope) | Done | Failure

  datatype Local =
    | Checking(gvk: Gvk, rest: seq<Doc>)
    | Mapping(gvk: Gvk, rest: seq<Doc>)
    | MappingOwner(gvk: Gvk, dependent: Scope, rest: seq<Doc>)
    | Watching(gvk: Gvk, rest: seq<Doc>)
    | Recording(gvk: Gvk, rest: seq<Doc>)
    | Returned(ok: bool)

  /** The loop head of the hook: skip documents without a type, stop at the end or at a malformed one. */
  function Proceed(docs: seq<Doc>): (l: Local)
    ensures l.Returned? || (l.Checking? && !Empty(l.gvk))
  {
    if docs == [] then Returned(true)
    else if docs[0].Malformed? then Returned(false)
    else if Empty(docs[0].gvk) then Proceed(docs[1..])
    else Checking(docs[0].gvk, docs[1..])
  }

  function Ask(l: Local): Request
    requires !l.Returned?
  {
    match l
    case Checking(g, _) => IsWatched(g)
    case Mapping(g, _) => MapResource(g)
    case MappingOwner(_, _, _) => MapOwner
    case Watching(g, _) => Watch(g)
    case Recording(g, _) => Record(g)
  }

  function Resume(l: Local, r: Response): Local
    requires !l.Returned?
  {
    match l
    case Checking(g, rest) => if r.Yes? then Proceed(rest) else Mapping(g, rest)
    case Mapping(g, rest) => if r.ScopeIs? then MappingOwner(g, r.scope, rest) else Returned(false)
    case MappingOwner(g, dependent, rest) =>
      if !r.ScopeIs? then Returned(false)
      else if !r.scope.ClusterScoped? && dependent.ClusterScoped? then Recording(g, rest)
      else Watching(g, rest)
    case Watching(g, rest) => if r.Failure? then Returned(false) else Recording(g, rest)
    case Recording(_, rest) => Proceed(rest)
  }

  datatype Run = Run(calls: seq<Request>, end: Local)

  function After(calls: seq<Request>, l: Local, answers: seq<Response>): Run
    decreases |answers|
  {
    if l.Returned? then Run(calls, l)
    else if answers == [] then Run(calls + [Ask(l)], l)
    else After(calls + [Ask(l)], Resume(l, answers[0]), answers[1..])
  }

  // ------------------------------------------- a run told by its calls and answers

  /** The answers over which a hook fails. */
  predicate Refuses(req: Request, resp: Response) {
    match req
    case IsWatched(_) => false
    case MapResource(_) => !resp.ScopeIs?
    case MapOwner => !resp.ScopeIs?
    case Watch(_) => resp == Failure
    case Record(_) => false
  }

  /** The types of a manifest, up to its first malformed document. */
  function Types(docs: seq<Doc>): seq<Gvk> {
    if docs == [] || docs[0].Malformed? then []
    else (if Empty(docs[0].gvk) then [] else [docs[0].gvk]) + Types(docs[1..])
  }

  predicate IsWellFormed(docs: seq<Doc>) {
    Malformed !in docs
  }

  /** How many types were looked up in the set. */
  function Asked(calls: seq<Request>): nat {
    if calls == [] then 0
    else Asked(calls[..|calls| - 1]) + if calls[|calls| - 1].IsWatched? then 1 else 0
  }

  /** The answer settles the type at hand. */
  predicate IsDealtWith(req: Request, resp: Response) {
    (req.IsWatched? && resp == Yes) || req.Record?
  }

  /** The call that may come after i answers. */
  predicate Follows(types: seq<Gvk>, calls: seq<Request>, answers: seq<Response>, i: nat, next: Request)
    requires 0 < i <= |calls| && i <= |answers|
  {
    var req, resp := calls[i - 1], answers[i - 1];
    match next
    case IsWatched(g) =>
      IsDealtWith(req, resp) && Asked(calls[..i]) < |types| && g == types[Asked(calls[..i])]
    case MapResource(g) => req == IsWatched(g) && resp != Yes
    case MapOwner => req.MapResource? && resp.ScopeIs?
    case Watch(g) =>
      && req == MapOwner && resp.ScopeIs? && i > 1 && calls[i - 2] == MapResource(g)
      && (resp.scope.ClusterScoped? || answers[i - 2] == ScopeIs(Namespaced))
    case Record(g) =>
      || (req == Watch(g) && resp != Failure)
      || (req == MapOwner && resp == ScopeIs(Namespaced) && i > 1 && calls[i - 2] == MapResource(g)
          && answers[i - 2] == ScopeIs(ClusterScoped))
  }

  predicate GoesOn(types: seq<Gvk>, calls: seq<Request>, answers: seq<Response>, i: nat, next: Request)
    requires i < |calls| && i < |answers|
  {
    !Refuses(calls[i], answers[i]) && Follows(types, calls, answers, i + 1, next)
  }

  predicate LeadsTo(types: seq<Gvk>, calls: seq<Request>, answers: seq<Response>, i: nat)
    requires i + 1 < |calls| && i < |answers|
  {
    GoesOn(types, calls, answers, i, calls[i + 1])
  }

  predicate MeetsRefusal(calls: seq<Request>, answers: seq<Response>) {
    exists i :: 0 <= i < |calls| && i < |answers| && Refuses(calls[i], answers[i])
  }

  /**
   The hook deals with the types one after the other, until an answer is refused or never
   comes; and once all of them are dealt with it has failed if a malformed document comes next.
   */
  predicate Tells(manifest: seq<Doc>, calls: seq<Request>, answers: seq<Response>, ok: Option<bool>) {
    var types, last := Types(manifest), |calls| - 1;
    && last <= |answers|
    && (calls != [] ==> types != [] && calls[0] == IsWatched(types[0]))
    && (forall i :: 0 <= i < last ==> LeadsTo(types, calls, answers, i))
    && (ok.None? <==> last == |answers|)
    && (ok.Some? ==> (ok.value <==> !MeetsRefusal(calls, answers) && IsWellFormed(manifest)))
    && (ok.Some? && !MeetsRefusal(calls, answers) ==>
          Asked(calls) == |types| && (calls != [] ==> IsDealtWith(calls[last], answers[last])))
  }

  // What is known at a point of the hook, and that every answer keeps it so.

  lemma {:induction false} ProceedFindsTheNext(docs: seq<Doc>)
    ensures var l, types := Proceed(docs), Types(docs);
      if types == [] then l == Returned(IsWellFormed(docs))
      else l.Checking? && l.gvk == types[0] && Types(l.rest) == types[1..]
           && (IsWellFormed(l.rest) <==> IsWellFormed(docs))
  {
    if docs != [] {
      assert docs == [docs[0]] + docs[1..];
      if docs[0].Object? && Empty(docs[0].gvk) {
        ProceedFindsTheNext(docs[1..]);
      }
    }
  }

  predicate Knows(manifest: seq<Doc>, l: Local, calls: seq<Request>, answers: seq<Response>)
    requires |calls| <= |answers| && !l.Returned?
  {
    var n, types := |calls|, Types(manifest);
    var k := if l.Checking? then Asked(calls) else Asked(calls) - 1;
    && 0 <= k < |types| && l.gvk == types[k] && types[k + 1..] == Types(l.rest)
    && (IsWellFormed(l.rest) <==> IsWellFormed(manifest))
    && (l.MappingOwner? ==> n > 0 && calls[n - 1] == MapResource(l.gvk) && answers[n - 1] == ScopeIs(l.dependent))
  }

  predicate Remembers(manifest: seq<Doc>, l: Local, calls: seq<Request>, answers: seq<Response>)
    requires |calls| <= |answers|
  {
    var n, types := |calls|, Types(manifest);
    && !l.Returned? && Knows(manifest, l, calls, answers)
    && (n == 0 ==> l.Checking?)
    && (n > 0 ==> types != [] && calls[0] == IsWatched(types[0]) && GoesOn(types, calls, answers, n - 1, Ask(l)))
    && (forall i :: 0 <= i < n - 1 ==> LeadsTo(types, calls, answers, i))
    && !MeetsRefusal(calls, answers)
  }

  lemma CallsStillLead(types: seq<Gvk>, calls: seq<Request>, answers: seq<Response>, next: Request)
    requires |calls| <= |answers|
    requires calls != [] ==> GoesOn(types, calls, answers, |calls| - 1, next)
    requires forall i :: 0 <= i < |calls| - 1 ==> LeadsTo(types, calls, answers, i)
    ensures forall i :: 0 <= i < |calls| ==> LeadsTo(types, calls + [next], answers, i)
  {
    forall i | 0 <= i < |calls| ensures LeadsTo(types, calls + [next], answers, i) {
      assert i < |calls| - 1 ==> LeadsTo(types, calls, answers, i);
      assert (calls + [next])[..i + 1] == calls[..i + 1];
    }
  }

  lemma RefusalIsMet(calls: seq<Request>, answers: seq<Response>, next: Request)
    requires |calls| < |answers|
    ensures MeetsRefusal(calls + [next], answers) <==> MeetsRefusal(calls, answers) || Refuses(next, answers[|calls|])
  {
    var calls', n := calls + [next], |calls|;
    if Refuses(next, answers[n]) {
      assert Refuses(calls'[n], answers[n]);
    }
    if MeetsRefusal(calls, answers) {
      var i :| 0 <= i < n && Refuses(calls[i], answers[i]);
      assert Refuses(calls'[i], answers[i]);
    }
    if MeetsRefusal(calls', answers) {
      var i :| 0 <= i < |calls'| && i < |answers| && Refuses(calls'[i], answers[i]);
      assert i < n ==> calls'[i] == calls[i];
    }
  }

  lemma NextTypeIsRemembered(manifest: seq<Doc>, l: Local, calls: seq<Request>, answers: seq<Response>)
    requires |calls| < |answers| && Remembers(manifest, l, calls, answers)
    requires IsDealtWith(Ask(l), answers[|calls|])
    ensures var calls', l' := calls + [Ask(l)], Resume(l, answers[|calls|]);
      if l'.Returned? then Tells(manifest, calls', answers, Some(l'.ok)) else Remembers(manifest, l', calls', answers)
  {
    var calls', types := calls + [Ask(l)], Types(manifest);
    assert calls'[..|calls|] == calls && calls'[..|calls| + 1] == calls';
    CallsStillLead(types, calls, answers, Ask(l));
    RefusalIsMet(calls, answers, Ask(l));
    ProceedFindsTheNext(l.rest);
  }

  /** An answer that leaves the type at hand to be dealt with: the next call is for the same type. */
  lemma SameTypeStays(manifest: seq<Doc>, l: Local, calls: seq<Request>, answers: seq<Response>)
    requires |calls| < |answers| && !l.Returned? && Knows(manifest, l, calls, answers)
    requires !IsDealtWith(Ask(l), answers[|calls|]) && !Refuses(Ask(l), answers[|calls|])
    ensures var calls', l' := calls + [Ask(l)], Resume(l, answers[|calls|]);
      && !l'.Returned? && !l'.Checking? && Knows(manifest, l', calls', answers)
      && Follows(Types(manifest), calls', answers, |calls'|, Ask(l'))
  {
    var calls' := calls + [Ask(l)];
    assert calls'[..|calls|] == calls;
  }

  lemma RefusalReturns(l: Local, r: Response)
    requires !l.Returned? && Refuses(Ask(l), r)
    ensures Resume(l, r) == Returned(false)
  {
  }

  lemma SameTypeIsRemembered(manifest: seq<Doc>, l: Local, calls: seq<Request>, answers: seq<Response>)
    requires |calls| < |answers| && Remembers(manifest, l, calls, answers)
    requires !IsDealtWith(Ask(l), answers[|calls|])
    ensures var calls', l' := calls + [Ask(l)], Resume(l, answers[|calls|]);
      if l'.Returned? then Tells(manifest, calls', answers, Some(l'.ok)) else Remembers(manifest, l', calls', answers)
  {
    CallsStillLead(Types(manifest), calls, answers, Ask(l));
    RefusalIsMet(calls, answers, Ask(l));
    if Refuses(Ask(l), answers[|calls|]) {
      RefusalReturns(l, answers[|calls|]);
    } else {
      SameTypeStays(manifest, l, calls, answers);
    }
  }

  lemma StillRemembers(manifest: seq<Doc>, l: Local, calls: seq<Request>, answers: seq<Response>)
    requires |calls| < |answers| && Remembers(manifest, l, calls, answers)
    ensures var calls', l' := calls + [Ask(l)], Resume(l, answers[|calls|]);
      if l'.Returned? then Tells(manifest, calls', answers, Some(l'.ok)) else Remembers(manifest, l', calls', answers)
  {
    if IsDealtWith(Ask(l), answers[|calls|]) {
      NextTypeIsRemembered(manifest, l, calls, answers);
    } else {
      SameTypeIsRemembered(manifest, l, calls, answers);
    }
  }

  lemma {:induction false} RestIsTold(manifest: seq<Doc>, l: Local, calls: seq<Request>, answers: seq<Response>)
    requires |calls| <= |answers| && Remembers(manifest, l, calls, answers)
    ensures var run := After(calls, l, answers[|calls|..]);
      Tells(manifest, run.calls, answers, ResultOf(run.end))
    decreases |answers| - |calls|
  {
    var rest := answers[|calls|..];
    if rest == [] {
      CallsStillLead(Types(manifest), calls, answers, Ask(l));
    } else {
      StillRemembers(manifest, l, calls, answers);
      assert rest[1..] == answers[|calls| + 1..];
      if !Resume(l, rest[0]).Returned? {
        RestIsTold(manifest, Resume(l, rest[0]), calls + [Ask(l)], answers);
      }
    }
  }

  function ResultOf(l: Local): Option<bool> {
    if l.Returned? then Some(l.ok) else None
  }

  lemma {:induction false} CallsAreAppended(before: seq<Request>, calls: seq<Request>, l: Local, answers: seq<Response>)
    ensures var run := After(calls, l, answers); After(before + calls, l, answers) == Run(before + run.calls, run.end)
    decreases |answers|
  {
    if !l.Returned? {
      assert before + (calls + [Ask(l)]) == before + calls + [Ask(l)];
      if answers != [] {
        CallsAreAppended(before, calls + [Ask(l)], Resume(l, answers[0]), answers[1..]);
      }
    }
  }

  /** Every run of the hook, whatever was called before it. */
  lemma EveryRunIsTold(manifest: seq<Doc>, before: seq<Request>, answers: seq<Response>)
    ensures var run := After(before, Proceed(manifest), answers);
      before <= run.calls && Tells(manifest, run.calls[|before|..], answers, ResultOf(run.end))
  {
    CallsAreAppended(before, [], Proceed(manifest), answers);
    ProceedFindsTheNext(manifest);
    assert answers[0..] == answers;
    if !Proceed(manifest).Returned? {
      RestIsTold(manifest, Proceed(manifest), [], answers);
    }
    var run := After([], Proceed(manifest), answers);
    assert before + [] == before;
    assert (before + run.calls)[|before|..] == run.calls;
  }

  // ------------------------------------------------------------ the source's form

  /** What the hook does with a type it has not seen in the set; whether it goes on. */
  method AddWatch(api: Client<Request, Response>, gvk: Gvk, ghost rest: seq<Doc>) returns (ok: Option<bool>)
    modifies api
    ensures var run := old(After(api.calls, Mapping(gvk, rest), api.answers));
      match ok
      case Some(true) => After(api.calls, Proceed(rest), api.answers) == run
      case Some(false) => run == Run(api.calls, Returned(false))
      case None => run.calls == api.calls && !run.end.Returned?
  {
    ghost var run := After(api.calls, Mapping(gvk, rest), api.answers);
    var dep := api.Call(MapResource(gvk));
    if dep.None? { return None; }
    assert After(api.calls, Resume(Mapping(gvk, rest), dep.value), api.answers) == run;
    if !dep.value.ScopeIs? { return Some(false); }
    var own := api.Call(MapOwner);
    if own.None? { return None; }
    assert After(api.calls, Resume(MappingOwner(gvk, dep.value.scope, rest), own.value), api.answers) == run;
    if !own.value.ScopeIs? { return Some(false); }
    var depClusterScoped := dep.value.scope == ClusterScoped;
    var ownerClusterScoped := own.value.scope == ClusterScoped;
    if ownerClusterScoped || !depClusterScoped {
      var watched := api.Call(Watch(gvk));
      if watched.None? { return None; }
      assert After(api.calls, Resume(Watching(gvk, rest), watched.value), api.answers) == run;
      if watched.value.Failure? { return Some(false); }
    }
    var recorded := api.Call(Record(gvk));
    if recorded.None? { return None; }
    return Some(true);
  }

  /** The loop over the documents. */
  method WatchAll(api: Client<Request, Response>, manifest: seq<Doc>) returns (ok: Option<bool>)
    modifies api
    ensures var run := old(After(api.calls, Proceed(manifest), api.answers));
      api.calls == run.calls && ok == ResultOf(run.end)
  {
    ghost var run := After(api.calls, Proceed(manifest), api.answers);
    for i := 0 to |manifest|
      invariant After(api.calls, Proceed(manifest[i..]), api.answers) == run
    {
      ghost var rest := manifest[i + 1..];
      assert manifest[i..][1..] == rest;
      if manifest[i].Malformed? { return Some(false); }
      var gvk := manifest[i].gvk;
      if !Empty(gvk) {
        var watched := api.Call(IsWatched(gvk));
        if watched.None? { return None; }
        assert After(api.calls, Resume(Checking(gvk, rest), watched.value), api.answers) == run;
        if !watched.value.Yes? {
          ok := AddWatch(api, gvk, rest);
          if ok != Some(true) { return ok; }
        }
      }
    }
    return Some(true);
  }

  /** The hook itself; None stands for a process that ended during a call. */
  method ReleaseHook(api: Client<Request, Response>, manifest: seq<Doc>) returns (ok: Option<bool>)
    modifies api
    ensures var run := old(After(api.calls, Proceed(manifest), api.answers));
      api.calls == run.calls && ok == ResultOf(run.end)
    ensures old(api.calls) <= api.calls
    ensures var calls, answers := api.calls[|old(api.calls)|..], old(api.answers);
      && Tells(manifest, calls, answers, ok)
      && (ok.Some? ==> (ok == Some(false) <==> MeetsRefusal(calls, answers) || Malformed in manifest))
  {
    EveryRunIsTold(manifest, api.calls, api.answers);
    ok := WatchAll(api, manifest);
  }

  // ------------------------------------------------------------ many workers

  datatype Worker = Worker(manifest: seq<Doc>, at: Local)

  /** calls lists the successful Watch calls with the workers that made them. */
  datatype System = System(
    scopes: map<Gvk, Scope>,
    owner: Scope,
    watches: set<Gvk>,
    workers: map<nat, Worker>,
    calls: seq<(nat, Gvk)>)

  datatype Step = StartHook(worker: nat, manifest: seq<Doc>) | Act(worker: nat, fails: bool)

  predicate Enabled(s: System, step: Step) {
    step.worker in s.workers &&
    match step
    case StartHook(w, _) => s.workers[w].at.Returned?
    case Act(w, _) => !s.workers[w].at.Returned?
  }

  /** What the mutex, the REST mapper and the controller answer. */
  function Answer(s: System, l: Local, fails: bool): Response
    requires !l.Returned?
  {
    match l
    case Checking(g, _) => if g in s.watches then Yes else No
    case Mapping(g, _) => if fails || g !in s.scopes then Failure else ScopeIs(s.scopes[g])
    case MappingOwner(_, _, _) => if fails then Failure else ScopeIs(s.owner)
    case Watching(_, _) => if fails then Failure else Done
    case Recording(_, _) => Done
  }

  function Next(s: System, step: Step): System
    requires Enabled(s, step)
  {
    match step
    case StartHook(w, manifest) =>
      s.(workers := s.workers[w := Worker(manifest, Proceed(manifest))])
    case Act(w, fails) =>
      var l := s.workers[w].at;
      s.(workers := s.workers[w := s.workers[w].(at := Resume(l, Answer(s, l, fails)))],
         watches := if l.Recording? then s.watches + {l.gvk} else s.watches,
         calls := if l.Watching? && !fails then s.calls + [(w, l.gvk)] else s.calls)
  }

  predicate IsRun(s: System, steps: seq<Step>)
    decreases |steps|
  {
    steps == [] || (Enabled(s, steps[0]) && IsRun(Next(s, steps[0]), steps[1..]))
  }

  function Final(s: System, steps: seq<Step>): System
    requires IsRun(s, steps)
    decreases |steps|
  {
    if steps == [] then s else Final(Next(s, steps[0]), steps[1..])
  }

  predicate Initial(s: System) {
    s.watches == {} && s.calls == [] && forall w :: w in s.workers ==> s.workers[w] == Worker([], Returned(true))
  }

  // -------------------------------------------------------------- invariant

  /** At the cluster scope while the owner is namespaced: never watched. */
  predicate Unwatchable(s: System, g: Gvk) {
    g in s.scopes && s.scopes[g].ClusterScoped? && !s.owner.ClusterScoped?
  }

  /** The documents of a manifest that come before the rest have been dealt with. */
  predicate Covered(s: System, docs: seq<Doc>) {
    forall i :: 0 <= i < |docs| ==> docs[i].Object? && (!Empty(docs[i].gvk) ==> docs[i].gvk in s.watches)
  }

  predicate OnManifest(s: System, w: Worker) {
    match w.at
    case Returned(ok) => ok ==> Covered(s, w.manifest)
    case l =>
      var done := |w.manifest| - |l.rest| - 1;
      && 0 <= done && w.manifest[done] == Object(l.gvk) && w.manifest[done + 1..] == l.rest
      && Covered(s, w.manifest[..done])
  }

  /** A worker past its check has not watched this type before; one that has watched it is about to record it. */
  predicate WatchesOnce(s: System, w: nat)
    requires w in s.workers
  {
    var l := s.workers[w].at;
    && (forall i :: 0 <= i < |s.calls| && s.calls[i].0 == w && s.calls[i].1 !in s.watches ==>
          l.Recording? && l.gvk == s.calls[i].1)
    && (l.Mapping? || l.MappingOwner? || l.Watching? ==> (w, l.gvk) !in s.calls)
  }

  /** What a worker has learnt about the scope of its type. */
  predicate ScopeIsRight(s: System, w: nat)
    requires w in s.workers
  {
    var l := s.workers[w].at;
    && (l.MappingOwner? ==> l.gvk in s.scopes && l.dependent == s.scopes[l.gvk])
    && (l.Recording? ==> Unwatchable(s, l.gvk) || (w, l.gvk) in s.calls)
  }

  predicate WatchIsJustified(s: System, g: Gvk) {
    Unwatchable(s, g) || exists w :: w in s.workers && (w, g) in s.calls
  }

  predicate Inv(s: System) {
    && (forall i :: 0 <= i < |s.calls| ==> s.calls[i].0 in s.workers)
    && (forall i, j :: 0 <= i < j < |s.calls| ==> s.calls[i] != s.calls[j])
    && (forall g :: g in s.watches ==> WatchIsJustified(s, g))
    && (forall w :: w in s.workers ==>
          WatchesOnce(s, w) && ScopeIsRight(s, w) && OnManifest(s, s.workers[w]))
  }

  lemma {:induction false} ProceedSkips(s: System, docs: seq<Doc>, done: nat)
    requires done <= |docs| && Covered(s, docs[..done])
    ensures OnManifest(s, Worker(docs, Proceed(docs[done..])))
    decreases |docs| - done
  {
    if done < |docs| {
      assert docs[done..][1..] == docs[done + 1..];
      if docs[done].Object? && Empty(docs[done].gvk) {
        assert docs[..done + 1] == docs[..done] + [docs[done]];
        ProceedSkips(s, docs, done + 1);
      }
    } else {
      assert docs[..done] == docs;
    }
  }

  lemma ActOnManifest(s: System, w: nat, fails: bool)
    requires Enabled(s, Act(w, fails)) && OnManifest(s, s.workers[w])
    ensures OnManifest(Next(s, Act(w, fails)), Next(s, Act(w, fails)).workers[w])
  {
    var s', l, docs := Next(s, Act(w, fails)), s.workers[w].at, s.workers[w].manifest;
    var done := |docs| - |l.rest| - 1;
    if l.Recording? || (l.Checking? && l.gvk in s.watches) {
      assert docs[..done + 1] == docs[..done] + [docs[done]];
      ProceedSkips(s', docs, done + 1);
    }
  }

  /** The worker that acts: one Watch call per type, then the record. */
  lemma ActorWatchesOnce(s: System, w: nat, fails: bool)
    requires Enabled(s, Act(w, fails)) && WatchesOnce(s, w) && ScopeIsRight(s, w)
    ensures var s' := Next(s, Act(w, fails)); WatchesOnce(s', w) && ScopeIsRight(s', w)
  {
    var s', l := Next(s, Act(w, fails)), s.workers[w].at;
    if l.Watching? && !fails {
      assert s'.calls[|s.calls|] == (w, l.gvk);
    }
  }

  lemma ActKeepsInv(s: System, w: nat, fails: bool)
    requires Inv(s) && Enabled(s, Act(w, fails))
    ensures Inv(Next(s, Act(w, fails)))
  {
    var s' := Next(s, Act(w, fails));
    assert WatchesOnce(s, w) && ScopeIsRight(s, w);
    forall v | v in s'.workers
      ensures WatchesOnce(s', v) && ScopeIsRight(s', v) && OnManifest(s', s'.workers[v])
    {
      assert WatchesOnce(s, v) && ScopeIsRight(s, v) && OnManifest(s, s.workers[v]);
      if v == w {
        ActorWatchesOnce(s, w, fails);
        ActOnManifest(s, w, fails);
      }
    }
    forall i, j | 0 <= i < j < |s'.calls| ensures s'.calls[i] != s'.calls[j] {
      assert i < |s.calls| ==> s'.calls[i] == s.calls[i] && s.calls[i] in s.calls;
    }
    forall g | g in s'.watches ensures WatchIsJustified(s', g) {
      if g in s.watches && !Unwatchable(s, g) {
        var v :| v in s.workers && (v, g) in s.calls;
        assert (v, g) in s'.calls;
      } else if g !in s.watches && !Unwatchable(s, g) {
        assert w in s'.workers && (w, g) in s'.calls;
      }
    }
  }

  lemma NextKeepsInv(s: System, step: Step)
    requires Inv(s) && Enabled(s, step)
    ensures Inv(Next(s, step)) && s.watches <= Next(s, step).watches
  {
    match step {
      case Act(w, fails) => ActKeepsInv(s, w, fails);
      case StartHook(w, manifest) =>
        var s' := Next(s, step);
        assert manifest[..0] == [] && manifest[0..] == manifest;
        ProceedSkips(s', manifest, 0);
        forall v | v in s'.workers
          ensures WatchesOnce(s', v) && ScopeIsRight(s', v) && OnManifest(s', s'.workers[v])
        {
          assert WatchesOnce(s, v) && ScopeIsRight(s, v) && OnManifest(s, s.workers[v]);
        }
        forall g | g in s'.watches ensures WatchIsJustified(s', g) {
          assert WatchIsJustified(s, g);
        }
    }
  }

  lemma {:induction false} RunKeepsInv(s: System, steps: seq<Step>)
    requires Inv(s) && IsRun(s, steps)
    ensures Inv(Final(s, steps)) && s.watches <= Final(s, steps).watches
    ensures Final(s, steps).workers.Keys == s.workers.Keys
    decreases |steps|
  {
    if steps != [] {
      NextKeepsInv(s, steps[0]);
      RunKeepsInv(Next(s, steps[0]), steps[1..]);
    }
  }

  // --------------------------------------------------------------- the promises

  /** The workers that watched g, one entry per successful call. */
  function WatchersOf(calls: seq<(nat, Gvk)>, g: Gvk): seq<nat> {
    if calls == [] then []
    else
      var before := WatchersOf(calls[..|calls| - 1], g);
      var last := calls[|calls| - 1];
      if last.1 == g then before + [last.0] else before
  }

  predicate Distinct(ws: seq<nat>) {
    forall i, j :: 0 <= i < j < |ws| ==> ws[i] != ws[j]
  }

  lemma {:induction false} WatchersAreDistinct(calls: seq<(nat, Gvk)>, g: Gvk)
    requires forall i, j :: 0 <= i < j < |calls| ==> calls[i] != calls[j]
    ensures forall w :: w in WatchersOf(calls, g) ==> (w, g) in calls
    ensures Distinct(WatchersOf(calls, g))
  {
    if calls != [] {
      var front, last := calls[..|calls| - 1], calls[|calls| - 1];
      WatchersAreDistinct(front, g);
      var before := WatchersOf(front, g);
      if last.1 == g {
        assert last == (last.0, g) && last !in front;
        assert WatchersOf(calls, g) == before + [last.0];
      }
    }
  }

  lemma {:induction false} DistinctFit(ws: seq<nat>, workers: set<nat>)
    requires Distinct(ws)
    requires forall i :: 0 <= i < |ws| ==> ws[i] in workers
    ensures |ws| <= |workers|
  {
    if ws != [] {
      var front, last := ws[..|ws| - 1], ws[|ws| - 1];
      DistinctFit(front, workers - {last});
    }
  }

  /** With W workers no type is ever watched successfully more than W times. */
  lemma AtMostOneWatchPerWorker(s: System, steps: seq<Step>, g: Gvk)
    requires Initial(s) && IsRun(s, steps)
    ensures |WatchersOf(Final(s, steps).calls, g)| <= |s.workers|
  {
    RunKeepsInv(s, steps);
    var calls := Final(s, steps).calls;
    var ws := WatchersOf(calls, g);
    WatchersAreDistinct(calls, g);
    forall i | 0 <= i < |ws| ensures ws[i] in s.workers.Keys {
      assert ws[i] in ws && (ws[i], g) in calls;
    }
    DistinctFit(ws, s.workers.Keys);
  }

  /** The set only grows, and holds only types that were watched or cannot be. */
  lemma WatchesAreJustified(s: System, steps: seq<Step>, more: seq<Step>, g: Gvk)
    requires Initial(s) && IsRun(s, steps) && IsRun(Final(s, steps), more)
    requires g in Final(s, steps).watches
    ensures g in Final(Final(s, steps), more).watches
    ensures WatchIsJustified(Final(s, steps), g)
  {
    RunKeepsInv(s, steps);
    RunKeepsInv(Final(s, steps), more);
  }

  /** A hook that returned nil has left every non-empty type of its manifest in the set. */
  lemma NilMeansCovered(s: System, steps: seq<Step>, w: nat)
    requires Initial(s) && IsRun(s, steps) && w in s.workers
    requires w in Final(s, steps).workers && Final(s, steps).workers[w].at == Returned(true)
    ensures Covered(Final(s, steps), Final(s, steps).workers[w].manifest)
  {
    RunKeepsInv(s, steps);
    assert OnManifest(Final(s, steps), Final(s, steps).workers[w]);
  }

  // ------------------------------------------------------ only what can be watched

  /** A type that a Watch call is ever made for. */
  predicate IsWatchable(s: System, g: Gvk) {
    !Empty(g) && g in s.scopes && !Unwatchable(s, g)
  }

  /** How far a worker can get with a type. */
  predicate GetsNoFurther(s: System, l: Local) {
    && (!l.Returned? ==> !Empty(l.gvk))
    && (l.MappingOwner? ==> l.gvk in s.scopes && l.dependent == s.scopes[l.gvk])
    && (l.Watching? ==> IsWatchable(s, l.gvk))
  }

  predicate OnlyWatchable(s: System) {
    && (forall i :: 0 <= i < |s.calls| ==> IsWatchable(s, s.calls[i].1))
    && (forall w :: w in s.workers ==> GetsNoFurther(s, s.workers[w].at))
  }

  lemma {:induction false} RunKeepsOnlyWatchable(s: System, steps: seq<Step>)
    requires OnlyWatchable(s) && IsRun(s, steps)
    ensures OnlyWatchable(Final(s, steps))
    ensures Final(s, steps).scopes == s.scopes && Final(s, steps).owner == s.owner
    decreases |steps|
  {
    if steps != [] {
      var s' := Next(s, steps[0]);
      assert GetsNoFurther(s, s.workers[steps[0].worker].at);
      forall i | 0 <= i < |s'.calls| ensures IsWatchable(s', s'.calls[i].1) {
        assert i < |s.calls| ==> IsWatchable(s, s.calls[i].1);
      }
      forall w | w in s'.workers ensures GetsNoFurther(s', s'.workers[w].at) {
        assert GetsNoFurther(s, s.workers[w].at);
      }
      RunKeepsOnlyWatchable(s', steps[1..]);
    }
  }

  // ------------------------------------------------- how often a type can be watched

  lemma {:induction false} RunsConcatenate(s: System, a: seq<Step>, b: seq<Step>)
    requires IsRun(s, a) && IsRun(Final(s, a), b)
    ensures IsRun(s, a + b) && Final(s, a + b) == Final(Final(s, a), b)
    decreases |a|
  {
    if a == [] {
      assert a + b == b;
    } else {
      assert (a + b)[1..] == a[1..] + b;
      RunsConcatenate(Next(s, a[0]), a[1..], b);
    }
  }

  function MovedTo(s: System, w: nat, manifest: seq<Doc>, at: Local): System {
    s.(workers := s.workers[w := Worker(manifest, at)])
  }

  /** A worker with g in its manifest gets past the check as long as nobody has recorded g. */
  lemma ReachesWatch(s: System, w: nat, g: Gvk) returns (steps: seq<Step>)
    requires w in s.workers && s.workers[w].at.Returned?
    requires g !in s.watches && IsWatchable(s, g)
    ensures IsRun(s, steps) && Final(s, steps) == MovedTo(s, w, [Object(g)], Watching(g, []))
  {
    var act := Act(w, false);
    var docs := [Object(g)];
    assert docs[1..] == [];
    var s1 := Next(s, StartHook(w, docs));
    var s2 := Next(s1, act);
    var s3 := Next(s2, act);
    var s4 := Next(s3, act);
    assert s1 == MovedTo(s, w, docs, Checking(g, []));
    assert s2 == MovedTo(s, w, docs, Mapping(g, []));
    assert s3 == MovedTo(s, w, docs, MappingOwner(g, s.scopes[g], []));
    assert s4 == MovedTo(s, w, docs, Watching(g, []));
    steps := [StartHook(w, docs), act, act, act];
    assert steps[3..] == [act] && [act][1..] == [];
    assert IsRun(s4, []) && IsRun(s3, steps[3..]) && Final(s3, steps[3..]) == s4;
    assert steps[2..][1..] == steps[3..] && IsRun(s2, steps[2..]) && Final(s2, steps[2..]) == s4;
    assert steps[1..][1..] == steps[2..] && IsRun(s1, steps[1..]) && Final(s1, steps[1..]) == s4;
  }

  lemma {:induction false} AllReachWatch(s: System, ws: set<nat>, g: Gvk) returns (steps: seq<Step>)
    requires ws <= s.workers.Keys
    requires forall w :: w in ws ==> s.workers[w].at.Returned?
    requires g !in s.watches && IsWatchable(s, g)
    ensures IsRun(s, steps)
    ensures var t := Final(s, steps);
      && t == s.(workers := t.workers) && t.workers.Keys == s.workers.Keys
      && forall w :: w in s.workers ==>
           if w in ws then t.workers[w].at == Watching(g, []) else t.workers[w] == s.workers[w]
    decreases ws
  {
    steps := [];
    if ws != {} {
      var w :| w in ws;
      var others := AllReachWatch(s, ws - {w}, g);
      var last := ReachesWatch(Final(s, others), w, g);
      RunsConcatenate(s, others, last);
      steps := others + last;
    }
  }

  lemma {:induction false} AllWatch(s: System, ws: set<nat>, g: Gvk) returns (steps: seq<Step>)
    requires ws <= s.workers.Keys && forall w :: w in ws ==> s.workers[w].at == Watching(g, [])
    ensures IsRun(s, steps)
    ensures |WatchersOf(Final(s, steps).calls, g)| == |WatchersOf(s.calls, g)| + |ws|
    decreases ws
  {
    steps := [];
    if ws != {} {
      var w :| w in ws;
      var t := Next(s, Act(w, false));
      assert t.calls[..|s.calls|] == s.calls;
      var rest := AllWatch(t, ws - {w}, g);
      steps := [Act(w, false)] + rest;
      assert steps[1..] == rest;
    }
  }

  lemma {:induction false} SomeOf(ws: set<nat>, n: nat) returns (some: set<nat>)
    requires n <= |ws|
    ensures some <= ws && |some| == n
  {
    if n == 0 {
      some := {};
    } else {
      var w :| w in ws;
      var others := SomeOf(ws - {w}, n - 1);
      some := others + {w};
    }
  }

  /** Some run makes exactly n successful Watch calls for g. */
  ghost predicate CanBeWatched(s: System, g: Gvk, n: nat) {
    exists steps :: IsRun(s, steps) && |WatchersOf(Final(s, steps).calls, g)| == n
  }

  /** The check and the record are not one step: any number of workers can watch one type. */
  lemma SomeWatch(s: System, g: Gvk, n: nat)
    requires Initial(s) && IsWatchable(s, g) && n <= |s.workers|
    ensures CanBeWatched(s, g, n)
  {
    assert |s.workers.Keys| == |s.workers|;
    var ws := SomeOf(s.workers.Keys, n);
    var arrive := AllReachWatch(s, ws, g);
    var watch := AllWatch(Final(s, arrive), ws, g);
    RunsConcatenate(s, arrive, watch);
    assert IsRun(s, arrive + watch) && |WatchersOf(Final(s, arrive + watch).calls, g)| == n;
  }

  lemma {:induction false} WatchedIsCalled(calls: seq<(nat, Gvk)>, g: Gvk) returns (i: nat)
    requires WatchersOf(calls, g) != []
    ensures i < |calls| && calls[i].1 == g
  {
    i := |calls| - 1;
    if calls[i].1 != g {
      i := WatchedIsCalled(calls[..i], g);
    }
  }

  lemma OnlyWatchableIsWatched(s: System, steps: seq<Step>, g: Gvk)
    requires Initial(s) && IsRun(s, steps) && WatchersOf(Final(s, steps).calls, g) != []
    ensures IsWatchable(s, g)
  {
    RunKeepsOnlyWatchable(s, steps);
    var i := WatchedIsCalled(Final(s, steps).calls, g);
    assert IsWatchable(Final(s, steps), Final(s, steps).calls[i].1);
  }

  /**
   Exactly how often a type can be watched: some run watches it n times exactly when
   there are at least n workers, and it has a type and a known scope, and is not at the cluster
   scope under a namespaced owner.
   */
  lemma CanBeWatchedExactlyWhen(s: System, g: Gvk, n: nat)
    requires Initial(s) && n > 0
    ensures CanBeWatched(s, g, n) <==> n <= |s.workers| && IsWatchable(s, g)
  {
    if n <= |s.workers| && IsWatchable(s, g) {
      SomeWatch(s, g, n);
    }
    forall steps | IsRun(s, steps) && |WatchersOf(Final(s, steps).calls, g)| == n
      ensures n <= |s.workers| && IsWatchable(s, g)
    {
      AtMostOneWatchPerWorker(s, steps, g);
      OnlyWatchableIsWatched(s, steps, g);
    }
  }

  /** So a second watch on a type is possible exactly with two workers and a type that can be watched at all. */
  lemma WatchedTwiceExactlyWhen(s: System, g: Gvk)
    requires Initial(s)
    ensures (exists n :: n > 1 && CanBeWatched(s, g, n)) <==> |s.workers| > 1 && IsWatchable(s, g)
  {
    forall n | n > 1 && CanBeWatched(s, g, n) ensures |s.workers| > 1 && IsWatchable(s, g) {
      CanBeWatchedExactlyWhen(s, g, n);
    }
    if |s.workers| > 1 && IsWatchable(s, g) {
      CanBeWatchedExactlyWhen(s, g, 2);
      assert CanBeWatched(s, g, 2);
    }
  }

  // ------------------------------------------------------- once everything is watched

  /** The acts of a worker in a run. */
  function ActsOf(steps: seq<Step>, w: nat): nat {
    if steps == [] then 0
    else (if steps[0].Act? && steps[0].worker == w then 1 else 0) + ActsOf(steps[1..], w)
  }

  /** n types are left to look up, and all of them are in the set. */
  predicate IsAtEase(s: System, l: Local, n: nat) {
    match l
    case Returned(ok) => ok && n == 0
    case Checking(g, rest) => g in s.watches && Covered(s, rest) && n == 1 + |Types(rest)|
    case _ => false
  }

  lemma {:induction false} CoveredIsAtEase(s: System, docs: seq<Doc>)
    requires Covered(s, docs)
    ensures IsAtEase(s, Proceed(docs), |Types(docs)|)
  {
    if docs != [] {
      assert forall i :: 0 <= i < |docs| - 1 ==> docs[1..][i] == docs[i + 1];
      CoveredIsAtEase(s, docs[1..]);
    }
  }

  lemma StepKeepsEase(s: System, step: Step, w: nat, n: nat)
    requires w in s.workers && IsAtEase(s, s.workers[w].at, n)
    requires Enabled(s, step) && !(step.StartHook? && step.worker == w)
    ensures var acts := if step.Act? && step.worker == w then 1 else 0;
      acts <= n && IsAtEase(Next(s, step), Next(s, step).workers[w].at, n - acts)
    ensures forall g :: (w, g) in Next(s, step).calls ==> (w, g) in s.calls
  {
    if step.Act? && step.worker == w {
      CoveredIsAtEase(s, s.workers[w].at.rest);
    }
  }

  lemma {:induction false} EaseLasts(s: System, steps: seq<Step>, w: nat, n: nat)
    requires w in s.workers && IsAtEase(s, s.workers[w].at, n)
    requires IsRun(s, steps) && forall i :: 0 <= i < |steps| ==> !(steps[i].StartHook? && steps[i].worker == w)
    ensures ActsOf(steps, w) <= n && w in Final(s, steps).workers
    ensures IsAtEase(Final(s, steps), Final(s, steps).workers[w].at, n - ActsOf(steps, w))
    ensures forall g :: (w, g) in Final(s, steps).calls ==> (w, g) in s.calls
    decreases |steps|
  {
    if steps != [] {
      StepKeepsEase(s, steps[0], w, n);
      assert forall i :: 0 <= i < |steps| - 1 ==> steps[1..][i] == steps[i + 1];
      EaseLasts(Next(s, steps[0]), steps[1..], w, n - if steps[0].Act? && steps[0].worker == w then 1 else 0);
    }
  }

  /**
   A hook whose types are all in the set, as after the first release of the chart: whatever
   the other workers do, and whatever would fail, it returns nil with its n-th act if it has
   n types, never fails, and watches nothing.
   */
  lemma CoveredHookReturnsNil(s: System, w: nat, manifest: seq<Doc>, steps: seq<Step>)
    requires Enabled(s, StartHook(w, manifest)) && Covered(s, manifest)
    requires var t := Next(s, StartHook(w, manifest));
      IsRun(t, steps) && forall i :: 0 <= i < |steps| ==> !(steps[i].StartHook? && steps[i].worker == w)
    ensures var u := Final(Next(s, StartHook(w, manifest)), steps);
      && ActsOf(steps, w) <= |Types(manifest)|
      && w in u.workers
      && (if ActsOf(steps, w) == |Types(manifest)| then u.workers[w].at == Returned(true) else !u.workers[w].at.Returned?)
      && forall g :: (w, g) in u.calls ==> (w, g) in s.calls
  {
    var t := Next(s, StartHook(w, manifest));
    CoveredIsAtEase(t, manifest);
    EaseLasts(t, steps, w, |Types(manifest)|);
  }
}
