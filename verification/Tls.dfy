/**
 TLS assets of a custom resource, one call: GenerateCert (operator-sdk/pkg/tls/tls.go)
 without a custom CA. A private key is an identifier; a certificate names the key it
 certifies and the key that signed it.
 */
module Tls {
  import opened Wrappers
  import opened Api
  import Text

  datatype Cert = Cert(subject: nat, signer: nat)

  datatype Secret = CaSecret(key: nat) | TlsSecret(key: nat, cert: Cert)

  function ToAppSecretName(kind: string, name: string, certName: string): string {
    Text.LowerAll(kind) + "-" + name + "-" + certName
  }

  function ToCASecretAndConfigMapName(kind: string, name: string): string {
    Text.LowerAll(kind) + "-" + name + "-ca"
  }

  /** An application secret takes the name of the CA secret for exactly one certificate name. */
  lemma AppNameIsCaNameExactlyFor(kind: string, name: string, certName: string)
    ensures ToAppSecretName(kind, name, certName) == ToCASecretAndConfigMapName(kind, name) <==> certName == "ca"
  {
    var prefix := Text.LowerAll(kind) + "-" + name + "-";
    var app, ca := ToAppSecretName(kind, name, certName), ToCASecretAndConfigMapName(kind, name);
    assert app == prefix + certName && ca == prefix + "ca";
    assert app[|prefix|..] == certName && ca[|prefix|..] == "ca";
  }

  datatype Error = EmptyCertName | CaHalfMissing | CANotFound | NotACaKey | CallFailed

  datatype Request =
    | GetSecret(name: string)
    | GetConfigMap(name: string)
    | NewKey
    | CreateSecret(name: string, secret: Secret)
    | CreateConfigMap(name: string, cert: Cert)

  /** NewKey covers making a key and signing with it: either may fail, and neither touches the cluster. */
  datatype Response =
    | SecretIs(secret: Secret)
    | CertIs(cert: Cert)
    | KeyIs(key: nat)
    | NotFound
    | Done
    | Failure

  datatype Names = Names(app: string, ca: string)

  datatype Local =
    | ReadingApp
    | ReadingMap(app: Option<Secret>)
    | ReadingCa(app: Option<Secret>, caMap: Option<Cert>)
    | MakingCa
    | CreatingCaSecret(key: nat)
    | CreatingCaMap(key: nat)
    | MakingKey(cert: Cert, ca: Secret)
    | CreatingApp(cert: Cert, ca: Secret, secret: Secret)
    | Returned(secret: Secret, cert: Cert, ca: Secret)
    | Failed(error: Error)
  {
    predicate Ended() {
      Returned? || Failed?
    }
  }

  function Ask(n: Names, l: Local): Request
    requires !l.Ended()
  {
    match l
    case ReadingApp => GetSecret(n.app)
    case ReadingMap(_) => GetConfigMap(n.ca)
    case ReadingCa(_, _) => GetSecret(n.ca)
    case MakingCa => NewKey
    case CreatingCaSecret(k) => CreateSecret(n.ca, CaSecret(k))
    case CreatingCaMap(k) => CreateConfigMap(n.ca, Cert(k, k))
    case MakingKey(_, _) => NewKey
    case CreatingApp(_, _, s) => CreateSecret(n.app, s)
  }

  /** What GenerateCert decides once it has read everything. */
  function Decide(app: Option<Secret>, caMap: Option<Cert>, ca: Option<Secret>): Local {
    if caMap.Some? != ca.Some? then Failed(CaHalfMissing)
    else if app.Some? && ca.Some? then Returned(app.value, caMap.value, ca.value)
    else if app.Some? then Failed(CANotFound)
    else if ca.None? then MakingCa
    else if !ca.value.CaSecret? then Failed(NotACaKey)
    else MakingKey(caMap.value, ca.value)
  }

  function Resume(l: Local, r: Response): Local
    requires !l.Ended()
  {
    match l
    case ReadingApp =>
      if r.SecretIs? then ReadingMap(Some(r.secret))
      else if r.NotFound? then ReadingMap(None)
      else Failed(CallFailed)
    case ReadingMap(app) =>
      if r.CertIs? then ReadingCa(app, Some(r.cert))
      else if r.NotFound? then ReadingCa(app, None)
      else Failed(CallFailed)
    case ReadingCa(app, caMap) =>
      if r.SecretIs? then Decide(app, caMap, Some(r.secret))
      else if r.NotFound? then Decide(app, caMap, None)
      else Failed(CallFailed)
    case MakingCa => if r.KeyIs? then CreatingCaSecret(r.key) else Failed(CallFailed)
    case CreatingCaSecret(k) => if r.Done? then CreatingCaMap(k) else Failed(CallFailed)
    case CreatingCaMap(k) => if r.Done? then MakingKey(Cert(k, k), CaSecret(k)) else Failed(CallFailed)
    case MakingKey(cert, ca) =>
      if r.KeyIs? then CreatingApp(cert, ca, TlsSecret(r.key, Cert(r.key, ca.key))) else Failed(CallFailed)
    case CreatingApp(cert, ca, s) => if r.Done? then Returned(s, cert, ca) else Failed(CallFailed)
  }

  datatype Run = Run(calls: seq<Request>, end: Local)

  /** The run of a call at l against a script, after the given requests. */
  function After(n: Names, calls: seq<Request>, l: Local, answers: seq<Response>): Run
    decreases |answers|
  {
    if l.Ended() then Run(calls, l)
    else if answers == [] then Run(calls + [Ask(n, l)], l)
    else After(n, calls + [Ask(n, l)], Resume(l, answers[0]), answers[1..])
  }

// ------------------------------------------- a run told by its calls and answers

  /** The answers that make GenerateCert return the error of the call. */
  predicate Refuses(req: Request, resp: Response) {
    match req
    case GetSecret(_) => !resp.SecretIs? && resp != NotFound
    case GetConfigMap(_) => !resp.CertIs? && resp != NotFound
    case NewKey => !resp.KeyIs?
    case CreateSecret(_, _) => resp != Done
    case CreateConfigMap(_, _) => resp != Done
  }

  function KeyAt(answers: seq<Response>, i: nat): nat {
    if i < |answers| && answers[i].KeyIs? then answers[i].key else 0
  }

  /** A secret for the application with the given key, signed by the CA of the other key. */
  function Signed(key: nat, caKey: nat): Secret {
    TlsSecret(key, Cert(key, caKey))
  }

  /** What is left to do after the three reads, and what is returned once it is done. */
  datatype Deal = Deal(todo: seq<Request>, result: Result<(Secret, Cert, Secret), Error>)

  function Settle(n: Names, answers: seq<Response>): Deal
    requires |answers| >= 3
  {
    match (answers[0], answers[1], answers[2])
    case (SecretIs(app), CertIs(cert), SecretIs(ca)) => Deal([], Ok((app, cert, ca)))
    case (SecretIs(_), NotFound, NotFound) => Deal([], Err(CANotFound))
    case (_, CertIs(_), NotFound) => Deal([], Err(CaHalfMissing))
    case (_, NotFound, SecretIs(_)) => Deal([], Err(CaHalfMissing))
    case (NotFound, CertIs(_), SecretIs(TlsSecret(_, _))) => Deal([], Err(NotACaKey))
    case (NotFound, CertIs(cert), SecretIs(CaSecret(caKey))) =>
      var secret := Signed(KeyAt(answers, 3), caKey);
      Deal([NewKey, CreateSecret(n.app, secret)], Ok((secret, cert, CaSecret(caKey))))
    case (NotFound, NotFound, NotFound) =>
      var caKey := KeyAt(answers, 3);
      var secret := Signed(KeyAt(answers, 6), caKey);
      Deal([NewKey, CreateSecret(n.ca, CaSecret(caKey)), CreateConfigMap(n.ca, Cert(caKey, caKey)),
            NewKey, CreateSecret(n.app, secret)],
           Ok((secret, Cert(caKey, caKey), CaSecret(caKey))))
    case _ => Deal([], Err(CallFailed))
  }

  function Plan(n: Names, answers: seq<Response>): seq<Request> {
    [GetSecret(n.app), GetConfigMap(n.ca), GetSecret(n.ca)] + if |answers| < 3 then [] else Settle(n, answers).todo
  }

  /** The calls follow the plan up to the first one that is refused or never answered. */
  predicate Tells(n: Names, calls: seq<Request>, answers: seq<Response>, out: Option<Result<(Secret, Cert, Secret), Error>>) {
    var last := |calls| - 1;
    && 0 <= last <= |answers|
    && calls <= Plan(n, answers)
    && (forall i :: 0 <= i < last ==> !Refuses(calls[i], answers[i]))
    && match out {
         case None => last == |answers|
         case Some(result) =>
           && last < |answers|
           && (Refuses(calls[last], answers[last]) ==> result == Err(CallFailed))
           && (!Refuses(calls[last], answers[last]) ==>
                 last >= 2 && calls == Plan(n, answers) && result == Settle(n, answers).result)
       }
  }

  function ResultOf(l: Local): Option<Result<(Secret, Cert, Secret), Error>> {
    match l
    case Returned(secret, cert, ca) => Some(Ok((secret, cert, ca)))
    case Failed(e) => Some(Err(e))
    case _ => None
  }

  function SecretIn(r: Response): Option<Secret> {
    if r.SecretIs? then Some(r.secret) else None
  }

  function CertIn(r: Response): Option<Cert> {
    if r.CertIs? then Some(r.cert) else None
  }

  /** Which reads and keys a call at l has behind it. */
  predicate Carries(l: Local, answers: seq<Response>, i: nat)
    requires i <= |answers|
  {
    match l
    case ReadingApp => i == 0
    case ReadingMap(app) => i == 1 && app == SecretIn(answers[0])
    case ReadingCa(app, caMap) => i == 2 && app == SecretIn(answers[0]) && caMap == CertIn(answers[1])
    case MakingCa => i == 3 && answers[0] == answers[1] == answers[2] == NotFound
    case CreatingCaSecret(k) => i == 4 && answers[0] == answers[1] == answers[2] == NotFound && k == KeyAt(answers, 3)
    case CreatingCaMap(k) => i == 5 && answers[0] == answers[1] == answers[2] == NotFound && k == KeyAt(answers, 3)
    case MakingKey(cert, ca) =>
      || (i == 3 && answers[0] == NotFound && answers[1] == CertIs(cert) && answers[2] == SecretIs(ca) && ca.CaSecret?)
      || (i == 6 && answers[0] == answers[1] == answers[2] == NotFound
          && ca == CaSecret(KeyAt(answers, 3)) && cert == Cert(ca.key, ca.key))
    case CreatingApp(cert, ca, secret) =>
      || (i == 4 && answers[0] == NotFound && answers[1] == CertIs(cert) && answers[2] == SecretIs(ca) && ca.CaSecret?
          && secret == Signed(KeyAt(answers, 3), ca.key))
      || (i == 7 && answers[0] == answers[1] == answers[2] == NotFound
          && ca == CaSecret(KeyAt(answers, 3)) && cert == Cert(ca.key, ca.key)
          && secret == Signed(KeyAt(answers, 6), ca.key))
    case _ => false
  }

  predicate Remembers(n: Names, l: Local, calls: seq<Request>, answers: seq<Response>)
    requires |calls| <= |answers|
  {
    && !l.Ended()
    && Carries(l, answers, |calls|)
    && calls + [Ask(n, l)] <= Plan(n, answers)
    && (forall i :: 0 <= i < |calls| ==> !Refuses(calls[i], answers[i]))
  }

  lemma ReadGoesOn(n: Names, l: Local, calls: seq<Request>, answers: seq<Response>)
    requires |calls| < |answers| && |calls| < 3 && Remembers(n, l, calls, answers)
    ensures var calls', l' := calls + [Ask(n, l)], Resume(l, answers[|calls|]);
      if l'.Ended() then Tells(n, calls', answers, ResultOf(l')) else Remembers(n, l', calls', answers)
  {
    var plan, calls' := Plan(n, answers), calls + [Ask(n, l)];
    assert forall i :: 0 <= i < |calls'| ==> calls'[i] == plan[i];
    assert plan[0] == GetSecret(n.app) && plan[1] == GetConfigMap(n.ca) && plan[2] == GetSecret(n.ca);
    if |calls| == 2 {
      assert calls'[0] == plan[0] && calls'[1] == plan[1];
      assert plan[3..] == Settle(n, answers).todo;
    }
  }

  lemma WriteGoesOn(n: Names, l: Local, calls: seq<Request>, answers: seq<Response>)
    requires 3 <= |calls| < |answers| && Remembers(n, l, calls, answers)
    ensures var calls', l' := calls + [Ask(n, l)], Resume(l, answers[|calls|]);
      if l'.Ended() then Tells(n, calls', answers, ResultOf(l')) else Remembers(n, l', calls', answers)
  {
  }

  lemma {:induction false} RestIsTold(n: Names, l: Local, calls: seq<Request>, answers: seq<Response>)
    requires |calls| <= |answers| && Remembers(n, l, calls, answers)
    ensures var run := After(n, calls, l, answers[|calls|..]); Tells(n, run.calls, answers, ResultOf(run.end))
    decreases |answers| - |calls|
  {
    var rest := answers[|calls|..];
    if rest != [] {
      var calls', l' := calls + [Ask(n, l)], Resume(l, rest[0]);
      if |calls| < 3 {
        ReadGoesOn(n, l, calls, answers);
      } else {
        WriteGoesOn(n, l, calls, answers);
      }
      assert rest[1..] == answers[|calls'|..];
      if !l'.Ended() {
        RestIsTold(n, l', calls', answers);
      }
    }
  }

  lemma {:induction false} CallsAreAppended(n: Names, before: seq<Request>, calls: seq<Request>, l: Local, answers: seq<Response>)
    ensures var run := After(n, calls, l, answers);
      After(n, before + calls, l, answers) == Run(before + run.calls, run.end)
    decreases |answers|
  {
    if !l.Ended() {
      assert before + (calls + [Ask(n, l)]) == before + calls + [Ask(n, l)];
      if answers != [] {
        CallsAreAppended(n, before, calls + [Ask(n, l)], Resume(l, answers[0]), answers[1..]);
      }
    }
  }

  /** Every run of GenerateCert, whatever was called before it. */
  lemma EveryRunIsTold(n: Names, before: seq<Request>, answers: seq<Response>)
    ensures var run := After(n, before, ReadingApp, answers);
      before <= run.calls && Tells(n, run.calls[|before|..], answers, ResultOf(run.end))
  {
    CallsAreAppended(n, before, [], ReadingApp, answers);
    RestIsTold(n, ReadingApp, [], answers);
    var run := After(n, [], ReadingApp, answers);
    assert before + [] == before && answers[0..] == answers;
    assert (before + run.calls)[|before|..] == run.calls;
  }

  // ------------------------------------------------------------- the source's form

  /** The run stands at l; without l it was cut off in its last call. */
  predicate StandsAt(n: Names, run: Run, calls: seq<Request>, answers: seq<Response>, l: Option<Local>) {
    if l.Some? then After(n, calls, l.value, answers) == run
    else run.calls == calls && !run.end.Ended()
  }

  /** getAppSecretInCluster and getCASecretAndConfigMapInCluster: the ConfigMap is read before the Secret. */
  method ReadCluster(api: Client<Request, Response>, n: Names) returns (l: Option<Local>)
    modifies api
    ensures l.Some? ==> l.value.Ended() || l.value.MakingCa? || (l.value.MakingKey? && l.value.ca.CaSecret?)
    ensures StandsAt(n, old(After(n, api.calls, ReadingApp, api.answers)), api.calls, api.answers, l)
    ensures var calls, answers := [GetSecret(n.app), GetConfigMap(n.ca), GetSecret(n.ca)], old(api.answers);
      |answers| >= 3 && (forall i :: 0 <= i < 3 ==> !Refuses(calls[i], answers[i])) ==>
        && api.calls == old(api.calls) + calls
        && l.Some?
        && if Settle(n, answers).todo == [] then ResultOf(l.value) == Some(Settle(n, answers).result)
           else !l.value.Ended()
  {
    ghost var run := After(n, api.calls, ReadingApp, api.answers);
    var app, caMap, ca := None, None, None;
    var r := api.Call(GetSecret(n.app));
    if r.None? { return None; }
    if r.value.SecretIs? { app := Some(r.value.secret); }
    else if !r.value.NotFound? { return Some(Failed(CallFailed)); }
    assert After(n, api.calls, ReadingMap(app), api.answers) == run;
    r := api.Call(GetConfigMap(n.ca));
    if r.None? { return None; }
    if r.value.CertIs? { caMap := Some(r.value.cert); }
    else if !r.value.NotFound? { return Some(Failed(CallFailed)); }
    assert After(n, api.calls, ReadingCa(app, caMap), api.answers) == run;
    r := api.Call(GetSecret(n.ca));
    if r.None? { return None; }
    if r.value.SecretIs? { ca := Some(r.value.secret); }
    else if !r.value.NotFound? { return Some(Failed(CallFailed)); }
    return Some(Decide(app, caMap, ca));
  }

  /** Making the CA: its Secret is created before its ConfigMap. */
  method CreateCa(api: Client<Request, Response>, n: Names) returns (l: Option<Local>)
    modifies api
    ensures l.Some? ==> l.value.Failed? || (l.value.MakingKey? && l.value.ca.CaSecret?)
    ensures StandsAt(n, old(After(n, api.calls, MakingCa, api.answers)), api.calls, api.answers, l)
  {
    ghost var run := After(n, api.calls, MakingCa, api.answers);
    var made := api.Call(NewKey);
    if made.None? { return None; }
    if !made.value.KeyIs? { return Some(Failed(CallFailed)); }
    var caKey := made.value.key;
    assert After(n, api.calls, CreatingCaSecret(caKey), api.answers) == run;
    var r := api.Call(CreateSecret(n.ca, CaSecret(caKey)));
    if r.None? { return None; }
    if !r.value.Done? { return Some(Failed(CallFailed)); }
    assert After(n, api.calls, CreatingCaMap(caKey), api.answers) == run;
    r := api.Call(CreateConfigMap(n.ca, Cert(caKey, caKey)));
    if r.None? { return None; }
    if !r.value.Done? { return Some(Failed(CallFailed)); }
    return Some(MakingKey(Cert(caKey, caKey), CaSecret(caKey)));
  }

  /** Making the application secret, and everything before it; None stands for a caller that was killed. */
  method MakeAssets(api: Client<Request, Response>, n: Names)
    returns (out: Option<Result<(Secret, Cert, Secret), Error>>)
    modifies api
    ensures var run := old(After(n, api.calls, ReadingApp, api.answers));
      api.calls == run.calls && out == ResultOf(run.end)
  {
    ghost var run := After(n, api.calls, ReadingApp, api.answers);
    var l := ReadCluster(api, n);
    if l.Some? && l.value.MakingCa? {
      l := CreateCa(api, n);
    }
    if l.None? { return None; }
    if l.value.Failed? { return Some(Err(l.value.error)); }
    if l.value.Returned? { return Some(Ok((l.value.secret, l.value.cert, l.value.ca))); }
    var cert, ca := l.value.cert, l.value.ca;
    var made := api.Call(NewKey);
    if made.None? { return None; }
    assert After(n, api.calls, Resume(l.value, made.value), api.answers) == run;
    if !made.value.KeyIs? { return Some(Err(CallFailed)); }
    var secret := TlsSecret(made.value.key, Cert(made.value.key, ca.key));
    assert After(n, api.calls, CreatingApp(cert, ca, secret), api.answers) == run;
    var r := api.Call(CreateSecret(n.app, secret));
    if r.None? { return None; }
    assert After(n, api.calls, Resume(CreatingApp(cert, ca, secret), r.value), api.answers) == run;
    if !r.value.Done? { return Some(Err(CallFailed)); }
    return Some(Ok((secret, cert, ca)));
  }

  method GenerateCert(api: Client<Request, Response>, kind: string, name: string, certName: string)
    returns (out: Option<Result<(Secret, Cert, Secret), Error>>)
    modifies api
    ensures certName == "" ==> out == Some(Err(EmptyCertName)) && api.calls == old(api.calls)
    ensures certName != "" ==>
      var n := Names(ToAppSecretName(kind, name, certName), ToCASecretAndConfigMapName(kind, name));
      var run := old(After(n, api.calls, ReadingApp, api.answers));
      && api.calls == run.calls && out == ResultOf(run.end)
      && old(api.calls) <= api.calls
      && Tells(n, api.calls[|old(api.calls)|..], old(api.answers), out)
  {
    if certName == "" { return Some(Err(EmptyCertName)); }
    var n := Names(ToAppSecretName(kind, name, certName), ToCASecretAndConfigMapName(kind, name));
    EveryRunIsTold(n, api.calls, api.answers);
    out := MakeAssets(api, n);
  }
}
