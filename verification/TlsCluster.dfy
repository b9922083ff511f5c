/**
 Any number of concurrent GenerateCert calls for one custom resource, each of which may
 lose a request or a reply or be killed at any point. Nobody else writes or deletes
 these objects, keys are never generated twice, and no call uses the certificate name "ca".
 */
module TlsCluster {
  import opened Wrappers
  import opened Tls

  datatype Caller = Caller(names: Names, at: Local)

  datatype Assets = Assets(
    kind: string,
    name: string,
    secrets: map<string, Secret>,
    maps: map<string, Cert>,
    callers: map<nat, Caller>,
    nextKey: nat)
  {
    function Ca(): string { ToCASecretAndConfigMapName(kind, name) }
  }

  datatype Served = Served(response: Response, after: Assets)

  function Serve(a: Assets, req: Request): Served {
    match req
    case GetSecret(n) => Served(if n in a.secrets then SecretIs(a.secrets[n]) else NotFound, a)
    case GetConfigMap(n) => Served(if n in a.maps then CertIs(a.maps[n]) else NotFound, a)
    case NewKey => Served(KeyIs(a.nextKey), a.(nextKey := a.nextKey + 1))
    case CreateSecret(n, s) =>
      if n in a.secrets then Served(Failure, a) else Served(Done, a.(secrets := a.secrets[n := s]))
    case CreateConfigMap(n, c) =>
      if n in a.maps then Served(Failure, a) else Served(Done, a.(maps := a.maps[n := c]))
  }

  datatype Fault = Reliable | RequestLost | ReplyLost

  datatype Step =
    | Call(id: nat, certName: string)
    | Act(id: nat, fault: Fault)
    | Kill(id: nat)

  predicate Enabled(a: Assets, step: Step) {
    match step
    case Call(id, certName) => id !in a.callers && certName != "" && certName != "ca"
    case Act(id, _) => id in a.callers && !a.callers[id].at.Ended()
    case Kill(id) => id in a.callers
  }

  function Next(a: Assets, step: Step): Assets
    requires Enabled(a, step)
  {
    match step
    case Call(id, certName) =>
      var names := Names(ToAppSecretName(a.kind, a.name, certName), a.Ca());
      a.(callers := a.callers[id := Caller(names, ReadingApp)])
    case Act(id, fault) =>
      var c := a.callers[id];
      var served := Serve(a, Ask(c.names, c.at));
      var a' := if fault == RequestLost then a else served.after;
      var r := if fault == Reliable then served.response else Failure;
      a'.(callers := a.callers[id := c.(at := Resume(c.at, r))])
    case Kill(id) => a.(callers := a.callers - {id})
  }

  predicate IsRun(a: Assets, steps: seq<Step>)
    decreases |steps|
  {
    steps == [] || (Enabled(a, steps[0]) && IsRun(Next(a, steps[0]), steps[1..]))
  }

  function Final(a: Assets, steps: seq<Step>): Assets
    requires IsRun(a, steps)
    decreases |steps|
  {
    if steps == [] then a else Final(Next(a, steps[0]), steps[1..])
  }

  predicate Initial(a: Assets) {
    a.secrets == map[] && a.maps == map[] && a.callers == map[]
  }

  // -------------------------------------------------------------- invariant

  /** The CA is a key in the Secret and its self-signed certificate in the ConfigMap. */
  predicate CaIs(a: Assets, cert: Cert, ca: Secret) {
    && a.Ca() in a.maps && a.maps[a.Ca()] == cert
    && a.Ca() in a.secrets && a.secrets[a.Ca()] == ca
    && ca.CaSecret? && cert == Cert(ca.key, ca.key)
  }

  predicate SignedBy(s: Secret, ca: Secret) {
    s.TlsSecret? && s.cert == Cert(s.key, ca.key)
  }

  predicate CaIsWhole(a: Assets) {
    && (a.Ca() in a.secrets ==> a.secrets[a.Ca()].CaSecret?)
    && (a.Ca() in a.maps ==> a.Ca() in a.secrets && CaIs(a, a.maps[a.Ca()], a.secrets[a.Ca()]))
  }

  /** Every other secret is an application secret, and the CA that signed it is complete. */
  predicate AppsAreSigned(a: Assets) {
    forall n :: n in a.secrets && n != a.Ca() ==>
      a.Ca() in a.maps && a.Ca() in a.secrets && SignedBy(a.secrets[n], a.secrets[a.Ca()])
  }

  /** What a caller has read or made is what is stored. */
  predicate CallerIsRight(a: Assets, c: Caller) {
    && c.names.ca == a.Ca() && c.names.app != a.Ca()
    && match c.at
       case ReadingApp => true
       case ReadingMap(app) => app.Some? ==> Stored(a, c.names.app, app.value)
       case ReadingCa(app, caMap) =>
         && (app.Some? ==> Stored(a, c.names.app, app.value) && caMap.Some?)
         && (caMap.Some? ==> a.Ca() in a.maps && a.maps[a.Ca()] == caMap.value)
       case MakingCa => true
       case CreatingCaSecret(_) => true
       case CreatingCaMap(k) => Stored(a, a.Ca(), CaSecret(k))
       case MakingKey(cert, ca) => CaIs(a, cert, ca)
       case CreatingApp(cert, ca, s) => CaIs(a, cert, ca) && SignedBy(s, ca)
       case Returned(s, cert, ca) => CaIs(a, cert, ca) && SignedBy(s, ca) && Stored(a, c.names.app, s)
       case Failed(e) => e != CANotFound && e != NotACaKey
  }

  predicate Stored(a: Assets, n: string, s: Secret) {
    n in a.secrets && a.secrets[n] == s
  }

  predicate Inv(a: Assets) {
    CaIsWhole(a) && AppsAreSigned(a) && forall id :: id in a.callers ==> CallerIsRight(a, a.callers[id])
  }

  /** Objects are only added. */
  predicate Grows(a: Assets, b: Assets) {
    && b.kind == a.kind && b.name == a.name
    && (forall n :: n in a.secrets ==> n in b.secrets && b.secrets[n] == a.secrets[n])
    && (forall n :: n in a.maps ==> n in b.maps && b.maps[n] == a.maps[n])
  }

  lemma ServeGrows(a: Assets, req: Request)
    ensures Grows(a, Serve(a, req).after)
  {
  }

  /** Serving a caller's request keeps the stored objects consistent. */
  lemma ServeKeepsStore(a: Assets, c: Caller)
    requires CaIsWhole(a) && AppsAreSigned(a) && CallerIsRight(a, c) && !c.at.Ended()
    ensures var b := Serve(a, Ask(c.names, c.at)).after; CaIsWhole(b) && AppsAreSigned(b)
  {
  }

  lemma ActKeepsInv(a: Assets, id: nat, fault: Fault)
    requires Inv(a) && Enabled(a, Act(id, fault))
    ensures Inv(Next(a, Act(id, fault))) && Grows(a, Next(a, Act(id, fault)))
  {
    var b, c := Next(a, Act(id, fault)), a.callers[id];
    assert CallerIsRight(a, c);
    ServeGrows(a, Ask(c.names, c.at));
    ServeKeepsStore(a, c);
    forall i | i in b.callers ensures CallerIsRight(b, b.callers[i]) {
      if i != id {
        assert CallerIsRight(a, a.callers[i]);
      }
    }
  }

  lemma NextKeepsInv(a: Assets, step: Step)
    requires Inv(a) && Enabled(a, step)
    ensures Inv(Next(a, step)) && Grows(a, Next(a, step))
  {
    var b := Next(a, step);
    match step {
      case Act(id, fault) => ActKeepsInv(a, id, fault);
      case Kill(_) =>
        forall i | i in b.callers ensures CallerIsRight(b, b.callers[i]) {
          assert CallerIsRight(a, a.callers[i]);
        }
      case Call(id, certName) =>
        AppNameIsCaNameExactlyFor(a.kind, a.name, certName);
        forall i | i in b.callers && i != id ensures CallerIsRight(b, b.callers[i]) {
          assert CallerIsRight(a, a.callers[i]);
        }
    }
  }

  lemma {:induction false} RunKeepsInv(a: Assets, steps: seq<Step>)
    requires Inv(a) && IsRun(a, steps)
    ensures Inv(Final(a, steps)) && Grows(a, Final(a, steps))
    decreases |steps|
  {
    if steps != [] {
      NextKeepsInv(a, steps[0]);
      RunKeepsInv(Next(a, steps[0]), steps[1..]);
    }
  }

  // --------------------------------------------------------------- the promises

  /**
   At every point of every run: the ConfigMap is there only with the Secret, and they
   hold one key and its certificate; every application secret is signed by that CA.
   */
  lemma StoredAssetsBelongTogether(a: Assets, steps: seq<Step>)
    requires Initial(a) && IsRun(a, steps)
    ensures var b := Final(a, steps);
      && (b.Ca() in b.maps ==> b.Ca() in b.secrets && CaIs(b, b.maps[b.Ca()], b.secrets[b.Ca()]))
      && forall n :: n in b.secrets && n != b.Ca() ==>
           b.Ca() in b.maps && b.Ca() in b.secrets && SignedBy(b.secrets[n], b.secrets[b.Ca()])
  {
    RunKeepsInv(a, steps);
  }

  /**
   Whatever a call returns, at any time afterwards: the three objects belong together
   and are the ones stored, so two calls never return different CAs. And no call fails
   for want of a CA next to an application secret.
   */
  lemma ReturnedAssetsBelongTogether(a: Assets, steps: seq<Step>, id: nat)
    requires Initial(a) && IsRun(a, steps) && id in Final(a, steps).callers
    ensures var b := Final(a, steps);
      var c := b.callers[id];
      && c.at != Failed(CANotFound)
      && (c.at.Returned? ==>
            && CaIs(b, c.at.cert, c.at.ca) && SignedBy(c.at.secret, c.at.ca)
            && Stored(b, c.names.app, c.at.secret))
  {
    RunKeepsInv(a, steps);
    assert CallerIsRight(Final(a, steps), Final(a, steps).callers[id]);
  }

  // ------------------------------------------------------- the half-made CA

  /** The CA Secret is there without its ConfigMap, and nobody is about to create the ConfigMap. */
  predicate Wedged(a: Assets) {
    && a.Ca() in a.secrets && a.Ca() !in a.maps
    && forall id :: id in a.callers ==> !a.callers[id].at.CreatingCaMap?
  }

  /** From then on every call fails, for ever: the later ones see the Secret without the ConfigMap. */
  lemma {:induction false} WedgedForEver(a: Assets, steps: seq<Step>)
    requires Inv(a) && Wedged(a) && IsRun(a, steps)
    ensures Wedged(Final(a, steps))
    ensures forall id :: id in Final(a, steps).callers ==> !Final(a, steps).callers[id].at.Returned?
    decreases |steps|
  {
    if steps == [] {
      forall id | id in a.callers ensures !a.callers[id].at.Returned? {
        assert CallerIsRight(a, a.callers[id]);
      }
    } else {
      NextKeepsInv(a, steps[0]);
      WedgedForEver(Next(a, steps[0]), steps[1..]);
    }
  }
}
