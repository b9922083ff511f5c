/**
 Moving the releases of a custom resource from the Helm 2 to the Helm 3 store, and the
 choice of the release name: convertV2ToV3, convertHistoryToV3 and getReleaseName of
 operator-sdk/pkg/helm/release/manager_factory.go.
 */
module HelmMigration {
  import opened Wrappers

  /** convertible says whether a Helm 3 release can be made of it; the two are identified. */
  datatype Release = Release(name: string, version: nat, chart: Option<string>, convertible: bool)

  datatype Stores = Stores(v2: seq<Release>, v3: seq<Release>)

  /** A call is refused, or it takes effect but fails to say so, or the operator is killed before or after its effect. */
  datatype Fault = NoFault | Refused | ReplyLost | KilledBefore | KilledAfter

  datatype Answer = Done | Failed | Killed

  function History(rs: seq<Release>, name: string): seq<Release> {
    if rs == [] then []
    else if rs[0].name == name then [rs[0]] + History(rs[1..], name)
    else History(rs[1..], name)
  }

  predicate Has(rs: seq<Release>, name: string, version: nat) {
    exists r :: r in rs && r.name == name && r.version == version
  }

  function Drop(rs: seq<Release>, name: string, version: nat): seq<Release> {
    if rs == [] then []
    else if rs[0].name == name && rs[0].version == version then Drop(rs[1..], name, version)
    else [rs[0]] + Drop(rs[1..], name, version)
  }

  // ------------------------------------------------------------------ the calls

  function Outcome(done: bool, fault: Fault): Answer {
    if fault.KilledBefore? || fault.KilledAfter? then Killed
    else if done && fault.NoFault? then Done
    else Failed
  }

  /** Creating a release that the store has already fails. */
  function Create(s: Stores, r: Release, fault: Fault): (Stores, Answer) {
    var fails := fault.Refused? || fault.KilledBefore? || Has(s.v3, r.name, r.version);
    (if fails then s else s.(v3 := s.v3 + [r]), Outcome(!fails, fault))
  }

  function Delete(s: Stores, r: Release, fault: Fault): (Stores, Answer) {
    var fails := fault.Refused? || fault.KilledBefore? || !Has(s.v2, r.name, r.version);
    (if fails then s else s.(v2 := Drop(s.v2, r.name, r.version)), Outcome(!fails, fault))
  }

  function First(faults: seq<Fault>): Fault {
    if faults == [] then NoFault else faults[0]
  }

  function Rest(faults: seq<Fault>): seq<Fault> {
    if faults == [] then [] else faults[1..]
  }

  /** Converting a history, with one fault for every call on a store; without a fault on the list a call works. */
  function Converted(s: Stores, history: seq<Release>, faults: seq<Fault>): (Stores, Answer)
    decreases |history|
  {
    if history == [] then (s, Done)
    else if !history[0].convertible then (s, Failed)
    else
      var c := Create(s, history[0], First(faults));
      if c.1 != Done then c
      else
        var d := Delete(c.0, history[0], First(Rest(faults)));
        if d.1 != Done then d else Converted(d.0, history[1..], Rest(Rest(faults)))
  }

  /** convertV2ToV3: the look-ups of the two histories may fail as well. */
  function Migrated(s: Stores, legacy: string, name: string, faults: seq<Fault>): (Stores, Answer) {
    if First(faults) != NoFault then (s, Outcome(false, First(faults)))
    else if History(s.v2, legacy) != [] then Converted(s, History(s.v2, legacy), Rest(faults))
    else if First(Rest(faults)) != NoFault then (s, Outcome(false, First(Rest(faults))))
    else Converted(s, History(s.v2, name), Rest(Rest(faults)))
  }

  // ------------------------------------------------------------ the source's form

  class Storage {
    var stores: Stores
    var faults: seq<Fault>

    constructor (s: Stores, f: seq<Fault>)
      ensures stores == s && faults == f
    {
      stores, faults := s, f;
    }

    method CreateV3(r: Release) returns (a: Answer)
      modifies this
      ensures (stores, a) == Create(old(stores), r, First(old(faults)))
      ensures faults == Rest(old(faults))
    {
      var fault := First(faults);
      faults := Rest(faults);
      if fault.KilledBefore? { return Killed; }
      if fault.Refused? || Has(stores.v3, r.name, r.version) { return Outcome(false, fault); }
      stores := stores.(v3 := stores.v3 + [r]);
      return Outcome(true, fault);
    }

    method DeleteV2(r: Release) returns (a: Answer)
      modifies this
      ensures (stores, a) == Delete(old(stores), r, First(old(faults)))
      ensures faults == Rest(old(faults))
    {
      var fault := First(faults);
      faults := Rest(faults);
      if fault.KilledBefore? { return Killed; }
      if fault.Refused? || !Has(stores.v2, r.name, r.version) { return Outcome(false, fault); }
      stores := stores.(v2 := Drop(stores.v2, r.name, r.version));
      return Outcome(true, fault);
    }

    method HistoryV2(name: string) returns (a: Answer, history: seq<Release>)
      modifies this`faults
      ensures faults == Rest(old(faults))
      ensures a == Outcome(true, First(old(faults))) && history == History(stores.v2, name)
    {
      a, history := Outcome(true, First(faults)), History(stores.v2, name);
      faults := Rest(faults);
    }
  }

  method ConvertHistoryToV3(history: seq<Release>, db: Storage) returns (a: Answer)
    modifies db
    ensures (db.stores, a) == old(Converted(db.stores, history, db.faults))
  {
    for i := 0 to |history|
      invariant Converted(db.stores, history[i..], db.faults) == old(Converted(db.stores, history, db.faults))
    {
      assert history[i..][1..] == history[i + 1..];
      if !history[i].convertible { return Failed; }
      a := db.CreateV3(history[i]);
      if a != Done { return a; }
      a := db.DeleteV2(history[i]);
      if a != Done { return a; }
    }
    return Done;
  }

  method ConvertV2ToV3(db: Storage, legacy: string, name: string) returns (a: Answer)
    modifies db
    ensures (db.stores, a) == old(Migrated(db.stores, legacy, name, db.faults))
  {
    var found, history := db.HistoryV2(legacy);
    if found != Done { return found; }
    if |history| > 0 {
      a := ConvertHistoryToV3(history, db);
      return a;
    }
    found, history := db.HistoryV2(name);
    if found != Done { return found; }
    a := ConvertHistoryToV3(history, db);
  }

  // ------------------------------------------------------------ nothing is lost

  predicate Distinct(rs: seq<Release>) {
    forall i, j :: 0 <= i < j < |rs| ==> rs[i].name != rs[j].name || rs[i].version != rs[j].version
  }

  lemma {:induction false} DropMembers(rs: seq<Release>, name: string, version: nat)
    ensures forall r :: r in Drop(rs, name, version) <==> r in rs && !(r.name == name && r.version == version)
  {
    if rs != [] {
      DropMembers(rs[1..], name, version);
      assert rs == [rs[0]] + rs[1..];
    }
  }

  lemma {:induction false} HistoryMembers(rs: seq<Release>, name: string)
    ensures forall r :: r in History(rs, name) <==> r in rs && r.name == name
    ensures Distinct(rs) ==> Distinct(History(rs, name))
  {
    if rs != [] {
      HistoryMembers(rs[1..], name);
      assert rs == [rs[0]] + rs[1..];
      if Distinct(rs) {
        assert forall i :: 0 <= i < |rs| - 1 ==> rs[1..][i] == rs[i + 1];
        var h := History(rs[1..], name);
        assert forall i :: 0 <= i < |h| ==> h[i] in rs[1..];
      }
    }
  }

  /** Releases of the Helm 2 store, each under its own name and version. */
  predicate AreStored(history: seq<Release>, s: Stores) {
    Distinct(history) && (forall r :: r in history ==> r in s.v2) &&
    (forall r, q :: r in history && q in s.v2 && q.name == r.name && q.version == r.version ==> q == r)
  }

  /** Everything that was stored still is, in one store or the other, and nothing else is. */
  predicate Keeps(s: Stores, t: Stores, history: seq<Release>) {
    && (forall r :: r in s.v2 ==> r in t.v2 || (r in t.v3 && r in history))
    && (forall r :: r in s.v3 ==> r in t.v3)
    && (forall r :: r in t.v2 ==> r in s.v2)
    && (forall r :: r in t.v3 ==> r in s.v3 || r in history)
  }

  /** One release is moved. */
  lemma MoveKeeps(s: Stores, r: Release, fault: Fault, history: seq<Release>)
    requires AreStored([r] + history, s) && Create(s, r, NoFault).1 == Done
    ensures var t := Create(s, r, NoFault).0;
      Keeps(s, t, [r]) && Keeps(s, Delete(t, r, fault).0, [r])
  {
    assert r == ([r] + history)[0];
    DropMembers(s.v2, r.name, r.version);
  }

  lemma MoveLeavesTheRest(s: Stores, r: Release, fault: Fault, history: seq<Release>)
    requires AreStored([r] + history, s) && Create(s, r, NoFault).1 == Done
    requires Delete(Create(s, r, NoFault).0, r, fault).1 == Done
    ensures var u := Delete(Create(s, r, NoFault).0, r, fault).0;
      AreStored(history, u) && !Has(u.v2, r.name, r.version)
  {
    var all := [r] + history;
    assert r == all[0];
    assert forall i :: 0 <= i < |history| ==> history[i] == all[i + 1];
    DropMembers(s.v2, r.name, r.version);
    assert forall q :: q in history ==> q in all && (q.name != r.name || q.version != r.version);
  }

  /**
   Whatever fails and wherever the operator is killed, every release is in one of the two
   stores; and when the conversion succeeds the whole history is in the new one and
   nothing of it in the old one.
   */
  lemma {:induction false} NothingIsLost(s: Stores, history: seq<Release>, faults: seq<Fault>)
    requires AreStored(history, s)
    ensures var (t, a) := Converted(s, history, faults);
      && Keeps(s, t, history)
      && (a == Done ==> forall r :: r in history ==> r in t.v3 && !Has(t.v2, r.name, r.version))
    decreases |history|
  {
    if history != [] && history[0].convertible {
      var r := history[0];
      assert history == [r] + history[1..];
      if Create(s, r, First(faults)).1 == Done {
        MoveKeeps(s, r, First(Rest(faults)), history[1..]);
        var u := Delete(Create(s, r, NoFault).0, r, First(Rest(faults)));
        if u.1 == Done {
          MoveLeavesTheRest(s, r, First(Rest(faults)), history[1..]);
          NothingIsLost(u.0, history[1..], Rest(Rest(faults)));
        }
      }
    }
  }

  /** The same for the whole migration. */
  lemma MigrationLosesNothing(s: Stores, legacy: string, name: string, faults: seq<Fault>)
    requires Distinct(s.v2)
    ensures var (t, a) := Migrated(s, legacy, name, faults);
      var moved := if History(s.v2, legacy) != [] then legacy else name;
      && Keeps(s, t, History(s.v2, moved))
      && (a == Done ==> forall r :: r in s.v2 && r.name == moved ==> r in t.v3 && !Has(t.v2, r.name, r.version))
  {
    var moved := if History(s.v2, legacy) != [] then legacy else name;
    HistoryMembers(s.v2, moved);
    NothingIsLost(s, History(s.v2, moved), if moved == legacy && History(s.v2, legacy) != [] then Rest(faults) else Rest(Rest(faults)));
  }

  // ------------------------------------------------------------- when it succeeds

  /** Without faults a conversion succeeds exactly when every release converts and none is in the new store yet. */
  lemma {:induction false} SucceedsExactlyWhenNothingIsThere(s: Stores, history: seq<Release>)
    requires AreStored(history, s)
    ensures Converted(s, history, []).1 == Done <==>
            forall r :: r in history ==> r.convertible && !Has(s.v3, r.name, r.version)
    decreases |history|
  {
    if history != [] {
      var r := history[0];
      var rest := history[1..];
      assert history == [r] + rest;
      if r.convertible && !Has(s.v3, r.name, r.version) {
        MoveKeeps(s, r, NoFault, rest);
        assert Delete(Create(s, r, NoFault).0, r, NoFault).1 == Done by {
          assert r in history;
        }
        MoveLeavesTheRest(s, r, NoFault, rest);
        var u := Delete(Create(s, r, NoFault).0, r, NoFault).0;
        SucceedsExactlyWhenNothingIsThere(u, rest);
        forall q | q in rest ensures Has(u.v3, q.name, q.version) <==> Has(s.v3, q.name, q.version) {
          var i :| 0 <= i < |rest| && rest[i] == q;
          assert history[i + 1] == q && history[0] == r;
          assert u.v3 == s.v3 + [r];
        }
      } else {
        assert r in history;
      }
    }
  }

  /** A release that is in both stores. */
  predicate IsStuck(s: Stores, r: Release) {
    r in s.v2 && Has(s.v3, r.name, r.version)
  }

  /** The only release under its name and version. */
  predicate IsOnlyOne(rs: seq<Release>, r: Release) {
    forall q :: q in rs && q.name == r.name && q.version == r.version ==> q == r
  }

  /** A release that cannot be moved: it is in the new store already, or does not convert. */
  predicate IsBlocked(s: Stores, r: Release) {
    IsStuck(s, r) || (r in s.v2 && !r.convertible && IsOnlyOne(s.v2, r))
  }

  lemma {:induction false} BlockedStaysInHistory(s: Stores, history: seq<Release>, r: Release, faults: seq<Fault>)
    requires IsBlocked(s, r) && (IsStuck(s, r) || IsOnlyOne(history, r))
    ensures IsBlocked(Converted(s, history, faults).0, r)
    ensures IsStuck(s, r) ==> IsStuck(Converted(s, history, faults).0, r)
    ensures r in history ==> Converted(s, history, faults).1 != Done
    decreases |history|
  {
    if history != [] && history[0].convertible {
      var q := history[0];
      assert history == [q] + history[1..];
      var c := Create(s, q, First(faults));
      if c.1 == Done {
        DropMembers(s.v2, q.name, q.version);
        var d := Delete(c.0, q, First(Rest(faults)));
        assert q.name != r.name || q.version != r.version;
        if d.1 == Done {
          BlockedStaysInHistory(d.0, history[1..], r, Rest(Rest(faults)));
        }
      }
    }
  }

  /** The stores after several migrations, and whether the last one went through. */
  function Repeated(s: Stores, legacy: string, name: string, runs: seq<seq<Fault>>): (Stores, Answer) {
    if runs == [] then (s, Failed)
    else Migrated(Repeated(s, legacy, name, runs[..|runs| - 1]).0, legacy, name, runs[|runs| - 1])
  }

  lemma {:induction false} OldStoreShrinks(s: Stores, history: seq<Release>, faults: seq<Fault>)
    ensures forall r :: r in Converted(s, history, faults).0.v2 ==> r in s.v2
    decreases |history|
  {
    if history != [] && history[0].convertible {
      var c := Create(s, history[0], First(faults));
      DropMembers(s.v2, history[0].name, history[0].version);
      if c.1 == Done {
        var d := Delete(c.0, history[0], First(Rest(faults)));
        if d.1 == Done {
          OldStoreShrinks(d.0, history[1..], Rest(Rest(faults)));
        }
      }
    }
  }

  /** The history that a migration works on. */
  function Moved(s: Stores, legacy: string, name: string): string {
    if History(s.v2, legacy) != [] then legacy else name
  }

  lemma MigrationKeepsBlocked(s: Stores, legacy: string, name: string, r: Release, faults: seq<Fault>)
    requires IsBlocked(s, r)
    ensures var (t, a) := Migrated(s, legacy, name, faults);
      && IsBlocked(t, r) && (IsStuck(s, r) ==> IsStuck(t, r)) && (r.name == Moved(s, legacy, name) ==> a != Done)
      && (History(s.v2, legacy) == [] ==> History(t.v2, legacy) == [])
  {
    var h := History(s.v2, Moved(s, legacy, name));
    var rest := if Moved(s, legacy, name) == legacy && History(s.v2, legacy) != [] then Rest(faults) else Rest(Rest(faults));
    HistoryMembers(s.v2, Moved(s, legacy, name));
    BlockedStaysInHistory(s, h, r, rest);
    OldStoreShrinks(s, h, rest);
    HistoryIsEmptyExactlyWhen(s.v2, legacy);
    HistoryIsEmptyExactlyWhen(Converted(s, h, rest).0.v2, legacy);
  }

  /**
   A release that cannot be moved stays where it is for ever, in both stores if it is:
   no later migration that works on its history succeeds, with or without faults. That is
   every later one for a legacy history, and for one under the resource's own name when
   there is no legacy one.
   */
  lemma {:induction false} BlockedForEver(s: Stores, legacy: string, name: string, r: Release, runs: seq<seq<Fault>>)
    requires IsBlocked(s, r)
    ensures IsBlocked(Repeated(s, legacy, name, runs).0, r)
    ensures IsStuck(s, r) ==> IsStuck(Repeated(s, legacy, name, runs).0, r)
    ensures r.name == legacy || (r.name == name && History(s.v2, legacy) == []) ==>
              Repeated(s, legacy, name, runs).1 != Done
    ensures History(s.v2, legacy) == [] ==> History(Repeated(s, legacy, name, runs).0.v2, legacy) == []
    decreases |runs|
  {
    if runs != [] {
      var front := runs[..|runs| - 1];
      BlockedForEver(s, legacy, name, r, front);
      var t := Repeated(s, legacy, name, front).0;
      HistoryMembers(t.v2, legacy);
      assert r.name == legacy ==> r in History(t.v2, legacy);
      MigrationKeepsBlocked(t, legacy, name, r, runs[|runs| - 1]);
    }
  }

  /** However often it is tried, with whatever faults, no attempt goes through. */
  ghost predicate NeverSucceeds(s: Stores, legacy: string, name: string) {
    forall runs :: Repeated(s, legacy, name, runs).1 != Done
  }

  /** One attempt without faults. */
  lemma TryOnce(s: Stores, legacy: string, name: string)
    ensures Repeated(s, legacy, name, [[]]).1 == Converted(s, History(s.v2, Moved(s, legacy, name)), []).1
  {
    var once: seq<seq<Fault>> := [[]];
    assert once[..0] == [] && Repeated(s, legacy, name, []).0 == s;
  }

  /**
   A migration never succeeds exactly when a release of the history that it works on does
   not convert or is in the new store already.
   */
  lemma NeverSucceedsExactlyWhen(s: Stores, legacy: string, name: string)
    requires Distinct(s.v2)
    ensures NeverSucceeds(s, legacy, name) <==>
            exists r :: r in s.v2 && r.name == Moved(s, legacy, name) && (!r.convertible || Has(s.v3, r.name, r.version))
  {
    var h := History(s.v2, Moved(s, legacy, name));
    HistoryMembers(s.v2, Moved(s, legacy, name));
    HistoryIsEmptyExactlyWhen(s.v2, legacy);
    if r :| r in s.v2 && r.name == Moved(s, legacy, name) && (!r.convertible || Has(s.v3, r.name, r.version)) {
      forall runs ensures Repeated(s, legacy, name, runs).1 != Done {
        BlockedForEver(s, legacy, name, r, runs);
      }
    } else {
      SucceedsExactlyWhenNothingIsThere(s, h);
      TryOnce(s, legacy, name);
    }
  }

  // --------------------------------------------------------- how one gets stuck

  /** The fault of call k; the list may be too short. */
  function FaultAt(faults: seq<Fault>, k: nat): Fault {
    if k < |faults| then faults[k] else NoFault
  }

  /** The creation takes effect, and the deletion does not. */
  predicate StopsBetween(create: Fault, delete_: Fault) {
    create.ReplyLost? || create.KilledAfter? ||
    (create.NoFault? && (delete_.Refused? || delete_.KilledBefore?))
  }

  predicate AllWork(faults: seq<Fault>, n: nat) {
    forall k :: 0 <= k < n ==> FaultAt(faults, k) == NoFault
  }

  lemma RestAllWork(faults: seq<Fault>, n: nat)
    ensures AllWork(faults, n + 1) <==> First(faults) == NoFault && AllWork(Rest(faults), n)
    ensures FaultAt(Rest(faults), n) == FaultAt(faults, n + 1) && First(faults) == FaultAt(faults, 0)
  {
    assert forall k: nat :: FaultAt(Rest(faults), k) == FaultAt(faults, k + 1);
    if First(faults) == NoFault && AllWork(Rest(faults), n) {
      forall k | 0 <= k < n + 1 ensures FaultAt(faults, k) == NoFault {
        if k > 0 {
          assert FaultAt(Rest(faults), k - 1) == NoFault;
        }
      }
    }
    if AllWork(faults, n + 1) {
      assert FaultAt(faults, 0) == NoFault;
      forall k | 0 <= k < n ensures FaultAt(Rest(faults), k) == NoFault {
        assert FaultAt(faults, k + 1) == NoFault;
      }
    }
  }

  /** All of it converts and none of it is in the new store. */
  predicate IsMovable(s: Stores, history: seq<Release>) {
    AreStored(history, s) && forall r :: r in history ==> r.convertible && !Has(s.v3, r.name, r.version)
  }

  lemma MovableRest(s: Stores, r: Release, rest: seq<Release>)
    requires IsMovable(s, [r] + rest)
    ensures Create(s, r, NoFault).1 == Done && Delete(Create(s, r, NoFault).0, r, NoFault).1 == Done
    ensures IsMovable(Delete(Create(s, r, NoFault).0, r, NoFault).0, rest)
    ensures r !in Delete(Create(s, r, NoFault).0, r, NoFault).0.v2
  {
    var history := [r] + rest;
    assert r == history[0] && r in history;
    MoveLeavesTheRest(s, r, NoFault, rest);
    var u := Delete(Create(s, r, NoFault).0, r, NoFault).0;
    DropMembers(s.v2, r.name, r.version);
    forall q | q in rest ensures q.convertible && !Has(u.v3, q.name, q.version) {
      var i :| 0 <= i < |rest| && rest[i] == q;
      assert history[i + 1] == q && q in history;
      assert u.v3 == s.v3 + [r];
    }
  }

  /** What a failed attempt at the first release leaves of the others. */
  lemma OthersAreNotStuck(s: Stores, r: Release, rest: seq<Release>, f: Fault, g: Fault, q: Release)
    requires IsMovable(s, [r] + rest) && q in rest
    ensures !IsStuck(s, q) && !IsStuck(Create(s, r, f).0, q) && !IsStuck(Delete(Create(s, r, f).0, r, g).0, q)
  {
    var history := [r] + rest;
    var i :| 0 <= i < |rest| && rest[i] == q;
    assert history[0] == r && history[i + 1] == q && q in history;
  }

  lemma FirstIsStuckExactlyWhen(s: Stores, history: seq<Release>, faults: seq<Fault>)
    requires IsMovable(s, history) && history != []
    ensures IsStuck(Converted(s, history, faults).0, history[0]) <==> StopsBetween(First(faults), First(Rest(faults)))
  {
    var r, rest := history[0], history[1..];
    assert history == [r] + rest && r in history;
    DropMembers(s.v2, r.name, r.version);
    var c := Create(s, r, First(faults));
    assert First(faults) != NoFault ==> c.1 != Done;
    if First(faults) == NoFault {
      MovableRest(s, r, rest);
      assert r in c.0.v3;
      var d := Delete(c.0, r, First(Rest(faults)));
      if First(Rest(faults)) == NoFault {
        OldStoreShrinks(d.0, rest, Rest(Rest(faults)));
      }
    } else if First(faults).ReplyLost? || First(faults).KilledAfter? {
      assert r in c.0.v3;
    }
  }

  /** Conversion stops between the two calls for release i. */
  predicate StopsAt(faults: seq<Fault>, i: nat)
    decreases i
  {
    if i == 0 then StopsBetween(First(faults), First(Rest(faults)))
    else First(faults) == NoFault && First(Rest(faults)) == NoFault && StopsAt(Rest(Rest(faults)), i - 1)
  }

  lemma TwoMoreWork(faults: seq<Fault>, n: nat)
    ensures AllWork(faults, n + 2) <==>
            First(faults) == NoFault && First(Rest(faults)) == NoFault && AllWork(Rest(Rest(faults)), n)
    ensures FaultAt(Rest(Rest(faults)), n) == FaultAt(faults, n + 2)
  {
    RestAllWork(faults, n + 1);
    RestAllWork(Rest(faults), n);
  }

  lemma {:induction false} StopsAtMeans(faults: seq<Fault>, i: nat)
    ensures StopsAt(faults, i) <==>
            AllWork(faults, 2 * i) && StopsBetween(FaultAt(faults, 2 * i), FaultAt(faults, 2 * i + 1))
    decreases i
  {
    if i == 0 {
      RestAllWork(faults, 0);
      RestAllWork(Rest(faults), 0);
    } else {
      var n := 2 * (i - 1);
      StopsAtMeans(Rest(Rest(faults)), i - 1);
      TwoMoreWork(faults, n);
      TwoMoreWork(faults, n + 1);
    }
  }

  /** The first release is moved; the rest is converted from the stores that this leaves. */
  lemma FirstIsMoved(s: Stores, history: seq<Release>, faults: seq<Fault>) returns (u: Stores)
    requires history != [] && IsMovable(s, history) && First(faults) == NoFault && First(Rest(faults)) == NoFault
    ensures IsMovable(u, history[1..])
    ensures Converted(s, history, faults) == Converted(u, history[1..], Rest(Rest(faults)))
  {
    var r, rest := history[0], history[1..];
    assert history == [r] + rest && r in history;
    MovableRest(s, r, rest);
    u := Delete(Create(s, r, NoFault).0, r, NoFault).0;
  }

  lemma FirstIsNotMoved(s: Stores, history: seq<Release>, faults: seq<Fault>, i: nat)
    requires 0 < i < |history| && IsMovable(s, history)
    requires First(faults) != NoFault || First(Rest(faults)) != NoFault
    ensures !IsStuck(Converted(s, history, faults).0, history[i])
  {
    var r, rest := history[0], history[1..];
    assert history == [r] + rest && rest[i - 1] in rest;
    OthersAreNotStuck(s, r, rest, First(faults), First(Rest(faults)), rest[i - 1]);
  }

  lemma {:induction false} IsLeftStuckWhereItStops(s: Stores, history: seq<Release>, faults: seq<Fault>, i: nat)
    requires IsMovable(s, history) && i < |history|
    ensures IsStuck(Converted(s, history, faults).0, history[i]) <==> StopsAt(faults, i)
    decreases |history|
  {
    if i == 0 {
      FirstIsStuckExactlyWhen(s, history, faults);
    } else if First(faults) == NoFault && First(Rest(faults)) == NoFault {
      var u := FirstIsMoved(s, history, faults);
      IsLeftStuckWhereItStops(u, history[1..], Rest(Rest(faults)), i - 1);
    } else {
      FirstIsNotMoved(s, history, faults, i);
    }
  }

  /**
   Which release a conversion leaves in both stores, for every list of faults: the i-th
   one exactly when everything before it works, its creation takes effect, and its
   deletion does not.
   */
  lemma IsLeftStuckExactlyWhen(s: Stores, history: seq<Release>, faults: seq<Fault>, i: nat)
    requires IsMovable(s, history) && i < |history|
    ensures IsStuck(Converted(s, history, faults).0, history[i]) <==>
            AllWork(faults, 2 * i) && StopsBetween(FaultAt(faults, 2 * i), FaultAt(faults, 2 * i + 1))
  {
    IsLeftStuckWhereItStops(s, history, faults, i);
    StopsAtMeans(faults, i);
  }

  /** The same for a whole migration, of a legacy history or of one under the resource's own name. */
  lemma MigrationLeavesStuckExactlyWhen(s: Stores, legacy: string, name: string, faults: seq<Fault>, i: nat)
    requires IsMovable(s, History(s.v2, Moved(s, legacy, name))) && i < |History(s.v2, Moved(s, legacy, name))|
    ensures var lookups := if History(s.v2, legacy) != [] then 1 else 2;
      IsStuck(Migrated(s, legacy, name, faults).0, History(s.v2, Moved(s, legacy, name))[i]) <==>
      AllWork(faults, lookups + 2 * i) &&
      StopsBetween(FaultAt(faults, lookups + 2 * i), FaultAt(faults, lookups + 2 * i + 1))
  {
    var h := History(s.v2, Moved(s, legacy, name));
    assert h[i] in h && !IsStuck(s, h[i]);
    RestAllWork(faults, 0);
    RestAllWork(faults, 2 * i);
    RestAllWork(faults, 2 * i + 1);
    if History(s.v2, legacy) != [] {
      IsLeftStuckExactlyWhen(s, h, Rest(faults), i);
    } else {
      RestAllWork(faults, 2 * i + 2);
      RestAllWork(Rest(faults), 0);
      RestAllWork(Rest(faults), 2 * i);
      RestAllWork(Rest(faults), 2 * i + 1);
      IsLeftStuckExactlyWhen(s, h, Rest(Rest(faults)), i);
    }
  }

  // ------------------------------------------------------------- the release name

  datatype NameError = NoChart | OtherChart(chart: string)

  /** getReleaseName, when its look-ups do not fail. */
  function GetReleaseName(v3: seq<Release>, chart: string, legacy: string, name: string): Result<string, NameError> {
    if History(v3, legacy) != [] then Ok(legacy)
    else
      var history := History(v3, name);
      if history == [] then Ok(name)
      else if history[0].chart.None? then Err(NoChart)
      else if history[0].chart.value != chart then Err(OtherChart(history[0].chart.value))
      else Ok(name)
  }

  lemma {:induction false} HistoryIsEmptyExactlyWhen(rs: seq<Release>, name: string)
    ensures History(rs, name) == [] <==> forall r :: r in rs ==> r.name != name
  {
    if rs != [] {
      HistoryIsEmptyExactlyWhen(rs[1..], name);
      assert rs == [rs[0]] + rs[1..];
    }
  }

  lemma {:induction false} HistoryOfMore(rs: seq<Release>, more: seq<Release>, name: string)
    ensures History(rs + more, name) == History(rs, name) + History(more, name)
  {
    if rs == [] {
      assert rs + more == more;
    } else {
      assert (rs + more)[1..] == rs[1..] + more;
      HistoryOfMore(rs[1..], more, name);
    }
  }

  predicate IsUsed(rs: seq<Release>, name: string) {
    exists r :: r in rs && r.name == name
  }

  /** The first release under the resource's own name is of another chart, or of none. */
  predicate IsForeign(v3: seq<Release>, chart: string, name: string) {
    exists i :: 0 <= i < |v3| && v3[i].name == name && v3[i].chart != Some(chart) &&
                forall j :: 0 <= j < i ==> v3[j].name != name
  }

  lemma {:induction false} FirstOfHistory(rs: seq<Release>, chart: string, name: string)
    ensures History(rs, name) != [] && History(rs, name)[0].chart != Some(chart) <==> IsForeign(rs, chart, name)
  {
    if rs != [] {
      FirstOfHistory(rs[1..], chart, name);
      if rs[0].name != name {
        if IsForeign(rs, chart, name) {
          var i :| 0 <= i < |rs| && rs[i].name == name && rs[i].chart != Some(chart) && forall j :: 0 <= j < i ==> rs[j].name != name;
          assert forall j :: 0 <= j < i - 1 ==> rs[1..][j] == rs[j + 1];
          assert rs[1..][i - 1] == rs[i];
        }
        if IsForeign(rs[1..], chart, name) {
          var i :| 0 <= i < |rs[1..]| && rs[1..][i].name == name && rs[1..][i].chart != Some(chart)
                   && forall j :: 0 <= j < i ==> rs[1..][j].name != name;
          assert forall j :: 0 < j <= i ==> rs[j] == rs[1..][j - 1];
          assert rs[i + 1] == rs[1..][i];
        }
      }
    }
  }

  /**
   A resource has its legacy name exactly if a release is under it, and otherwise its own
   name, also if there is no release at all; but that one is refused exactly if the first
   release under it is not of the operator's chart.
   */
  lemma ReleaseNameExactlyWhen(v3: seq<Release>, chart: string, legacy: string, name: string)
    ensures var r := GetReleaseName(v3, chart, legacy, name);
      && (r.Err? <==> !IsUsed(v3, legacy) && IsForeign(v3, chart, name))
      && (r.Ok? ==> r.value == if IsUsed(v3, legacy) then legacy else name)
  {
    HistoryIsEmptyExactlyWhen(v3, legacy);
    FirstOfHistory(v3, chart, name);
  }

  /** Once chosen, a name is chosen again whatever the operator has released under it since. */
  lemma ReleaseNameIsStable(v3: seq<Release>, chart: string, legacy: string, name: string, more: seq<Release>)
    requires GetReleaseName(v3, chart, legacy, name).Ok?
    requires forall r :: r in more ==> r.name == GetReleaseName(v3, chart, legacy, name).value && r.chart == Some(chart)
    ensures GetReleaseName(v3 + more, chart, legacy, name) == GetReleaseName(v3, chart, legacy, name)
  {
    HistoryOfMore(v3, more, legacy);
    HistoryOfMore(v3, more, name);
    HistoryMembers(more, name);
    HistoryIsEmptyExactlyWhen(more, legacy);
    if History(more, name) != [] {
      assert History(more, name)[0] in History(more, name);
    }
  }

  /** Moving one history makes no history under another name appear or vanish. */
  lemma OtherNamesStay(s: Stores, t: Stores, moved: string, other: string)
    requires Keeps(s, t, History(s.v2, moved)) && moved != other
    ensures History(t.v3, other) == [] <==> History(s.v3, other) == []
  {
    HistoryMembers(s.v2, moved);
    HistoryIsEmptyExactlyWhen(s.v3, other);
    HistoryIsEmptyExactlyWhen(t.v3, other);
  }

  /**
   A migrated release is found again under its name: a legacy history always; a history
   under the resource's own name exactly when the new store has no legacy release and
   the first release under that name is of the operator's chart.
   */
  lemma MigratedReleaseIsFound(s: Stores, chart: string, legacy: string, name: string, faults: seq<Fault>)
    requires Distinct(s.v2) && Migrated(s, legacy, name, faults).1 == Done && legacy != name
    ensures var t := Migrated(s, legacy, name, faults).0;
      var found := GetReleaseName(t.v3, chart, legacy, name);
      && (History(s.v2, legacy) != [] ==> found == Ok(legacy))
      && (History(s.v2, legacy) == [] && History(s.v2, name) != [] ==>
            History(t.v3, name) != [] &&
            (found == Ok(name) <==> History(s.v3, legacy) == [] && History(t.v3, name)[0].chart == Some(chart)))
  {
    var t := Migrated(s, legacy, name, faults).0;
    var moved := if History(s.v2, legacy) != [] then legacy else name;
    MigrationLosesNothing(s, legacy, name, faults);
    HistoryMembers(s.v2, moved);
    HistoryIsEmptyExactlyWhen(t.v3, moved);
    if History(s.v2, moved) != [] {
      assert History(s.v2, moved)[0] in t.v3;
    }
    if moved == name {
      OtherNamesStay(s, t, name, legacy);
    }
  }
}
