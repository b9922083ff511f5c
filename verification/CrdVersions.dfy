/**
 The versions of a generated CRD: generateNonGo, setCRDStorageVersion and
 checkCRDVersions of operator-sdk/internal/generate/crd/crd.go.
 */
module CrdVersions {
  import opened Wrappers
  import Permutations

  datatype Version = Version(name: string, served: bool, storage: bool)

  /** version is the deprecated single version, usually empty. */
  datatype Crd = Crd(version: string, versions: seq<Version>)

  datatype Error = NotFirst | TwoStorageVersions | NoStorageVersion

  predicate HasVersion(vs: seq<Version>, name: string) {
    exists v :: v in vs && v.name == name
  }

  /** The CRD before sorting: a new one, or the one in the file with the version appended if it is new. */
  function Requested(file: Option<Crd>, name: string): Crd {
    if file.None? then Crd("", [Version(name, true, true)])
    else if HasVersion(file.value.versions, name) then file.value
    else file.value.(versions := file.value.versions + [Version(name, true, false)])
  }

  /** newer is the order of Kubernetes version names; the sort is not stable. */
  predicate IsSortOf(sorted: seq<Version>, vs: seq<Version>, newer: (string, string) -> bool) {
    IsSorted(sorted, newer) && multiset(sorted) == multiset(vs)
  }

  predicate IsSorted(vs: seq<Version>, newer: (string, string) -> bool) {
    forall i, j :: 0 <= i < j < |vs| ==> !newer(vs[j].name, vs[i].name)
  }

  function StorageCount(vs: seq<Version>): nat {
    if vs == [] then 0 else (if vs[0].storage then 1 else 0) + StorageCount(vs[1..])
  }

  function WithStorage(vs: seq<Version>): seq<Version> {
    if vs == [] || StorageCount(vs) > 0 then vs else vs[0 := vs[0].(storage := true)]
  }

  function Checked(crd: Crd): Option<Error> {
    if crd.version != "" && crd.versions != [] && crd.version != crd.versions[0].name then Some(NotFirst)
    else if StorageCount(crd.versions) > 1 then Some(TwoStorageVersions)
    else if crd.versions != [] && StorageCount(crd.versions) == 0 then Some(NoStorageVersion)
    else None
  }

  /** What is written to the file, if the check lets it pass. */
  function Generated(file: Option<Crd>, name: string, sorted: seq<Version>): Result<Crd, Error> {
    var crd := Crd(Requested(file, name).version, WithStorage(sorted));
    var error := Checked(crd);
    if error.Some? then Err(error.value) else Ok(crd)
  }

  // ------------------------------------------------------------ the source's form

  class Definition {
    var version: string
    var versions: seq<Version>

    constructor (crd: Crd)
      ensures version == crd.version && versions == crd.versions
    {
      version, versions := crd.version, crd.versions;
    }

    method AppendVersion(name: string)
      modifies this`versions
      ensures Crd(version, versions) == Requested(Some(Crd(version, old(versions))), name)
    {
      for i := 0 to |versions|
        invariant versions == old(versions) && !HasVersion(versions[..i], name)
      {
        if versions[i].name == name {
          assert versions[i] in versions;
          return;
        }
        assert versions[..i + 1] == versions[..i] + [versions[i]];
      }
      assert versions[..|versions|] == versions;
      versions := versions + [Version(name, true, false)];
    }

    method SetCRDStorageVersion()
      modifies this`versions
      ensures versions == WithStorage(old(versions))
    {
      if |versions| == 0 { return; }
      for i := 0 to |versions|
        invariant StorageCount(versions) == StorageCount(versions[i..])
      {
        assert versions[i..][1..] == versions[i + 1..];
        if versions[i].storage { return; }
      }
      versions := versions[0 := versions[0].(storage := true)];
    }

    method CheckCRDVersions() returns (error: Option<Error>)
      ensures error == Checked(Crd(version, versions))
    {
      if version != "" && |versions| > 0 && version != versions[0].name {
        return Some(NotFirst);
      }
      var hasStorageVer := false;
      for i := 0 to |versions|
        invariant StorageCount(versions) == (if hasStorageVer then 1 else 0) + StorageCount(versions[i..])
      {
        assert versions[i..][1..] == versions[i + 1..];
        if versions[i].storage {
          if hasStorageVer { return Some(TwoStorageVersions); }
          hasStorageVer := true;
        }
      }
      if |versions| > 0 && !hasStorageVer { return Some(NoStorageVersion); }
      return None;
    }
  }

  /** generateNonGo; sorted is what sorting makes of the versions. */
  method GenerateNonGo(file: Option<Crd>, name: string, sorted: seq<Version>, newer: (string, string) -> bool)
    returns (r: Result<Crd, Error>)
    requires IsSortOf(sorted, Requested(file, name).versions, newer)
    ensures r == Generated(file, name, sorted)
  {
    var crd: Definition;
    if file.None? {
      crd := new Definition(Crd("", [Version(name, true, true)]));
    } else {
      crd := new Definition(file.value);
      crd.AppendVersion(name);
    }
    crd.versions := sorted;
    crd.SetCRDStorageVersion();
    var error := crd.CheckCRDVersions();
    if error.Some? { return Err(error.value); }
    return Ok(Crd(crd.version, crd.versions));
  }

  // ------------------------------------------------------------ one generation

  lemma {:induction false} StorageCountAppend(a: seq<Version>, b: seq<Version>)
    ensures StorageCount(a + b) == StorageCount(a) + StorageCount(b)
  {
    if a == [] {
      assert a + b == b;
    } else {
      assert (a + b)[1..] == a[1..] + b;
      StorageCountAppend(a[1..], b);
    }
  }

  lemma RemoveOne(a: seq<Version>, front: seq<Version>, v: Version, back: seq<Version>)
    requires a != [] && a[0] == v && multiset(a) == multiset(front + ([v] + back))
    ensures multiset(a[1..]) == multiset(front + back)
  {
    assert a == [v] + a[1..];
    assert multiset(a) == multiset{v} + multiset(a[1..]);
    assert multiset(front + ([v] + back)) == multiset(front) + multiset([v] + back);
    assert multiset([v] + back) == multiset{v} + multiset(back);
    assert multiset(front + back) == multiset(front) + multiset(back);
    assert multiset(a[1..]) == multiset(a) - multiset{v};
    assert multiset(front + back) == multiset(a) - multiset{v};
  }

  lemma {:induction false} SortKeepsStorageCount(a: seq<Version>, b: seq<Version>)
    requires multiset(a) == multiset(b)
    ensures StorageCount(a) == StorageCount(b)
    decreases |a|
  {
    if a == [] {
      assert |multiset(b)| == |b|;
    } else {
      assert a[0] in multiset(b);
      var i :| 0 <= i < |b| && b[i] == a[0];
      var front, back := b[..i], b[i + 1..];
      assert b == front + ([b[i]] + back);
      RemoveOne(a, front, b[i], back);
      SortKeepsStorageCount(a[1..], front + back);
      StorageCountAppend(front, [b[i]] + back);
      StorageCountAppend(front, back);
      assert ([b[i]] + back)[1..] == back;
    }
  }

  lemma {:induction false} CountIsZero(vs: seq<Version>)
    ensures StorageCount(vs) == 0 <==> forall v :: v in vs ==> !v.storage
  {
    if vs != [] {
      CountIsZero(vs[1..]);
      assert vs == [vs[0]] + vs[1..];
    }
  }

  lemma SettingMakesOne(vs: seq<Version>)
    ensures vs != [] && StorageCount(vs) == 0 ==> StorageCount(WithStorage(vs)) == 1
  {
    if vs != [] && StorageCount(vs) == 0 {
      assert WithStorage(vs)[1..] == vs[1..];
    }
  }

  lemma RequestedHasIt(file: Option<Crd>, name: string)
    ensures HasVersion(Requested(file, name).versions, name)
  {
    var vs := Requested(file, name).versions;
    assert Version(name, true, true) in [Version(name, true, true)];
    if file.Some? && !HasVersion(file.value.versions, name) {
      assert vs[|vs| - 1] == Version(name, true, false);
    }
  }

  /**
   A generation fails exactly when the file flags two storage versions, or names a
   single deprecated version that does not come out first. In particular it never fails
   for want of a storage version.
   */
  lemma FailsExactlyWhen(file: Option<Crd>, name: string, sorted: seq<Version>, newer: (string, string) -> bool)
    requires IsSortOf(sorted, Requested(file, name).versions, newer)
    ensures sorted != []
    ensures Generated(file, name, sorted).Err? <==>
            file.Some? && (StorageCount(file.value.versions) > 1 ||
                           (file.value.version != "" && file.value.version != sorted[0].name))
    ensures Generated(file, name, sorted) != Err(NoStorageVersion)
  {
    var crd := Requested(file, name);
    RequestedHasIt(file, name);
    var v :| v in crd.versions && v.name == name;
    assert v in multiset(sorted);
    SortKeepsStorageCount(sorted, crd.versions);
    if file.Some? {
      StorageCountAppend(file.value.versions, [Version(name, true, false)]);
    }
    SettingMakesOne(sorted);
  }

  /** Of the two failures the misplaced version is reported first. */
  lemma FailureSaysWhich(file: Crd, name: string, sorted: seq<Version>, newer: (string, string) -> bool)
    requires IsSortOf(sorted, Requested(Some(file), name).versions, newer) && sorted != []
    requires Generated(Some(file), name, sorted).Err?
    ensures Generated(Some(file), name, sorted).error ==
            if file.version != "" && file.version != sorted[0].name then NotFirst else TwoStorageVersions
  {
    FailsExactlyWhen(Some(file), name, sorted, newer);
  }

  /** newer orders all names, as version names are ordered. */
  ghost predicate IsOrder(newer: (string, string) -> bool) {
    && (forall a, b :: newer(a, b) ==> !newer(b, a))
    && (forall a, b :: a == b || newer(a, b) || newer(b, a))
  }

  /** v is one of the names, and none is newer. */
  predicate IsNewest(vs: seq<Version>, v: string, newer: (string, string) -> bool) {
    HasVersion(vs, v) && forall u :: u in vs ==> !newer(u.name, v)
  }

  /** What the sort puts first. */
  lemma NewestComesFirst(sorted: seq<Version>, vs: seq<Version>, newer: (string, string) -> bool, v: string)
    requires IsSortOf(sorted, vs, newer) && IsOrder(newer) && sorted != []
    ensures sorted[0].name == v <==> IsNewest(vs, v, newer)
  {
    assert sorted[0] in multiset(vs);
    if sorted[0].name == v {
      forall u | u in vs ensures !newer(u.name, v) {
        assert u in multiset(sorted);
        var j :| 0 <= j < |sorted| && sorted[j] == u;
      }
    }
    if IsNewest(vs, v, newer) {
      var u :| u in vs && u.name == v;
      assert u in multiset(sorted);
      var j :| 0 <= j < |sorted| && sorted[j] == u;
    }
  }

  /** The same, told from the file and the requested name alone. */
  lemma GenerationFailsExactlyWhen(
    file: Option<Crd>, name: string, sorted: seq<Version>, newer: (string, string) -> bool)
    requires IsSortOf(sorted, Requested(file, name).versions, newer) && IsOrder(newer)
    ensures Generated(file, name, sorted).Err? <==>
            file.Some? && (StorageCount(file.value.versions) > 1 ||
                           (file.value.version != "" &&
                            !IsNewest(Requested(file, name).versions, file.value.version, newer)))
  {
    FailsExactlyWhen(file, name, sorted, newer);
    if file.Some? {
      NewestComesFirst(sorted, Requested(file, name).versions, newer, file.value.version);
    }
  }

  /** With the deprecated version set no newer version can ever be generated. */
  lemma NewerThanDeprecatedFails(file: Crd, name: string, sorted: seq<Version>, newer: (string, string) -> bool)
    requires IsSortOf(sorted, Requested(Some(file), name).versions, newer) && IsOrder(newer)
    requires file.version != "" && newer(name, file.version)
    ensures Generated(Some(file), name, sorted) == Err(NotFirst)
  {
    FailsExactlyWhen(Some(file), name, sorted, newer);
    RequestedHasIt(Some(file), name);
    NewestComesFirst(sorted, Requested(Some(file), name).versions, newer, file.version);
  }

  // ----------------------------------------------------------- all generations

  predicate Distinct(vs: seq<Version>) {
    forall i, j :: 0 <= i < j < |vs| ==> vs[i].name != vs[j].name
  }

  /** name is the storage version, and the only one. */
  predicate IsStorage(vs: seq<Version>, name: string) {
    (exists v :: v in vs && v.name == name && v.storage) && forall v :: v in vs && v.storage ==> v.name == name
  }

  lemma SortKeepsDistinct(sorted: seq<Version>, vs: seq<Version>)
    requires Distinct(vs) && multiset(sorted) == multiset(vs)
    ensures Distinct(sorted)
  {
    Permutations.PermutationKeepsDistinct(sorted, vs, (x: Version) => x.name);
  }

  lemma {:induction false} OneIsStorage(vs: seq<Version>)
    requires StorageCount(vs) == 1
    ensures exists v :: v in vs && IsStorage(vs, v.name)
  {
    var rest := vs[1..];
    assert vs == [vs[0]] + rest;
    CountIsZero(rest);
    if vs[0].storage {
      assert IsStorage(vs, vs[0].name);
    } else {
      OneIsStorage(rest);
      var v :| v in rest && IsStorage(rest, v.name);
      assert v in vs && IsStorage(vs, v.name);
    }
  }

  /** What holds of a file: distinct names, in order, one of them the storage version. */
  predicate IsGood(file: Option<Crd>, newer: (string, string) -> bool) {
    file.Some? ==>
      Distinct(file.value.versions) && IsSorted(file.value.versions, newer) && StorageCount(file.value.versions) == 1
  }

  /** Everything named in vs is named in ws. */
  predicate Covers(ws: seq<Version>, vs: seq<Version>) {
    forall v :: v in vs ==> HasVersion(ws, v.name)
  }

  /** A generation keeps the deprecated version, everything that is named, and the storage version. */
  predicate KeepsFile(file: Crd, after: Crd) {
    && after.version == file.version && Covers(after.versions, file.versions)
    && forall v :: v in file.versions && IsStorage(file.versions, v.name) ==> IsStorage(after.versions, v.name)
  }

  lemma AfterIsGood(file: Option<Crd>, name: string, sorted: seq<Version>, newer: (string, string) -> bool)
    requires IsSortOf(sorted, Requested(file, name).versions, newer) && Generated(file, name, sorted).Ok?
    requires file.Some? ==> Distinct(file.value.versions)
    ensures IsGood(Some(Generated(file, name, sorted).value), newer)
  {
    SortKeepsDistinct(sorted, Requested(file, name).versions);
    RequestedHasIt(file, name);
    var v :| v in Requested(file, name).versions && v.name == name;
    assert v in multiset(sorted);
    SettingMakesOne(sorted);
  }

  lemma StorageStays(vs: seq<Version>, name: string, sorted: seq<Version>, n: string)
    requires multiset(sorted) == multiset(Requested(Some(Crd("", vs)), name).versions) && IsStorage(vs, n)
    ensures WithStorage(sorted) == sorted && IsStorage(sorted, n)
  {
    var requested := Requested(Some(Crd("", vs)), name).versions;
    var v :| v in vs && v.name == n && v.storage;
    assert v in multiset(sorted);
    CountIsZero(sorted);
    forall w | w in sorted && w.storage ensures w.name == n {
      assert w in multiset(requested);
    }
  }

  lemma GenerationKeeps(file: Option<Crd>, name: string, sorted: seq<Version>, newer: (string, string) -> bool)
    requires IsSortOf(sorted, Requested(file, name).versions, newer) && Generated(file, name, sorted).Ok?
    requires file.Some? ==> Distinct(file.value.versions)
    ensures var after := Generated(file, name, sorted).value;
      && IsGood(Some(after), newer) && HasVersion(after.versions, name)
      && (file.Some? ==> KeepsFile(file.value, after))
  {
    var after := Generated(file, name, sorted).value;
    AfterIsGood(file, name, sorted, newer);
    CoveredAfter(file, name, sorted, after.versions);
    if file.Some? {
      forall v | v in file.value.versions && IsStorage(file.value.versions, v.name)
        ensures IsStorage(after.versions, v.name)
      {
        StorageStays(file.value.versions, name, sorted, v.name);
      }
    }
  }

  lemma CoveredAfter(file: Option<Crd>, name: string, sorted: seq<Version>, after: seq<Version>)
    requires multiset(sorted) == multiset(Requested(file, name).versions)
    requires |after| == |sorted| && forall i :: 0 <= i < |sorted| ==> after[i].name == sorted[i].name
    ensures HasVersion(after, name) && (file.Some? ==> Covers(after, file.value.versions))
  {
    var vs := Requested(file, name).versions;
    forall v | v in vs ensures HasVersion(after, v.name) {
      assert v in multiset(sorted);
      var i :| 0 <= i < |sorted| && sorted[i] == v;
      assert after[i] in after;
    }
    RequestedHasIt(file, name);
    var v :| v in vs && v.name == name;
    assert HasVersion(after, v.name);
  }

  /** The version that a generation writes for v: as it was, but that the newest one may become the storage version. */
  predicate IsKept(v: Version, w: Version) {
    w.name == v.name && w.served == v.served && (v.storage ==> w.storage)
  }

  /** What a generation adds: the requested version, if it is new, and served. */
  predicate IsAdded(file: Option<Crd>, name: string, w: Version) {
    w.name == name && w.served && (file.Some? ==> !HasVersion(file.value.versions, name))
  }

  predicate ComesFrom(file: Option<Crd>, w: Version) {
    file.Some? && exists v :: v in file.value.versions && IsKept(v, w)
  }

  predicate WasStorage(file: Option<Crd>, w: Version) {
    file.Some? && exists v :: v in file.value.versions && v.storage && IsKept(v, w)
  }

  lemma RequestedComesFrom(file: Option<Crd>, name: string, v: Version, w: Version)
    requires v in Requested(file, name).versions && IsKept(v, w)
    ensures IsAdded(file, name, w) || ComesFrom(file, w)
    ensures file.Some? && v.storage ==> WasStorage(file, w)
  {
    if file.Some? && v in file.value.versions {
      assert v in file.value.versions && IsKept(v, w);
    } else {
      assert v.name == name && v.served;
    }
  }

  lemma SortKeepsLength(a: seq<Version>, b: seq<Version>)
    requires multiset(a) == multiset(b)
    ensures |a| == |b|
  {
    assert |multiset(a)| == |a| && |multiset(b)| == |b|;
  }

  /**
   A generation writes the versions of the file, served as they were, and the requested one,
   which is served; and if none was the storage version the newest becomes it.
   */
  lemma GenerationWrites(file: Option<Crd>, name: string, sorted: seq<Version>, newer: (string, string) -> bool)
    requires IsSortOf(sorted, Requested(file, name).versions, newer) && Generated(file, name, sorted).Ok?
    ensures var after := Generated(file, name, sorted).value.versions;
      && |after| == (if file.None? then 1
                     else |file.value.versions| + if HasVersion(file.value.versions, name) then 0 else 1)
      && (forall w :: w in after ==> IsAdded(file, name, w) || ComesFrom(file, w))
      && (forall w :: w in after && w.storage ==>
            WasStorage(file, w) || (w == after[0] && (file.Some? ==> StorageCount(file.value.versions) == 0)))
  {
    var requested, after := Requested(file, name).versions, Generated(file, name, sorted).value.versions;
    SortKeepsLength(sorted, requested);
    SortKeepsStorageCount(sorted, requested);
    if file.Some? {
      StorageCountAppend(file.value.versions, [Version(name, true, false)]);
    }
    forall w | w in after
      ensures IsAdded(file, name, w) || ComesFrom(file, w)
      ensures w.storage ==>
        WasStorage(file, w) || (w == after[0] && (file.Some? ==> StorageCount(file.value.versions) == 0))
    {
      var i :| 0 <= i < |after| && after[i] == w;
      assert sorted[i] in multiset(requested);
      RequestedComesFrom(file, name, sorted[i], w);
      assert w.storage && !sorted[i].storage ==> i == 0 && StorageCount(sorted) == 0;
    }
  }

  datatype Generation = Generation(name: string, sorted: seq<Version>)

  /** The file after several generations; one that fails writes nothing. */
  function FileAfter(file: Option<Crd>, gs: seq<Generation>): Option<Crd> {
    if gs == [] then file
    else
      var g := gs[|gs| - 1];
      var before := FileAfter(file, gs[..|gs| - 1]);
      var r := Generated(before, g.name, g.sorted);
      if r.Ok? then Some(r.value) else before
  }

  predicate IsRun(file: Option<Crd>, gs: seq<Generation>, newer: (string, string) -> bool) {
    gs == [] ||
    (IsRun(file, gs[..|gs| - 1], newer) &&
     IsSortOf(gs[|gs| - 1].sorted, Requested(FileAfter(file, gs[..|gs| - 1]), gs[|gs| - 1].name).versions, newer))
  }

  lemma CoversChains(a: seq<Version>, b: seq<Version>, c: seq<Version>)
    requires Covers(b, a) && Covers(c, b)
    ensures Covers(c, a)
    ensures forall n :: HasVersion(b, n) ==> HasVersion(c, n)
  {
    forall v | v in a ensures HasVersion(c, v.name) {
      var w :| w in b && w.name == v.name;
      assert HasVersion(c, w.name);
    }
    forall n | HasVersion(b, n) ensures HasVersion(c, n) {
      var w :| w in b && w.name == n;
      assert HasVersion(c, w.name);
    }
  }

  lemma KeepingChains(a: Crd, b: Crd, c: Crd)
    requires KeepsFile(a, b) && KeepsFile(b, c)
    ensures KeepsFile(a, c) && forall n :: HasVersion(b.versions, n) ==> HasVersion(c.versions, n)
  {
    CoversChains(a.versions, b.versions, c.versions);
    forall v | v in a.versions && IsStorage(a.versions, v.name) ensures IsStorage(c.versions, v.name) {
      var w :| w in b.versions && w.name == v.name && w.storage;
      assert IsStorage(b.versions, w.name);
    }
  }

  /** Generation i of a run passes the check. */
  predicate Succeeds(file: Option<Crd>, gs: seq<Generation>, i: nat)
    requires i < |gs|
  {
    Generated(FileAfter(file, gs[..i]), gs[i].name, gs[i].sorted).Ok?
  }

  /** What generations have made of a file. */
  predicate IsResult(file: Option<Crd>, gs: seq<Generation>, after: Option<Crd>) {
    && (after.None? ==> gs == [] && file.None?)
    && (after.Some? ==> forall i :: 0 <= i < |gs| && Succeeds(file, gs, i) ==> HasVersion(after.value.versions, gs[i].name))
    && (file.Some? && after.Some? ==> KeepsFile(file.value, after.value))
    && (file.None? && after.Some? ==> after.value.version == "")
  }

  lemma SuccessesStay(file: Option<Crd>, front: seq<Generation>, g: Generation)
    ensures forall i :: 0 <= i < |front| ==> (Succeeds(file, front + [g], i) <==> Succeeds(file, front, i))
    ensures Succeeds(file, front + [g], |front|) <==> Generated(FileAfter(file, front), g.name, g.sorted).Ok?
  {
    var gs := front + [g];
    assert forall i :: 0 <= i < |front| ==> gs[..i] == front[..i] && gs[i] == front[i];
    assert gs[..|front|] == front;
  }

  lemma OneMoreGeneration(
    file: Option<Crd>, front: seq<Generation>, before: Option<Crd>, g: Generation, newer: (string, string) -> bool)
    requires before == FileAfter(file, front) && IsResult(file, front, before) && IsGood(before, newer)
    requires IsSortOf(g.sorted, Requested(before, g.name).versions, newer)
    requires Generated(before, g.name, g.sorted).Ok?
    ensures IsResult(file, front + [g], Some(Generated(before, g.name, g.sorted).value))
  {
    GenerationKeeps(before, g.name, g.sorted, newer);
    SuccessesStay(file, front, g);
    var after := Generated(before, g.name, g.sorted).value;
    if before.Some? {
      CoversChains(before.value.versions, before.value.versions, after.versions);
      if file.Some? {
        KeepingChains(file.value, before.value, after);
      }
    }
  }

  lemma OneFailedGeneration(file: Option<Crd>, front: seq<Generation>, before: Option<Crd>, g: Generation)
    requires before.Some?
    ensures IsResult(file, front, before) && !Succeeds(file, front + [g], |front|) ==>
              IsResult(file, front + [g], before)
  {
    SuccessesStay(file, front, g);
  }

  /**
   Whatever versions are generated in whatever order, starting from no file or from a
   good one: names stay distinct and sorted, every version of the file and every one
   whose generation succeeded is there, exactly one is the storage version, and that one
   stays the same for ever.
   */
  lemma {:induction false} GenerationsKeepTheFileGood(
    file: Option<Crd>, gs: seq<Generation>, newer: (string, string) -> bool)
    requires IsRun(file, gs, newer) && IsGood(file, newer)
    ensures IsGood(FileAfter(file, gs), newer) && IsResult(file, gs, FileAfter(file, gs))
    decreases |gs|
  {
    if gs == [] {
      if file.Some? {
        assert Covers(file.value.versions, file.value.versions);
      }
    } else {
      var front, g := gs[..|gs| - 1], gs[|gs| - 1];
      assert gs == front + [g];
      var before := FileAfter(file, front);
      GenerationsKeepTheFileGood(file, front, newer);
      if Generated(before, g.name, g.sorted).Ok? {
        GenerationKeeps(before, g.name, g.sorted, newer);
        OneMoreGeneration(file, front, before, g, newer);
      } else {
        FailsExactlyWhen(before, g.name, g.sorted, newer);
        SuccessesStay(file, front, g);
        OneFailedGeneration(file, front, before, g);
      }
    }
  }

  /** Without the deprecated single version all of them succeed. */
  lemma {:induction false} NoGenerationFails(
    file: Option<Crd>, gs: seq<Generation>, newer: (string, string) -> bool)
    requires IsRun(file, gs, newer) && IsGood(file, newer) && (file.Some? ==> file.value.version == "")
    ensures forall i :: 0 <= i < |gs| ==> Succeeds(file, gs, i)
    decreases |gs|
  {
    if gs != [] {
      var front, g := gs[..|gs| - 1], gs[|gs| - 1];
      assert gs == front + [g];
      NoGenerationFails(file, front, newer);
      GenerationsKeepTheFileGood(file, front, newer);
      FailsExactlyWhen(FileAfter(file, front), g.name, g.sorted, newer);
      SuccessesStay(file, front, g);
    }
  }

  /** So the storage version of a file is there, and what any further generations leave. */
  lemma StorageNeverMoves(file: Crd, gs: seq<Generation>, newer: (string, string) -> bool)
    requires IsRun(Some(file), gs, newer) && IsGood(Some(file), newer)
    ensures exists v :: v in file.versions && IsStorage(file.versions, v.name) &&
                        FileAfter(Some(file), gs).Some? && IsStorage(FileAfter(Some(file), gs).value.versions, v.name)
  {
    GenerationsKeepTheFileGood(Some(file), gs, newer);
    OneIsStorage(file.versions);
  }
}
