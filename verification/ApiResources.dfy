/**
 The cache of API resources in front of discovery: resetResources and
 IsVirtualResource of operator-sdk/pkg/ansible/proxy/proxy.go.
 */
module ApiResources {
  import opened Wrappers

  datatype GroupVersion = GroupVersion(group: string, version: string)

  datatype Gvk = Gvk(gv: GroupVersion, kind: string)

  datatype Resource = Resource(name: string, kind: string, verbs: set<string>)

  /** One list of a discovery answer; without gv its group and version cannot be parsed. */
  datatype ResourceList = ResourceList(gv: Option<GroupVersion>, resources: seq<Resource>)

  datatype Error = Unreachable | Unparsable | NoSuchResource

  type Cache = map<Gvk, Resource>

  predicate IsSubresource(r: Resource) {
    '/' in r.name
  }

  predicate IsVirtual(r: Resource) {
    !({"watch", "get", "list"} <= r.verbs)
  }

  // ---------------------------------------------------------- the direct look-up

  /** The last resource of the kind that is not a subresource. */
  function LastOf(rs: seq<Resource>, kind: string): Option<Resource> {
    if rs == [] then None
    else
      var later := LastOf(rs[1..], kind);
      if later.Some? then later
      else if rs[0].kind == kind && !IsSubresource(rs[0]) then Some(rs[0])
      else None
  }

  function LastEntry(lists: seq<ResourceList>, gvk: Gvk): Option<Resource> {
    if lists == [] then None
    else
      var later := LastEntry(lists[1..], gvk);
      if later.Some? then later
      else if lists[0].gv == Some(gvk.gv) then LastOf(lists[0].resources, gvk.kind)
      else None
  }

  predicate Parses(lists: seq<ResourceList>) {
    forall l :: l in lists ==> l.gv.Some?
  }

  /** What the proxy's informers need. */
  predicate CanBeWatched(r: Resource) {
    "get" in r.verbs && "list" in r.verbs && "watch" in r.verbs
  }

  /** What a scan of the discovery answer says, with no cache at all. */
  function Direct(lists: seq<ResourceList>, gvk: Gvk): Result<bool, Error> {
    if !Parses(lists) then Err(Unparsable)
    else
      var found := LastEntry(lists, gvk);
      if found.None? then Err(NoSuchResource) else Ok(!CanBeWatched(found.value))
  }

  // ------------------------------------------------------------------ the cache

  function WithResources(m: Cache, gv: GroupVersion, rs: seq<Resource>): Cache
    decreases |rs|
  {
    if rs == [] then m
    else if IsSubresource(rs[0]) then WithResources(m, gv, rs[1..])
    else WithResources(m[Gvk(gv, rs[0].kind) := rs[0]], gv, rs[1..])
  }

  /** The lists are taken in up to the first one that does not parse. */
  function WithLists(m: Cache, lists: seq<ResourceList>): Cache
    decreases |lists|
  {
    if lists == [] || lists[0].gv.None? then m
    else WithLists(WithResources(m, lists[0].gv.value, lists[0].resources), lists[1..])
  }

  /** The cache after a query, and its answer; discovery is reachable or not. */
  function Queried(cache: Cache, lists: seq<ResourceList>, reachable: bool, gvk: Gvk): (Cache, Result<bool, Error>) {
    if gvk in cache then (cache, Ok(IsVirtual(cache[gvk])))
    else if !reachable then (cache, Err(Unreachable))
    else
      var rebuilt := WithLists(map[], lists);
      if !Parses(lists) then (rebuilt, Err(Unparsable))
      else if gvk in rebuilt then (rebuilt, Ok(IsVirtual(rebuilt[gvk])))
      else (rebuilt, Err(NoSuchResource))
  }

  // ------------------------------------------------------------ the source's form

  class ApiResources {
    var gvkToAPIResource: Cache

    constructor ()
      ensures gvkToAPIResource == map[]
    {
      gvkToAPIResource := map[];
    }

    /** discovery is the answer of ServerGroupsAndResources, if there is one. */
    method ResetResources(discovery: Option<seq<ResourceList>>) returns (error: Option<Error>)
      modifies this
      ensures discovery.None? ==> error == Some(Unreachable) && gvkToAPIResource == old(gvkToAPIResource)
      ensures discovery.Some? ==>
                gvkToAPIResource == WithLists(map[], discovery.value) &&
                error == if Parses(discovery.value) then None else Some(Unparsable)
    {
      if discovery.None? { return Some(Unreachable); }
      var lists := discovery.value;
      gvkToAPIResource := map[];
      for i := 0 to |lists|
        invariant WithLists(gvkToAPIResource, lists[i..]) == WithLists(map[], lists)
        invariant forall l :: l in lists[..i] ==> l.gv.Some?
      {
        assert lists[i..][1..] == lists[i + 1..];
        if lists[i].gv.None? {
          assert lists[i] in lists;
          return Some(Unparsable);
        }
        var gv, rs := lists[i].gv.value, lists[i].resources;
        ghost var cached := gvkToAPIResource;
        for j := 0 to |rs|
          invariant WithResources(gvkToAPIResource, gv, rs[j..]) == WithResources(cached, gv, rs)
        {
          assert rs[j..][1..] == rs[j + 1..];
          if !IsSubresource(rs[j]) {
            gvkToAPIResource := gvkToAPIResource[Gvk(gv, rs[j].kind) := rs[j]];
          }
        }
        assert lists[..i + 1] == lists[..i] + [lists[i]];
      }
      assert lists[..|lists|] == lists;
      return None;
    }

    method IsVirtualResource(gvk: Gvk, discovery: Option<seq<ResourceList>>) returns (r: Result<bool, Error>)
      modifies this
      ensures var lists := if discovery.Some? then discovery.value else [];
        (gvkToAPIResource, r) == Queried(old(gvkToAPIResource), lists, discovery.Some?, gvk)
    {
      if gvk !in gvkToAPIResource {
        var error := ResetResources(discovery);
        if error.Some? { return Err(error.value); }
        if gvk !in gvkToAPIResource { return Err(NoSuchResource); }
      }
      return Ok(IsVirtual(gvkToAPIResource[gvk]));
    }
  }

  // ------------------------------------------------------------- the refinement

  lemma {:induction false} ResourcesLookUp(m: Cache, gv: GroupVersion, rs: seq<Resource>, gvk: Gvk)
    ensures var found := if gvk.gv == gv then LastOf(rs, gvk.kind) else None;
      Lookup(WithResources(m, gv, rs), gvk) == if found.Some? then found else Lookup(m, gvk)
    decreases |rs|
  {
    if rs != [] {
      ResourcesLookUp(if IsSubresource(rs[0]) then m else m[Gvk(gv, rs[0].kind) := rs[0]], gv, rs[1..], gvk);
    }
  }

  function Lookup(m: Cache, gvk: Gvk): Option<Resource> {
    if gvk in m then Some(m[gvk]) else None
  }

  lemma {:induction false} ListsLookUp(m: Cache, lists: seq<ResourceList>, gvk: Gvk)
    requires Parses(lists)
    ensures Lookup(WithLists(m, lists), gvk) ==
            if LastEntry(lists, gvk).Some? then LastEntry(lists, gvk) else Lookup(m, gvk)
    decreases |lists|
  {
    if lists != [] {
      assert lists[0] in lists;
      ResourcesLookUp(m, lists[0].gv.value, lists[0].resources, gvk);
      ListsLookUp(WithResources(m, lists[0].gv.value, lists[0].resources), lists[1..], gvk);
    }
  }

  /** Several clients of one cache, each between the two locked reads of its query or before them. */
  datatype Client = Idle | Resetting(gvk: Gvk) | Rereading(gvk: Gvk)

  datatype Proxy = Proxy(cache: Cache, clients: map<nat, Client>)

  datatype Step = Read(client: nat, gvk: Gvk) | Reset(client: nat, reachable: bool) | Reread(client: nat)

  predicate Enabled(p: Proxy, step: Step) {
    match step
    case Read(i, _) => i in p.clients && p.clients[i].Idle?
    case Reset(i, _) => i in p.clients && p.clients[i].Resetting?
    case Reread(i) => i in p.clients && p.clients[i].Rereading?
  }

  /** One locked section, and the answer if it gives one. */
  function Next(p: Proxy, lists: seq<ResourceList>, step: Step): (Proxy, Option<(Gvk, Result<bool, Error>)>)
    requires Enabled(p, step)
  {
    match step
    case Read(i, gvk) =>
      if gvk in p.cache then (p, Some((gvk, Ok(IsVirtual(p.cache[gvk])))))
      else (p.(clients := p.clients[i := Resetting(gvk)]), None)
    case Reset(i, reachable) =>
      var gvk := p.clients[i].gvk;
      var idle := p.(clients := p.clients[i := Idle]);
      if !reachable then (idle, Some((gvk, Err(Unreachable))))
      else if !Parses(lists) then (idle.(cache := WithLists(map[], lists)), Some((gvk, Err(Unparsable))))
      else (Proxy(WithLists(map[], lists), p.clients[i := Rereading(gvk)]), None)
    case Reread(i) =>
      var gvk := p.clients[i].gvk;
      (p.(clients := p.clients[i := Idle]),
       Some((gvk, if gvk in p.cache then Ok(IsVirtual(p.cache[gvk])) else Err(NoSuchResource))))
  }

  predicate IsRun(p: Proxy, lists: seq<ResourceList>, steps: seq<Step>)
    decreases |steps|
  {
    steps == [] || (Enabled(p, steps[0]) && IsRun(Next(p, lists, steps[0]).0, lists, steps[1..]))
  }

  /** The answers given in a run, in order. */
  function Answers(p: Proxy, lists: seq<ResourceList>, steps: seq<Step>): seq<(Gvk, Result<bool, Error>)>
    requires IsRun(p, lists, steps)
    decreases |steps|
  {
    if steps == [] then []
    else
      var n := Next(p, lists, steps[0]);
      (if n.1.Some? then [n.1.value] else []) + Answers(n.0, lists, steps[1..])
  }

  predicate Inv(p: Proxy, lists: seq<ResourceList>) {
    && (p.cache == map[] || p.cache == WithLists(map[], lists))
    && (forall i :: i in p.clients && p.clients[i].Rereading? ==> p.cache == WithLists(map[], lists) && Parses(lists))
  }

  predicate IsDirect(lists: seq<ResourceList>, answer: (Gvk, Result<bool, Error>)) {
    answer.1 == Direct(lists, answer.0) || answer.1 == Err(Unreachable)
  }

  /** No entry stands before the first list that does not parse, if there is such a list. */
  predicate IsHarmless(lists: seq<ResourceList>) {
    Parses(lists) || WithLists(map[], lists) == map[]
  }

  lemma NextIsDirect(p: Proxy, lists: seq<ResourceList>, step: Step)
    requires Inv(p, lists) && IsHarmless(lists) && Enabled(p, step)
    ensures Inv(Next(p, lists, step).0, lists)
    ensures Next(p, lists, step).1.Some? ==> IsDirect(lists, Next(p, lists, step).1.value)
  {
    var n := Next(p, lists, step);
    if n.1.Some? && Parses(lists) {
      ListsLookUp(map[], lists, n.1.value.0);
    }
  }

  /** Any interleaving of any clients gets the answers of direct look-ups, errors included. */
  lemma {:induction false} InterleavedQueriesAreDirect(p: Proxy, lists: seq<ResourceList>, steps: seq<Step>)
    requires Inv(p, lists) && IsHarmless(lists) && IsRun(p, lists, steps)
    ensures forall a :: a in Answers(p, lists, steps) ==> IsDirect(lists, a)
    decreases |steps|
  {
    if steps != [] {
      NextIsDirect(p, lists, steps[0]);
      InterleavedQueriesAreDirect(Next(p, lists, steps[0]).0, lists, steps[1..]);
    }
  }

  /** The answer to the last of several queries, one after the other, with discovery reachable. */
  function LastAnswer(cache: Cache, lists: seq<ResourceList>, gvks: seq<Gvk>): Result<bool, Error>
    requires gvks != []
    decreases |gvks|
  {
    var q := Queried(cache, lists, true, gvks[0]);
    if |gvks| == 1 then q.1 else LastAnswer(q.0, lists, gvks[1..])
  }

  lemma {:induction false} QueriesAreDirect(cache: Cache, lists: seq<ResourceList>, gvks: seq<Gvk>)
    requires gvks != [] && IsHarmless(lists) && (cache == map[] || cache == WithLists(map[], lists))
    ensures LastAnswer(cache, lists, gvks) == Direct(lists, gvks[|gvks| - 1])
    decreases |gvks|
  {
    var q := Queried(cache, lists, true, gvks[0]);
    if Parses(lists) {
      ListsLookUp(map[], lists, gvks[0]);
    }
    if |gvks| > 1 {
      assert q.0 == map[] || q.0 == WithLists(map[], lists);
      QueriesAreDirect(q.0, lists, gvks[1..]);
    }
  }

  /** A failed reset leaves what it has read so far: asking twice then gets an answer in place of the error. */
  lemma AskingTwiceHidesTheError(lists: seq<ResourceList>, gvk: Gvk)
    requires !Parses(lists) && gvk in WithLists(map[], lists)
    ensures LastAnswer(map[], lists, [gvk]) == Err(Unparsable) && LastAnswer(map[], lists, [gvk, gvk]).Ok?
  {
    assert [gvk, gvk][1..] == [gvk];
  }

  /**
   From an empty cache every sequence of queries gets the answers of direct look-ups
   exactly when discovery parses or fails to before the first entry.
   */
  lemma CacheIsDirectExactlyWhen(lists: seq<ResourceList>)
    ensures (forall gvks: seq<Gvk> :: gvks != [] ==> LastAnswer(map[], lists, gvks) == Direct(lists, gvks[|gvks| - 1]))
            <==> IsHarmless(lists)
  {
    if IsHarmless(lists) {
      forall gvks: seq<Gvk> | gvks != [] ensures LastAnswer(map[], lists, gvks) == Direct(lists, gvks[|gvks| - 1]) {
        QueriesAreDirect(map[], lists, gvks);
      }
    } else {
      var gvk :| gvk in WithLists(map[], lists);
      AskingTwiceHidesTheError(lists, gvk);
      assert [gvk, gvk] != [];
    }
  }

  /** A list that does not parse behind one that does is such a case. */
  lemma SomeDiscoveryIsHarmful()
    ensures exists lists :: !IsHarmless(lists)
  {
    var good := ResourceList(Some(GroupVersion("g", "v")), [Resource("things", "Thing", {})]);
    var lists := [good, ResourceList(None, [])];
    assert lists[1] in lists && lists[1..][0] == lists[1];
    assert good.resources[1..] == [];
    assert WithResources(map[], good.gv.value, good.resources) == map[Gvk(good.gv.value, "Thing") := good.resources[0]];
    assert WithLists(map[], lists) == WithResources(map[], good.gv.value, good.resources);
    assert Gvk(good.gv.value, "Thing") in WithLists(map[], lists);
    assert !Parses(lists) && !IsHarmless(lists);
  }
}
