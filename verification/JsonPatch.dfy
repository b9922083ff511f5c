/**
 The patch that brings a live resource back to its Helm manifest, generatePatch
 (operator-sdk/pkg/helm/release/manager.go), over the JSON patch semantics of
 section 4 of RFC 6902.
 */
module JsonPatch {
  import opened Wrappers
  import opened Json
  import opened MergeMaps

  datatype Op =
    | Add(path: Path, value: Json)
    | Replace(path: Path, value: Json)
    | Remove(path: Path)
  {
    function At(p: Path): Op {
      match this
      case Add(_, v) => Add(p, v)
      case Replace(_, v) => Replace(p, v)
      case Remove(_) => Remove(p)
    }
  }

  // ------------------------------------------------ RFC 6902, sections 4.1-4.3

  /** A place where a value may be: a whole document or one key of an object. */
  type Slot = Option<Json>

  function Put(j: Json, k: string, s: Slot): Json
    requires j.Obj?
  {
    if s.Some? then Obj(j.fields[k := s.value]) else Obj(j.fields - {k})
  }

  /** One operation; None when its target or its parent is missing. */
  function Apply(op: Op, s: Slot): Option<Slot>
    decreases |op.path|
  {
    if op.path == [] then
      match op
      case Add(_, v) => Some(Some(v))
      case Replace(_, v) => if s.Some? then Some(Some(v)) else None
      case Remove(_) => if s.Some? then Some(None) else None
    else if s.None? || !s.value.Obj? then None
    else
      match Apply(op.At(op.path[1..]), Field(s.value, op.path[0]))
      case None => None
      case Some(f) => Some(Some(Put(s.value, op.path[0], f)))
  }

  function ApplyAll(ops: seq<Op>, s: Slot): Option<Slot> {
    if ops == [] then Some(s)
    else match Apply(ops[0], s)
      case None => None
      case Some(s') => ApplyAll(ops[1..], s')
  }

  // --------------------------------------------------------- what CreatePatch yields

  /** The operations below key k, as operations on that key's slot, in order. */
  function Below(ops: seq<Op>, k: string): seq<Op> {
    if ops == [] then []
    else
      var rest := Below(ops[1..], k);
      if ops[0].path != [] && ops[0].path[0] == k then [ops[0].At(ops[0].path[1..])] + rest else rest
  }

  /**
   ops is an object diff from a to b on the keys ks: a key only in a is removed, a key
   only in b is added, two objects are diffed key by key and any other difference is a
   replacement. The order is left open between keys, as Go's map order leaves it. Two
   different arrays under one key have no such diff.
   */
  ghost predicate IsDiffOn(ops: seq<Op>, a: Json, b: Json, ks: set<string>)
    requires a.Obj? && b.Obj?
    decreases a, 0
  {
    && (forall op :: op in ops ==> op.path != [])
    && forall k ::
         if k !in ks then Below(ops, k) == []
         else match (Field(a, k), Field(b, k))
           case (None, None) => Below(ops, k) == []
           case (Some(x), None) => Below(ops, k) == [Remove([])]
           case (None, Some(y)) => Below(ops, k) == [Add([], y)]
           case (Some(x), Some(y)) =>
             if x.Obj? && y.Obj? then IsDiff(Below(ops, k), x, y)
             else if x == y then Below(ops, k) == []
             else !(x.Arr? && y.Arr?) && Below(ops, k) == [Replace([], y)]
  }

  ghost predicate IsDiff(ops: seq<Op>, a: Json, b: Json)
    requires a.Obj? && b.Obj?
    decreases a, 1
  {
    IsDiffOn(ops, a, b, a.fields.Keys + b.fields.Keys)
  }

  // -------------------------------------------------------------- generatePatch

  predicate Kept(op: Op) {
    !op.Remove? && !(op.Add? && op.value == Null)
  }

  function Filter(ops: seq<Op>): seq<Op> {
    if ops == [] then []
    else if Kept(ops[0]) then [ops[0]] + Filter(ops[1..])
    else Filter(ops[1..])
  }

  /** The filtering of generatePatch; None is the nil patch that callers skip. */
  method GeneratePatch(ops: seq<Op>) returns (patch: Option<seq<Op>>)
    ensures patch == if Filter(ops) == [] then None else Some(Filter(ops))
  {
    var patchOps: seq<Op> := [];
    for i := 0 to |ops|
      invariant patchOps + Filter(ops[i..]) == Filter(ops)
    {
      assert ops[i..][1..] == ops[i + 1..];
      if !ops[i].Remove? && !(ops[i].Add? && ops[i].value == Null) {
        patchOps := patchOps + [ops[i]];
      }
    }
    assert patchOps == Filter(ops);
    if |patchOps| == 0 {
      return None;
    }
    return Some(patchOps);
  }

  // ---------------------------------------------------- what applying it achieves

  /** The merge of b over a, except that a null is not added where a has no such key. */
  function Overlay(a: Json, b: Json): Json {
    if a.Obj? && b.Obj? then
      Obj(map k | k in a.fields.Keys + b.fields.Keys && (k in a.fields || b.fields[k] != Null) ::
        if k !in b.fields then a.fields[k]
        else if k !in a.fields then b.fields[k]
        else Overlay(a.fields[k], b.fields[k]))
    else b
  }

  lemma {:induction false} BelowOfFilter(ops: seq<Op>, k: string)
    ensures Below(Filter(ops), k) == Filter(Below(ops, k))
  {
    if ops != [] {
      BelowOfFilter(ops[1..], k);
      if Kept(ops[0]) {
        assert ([ops[0]] + Filter(ops[1..]))[1..] == Filter(ops[1..]);
      }
      if ops[0].path != [] && ops[0].path[0] == k {
        var op := ops[0].At(ops[0].path[1..]);
        assert Kept(op) == Kept(ops[0]);
        assert ([op] + Below(ops[1..], k))[1..] == Below(ops[1..], k);
      }
    }
  }

  /** Operations on different keys do not meet: an object's new keys can be computed one at a time. */
  lemma {:induction false} ApplyKeyByKey(ops: seq<Op>, j: Json, j': Json)
    requires j.Obj? && j'.Obj?
    requires forall op :: op in ops ==> op.path != []
    requires forall k :: ApplyAll(Below(ops, k), Field(j, k)) == Some(Field(j', k))
    ensures ApplyAll(ops, Some(j)) == Some(Some(j'))
  {
    if ops == [] {
      forall k ensures Field(j, k) == Field(j', k) {
        assert ApplyAll(Below(ops, k), Field(j, k)) == Some(Field(j', k));
      }
      SameFieldsSameObject(j, j');
    } else {
      var op, rest := ops[0], ops[1..];
      assert op in ops;
      var h := op.path[0];
      var inner := op.At(op.path[1..]);
      assert Below(ops, h) == [inner] + Below(rest, h);
      assert ([inner] + Below(rest, h))[1..] == Below(rest, h);
      assert ApplyAll(Below(ops, h), Field(j, h)) == Some(Field(j', h));
      var s := Apply(inner, Field(j, h)).value;
      var next := Put(j, h, s);
      forall k ensures ApplyAll(Below(rest, k), Field(next, k)) == Some(Field(j', k)) {
        assert ApplyAll(Below(ops, k), Field(j, k)) == Some(Field(j', k));
      }
      ApplyKeyByKey(rest, next, j');
    }
  }

  lemma FilterKeepsPaths(ops: seq<Op>)
    requires forall op :: op in ops ==> op.path != []
    ensures forall op :: op in Filter(ops) ==> op.path != []
  {
    if ops != [] {
      FilterKeepsPaths(ops[1..]);
    }
  }

  /** Applying the kept operations succeeds, in any order CreatePatch may list them, and gives the overlay. */
  lemma {:induction false} PatchGivesOverlay(ops: seq<Op>, a: Json, b: Json)
    requires a.Obj? && b.Obj? && IsDiff(ops, a, b)
    ensures ApplyAll(Filter(ops), Some(a)) == Some(Some(Overlay(a, b)))
    decreases a
  {
    FilterKeepsPaths(ops);
    forall k ensures ApplyAll(Below(Filter(ops), k), Field(a, k)) == Some(Field(Overlay(a, b), k)) {
      BelowOfFilter(ops, k);
      match (Field(a, k), Field(b, k))
      case (None, None) =>
      case (Some(x), None) =>
      case (None, Some(y)) =>
      case (Some(x), Some(y)) =>
        if x.Obj? && y.Obj? {
          PatchGivesOverlay(Below(ops, k), x, y);
        }
    }
    ApplyKeyByKey(Filter(ops), a, Overlay(a, b));
  }

  // --------------------------------------------- such diffs exist for all documents

  /** Wherever both documents hold an array, it is the same array. */
  predicate ArraysAgree(a: Json, b: Json)
    decreases a
  {
    if a.Obj? && b.Obj? then
      forall k :: k in a.fields && k in b.fields ==> ArraysAgree(a.fields[k], b.fields[k])
    else a.Arr? && b.Arr? ==> a == b
  }

  function Prefix(k: string, ops: seq<Op>): (r: seq<Op>)
    ensures |r| == |ops|
  {
    seq(|ops|, i requires 0 <= i < |ops| => ops[i].At([k] + ops[i].path))
  }

  lemma {:induction false} BelowOfPrefix(k: string, ops: seq<Op>, rest: seq<Op>, h: string)
    ensures Below(Prefix(k, ops) + rest, h) == (if h == k then ops else []) + Below(rest, h)
  {
    if ops == [] {
      assert Prefix(k, ops) + rest == rest;
    } else {
      var tail := Prefix(k, ops[1..]) + rest;
      assert Prefix(k, ops) + rest == [ops[0].At([k] + ops[0].path)] + tail;
      BelowOfPrefix(k, ops[1..], rest, h);
      assert ops == [ops[0]] + ops[1..];
    }
  }

  lemma {:induction false} DiffOnExists(a: Json, b: Json, ks: set<string>) returns (ops: seq<Op>)
    requires a.Obj? && b.Obj? && ArraysAgree(a, b)
    ensures IsDiffOn(ops, a, b, ks)
    decreases a, ks
  {
    if ks == {} {
      ops := [];
    } else {
      var k :| k in ks;
      var rest := DiffOnExists(a, b, ks - {k});
      var here: seq<Op>;
      match (Field(a, k), Field(b, k)) {
        case (None, None) => here := [];
        case (Some(x), None) => here := [Remove([])];
        case (None, Some(y)) => here := [Add([], y)];
        case (Some(x), Some(y)) =>
          if x.Obj? && y.Obj? {
            here := DiffExists(x, y);
          } else {
            here := if x == y then [] else [Replace([], y)];
          }
      }
      ops := Prefix(k, here) + rest;
      forall h ensures Below(ops, h) == if h == k then here else Below(rest, h) {
        BelowOfPrefix(k, here, rest, h);
        assert here + [] == here;
      }
    }
  }

  lemma {:induction false} DiffExists(a: Json, b: Json) returns (ops: seq<Op>)
    requires a.Obj? && b.Obj? && ArraysAgree(a, b)
    ensures IsDiff(ops, a, b)
    decreases a
  {
    ops := DiffOnExists(a, b, a.fields.Keys + b.fields.Keys);
  }

  // -------------------------------------------------------------- consequences

  /** b holds no null under a key that a does not have. */
  predicate NoNullAdds(a: Json, b: Json)
    decreases a
  {
    a.Obj? && b.Obj? ==>
      forall k :: k in b.fields ==>
        if k in a.fields then NoNullAdds(a.fields[k], b.fields[k]) else b.fields[k] != Null
  }

  /** The patch performs exactly the deep merge of the manifest unless it would have to add a null. */
  lemma {:induction false} OverlayIsMergeExactlyWhen(a: Json, b: Json)
    ensures Overlay(a, b) == Merge(a, b) <==> NoNullAdds(a, b)
    decreases a
  {
    if a.Obj? && b.Obj? {
      var o, m := Overlay(a, b), Merge(a, b);
      forall k | k in a.fields && k in b.fields
        ensures Overlay(a.fields[k], b.fields[k]) == Merge(a.fields[k], b.fields[k]) <==>
                NoNullAdds(a.fields[k], b.fields[k])
      {
        OverlayIsMergeExactlyWhen(a.fields[k], b.fields[k]);
      }
      if NoNullAdds(a, b) {
        SameFieldsSameObject(o, m);
      }
      if o == m {
        forall k | k in b.fields
          ensures if k in a.fields then NoNullAdds(a.fields[k], b.fields[k]) else b.fields[k] != Null
        {
          assert k in m.fields;
        }
      }
    }
  }

  /** A null for a new key is lost. */
  lemma NullIsDropped(k: string)
    ensures var a, b := Obj(map[]), Obj(map[k := Null]); Overlay(a, b) != Merge(a, b)
  {
    var b := Obj(map[k := Null]);
    OverlayIsMergeExactlyWhen(Obj(map[]), b);
    assert k in b.fields;
  }

  /** So applying the patch of any two objects gives their deep merge under exactly that condition. */
  lemma PatchGivesMergeExactlyWhen(ops: seq<Op>, a: Json, b: Json)
    requires a.Obj? && b.Obj? && IsDiff(ops, a, b)
    ensures ApplyAll(Filter(ops), Some(a)) == Some(Some(Merge(a, b))) <==> NoNullAdds(a, b)
  {
    PatchGivesOverlay(ops, a, b);
    OverlayIsMergeExactlyWhen(a, b);
  }

  /** What the manifest sets holds afterwards, and what it is silent about is left as it was. */
  lemma {:induction false} OverlayLookup(a: Json, b: Json, p: Path)
    ensures match Lookup(b, p)
            case Some(v) => !v.Obj? && v != Null ==> Lookup(Overlay(a, b), p) == Some(v)
            case None => !Cut(b, p) ==> Lookup(Overlay(a, b), p) == Lookup(a, p)
    decreases |p|
  {
    if p != [] && b.Obj? && p[0] in b.fields && a.Obj? && p[0] in a.fields {
      OverlayLookup(a.fields[p[0]], b.fields[p[0]], p[1..]);
    }
  }

  lemma {:induction false} OverlaySettles(a: Json, b: Json)
    ensures Overlay(Overlay(a, b), b) == Overlay(a, b)
    decreases a
  {
    if a.Obj? && b.Obj? {
      var o := Overlay(a, b);
      forall k | k in a.fields && k in b.fields
        ensures Overlay(Overlay(a.fields[k], b.fields[k]), b.fields[k]) == Overlay(a.fields[k], b.fields[k])
      {
        OverlaySettles(a.fields[k], b.fields[k]);
      }
      forall k | k in b.fields && k !in a.fields ensures Overlay(b.fields[k], b.fields[k]) == b.fields[k] {
        OverlayOfSame(b.fields[k]);
      }
      SameFieldsSameObject(Overlay(o, b), o);
    } else {
      OverlayOfSame(b);
    }
  }

  lemma {:induction false} OverlayOfSame(a: Json)
    ensures Overlay(a, a) == a
  {
    if a.Obj? {
      forall k | k in a.fields ensures Overlay(a.fields[k], a.fields[k]) == a.fields[k] {
        OverlayOfSame(a.fields[k]);
      }
      SameFieldsSameObject(Overlay(a, a), a);
    }
  }

  /** The patch is nil exactly when the live resource already is the overlay. */
  lemma {:induction false} PatchIsNilExactlyWhen(ops: seq<Op>, a: Json, b: Json)
    requires a.Obj? && b.Obj? && IsDiff(ops, a, b)
    ensures Filter(ops) == [] <==> Overlay(a, b) == a
    decreases a
  {
    PatchGivesOverlay(ops, a, b);
    if Overlay(a, b) == a && Filter(ops) != [] {
      FilterKeepsPaths(ops);
      var op := Filter(ops)[0];
      assert op in Filter(ops);
      var k := op.path[0];
      BelowOfFilter(ops, k);
      assert Below(Filter(ops), k) != [];
      assert Field(Overlay(a, b), k) == Field(a, k);
      match (Field(a, k), Field(b, k))
      case (None, None) =>
      case (Some(x), None) =>
      case (None, Some(y)) =>
      case (Some(x), Some(y)) =>
        if x.Obj? && y.Obj? {
          PatchIsNilExactlyWhen(Below(ops, k), x, y);
        }
    }
  }

  /** Reconciling twice: after the first patch the second is nil. */
  lemma SecondPatchIsNil(first: seq<Op>, a: Json, b: Json, second: seq<Op>, patched: Json)
    requires a.Obj? && b.Obj? && IsDiff(first, a, b)
    requires ApplyAll(Filter(first), Some(a)) == Some(Some(patched))
    requires patched.Obj? && IsDiff(second, patched, b)
    ensures Filter(second) == []
  {
    PatchGivesOverlay(first, a, b);
    OverlaySettles(a, b);
    PatchIsNilExactlyWhen(second, patched, b);
  }
}
