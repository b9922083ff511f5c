/**
 The deep merge of Helm values, as mergeMaps
 (operator-sdk/pkg/helm/release/manager_factory.go) computes it, and its laws.
 */
module MergeMaps {
  import opened Wrappers
  import opened Json

  /** The later value wins, except that two objects are merged key by key. */
  function Merge(a: Json, b: Json): Json {
    if a.Obj? && b.Obj? then
      Obj(map k | k in a.fields.Keys + b.fields.Keys ::
        if k !in b.fields then a.fields[k]
        else if k !in a.fields then b.fields[k]
        else Merge(a.fields[k], b.fields[k]))
    else b
  }

  lemma MergedField(a: map<string, Json>, b: map<string, Json>, k: string)
    requires k in b
    ensures var m := Merge(Obj(a), Obj(b)).fields;
      k in m && m[k] == if k in a && a[k].Obj? && b[k].Obj? then Merge(a[k], b[k]) else b[k]
  {
  }

  // ------------------------------------------------------------ path by path

  /** b has a value that is not an object somewhere strictly above p. */
  predicate Cut(b: Json, p: Path)
    decreases |p|
  {
    p != [] && (!b.Obj? || (p[0] in b.fields && Cut(b.fields[p[0]], p[1..])))
  }

  /**
   What the merge holds at every path: b where b has a non-object or has cut the path
   off; a where b is silent; and the merge of both where both have objects.
   */
  lemma {:induction false} MergedLookup(a: Json, b: Json, p: Path)
    ensures Lookup(Merge(a, b), p) ==
            if Cut(b, p) then None
            else match Lookup(b, p)
              case None => Lookup(a, p)
              case Some(v) =>
                if v.Obj? && Lookup(a, p).Some? then Some(Merge(Lookup(a, p).value, v)) else Some(v)
    decreases |p|
  {
    if p != [] && b.Obj? {
      var k := p[0];
      if k in b.fields {
        if a.Obj? && k in a.fields {
          MergedLookup(a.fields[k], b.fields[k], p[1..]);
        } else {
          LookupNeedsNoCut(b.fields[k], p[1..]);
        }
      }
    }
  }

  lemma {:induction false} LookupNeedsNoCut(b: Json, p: Path)
    ensures Cut(b, p) ==> Lookup(b, p) == None
    decreases |p|
  {
    if p != [] && b.Obj? && p[0] in b.fields {
      LookupNeedsNoCut(b.fields[p[0]], p[1..]);
    }
  }

  // ----------------------------------------------------------- algebraic laws

  lemma EmptyIsIdentity(a: Json)
    requires a.Obj?
    ensures Merge(a, Obj(map[])) == a == Merge(Obj(map[]), a)
  {
    SameFieldsSameObject(Merge(a, Obj(map[])), a);
    SameFieldsSameObject(Merge(Obj(map[]), a), a);
  }

  lemma {:induction false} MergeIsIdempotent(a: Json)
    ensures Merge(a, a) == a
  {
    if a.Obj? {
      forall k | k in a.fields ensures Merge(a.fields[k], a.fields[k]) == a.fields[k] {
        MergeIsIdempotent(a.fields[k]);
      }
      SameFieldsSameObject(Merge(a, a), a);
    }
  }

  /** Nothing of a shows through when c is merged over it. */
  predicate Covers(c: Json, a: Json)
    decreases a
  {
    a.Obj? && c.Obj? ==>
      forall k :: k in a.fields ==> k in c.fields && Covers(c.fields[k], a.fields[k])
  }

  lemma {:induction false} CoversMeansAbsorbs(c: Json, a: Json)
    ensures Merge(a, c) == c <==> Covers(c, a)
    decreases a
  {
    if a.Obj? && c.Obj? {
      var m := Merge(a, c);
      forall k | k in a.fields && k in c.fields
        ensures Merge(a.fields[k], c.fields[k]) == c.fields[k] <==> Covers(c.fields[k], a.fields[k])
      {
        CoversMeansAbsorbs(c.fields[k], a.fields[k]);
      }
      if Covers(c, a) {
        SameFieldsSameObject(m, c);
      }
      if m == c {
        forall k | k in a.fields ensures k in c.fields && Covers(c.fields[k], a.fields[k]) {
          assert k in m.fields;
        }
      }
    }
  }

  /** At no path is a non-object of b between an object of a and an object of c that a adds to. */
  predicate Associates(a: Json, b: Json, c: Json)
    decreases b
  {
    if !b.Obj? then Covers(c, a)
    else a.Obj? && c.Obj? ==>
      forall k :: k in a.fields && k in b.fields && k in c.fields ==>
        Associates(a.fields[k], b.fields[k], c.fields[k])
  }

  /** mergeMaps is associative on a, b, c under exactly that condition. */
  lemma {:induction false} MergeIsAssociativeExactlyWhen(a: Json, b: Json, c: Json)
    ensures Merge(Merge(a, b), c) == Merge(a, Merge(b, c)) <==> Associates(a, b, c)
    decreases b
  {
    if !b.Obj? {
      CoversMeansAbsorbs(c, a);
    } else if a.Obj? && c.Obj? {
      var l, r := Merge(Merge(a, b), c), Merge(a, Merge(b, c));
      forall k | k in a.fields && k in b.fields && k in c.fields
        ensures Field(l, k) == Field(r, k) <==> Associates(a.fields[k], b.fields[k], c.fields[k])
      {
        MergeIsAssociativeExactlyWhen(a.fields[k], b.fields[k], c.fields[k]);
      }
      forall k | !(k in a.fields && k in b.fields && k in c.fields) ensures Field(l, k) == Field(r, k) {
      }
      if Associates(a, b, c) {
        SameFieldsSameObject(l, r);
      }
    }
  }

  /** The shape that breaks associativity: under one key a map, then a scalar or an array, then a map. */
  lemma MergeIsNotAssociative(k: string, x: Json, y: Json)
    requires x.Obj? && x.fields != map[] && !y.Obj?
    ensures var a, b, c := Obj(map[k := x]), Obj(map[k := y]), Obj(map[k := Obj(map[])]);
      Merge(Merge(a, b), c) != Merge(a, Merge(b, c))
  {
    var a, b, c := Obj(map[k := x]), Obj(map[k := y]), Obj(map[k := Obj(map[])]);
    MergeIsAssociativeExactlyWhen(a, b, c);
    assert k in a.fields && k in b.fields && k in c.fields;
    var h :| h in x.fields;
    assert !Covers(Obj(map[]), x);
  }
}
