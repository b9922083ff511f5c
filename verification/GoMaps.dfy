/**
 mergeMaps in its own form (operator-sdk/pkg/helm/release/manager_factory.go): maps are
 objects that refer to one another, and the result shares nested maps with its inputs.
 No method here has a `modifies` clause, so no map that existed before is changed.
 */
module GoMaps {
  import opened Json
  import opened MergeMaps

  /** A value of a Go map: a nested map, or anything else. */
  datatype Value = Leaf(j: Json) | Nested(m: GoMap)

  /** The maps of a value. */
  ghost function Maps(v: Value): set<GoMap>
    reads if v.Nested? then {v.m} else {}
  {
    if v.Nested? then v.m.repr else {}
  }

  ghost predicate IsTree(v: Value)
    reads if v.Nested? then {v.m} + v.m.repr else {}
    decreases Maps(v), 1
  {
    if v.Nested? then v.m.Valid() else !v.j.Obj?
  }

  /** The document that a value stands for. */
  ghost function Document(v: Value): Json
    requires IsTree(v)
    reads if v.Nested? then {v.m} + v.m.repr else {}
    decreases Maps(v), 1
  {
    if v.Nested? then v.m.Contents() else v.j
  }

  /** values stands for the documents d but for the keys that are still to do. */
  ghost predicate StandsFor(values: map<string, Value>, d: map<string, Json>, todo: set<string>)
    reads set k | k in values && values[k].Nested? :: values[k].m
    reads set k, m | k in values && values[k].Nested? && m in values[k].m.repr :: m
  {
    forall k :: k in values ==> IsTree(values[k]) && (k !in todo ==> k in d && Document(values[k]) == d[k])
  }

  class GoMap {
    var fields: map<string, Value>
    ghost var repr: set<GoMap>

    constructor (values: map<string, Value>, ghost documents: map<string, Json>)
      requires StandsFor(values, documents, {}) && values.Keys == documents.Keys
      ensures fields == values && Valid() && Contents() == Obj(documents)
    {
      ghost var below := set k, m | k in values && m in Maps(values[k]) :: m;
      fields, repr := values, {this} + below;
      new;
      assert this !in below;
      forall k | k in values
        ensures IsTree(values[k]) && this !in Maps(values[k]) && Maps(values[k]) <= repr
        ensures values[k].Nested? ==> values[k].m in repr
        ensures Document(values[k]) == documents[k]
      {
        assert forall m :: m in Maps(values[k]) ==> m in below;
        if values[k].Nested? {
          assert unchanged(values[k].m) && old(values[k].m.Valid());
          assert values[k].m in Maps(values[k]);
        }
      }
      assert Valid();
      assert Contents().fields == documents;
    }

    /** repr holds this map and all maps below it, and no map is below itself. */
    ghost predicate Valid()
      reads this, repr
      decreases repr, 0
    {
      && this in repr
      && forall k :: k in fields ==>
           && (fields[k].Nested? ==> fields[k].m in repr && fields[k].m.repr <= repr && this !in fields[k].m.repr)
           && IsTree(fields[k])
    }

    ghost function Contents(): Json
      requires Valid()
      reads this, repr
      decreases repr, 0
    {
      assert forall k :: k in fields ==> IsTree(fields[k]);
      Obj(map k | k in fields :: Document(fields[k]))
    }
  }

  /** The first loop of mergeMaps: the keys of a Go map are visited in an arbitrary order. */
  method CopyFields(a: GoMap) returns (out: map<string, Value>)
    ensures out == a.fields
  {
    out := map[];
    var todo := a.fields.Keys;
    while todo != {}
      invariant todo <= a.fields.Keys
      invariant out == map k | k in a.fields.Keys - todo :: a.fields[k]
    {
      var k :| k in todo;
      out := out[k := a.fields[k]];
      todo := todo - {k};
    }
  }

  /** What becomes of a key of b that the result has already: two maps are merged, else b's value wins. */
  method MergeValue(u: Value, v: Value) returns (w: Value)
    requires IsTree(u) && IsTree(v)
    ensures IsTree(w)
    ensures if u.Nested? && v.Nested? then Document(w) == Merge(Document(u), Document(v)) else w == v
    decreases Maps(v), 5
  {
    w := v;
    if u.Nested? && v.Nested? {
      var inner := MergeFields(u.m, v.m);
      w := Nested(inner);
    }
  }

  /** Two maps under one key are merged into a new one. */
  predicate AreMerged(a: GoMap, b: GoMap, k: string)
    reads a, b
  {
    k in a.fields && k in b.fields && a.fields[k].Nested? && b.fields[k].Nested?
  }

  /** All other values are those of the inputs, and nested maps among them are shared. */
  predicate Shares(values: map<string, Value>, a: GoMap, b: GoMap, todo: set<string>)
    reads a, b
  {
    forall k :: k in values ==>
      if k in b.fields && k !in todo then AreMerged(a, b, k) || values[k] == b.fields[k]
      else k in a.fields && values[k] == a.fields[k]
  }

  /** What the merge holds that b has no say in. */
  lemma KeptFields(a: GoMap, b: GoMap, merged: map<string, Json>)
    requires a.Valid() && b.Valid() && Obj(merged) == Merge(a.Contents(), b.Contents())
    ensures merged.Keys == a.fields.Keys + b.fields.Keys
    ensures StandsFor(a.fields, merged, b.fields.Keys)
  {
    var da := a.Contents().fields;
    assert forall k :: k in a.fields ==> da[k] == Document(a.fields[k]);
  }

  /** What the second loop puts under a key of b. */
  method MergeKey(a: GoMap, b: GoMap, k: string, ghost merged: map<string, Json>) returns (v: Value)
    requires a.Valid() && b.Valid() && Obj(merged) == Merge(a.Contents(), b.Contents()) && k in b.fields
    ensures IsTree(v) && k in merged && Document(v) == merged[k]
    ensures !AreMerged(a, b, k) ==> v == b.fields[k]
    decreases b.repr, 0
  {
    v := b.fields[k];
    MergedField(a.Contents().fields, b.Contents().fields, k);
    if k in a.fields {
      v := MergeValue(a.fields[k], v);
    }
  }

  /** One round of the second loop. */
  method PutKey(values: map<string, Value>, a: GoMap, b: GoMap, k: string, ghost merged: map<string, Json>,
                ghost todo: set<string>)
    returns (more: map<string, Value>)
    requires a.Valid() && b.Valid() && Obj(merged) == Merge(a.Contents(), b.Contents()) && k in b.fields
    requires StandsFor(values, merged, todo) && Shares(values, a, b, todo)
    ensures StandsFor(more, merged, todo - {k}) && Shares(more, a, b, todo - {k}) && more.Keys == values.Keys + {k}
    decreases b.repr, 1
  {
    var v := MergeKey(a, b, k, merged);
    more := values[k := v];
    forall h | h in more ensures IsTree(more[h]) && (h !in todo - {k} ==> h in merged && Document(more[h]) == merged[h]) {
      if h != k {
        assert more[h] == values[h];
      }
    }
  }

  /** The second loop, over the copy that the first one has made. */
  method PutAll(copy: map<string, Value>, a: GoMap, b: GoMap, ghost merged: map<string, Json>)
    returns (values: map<string, Value>)
    requires a.Valid() && b.Valid() && Obj(merged) == Merge(a.Contents(), b.Contents())
    requires StandsFor(copy, merged, b.fields.Keys) && Shares(copy, a, b, b.fields.Keys)
    ensures StandsFor(values, merged, {}) && Shares(values, a, b, {})
    ensures values.Keys == copy.Keys + b.fields.Keys
    decreases b.repr, 2
  {
    values := copy;
    ghost var da, db := a.Contents(), b.Contents();
    var todo := b.fields.Keys;
    while todo != {}
      invariant todo <= b.fields.Keys
      invariant values.Keys + todo == copy.Keys + b.fields.Keys
      invariant a.Valid() && b.Valid() && a.Contents() == da && b.Contents() == db
      invariant StandsFor(values, merged, todo) && Shares(values, a, b, todo)
    {
      var k :| k in todo;
      values := PutKey(values, a, b, k, merged, todo);
      assert a.Contents() == da && b.Contents() == db;
      todo := todo - {k};
    }
  }

  /** The values of the new map. */
  method MergeValues(a: GoMap, b: GoMap, ghost merged: map<string, Json>) returns (values: map<string, Value>)
    requires a.Valid() && b.Valid() && Obj(merged) == Merge(a.Contents(), b.Contents())
    ensures StandsFor(values, merged, {}) && values.Keys == merged.Keys && Shares(values, a, b, {})
    decreases b.repr, 3
  {
    KeptFields(a, b, merged);
    values := CopyFields(a);
    values := PutAll(values, a, b, merged);
  }

  /** mergeMaps: a new map stands for the merge; a and b are as they were, and lend their values to it. */
  method MergeFields(a: GoMap, b: GoMap) returns (out: GoMap)
    requires a.Valid() && b.Valid()
    ensures fresh(out) && out.Valid()
    ensures out.Contents() == Merge(a.Contents(), b.Contents())
    ensures Shares(out.fields, a, b, {})
    decreases b.repr, 4
  {
    ghost var da, db := a.Contents(), b.Contents();
    ghost var merged := Merge(da, db).fields;
    var values := MergeValues(a, b, merged);
    assert a.Contents() == da && b.Contents() == db;
    out := new GoMap(values, merged);
    assert a.Contents() == da && b.Contents() == db;
  }
}
