/** JSON documents and look-up by path. */
module Json {
  import opened Wrappers

  datatype Json =
    | Null
    | Bool(b: bool)
    | Num(n: int)
    | Str(s: string)
    | Arr(items: seq<Json>)
    | Obj(fields: map<string, Json>)

  type Path = seq<string>

  /** The value of one key of an object; None when the key is missing. */
  function Field(j: Json, k: string): Option<Json> {
    if j.Obj? && k in j.fields then Some(j.fields[k]) else None
  }

  function Lookup(j: Json, p: Path): Option<Json>
    decreases |p|
  {
    if p == [] then Some(j)
    else match Field(j, p[0])
      case None => None
      case Some(v) => Lookup(v, p[1..])
  }

  lemma SameFieldsSameObject(a: Json, b: Json)
    requires a.Obj? && b.Obj?
    requires forall k :: Field(a, k) == Field(b, k)
    ensures a == b
  {
    forall k ensures k in a.fields <==> k in b.fields {
      assert Field(a, k) == Field(b, k);
    }
    forall k | k in a.fields ensures a.fields[k] == b.fields[k] {
      assert Field(a, k) == Field(b, k);
    }
    assert a.fields == b.fields;
  }
}
