/**
 Converting all keys of a parameter tree: convertParameter, convertArray and
 convertMapKeys, with MapToSnake and MapToCamel
 (operator-sdk/pkg/ansible/paramconv/paramconv.go). Go visits the keys of a map in an
 arbitrary order, and of two keys with one converted name the later one wins.
 */
module ParamConvTree {
  import opened Wrappers
  import opened Json
  import ParamConv
  import ParamConvNumberedWords

  /** The conversion of a name; None is a run-time panic. */
  type Rename = string -> Option<string>

  /** Some name in the tree makes the conversion panic. */
  predicate Panics(fn: Rename, j: Json)
    decreases j
  {
    match j
    case Obj(fields) => exists k :: k in fields && (fn(k).None? || Panics(fn, fields[k]))
    case Arr(items) => exists i :: 0 <= i < |items| && Panics(fn, items[i])
    case _ => false
  }

  /** r is a result of converting j, for some order of the keys of every map. */
  ghost predicate Converts(fn: Rename, j: Json, r: Json)
    decreases j
  {
    match j
    case Obj(fields) =>
      && r.Obj? && (forall k :: k in fields ==> fn(k).Some? && fn(k).value in r.fields)
      && (forall n :: n in r.fields ==> exists k :: k in fields && fn(k) == Some(n) && Converts(fn, fields[k], r.fields[n]))
    case Arr(items) =>
      r.Arr? && |r.items| == |items| && forall i :: 0 <= i < |items| ==> Converts(fn, items[i], r.items[i])
    case _ => r == j
  }

  // ------------------------------------------------------------ the source's form

  method ConvertParameter(fn: Rename, v: Json) returns (r: Option<Json>)
    ensures r.None? <==> Panics(fn, v)
    ensures r.Some? ==> Converts(fn, v, r.value)
    decreases v, 1
  {
    match v {
      case Obj(fields) =>
        var ret := ConvertMapKeys(fn, fields);
        assert Obj(fields) == v;
        return if ret.Some? then Some(Obj(ret.value)) else None;
      case Arr(items) =>
        var ret := ConvertArray(fn, items);
        assert Arr(items) == v;
        return if ret.Some? then Some(Arr(ret.value)) else None;
      case _ => return Some(v);
    }
  }

  method ConvertArray(fn: Rename, items: seq<Json>) returns (res: Option<seq<Json>>)
    ensures res.None? <==> Panics(fn, Arr(items))
    ensures res.Some? ==> Converts(fn, Arr(items), Arr(res.value))
    decreases Arr(items), 0
  {
    var out := [];
    for i := 0 to |items|
      invariant |out| == i && forall k :: 0 <= k < i ==> Converts(fn, items[k], out[k]) && !Panics(fn, items[k])
    {
      var r := ConvertParameter(fn, items[i]);
      if r.None? { return None; }
      out := out + [r.value];
    }
    return Some(out);
  }

  method ConvertMapKeys(fn: Rename, fields: map<string, Json>) returns (res: Option<map<string, Json>>)
    ensures res.None? <==> Panics(fn, Obj(fields))
    ensures res.Some? ==> Converts(fn, Obj(fields), Obj(res.value))
    decreases Obj(fields), 0
  {
    var out: map<string, Json> := map[];
    var todo := fields.Keys;
    while todo != {}
      invariant todo <= fields.Keys
      invariant forall k :: k in fields.Keys - todo ==> fn(k).Some? && fn(k).value in out && !Panics(fn, fields[k])
      invariant forall n :: n in out ==> exists k :: k in fields && fn(k) == Some(n) && Converts(fn, fields[k], out[n])
    {
      var k :| k in todo;
      var name := fn(k);
      if name.None? { return None; }
      var r := ConvertParameter(fn, fields[k]);
      if r.None? { return None; }
      out := out[name.value := r.value];
      todo := todo - {k};
    }
    return Some(out);
  }

  // ---------------------------------------------- when the order does not matter

  /** The converted names of the keys. */
  function Names(fn: Rename, fields: map<string, Json>): set<Option<string>> {
    set k | k in fields :: fn(k)
  }

  /** a and b convert alike: keys with one converted name hold values that convert alike. */
  predicate Alike(fn: Rename, a: Json, b: Json)
    decreases a
  {
    if a.Obj? && b.Obj? then
      Names(fn, a.fields) == Names(fn, b.fields) &&
      forall k, h :: k in a.fields && h in b.fields && fn(k) == fn(h) ==> Alike(fn, a.fields[k], b.fields[h])
    else if a.Arr? && b.Arr? then
      |a.items| == |b.items| && forall i :: 0 <= i < |a.items| ==> Alike(fn, a.items[i], b.items[i])
    else a == b
  }

  /** Where the value under name n of a result comes from, if there is one. */
  lemma KeyOf(fn: Rename, j: Json, r: Json, n: string) returns (k: string)
    ensures j.Obj? && Converts(fn, j, r) && n in r.fields ==>
              k in j.fields && fn(k) == Some(n) && Converts(fn, j.fields[k], r.fields[n])
  {
    k := "";
    if j.Obj? && Converts(fn, j, r) && n in r.fields {
      k :| k in j.fields && fn(k) == Some(n) && Converts(fn, j.fields[k], r.fields[n]);
    }
  }

  lemma {:induction false} AlikeMeansEqual(fn: Rename, a: Json, b: Json, ra: Json, rb: Json)
    requires Alike(fn, a, b) && Converts(fn, a, ra) && Converts(fn, b, rb)
    ensures ra == rb
    decreases a
  {
    if a.Obj? && b.Obj? {
      forall n ensures Field(ra, n) == Field(rb, n) {
        if Some(n) in Names(fn, a.fields) {
          var k := KeyOf(fn, a, ra, n);
          var h := KeyOf(fn, b, rb, n);
          AlikeMeansEqual(fn, a.fields[k], b.fields[h], ra.fields[n], rb.fields[n]);
        }
      }
      SameFieldsSameObject(ra, rb);
    } else if a.Arr? && b.Arr? {
      forall i | 0 <= i < |a.items| ensures ra.items[i] == rb.items[i] {
        AlikeMeansEqual(fn, a.items[i], b.items[i], ra.items[i], rb.items[i]);
      }
    }
  }

  /** A result in which key k was visited last and its value was converted to rk. */
  lemma {:induction false} ResultWith(fn: Rename, j: Json, k: string, rk: Json) returns (r: Json)
    requires j.Obj? && k in j.fields && !Panics(fn, j) && Converts(fn, j.fields[k], rk)
    ensures Converts(fn, j, r) && fn(k).Some? && r.fields[fn(k).value] == rk
    decreases j, 0
  {
    var out: map<string, Json> := map[];
    var todo := j.fields.Keys;
    while todo != {}
      invariant todo <= j.fields.Keys
      invariant forall h :: h in j.fields.Keys - todo ==> fn(h).Some? && fn(h).value in out
      invariant forall n :: n in out ==>
                  exists h :: h in j.fields && fn(h) == Some(n) && Converts(fn, j.fields[h], out[n])
    {
      var h :| h in todo;
      var rh := SomeResult(fn, j.fields[h]);
      out := out[fn(h).value := rh];
      todo := todo - {h};
    }
    r := Obj(out[fn(k).value := rk]);
  }

  lemma {:induction false} SomeResult(fn: Rename, j: Json) returns (r: Json)
    requires !Panics(fn, j)
    ensures Converts(fn, j, r)
    decreases j, 1
  {
    if j.Obj? {
      if j.fields == map[] {
        r := Obj(map[]);
      } else {
        var k :| k in j.fields;
        var rk := SomeResult(fn, j.fields[k]);
        r := ResultWith(fn, j, k, rk);
      }
    } else if j.Arr? {
      var out := [];
      for i := 0 to |j.items|
        invariant |out| == i && forall k :: 0 <= k < i ==> Converts(fn, j.items[k], out[k])
      {
        var x := SomeResult(fn, j.items[i]);
        out := out + [x];
      }
      r := Arr(out);
    } else {
      r := j;
    }
  }

  /** A result of j that has rs at place i. */
  lemma {:induction false} ResultAt(fn: Rename, j: Json, i: nat, ri: Json) returns (r: Json)
    requires j.Arr? && i < |j.items| && !Panics(fn, j) && Converts(fn, j.items[i], ri)
    ensures Converts(fn, j, r) && r.items[i] == ri
  {
    var s := SomeResult(fn, j);
    r := Arr(s.items[i := ri]);
  }

  /** Trees that are not alike have results that differ. */
  lemma {:induction false} DifferentResults(fn: Rename, a: Json, b: Json) returns (ra: Json, rb: Json)
    requires !Panics(fn, a) && !Panics(fn, b) && !Alike(fn, a, b)
    ensures Converts(fn, a, ra) && Converts(fn, b, rb) && ra != rb
    decreases a
  {
    ra := SomeResult(fn, a);
    rb := SomeResult(fn, b);
    if a.Obj? && b.Obj? && ra == rb {
      NamesAgree(fn, a, b, ra);
      var k, h :| k in a.fields && h in b.fields && fn(k) == fn(h) && !Alike(fn, a.fields[k], b.fields[h]);
      var x, y := DifferentResults(fn, a.fields[k], b.fields[h]);
      ra := ResultWith(fn, a, k, x);
      rb := ResultWith(fn, b, h, y);
    } else if a.Arr? && b.Arr? && ra == rb {
      var i :| 0 <= i < |a.items| && !Alike(fn, a.items[i], b.items[i]);
      var x, y := DifferentResults(fn, a.items[i], b.items[i]);
      ra := ResultAt(fn, a, i, x);
      rb := ResultAt(fn, b, i, y);
    }
  }

  lemma NamesAgree(fn: Rename, a: Json, b: Json, r: Json)
    requires a.Obj? && b.Obj? && Converts(fn, a, r) && Converts(fn, b, r)
    ensures Names(fn, a.fields) == Names(fn, b.fields)
  {
    forall n ensures n in Names(fn, a.fields) <==> n in Names(fn, b.fields) {
      assert n.Some? ==> (n.value in r.fields <==> n in Names(fn, a.fields));
    }
  }

  /** All orders of visits give one result. */
  ghost predicate HasOneResult(fn: Rename, j: Json) {
    forall r, s :: Converts(fn, j, r) && Converts(fn, j, s) ==> r == s
  }

  lemma AlikeHasOneResult(fn: Rename, j: Json)
    requires Alike(fn, j, j)
    ensures HasOneResult(fn, j)
  {
    forall r, s | Converts(fn, j, r) && Converts(fn, j, s) ensures r == s {
      AlikeMeansEqual(fn, j, j, r, s);
    }
  }

  /**
   The result does not depend on the order in which keys are visited exactly when,
   throughout the tree, keys with one converted name hold values that convert alike.
   */
  lemma OrderDoesNotMatterExactlyWhen(fn: Rename, j: Json)
    requires !Panics(fn, j)
    ensures HasOneResult(fn, j) <==> Alike(fn, j, j)
  {
    if Alike(fn, j, j) {
      AlikeHasOneResult(fn, j);
    } else {
      var r, s := DifferentResults(fn, j, j);
    }
  }

  // --------------------------------------------------------------- the round trip

  /** Every key of the tree, at any depth, comes back. */
  predicate KeysComeBack(there: Rename, back: Rename, j: Json)
    decreases j
  {
    match j
    case Obj(fields) =>
      forall k :: k in fields ==>
        there(k).Some? && back(there(k).value) == Some(k) && KeysComeBack(there, back, fields[k])
    case Arr(items) => forall i :: 0 <= i < |items| ==> KeysComeBack(there, back, items[i])
    case _ => true
  }

  lemma {:induction false} TreeComesBack(there: Rename, back: Rename, j: Json, c: Json, r: Json)
    requires KeysComeBack(there, back, j) && Converts(there, j, c) && Converts(back, c, r)
    ensures r == j
    decreases j
  {
    match j {
      case Obj(fields) =>
        forall k ensures Field(r, k) == Field(j, k) {
          if k in fields {
            assert back(there(k).value).value in r.fields;
          }
          if k in r.fields {
            var n :| n in c.fields && back(n) == Some(k) && Converts(back, c.fields[n], r.fields[k]);
            var h :| h in fields && there(h) == Some(n) && Converts(there, fields[h], c.fields[n]);
            assert h == k;
            TreeComesBack(there, back, fields[k], c.fields[n], r.fields[k]);
          }
        }
        SameFieldsSameObject(r, j);
      case Arr(items) =>
        forall i | 0 <= i < |items| ensures r.items[i] == items[i] {
          TreeComesBack(there, back, items[i], c.items[i], r.items[i]);
        }
      case _ =>
    }
  }

  /** Every key is made of lower-case words, with numbers or without, that stand apart. */
  ghost predicate KeysAreSnake(j: Json)
    decreases j
  {
    match j
    case Obj(fields) => forall k :: k in fields ==> IsSnakeKey(k) && KeysAreSnake(fields[k])
    case Arr(items) => forall i :: 0 <= i < |items| ==> KeysAreSnake(items[i])
    case _ => true
  }

  ghost predicate IsSnakeKey(k: string) {
    exists words :: words != [] && ParamConvNumberedWords.AreValid(words) &&
                    ParamConvNumberedWords.StandApart(words) &&
                    k == ParamConv.Join(ParamConvNumberedWords.Texts(words))
  }

  function ToCamel(s: string): Option<string> {
    Some(ParamConv.Camel(s))
  }

  lemma {:induction false} SnakeKeysComeBack(j: Json)
    requires KeysAreSnake(j)
    ensures KeysComeBack(ToCamel, ParamConv.Snake, j)
    decreases j
  {
    match j {
      case Obj(fields) =>
        forall k | k in fields
          ensures ParamConv.Snake(ParamConv.Camel(k)) == Some(k) && KeysComeBack(ToCamel, ParamConv.Snake, fields[k])
        {
          var words :| words != [] && ParamConvNumberedWords.AreValid(words) &&
                       ParamConvNumberedWords.StandApart(words) &&
                       k == ParamConv.Join(ParamConvNumberedWords.Texts(words));
          ParamConvNumberedWords.SnakeUndoesCamelExactlyWhen(words);
          SnakeKeysComeBack(fields[k]);
        }
      case Arr(items) =>
        forall i | 0 <= i < |items| ensures KeysComeBack(ToCamel, ParamConv.Snake, items[i]) {
          SnakeKeysComeBack(items[i]);
        }
      case _ =>
    }
  }

  /** MapToSnake undoes MapToCamel on every tree with such keys, in any order of visits. */
  lemma MapToSnakeUndoesMapToCamel(j: Json, camel: Json, snake: Json)
    requires KeysAreSnake(j) && Converts(ToCamel, j, camel) && Converts(ParamConv.Snake, camel, snake)
    ensures snake == j
  {
    SnakeKeysComeBack(j);
    TreeComesBack(ToCamel, ParamConv.Snake, j, camel, snake);
  }
}
