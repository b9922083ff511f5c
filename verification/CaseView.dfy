/**
 A test case as it is shown and as it is posted: viewToPost, postToView, objToArray and
 arrayToObj of powerful-front/src/data.ts. An object is the sequence of its properties in
 insertion order; whatever the conversion does not look at is one opaque value.
 */
module CaseView {
  import opened Wrappers

  datatype Property = Property(name: string, value: string)

  type Object = seq<Property>

  /** A line of the view: name and value may be missing. */
  datatype Line = Line(name: Option<string>, value: Option<string>)

  /** A step of a case; F is how headers and queries are held. */
  datatype Trace<F> = Trace(headers: Option<F>, queries: Option<F>, rest: nat)

  datatype Case<F> = Case(trace: seq<Trace<F>>, validate: Option<nat>, rest: nat)

  type View = Case<seq<Line>>
  type Post = Case<Object>

  // ---------------------------------------------------------------- properties

  predicate HasName(o: Object, name: string) {
    exists p :: p in o && p.name == name
  }

  /** Assignment of a property: in its place if the object has it, at the end otherwise. */
  function Put(o: Object, name: string, value: string): Object {
    if o == [] then [Property(name, value)]
    else if o[0].name == name then [Property(name, value)] + o[1..]
    else [o[0]] + Put(o[1..], name, value)
  }

  /** Lines with a name and a value count. */
  predicate Counts(l: Line) {
    l.name.Some? && l.name.value != "" && l.value.Some? && l.value.value != ""
  }

  function PutLine(o: Object, l: Line): Object {
    if Counts(l) then Put(o, l.name.value, l.value.value) else o
  }

  /** The object of the lines, one after the other. */
  function ObjectOf(lines: seq<Line>): Object {
    if lines == [] then [] else PutLine(ObjectOf(lines[..|lines| - 1]), lines[|lines| - 1])
  }

  function LinesOf(o: Object): seq<Line> {
    seq(|o|, i requires 0 <= i < |o| => Line(Some(o[i].name), Some(o[i].value)))
  }

  function ArrayToObj(lines: seq<Line>): Option<Object> {
    if ObjectOf(lines) == [] then None else Some(ObjectOf(lines))
  }

  function ObjToArray(o: Option<Object>): Option<seq<Line>> {
    if o.None? || o.value == [] then None else Some(LinesOf(o.value))
  }

  function PostField(f: Option<seq<Line>>): Option<Object> {
    if f.Some? then ArrayToObj(f.value) else None
  }

  function PostTrace(t: Trace<seq<Line>>): Trace<Object> {
    Trace(PostField(t.headers), PostField(t.queries), t.rest)
  }

  function ViewTrace(t: Trace<Object>): Trace<seq<Line>> {
    Trace(ObjToArray(t.headers), ObjToArray(t.queries), t.rest)
  }

  function ViewToPost(v: View): Post {
    Case(seq(|v.trace|, i requires 0 <= i < |v.trace| => PostTrace(v.trace[i])), None, v.rest)
  }

  function PostToView(p: Post): View {
    Case(seq(|p.trace|, i requires 0 <= i < |p.trace| => ViewTrace(p.trace[i])), p.validate, p.rest)
  }

  // ------------------------------------------------------------ the source's form

  method ConvertArrayToObj(kvs: seq<Line>) returns (result: Option<Object>)
    ensures result == ArrayToObj(kvs)
  {
    var o: Object := [];
    for i := 0 to |kvs|
      invariant o == ObjectOf(kvs[..i])
    {
      assert kvs[..i + 1][..i] == kvs[..i];
      var h := kvs[i];
      if h.name.Some? && h.name.value != "" && h.value.Some? && |h.value.value| > 0 {
        o := Put(o, h.name.value, h.value.value);
      }
    }
    assert kvs[..|kvs|] == kvs;
    return if o == [] then None else Some(o);
  }

  method ConvertObjToArray(obj: Option<Object>) returns (lines: Option<seq<Line>>)
    ensures lines == ObjToArray(obj)
  {
    if obj.None? { return None; }
    var result := [];
    for i := 0 to |obj.value|
      invariant result == LinesOf(obj.value[..i])
    {
      result := result + [Line(Some(obj.value[i].name), Some(obj.value[i].value))];
    }
    assert obj.value[..|obj.value|] == obj.value;
    return if |result| > 0 then Some(result) else None;
  }

  method ConvertViewToPost(display: View) returns (data: Post)
    ensures data == ViewToPost(display)
  {
    var trace := [];
    for i := 0 to |display.trace|
      invariant |trace| == i && forall k :: 0 <= k < i ==> trace[k] == PostTrace(display.trace[k])
    {
      var tr := display.trace[i];
      var headers, queries := None, None;
      if tr.headers.Some? {
        headers := ConvertArrayToObj(tr.headers.value);
      }
      if tr.queries.Some? {
        queries := ConvertArrayToObj(tr.queries.value);
      }
      trace := trace + [Trace(headers, queries, tr.rest)];
    }
    return Case(trace, None, display.rest);
  }

  /** A post without headers and queries is its own view. */
  method ConvertPostToView(obj: Post) returns (view: View)
    ensures view == PostToView(obj)
  {
    var trace := [];
    if exists tr :: tr in obj.trace && (tr.headers.Some? || tr.queries.Some?) {
      for i := 0 to |obj.trace|
        invariant |trace| == i && forall k :: 0 <= k < i ==> trace[k] == ViewTrace(obj.trace[k])
      {
        var headers := ConvertObjToArray(obj.trace[i].headers);
        var queries := ConvertObjToArray(obj.trace[i].queries);
        trace := trace + [Trace(headers, queries, obj.trace[i].rest)];
      }
    } else {
      trace := seq(|obj.trace|, i requires 0 <= i < |obj.trace| => Trace(None, None, obj.trace[i].rest));
      assert forall k :: 0 <= k < |obj.trace| ==> obj.trace[k] in obj.trace;
    }
    return Case(trace, obj.validate, obj.rest);
  }

  // ------------------------------------------------------------------- one field

  predicate Distinct(o: Object) {
    forall i, j :: 0 <= i < j < |o| ==> o[i].name != o[j].name
  }

  /** A property list that survives: names distinct, nothing empty. */
  predicate IsFull(o: Object) {
    Distinct(o) && forall p :: p in o ==> p.name != "" && p.value != ""
  }

  lemma {:induction false} PutIsAppend(o: Object, name: string, value: string)
    requires !HasName(o, name)
    ensures Put(o, name, value) == o + [Property(name, value)]
  {
    if o != [] {
      assert o[0] in o;
      assert forall p :: p in o[1..] ==> p in o;
      PutIsAppend(o[1..], name, value);
    }
  }

  /** Names stay where they are; a new one comes last. */
  lemma {:induction false} PutKeepsNames(o: Object, name: string, value: string)
    ensures var r := Put(o, name, value);
      && |o| <= |r| <= |o| + 1 && (forall i :: 0 <= i < |o| ==> r[i].name == o[i].name)
      && (|r| > |o| ==> r[|o|].name == name && forall i :: 0 <= i < |o| ==> o[i].name != name)
      && (forall p :: p in r ==> p in o || p == Property(name, value))
  {
    if o != [] && o[0].name != name {
      PutKeepsNames(o[1..], name, value);
    }
  }

  lemma PutKeepsFull(o: Object, name: string, value: string)
    requires IsFull(o) && name != "" && value != ""
    ensures IsFull(Put(o, name, value))
  {
    PutKeepsNames(o, name, value);
  }

  lemma {:induction false} ObjectIsFull(lines: seq<Line>)
    ensures IsFull(ObjectOf(lines))
  {
    if lines != [] {
      var front, l := lines[..|lines| - 1], lines[|lines| - 1];
      ObjectIsFull(front);
      if Counts(l) {
        PutKeepsFull(ObjectOf(front), l.name.value, l.value.value);
      }
    }
  }

  function ValueOf(o: Object, name: string): Option<string> {
    if o == [] then None else if o[0].name == name then Some(o[0].value) else ValueOf(o[1..], name)
  }

  /** The value of the last line that counts and has this name. */
  function LastValue(lines: seq<Line>, name: string): Option<string> {
    if lines == [] then None
    else
      var l := lines[|lines| - 1];
      if Counts(l) && l.name.value == name then l.value else LastValue(lines[..|lines| - 1], name)
  }

  lemma {:induction false} PutLooksUp(o: Object, name: string, value: string, other: string)
    ensures ValueOf(Put(o, name, value), other) == if other == name then Some(value) else ValueOf(o, other)
  {
    if o != [] && o[0].name != name {
      assert Put(o, name, value)[1..] == Put(o[1..], name, value);
      PutLooksUp(o[1..], name, value, other);
    } else if o != [] {
      assert Put(o, name, value)[1..] == o[1..];
    }
  }

  /** Of several lines with one name the last that has a value wins. */
  lemma {:induction false} LastLineWins(lines: seq<Line>, name: string)
    ensures ValueOf(ObjectOf(lines), name) == LastValue(lines, name)
  {
    if lines != [] {
      var front, l := lines[..|lines| - 1], lines[|lines| - 1];
      LastLineWins(front, name);
      if Counts(l) {
        PutLooksUp(ObjectOf(front), l.name.value, l.value.value, name);
      }
    }
  }

  predicate AllCount(lines: seq<Line>) {
    (forall l :: l in lines ==> Counts(l)) && forall i, j :: 0 <= i < j < |lines| ==> lines[i].name != lines[j].name
  }

  /** Lines that all count, under distinct names, go over one by one. */
  lemma {:induction false} CountingLinesGoOver(lines: seq<Line>)
    requires AllCount(lines)
    ensures LinesOf(ObjectOf(lines)) == lines
  {
    if lines != [] {
      var front, l := lines[..|lines| - 1], lines[|lines| - 1];
      CountingLinesGoOver(front);
      var o := ObjectOf(front);
      assert l in lines;
      forall p | p in o ensures p.name != l.name.value {
        var i :| 0 <= i < |o| && o[i] == p;
        assert LinesOf(o)[i].name == Some(p.name) && front[i] == LinesOf(o)[i] && lines[i] == front[i];
      }
      PutIsAppend(o, l.name.value, l.value.value);
    }
  }

  lemma FullMeansCounting(o: Object)
    requires Distinct(o)
    ensures IsFull(o) <==> AllCount(LinesOf(o))
  {
    assert forall i :: 0 <= i < |o| ==> LinesOf(o)[i] == Line(Some(o[i].name), Some(o[i].value)) && o[i] in o;
    assert forall i :: 0 <= i < |o| ==> LinesOf(o)[i] in LinesOf(o);
  }

  lemma LinesAreInjective(a: Object, b: Object)
    requires LinesOf(a) == LinesOf(b)
    ensures a == b
  {
    assert |a| == |LinesOf(a)| == |b|;
    forall i | 0 <= i < |a| ensures a[i] == b[i] {
      assert LinesOf(a)[i] == LinesOf(b)[i];
    }
  }

  predicate PostSurvives(f: Option<Object>) {
    f.Some? ==> f.value != [] && IsFull(f.value)
  }

  lemma PostFieldSurvivesExactlyWhen(f: Option<Object>)
    requires f.Some? ==> Distinct(f.value)
    ensures PostField(ObjToArray(f)) == f <==> PostSurvives(f)
  {
    if f.Some? && f.value != [] {
      FullMeansCounting(f.value);
      ObjectIsFull(LinesOf(f.value));
      if IsFull(f.value) {
        CountingLinesGoOver(LinesOf(f.value));
        LinesAreInjective(ObjectOf(LinesOf(f.value)), f.value);
      }
    }
  }

  predicate ViewSurvives(f: Option<seq<Line>>) {
    f.Some? ==> f.value != [] && AllCount(f.value)
  }

  lemma ViewFieldSurvivesExactlyWhen(f: Option<seq<Line>>)
    ensures ObjToArray(PostField(f)) == f <==> ViewSurvives(f)
  {
    if f.Some? {
      ObjectIsFull(f.value);
      FullMeansCounting(ObjectOf(f.value));
      if AllCount(f.value) {
        CountingLinesGoOver(f.value);
      }
    }
  }

  // ------------------------------------------------------------------ whole cases

  /** What a posted field has under a name; nothing if there is no such field. */
  function Posted(f: Option<Object>, name: string): Option<string> {
    if f.Some? then ValueOf(f.value, name) else None
  }

  function Shown(f: Option<seq<Line>>, name: string): Option<string> {
    if f.Some? then LastValue(f.value, name) else None
  }

  /** Every step is posted in its place, its headers from its headers and its queries from its queries. */
  lemma StepsKeepTheirFields(v: View, i: nat, name: string)
    requires i < |v.trace|
    ensures var p := ViewToPost(v);
      && |p.trace| == |v.trace| && p.rest == v.rest && p.trace[i].rest == v.trace[i].rest
      && Posted(p.trace[i].headers, name) == Shown(v.trace[i].headers, name)
      && Posted(p.trace[i].queries, name) == Shown(v.trace[i].queries, name)
  {
    if v.trace[i].headers.Some? {
      LastLineWins(v.trace[i].headers.value, name);
    }
    if v.trace[i].queries.Some? {
      LastLineWins(v.trace[i].queries.value, name);
    }
  }

  /** A line for each property, in the same order, and undefined without any. */
  predicate IsShownAs(o: Option<Object>, f: Option<seq<Line>>) {
    && (f.None? <==> o.None? || |o.value| == 0)
    && (f.Some? ==> |f.value| == |o.value| && forall k :: 0 <= k < |f.value| ==>
          f.value[k].name == Some(o.value[k].name) && f.value[k].value == Some(o.value[k].value))
  }

  /** And the other way round; validate is shown. */
  lemma StepsAreShownInPlace(p: Post, i: nat)
    requires i < |p.trace|
    ensures var v := PostToView(p);
      && |v.trace| == |p.trace| && v.rest == p.rest && v.validate == p.validate && v.trace[i].rest == p.trace[i].rest
      && IsShownAs(p.trace[i].headers, v.trace[i].headers) && IsShownAs(p.trace[i].queries, v.trace[i].queries)
  {
  }

  /** As in every object, no name occurs twice. */
  predicate IsPost(p: Post) {
    forall t :: t in p.trace ==>
      (t.headers.Some? ==> Distinct(t.headers.value)) && (t.queries.Some? ==> Distinct(t.queries.value))
  }

  /**
   Showing a post and posting what is shown gives the post back, order included, exactly
   when it has no validate field and each of its header and query maps is non-empty with
   non-empty names and values.
   */
  lemma PostComesBackExactlyWhen(p: Post)
    requires IsPost(p)
    ensures ViewToPost(PostToView(p)) == p <==>
            p.validate == None && forall t :: t in p.trace ==> PostSurvives(t.headers) && PostSurvives(t.queries)
  {
    var r := ViewToPost(PostToView(p));
    assert |r.trace| == |p.trace|;
    forall i | 0 <= i < |p.trace|
      ensures r.trace[i] == p.trace[i] <==> PostSurvives(p.trace[i].headers) && PostSurvives(p.trace[i].queries)
    {
      assert p.trace[i] in p.trace;
      PostFieldSurvivesExactlyWhen(p.trace[i].headers);
      PostFieldSurvivesExactlyWhen(p.trace[i].queries);
    }
    if r == p {
      assert forall i :: 0 <= i < |p.trace| ==> r.trace[i] == p.trace[i];
    }
  }

  /** The other way round: what is posted comes back as it was shown exactly when every line counts under a name of its own. */
  lemma ViewComesBackExactlyWhen(v: View)
    ensures PostToView(ViewToPost(v)) == v <==>
            v.validate == None && forall t :: t in v.trace ==> ViewSurvives(t.headers) && ViewSurvives(t.queries)
  {
    var r := PostToView(ViewToPost(v));
    assert |r.trace| == |v.trace|;
    forall i | 0 <= i < |v.trace|
      ensures r.trace[i] == v.trace[i] <==> ViewSurvives(v.trace[i].headers) && ViewSurvives(v.trace[i].queries)
    {
      assert v.trace[i] in v.trace;
      ViewFieldSurvivesExactlyWhen(v.trace[i].headers);
      ViewFieldSurvivesExactlyWhen(v.trace[i].queries);
    }
    if r == v {
      assert forall i :: 0 <= i < |v.trace| ==> r.trace[i] == v.trace[i];
    }
  }

  /** Posting settles after one round, for every view. */
  lemma PostingSettles(v: View)
    ensures ViewToPost(PostToView(ViewToPost(v))) == ViewToPost(v)
  {
    var p := ViewToPost(v);
    forall t | t in p.trace
      ensures PostSurvives(t.headers) && PostSurvives(t.queries)
      ensures (t.headers.Some? ==> Distinct(t.headers.value)) && (t.queries.Some? ==> Distinct(t.queries.value))
    {
      var i :| 0 <= i < |p.trace| && p.trace[i] == t;
      if v.trace[i].headers.Some? { ObjectIsFull(v.trace[i].headers.value); }
      if v.trace[i].queries.Some? { ObjectIsFull(v.trace[i].queries.value); }
    }
    PostComesBackExactlyWhen(p);
  }
}
