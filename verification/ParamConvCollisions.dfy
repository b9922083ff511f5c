/**
 Names that fall together: exchanging underscores and dashes never changes what the
 converters make of a name. Two keys that differ in nothing else are converted to one
 key, and which of their values is kept depends on the order in which Go visits them
 (operator-sdk/pkg/ansible/paramconv/paramconv.go).
 */
module ParamConvCollisions {
  import opened Wrappers
  import opened Text
  import opened Json
  import opened ParamConv
  import ParamConvTree

  predicate IsDash(c: char) { c == '_' || c == '-' }

  /** s and t differ at most in which of the two separators stands where. */
  predicate SameUpToDashes(s: string, t: string) {
    |s| == |t| && forall i :: 0 <= i < |s| ==> s[i] == t[i] || (IsDash(s[i]) && IsDash(t[i]))
  }

  lemma {:induction false} DigitRunIsSame(s: string, t: string)
    requires SameUpToDashes(s, t)
    ensures DigitRun(s) == DigitRun(t)
  {
    if s != "" {
      assert SameUpToDashes(s[1..], t[1..]);
      DigitRunIsSame(s[1..], t[1..]);
    }
  }

  lemma MatchIsSame(s: string, t: string)
    requires SameUpToDashes(s, t)
    ensures NumberSequenceAt(s) <==> NumberSequenceAt(t)
    ensures NumberSequenceAt(s) ==> MatchEnd(s) == MatchEnd(t) && DigitRun(s[1..]) == DigitRun(t[1..])
  {
    if s != "" {
      DigitRunIsSame(s[1..], t[1..]);
      var d := DigitRun(s[1..]);
      if 1 + d < |s| {
        assert SameUpToDashes(s[2 + d..], t[2 + d..]);
        DigitRunIsSame(s[2 + d..], t[2 + d..]);
      }
    }
  }

  lemma ReplacementIsSame(s: string, t: string, d: nat, e: nat)
    requires SameUpToDashes(s, t) && 1 + d <= e <= |s|
    ensures SameUpToDashes([s[0]] + " " + s[1..1 + d] + " " + s[1 + d..e], [t[0]] + " " + t[1..1 + d] + " " + t[1 + d..e])
  {
    assert SameUpToDashes([s[0]] + " " + s[1..1 + d], [t[0]] + " " + t[1..1 + d]);
    assert SameUpToDashes(s[1 + d..e], t[1 + d..e]);
  }

  lemma {:induction false} BoundariesAreSame(s: string, t: string)
    requires SameUpToDashes(s, t)
    ensures SameUpToDashes(AddWordBoundaries(s), AddWordBoundaries(t))
    decreases |s|
  {
    MatchIsSame(s, t);
    if s == "" {
    } else if NumberSequenceAt(s) {
      var e := MatchEnd(s);
      ReplacementIsSame(s, t, DigitRun(s[1..]), e);
      assert SameUpToDashes(Replacement(s), Replacement(t));
      BoundariesAreSame(s[e..], t[e..]);
    } else {
      BoundariesAreSame(s[1..], t[1..]);
    }
  }

  lemma {:induction false} TrimIsSame(s: string, t: string)
    requires SameUpToDashes(s, t)
    ensures SameUpToDashes(TrimLeft(s), TrimLeft(t)) && SameUpToDashes(TrimRight(s), TrimRight(t))
    decreases |s|
  {
    if s != "" {
      TrimIsSame(s[1..], t[1..]);
      TrimIsSame(s[..|s| - 1], t[..|t| - 1]);
    }
  }

  lemma {:induction false} WordsAreSame(n: string, s: string, t: string)
    requires SameUpToDashes(s, t)
    ensures Split(n, s) == Split(n, t) && Chunks(n, s) == Chunks(n, t)
    decreases |s|
  {
    if s != "" {
      WordsAreSame("", s[1..], t[1..]);
      WordsAreSame([s[0]], s[1..], t[1..]);
      WordsAreSame(n + [s[0]], s[1..], t[1..]);
    }
  }

  /** Both converters read a dash as an underscore, in every name. */
  lemma DashesAreUnderscores(s: string, t: string)
    requires SameUpToDashes(s, t)
    ensures Camel(s) == Camel(t) && Snake(s) == Snake(t)
  {
    BoundariesAreSame(s, t);
    TrimIsSame(AddWordBoundaries(s), AddWordBoundaries(t));
    TrimIsSame(TrimLeft(AddWordBoundaries(s)), TrimLeft(AddWordBoundaries(t)));
    WordsAreSame("", Prepare(s), Prepare(t));
  }

  lemma CollisionHasTwoResults(fn: ParamConvTree.Rename, s: string, t: string, x: Json, y: Json)
    requires s != t && fn(s) == fn(t) && fn(s).Some? && !ParamConvTree.Alike(fn, x, y)
    requires !ParamConvTree.Panics(fn, x) && !ParamConvTree.Panics(fn, y)
    ensures !ParamConvTree.HasOneResult(fn, Obj(map[s := x, t := y]))
  {
    var j := Obj(map[s := x, t := y]);
    assert s in j.fields && t in j.fields && j.fields[s] == x && j.fields[t] == y;
    ParamConvTree.OrderDoesNotMatterExactlyWhen(fn, j);
  }

  /** So with different scalars under two such keys one call of MapToCamel or MapToSnake has several possible results. */
  lemma KeyOrderMatters(s: string, t: string, x: Json, y: Json)
    requires s != t && SameUpToDashes(s, t) && !x.Obj? && !x.Arr? && !y.Obj? && !y.Arr? && x != y
    ensures !ParamConvTree.HasOneResult(ParamConvTree.ToCamel, Obj(map[s := x, t := y]))
    ensures Snake(s).Some? ==> !ParamConvTree.HasOneResult(Snake, Obj(map[s := x, t := y]))
  {
    DashesAreUnderscores(s, t);
    CollisionHasTwoResults(ParamConvTree.ToCamel, s, t, x, y);
    if Snake(s).Some? {
      CollisionHasTwoResults(Snake, s, t, x, y);
    }
  }
}
