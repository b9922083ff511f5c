/** The set of status conditions of operator-sdk/pkg/status/conditions.go. */
module Conditions {
  import opened Wrappers
  import Permutations

  /** since is LastTransitionTime. */
  datatype Condition = Condition(kind: string, status: string, reason: string, message: string, since: int)

  /** The set as a map: for each type the first condition of that type. */
  function View(cs: seq<Condition>): map<string, Condition> {
    if cs == [] then map[] else View(cs[1..])[cs[0].kind := cs[0]]
  }

  predicate Unique(cs: seq<Condition>) {
    forall i, j :: 0 <= i < j < |cs| ==> cs[i].kind != cs[j].kind
  }

  /** Type names in the order of Go's string comparison. */
  predicate Before(a: string, b: string) {
    b != [] && (a == [] || a[0] < b[0] || (a[0] == b[0] && Before(a[1..], b[1..])))
  }

  predicate SortedByKind(cs: seq<Condition>) {
    forall i, j :: 0 <= i < j < |cs| ==> !Before(cs[j].kind, cs[i].kind)
  }

  /** What SetCondition stores in place of old: the time stays if the status does. */
  function Stamped(old_: Condition, c: Condition, now: int): Condition {
    c.(since := if old_.status == c.status then old_.since else now)
  }

  function Placed(cs: seq<Condition>, c: Condition, now: int): seq<Condition> {
    if cs == [] then [c.(since := now)]
    else if cs[0].kind == c.kind then [Stamped(cs[0], c, now)] + cs[1..]
    else [cs[0]] + Placed(cs[1..], c, now)
  }

  function Removed(cs: seq<Condition>, kind: string): seq<Condition> {
    if cs == [] then []
    else if cs[0].kind == kind then cs[1..]
    else [cs[0]] + Removed(cs[1..], kind)
  }

  /** Operations; a marshalling may leave the shared slice in any order that sorts it by type. */
  datatype Op = Set(c: Condition, now: int) | Remove(kind: string) | Marshal(sorted: seq<Condition>)

  predicate Enabled(cs: seq<Condition>, op: Op) {
    op.Marshal? ==> SortedByKind(op.sorted) && multiset(op.sorted) == multiset(cs)
  }

  function Next(cs: seq<Condition>, op: Op): seq<Condition> {
    match op
    case Set(c, now) => Placed(cs, c, now)
    case Remove(kind) => Removed(cs, kind)
    case Marshal(sorted) => sorted
  }

  /** The conditions after operations on a set that starts out empty. */
  function Final(ops: seq<Op>): seq<Condition> {
    if ops == [] then [] else Next(Final(ops[..|ops| - 1]), ops[|ops| - 1])
  }

  predicate IsRun(ops: seq<Op>) {
    ops == [] || (IsRun(ops[..|ops| - 1]) && Enabled(Final(ops[..|ops| - 1]), ops[|ops| - 1]))
  }

  function Sets(conds: seq<Condition>, clock: seq<int>): seq<Op>
    requires |clock| == |conds|
  {
    seq(|conds|, i requires 0 <= i < |conds| => Set(conds[i], clock[i]))
  }

  // ------------------------------------------------------------ the source's form

  class ConditionSet {
    var conditions: seq<Condition>

    /** NewConditions; the clock is read for every condition. */
    constructor (conds: seq<Condition>, clock: seq<int>)
      requires |clock| == |conds|
      ensures conditions == Final(Sets(conds, clock))
    {
      conditions := [];
      new;
      for i := 0 to |conds|
        invariant conditions == Final(Sets(conds[..i], clock[..i]))
      {
        ghost var done, more := Sets(conds[..i], clock[..i]), Sets(conds[..i + 1], clock[..i + 1]);
        assert more[..|more| - 1] == done;
        var _ := SetCondition(conds[i], clock[i]);
      }
      assert conds[..|conds|] == conds && clock[..|conds|] == clock;
    }

    method SetCondition(newCond: Condition, now: int) returns (changed: bool)
      modifies this
      ensures conditions == Placed(old(conditions), newCond, now)
      ensures changed <==> (newCond.kind !in old(View(conditions)) ||
                           !SaysTheSame(old(View(conditions))[newCond.kind], newCond))
    {
      var c := newCond.(since := now);
      for i := 0 to |conditions|
        invariant conditions == old(conditions) && c == newCond.(since := now)
        invariant forall k :: 0 <= k < i ==> conditions[k].kind != newCond.kind
      {
        if conditions[i].kind == c.kind {
          ViewAt(conditions, i, c.kind);
          PlacedAt(conditions, i, newCond, now);
          if conditions[i].status == c.status {
            c := c.(since := conditions[i].since);
          }
          changed := !SaysTheSame(conditions[i], c);
          conditions := conditions[i := c];
          return changed;
        }
      }
      ViewAt(conditions, |conditions|, c.kind);
      PlacedAt(conditions, |conditions|, newCond, now);
      conditions := conditions + [c];
      return true;
    }

    method RemoveCondition(kind: string) returns (found: bool)
      modifies this
      ensures conditions == Removed(old(conditions), kind)
      ensures found <==> kind in old(View(conditions))
    {
      for i := 0 to |conditions|
        invariant conditions == old(conditions)
        invariant forall k :: 0 <= k < i ==> conditions[k].kind != kind
      {
        if conditions[i].kind == kind {
          ViewAt(conditions, i, kind);
          RemovedAt(conditions, i, kind);
          conditions := conditions[..i] + conditions[i + 1..];
          return true;
        }
      }
      ViewAt(conditions, |conditions|, kind);
      RemovedAt(conditions, |conditions|, kind);
      return false;
    }

    method GetCondition(kind: string) returns (c: Option<Condition>)
      ensures c == if kind in View(conditions) then Some(View(conditions)[kind]) else None
    {
      for i := 0 to |conditions|
        invariant forall k :: 0 <= k < i ==> conditions[k].kind != kind
      {
        if conditions[i].kind == kind {
          ViewAt(conditions, i, kind);
          return Some(conditions[i]);
        }
      }
      ViewAt(conditions, |conditions|, kind);
      return None;
    }
  }

  /** Place i is that of the first condition of the type, or the end without one. */
  predicate IsFirst(cs: seq<Condition>, i: nat, kind: string) {
    i <= |cs| && (i < |cs| ==> cs[i].kind == kind) && forall k :: 0 <= k < i ==> cs[k].kind != kind
  }

  lemma {:induction false} ViewAt(cs: seq<Condition>, i: nat, kind: string)
    requires IsFirst(cs, i, kind)
    ensures kind in View(cs) <==> i < |cs|
    ensures i < |cs| ==> View(cs)[kind] == cs[i]
    decreases i
  {
    if i > 0 {
      ViewAt(cs[1..], i - 1, kind);
    }
  }

  lemma {:induction false} PlacedAt(cs: seq<Condition>, i: nat, c: Condition, now: int)
    requires IsFirst(cs, i, c.kind)
    ensures Placed(cs, c, now) == if i < |cs| then cs[i := Stamped(cs[i], c, now)] else cs + [c.(since := now)]
    decreases i
  {
    if i > 0 {
      var rest := cs[1..];
      assert cs == [cs[0]] + rest;
      assert Placed(cs, c, now) == [cs[0]] + Placed(rest, c, now);
      PlacedAt(rest, i - 1, c, now);
      if i < |cs| {
        var stamped := Stamped(cs[i], c, now);
        assert rest[i - 1] == cs[i];
        assert cs[i := stamped] == [cs[0]] + rest[i - 1 := stamped];
      } else {
        var last := [c.(since := now)];
        assert cs + last == [cs[0]] + (rest + last);
      }
    }
  }

  lemma {:induction false} RemovedAt(cs: seq<Condition>, i: nat, kind: string)
    requires IsFirst(cs, i, kind)
    ensures Removed(cs, kind) == if i < |cs| then cs[..i] + cs[i + 1..] else cs
    decreases i
  {
    if i > 0 {
      var rest := cs[1..];
      RemovedAt(rest, i - 1, kind);
      if i < |cs| {
        assert cs[..i] == [cs[0]] + rest[..i - 1] && cs[i + 1..] == rest[i..];
        assert Removed(cs, kind) == [cs[0]] + (rest[..i - 1] + rest[i..]);
      } else {
        assert Removed(cs, kind) == [cs[0]] + rest == cs;
      }
    }
  }

  predicate SaysTheSame(a: Condition, b: Condition) {
    a.status == b.status && a.reason == b.reason && a.message == b.message
  }

  // ------------------------------------------------------------------ the view

  lemma {:induction false} ViewIsMembership(cs: seq<Condition>, kind: string)
    requires Unique(cs)
    ensures kind in View(cs) ==> View(cs)[kind] in cs && View(cs)[kind].kind == kind
    ensures forall c :: c in cs && c.kind == kind ==> kind in View(cs) && View(cs)[kind] == c
  {
    if cs != [] {
      assert forall i :: 0 <= i < |cs| - 1 ==> cs[1..][i] == cs[i + 1];
      ViewIsMembership(cs[1..], kind);
    }
  }

  lemma {:induction false} PlacedView(cs: seq<Condition>, c: Condition, now: int)
    ensures View(Placed(cs, c, now)) ==
            View(cs)[c.kind := if c.kind in View(cs) then Stamped(View(cs)[c.kind], c, now) else c.(since := now)]
  {
    if cs != [] {
      if cs[0].kind != c.kind {
        assert Placed(cs, c, now)[1..] == Placed(cs[1..], c, now);
        PlacedView(cs[1..], c, now);
      } else {
        assert Placed(cs, c, now)[1..] == cs[1..];
      }
    }
  }

  /** Types stay where they are; a new one comes last. */
  lemma {:induction false} PlacedKinds(cs: seq<Condition>, c: Condition, now: int)
    ensures |cs| <= |Placed(cs, c, now)| <= |cs| + 1
    ensures forall i :: 0 <= i < |cs| ==> Placed(cs, c, now)[i].kind == cs[i].kind
    ensures |Placed(cs, c, now)| > |cs| ==>
              Placed(cs, c, now)[|cs|].kind == c.kind && forall i :: 0 <= i < |cs| ==> cs[i].kind != c.kind
  {
    if cs != [] && cs[0].kind != c.kind {
      PlacedKinds(cs[1..], c, now);
    }
  }

  lemma PlacedKeepsUnique(cs: seq<Condition>, c: Condition, now: int)
    requires Unique(cs)
    ensures Unique(Placed(cs, c, now))
  {
    PlacedKinds(cs, c, now);
  }

  lemma {:induction false} RemovedMembers(cs: seq<Condition>, kind: string)
    requires Unique(cs)
    ensures forall d :: d in Removed(cs, kind) ==> d in cs
    ensures Unique(Removed(cs, kind))
  {
    if cs != [] && cs[0].kind != kind {
      var rest := Removed(cs[1..], kind);
      RemovedMembers(cs[1..], kind);
      assert forall d :: d in cs[1..] ==> d.kind != cs[0].kind;
      assert forall i :: 0 <= i < |rest| ==> rest[i] in cs[1..];
    }
  }

  lemma {:induction false} RemovedView(cs: seq<Condition>, kind: string)
    requires Unique(cs)
    ensures View(Removed(cs, kind)) == View(cs) - {kind}
  {
    if cs != [] {
      assert forall i :: 0 <= i < |cs| - 1 ==> cs[1..][i] == cs[i + 1];
      if cs[0].kind == kind {
        ViewIsMembership(cs[1..], kind);
        assert kind !in View(cs[1..]);
      } else {
        assert Removed(cs, kind)[1..] == Removed(cs[1..], kind);
        RemovedView(cs[1..], kind);
      }
    }
  }

  lemma SameMembersSameView(a: seq<Condition>, b: seq<Condition>, kind: string)
    requires Unique(a) && Unique(b) && multiset(a) == multiset(b) && kind in View(a)
    ensures kind in View(b) && View(b)[kind] == View(a)[kind]
  {
    ViewIsMembership(a, kind);
    ViewIsMembership(b, kind);
    assert View(a)[kind] in multiset(b);
  }

  lemma SortKeepsView(sorted: seq<Condition>, cs: seq<Condition>)
    requires Unique(cs) && multiset(sorted) == multiset(cs)
    ensures Unique(sorted) && View(sorted) == View(cs)
  {
    Permutations.PermutationKeepsDistinct(sorted, cs, (x: Condition) => x.kind);
    forall k | k in View(sorted) ensures k in View(cs) && View(cs)[k] == View(sorted)[k] {
      SameMembersSameView(sorted, cs, k);
    }
    forall k | k in View(cs) ensures k in View(sorted) {
      SameMembersSameView(cs, sorted, k);
    }
  }

  // ------------------------------------------------------------ the whole history

  /** The status that the operations leave for a type. */
  function StatusAfter(ops: seq<Op>, kind: string): Option<string> {
    if ops == [] then None
    else
      var op := ops[|ops| - 1];
      if op.Set? && op.c.kind == kind then Some(op.c.status)
      else if op == Remove(kind) then None
      else StatusAfter(ops[..|ops| - 1], kind)
  }

  /** Operation i gives the type a status that it did not have before. */
  predicate IsTransition(ops: seq<Op>, i: nat, kind: string)
    requires i < |ops|
  {
    ops[i].Set? && ops[i].c.kind == kind && StatusAfter(ops[..i], kind) != Some(ops[i].c.status)
  }

  predicate IsLatestTransition(ops: seq<Op>, i: nat, kind: string)
    requires i < |ops|
  {
    IsTransition(ops, i, kind) &&
    forall j :: i < j < |ops| ==> !IsTransition(ops, j, kind) && ops[j] != Remove(kind)
  }

  /** The operation that last set the type. */
  function LastSet(ops: seq<Op>, kind: string): Option<Condition> {
    if ops == [] then None
    else
      var op := ops[|ops| - 1];
      if op.Set? && op.c.kind == kind then Some(op.c)
      else if op == Remove(kind) then None
      else LastSet(ops[..|ops| - 1], kind)
  }

  ghost predicate IsExplained(ops: seq<Op>, kind: string, c: Condition) {
    LastSet(ops, kind).Some? && SaysTheSame(c, LastSet(ops, kind).value) &&
    exists i :: 0 <= i < |ops| && IsLatestTransition(ops, i, kind) && c.since == ops[i].now
  }

  lemma LatestStaysLatest(ops: seq<Op>, more: seq<Op>, i: nat, kind: string)
    requires more != [] && more[..|more| - 1] == ops && i < |ops| && IsLatestTransition(ops, i, kind)
    requires !IsTransition(more, |ops|, kind) && more[|ops|] != Remove(kind)
    ensures IsLatestTransition(more, i, kind)
  {
    assert forall j :: 0 <= j < |ops| ==> more[j] == ops[j] && more[..j] == ops[..j];
    assert forall j :: 0 <= j < |ops| ==> IsTransition(more, j, kind) == IsTransition(ops, j, kind);
  }

  lemma SetIsExplained(ops: seq<Op>, c: Condition, now: int)
    requires IsRun(ops + [Set(c, now)]) && Unique(Final(ops))
    requires c.kind in View(Final(ops)) <==> StatusAfter(ops, c.kind).Some?
    requires c.kind in View(Final(ops)) ==>
               IsExplained(ops, c.kind, View(Final(ops))[c.kind]) &&
               StatusAfter(ops, c.kind) == Some(View(Final(ops))[c.kind].status)
    ensures var more := ops + [Set(c, now)];
      c.kind in View(Final(more)) && IsExplained(more, c.kind, View(Final(more))[c.kind])
  {
    var more := ops + [Set(c, now)];
    assert more[..|more| - 1] == ops && more[|ops|] == Set(c, now);
    PlacedView(Final(ops), c, now);
    if StatusAfter(ops, c.kind) == Some(c.status) {
      var i :| 0 <= i < |ops| && IsLatestTransition(ops, i, c.kind) && View(Final(ops))[c.kind].since == ops[i].now;
      LatestStaysLatest(ops, more, i, c.kind);
    } else {
      assert IsLatestTransition(more, |ops|, c.kind);
    }
  }

  lemma OtherStaysExplained(ops: seq<Op>, more: seq<Op>, kind: string, c: Condition)
    requires more != [] && more[..|more| - 1] == ops && IsExplained(ops, kind, c)
    requires more[|ops|].Set? ==> more[|ops|].c.kind != kind
    requires more[|ops|] != Remove(kind)
    ensures IsExplained(more, kind, c)
  {
    var i :| 0 <= i < |ops| && IsLatestTransition(ops, i, kind) && c.since == ops[i].now;
    LatestStaysLatest(ops, more, i, kind);
  }

  /**
   After any operations on a new set, one per type: a type has a condition exactly when it
   was set and not removed since; status, reason and message are those of the last set,
   and the transition time is that of the latest operation which changed the status, or
   added the type, with nothing but that status ever since.
   */
  lemma {:induction false} HistoryExplainsTheSet(ops: seq<Op>, kind: string)
    requires IsRun(ops)
    ensures Unique(Final(ops))
    ensures kind in View(Final(ops)) <==> StatusAfter(ops, kind).Some?
    ensures kind in View(Final(ops)) ==>
              IsExplained(ops, kind, View(Final(ops))[kind]) &&
              StatusAfter(ops, kind) == Some(View(Final(ops))[kind].status)
    decreases |ops|
  {
    if ops != [] {
      var front, op := ops[..|ops| - 1], ops[|ops| - 1];
      assert ops == front + [op];
      HistoryExplainsTheSet(front, kind);
      match op {
        case Set(c, now) =>
          PlacedView(Final(front), c, now);
          PlacedKeepsUnique(Final(front), c, now);
          if c.kind == kind {
            SetIsExplained(front, c, now);
          } else if kind in View(Final(front)) {
            OtherStaysExplained(front, ops, kind, View(Final(front))[kind]);
          }
        case Remove(k) =>
          RemovedView(Final(front), k);
          RemovedMembers(Final(front), k);
          if k != kind && kind in View(Final(front)) {
            OtherStaysExplained(front, ops, kind, View(Final(front))[kind]);
          }
        case Marshal(sorted) =>
          SortKeepsView(sorted, Final(front));
          if kind in View(Final(front)) {
            OtherStaysExplained(front, ops, kind, View(Final(front))[kind]);
          }
      }
    }
  }

  // --------------------------------------------------------------- marshalling

  lemma {:induction false} BeforeIsTotal(a: string, b: string)
    ensures Before(a, b) || Before(b, a) || a == b
    ensures !(Before(a, b) && Before(b, a)) && !Before(a, a)
  {
    if a != [] {
      BeforeIsTotal(a[1..], if b == [] then [] else b[1..]);
      if b != [] && a[0] == b[0] && a[1..] == b[1..] {
        assert a == [a[0]] + a[1..] == b;
      }
    }
  }

  /** a and b agree up to k, where a ends or has the smaller character. */
  predicate DiffersAt(a: string, b: string, k: int) {
    0 <= k <= |a| && k < |b| && a[..k] == b[..k] && (k == |a| || a[k] < b[k])
  }

  /** The order of the marshalled types: at the first difference the smaller character, or the end, comes first. */
  lemma {:induction false} BeforeMeansFirstDifference(a: string, b: string)
    ensures Before(a, b) <==> exists k :: DiffersAt(a, b, k)
  {
    if b != [] && (a == [] || a[0] < b[0]) {
      assert DiffersAt(a, b, 0);
    } else if a != [] && b != [] {
      BeforeMeansFirstDifference(a[1..], b[1..]);
      if a[0] == b[0] && Before(a[1..], b[1..]) {
        var k :| DiffersAt(a[1..], b[1..], k);
        assert a[..k + 1] == [a[0]] + a[1..][..k] && b[..k + 1] == [b[0]] + b[1..][..k];
        assert DiffersAt(a, b, k + 1);
      }
      forall k | DiffersAt(a, b, k) ensures Before(a, b) {
        if k > 0 {
          assert a[..k][0] == b[..k][0];
          assert a[1..][..k - 1] == a[..k][1..] && b[1..][..k - 1] == b[..k][1..];
          assert DiffersAt(a[1..], b[1..], k - 1);
        }
      }
    }
  }

  /** Sets with the same view are marshalled alike, however they came about and whatever the sort does. */
  lemma {:induction false} MarshallingIsCanonical(a: seq<Condition>, b: seq<Condition>)
    requires Unique(a) && Unique(b) && SortedByKind(a) && SortedByKind(b) && View(a) == View(b)
    ensures a == b
    decreases |a|
  {
    if a == [] {
      assert b == [];
    } else {
      assert a[0].kind in View(b);
      ViewIsMembership(a, a[0].kind);
      ViewIsMembership(b, a[0].kind);
      assert b != [] && a[0] in b;
      assert b[0].kind in View(a);
      ViewIsMembership(a, b[0].kind);
      ViewIsMembership(b, b[0].kind);
      BeforeIsTotal(a[0].kind, b[0].kind);
      assert a[0] == b[0];
      RemovedView(a, a[0].kind);
      RemovedView(b, a[0].kind);
      assert forall i :: 0 <= i < |a| - 1 ==> a[1..][i] == a[i + 1];
      assert forall i :: 0 <= i < |b| - 1 ==> b[1..][i] == b[i + 1];
      assert Removed(a, a[0].kind) == a[1..] && Removed(b, a[0].kind) == b[1..];
      MarshallingIsCanonical(a[1..], b[1..]);
      assert a == [a[0]] + a[1..] && b == [b[0]] + b[1..];
    }
  }
}
