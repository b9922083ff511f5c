/**
 Status conditions of an Ansible custom resource: the helpers of
 operator-sdk/pkg/ansible/controller/status/utils.go and what markRunning, markError and
 markDone (operator-sdk/pkg/ansible/controller/reconcile.go) make of a status with them.
 */
module AnsibleStatus {
  import opened Wrappers

  const RUNNING := "Running"
  const FAILURE := "Failure"
  const RUNNING_MESSAGE := "Running reconciliation"
  const SUCCESSFUL_MESSAGE := "Awaiting next reconciliation"

  /** status is "True", "False" or whatever else was stored; since is the last transition time. */
  datatype Condition = Condition(kind: string, status: string, since: nat, reason: string, message: string)

  // --------------------------------------------------------------- the helpers

  /** The first condition of this kind. */
  function Find(cs: seq<Condition>, kind: string): Option<Condition> {
    if cs == [] then None
    else if cs[0].kind == kind then Some(cs[0])
    else Find(cs[1..], kind)
  }

  function Without(cs: seq<Condition>, kind: string): seq<Condition> {
    if cs == [] then []
    else if cs[0].kind == kind then Without(cs[1..], kind)
    else [cs[0]] + Without(cs[1..], kind)
  }

  function Set(cs: seq<Condition>, c: Condition): seq<Condition> {
    var current := Find(cs, c.kind);
    if current.Some? && current.value.status == c.status && current.value.reason == c.reason then cs
    else if current.Some? && current.value.status == c.status then
      Without(cs, c.kind) + [c.(since := current.value.since)]
    else Without(cs, c.kind) + [c]
  }

  /** The condition of this kind, if there is one, is no longer true. */
  function Demote(cs: seq<Condition>, kind: string): seq<Condition> {
    var c := Find(cs, kind);
    if c.Some? then Set(cs, c.value.(status := "False")) else cs
  }

  function Joined(messages: seq<string>): string {
    if messages == [] then ""
    else if |messages| == 1 then messages[0]
    else messages[0] + "\n" + Joined(messages[1..])
  }

  datatype Mark =
    | MarkRunning
    | MarkError(message: string)
    | MarkDone(failures: seq<string>)

  /** What a mark makes of the conditions it reads at time now. */
  function Marked(cs: seq<Condition>, mark: Mark, now: nat): seq<Condition> {
    match mark
    case MarkRunning => Set(Demote(cs, FAILURE), Condition(RUNNING, "True", now, "Running", RUNNING_MESSAGE))
    case MarkError(m) => Set(Demote(cs, RUNNING), Condition(FAILURE, "True", now, "Failed", m))
    case MarkDone(failures) =>
      if failures == [] then
        Set(Without(cs, FAILURE), Condition(RUNNING, "True", now, "Successful", SUCCESSFUL_MESSAGE))
      else Set(Demote(cs, RUNNING), Condition(FAILURE, "True", now, "Failed", Joined(failures)))
  }

  // ------------------------------------------------------------ the source's form

  class Status {
    var conditions: seq<Condition>

    constructor (cs: seq<Condition>)
      ensures conditions == cs
    {
      conditions := cs;
    }

    method GetCondition(kind: string) returns (c: Option<Condition>)
      ensures c == Find(conditions, kind)
    {
      for i := 0 to |conditions|
        invariant Find(conditions, kind) == Find(conditions[i..], kind)
      {
        assert conditions[i..][1..] == conditions[i + 1..];
        if conditions[i].kind == kind {
          return Some(conditions[i]);
        }
      }
      return None;
    }

    method RemoveCondition(kind: string)
      modifies this
      ensures conditions == Without(old(conditions), kind)
    {
      conditions := FilterOutCondition(conditions, kind);
    }

    method SetCondition(condition: Condition)
      modifies this
      ensures conditions == Set(old(conditions), condition)
    {
      var c := condition;
      var current := GetCondition(c.kind);
      if current.Some? && current.value.status == c.status && current.value.reason == c.reason {
        return;
      }
      if current.Some? && current.value.status == c.status {
        c := c.(since := current.value.since);
      }
      var rest := FilterOutCondition(conditions, c.kind);
      conditions := rest + [c];
    }

    /** The part of markRunning, markError and markDone that works on the status. */
    method Record(mark: Mark, now: nat)
      modifies this
      ensures conditions == Marked(old(conditions), mark, now)
    {
      match mark {
        case MarkRunning =>
          var failure := GetCondition(FAILURE);
          if failure.Some? { SetCondition(failure.value.(status := "False")); }
          SetCondition(Condition(RUNNING, "True", now, "Running", RUNNING_MESSAGE));
        case MarkError(message) =>
          var running := GetCondition(RUNNING);
          if running.Some? { SetCondition(running.value.(status := "False")); }
          SetCondition(Condition(FAILURE, "True", now, "Failed", message));
        case MarkDone(failures) =>
          if failures != [] {
            var running := GetCondition(RUNNING);
            if running.Some? { SetCondition(running.value.(status := "False")); }
            SetCondition(Condition(FAILURE, "True", now, "Failed", Joined(failures)));
          } else {
            RemoveCondition(FAILURE);
            SetCondition(Condition(RUNNING, "True", now, "Successful", SUCCESSFUL_MESSAGE));
          }
      }
    }
  }

  method FilterOutCondition(conditions: seq<Condition>, kind: string) returns (kept: seq<Condition>)
    ensures kept == Without(conditions, kind)
  {
    kept := [];
    for i := 0 to |conditions|
      invariant kept + Without(conditions[i..], kind) == Without(conditions, kind)
    {
      assert conditions[i..][1..] == conditions[i + 1..];
      if conditions[i].kind != kind {
        kept := kept + [conditions[i]];
      }
    }
  }

  // ------------------------------------------------------------ running and failed

  predicate Holds(cs: seq<Condition>, kind: string) {
    exists c :: c in cs && c.kind == kind && c.status == "True"
  }

  predicate Contradicts(cs: seq<Condition>) {
    Holds(cs, RUNNING) && Holds(cs, FAILURE)
  }

  lemma {:induction false} WithoutMembers(cs: seq<Condition>, kind: string)
    ensures forall c :: c in Without(cs, kind) <==> c in cs && c.kind != kind
  {
    if cs != [] {
      WithoutMembers(cs[1..], kind);
      assert cs == [cs[0]] + cs[1..];
    }
  }

  lemma {:induction false} FindIsMember(cs: seq<Condition>, kind: string)
    ensures Find(cs, kind).Some? ==> Find(cs, kind).value in cs && Find(cs, kind).value.kind == kind
    ensures Find(cs, kind).None? ==> forall c :: c in cs ==> c.kind != kind
  {
    if cs != [] {
      FindIsMember(cs[1..], kind);
    }
  }

  predicate FirstIsFalse(cs: seq<Condition>, kind: string) {
    Find(cs, kind).Some? && Find(cs, kind).value.status == "False"
  }

  /** Setting a condition touches no other kind. */
  lemma SetMembers(cs: seq<Condition>, new_: Condition)
    ensures forall c: Condition :: c.kind != new_.kind ==> (c in Set(cs, new_) <==> c in cs)
    ensures exists c :: c in Set(cs, new_) && c.kind == new_.kind && c.status == new_.status && c.reason == new_.reason
  {
    WithoutMembers(cs, new_.kind);
    FindIsMember(cs, new_.kind);
    var r := Set(cs, new_);
    if r != cs {
      assert r[|r| - 1].kind == new_.kind;
    }
  }

  /** Demotion misses a condition exactly when a false one of its kind stands before it. */
  lemma DemoteLeaves(cs: seq<Condition>, kind: string)
    ensures Holds(Demote(cs, kind), kind) <==> Holds(cs, kind) && FirstIsFalse(cs, kind)
    ensures forall c: Condition :: c.kind != kind ==> (c in Demote(cs, kind) <==> c in cs)
  {
    FindIsMember(cs, kind);
    WithoutMembers(cs, kind);
    var found := Find(cs, kind);
    if found.Some? {
      SetMembers(cs, found.value.(status := "False"));
    }
  }

  /** The kind that a mark takes down, and the one that it raises. */
  function Lowered(mark: Mark): string {
    if mark.MarkRunning? || (mark.MarkDone? && mark.failures == []) then FAILURE else RUNNING
  }

  /**
   A mark writes a status that is running and failed at once exactly when it does not
   end a run well, and the first condition of the kind that it takes down is false
   already while another one of this kind is true. The other kind holds in any case, and
   foreign conditions stay as they are.
   */
  lemma MarkContradictsExactlyWhen(cs: seq<Condition>, mark: Mark, now: nat)
    ensures Contradicts(Marked(cs, mark, now)) <==>
            mark != MarkDone([]) && Holds(cs, Lowered(mark)) && FirstIsFalse(cs, Lowered(mark))
    ensures Holds(Marked(cs, mark, now), if Lowered(mark) == FAILURE then RUNNING else FAILURE)
    ensures forall c: Condition :: c.kind != RUNNING && c.kind != FAILURE ==> (c in Marked(cs, mark, now) <==> c in cs)
  {
    var low := Lowered(mark);
    DemoteLeaves(cs, low);
    WithoutMembers(cs, FAILURE);
    match mark {
      case MarkRunning => SetMembers(Demote(cs, low), Condition(RUNNING, "True", now, "Running", RUNNING_MESSAGE));
      case MarkError(m) => SetMembers(Demote(cs, low), Condition(FAILURE, "True", now, "Failed", m));
      case MarkDone(f) =>
        if f == [] {
          SetMembers(Without(cs, low), Condition(RUNNING, "True", now, "Successful", SUCCESSFUL_MESSAGE));
        } else {
          SetMembers(Demote(cs, low), Condition(FAILURE, "True", now, "Failed", Joined(f)));
        }
    }
  }

  /** Such a status exists: markRunning leaves the second failure alone. */
  lemma DuplicatesContradict(now: nat)
    ensures exists cs :: Contradicts(Marked(cs, MarkRunning, now))
  {
    var down := Condition(FAILURE, "False", 0, "Failed", "");
    var cs := [down, down.(status := "True")];
    assert cs[1] in cs && Find(cs, FAILURE) == Some(down);
    MarkContradictsExactlyWhen(cs, MarkRunning, now);
  }

  // ------------------------------------------------------------- one of each kind

  predicate Unique(cs: seq<Condition>) {
    forall i, j :: 0 <= i < j < |cs| ==> cs[i].kind != cs[j].kind
  }

  lemma {:induction false} WithoutKeepsUnique(cs: seq<Condition>, kind: string)
    requires Unique(cs)
    ensures Unique(Without(cs, kind))
  {
    if cs != [] {
      assert forall i :: 0 <= i < |cs| - 1 ==> cs[1..][i] == cs[i + 1];
      WithoutKeepsUnique(cs[1..], kind);
      WithoutMembers(cs[1..], kind);
      assert forall c :: c in cs[1..] ==> c.kind != cs[0].kind;
    }
  }

  lemma SetKeepsUnique(cs: seq<Condition>, new_: Condition)
    requires Unique(cs)
    ensures Unique(Set(cs, new_))
  {
    WithoutKeepsUnique(cs, new_.kind);
    WithoutMembers(cs, new_.kind);
  }

  lemma MarkKeepsUnique(cs: seq<Condition>, mark: Mark, now: nat)
    requires Unique(cs)
    ensures Unique(Marked(cs, mark, now)) && !Contradicts(Marked(cs, mark, now))
  {
    var low := Lowered(mark);
    MarkContradictsExactlyWhen(cs, mark, now);
    if Holds(cs, low) {
      var c :| c in cs && c.kind == low && c.status == "True";
      FindIsMember(cs, low);
      assert Find(cs, low) == Some(c);
    }
    WithoutKeepsUnique(cs, FAILURE);
    if Find(cs, low).Some? {
      SetKeepsUnique(cs, Find(cs, low).value.(status := "False"));
    }
    match mark {
      case MarkRunning => SetKeepsUnique(Demote(cs, low), Condition(RUNNING, "True", now, "Running", RUNNING_MESSAGE));
      case MarkError(m) => SetKeepsUnique(Demote(cs, low), Condition(FAILURE, "True", now, "Failed", m));
      case MarkDone(f) =>
        if f == [] {
          SetKeepsUnique(Without(cs, low), Condition(RUNNING, "True", now, "Successful", SUCCESSFUL_MESSAGE));
        } else {
          SetKeepsUnique(Demote(cs, low), Condition(FAILURE, "True", now, "Failed", Joined(f)));
        }
    }
  }

  lemma {:induction false} FindFirst(cs: seq<Condition>, c: Condition, rest: seq<Condition>)
    requires forall d :: d in cs ==> d.kind != c.kind
    ensures Find(cs + [c] + rest, c.kind) == Some(c)
  {
    if cs != [] {
      assert (cs + [c] + rest)[1..] == cs[1..] + [c] + rest;
      FindFirst(cs[1..], c, rest);
    }
  }

  lemma {:induction false} WithoutKeepsFirst(cs: seq<Condition>, dropped: string, kind: string, c: Condition)
    requires dropped != kind && c.kind != kind
    ensures Find(Without(cs, dropped) + [c], kind) == Find(cs, kind)
    ensures Find(cs + [c], kind) == Find(cs, kind)
  {
    if cs != [] {
      WithoutKeepsFirst(cs[1..], dropped, kind, c);
      assert (cs + [c])[1..] == cs[1..] + [c];
      if cs[0].kind != dropped {
        assert (Without(cs, dropped) + [c])[1..] == Without(cs[1..], dropped) + [c];
      }
    }
  }

  lemma SetKeepsFirst(cs: seq<Condition>, new_: Condition, kind: string)
    requires new_.kind != kind
    ensures Find(Set(cs, new_), kind) == Find(cs, kind)
  {
    WithoutKeepsFirst(cs, new_.kind, kind, new_);
    if Find(cs, new_.kind).Some? {
      WithoutKeepsFirst(cs, new_.kind, kind, new_.(since := Find(cs, new_.kind).value.since));
    }
  }

  // ------------------------------------------------------------ transition times

  lemma {:induction false} WithoutFinds(cs: seq<Condition>, dropped: string, kind: string)
    ensures Find(Without(cs, dropped), kind) == if kind == dropped then None else Find(cs, kind)
  {
    if cs != [] {
      WithoutFinds(cs[1..], dropped, kind);
    }
  }

  /** What stands first for a kind after it was set. */
  lemma SetFinds(cs: seq<Condition>, new_: Condition)
    ensures var old_ := Find(cs, new_.kind);
      Find(Set(cs, new_), new_.kind) ==
      if old_.Some? && old_.value.status == new_.status then
        Some(if old_.value.reason == new_.reason then old_.value else new_.(since := old_.value.since))
      else Some(new_)
  {
    WithoutMembers(cs, new_.kind);
    var old_, rest := Find(cs, new_.kind), Without(cs, new_.kind);
    var stored := if old_.Some? && old_.value.status == new_.status then new_.(since := old_.value.since) else new_;
    assert rest + [stored] + [] == rest + [stored];
    FindFirst(rest, stored, []);
  }

  /** A demoted condition keeps its time, whatever it was before. */
  lemma DemoteFinds(cs: seq<Condition>, kind: string, other: string)
    ensures Find(Demote(cs, kind), other) ==
            if other == kind && Find(cs, kind).Some? then Some(Find(cs, kind).value.(status := "False"))
            else Find(cs, other)
  {
    var found := Find(cs, kind);
    if found.Some? {
      FindIsMember(cs, kind);
      var low := found.value.(status := "False");
      SetFinds(cs, low);
      if other != kind {
        SetKeepsFirst(cs, low, other);
      }
    }
  }

  function Raised(mark: Mark): string {
    if Lowered(mark) == FAILURE then RUNNING else FAILURE
  }

  /** The conditions from which a mark raises its kind, and the condition that it raises. */
  function Base(cs: seq<Condition>, mark: Mark): seq<Condition> {
    if mark == MarkDone([]) then Without(cs, FAILURE) else Demote(cs, Lowered(mark))
  }

  lemma MarkedIsSet(cs: seq<Condition>, mark: Mark, now: nat) returns (up: Condition)
    ensures up.kind == Raised(mark) && up.status == "True" && up.since == now
    ensures Marked(cs, mark, now) == Set(Base(cs, mark), up)
  {
    match mark {
      case MarkRunning => up := Condition(RUNNING, "True", now, "Running", RUNNING_MESSAGE);
      case MarkError(m) => up := Condition(FAILURE, "True", now, "Failed", m);
      case MarkDone(f) =>
        up := if f == [] then Condition(RUNNING, "True", now, "Successful", SUCCESSFUL_MESSAGE)
              else Condition(FAILURE, "True", now, "Failed", Joined(f));
    }
  }

  lemma BaseFinds(cs: seq<Condition>, mark: Mark, kind: string)
    ensures Find(Base(cs, mark), kind) ==
            if kind != Lowered(mark) then Find(cs, kind)
            else if mark == MarkDone([]) || Find(cs, kind).None? then None
            else Some(Find(cs, kind).value.(status := "False"))
  {
    if mark == MarkDone([]) {
      WithoutFinds(cs, FAILURE, kind);
    } else {
      DemoteFinds(cs, Lowered(mark), kind);
    }
  }

  /**
   Transition times after any mark on any status. The kind that is raised carries the
   time of the mark, unless it was true before. The kind that is taken down carries its
   old time, also when its status has just changed: the time of a demoted condition is
   never that of its transition. Other kinds are as they were.
   */
  lemma TransitionTimes(cs: seq<Condition>, mark: Mark, now: nat)
    ensures var r, before := Find(Marked(cs, mark, now), Raised(mark)), Find(cs, Raised(mark));
      && r.Some? && r.value.status == "True"
      && r.value.since == if before.Some? && before.value.status == "True" then before.value.since else now
    ensures var r, before := Find(Marked(cs, mark, now), Lowered(mark)), Find(cs, Lowered(mark));
      r == if mark == MarkDone([]) || before.None? then None else Some(before.value.(status := "False"))
    ensures forall k :: k != RUNNING && k != FAILURE ==> Find(Marked(cs, mark, now), k) == Find(cs, k)
  {
    var base := Base(cs, mark);
    var up := MarkedIsSet(cs, mark, now);
    BaseFinds(cs, mark, Raised(mark));
    BaseFinds(cs, mark, Lowered(mark));
    SetFinds(base, up);
    SetKeepsFirst(base, up, Lowered(mark));
    forall k | k != RUNNING && k != FAILURE ensures Find(Marked(cs, mark, now), k) == Find(cs, k) {
      BaseFinds(cs, mark, k);
      SetKeepsFirst(base, up, k);
    }
  }
}
