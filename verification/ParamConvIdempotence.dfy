/**
 When a second ToSnake changes nothing. The number rule splits units, a letter and its
 digits, pair by pair, so of an odd number of adjacent units the last one is left to
 match again: "a1b2c3" changes a second time, "a1b2" and "a1b2c3d4" do not.
 */
module ParamConvIdempotence {
  import opened Wrappers
  import opened Text
  import opened ParamConv
  import opened ParamConvProperties

  /** The number pattern matches somewhere in s. */
  predicate HasNumberSequence(s: string) {
    s != "" && (NumberSequenceAt(s) || HasNumberSequence(s[1..]))
  }

  lemma {:induction false} BoundariesGrow(s: string)
    ensures |AddWordBoundaries(s)| >= |s|
    ensures HasNumberSequence(s) ==> |AddWordBoundaries(s)| > |s|
    ensures !HasNumberSequence(s) ==> AddWordBoundaries(s) == s
    decreases |s|
  {
    if s == "" {
    } else if NumberSequenceAt(s) {
      BoundariesGrow(s[MatchEnd(s)..]);
    } else {
      BoundariesGrow(s[1..]);
      assert s == [s[0]] + s[1..];
    }
  }

  /** One step of the number rule: what it writes for the first units it reads. */
  lemma FirstStep(s: string) returns (head: string, e: nat)
    requires s != ""
    ensures 0 < e <= |s| && head != "" && head[0] == s[0] && head[|head| - 1] == s[e - 1]
    ensures AddWordBoundaries(s) == head + AddWordBoundaries(s[e..])
  {
    if NumberSequenceAt(s) {
      head, e := Replacement(s), MatchEnd(s);
    } else {
      head, e := [s[0]], 1;
    }
  }

  lemma {:induction false} BoundariesKeepEnds(s: string)
    requires s != ""
    ensures var r := AddWordBoundaries(s); r != "" && r[0] == s[0] && r[|r| - 1] == s[|s| - 1]
    decreases |s|
  {
    var head, e := FirstStep(s);
    var rest := s[e..];
    if rest != "" {
      BoundariesKeepEnds(rest);
      assert rest[|rest| - 1] == s[|s| - 1];
    } else {
      assert AddWordBoundaries(s) == head;
    }
  }

  lemma PrepareIsBoundaries(s: string)
    requires s != "" && s[0] != ' ' && s[|s| - 1] != ' '
    ensures Prepare(s) == AddWordBoundaries(s) != ""
  {
    BoundariesKeepEnds(s);
  }

  // ------------------------------------------ where a match can cross a border

  lemma {:induction false} DigitRunConcat(a: string, b: string)
    ensures DigitRun(a + b) == if DigitRun(a) == |a| then |a| + DigitRun(b) else DigitRun(a)
  {
    if a == "" {
      assert a + b == b;
    } else {
      assert (a + b)[1..] == a[1..] + b;
      DigitRunConcat(a[1..], b);
    }
  }

  /** No match of the number pattern can run across the border between a and b. */
  predicate Border(a: string, b: string) {
    b == "" ||
    (!IsDigit(b[0]) &&
     (!IsLetter(b[0]) || (|b| > 1 && !IsDigit(b[1])) || (a != "" && IsLetter(a[|a| - 1]))))
  }

  lemma MatchStaysBefore(a: string, b: string)
    requires a != "" && Border(a, b)
    ensures NumberSequenceAt(a + b) <==> NumberSequenceAt(a)
  {
    assert (a + b)[1..] == a[1..] + b;
    DigitRunConcat(a[1..], b);
    var d := DigitRun(a[1..]);
    if 1 + d < |a| {
      assert (a + b)[2 + d..] == a[2 + d..] + b;
      DigitRunConcat(a[2 + d..], b);
    } else if b != "" {
      assert (a + b)[2 + d..] == b[1..];
      assert d > 0 ==> a[|a| - 1] == a[1..][d - 1];
    }
  }

  lemma {:induction false} SequenceAtBorder(a: string, b: string)
    requires Border(a, b)
    ensures HasNumberSequence(a + b) <==> HasNumberSequence(a) || HasNumberSequence(b)
  {
    if a == "" {
      assert a + b == b;
    } else {
      MatchStaysBefore(a, b);
      assert (a + b)[1..] == a[1..] + b;
      if a[1..] == "" {
        assert a[1..] + b == b;
      } else {
        SequenceAtBorder(a[1..], b);
      }
    }
  }

  lemma SequenceAtDelim(a: string, d: char, b: string)
    requires IsDelim(d)
    ensures HasNumberSequence(a + [d] + b) <==> HasNumberSequence(a) || HasNumberSequence(b)
  {
    assert a + [d] + b == a + ([d] + b);
    SequenceAtBorder(a, [d] + b);
    assert ([d] + b)[1..] == b;
  }

  predicate SomeWordHasSequence(words: seq<string>) {
    words != [] && (HasNumberSequence(words[0]) || SomeWordHasSequence(words[1..]))
  }

  lemma {:induction false} ChunksKeepSequences(n: string, s: string)
    ensures SomeWordHasSequence(Chunks(n, s)) <==> HasNumberSequence(n + s)
    decreases |s|
  {
    if s == "" {
      assert n + s == n;
    } else {
      var v, rest := s[0], s[1..];
      assert s == [v] + rest;
      assert n + s == n + [v] + rest;
      if n != "" && |s| > 1 && CaseChanges(v, s[1]) {
        assert rest[0] == s[1];
        if IsUpper(v) {
          ChunksKeepSequences([v], rest);
          SequenceAtBorder(n, s);
        } else {
          ChunksKeepSequences("", rest);
          assert "" + rest == rest;
          SequenceAtBorder(n + [v], rest);
        }
      } else if IsDelim(v) {
        ChunksKeepSequences("", rest);
        assert "" + rest == rest;
        SequenceAtDelim(n, v, rest);
      } else {
        ChunksKeepSequences(n + [v], rest);
      }
    }
  }

  lemma {:induction false} JoinKeepsSequences(words: seq<string>)
    requires words != []
    ensures HasNumberSequence(Join(words)) <==> SomeWordHasSequence(words)
  {
    if |words| > 1 {
      JoinKeepsSequences(words[1..]);
      SequenceAtDelim(words[0], '_', Join(words[1..]));
    }
  }

  lemma {:induction false} DigitRunIgnoresCase(s: string)
    ensures DigitRun(LowerAll(s)) == DigitRun(s)
  {
    if s != "" {
      assert LowerAll(s)[1..] == LowerAll(s[1..]);
      DigitRunIgnoresCase(s[1..]);
    }
  }

  lemma {:induction false} SequencesIgnoreCase(s: string)
    ensures HasNumberSequence(LowerAll(s)) <==> HasNumberSequence(s)
  {
    if s != "" {
      assert LowerAll(s)[1..] == LowerAll(s[1..]);
      SequencesIgnoreCase(s[1..]);
      DigitRunIgnoresCase(s[1..]);
      var d := DigitRun(s[1..]);
      if 1 + d < |s| {
        assert LowerAll(s)[2 + d..] == LowerAll(s[2 + d..]);
        DigitRunIgnoresCase(s[2 + d..]);
      }
    }
  }

  lemma {:induction false} WordSequencesIgnoreCase(words: seq<string>)
    ensures SomeWordHasSequence(LowerWords(words)) <==> SomeWordHasSequence(words)
  {
    if words != [] {
      SequencesIgnoreCase(words[0]);
      assert LowerWords(words)[1..] == LowerWords(words[1..]);
      WordSequencesIgnoreCase(words[1..]);
    }
  }

  lemma {:induction false} TrimKeepsSequences(s: string)
    ensures HasNumberSequence(TrimLeft(s)) <==> HasNumberSequence(s)
    ensures HasNumberSequence(TrimRight(s)) <==> HasNumberSequence(s)
    decreases |s|
  {
    if s != "" && s[0] == ' ' {
      TrimKeepsSequences(s[1..]);
    }
    if s != "" && s[|s| - 1] == ' ' {
      TrimKeepsSequences(s[..|s| - 1]);
      assert s == s[..|s| - 1] + " ";
      SequenceAtDelim(s[..|s| - 1], ' ', "");
      assert s[..|s| - 1] + " " + "" == s;
    }
  }

  /** The number pattern occurs in the snake_case name exactly when the number rule left one behind. */
  lemma SnakeKeepsSequences(s: string)
    requires Snake(s).Some?
    ensures HasNumberSequence(Snake(s).value) <==> HasNumberSequence(AddWordBoundaries(s))
  {
    var t := Prepare(s);
    var words := Chunks("", t);
    var lowered := LowerWords(words);
    TrimKeepsSequences(AddWordBoundaries(s));
    TrimKeepsSequences(TrimLeft(AddWordBoundaries(s)));
    assert "" + t == t;
    ChunksKeepSequences("", t);
    WordSequencesIgnoreCase(words);
    JoinKeepsSequences(lowered);
    if SnakePrefix(t, lowered[0]) == "_" {
      assert "" + "_" + Join(lowered) == "_" + Join(lowered);
      SequenceAtDelim("", '_', Join(lowered));
    } else {
      assert "" + Join(lowered) == Join(lowered);
    }
  }

  // ------------------------------------------------- a second pass of ToSnake

  lemma JoinPushed(n: string, tail: seq<string>)
    requires tail != []
    ensures Join(LowerWords([n] + tail)) == LowerAll(n) + "_" + Join(LowerWords(tail))
  {
    assert LowerWords([n] + tail)[1..] == LowerWords(tail);
  }

  lemma CleanIsLower(n: string)
    requires CleanSnake(n)
    ensures LowerAll(n) == n
  {
  }

  lemma Reassociate(n: string, s: string)
    requires s != ""
    ensures n + [s[0]] + s[1..] == n + s
  {
  }

  lemma {:induction false} ChunksOfClean(n: string, s: string)
    requires CleanSnake(n) && CleanSnake(s)
    ensures Join(LowerWords(Chunks(n, s))) == n + s
    decreases |s|
  {
    CleanIsLower(n);
    if s == "" {
      assert LowerWords([n])[0] == n;
    } else {
      var rest := s[1..];
      assert CleanSnake(rest);
      Reassociate(n, s);
      if IsDelim(s[0]) {
        ChunksOfClean("", rest);
        JoinPushed(n, Chunks("", rest));
        assert "" + rest == rest && "_" == [s[0]];
      } else {
        ChunksOfClean(n + [s[0]], rest);
      }
    }
  }

  lemma {:induction false} JoinedChunksGrow(n: string, s: string)
    ensures |Join(LowerWords(Chunks(n, s)))| >= |n| + |s|
    decreases |s|
  {
    if s != "" {
      var rest := s[1..];
      JoinedChunksGrow("", rest);
      JoinedChunksGrow([s[0]], rest);
      JoinedChunksGrow(n + [s[0]], rest);
      forall w: string, ws: seq<string> | ws != []
        ensures |Join(LowerWords([w] + ws))| == |w| + 1 + |Join(LowerWords(ws))|
      {
        JoinPushed(w, ws);
      }
    }
  }

  /** A second ToSnake changes nothing exactly when the first output holds no number pattern. */
  lemma SnakeOfSnake(s: string)
    requires Snake(s).Some?
    ensures var out := Snake(s).value; Snake(out) == Some(out) <==> !HasNumberSequence(out)
  {
    var t := Prepare(s);
    var out := Snake(s).value;
    JoinedChunksGrow("", t);
    SnakeIsClean(s);
    PrepareIsBoundaries(out);
    BoundariesGrow(out);
    if HasNumberSequence(out) {
      JoinedChunksGrow("", AddWordBoundaries(out));
    } else {
      ChunksOfClean("", out);
      assert "" + out == out;
    }
  }

  lemma {:induction false} NoDigitsNoSequence(s: string)
    requires forall i :: 0 <= i < |s| ==> !IsDigit(s[i])
    ensures !HasNumberSequence(s)
  {
    if s != "" {
      NoDigitsNoSequence(s[1..]);
    }
  }

  /** In particular ToSnake is idempotent on every non-blank name without digits. */
  lemma SnakeIsIdempotentWithoutDigits(s: string)
    requires !Blank(s)
    requires forall i :: 0 <= i < |s| ==> !IsDigit(s[i])
    ensures Snake(s).Some? && Snake(Snake(s).value) == Snake(s)
  {
    SnakePanicsExactlyOnBlank(s);
    NoDigitsNoSequence(s);
    BoundariesGrow(s);
    SnakeKeepsSequences(s);
    SnakeOfSnake(s);
  }

  // ------------------------------------------------ the condition on the name

  /** s starts with a unit: a letter and at least one digit. */
  predicate StartsWithUnit(s: string) {
    s != "" && IsLetter(s[0]) && DigitRun(s[1..]) > 0
  }

  /** How many units s starts with, one right after the other, and what follows them. */
  function Units(s: string): nat
    decreases |s|
  {
    if StartsWithUnit(s) then 1 + Units(s[1 + DigitRun(s[1..])..]) else 0
  }

  function AfterUnits(s: string): (rest: string)
    ensures |rest| <= |s| && (StartsWithUnit(s) ==> |rest| < |s|)
    decreases |s|
  {
    if StartsWithUnit(s) then AfterUnits(s[1 + DigitRun(s[1..])..]) else s
  }

  predicate IsOdd(n: nat) {
    n % 2 == 1 && n > 1
  }

  /** Some maximal run of units in s has an odd number of them, and more than one. */
  predicate HasOddRun(s: string)
    decreases |s|
  {
    s != "" &&
    if Units(s) == 0 then HasOddRun(s[1..]) else IsOdd(Units(s)) || HasOddRun(AfterUnits(s))
  }

  /** A match takes up two units. */
  lemma MatchIsTwoUnits(s: string)
    ensures NumberSequenceAt(s) <==> Units(s) >= 2
    ensures NumberSequenceAt(s) ==>
              var rest := s[MatchEnd(s)..];
              Units(s) == Units(rest) + 2 && AfterUnits(s) == AfterUnits(rest) && (rest == "" || !IsDigit(rest[0]))
  {
    if StartsWithUnit(s) {
      var d := DigitRun(s[1..]);
      var second := s[1 + d..];
      if second != "" {
        assert second[1..] == s[2 + d..];
        if NumberSequenceAt(s) {
          assert second[1 + DigitRun(second[1..])..] == s[MatchEnd(s)..];
        }
      }
    }
  }

  lemma BoundariesStart(s: string)
    ensures AddWordBoundaries(s) == "" <==> s == ""
    ensures s != "" ==> AddWordBoundaries(s)[0] == s[0]
  {
    if s != "" {
      BoundariesKeepEnds(s);
    }
  }

  lemma RuleTail(s: string)
    requires s != ""
    ensures NumberSequenceAt(s) ==> |AddWordBoundaries(s)| >= 2 && AddWordBoundaries(s)[1] == ' '
    ensures !NumberSequenceAt(s) ==> AddWordBoundaries(s)[1..] == AddWordBoundaries(s[1..])
  {
    if NumberSequenceAt(s) {
      assert Replacement(s)[1] == ' ';
    }
  }

  /** After the rule a text starts with a unit exactly when it started with a lone one. */
  lemma StartAfterRule(s: string)
    ensures StartsWithUnit(AddWordBoundaries(s)) <==> Units(s) == 1
  {
    var r := AddWordBoundaries(s);
    MatchIsTwoUnits(s);
    if s != "" {
      RuleTail(s);
      BoundariesStart(s);
      BoundariesStart(s[1..]);
    }
  }

  lemma {:induction false} DigitsHoldNoSequence(s: string)
    requires forall i :: 0 <= i < |s| ==> IsDigit(s[i])
    ensures !HasNumberSequence(s) && DigitRun(s) == |s|
  {
    if s != "" {
      DigitsHoldNoSequence(s[1..]);
    }
  }

  lemma {:induction false} DigitsBefore(d: string, t: string)
    requires forall i :: 0 <= i < |d| ==> IsDigit(d[i])
    ensures HasNumberSequence(d + t) <==> HasNumberSequence(t)
    ensures AddWordBoundaries(d + t) == d + AddWordBoundaries(t)
    decreases |d|
  {
    if d == "" {
      assert d + t == t && d + AddWordBoundaries(t) == AddWordBoundaries(t);
    } else {
      assert (d + t)[1..] == d[1..] + t;
      DigitsBefore(d[1..], t);
      assert d + AddWordBoundaries(t) == [d[0]] + (d[1..] + AddWordBoundaries(t));
    }
  }

  /** A unit matches only with a unit right after it. */
  lemma UnitBefore(a: char, d: string, t: string)
    requires IsLetter(a) && d != "" && forall i :: 0 <= i < |d| ==> IsDigit(d[i])
    requires t == "" || !IsDigit(t[0])
    ensures HasNumberSequence([a] + d + t) <==> StartsWithUnit(t) || HasNumberSequence(t)
  {
    var s := [a] + d + t;
    assert s[1..] == d + t;
    DigitsBefore(d, t);
    DigitsHoldNoSequence(d);
    DigitRunConcat(d, t);
    assert DigitRun(t) == 0;
    assert s[1 + |d|..] == t;
    if t != "" {
      assert s[2 + |d|..] == t[1..];
    }
  }

  /** Nothing matches before or across the spaces that the rule puts in. */
  lemma SpacesHoldNoSequence(a: char, digits: string, tail: string)
    requires forall i :: 0 <= i < |digits| ==> IsDigit(digits[i])
    ensures HasNumberSequence([a] + [' '] + (digits + [' '] + tail)) <==> HasNumberSequence(tail)
  {
    SequenceAtDelim([a], ' ', digits + [' '] + tail);
    SequenceAtDelim(digits, ' ', tail);
    DigitsHoldNoSequence(digits);
    assert [a][1..] == "";
  }

  /** A replacement, part by part. */
  lemma ReplacementParts(s: string) returns (first: string, b: char, second: string)
    requires NumberSequenceAt(s)
    ensures IsLetter(b) && second != ""
    ensures forall i :: 0 <= i < |first| ==> IsDigit(first[i])
    ensures forall i :: 0 <= i < |second| ==> IsDigit(second[i])
    ensures Replacement(s) == [s[0]] + [' '] + (first + [' '] + ([b] + second))
  {
    var d, e := DigitRun(s[1..]), MatchEnd(s);
    first, b, second := s[1..][..d], s[1 + d], s[2 + d..][..e - 2 - d];
    assert s[1..1 + d] == first && s[1 + d..e] == [b] + second;
  }

  /** What the rule leaves of a match: its second unit before the rest. */
  lemma MatchLeavesUnit(s: string, t: string)
    requires NumberSequenceAt(s) && (t == "" || !IsDigit(t[0]))
    ensures HasNumberSequence(Replacement(s) + t) <==> StartsWithUnit(t) || HasNumberSequence(t)
  {
    var first, b, second := ReplacementParts(s);
    assert Replacement(s) + t == [s[0]] + [' '] + (first + [' '] + ([b] + second + t));
    SpacesHoldNoSequence(s[0], first, [b] + second + t);
    UnitBefore(b, second, t);
  }

  /** The rule leaves a match behind exactly for an odd run. */
  lemma {:induction false} OddRunIsLeft(s: string)
    ensures HasNumberSequence(AddWordBoundaries(s)) <==> HasOddRun(s)
    decreases |s|
  {
    MatchIsTwoUnits(s);
    if NumberSequenceAt(s) {
      var rest := s[MatchEnd(s)..];
      BoundariesStart(rest);
      StartAfterRule(rest);
      OddRunIsLeft(rest);
      MatchLeavesUnit(s, AddWordBoundaries(rest));
      PairOfUnits(s, rest);
    } else if StartsWithUnit(s) {
      var d := DigitRun(s[1..]);
      var rest := s[1 + d..];
      var digits := s[1..][..d];
      assert s[1..] == digits + rest;
      assert rest != "" ==> rest[0] == s[1..][d];
      DigitsBefore(digits, rest);
      BoundariesStart(rest);
      StartAfterRule(rest);
      OddRunIsLeft(rest);
      UnitBefore(s[0], digits, AddWordBoundaries(rest));
      assert AddWordBoundaries(s) == [s[0]] + digits + AddWordBoundaries(rest);
      assert AfterUnits(s) == rest;
    } else if s != "" {
      var t := AddWordBoundaries(s[1..]);
      BoundariesStart(s[1..]);
      OddRunIsLeft(s[1..]);
      assert ([s[0]] + t)[1..] == t;
    }
  }

  lemma PairOfUnits(s: string, rest: string)
    requires Units(s) == Units(rest) + 2 && AfterUnits(s) == AfterUnits(rest)
    ensures HasOddRun(s) <==> Units(rest) == 1 || HasOddRun(rest)
  {
    assert IsOdd(Units(s)) <==> Units(rest) == 1 || IsOdd(Units(rest));
    assert HasOddRun(s) <==> IsOdd(Units(s)) || HasOddRun(AfterUnits(s));
    assert Units(rest) == 0 ==> AfterUnits(rest) == rest;
  }

  /**
   ToSnake is idempotent at a name exactly when no maximal run of units in it, letters
   each followed by digits, has an odd number of three or more.
   */
  lemma SnakeIsIdempotentExactlyWhen(s: string)
    requires Snake(s).Some?
    ensures Snake(Snake(s).value) == Snake(s) <==> !HasOddRun(s)
  {
    SnakeKeepsSequences(s);
    SnakeOfSnake(s);
    OddRunIsLeft(s);
  }

  lemma OneMoreUnit(s: string)
    requires |s| >= 2 && IsLetter(s[0]) && IsDigit(s[1]) && (s[2..] == "" || !IsDigit(s[2]))
    ensures Units(s) == 1 + Units(s[2..])
  {
    assert s[1..][1..] == s[2..] && DigitRun(s[1..]) == 1;
  }

  /** Three units in a row are such a run: "a1b2c3" changes again, and every name like it. */
  lemma NumberRuleIsNotIdempotent(s: string)
    requires |s| == 6 && IsLetter(s[0]) && IsLetter(s[2]) && IsLetter(s[4])
    requires IsDigit(s[1]) && IsDigit(s[3]) && IsDigit(s[5])
    ensures Snake(s).Some? && Snake(Snake(s).value) != Snake(s)
  {
    SnakePanicsExactlyOnBlank(s);
    assert s[0] != ' ';
    OneMoreUnit(s);
    assert s[2..][2..] == s[4..] && s[4..][2..] == "";
    OneMoreUnit(s[2..]);
    OneMoreUnit(s[4..]);
    SnakeIsIdempotentExactlyWhen(s);
  }
}
