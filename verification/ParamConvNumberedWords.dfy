/**
 snake_case -> camelCase -> snake_case for names whose words are lower-case letters with
 a number at the end or none. Two neighbouring words come back apart if the first one
 ends or the second one starts with a visible change of case; if all do, the name comes
 back, and if two do not, they are glued together or the number rule cuts the first one
 in two (operator-sdk/pkg/ansible/paramconv/paramconv.go).
 */
module ParamConvNumberedWords {
  import opened Wrappers
  import opened Text
  import opened ParamConv
  import opened ParamConvProperties
  import opened ParamConvIdempotence
  import opened ParamConvRoundTrip

  predicate AllDigits(s: string) {
    forall i :: 0 <= i < |s| ==> IsDigit(s[i])
  }

  predicate AllLetters(s: string) {
    forall i :: 0 <= i < |s| ==> IsLetter(s[i])
  }

  /** A word of lower-case letters with a number at its end; number is empty if it has none. */
  datatype Word = Word(letters: string, number: string)
  {
    predicate Valid() {
      LowerWord(letters) && AllDigits(number)
    }

    function Text(): string {
      letters + number
    }

    predicate IsAcronym() {
      number == "" && IsAbbreviation(letters)
    }

    /** Written with a capital, the word starts with a capital and a small letter. */
    predicate StartsApart() {
      |letters| >= 2 && !IsAcronym()
    }

    /** The word ends with a small letter that is not its first one. */
    predicate EndsApart() {
      |letters| >= 2 && number == "" && !IsAcronym()
    }

    /** The letters as they are written in a camelCase name. */
    function Head(capital: bool): string
      requires letters != ""
    {
      if number == "" then TranslateWord(letters, capital)
      else [if capital then UpperChar(letters[0]) else letters[0]] + letters[1..]
    }
  }

  predicate AreValid(words: seq<Word>) {
    forall i :: 0 <= i < |words| ==> words[i].Valid()
  }

  function Texts(words: seq<Word>): (texts: seq<string>)
    ensures |texts| == |words| && forall i :: 0 <= i < |words| ==> texts[i] == words[i].Text()
  {
    seq(|words|, i requires 0 <= i < |words| => words[i].Text())
  }

  predicate StandApart(words: seq<Word>) {
    forall i :: 0 <= i < |words| - 1 ==> words[i].EndsApart() || words[i + 1].StartsApart()
  }

  // ------------------------------------------------------------- the number rule

  lemma ConsAppend(a: string, b: string)
    requires a != ""
    ensures [a[0]] + (a[1..] + b) == a + b
  {
  }

  lemma CharPasses(c: char, x: string)
    requires !IsLetter(c) || x == "" || !IsDigit(x[0])
    ensures AddWordBoundaries([c] + x) == [c] + AddWordBoundaries(x)
  {
    assert ([c] + x)[1..] == x && !NumberSequenceAt([c] + x);
  }

  lemma {:induction false} DigitsPass(d: string, y: string)
    requires AllDigits(d)
    ensures AddWordBoundaries(d + y) == d + AddWordBoundaries(y) && DigitRun(d) == |d|
  {
    if d == "" {
      assert d + y == y;
    } else {
      DigitsPass(d[1..], y);
      CharPasses(d[0], d[1..] + y);
      ConsAppend(d, y);
      ConsAppend(d, AddWordBoundaries(y));
    }
  }

  /** Only the last one of several letters can begin a match. */
  lemma {:induction false} LettersPass(u: string, x: string, r: string)
    requires AllLetters(u) && u != ""
    requires AddWordBoundaries([u[|u| - 1]] + x) == [u[|u| - 1]] + r
    ensures AddWordBoundaries(u + x) == u + r
  {
    if |u| == 1 {
      assert u == [u[0]];
    } else {
      var rest := u[1..];
      assert rest[|rest| - 1] == u[|u| - 1];
      LettersPass(rest, x, r);
      assert (rest + x)[0] == u[1];
      CharPasses(u[0], rest + x);
      ConsAppend(u, x);
      ConsAppend(u, r);
    }
  }

  /** A letter with a number begins a match exactly when another one follows. */
  lemma MatchesExactlyWhen(c: char, d: string, y: string)
    requires IsLetter(c) && AllDigits(d) && (y == "" || !IsDigit(y[0]))
    ensures NumberSequenceAt([c] + (d + y)) <==> d != "" && |y| >= 2 && IsLetter(y[0]) && IsDigit(y[1])
  {
    var s := [c] + (d + y);
    assert s[1..] == d + y;
    DigitsPass(d, y);
    DigitRunConcat(d, y);
    if y != "" {
      assert s[1 + |d|] == y[0] && s[2 + |d|..] == y[1..];
    }
  }

  predicate Cuts(d: string, y: string) {
    d != "" && |y| >= 2 && IsLetter(y[0]) && IsDigit(y[1])
  }

  lemma LetterIsKept(c: char, d: string, y: string)
    requires IsLetter(c) && AllDigits(d) && (y == "" || !IsDigit(y[0])) && !Cuts(d, y)
    ensures AddWordBoundaries([c] + (d + y)) == [c] + (d + AddWordBoundaries(y))
  {
    MatchesExactlyWhen(c, d, y);
    assert ([c] + (d + y))[1..] == d + y;
    DigitsPass(d, y);
  }

  /** The rule leaves letters and a number alone that no letter with a number follows. */
  lemma NothingIsCut(u: string, d: string, y: string)
    requires AllLetters(u) && u != "" && AllDigits(d) && (y == "" || !IsDigit(y[0])) && !Cuts(d, y)
    ensures AddWordBoundaries(u + (d + y)) == u + (d + AddWordBoundaries(y))
  {
    var x, r := d + y, d + AddWordBoundaries(y);
    LetterIsKept(u[|u| - 1], d, y);
    LettersPass(u, x, r);
  }

  lemma NumberIsCutOff(c: char, d: string, y: string) returns (z: string)
    requires IsLetter(c) && AllDigits(d) && Cuts(d, y)
    ensures AddWordBoundaries([c] + (d + y)) == [c] + (" " + z)
  {
    var s := [c] + (d + y);
    MatchesExactlyWhen(c, d, y);
    RuleTail(s);
    BoundariesKeepEnds(s);
    var r := AddWordBoundaries(s);
    z := r[2..];
    assert r == [c] + (" " + z);
  }

  // ------------------------------------------------------------- reading a word

  /** Characters without a change of case are added to the word being read. */
  lemma {:induction false} RunsOn(n: string, u: string, y: string)
    requires forall i :: 0 <= i < |u| ==> !IsDelim(u[i])
    requires forall i :: 0 <= i < |u| && i + 1 < |u + y| ==> !CaseChanges((u + y)[i], (u + y)[i + 1])
    ensures Chunks(n, u + y) == Chunks(n + u, y)
    decreases |u|
  {
    if u == "" {
      assert u + y == y && n + u == n;
    } else {
      var s := u + y;
      assert s[1..] == u[1..] + y;
      assert forall i :: 0 <= i < |s| - 1 ==> s[1..][i] == s[i + 1];
      RunsOn(n + [u[0]], u[1..], y);
      assert n + [u[0]] + u[1..] == n + u;
    }
  }

  // --------------------------------------------------------------- the camel form

  lemma NumberIsNoAcronym(l: string, d: string)
    requires AllDigits(d) && d != ""
    ensures l + d !in WORD_MAPPING
  {
    var w := l + d;
    assert w[|w| - 1] == d[|d| - 1];
    if w in WORD_MAPPING {
      AcronymLetters(w);
      assert false;
    }
  }

  lemma TitleOfNumbered(l: string, d: string)
    requires LowerWord(l) && AllDigits(d)
    ensures Title(l + d) == [UpperChar(l[0])] + l[1..] + d
  {
    var w := l + d;
    forall i | 0 <= i < |w| ensures Title(w)[i] == ([UpperChar(l[0])] + l[1..] + d)[i] {
      assert i > 0 ==> !IsTitleSeparator(w[i - 1]);
    }
  }

  /** How a word is written: its letters, and its number. */
  lemma WordToken(w: Word, capital: bool)
    requires w.Valid()
    ensures TranslateWord(w.Text(), capital) == w.Head(capital) + w.number
    ensures |w.Head(capital)| == |w.letters| && AllLetters(w.Head(capital))
    ensures capital ==> IsUpper(w.Head(capital)[0])
  {
    if w.number == "" {
      assert w.Text() == w.letters && w.Head(capital) + w.number == w.Head(capital);
      TokenForm(w.letters);
      if w.letters in WORD_MAPPING {
        AcronymLetters(w.letters);
      }
    } else {
      NumberIsNoAcronym(w.letters, w.number);
      if capital {
        TitleOfNumbered(w.letters, w.number);
      } else {
        assert w.Head(false) == w.letters;
      }
    }
  }

  function CamelOf(words: seq<Word>, first: bool): string {
    CamelWords(Texts(words), first)
  }

  lemma CamelOfCons(words: seq<Word>, first: bool)
    requires words != [] && AreValid(words)
    ensures CamelOf(words, first) == words[0].Head(!first) + (words[0].number + CamelOf(words[1..], false))
  {
    WordToken(words[0], !first);
    assert Texts(words)[1..] == Texts(words[1..]);
    var h, d, rest := words[0].Head(!first), words[0].number, CamelOf(words[1..], false);
    assert (h + d) + rest == h + (d + rest);
  }

  lemma SecondLetter(w: Word)
    requires w.Valid() && |w.letters| >= 2
    ensures |w.Head(true)| >= 2 && IsLetter(w.Head(true)[1]) && (IsLower(w.Head(true)[1]) <==> !w.IsAcronym())
  {
    WordToken(w, true);
    if w.number == "" {
      TokenForm(w.letters);
    }
    assert IsLower(w.letters[1]);
  }

  /** How the rest of a camelCase name begins. */
  lemma CamelStart(words: seq<Word>)
    requires words != [] && AreValid(words)
    ensures var x := CamelOf(words, false);
      && x != "" && IsUpper(x[0])
      && (|x| >= 2 && IsDigit(x[1]) <==> |words[0].letters| == 1 && words[0].number != "")
      && (|x| >= 2 && IsLower(x[1]) ==> words[0].StartsApart())
  {
    var w, rest := words[0], CamelOf(words[1..], false);
    var x, h := CamelOf(words, false), words[0].Head(true);
    CamelOfCons(words, false);
    WordToken(w, true);
    assert x == h + (w.number + rest) && x[0] == h[0];
    if |w.letters| >= 2 {
      SecondLetter(w);
      assert x[1] == h[1];
    } else if w.number != "" {
      assert x[1] == w.number[0];
    } else if words[1..] != [] {
      RestStart(words[1..]);
      assert x[1] == rest[0];
    } else {
      assert rest == "" && |x| == 1;
    }
  }

  lemma RestStart(words: seq<Word>)
    requires words != [] && AreValid(words)
    ensures CamelOf(words, false) != "" && IsUpper(CamelOf(words, false)[0])
  {
    CamelOfCons(words, false);
    WordToken(words[0], true);
    assert CamelOf(words, false)[0] == words[0].Head(true)[0];
  }

  /** The number rule keeps the first character, and what follows it unless it puts a space there. */
  lemma RuleStart(x: string)
    requires x != ""
    ensures var y := AddWordBoundaries(x);
      y != "" && y[0] == x[0] && (|y| >= 2 ==> y[1] == ' ' || (|x| >= 2 && y[1] == x[1]))
  {
    var y := AddWordBoundaries(x);
    BoundariesKeepEnds(x);
    RuleTail(x);
    if !NumberSequenceAt(x) && |y| >= 2 {
      assert y[1] == y[1..][0] && x[1..] != "";
      BoundariesKeepEnds(x[1..]);
    }
  }

  // ------------------------------------------------- reading the camel form back

  function Before(n: string): seq<string> {
    if n == "" then [] else [n]
  }

  lemma LowersAreRead(n: string, l: string, x: string)
    requires (forall i :: 0 <= i < |l| ==> IsLower(l[i])) && (x == "" || !IsLetter(x[0]))
    ensures Chunks(n, l + x) == Chunks(n + l, x)
  {
    RunsOn(n, l, x);
  }

  lemma LetterIsRead(c: char, x: string)
    requires IsLetter(c) && (x == "" || !IsLetter(x[0]))
    ensures Chunks("", [c] + x) == Chunks([c], x)
  {
    assert ([c] + x)[1..] == x && "" + [c] == [c];
  }

  lemma CapitalisedIsRead(n: string, l: string, x: string)
    requires LowerWord(l) && |l| >= 2 && (x == "" || !IsLetter(x[0]))
    ensures var h := [UpperChar(l[0])] + l[1..]; Chunks(n, h + x) == Before(n) + Chunks(h, x)
  {
    var c, rest := UpperChar(l[0]), l[1..];
    var s := [c] + rest + x;
    assert s[1..] == rest + x && IsUpper(s[0]) && s[1] == l[1] && IsLower(s[1]);
    assert "" + [c] == [c];
    LowersAreRead([c], rest, x);
  }

  /** The letters of a numbered word, up to its number or a space. */
  lemma ReadsHead(n: string, w: Word, capital: bool, x: string)
    requires w.Valid() && w.number != "" && (x == "" || !IsLetter(x[0])) && (n != "" ==> capital && w.StartsApart())
    ensures Chunks(n, w.Head(capital) + x) == Before(n) + Chunks(w.Head(capital), x)
  {
    var l, h := w.letters, w.Head(capital);
    if capital && |l| >= 2 {
      CapitalisedIsRead(n, l, x);
    } else if capital {
      assert IsLower(l[0]) && h == [UpperChar(l[0])];
      LetterIsRead(h[0], x);
    } else {
      assert h == l && "" + l == l;
      LowersAreRead("", l, x);
    }
  }

  lemma NumberIsRead(n: string, d: string, y: string)
    requires AllDigits(d)
    ensures Chunks(n, d + y) == Chunks(n + d, y)
  {
    RunsOn(n, d, y);
  }

  lemma PlainIsRead(n: string, l: string, capital: bool, y: string)
    requires LowerWord(l) && AtCapital(y) && (n != "" ==> capital && !CapsLike(l))
    ensures var t := TranslateWord(l, capital);
      Chunks(n, t + y) == Before(n) + if !CapsLike(l) && y != "" then [t] + Chunks("", y) else Chunks(t, y)
  {
    var t := TranslateWord(l, capital);
    if l in WORD_MAPPING {
      TokenForm(l);
      CapitalsRun("", t, y);
      assert "" + t == t;
    } else if |l| == 1 {
      assert (t + y)[1..] == y && "" + [t[0]] == t;
    } else if capital {
      TitleWordIsRead(n, l, y);
    } else {
      FirstWordIsRead(l, y);
    }
  }

  /** A word in front of a capital or the end. */
  lemma WordIsRead(n: string, w: Word, capital: bool, y: string)
    requires w.Valid() && AtCapital(y) && (n != "" ==> capital && w.StartsApart())
    ensures var t := w.Head(capital) + w.number;
      Chunks(n, w.Head(capital) + (w.number + y)) ==
      Before(n) + if w.EndsApart() && y != "" then [t] + Chunks("", y) else Chunks(t, y)
  {
    var h := w.Head(capital);
    if w.number != "" {
      ReadsHead(n, w, capital, w.number + y);
      NumberIsRead(h, w.number, y);
    } else {
      assert h + (w.number + y) == h + y && h + w.number == h;
      PlainIsRead(n, w.letters, capital, y);
    }
  }

  lemma {:induction false} FirstChunkGrows(n: string, s: string)
    ensures |Chunks(n, s)[0]| >= |n|
    decreases |s|
  {
    if s != "" {
      FirstChunkGrows(n + [s[0]], s[1..]);
    }
  }

  /** A word that does not start apart goes on with the word being read. */
  lemma GoesOn(t: string, y: string)
    requires y != "" && IsUpper(y[0]) && (|y| >= 2 ==> !IsLower(y[1]))
    ensures |Chunks(t, y)[0]| > |t|
  {
    FirstChunkGrows(t + [y[0]], y[1..]);
  }

  // ------------------------------------------------------------- all the words

  /** What is read is before and then the words. */
  predicate ComesBack(n: string, s: string, words: seq<Word>) {
    LowerWords(Chunks(n, s)) == LowerWords(Before(n)) + Texts(words)
  }

  lemma TokenIsText(w: Word, capital: bool)
    requires w.Valid()
    ensures LowerAll(w.Head(capital) + w.number) == w.Text() == LowerAll(w.Text())
  {
    WordToken(w, capital);
    TranslationKeepsLetters(w.Text(), capital);
  }

  /** The number of the first word is cut off, so the word does not come back. */
  lemma CutDoesNotComeBack(n: string, words: seq<Word>, capital: bool)
    requires |words| >= 2 && AreValid(words) && (n != "" ==> capital && words[0].StartsApart())
    requires words[0].number != "" && |words[1].letters| == 1 && words[1].number != ""
    ensures !ComesBack(n, AddWordBoundaries(CamelOf(words, !capital)), words)
  {
    var w, x := words[0], CamelOf(words[1..], false);
    var h := w.Head(capital);
    CamelOfCons(words, !capital);
    CamelStart(words[1..]);
    WordToken(w, capital);
    var z := NumberIsCutOff(h[|h| - 1], w.number, x);
    LettersPass(h, w.number + x, " " + z);
    ReadsHead(n, w, capital, " " + z);
    var read := Chunks(n, h + (" " + z));
    assert (" " + z)[1..] == z && Chunks(h, " " + z) == [h] + Chunks("", z);
    assert read[|Before(n)|] == h;
    assert LowerWords(read)[|Before(n)|] == LowerAll(h) && |LowerAll(h)| < |w.Text()|;
    assert (LowerWords(Before(n)) + Texts(words))[|Before(n)|] == w.Text();
  }

  /** Otherwise the number rule passes over the first word. */
  lemma FirstWordIsKept(words: seq<Word>, capital: bool)
    requires words != [] && AreValid(words)
    requires |words| >= 2 ==> words[0].number == "" || |words[1].letters| >= 2 || words[1].number == ""
    ensures var x, y := CamelOf(words[1..], false), AddWordBoundaries(CamelOf(words[1..], false));
      && AddWordBoundaries(CamelOf(words, !capital)) == words[0].Head(capital) + (words[0].number + y)
      && AtCapital(y) && (y == "" <==> |words| == 1) && (y != "" ==> IsUpper(y[0]))
      && (|words| >= 2 && |y| >= 2 && IsLower(y[1]) ==> words[1].StartsApart())
  {
    var w, x := words[0], CamelOf(words[1..], false);
    var h := w.Head(capital);
    CamelOfCons(words, !capital);
    WordToken(w, capital);
    if |words| == 1 {
      assert x == "";
    } else {
      CamelStart(words[1..]);
      RuleStart(x);
    }
    NothingIsCut(h, w.number, x);
  }

  lemma LowerWordsConcat(a: seq<string>, b: seq<string>)
    ensures LowerWords(a + b) == LowerWords(a) + LowerWords(b)
  {
  }

  /** What was read before does not matter. */
  lemma PrefixCancels(n: string, read: seq<string>, words: seq<Word>)
    ensures LowerWords(Before(n) + read) == LowerWords(Before(n)) + Texts(words) <==> LowerWords(read) == Texts(words)
  {
    LowerWordsConcat(Before(n), read);
    var b := LowerWords(Before(n));
    assert (b + LowerWords(read))[|b|..] == LowerWords(read) && (b + Texts(words))[|b|..] == Texts(words);
  }

  lemma FirstCancels(t: string, read: seq<string>, words: seq<Word>)
    requires words != [] && LowerAll(t) == words[0].Text()
    ensures LowerWords([t] + read) == Texts(words) <==> LowerWords(read) == Texts(words[1..])
    ensures LowerWords([t]) + Texts(words[1..]) == Texts(words)
  {
    LowerWordsConcat([t], read);
    assert Texts(words) == [words[0].Text()] + Texts(words[1..]);
    assert ([words[0].Text()] + LowerWords(read))[1..] == LowerWords(read);
    assert LowerWords([t]) == [words[0].Text()];
  }

  lemma ApartCons(words: seq<Word>)
    requires |words| >= 2
    ensures StandApart(words) <==> (words[0].EndsApart() || words[1].StartsApart()) && StandApart(words[1..])
  {
    var rest := words[1..];
    assert forall i :: 0 <= i < |rest| ==> rest[i] == words[i + 1];
    if StandApart(words) {
      assert words[0].EndsApart() || words[1].StartsApart();
    }
    if (words[0].EndsApart() || words[1].StartsApart()) && StandApart(rest) {
      forall i | 0 <= i < |words| - 1 ensures words[i].EndsApart() || words[i + 1].StartsApart() {
        assert i > 0 ==> rest[i - 1].EndsApart() || rest[i].StartsApart();
      }
    }
  }

  /** A word that ends apart is read, and then the rest from its beginning. */
  lemma EndIsRead(n: string, s: string, words: seq<Word>, t: string, y: string)
    requires words != [] && LowerAll(t) == words[0].Text() && Chunks(n, s) == Before(n) + ([t] + Chunks("", y))
    ensures ComesBack(n, s, words) <==> ComesBack("", y, words[1..])
  {
    PrefixCancels(n, [t] + Chunks("", y), words);
    FirstCancels(t, Chunks("", y), words);
    assert LowerWords(Before("")) + Texts(words[1..]) == Texts(words[1..]);
  }

  /** Any other word is read on. */
  lemma WordIsReadOn(n: string, s: string, words: seq<Word>, t: string, y: string)
    requires words != [] && t != "" && LowerAll(t) == words[0].Text() && Chunks(n, s) == Before(n) + Chunks(t, y)
    ensures ComesBack(n, s, words) <==> ComesBack(t, y, words[1..])
  {
    PrefixCancels(n, Chunks(t, y), words);
    FirstCancels(t, [], words);
  }

  lemma GluedDoesNotComeBack(t: string, y: string, words: seq<Word>)
    requires t != "" && y != "" && IsUpper(y[0]) && (|y| >= 2 ==> !IsLower(y[1]))
    ensures !ComesBack(t, y, words)
  {
    GoesOn(t, y);
    assert LowerWords(Chunks(t, y))[0] == LowerAll(Chunks(t, y)[0]);
    assert (LowerWords([t]) + Texts(words))[0] == LowerAll(t);
  }

  /** The first word is read unless its number is cut off. */
  lemma FirstIsRead(n: string, words: seq<Word>, capital: bool)
    requires words != [] && AreValid(words) && (n != "" ==> capital && words[0].StartsApart())
    requires |words| >= 2 ==> words[0].number == "" || |words[1].letters| >= 2 || words[1].number == ""
    ensures var t, y := words[0].Head(capital) + words[0].number, AddWordBoundaries(CamelOf(words[1..], false));
      && t != "" && LowerAll(t) == words[0].Text()
      && (if |words| == 1 then y == ""
          else y != "" && IsUpper(y[0]) && (|y| >= 2 && IsLower(y[1]) ==> words[1].StartsApart()))
      && Chunks(n, AddWordBoundaries(CamelOf(words, !capital))) ==
         Before(n) + if words[0].EndsApart() && y != "" then [t] + Chunks("", y) else Chunks(t, y)
  {
    TokenIsText(words[0], capital);
    WordToken(words[0], capital);
    FirstWordIsKept(words, capital);
    WordIsRead(n, words[0], capital, AddWordBoundaries(CamelOf(words[1..], false)));
  }

  /** The words come back exactly when every two neighbours stand apart. */
  lemma {:induction false} ReadsBack(n: string, words: seq<Word>, capital: bool)
    requires words != [] && AreValid(words) && (n != "" ==> capital && words[0].StartsApart())
    ensures ComesBack(n, AddWordBoundaries(CamelOf(words, !capital)), words) <==> StandApart(words)
    decreases |words|
  {
    var w, rest, s := words[0], words[1..], AddWordBoundaries(CamelOf(words, !capital));
    var t, y := w.Head(capital) + w.number, AddWordBoundaries(CamelOf(rest, false));
    if rest != [] {
      ApartCons(words);
    }
    if |words| >= 2 && w.number != "" && |words[1].letters| == 1 && words[1].number != "" {
      CutDoesNotComeBack(n, words, capital);
    } else {
      FirstIsRead(n, words, capital);
      if w.EndsApart() && rest != [] {
        EndIsRead(n, s, words, t, y);
        ReadsBack("", rest, true);
      } else {
        WordIsReadOn(n, s, words, t, y);
        if rest == [] {
          assert ComesBack(t, "", rest);
        } else if words[1].StartsApart() {
          ReadsBack(t, rest, true);
        } else {
          GluedDoesNotComeBack(t, y, rest);
        }
      }
    }
  }

  // --------------------------------------------------- when the name comes back

  lemma TextIsDelimFree(w: Word)
    requires w.Valid()
    ensures DelimFree(w.Text()) && IsLower(w.Text()[0])
  {
  }

  /** What follows the first word of a snake_case name. */
  function Tail(words: seq<Word>): string
    requires words != []
  {
    if |words| == 1 then "" else "_" + Join(Texts(words[1..]))
  }

  lemma JoinCons(words: seq<Word>)
    requires words != []
    ensures Join(Texts(words)) == words[0].letters + (words[0].number + Tail(words))
  {
    assert Texts(words)[1..] == Texts(words[1..]);
    var l, d := words[0].letters, words[0].number;
    assert (l + d) + Tail(words) == l + (d + Tail(words));
  }

  lemma LastIsNoSpace(w: Word, y: string)
    requires w.Valid() && (y != "" ==> y[|y| - 1] != ' ')
    ensures var s := w.letters + (w.number + y); s != "" && IsLower(s[0]) && s[|s| - 1] != ' '
  {
  }

  /** A snake_case name of such words is left alone by the number rule. */
  lemma {:induction false} JoinIsKept(words: seq<Word>)
    requires words != [] && AreValid(words)
    ensures var s := Join(Texts(words));
      s != "" && IsLower(s[0]) && s[|s| - 1] != ' ' && AddWordBoundaries(s) == s
  {
    var y := Tail(words);
    if |words| > 1 {
      JoinIsKept(words[1..]);
      assert y[1..] == Join(Texts(words[1..])) && AddWordBoundaries(y) == y;
    }
    JoinCons(words);
    NothingIsCut(words[0].letters, words[0].number, y);
    LastIsNoSpace(words[0], y);
  }

  /** The camelCase name of the words. */
  lemma CamelOfJoin(words: seq<Word>)
    requires words != [] && AreValid(words)
    ensures Camel(Join(Texts(words))) == CamelOf(words, true)
  {
    JoinIsKept(words);
    PrepareIsBoundaries(Join(Texts(words)));
    forall i | 0 <= i < |words| ensures DelimFree(Texts(words)[i]) {
      TextIsDelimFree(words[i]);
    }
    SplitOfJoin(Texts(words));
  }

  /** What the number rule makes of it is not trimmed, and begins with a capital only for an acronym. */
  lemma PrepareOfCamel(words: seq<Word>)
    requires words != [] && AreValid(words)
    ensures var c := CamelOf(words, true);
      c != "" && Prepare(c) == AddWordBoundaries(c) != "" && (IsUpper(Prepare(c)[0]) ==> words[0].IsAcronym())
  {
    var c, w := CamelOf(words, true), words[0];
    CamelOfCons(words, true);
    WordToken(w, false);
    CamelOfJoin(words);
    CamelIsDelimFree(Join(Texts(words)));
    assert c[0] == w.Head(false)[0] && c[|c| - 1] != ' ';
    PrepareIsBoundaries(c);
    BoundariesKeepEnds(c);
  }

  lemma JoinIsInjective(a: seq<string>, words: seq<Word>)
    requires a != [] && words != [] && AreValid(words) && (forall i :: 0 <= i < |a| ==> DelimFree(a[i]))
    requires Join(a) == Join(Texts(words))
    ensures a == Texts(words)
  {
    forall i | 0 <= i < |words| ensures DelimFree(Texts(words)[i]) {
      TextIsDelimFree(words[i]);
    }
    SplitOfJoin(a);
    SplitOfJoin(Texts(words));
  }

  lemma JoinDecides(bits: seq<string>, words: seq<Word>, prefix: string)
    requires bits != [] && words != [] && AreValid(words) && (forall i :: 0 <= i < |bits| ==> DelimFree(bits[i]))
    requires prefix == "" || (prefix == "_" && bits != Texts(words))
    ensures prefix + Join(bits) == Join(Texts(words)) <==> bits == Texts(words)
  {
    JoinIsKept(words);
    if prefix == "" {
      assert prefix + Join(bits) == Join(bits);
      if Join(bits) == Join(Texts(words)) {
        JoinIsInjective(bits, words);
      }
    } else {
      assert (prefix + Join(bits))[0] == '_';
    }
  }

  lemma BitsAreDelimFree(t: string)
    ensures var bits := LowerWords(Chunks("", t)); forall i :: 0 <= i < |bits| ==> DelimFree(bits[i])
  {
    var bits := LowerWords(Chunks("", t));
    ChunksAreDelimFree("", t);
    LowerWordsAreClean(Chunks("", t));
    assert forall i :: 0 <= i < |bits| ==> bits[i] in bits;
  }

  lemma NoPrefix(t: string, words: seq<Word>)
    requires t != "" && words != [] && (IsUpper(t[0]) ==> words[0].IsAcronym())
    ensures SnakePrefix(t, Texts(words)[0]) == ""
  {
    assert words[0].IsAcronym() ==> Texts(words)[0] == words[0].letters + "" == words[0].letters;
  }

  lemma BitsDecide(t: string, words: seq<Word>)
    ensures var bits := LowerWords(Chunks("", t)); bits == Texts(words) <==> ComesBack("", t, words)
  {
    assert LowerWords(Before("")) + Texts(words) == Texts(words);
  }

  /** ToSnake undoes ToCamel exactly when every two neighbouring words stand apart. */
  lemma SnakeUndoesCamelExactlyWhen(words: seq<Word>)
    requires words != [] && AreValid(words)
    ensures Snake(Camel(Join(Texts(words)))) == Some(Join(Texts(words))) <==> StandApart(words)
  {
    CamelOfJoin(words);
    PrepareOfCamel(words);
    ReadsBack("", words, false);
    var t := Prepare(CamelOf(words, true));
    var bits := LowerWords(Chunks("", t));
    var prefix := SnakePrefix(t, bits[0]);
    BitsDecide(t, words);
    BitsAreDelimFree(t);
    NoPrefix(t, words);
    JoinDecides(bits, words, prefix);
  }
}
