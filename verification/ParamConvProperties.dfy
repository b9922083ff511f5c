/**
 What the two converters promise of every name: nothing but delimiters is lost, the
 outputs are clean, and only blank names make ToSnake panic.
 */
module ParamConvProperties {
  import opened Wrappers
  import opened Text
  import opened ParamConv

  // ------------------------------------------------------- no content is lost

  lemma {:induction false} ContentConcat(a: string, b: string)
    ensures Content(a + b) == Content(a) + Content(b)
  {
    if a == "" {
      assert a + b == b;
    } else {
      assert (a + b)[0] == a[0] && (a + b)[1..] == a[1..] + b;
      ContentConcat(a[1..], b);
    }
  }

  lemma {:induction false} ContentIgnoresCase(a: string, b: string)
    requires LowerAll(a) == LowerAll(b)
    ensures Content(a) == Content(b)
  {
    assert |a| == |LowerAll(a)| == |b|;
    if a != "" {
      assert LowerAll(a)[0] == LowerAll(b)[0];
      forall i | 0 <= i < |a| - 1 ensures LowerChar(a[1..][i]) == LowerChar(b[1..][i]) {
        assert LowerAll(a)[i + 1] == LowerAll(b)[i + 1];
      }
      assert LowerAll(a[1..]) == LowerAll(b[1..]);
      ContentIgnoresCase(a[1..], b[1..]);
    }
  }

  lemma ContentSpace(a: string, b: string)
    ensures Content(a + " " + b) == Content(a) + Content(b)
  {
    ContentConcat(a + " ", b);
    ContentConcat(a, " ");
  }

  lemma ContentOfMatch(a: string, b: string, c: string)
    ensures Content(a + " " + b + " " + c) == Content(a + b + c)
  {
    ContentSpace(a + " " + b, c);
    ContentSpace(a, b);
    ContentConcat(a + b, c);
    ContentConcat(a, b);
  }

  lemma {:induction false} BoundariesKeepContent(s: string)
    ensures Content(AddWordBoundaries(s)) == Content(s)
    decreases |s|
  {
    if s == "" {
    } else if NumberSequenceAt(s) {
      var d := DigitRun(s[1..]);
      var e := MatchEnd(s);
      var a, b, c := [s[0]], s[1..1 + d], s[1 + d..e];
      assert a + b + c == s[..e];
      assert s == s[..e] + s[e..];
      BoundariesKeepContent(s[e..]);
      ContentOfMatch(a, b, c);
      ContentConcat(Replacement(s), AddWordBoundaries(s[e..]));
      ContentConcat(s[..e], s[e..]);
    } else {
      BoundariesKeepContent(s[1..]);
      ContentConcat([s[0]], AddWordBoundaries(s[1..]));
    }
  }

  lemma {:induction false} TrimKeepsContent(s: string)
    ensures Content(TrimLeft(s)) == Content(s) == Content(TrimRight(s))
    decreases |s|
  {
    if s != "" && s[0] == ' ' {
      TrimKeepsContent(s[1..]);
    }
    if s != "" && s[|s| - 1] == ' ' {
      assert s == s[..|s| - 1] + " ";
      ContentConcat(s[..|s| - 1], " ");
      TrimKeepsContent(s[..|s| - 1]);
    }
  }

  lemma PrepareKeepsContent(s: string)
    ensures Content(Prepare(s)) == Content(s)
  {
    BoundariesKeepContent(s);
    TrimKeepsContent(AddWordBoundaries(s));
    TrimKeepsContent(TrimLeft(AddWordBoundaries(s)));
  }

  function WordsContent(words: seq<string>): string {
    if words == [] then "" else Content(words[0]) + WordsContent(words[1..])
  }

  lemma {:induction false} SplitKeepsContent(n: string, s: string)
    ensures WordsContent(Split(n, s)) == Content(n) + Content(s)
    decreases |s|
  {
    if s == "" {
    } else if IsDelim(s[0]) {
      SplitKeepsContent("", s[1..]);
    } else {
      SplitKeepsContent(n + [s[0]], s[1..]);
      ContentConcat(n, [s[0]]);
      ContentConcat([s[0]], s[1..]);
    }
  }

  lemma {:induction false} ChunksKeepContent(n: string, s: string)
    ensures WordsContent(Chunks(n, s)) == Content(n) + Content(s)
    decreases |s|
  {
    if s != "" {
      var v := [s[0]];
      ContentConcat(n, v);
      ContentConcat(v, s[1..]);
      assert v + s[1..] == s;
      ChunksKeepContent("", s[1..]);
      ChunksKeepContent(v, s[1..]);
      ChunksKeepContent(n + v, s[1..]);
    }
  }

  lemma AcronymLetters(word: string)
    requires word in WORD_MAPPING
    ensures LowerAll(WORD_MAPPING[word]) == word == LowerAll(word)
    ensures forall i :: 0 <= i < |WORD_MAPPING[word]| ==> IsUpper(WORD_MAPPING[word][i])
  {
    assert word == "http" || word == "url" || word == "ip";
  }

  lemma TranslationKeepsLetters(word: string, initCase: bool)
    ensures LowerAll(TranslateWord(word, initCase)) == LowerAll(word)
  {
    if word in WORD_MAPPING {
      AcronymLetters(word);
    } else {
      forall i | 0 <= i < |word| ensures LowerAll(Title(word))[i] == LowerAll(word)[i] {
        assert Title(word)[i] == word[i] || Title(word)[i] == UpperChar(word[i]);
      }
    }
  }

  lemma {:induction false} CamelWordsKeepContent(words: seq<string>, first: bool)
    ensures Content(CamelWords(words, first)) == WordsContent(words)
  {
    if words != [] {
      var w := TranslateWord(words[0], !first);
      TranslationKeepsLetters(words[0], !first);
      ContentIgnoresCase(w, words[0]);
      ContentConcat(w, CamelWords(words[1..], false));
      CamelWordsKeepContent(words[1..], false);
    }
  }

  lemma {:induction false} JoinKeepsContent(words: seq<string>)
    requires words != []
    ensures Content(Join(words)) == WordsContent(words)
  {
    if |words| > 1 {
      JoinKeepsContent(words[1..]);
      ContentConcat(words[0] + "_", Join(words[1..]));
      ContentConcat(words[0], "_");
    }
  }

  lemma {:induction false} LowerWordsKeepContent(words: seq<string>)
    ensures WordsContent(LowerWords(words)) == WordsContent(words)
  {
    if words != [] {
      assert LowerWords(words)[1..] == LowerWords(words[1..]);
      LowerWordsKeepContent(words[1..]);
      assert LowerAll(LowerAll(words[0])) == LowerAll(words[0]);
      ContentIgnoresCase(LowerAll(words[0]), words[0]);
    }
  }

  /** ToCamel keeps every non-delimiter character, in order, up to case. */
  lemma CamelKeepsContent(s: string)
    ensures Content(Camel(s)) == Content(s)
  {
    PrepareKeepsContent(s);
    SplitKeepsContent("", Prepare(s));
    CamelWordsKeepContent(Split("", Prepare(s)), true);
  }

  /** ToSnake keeps every non-delimiter character, in order, up to case. */
  lemma SnakeKeepsContent(s: string)
    requires Snake(s).Some?
    ensures Content(Snake(s).value) == Content(s)
  {
    var t := Prepare(s);
    var words := LowerWords(Chunks("", t));
    PrepareKeepsContent(s);
    ChunksKeepContent("", t);
    LowerWordsKeepContent(Chunks("", t));
    JoinKeepsContent(words);
    ContentConcat(SnakePrefix(t, words[0]), Join(words));
  }

  // ------------------------------------------------------------- blank inputs

  predicate Blank(s: string) {
    forall i :: 0 <= i < |s| ==> s[i] == ' '
  }

  lemma BlankCons(c: char, s: string)
    ensures Blank([c] + s) <==> c == ' ' && Blank(s)
  {
    if Blank([c] + s) {
      assert ([c] + s)[0] == c;
      forall i | 0 <= i < |s| ensures s[i] == ' ' {
        assert ([c] + s)[i + 1] == s[i];
      }
    }
  }

  lemma {:induction false} BoundariesKeepBlank(s: string)
    ensures Blank(AddWordBoundaries(s)) <==> Blank(s)
    decreases |s|
  {
    if s == "" {
    } else if NumberSequenceAt(s) {
      assert AddWordBoundaries(s)[0] == s[0] != ' ';
    } else {
      BoundariesKeepBlank(s[1..]);
      BlankCons(s[0], AddWordBoundaries(s[1..]));
      BlankCons(s[0], s[1..]);
      assert s == [s[0]] + s[1..];
    }
  }

  lemma {:induction false} TrimRightOfBlank(s: string)
    ensures TrimRight(s) == "" <==> Blank(s)
  {
    if s != "" && s[|s| - 1] == ' ' {
      TrimRightOfBlank(s[..|s| - 1]);
      assert s == s[..|s| - 1] + " ";
    }
  }

  lemma {:induction false} TrimLeftOfBlank(s: string)
    ensures Blank(TrimLeft(s)) <==> Blank(s)
  {
    if s != "" && s[0] == ' ' {
      TrimLeftOfBlank(s[1..]);
      assert s == " " + s[1..];
    }
  }

  /** ToSnake panics on blank strings and on no others. */
  lemma SnakePanicsExactlyOnBlank(s: string)
    ensures Snake(s) == None <==> Blank(s)
  {
    BoundariesKeepBlank(s);
    TrimLeftOfBlank(AddWordBoundaries(s));
    TrimRightOfBlank(TrimLeft(AddWordBoundaries(s)));
  }

  // ------------------------------------------------------------ clean outputs

  predicate DelimFree(s: string) {
    forall i :: 0 <= i < |s| ==> !IsDelim(s[i])
  }

  predicate CleanSnake(s: string) {
    forall i :: 0 <= i < |s| ==> !IsUpper(s[i]) && s[i] != ' ' && s[i] != '-'
  }

  lemma {:induction false} SplitIsDelimFree(n: string, s: string)
    requires DelimFree(n)
    ensures forall w :: w in Split(n, s) ==> DelimFree(w)
    decreases |s|
  {
    if s == "" {
    } else if IsDelim(s[0]) {
      SplitIsDelimFree("", s[1..]);
    } else {
      SplitIsDelimFree(n + [s[0]], s[1..]);
    }
  }

  lemma {:induction false} CamelWordsAreDelimFree(words: seq<string>, first: bool)
    requires forall w :: w in words ==> DelimFree(w)
    ensures DelimFree(CamelWords(words, first))
  {
    if words != [] {
      assert DelimFree(words[0]);
      assert DelimFree(TranslateWord(words[0], !first));
      CamelWordsAreDelimFree(words[1..], false);
    }
  }

  /** A camelCase name holds no delimiter. */
  lemma CamelIsDelimFree(s: string)
    ensures DelimFree(Camel(s))
  {
    SplitIsDelimFree("", Prepare(s));
    CamelWordsAreDelimFree(Split("", Prepare(s)), true);
  }

  lemma {:induction false} ChunksAreDelimFree(n: string, s: string)
    requires DelimFree(n)
    ensures forall w :: w in Chunks(n, s) ==> DelimFree(w)
    decreases |s|
  {
    if s != "" {
      ChunksAreDelimFree("", s[1..]);
      if !IsDelim(s[0]) {
        ChunksAreDelimFree([s[0]], s[1..]);
        ChunksAreDelimFree(n + [s[0]], s[1..]);
      }
    }
  }

  lemma LowerWordsAreClean(words: seq<string>)
    requires forall w :: w in words ==> DelimFree(w)
    ensures forall w :: w in LowerWords(words) ==> DelimFree(w) && CleanSnake(w)
  {
    forall w | w in LowerWords(words) ensures DelimFree(w) && CleanSnake(w) {
      var i :| 0 <= i < |words| && w == LowerWords(words)[i];
      assert DelimFree(words[i]);
      assert forall k :: 0 <= k < |w| ==> w[k] == LowerChar(words[i][k]);
    }
  }

  lemma {:induction false} JoinIsClean(words: seq<string>)
    requires words != []
    requires forall w :: w in words ==> CleanSnake(w)
    ensures CleanSnake(Join(words))
  {
    assert CleanSnake(words[0]);
    if |words| > 1 {
      JoinIsClean(words[1..]);
    }
  }

  /** A snake_case name holds no capital, no space and no dash. */
  lemma SnakeIsClean(s: string)
    requires Snake(s).Some?
    ensures CleanSnake(Snake(s).value)
  {
    var words := Chunks("", Prepare(s));
    ChunksAreDelimFree("", Prepare(s));
    LowerWordsAreClean(words);
    JoinIsClean(LowerWords(words));
  }
}
