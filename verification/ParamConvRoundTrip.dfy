/**
 snake_case -> camelCase -> snake_case, for names made of words of lower-case letters.
 The trip glues a word that is a single letter or an acronym to a following word of
 that kind, and does nothing else.
 */
module ParamConvRoundTrip {
  import opened Wrappers
  import opened Text
  import opened ParamConv
  import opened ParamConvProperties

  predicate LowerWord(w: string) {
    w != "" && forall i :: 0 <= i < |w| ==> IsLower(w[i])
  }

  /** Non-empty words of lower-case letters. */
  predicate SnakeWords(words: seq<string>) {
    forall i :: 0 <= i < |words| ==> LowerWord(words[i])
  }

  /** The words that camelCase writes in capitals only. */
  predicate IsAbbreviation(w: string) {
    w == "http" || w == "url" || w == "ip"
  }

  predicate CapsLike(w: string) {
    |w| == 1 || IsAbbreviation(w)
  }

  /** Of the words of lower-case letters with more than one letter, in any place, just these are written so. */
  lemma AbbreviationsAreExactly(w: string, initCase: bool)
    requires LowerWord(w) && |w| > 1
    ensures TranslateWord(w, initCase) == UpperAll(w) <==> IsAbbreviation(w)
  {
    assert UpperAll("http") == "HTTP" && UpperAll("url") == "URL" && UpperAll("ip") == "IP";
    if !IsAbbreviation(w) {
      assert !IsTitleSeparator(w[0]);
      assert TranslateWord(w, initCase)[1] == w[1] && UpperAll(w)[1] == UpperChar(w[1]) != w[1];
    }
  }

  /** The words that come back: cur is the word being built, caps says whether it is all capitals. */
  function Glue(cur: string, caps: bool, words: seq<string>): (glued: seq<string>)
    ensures glued != []
    decreases |words|
  {
    if words == [] then [cur]
    else if caps && CapsLike(words[0]) then Glue(cur + words[0], true, words[1..])
    else [cur] + Glue(words[0], CapsLike(words[0]), words[1..])
  }

  function GlueWords(words: seq<string>): (glued: seq<string>)
    requires words != []
    ensures glued != []
  {
    Glue(words[0], CapsLike(words[0]), words[1..])
  }

  // ------------------------------------------------------------ the camel form

  lemma {:induction false} SplitWord(n: string, w: string, rest: string)
    requires DelimFree(w)
    ensures Split(n, w + rest) == Split(n + w, rest)
    decreases |w|
  {
    if w == "" {
      assert w + rest == rest && n + w == n;
    } else {
      assert (w + rest)[1..] == w[1..] + rest;
      SplitWord(n + [w[0]], w[1..], rest);
      assert n + [w[0]] + w[1..] == n + w;
    }
  }

  lemma {:induction false} SplitOfJoin(words: seq<string>)
    requires words != [] && forall i :: 0 <= i < |words| ==> DelimFree(words[i])
    ensures Split("", Join(words)) == words
  {
    assert "" + words[0] == words[0];
    if |words| == 1 {
      assert words[0] + "" == words[0];
      SplitWord("", words[0], "");
    } else {
      var rest := "_" + Join(words[1..]);
      assert Join(words) == words[0] + rest;
      SplitWord("", words[0], rest);
      SplitOfJoin(words[1..]);
      assert rest[1..] == Join(words[1..]);
    }
  }

  /** No character that Prepare looks at. */
  predicate Plain(s: string) {
    forall i :: 0 <= i < |s| ==> !IsDigit(s[i]) && s[i] != ' '
  }

  lemma {:induction false} BoundariesOfPlain(s: string)
    requires Plain(s)
    ensures AddWordBoundaries(s) == s
  {
    if s != "" {
      BoundariesOfPlain(s[1..]);
    }
  }

  lemma PrepareOfPlain(s: string)
    requires Plain(s)
    ensures Prepare(s) == s
  {
    BoundariesOfPlain(s);
  }

  lemma {:induction false} JoinIsPlain(words: seq<string>)
    requires words != [] && SnakeWords(words)
    ensures Plain(Join(words)) && Join(words) != "" && IsLower(Join(words)[0])
  {
    assert LowerWord(words[0]);
    if |words| > 1 {
      JoinIsPlain(words[1..]);
    }
  }

  lemma {:induction false} CamelWordsArePlain(words: seq<string>, first: bool)
    requires SnakeWords(words)
    ensures Plain(CamelWords(words, first))
  {
    if words != [] {
      TokenForm(words[0]);
      CamelWordsArePlain(words[1..], false);
    }
  }

  predicate AllUpper(s: string) {
    forall i :: 0 <= i < |s| ==> IsUpper(s[i])
  }

  lemma TitleForm(w: string)
    requires LowerWord(w)
    ensures Title(w) == [UpperChar(w[0])] + w[1..]
    ensures IsUpper(Title(w)[0]) && Plain(Title(w))
  {
    var t := [UpperChar(w[0])] + w[1..];
    forall i | 0 <= i < |w| ensures Title(w)[i] == t[i] {
      assert i > 0 ==> IsLower(w[i - 1]);
    }
    assert Title(w) == t;
    assert IsLower(w[0]);
  }

  /** How a lower-case word is written inside a camelCase name. */
  lemma TokenForm(w: string)
    requires LowerWord(w)
    ensures var t := TranslateWord(w, true);
      && |t| == |w| && IsUpper(t[0]) && LowerAll(t) == w && Plain(t)
      && (CapsLike(w) ==> AllUpper(t))
      && (!CapsLike(w) ==> t == [UpperChar(w[0])] + w[1..])
  {
    TranslationKeepsLetters(w, true);
    assert LowerAll(w) == w;
    if w in WORD_MAPPING {
      AcronymLetters(w);
    } else {
      TitleForm(w);
    }
  }

  /** What follows a word in a camelCase name: the end or a capital. */
  predicate AtCapital(rest: string) {
    rest == "" || IsUpper(rest[0])
  }

  // ------------------------------------------------ reading the camel form back

  lemma {:induction false} CapitalsRun(n: string, caps: string, rest: string)
    requires AllUpper(caps) && AtCapital(rest)
    ensures Chunks(n, caps + rest) == Chunks(n + caps, rest)
    decreases |caps|
  {
    if caps == "" {
      assert caps + rest == rest && n + caps == n;
    } else {
      assert (caps + rest)[1..] == caps[1..] + rest;
      CapitalsRun(n + [caps[0]], caps[1..], rest);
      assert n + [caps[0]] + caps[1..] == n + caps;
    }
  }

  lemma {:induction false} LowersRun(n: string, w: string, rest: string)
    requires n != "" && LowerWord(w) && AtCapital(rest)
    ensures Chunks(n, w + rest) == if rest == "" then [n + w] else [n + w] + Chunks("", rest)
    decreases |w|
  {
    assert (w + rest)[1..] == w[1..] + rest;
    if |w| == 1 {
      assert w[1..] + rest == rest;
      assert n + [w[0]] == n + w;
    } else {
      LowersRun(n + [w[0]], w[1..], rest);
      assert n + [w[0]] + w[1..] == n + w;
    }
  }

  lemma CapitalIsRead(n: string, capital: char, small: string, rest: string)
    requires IsUpper(capital) && LowerWord(small) && AtCapital(rest)
    ensures var t := [capital] + small;
      var tail := if rest == "" then [t] else [t] + Chunks("", rest);
      Chunks(n, t + rest) == if n == "" then tail else [n] + tail
  {
    var t, all := [capital] + small, [capital] + small + rest;
    assert all[0] == capital && all[1] == small[0] && CaseChanges(all[0], all[1]);
    assert all[1..] == small + rest;
    LowersRun([capital], small, rest);
    if n == "" {
      assert n + [capital] == [capital];
      assert Chunks(n, all) == Chunks([capital], small + rest);
    } else {
      assert Chunks(n, all) == [n] + Chunks([capital], small + rest);
    }
  }

  /** A capitalised word of two or more letters always ends the word before it. */
  lemma TitleWordIsRead(n: string, w: string, rest: string)
    requires LowerWord(w) && !CapsLike(w) && AtCapital(rest)
    ensures var t := TranslateWord(w, true);
      var tail := if rest == "" then [t] else [t] + Chunks("", rest);
      Chunks(n, t + rest) == if n == "" then tail else [n] + tail
  {
    TokenForm(w);
    var t := TranslateWord(w, true);
    assert forall i :: 0 <= i < |w| - 1 ==> w[1..][i] == w[i + 1];
    assert t == [t[0]] + w[1..];
    CapitalIsRead(n, t[0], w[1..], rest);
  }

  lemma LowerWordsCons(w: string, rest: seq<string>)
    ensures LowerWords([w] + rest) == [LowerAll(w)] + LowerWords(rest)
  {
    assert LowerWords([w] + rest)[1..] == LowerWords(rest);
  }

  /** Reading the rest of a camelCase name when n is an unfinished word of capitals. */
  lemma {:induction false} PendingIsGlued(n: string, words: seq<string>)
    requires n != "" && SnakeWords(words)
    ensures LowerWords(Chunks(n, CamelWords(words, false))) == Glue(LowerAll(n), true, words)
    decreases |words|
  {
    if words != [] {
      var w, rest := words[0], CamelWords(words[1..], false);
      var t := TranslateWord(w, true);
      TokenForm(w);
      if CapsLike(w) {
        CapitalsRun(n, t, rest);
        PendingIsGlued(n + t, words[1..]);
        assert LowerAll(n + t) == LowerAll(n) + w;
      } else {
        TitleWordIsRead(n, w, rest);
        FreshIsGlued(words);
        TitleWordIsRead("", w, rest);
        LowerWordsCons(n, Chunks("", t + rest));
      }
    }
  }

  lemma TailStartsWithCapital(words: seq<string>)
    requires SnakeWords(words)
    ensures AtCapital(CamelWords(words, false))
    ensures CamelWords(words, false) == "" <==> words == []
  {
    if words != [] {
      TokenForm(words[0]);
    }
  }

  /** Reading the rest of a camelCase name at the start of a word. */
  lemma {:induction false} FreshIsGlued(words: seq<string>)
    requires words != [] && SnakeWords(words)
    ensures LowerWords(Chunks("", CamelWords(words, false))) == GlueWords(words)
    decreases |words|, 0
  {
    var w, rest := words[0], CamelWords(words[1..], false);
    var t := TranslateWord(w, true);
    TokenForm(w);
    TailStartsWithCapital(words[1..]);
    if CapsLike(w) {
      CapitalsRun("", t, rest);
      assert "" + t == t;
      PendingIsGlued(t, words[1..]);
    } else {
      TitleWordIsRead("", w, rest);
      if words[1..] != [] {
        FreshIsGlued(words[1..]);
        LowerWordsCons(t, Chunks("", rest));
      }
    }
  }

  /** A first word of two or more letters is left in lower case. */
  lemma FirstWordIsRead(w: string, rest: string)
    requires LowerWord(w) && |w| > 1 && AtCapital(rest)
    ensures Chunks("", w + rest) == if rest == "" then [w] else [w] + Chunks("", rest)
  {
    assert LowerWord(w[1..]) by {
      assert forall i :: 0 <= i < |w| - 1 ==> w[1..][i] == w[i + 1];
    }
    assert IsLower(w[0]);
    assert (w + rest)[1..] == w[1..] + rest && "" + [w[0]] == [w[0]];
    LowersRun([w[0]], w[1..], rest);
    assert [w[0]] + w[1..] == w;
  }

  /** The whole camelCase name: its first word is not capitalised unless it is an acronym. */
  lemma CamelIsGlued(words: seq<string>)
    requires words != [] && SnakeWords(words)
    ensures LowerWords(Chunks("", CamelWords(words, true))) == GlueWords(words)
  {
    var w, rest := words[0], CamelWords(words[1..], false);
    assert LowerWord(w) && LowerAll(w) == w;
    assert TranslateWord(w, true) == TranslateWord(w, false) || w !in WORD_MAPPING;
    TailStartsWithCapital(words[1..]);
    if w in WORD_MAPPING {
      FreshIsGlued(words);
    } else if |w| == 1 {
      assert IsLower(w[0]);
      assert (w + rest)[1..] == rest && "" + [w[0]] == w;
      PendingIsGlued(w, words[1..]);
    } else {
      FirstWordIsRead(w, rest);
      if words[1..] != [] {
        FreshIsGlued(words[1..]);
        LowerWordsCons(w, Chunks("", rest));
      }
    }
  }

  /** The exact result of the trip, for every name made of lower-case words. */
  lemma SnakeOfCamel(words: seq<string>)
    requires words != [] && SnakeWords(words)
    ensures var glued := GlueWords(words);
      var prefix := if words[0] in WORD_MAPPING && glued[0] !in WORD_MAPPING then "_" else "";
      Snake(Camel(Join(words))) == Some(prefix + Join(glued))
  {
    JoinIsPlain(words);
    PrepareOfPlain(Join(words));
    SplitOfJoin(words);
    CamelWordsArePlain(words, true);
    var camel := CamelWords(words, true);
    PrepareOfPlain(camel);
    CamelIsGlued(words);
    assert LowerWord(words[0]);
    TokenForm(words[0]);
    assert camel[0] == TranslateWord(words[0], false)[0];
  }
}
