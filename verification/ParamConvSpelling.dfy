/**
 Two habits of the converters that show only on names with other characters than letters
 and delimiters: spaces around a name are ignored, and punctuation inside a word starts a
 new capital (operator-sdk/pkg/ansible/paramconv/paramconv.go).
 */
module ParamConvSpelling {
  import opened Wrappers
  import opened Text
  import opened ParamConv
  import opened ParamConvProperties
  import opened ParamConvIdempotence
  import opened ParamConvRoundTrip

  // ---------------------------------------------------------------- outer spaces

  lemma SpaceBefore(s: string)
    ensures AddWordBoundaries(" " + s) == " " + AddWordBoundaries(s)
  {
    assert (" " + s)[1..] == s;
  }

  lemma DigitsBeforeSpace(s: string)
    ensures DigitRun(s + " ") == DigitRun(s)
  {
    DigitRunConcat(s, " ");
  }

  lemma MatchBeforeSpace(s: string)
    requires NumberSequenceAt(s)
    ensures NumberSequenceAt(s + " ")
    ensures DigitRun((s + " ")[1..]) == DigitRun(s[1..]) && MatchEnd(s + " ") == MatchEnd(s)
  {
    MatchStaysBefore(s, " ");
    var d := DigitRun(s[1..]);
    assert (s + " ")[1..] == s[1..] + " ";
    DigitsBeforeSpace(s[1..]);
    assert (s + " ")[2 + d..] == s[2 + d..] + " ";
    DigitsBeforeSpace(s[2 + d..]);
  }

  lemma ReplacementBeforeSpace(s: string, t: string)
    requires t == s + " " && NumberSequenceAt(s) && NumberSequenceAt(t)
    requires DigitRun(t[1..]) == DigitRun(s[1..]) && MatchEnd(t) == MatchEnd(s)
    ensures Replacement(t) == Replacement(s)
  {
    var d, e := DigitRun(s[1..]), MatchEnd(s);
    assert t[1..1 + d] == s[1..1 + d];
    assert t[1 + d..e] == s[1 + d..e];
  }

  lemma {:induction false} SpaceAfter(s: string)
    ensures AddWordBoundaries(s + " ") == AddWordBoundaries(s) + " "
    decreases |s|
  {
    if s == "" {
      assert s + " " == " " && " "[1..] == "";
    } else {
      MatchStaysBefore(s, " ");
      if NumberSequenceAt(s) {
        var e := MatchEnd(s);
        MatchBeforeSpace(s);
        ReplacementBeforeSpace(s, s + " ");
        assert (s + " ")[e..] == s[e..] + " ";
        SpaceAfter(s[e..]);
        assert Replacement(s) + (AddWordBoundaries(s[e..]) + " ") == Replacement(s) + AddWordBoundaries(s[e..]) + " ";
      } else {
        assert (s + " ")[1..] == s[1..] + " ";
        SpaceAfter(s[1..]);
        assert [s[0]] + (AddWordBoundaries(s[1..]) + " ") == [s[0]] + AddWordBoundaries(s[1..]) + " ";
      }
    }
  }

  lemma {:induction false} TrimLeftBefore(s: string)
    ensures TrimLeft(s + " ") == if TrimLeft(s) == "" then "" else TrimLeft(s) + " "
  {
    if s == "" {
      assert s + " " == " " && " "[1..] == "";
    } else {
      assert (s + " ")[1..] == s[1..] + " ";
      if s[0] == ' ' {
        TrimLeftBefore(s[1..]);
      }
    }
  }

  lemma OneSpaceIsTrimmed(s: string)
    ensures Prepare(" " + s) == Prepare(s) == Prepare(s + " ")
  {
    var t := AddWordBoundaries(s);
    SpaceBefore(s);
    SpaceAfter(s);
    assert (" " + t)[1..] == t;
    TrimLeftBefore(t);
    var l := TrimLeft(t);
    assert (l + " ")[..|l|] == l;
  }

  lemma {:induction false} SpacesAreTrimmed(before: string, s: string, after: string)
    requires Blank(before) && Blank(after)
    ensures Prepare(before + s + after) == Prepare(s)
    decreases |before| + |after|
  {
    if before != "" {
      var rest := before[1..];
      assert before + s + after == " " + (rest + s + after);
      OneSpaceIsTrimmed(rest + s + after);
      SpacesAreTrimmed(rest, s, after);
    } else if after != "" {
      var rest := after[..|after| - 1];
      assert before + s + after == s + rest + " " && before + s + rest == s + rest;
      OneSpaceIsTrimmed(s + rest);
      SpacesAreTrimmed(before, s, rest);
    } else {
      assert before + s + after == s;
    }
  }

  /** Spaces around a name make no difference, numbers at its ends or not. */
  lemma OuterSpacesDoNotMatter(before: string, s: string, after: string)
    requires Blank(before) && Blank(after)
    ensures Camel(before + s + after) == Camel(s)
    ensures Snake(before + s + after) == Snake(s)
  {
    SpacesAreTrimmed(before, s, after);
  }

  // ----------------------------------------------------------------- punctuation

  /** Neither a letter nor a digit nor a delimiter. */
  predicate IsPunctuation(c: char) {
    !IsLetter(c) && !IsDigit(c) && !IsDelim(c)
  }

  function Capitalised(w: string): string
    requires w != ""
  {
    [UpperChar(w[0])] + w[1..]
  }

  lemma TitleOfDotted(a: string, c: char, b: string)
    requires LowerWord(a) && LowerWord(b) && IsPunctuation(c)
    ensures TranslateWord(a + [c] + b, true) == Capitalised(a) + [c] + Capitalised(b)
  {
    var w, r := a + [c] + b, Capitalised(a) + [c] + Capitalised(b);
    assert w[|a|] == c;
    forall i | 0 <= i < |w| ensures Title(w)[i] == r[i] {
      assert 0 < i < |a| ==> w[i - 1] == a[i - 1];
      assert i > |a| + 1 ==> w[i - 1] == b[i - |a| - 2];
    }
    assert Title(w) == r;
  }

  lemma DottedIsPlain(first: string, a: string, c: char, b: string)
    requires LowerWord(first) && LowerWord(a) && LowerWord(b) && IsPunctuation(c)
    ensures DelimFree(first) && DelimFree(a + [c] + b) && Plain(first + "_" + (a + [c] + b))
    ensures a + [c] + b !in WORD_MAPPING
  {
    assert (a + [c] + b)[|a|] == c;
  }

  /**
   A word is capitalised after any punctuation in it, not only at its start; the first word
   of a name is left alone.
   */
  lemma PunctuationStartsACapital(first: string, a: string, c: char, b: string)
    requires LowerWord(first) && LowerWord(a) && LowerWord(b) && IsPunctuation(c)
    ensures Camel(first + "_" + (a + [c] + b)) ==
            TranslateWord(first, false) + (Capitalised(a) + [c] + Capitalised(b))
    ensures Camel(a + [c] + b) == a + [c] + b
  {
    var w := a + [c] + b;
    DottedIsPlain(first, a, c, b);
    PrepareOfPlain(first + "_" + w);
    assert Join([first, w]) == first + "_" + w by {
      assert [first, w][1..] == [w];
    }
    SplitOfJoin([first, w]);
    assert [first, w][1..] == [w] && [w][1..] == [];
    TitleOfDotted(a, c, b);
    assert CamelWords([w], false) == TranslateWord(w, true) + "" == TranslateWord(w, true);
    PrepareOfPlain(w);
    SplitOfJoin([w]);
    assert CamelWords([w], true) == TranslateWord(w, false) + "" == w;
  }
}
