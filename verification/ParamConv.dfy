/**
 Parameter-name conversion between camelCase and snake_case
 (operator-sdk/pkg/ansible/paramconv/paramconv.go), for ASCII strings, where
 the byte index and the rune index of Go's `range` coincide.

 `Camel` and `Snake` say what the two converters compute; the methods `ToCamel`
 and `ToSnake` have the loops and the index state of the source.
 */
module ParamConv {
  import opened Wrappers
  import opened Text

  // ---------------------------------------------------------------- characters

  predicate IsDelim(c: char) { c == '_' || c == ' ' || c == '-' }

  /** The characters that the converters must keep: everything but delimiters, up to case. */
  function Content(s: string): string {
    if s == "" then "" else (if IsDelim(s[0]) then "" else [LowerChar(s[0])]) + Content(s[1..])
  }

  // ------------------------------------------------------ first stage: numbers

  function DigitRun(s: string): (n: nat)
    ensures n <= |s|
    ensures forall i :: 0 <= i < n ==> IsDigit(s[i])
    ensures n < |s| ==> !IsDigit(s[n])
  {
    if s != "" && IsDigit(s[0]) then 1 + DigitRun(s[1..]) else 0
  }

  /** The pattern ([a-zA-Z])(\d+)([a-zA-Z](\d+)) matches at the start of s. */
  predicate NumberSequenceAt(s: string) {
    && s != ""
    && IsLetter(s[0])
    && var d := DigitRun(s[1..]);
    && 0 < d
    && 1 + d < |s|
    && IsLetter(s[1 + d])
    && 0 < DigitRun(s[2 + d..])
  }

  /** Where the match at the start of s ends. */
  function MatchEnd(s: string): (e: nat)
    requires NumberSequenceAt(s)
    ensures 2 < e <= |s|
  {
    var d := DigitRun(s[1..]);
    2 + d + DigitRun(s[2 + d..])
  }

  /** "$1 $2 $3" for the match at the start of s. */
  function Replacement(s: string): (r: string)
    requires NumberSequenceAt(s)
    ensures |r| == MatchEnd(s) + 2
    ensures r[0] == s[0] && r[|r| - 1] == s[MatchEnd(s) - 1]
  {
    var d := DigitRun(s[1..]);
    [s[0]] + " " + s[1..1 + d] + " " + s[1 + d..MatchEnd(s)]
  }

  /** Leftmost, non-overlapping replacement of the pattern. */
  function AddWordBoundaries(s: string): string {
    if s == "" then ""
    else if NumberSequenceAt(s) then Replacement(s) + AddWordBoundaries(s[MatchEnd(s)..])
    else [s[0]] + AddWordBoundaries(s[1..])
  }

  function TrimLeft(s: string): string {
    if s != "" && s[0] == ' ' then TrimLeft(s[1..]) else s
  }

  function TrimRight(s: string): string {
    if s != "" && s[|s| - 1] == ' ' then TrimRight(s[..|s| - 1]) else s
  }

  function Prepare(s: string): string {
    TrimRight(TrimLeft(AddWordBoundaries(s)))
  }

  // --------------------------------------------------------------- translation

  const WORD_MAPPING: map<string, string> := map["http" := "HTTP", "url" := "URL", "ip" := "IP"]

  /** strings.Title separates words at every ASCII character but letters, digits and '_'. */
  predicate IsTitleSeparator(c: char) {
    !IsLetter(c) && !IsDigit(c) && c != '_'
  }

  function Title(s: string): string {
    seq(|s|, i requires 0 <= i < |s| =>
      if i == 0 || IsTitleSeparator(s[i - 1]) then UpperChar(s[i]) else s[i])
  }

  function TranslateWord(word: string, initCase: bool): string {
    if word in WORD_MAPPING then WORD_MAPPING[word]
    else if initCase then Title(word)
    else word
  }

  // --------------------------------------------------------------------- camel

  /** The words of s at its delimiters when n is the word read so far. */
  function Split(n: string, s: string): (words: seq<string>)
    ensures words != []
    decreases |s|
  {
    if s == "" then [n]
    else if IsDelim(s[0]) then [n] + Split("", s[1..])
    else Split(n + [s[0]], s[1..])
  }

  function CamelWords(words: seq<string>, first: bool): string {
    if words == [] then "" else TranslateWord(words[0], !first) + CamelWords(words[1..], false)
  }

  function Camel(s: string): string {
    CamelWords(Split("", Prepare(s)), true)
  }

  method CollectWords(t: string) returns (bits: seq<string>)
    ensures bits == Split("", t)
  {
    var n := "";
    bits := [];
    for i := 0 to |t|
      invariant bits + Split(n, t[i..]) == Split("", t)
    {
      assert t[i..][1..] == t[i + 1..];
      if t[i] == '_' || t[i] == ' ' || t[i] == '-' {
        bits := bits + [n];
        n := "";
      } else {
        n := n + [t[i]];
      }
    }
    bits := bits + [n];
  }

  method ToCamel(s: string) returns (ret: string)
    ensures ret == Camel(s)
  {
    var t := Prepare(s);
    var bits := CollectWords(t);
    ret := "";
    for i := 0 to |bits|
      invariant ret + CamelWords(bits[i..], i == 0) == CamelWords(bits, true)
    {
      assert bits[i..][1..] == bits[i + 1..];
      ret := ret + TranslateWord(bits[i], i != 0);
    }
  }

  // --------------------------------------------------------------------- snake

  predicate CaseChanges(v: char, next: char) {
    (IsUpper(v) && IsLower(next)) || (IsLower(v) && IsUpper(next))
  }

  /** The words of s when n is the word read so far, before lower-casing. */
  function Chunks(n: string, s: string): (words: seq<string>)
    ensures words != []
    decreases |s|
  {
    if s == "" then [n]
    else if n != "" && |s| > 1 && CaseChanges(s[0], s[1]) then
      if IsUpper(s[0]) then [n] + Chunks([s[0]], s[1..]) else [n + [s[0]]] + Chunks("", s[1..])
    else if IsDelim(s[0]) then [n] + Chunks("", s[1..])
    else Chunks(n + [s[0]], s[1..])
  }

  function LowerWords(words: seq<string>): (lowered: seq<string>)
    ensures |lowered| == |words|
    ensures forall i :: 0 <= i < |words| ==> lowered[i] == LowerAll(words[i])
  {
    seq(|words|, i requires 0 <= i < |words| => LowerAll(words[i]))
  }

  function Join(words: seq<string>): string
    requires words != []
  {
    if |words| == 1 then words[0] else words[0] + "_" + Join(words[1..])
  }

  function SnakePrefix(t: string, first: string): string
    requires t != ""
  {
    if IsUpper(t[0]) && first !in WORD_MAPPING then "_" else ""
  }

  /** None stands for the run-time panic of indexing an empty string. */
  function Snake(s: string): Option<string> {
    var t := Prepare(s);
    if t == "" then None
    else var words := LowerWords(Chunks("", t)); Some(SnakePrefix(t, words[0]) + Join(words))
  }

  lemma PushWord(words: seq<string>, w: string, rest: seq<string>)
    ensures words + [w] + rest == words + ([w] + rest)
    ensures LowerWords(words + [w]) == LowerWords(words) + [LowerAll(w)]
  {
  }

  /** The main loop of ToSnake: n[|n| - 1] is only read when iReal > 0, and then n is not empty. */
  method CollectChunks(t: string) returns (bits: seq<string>)
    ensures bits == LowerWords(Chunks("", t))
  {
    bits := [];
    ghost var words: seq<string> := [];
    var n := "";
    var iReal := -1;
    for i := 0 to |t|
      invariant iReal == |n| - 1
      invariant n != "" ==> n[|n| - 1] != '_'
      invariant bits == LowerWords(words)
      invariant words + Chunks(n, t[i..]) == Chunks("", t)
    {
      assert t[i..][1..] == t[i + 1..];
      var v := t[i];
      iReal := iReal + 1;
      var nextCaseIsChanged := false;
      if i + 1 < |t| {
        var next := t[i + 1];
        if (IsUpper(v) && IsLower(next)) || (IsLower(v) && IsUpper(next)) {
          nextCaseIsChanged := true;
        }
      }
      if iReal > 0 && n[|n| - 1] != '_' && nextCaseIsChanged {
        if IsUpper(v) {
          bits := bits + [LowerAll(n)];
          PushWord(words, n, Chunks([v], t[i + 1..]));
          words := words + [n];
          n := [v];
          iReal := 0;
        } else if IsLower(v) {
          bits := bits + [LowerAll(n + [v])];
          PushWord(words, n + [v], Chunks("", t[i + 1..]));
          words := words + [n + [v]];
          n := "";
          iReal := -1;
        }
      } else if v == ' ' || v == '_' || v == '-' {
        bits := bits + [LowerAll(n)];
        PushWord(words, n, Chunks("", t[i + 1..]));
        words := words + [n];
        n := "";
        iReal := -1;
      } else {
        n := n + [v];
      }
    }
    bits := bits + [LowerAll(n)];
    PushWord(words, n, []);
    assert words + [n] == Chunks("", t);
  }

  method ToSnake(s: string) returns (r: Option<string>)
    ensures r == Snake(s)
  {
    var t := Prepare(s);
    if t == "" {
      return None;
    }
    var prefix := if 'A' <= t[0] <= 'Z' then "_" else "";
    var bits := CollectChunks(t);
    var joined := Join(bits);
    if bits[0] !in WORD_MAPPING {
      return Some(prefix + joined);
    }
    assert "" + joined == joined;
    return Some(joined);
  }
}
