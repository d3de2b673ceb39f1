// Splitting text into search tokens. A text is a sequence of Unicode characters.
module Tokenizer {

  // White space in the sense of Unicode.
  predicate IsSpace(c: char) {
    || '\t' <= c <= '\r' || c == ' ' || c == '\U{85}' || c == '\U{A0}' || c == '\U{1680}'
    || '\U{2000}' <= c <= '\U{200A}' || c == '\U{2028}' || c == '\U{2029}' || c == '\U{202F}'
    || c == '\U{205F}' || c == '\U{3000}'
  }

  // unicode.ToLower, of which only this is used: it leaves the blank alone.
  type Folding = f: char -> char | f(' ') == ' ' witness (c: char) => c

  function Lower(fold: Folding, s: string): (r: string)
    ensures |r| == |s|
  {
    seq(|s|, i requires 0 <= i < |s| => fold(s[i]))
  }

  // The length of a text in bytes.
  function ByteLength(s: string): nat {
    if s == "" then 0
    else ByteLength(s[..|s| - 1])
         + var c := s[|s| - 1]; if c < '\U{80}' then 1 else if c < '\U{800}' then 2 else if c < '\U{10000}' then 3 else 4
  }

  // The length of the word s starts with.
  function WordLength(s: string): (n: nat)
    ensures n <= |s| && (n < |s| ==> IsSpace(s[n]))
    ensures forall i | 0 <= i < n :: !IsSpace(s[i])
  {
    if s == "" || IsSpace(s[0]) then 0 else 1 + WordLength(s[1..])
  }

  // The words of s: the maximal runs of non-blank characters, in order.
  function Fields(s: string): seq<string> {
    if s == "" then []
    else if IsSpace(s[0]) then Fields(s[1..])
    else [s[..WordLength(s)]] + Fields(s[WordLength(s)..])
  }

  function LongWords(words: seq<string>): seq<string> {
    if words == [] then []
    else LongWords(words[..|words| - 1]) + if ByteLength(words[|words| - 1]) >= 3 then [words[|words| - 1]] else []
  }

  function Tokens(fold: Folding, s: string): seq<string> {
    LongWords(Fields(Lower(fold, s)))
  }

  method Tokenize(fold: Folding, s: string) returns (tokens: seq<string>)
    ensures tokens == Tokens(fold, s)
  {
    var words := Fields(Lower(fold, s));
    tokens := [];
    for i := 0 to |words|
      invariant tokens == LongWords(words[..i])
    {
      assert words[..i + 1][..i] == words[..i];
      if ByteLength(words[i]) >= 3 {
        tokens := tokens + [words[i]];
      }
    }
    assert words[..|words|] == words;
  }

  // A blank behind a text ends its first word at the latest.
  lemma {:induction false} FirstWordKept(a: string, b: string)
    ensures WordLength(a + " " + b) == WordLength(a)
  {
    var s := a + " " + b;
    if a != "" && !IsSpace(a[0]) {
      assert s[1..] == a[1..] + " " + b;
      FirstWordKept(a[1..], b);
    }
  }

  lemma CutBehind(a: string, b: string, n: nat)
    requires n <= |a|
    ensures (a + " " + b)[..n] == a[..n] && (a + " " + b)[n..] == a[n..] + " " + b
  {
  }

  lemma {:induction false} FieldsJoin(a: string, b: string)
    ensures Fields(a + " " + b) == Fields(a) + Fields(b)
    decreases |a|
  {
    var s := a + " " + b;
    if a == "" {
      assert s[1..] == b;
    } else if IsSpace(a[0]) {
      assert s[1..] == a[1..] + " " + b;
      FieldsJoin(a[1..], b);
    } else {
      FirstWordKept(a, b);
      CutBehind(a, b, WordLength(a));
      FieldsJoin(a[WordLength(a)..], b);
    }
  }

  lemma {:induction false} LongWordsJoin(a: seq<string>, b: seq<string>)
    ensures LongWords(a + b) == LongWords(a) + LongWords(b)
  {
    if b == [] {
      assert a + b == a;
    } else {
      assert (a + b)[..|a + b| - 1] == a + b[..|b| - 1];
      LongWordsJoin(a, b[..|b| - 1]);
    }
  }

  // Text joined by a blank has the tokens of its parts.
  lemma TokensJoin(fold: Folding, a: string, b: string)
    ensures Tokens(fold, a + " " + b) == Tokens(fold, a) + Tokens(fold, b)
  {
    assert Lower(fold, a + " " + b) == Lower(fold, a) + " " + Lower(fold, b);
    FieldsJoin(Lower(fold, a), Lower(fold, b));
    LongWordsJoin(Fields(Lower(fold, a)), Fields(Lower(fold, b)));
  }

  lemma {:induction false} FieldsAreWords(s: string, w: string)
    requires w in Fields(s)
    ensures w != "" && forall i | 0 <= i < |w| :: !IsSpace(w[i]) && w[i] in s
    decreases |s|
  {
    if IsSpace(s[0]) {
      FieldsAreWords(s[1..], w);
    } else if w != s[..WordLength(s)] {
      FieldsAreWords(s[WordLength(s)..], w);
    }
  }

  lemma {:induction false} LongWordsIn(words: seq<string>, w: string)
    requires w in LongWords(words)
    ensures w in words && ByteLength(w) >= 3
  {
    if w in LongWords(words[..|words| - 1]) {
      LongWordsIn(words[..|words| - 1], w);
    }
  }

  // A token is one of the words of the lower-cased text, of at least 3 bytes and with no blank.
  lemma TokensAreWords(fold: Folding, s: string, w: string)
    requires w in Tokens(fold, s)
    ensures w in Fields(Lower(fold, s)) && ByteLength(w) >= 3 && forall i | 0 <= i < |w| :: !IsSpace(w[i])
  {
    LongWordsIn(Fields(Lower(fold, s)), w);
    FieldsAreWords(Lower(fold, s), w);
  }

  // ---- every long word is a token -------------------------------------------------------------------------

  ghost predicate NoBlank(w: string) {
    forall i | 0 <= i < |w| :: !IsSpace(w[i])
  }

  lemma {:induction false} RunLength(w: string, after: string)
    requires NoBlank(w) && (after != "" ==> IsSpace(after[0]))
    ensures WordLength(w + after) == |w|
  {
    if w == "" {
      assert w + after == after;
    } else {
      assert (w + after)[0] == w[0] && (w + after)[1..] == w[1..] + after;
      RunLength(w[1..], after);
    }
  }

  lemma DropInFront(before: string, w: string, after: string, n: nat)
    requires n <= |before|
    ensures (before + w + after)[n..] == before[n..] + w + after
  {
  }

  // A run of characters between blanks is a word.
  lemma {:induction false} RunIsField(before: string, w: string, after: string)
    requires w != "" && NoBlank(w)
    requires (before != "" ==> IsSpace(before[|before| - 1])) && (after != "" ==> IsSpace(after[0]))
    ensures w in Fields(before + w + after)
    decreases |before|
  {
    var s := before + w + after;
    if before == "" {
      assert s == w + after && s[0] == w[0];
      RunLength(w, after);
      assert s[..|w|] == w;
    } else if IsSpace(before[0]) {
      DropInFront(before, w, after, 1);
      RunIsField(before[1..], w, after);
    } else {
      var n := WordLength(s);
      assert s[0] == before[0] && s[|before| - 1] == before[|before| - 1];
      DropInFront(before, w, after, n);
      RunIsField(before[n..], w, after);
    }
  }

  lemma {:induction false} LongWordKept(words: seq<string>, w: string)
    requires w in words && ByteLength(w) >= 3
    ensures w in LongWords(words)
  {
    if w != words[|words| - 1] {
      assert w in words[..|words| - 1];
      LongWordKept(words[..|words| - 1], w);
    }
  }

  // Every run of characters of a text that stands between blanks once lower-cased, and then has at
  // least 3 bytes, is a token in lower case.
  lemma LongRunIsToken(fold: Folding, before: string, w: string, after: string, low: string)
    requires |low| == |w| > 0 && forall i | 0 <= i < |w| :: low[i] == fold(w[i]) && !IsSpace(low[i])
    requires ByteLength(low) >= 3
    requires before != "" ==> IsSpace(fold(before[|before| - 1]))
    requires after != "" ==> IsSpace(fold(after[0]))
    ensures low in Tokens(fold, before + w + after)
  {
    LowerOfThree(fold, before, w, after, low);
    RunIsToken(fold, before + w + after, Lower(fold, before), low, Lower(fold, after));
  }

  lemma LowerOfThree(fold: Folding, before: string, w: string, after: string, low: string)
    requires |low| == |w| && forall i | 0 <= i < |w| :: low[i] == fold(w[i])
    ensures Lower(fold, before + w + after) == Lower(fold, before) + low + Lower(fold, after)
  {
  }

  lemma RunIsToken(fold: Folding, s: string, a: string, low: string, b: string)
    requires Lower(fold, s) == a + low + b && low != "" && NoBlank(low) && ByteLength(low) >= 3
    requires (a != "" ==> IsSpace(a[|a| - 1])) && (b != "" ==> IsSpace(b[0]))
    ensures low in Tokens(fold, s)
  {
    RunIsField(a, low, b);
    LongWordKept(Fields(Lower(fold, s)), low);
  }
}
