// Cleaning the text of a message: tags out, blanks off, cut to length. A string is a sequence
// of bytes.
module Sanitizer {

  const MAX_TEXT_CONTENT_LEN: nat := 5000

  // A match of the pattern <[^>]+> and nothing more.
  predicate IsTag(t: string) {
    && |t| >= 3 && t[0] == '<' && t[|t| - 1] == '>'
    && forall i | 0 < i < |t| - 1 :: t[i] != '>'
  }

  ghost predicate HasTag(s: string) {
    exists i, j | 0 <= i <= j <= |s| :: IsTag(s[i..j])
  }

  // Where c first stands in s.
  function IndexOf(s: string, c: char): (n: nat)
    ensures n <= |s| && (n < |s| ==> s[n] == c) && forall i | 0 <= i < n :: s[i] != c
  {
    if s == "" || s[0] == c then 0 else 1 + IndexOf(s[1..], c)
  }

  // The length of the tag s starts with, or 0.
  function TagLength(s: string): (n: nat)
    ensures n <= |s| && (n > 0 ==> IsTag(s[..n]))
  {
    var close := IndexOf(s, '>');
    if s != "" && s[0] == '<' && 1 < close < |s| then close + 1 else 0
  }

  // Every match removed, from the left.
  function StripTags(s: string): string {
    if s == "" then ""
    else if TagLength(s) > 0 then StripTags(s[TagLength(s)..])
    else [s[0]] + StripTags(s[1..])
  }

  // ---- what is left has no tag --------------------------------------------------------------------------------

  // Every < is closed at once or never.
  ghost predicate NoTagOpens(s: string) {
    forall i | 0 <= i < |s| && s[i] == '<' :: (i + 1 < |s| && s[i + 1] == '>') || '>' !in s[i..]
  }

  lemma NoTagIff(s: string)
    ensures HasTag(s) <==> !NoTagOpens(s)
  {
    if HasTag(s) {
      var i, j :| 0 <= i <= j <= |s| && IsTag(s[i..j]);
      assert s[i] == s[i..j][0] && s[i + 1] == s[i..j][1];
      assert s[j - 1] == s[i..j][j - 1 - i];
      assert s[i..][j - 1 - i] == s[j - 1];
    }
    if !NoTagOpens(s) {
      var i :| 0 <= i < |s| && s[i] == '<' && !(i + 1 < |s| && s[i + 1] == '>') && '>' in s[i..];
      var n := TagLength(s[i..]);
      assert s[i..][1] == s[i + 1];
      assert s[i..][..n] == s[i..i + n];
    }
  }

  lemma {:induction false} StripKeepsOnly(s: string, c: char)
    ensures c in StripTags(s) ==> c in s
  {
    if s != "" {
      if TagLength(s) > 0 {
        StripKeepsOnly(s[TagLength(s)..], c);
      } else {
        StripKeepsOnly(s[1..], c);
      }
    }
  }

  lemma {:induction false} StrippedOpensNoTag(s: string)
    ensures NoTagOpens(StripTags(s))
  {
    if s != "" {
      var n := TagLength(s);
      if n > 0 {
        StrippedOpensNoTag(s[n..]);
      } else {
        var rest := StripTags(s[1..]);
        StrippedOpensNoTag(s[1..]);
        assert StripTags(s) == [s[0]] + rest;
        if s[0] == '<' {
          StripKeepsOnly(s[1..], '>');
          if |s| > 1 && s[1] == '>' {
            assert rest[0] == '>';
          } else {
            assert '>' !in s[1..];
          }
        }
        OneMoreOpensNoTag(s[0], rest);
      }
    }
  }

  lemma OneMoreOpensNoTag(c: char, rest: string)
    requires NoTagOpens(rest) && (c == '<' ==> (rest != "" && rest[0] == '>') || '>' !in rest)
    ensures NoTagOpens([c] + rest)
  {
    var s := [c] + rest;
    forall i | 0 <= i < |s| && s[i] == '<' ensures (i + 1 < |s| && s[i + 1] == '>') || '>' !in s[i..] {
      if i > 0 {
        assert s[i..] == rest[i - 1..];
      }
    }
  }

  lemma NoTagHere(s: string)
    requires NoTagOpens(s)
    ensures TagLength(s) == 0
  {
    if s != "" && s[0] == '<' {
      var close := IndexOf(s, '>');
      if |s| > 1 && s[1] == '>' {
        assert close <= 1;
      } else {
        assert s[0..] == s && '>' !in s;
        assert close == |s|;
      }
    }
  }

  lemma {:induction false} NothingToStrip(s: string)
    requires NoTagOpens(s)
    ensures StripTags(s) == s
  {
    if s != "" {
      NoTagHere(s);
      var rest := s[1..];
      forall i | 0 <= i < |rest| && rest[i] == '<' ensures (i + 1 < |rest| && rest[i + 1] == '>') || '>' !in rest[i..] {
        assert rest[i..] == s[i + 1..];
      }
      NothingToStrip(rest);
    }
  }

  // Stripping leaves no tag, and leaves a text without tags as it is; so it is idempotent.
  lemma StripIsNormalForm(s: string)
    ensures !HasTag(StripTags(s))
    ensures StripTags(s) == s <==> !HasTag(s)
    ensures StripTags(StripTags(s)) == StripTags(s)
  {
    StrippedOpensNoTag(s);
    NoTagIff(s);
    NoTagIff(StripTags(s));
    NothingToStrip(StripTags(s));
    if !HasTag(s) {
      NothingToStrip(s);
    }
  }

  lemma KeptInFront(c: char, s: string)
    requires c != '<'
    ensures StripTags([c] + s) == [c] + StripTags(s)
  {
    assert ([c] + s)[1..] == s;
  }

  lemma SplitFirst(before: string, s: string)
    requires before != ""
    ensures before + s == [before[0]] + (before[1..] + s)
  {
  }

  lemma {:induction false} KeptBefore(before: string, s: string)
    requires '<' !in before
    ensures StripTags(before + s) == before + StripTags(s)
  {
    if before == "" {
      assert before + s == s && before + StripTags(s) == StripTags(s);
    } else {
      assert before[0] in before && forall c | c in before[1..] :: c in before;
      KeptBefore(before[1..], s);
      KeptInFront(before[0], before[1..] + s);
      SplitFirst(before, s);
      SplitFirst(before, StripTags(s));
    }
  }

  // What is removed: the first tag whole, and nothing before it.
  lemma StripDropsTag(before: string, tag: string, after: string)
    requires '<' !in before && IsTag(tag)
    ensures StripTags(before + (tag + after)) == before + StripTags(after)
  {
    KeptBefore(before, tag + after);
    FirstTag(tag, after);
  }

  lemma FirstTag(tag: string, after: string)
    requires IsTag(tag)
    ensures StripTags(tag + after) == StripTags(after)
  {
    var s := tag + after;
    assert s[0] == '<' && s[|tag| - 1] == '>';
    assert forall i | 0 < i < |tag| - 1 :: s[i] == tag[i];
    assert TagLength(s) == |tag|;
    assert s[|tag|..] == after;
  }

  // ---- blanks ---------------------------------------------------------------------------------------------------

  // The encoding of one white-space character.
  predicate IsSpace(w: string) {
    match |w|
    case 1 => w[0] in "\t\n\r " || w[0] == 11 as char || w[0] == 12 as char
    case 2 => w[0] == 0xC2 as char && (w[1] == 0x85 as char || w[1] == 0xA0 as char)
    case 3 =>
      || (w[0] == 0xE1 as char && w[1] == 0x9A as char && w[2] == 0x80 as char)
      || (w[0] == 0xE2 as char && w[1] == 0x80 as char
          && (0x80 as char <= w[2] <= 0x8A as char || w[2] == 0xA8 as char || w[2] == 0xA9 as char || w[2] == 0xAF as char))
      || (w[0] == 0xE2 as char && w[1] == 0x81 as char && w[2] == 0x9F as char)
      || (w[0] == 0xE3 as char && w[1] == 0x80 as char && w[2] == 0x80 as char)
    case _ => false
  }

  // The length of the white-space character at the front, or at the back, or 0.
  function LeadingSpace(s: string): (n: nat)
    ensures n <= |s|
  {
    if |s| >= 1 && IsSpace(s[..1]) then 1
    else if |s| >= 2 && IsSpace(s[..2]) then 2
    else if |s| >= 3 && IsSpace(s[..3]) then 3
    else 0
  }

  function TrailingSpace(s: string): (n: nat)
    ensures n <= |s|
  {
    if |s| >= 1 && IsSpace(s[|s| - 1..]) then 1
    else if |s| >= 2 && IsSpace(s[|s| - 2..]) then 2
    else if |s| >= 3 && IsSpace(s[|s| - 3..]) then 3
    else 0
  }

  function TrimLeft(s: string): string {
    if LeadingSpace(s) == 0 then s else TrimLeft(s[LeadingSpace(s)..])
  }

  function TrimRight(s: string): string {
    if TrailingSpace(s) == 0 then s else TrimRight(s[..|s| - TrailingSpace(s)])
  }

  function TrimSpace(s: string): string {
    TrimRight(TrimLeft(s))
  }

  lemma {:induction false} TrimLeftIsSuffix(s: string)
    ensures LeadingSpace(TrimLeft(s)) == 0
    ensures |TrimLeft(s)| <= |s| && TrimLeft(s) == s[|s| - |TrimLeft(s)|..]
  {
    if LeadingSpace(s) > 0 {
      TrimLeftIsSuffix(s[LeadingSpace(s)..]);
    }
  }

  lemma {:induction false} TrimRightIsPrefix(s: string)
    ensures TrailingSpace(TrimRight(s)) == 0
    ensures |TrimRight(s)| <= |s| && TrimRight(s) == s[..|TrimRight(s)|]
  {
    if TrailingSpace(s) > 0 {
      TrimRightIsPrefix(s[..|s| - TrailingSpace(s)]);
    }
  }

  lemma PrefixLeadsTheSame(s: string, n: nat)
    requires n <= |s| && LeadingSpace(s) == 0
    ensures LeadingSpace(s[..n]) == 0
  {
    assert n >= 1 ==> s[..n][..1] == s[..1];
    assert n >= 2 ==> s[..n][..2] == s[..2];
    assert n >= 3 ==> s[..n][..3] == s[..3];
  }

  lemma PrefixOfSuffix(s: string, k: nat, m: nat)
    requires k + m <= |s|
    ensures s[k..][..m] == s[k..k + m]
  {
  }

  // White-space characters and nothing else.
  ghost predicate Spaces(w: string) {
    w == "" || exists n | 1 <= n <= |w| :: IsSpace(w[..n]) && Spaces(w[n..])
  }

  lemma CutSum(a: string, b: string, n: nat)
    requires n <= |a|
    ensures (a + b)[..n] == a[..n] && (a + b)[n..] == a[n..] + b
  {
  }

  lemma SpaceFirst(w: string, n: nat)
    requires 1 <= n <= |w| && IsSpace(w[..n]) && Spaces(w[n..])
    ensures Spaces(w)
  {
  }

  lemma {:induction false} OneSpaceMore(a: string, b: string)
    requires Spaces(a) && IsSpace(b)
    ensures Spaces(a + b)
  {
    if a == "" {
      assert b[..|b|] == b && b[|b|..] == "" && a + b == b;
      SpaceFirst(b, |b|);
    } else {
      var n :| 1 <= n <= |a| && IsSpace(a[..n]) && Spaces(a[n..]);
      OneSpaceMore(a[n..], b);
      CutSum(a, b, n);
      SpaceFirst(a + b, n);
    }
  }

  lemma {:induction false} OnlySpaceInFront(s: string)
    ensures |TrimLeft(s)| <= |s| && Spaces(s[..|s| - |TrimLeft(s)|])
  {
    var n := LeadingSpace(s);
    if n > 0 {
      OnlySpaceInFront(s[n..]);
      TrimLeftIsSuffix(s[n..]);
      var k := |s| - |TrimLeft(s)|;
      assert s[n..][..k - n] == s[..k][n..] && s[..k][..n] == s[..n];
    }
  }

  lemma SplitTail(s: string, m: nat, k: nat)
    requires m <= k <= |s|
    ensures s[m..] == s[..k][m..] + s[k..]
  {
  }

  lemma {:induction false} OnlySpaceBehind(s: string)
    ensures |TrimRight(s)| <= |s| && Spaces(s[|TrimRight(s)|..])
  {
    var n := TrailingSpace(s);
    if n > 0 {
      var k := |s| - n;
      var shorter, m := s[..k], |TrimRight(s)|;
      OnlySpaceBehind(shorter);
      assert m == |TrimRight(shorter)| && IsSpace(s[k..]);
      OneSpaceMore(shorter[m..], s[k..]);
      SplitTail(s, m, k);
    }
  }

  // r stands in s from position i on.
  ghost predicate StandsAt(r: string, s: string, i: nat) {
    i + |r| <= |s| && r == s[i..i + |r|]
  }

  // r is s without the white space at its ends: it stands there from i on, has none at its own
  // ends, and outside it there is nothing else.
  ghost predicate IsTrimmed(r: string, s: string, i: nat) {
    && StandsAt(r, s, i) && LeadingSpace(r) == 0 && TrailingSpace(r) == 0
    && Spaces(s[..i]) && Spaces(s[i + |r|..])
  }

  lemma SuffixThenPrefix(s: string, left: string, r: string, i: nat)
    requires i <= |s| && left == s[i..] && |r| <= |left| && r == left[..|r|] && LeadingSpace(left) == 0
    requires Spaces(s[..i]) && Spaces(left[|r|..]) && TrailingSpace(r) == 0
    ensures IsTrimmed(r, s, i)
  {
    PrefixOfSuffix(s, i, |r|);
    PrefixLeadsTheSame(left, |r|);
    assert left[|r|..] == s[i + |r|..];
  }

  // Trimming does just that.
  lemma TrimIsStretch(s: string) returns (i: nat)
    ensures IsTrimmed(TrimSpace(s), s, i)
  {
    i := LeftPart(s);
    TrimRightIsPrefix(TrimLeft(s));
    OnlySpaceBehind(TrimLeft(s));
    SuffixThenPrefix(s, TrimLeft(s), TrimRight(TrimLeft(s)), i);
  }

  lemma LeftPart(s: string) returns (i: nat)
    ensures i <= |s| && TrimLeft(s) == s[i..] && LeadingSpace(TrimLeft(s)) == 0 && Spaces(s[..i])
  {
    TrimLeftIsSuffix(s);
    OnlySpaceInFront(s);
    i := |s| - |TrimLeft(s)|;
  }

  lemma StretchOfStretch(s: string, i: nat, j: nat, a: nat, b: nat)
    requires i <= j <= |s| && a <= b <= j - i
    ensures s[i..j][a..b] == s[i + a..i + b]
  {
    var t := s[i..j];
    forall k | 0 <= k < b - a ensures t[a..b][k] == s[i + a..i + b][k] {
      assert t[a..b][k] == t[a + k] == s[i + a + k];
    }
  }

  lemma StretchHasNoTag(s: string, i: nat, j: nat)
    requires i <= j <= |s| && !HasTag(s)
    ensures !HasTag(s[i..j])
  {
    if HasTag(s[i..j]) {
      var a: nat, b: nat :| a <= b <= |s[i..j]| && IsTag(s[i..j][a..b]);
      StretchOfStretch(s, i, j, a, b);
    }
  }

  // ---- the whole --------------------------------------------------------------------------------------------------

  function Cut(s: string): string {
    if |s| > MAX_TEXT_CONTENT_LEN then s[..MAX_TEXT_CONTENT_LEN] else s
  }

  function SanitizeText(s: string): (r: (string, bool)) {
    var clean := Cut(TrimSpace(StripTags(s)));
    (clean, clean != "")
  }

  lemma TrimHasNoTag(s: string)
    requires !HasTag(s)
    ensures !HasTag(TrimSpace(s))
  {
    var i := TrimIsStretch(s);
    StretchHasNoTag(s, i, i + |TrimSpace(s)|);
  }

  lemma CutHasNoTag(s: string)
    requires !HasTag(s)
    ensures !HasTag(Cut(s))
  {
    StretchHasNoTag(s, 0, |Cut(s)|);
    assert Cut(s) == s[0..|Cut(s)|];
  }

  // No tag and no overlong text comes out; and it is refused exactly when only tags and white
  // space went in.
  lemma SanitizedIsClean(s: string)
    ensures !HasTag(SanitizeText(s).0) && |SanitizeText(s).0| <= MAX_TEXT_CONTENT_LEN
    ensures SanitizeText(s).0 <= TrimSpace(StripTags(s))
    ensures SanitizeText(s).0 == TrimSpace(StripTags(s)) || |SanitizeText(s).0| == MAX_TEXT_CONTENT_LEN
    ensures SanitizeText(s).1 <==> TrimSpace(StripTags(s)) != ""
    ensures SanitizeText(s).1 <==> SanitizeText(s).0 != ""
  {
    StripIsNormalForm(s);
    TrimHasNoTag(StripTags(s));
    CutHasNoTag(TrimSpace(StripTags(s)));
  }

  // A second pass changes something exactly when the cut left white space at the end.
  lemma IdempotentIff(s: string)
    ensures var trimmed := TrimSpace(StripTags(s));
            SanitizeText(SanitizeText(s).0) == SanitizeText(s) <==>
            |trimmed| <= MAX_TEXT_CONTENT_LEN || TrailingSpace(trimmed[..MAX_TEXT_CONTENT_LEN]) == 0
  {
    var trimmed, once := TrimSpace(StripTags(s)), SanitizeText(s).0;
    var i := TrimIsStretch(StripTags(s));
    SanitizedIsClean(s);
    StripIsNormalForm(once);
    PrefixLeadsTheSame(trimmed, |once|);
    assert once == trimmed[..|once|];
    assert TrimLeft(once) == once;
    if TrailingSpace(once) == 0 {
      assert TrimRight(once) == once;
    } else {
      TrimRightIsPrefix(once);
      assert TrimRight(once) != once;
    }
  }

  // 4999 letters, a blank and a letter: the cut leaves the blank at the end.
  const OVERLONG: string := seq(MAX_TEXT_CONTENT_LEN + 1, i => if i == MAX_TEXT_CONTENT_LEN - 1 then ' ' else 'a')

  lemma LetterIsNoSpace(w: string)
    requires w != "" && (w[0] == 'a' || w[|w| - 1] == 'a')
    ensures !IsSpace(w)
  {
  }

  lemma NoSpaceOutside(s: string)
    requires |s| >= 3 && s[0] == 'a' && s[|s| - 1] == 'a'
    ensures LeadingSpace(s) == 0 && TrailingSpace(s) == 0
  {
    LetterIsNoSpace(s[..1]);
    LetterIsNoSpace(s[..2]);
    LetterIsNoSpace(s[..3]);
    LetterIsNoSpace(s[|s| - 1..]);
    LetterIsNoSpace(s[|s| - 2..]);
    LetterIsNoSpace(s[|s| - 3..]);
  }

  lemma LettersOnTheOutside(s: string)
    requires |s| >= 3 && forall i | 0 <= i < |s| :: s[i] == 'a' || s[i] == ' '
    requires s[0] == 'a' && s[|s| - 1] == 'a'
    ensures TrimSpace(s) == s && StripTags(s) == s
  {
    NoSpaceOutside(s);
    NothingToStrip(s);
  }

  lemma BlankAtTheEnd(s: string)
    requires s != "" && s[|s| - 1] == ' '
    ensures TrailingSpace(s) == 1
  {
    var last := s[|s| - 1..];
    assert |last| == 1 && last[0] == ' ';
    assert IsSpace(last);
  }

  // So a second pass does change the output of the first.
  lemma SecondPassChanges()
    ensures SanitizeText(SanitizeText(OVERLONG).0) != SanitizeText(OVERLONG)
  {
    LettersOnTheOutside(OVERLONG);
    var cut := OVERLONG[..MAX_TEXT_CONTENT_LEN];
    assert |cut| == MAX_TEXT_CONTENT_LEN && cut[|cut| - 1] == ' ';
    BlankAtTheEnd(cut);
    IdempotentIff(OVERLONG);
  }
}
