/** String operations shared by the text components: substring search, replacement,
    trimming, and the decimal form of an integer as SQLite prints it. */
module Strings {

  datatype Option<+T> = None | Some(value: T)

  /** `needle` occurs in `text` at offset `i`. */
  predicate At(text: string, needle: string, i: nat) {
    i + |needle| <= |text| && text[i..i + |needle|] == needle
  }

  predicate Contains(text: string, needle: string) {
    exists i: nat :: i <= |text| && At(text, needle, i)
  }

  predicate HasPrefix(text: string, prefix: string) {
    |prefix| <= |text| && text[..|prefix|] == prefix
  }

  predicate HasSuffix(text: string, suffix: string) {
    |suffix| <= |text| && text[|text| - |suffix|..] == suffix
  }

  /** Go's strings.ReplaceAll for a non-empty `pat`: leftmost, non-overlapping. */
  function ReplaceAll(text: string, pat: string, sub: string): string
    requires pat != []
  {
    if |text| < |pat| then text
    else if text[..|pat|] == pat then sub + ReplaceAll(text[|pat|..], pat, sub)
    else [text[0]] + ReplaceAll(text[1..], pat, sub)
  }

  /** Unicode white space, as Go's strings.TrimSpace defines it. */
  predicate IsSpace(c: char) {
    var n := c as int;
    9 <= n <= 13 || n == 32 || n == 0x85 || n == 0xA0 || n == 0x1680 || 0x2000 <= n <= 0x200A
    || n == 0x2028 || n == 0x2029 || n == 0x202F || n == 0x205F || n == 0x3000
  }

  function TrimLeft(s: string): (r: string)
    ensures |r| <= |s| && r == s[|s| - |r|..]
    ensures r != [] ==> !IsSpace(r[0])
  {
    if s != [] && IsSpace(s[0]) then TrimLeft(s[1..]) else s
  }

  function TrimRight(s: string): (r: string)
    ensures |r| <= |s| && r == s[..|r|]
    ensures r != [] ==> !IsSpace(r[|r| - 1])
  {
    if s != [] && IsSpace(s[|s| - 1]) then TrimRight(s[..|s| - 1]) else s
  }

  /** Go's strings.TrimSpace. */
  function TrimSpace(s: string): (r: string)
    ensures |r| <= |s|
  {
    TrimRight(TrimLeft(s))
  }

  predicate Spaces(s: string) {
    forall i | 0 <= i < |s| :: IsSpace(s[i])
  }

  lemma {:induction false} TrimLeftSpaces(s: string)
    ensures Spaces(s[..|s| - |TrimLeft(s)|])
  {
    if s != [] && IsSpace(s[0]) {
      TrimLeftSpaces(s[1..]);
      var k := |s| - |TrimLeft(s)|;
      assert s[..k] == [s[0]] + s[1..][..k - 1];
    }
  }

  lemma TrimLeftIs(s: string) returns (before: string)
    ensures s == before + TrimLeft(s) && Spaces(before)
  {
    before := s[..|s| - |TrimLeft(s)|];
    TrimLeftSpaces(s);
  }

  lemma {:induction false} TrimRightSpaces(s: string)
    ensures Spaces(s[|TrimRight(s)|..])
  {
    if s != [] && IsSpace(s[|s| - 1]) {
      TrimRightSpaces(s[..|s| - 1]);
      var k := |TrimRight(s)|;
      assert s[k..] == s[..|s| - 1][k..] + [s[|s| - 1]];
    }
  }

  lemma TrimRightIs(s: string) returns (after: string)
    ensures s == TrimRight(s) + after && Spaces(after)
  {
    after := s[|TrimRight(s)|..];
    TrimRightSpaces(s);
  }

  lemma ConcatAssociative(a: string, b: string, c: string)
    ensures a + (b + c) == a + b + c
  {
  }

  /** What is trimmed off is white space. */
  lemma TrimSpaceIs(s: string) returns (before: string, after: string)
    ensures s == before + TrimSpace(s) + after && Spaces(before) && Spaces(after)
  {
    before := TrimLeftIs(s);
    after := TrimRightIs(TrimLeft(s));
    ConcatAssociative(before, TrimSpace(s), after);
  }

  lemma {:induction false} TrimLeftOf(before: string, text: string)
    requires Spaces(before) && (text != [] ==> !IsSpace(text[0]))
    ensures TrimLeft(before + text) == text
  {
    if before == [] {
      assert before + text == text;
    } else {
      assert (before + text)[1..] == before[1..] + text;
      TrimLeftOf(before[1..], text);
    }
  }

  lemma {:induction false} TrimRightOf(text: string, after: string)
    requires Spaces(after) && (text != [] ==> !IsSpace(text[|text| - 1]))
    ensures TrimRight(text + after) == text
  {
    if after == [] {
      assert text + after == text;
    } else {
      assert (text + after)[..|text + after| - 1] == text + after[..|after| - 1];
      TrimRightOf(text, after[..|after| - 1]);
    }
  }

  /** White space around a trimmed text is all that is trimmed off. */
  lemma TrimSpaceOf(before: string, text: string, after: string)
    requires Spaces(before) && Spaces(after) && Trimmed(text) && text != []
    ensures TrimSpace(before + text + after) == text
  {
    ConcatAssociative(before, text, after);
    assert (text + after)[0] == text[0];
    TrimLeftOf(before, text + after);
    TrimRightOf(text, after);
  }

  predicate Trimmed(s: string) {
    s != [] ==> !IsSpace(s[0]) && !IsSpace(s[|s| - 1])
  }

  lemma TrimSpaceFixes(s: string)
    ensures TrimSpace(s) == s <==> Trimmed(s)
  {
  }

  predicate IsDigit(c: char) { '0' <= c <= '9' }

  function Digit(d: nat): (c: char)
    requires d < 10
    ensures IsDigit(c) && c as int - '0' as int == d
  {
    ('0' as int + d) as char
  }

  /** The decimal form of a row id. */
  function Decimal(n: nat): (s: string)
    ensures s != [] && forall i | 0 <= i < |s| :: IsDigit(s[i])
  {
    if n < 10 then [Digit(n)] else Decimal(n / 10) + [Digit(n % 10)]
  }

  lemma {:induction false} DecimalInjective(a: nat, b: nat)
    requires Decimal(a) == Decimal(b)
    ensures a == b
  {
    var s, t := Decimal(a), Decimal(b);
    assert s[|s| - 1] == Digit(a % 10) && t[|t| - 1] == Digit(b % 10);
    if a >= 10 && b >= 10 {
      assert s[..|s| - 1] == Decimal(a / 10) && t[..|t| - 1] == Decimal(b / 10);
      DecimalInjective(a / 10, b / 10);
    }
  }
}
