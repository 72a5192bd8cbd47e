/** SQLite's LIKE operator and the escaping of user terms placed inside a LIKE pattern. */
module Like {
  import opened Strings

  /** LIKE ignores the case of ASCII letters only. */
  function Fold(c: char): char {
    if 'A' <= c <= 'Z' then (c as int + 32) as char else c
  }

  /** `text LIKE pattern ESCAPE escape`; `escape` is None when the clause is absent. */
  predicate Matches(pattern: string, text: string, escape: Option<char>)
    decreases |pattern| + |text|
  {
    if pattern == [] then text == []
    else if pattern[0] == '%' then
      Matches(pattern[1..], text, escape) || (text != [] && Matches(pattern, text[1..], escape))
    else if escape == Some(pattern[0]) then
      |pattern| >= 2 && text != [] && Fold(pattern[1]) == Fold(text[0]) && Matches(pattern[2..], text[1..], escape)
    else if pattern[0] == '_' then text != [] && Matches(pattern[1..], text[1..], escape)
    else text != [] && Fold(pattern[0]) == Fold(text[0]) && Matches(pattern[1..], text[1..], escape)
  }

  /** `a` and `b` are equal up to ASCII case. */
  predicate SameFold(a: string, b: string) {
    |a| == |b| && forall i | 0 <= i < |a| :: Fold(a[i]) == Fold(b[i])
  }

  /** `term` occurs in `text` at offset `i`, up to ASCII case. */
  predicate FoldedAt(text: string, term: string, i: nat) {
    i + |term| <= |text| && SameFold(term, text[i..i + |term|])
  }

  ghost predicate FoldedContains(text: string, term: string) {
    exists i: nat :: FoldedAt(text, term, i)
  }

  /** The source's three nested replacements: the escape character first, then % and _. */
  function EscapeTerm(term: string, escape: char): string {
    ReplaceAll(ReplaceAll(ReplaceAll(term, [escape], [escape, escape]), "%", [escape, '%']), "_", [escape, '_'])
  }

  function EscapeChar(c: char, escape: char): string {
    if c == escape || c == '%' || c == '_' then [escape, c] else [c]
  }

  function EscapeEach(term: string, escape: char): string {
    if term == [] then [] else EscapeChar(term[0], escape) + EscapeEach(term[1..], escape)
  }

  lemma {:induction false} ReplaceCharConcat(a: string, b: string, c: char, sub: string)
    ensures ReplaceAll(a + b, [c], sub) == ReplaceAll(a, [c], sub) + ReplaceAll(b, [c], sub)
  {
    if a == [] {
      assert a + b == b;
    } else {
      assert (a + b)[1..] == a[1..] + b && (a + b)[..1] == a[..1] == [a[0]];
      ReplaceCharConcat(a[1..], b, c, sub);
    }
  }

  lemma ReplaceOne(d: char, c: char, sub: string)
    ensures ReplaceAll([d], [c], sub) == if d == c then sub else [d]
  {
  }

  lemma ReplaceTwo(d: char, e: char, c: char, sub: string)
    ensures ReplaceAll([d, e], [c], sub) == ReplaceAll([d], [c], sub) + ReplaceAll([e], [c], sub)
  {
  }

  /** The nested replacements never see each other's output: they are one pass over the term. */
  lemma {:induction false} EscapeIsOnePass(term: string, escape: char)
    requires escape != '%' && escape != '_'
    ensures EscapeTerm(term, escape) == EscapeEach(term, escape)
  {
    if term != [] {
      var c := term[0];
      assert term == [c] + term[1..];
      var first := ReplaceAll([c], [escape], [escape, escape]);
      ReplaceCharConcat([c], term[1..], escape, [escape, escape]);
      var second := ReplaceAll(first, "%", [escape, '%']);
      ReplaceCharConcat(first, ReplaceAll(term[1..], [escape], [escape, escape]), '%', [escape, '%']);
      ReplaceCharConcat(second, ReplaceAll(ReplaceAll(term[1..], [escape], [escape, escape]), "%", [escape, '%']), '_',
        [escape, '_']);
      EscapeOneChar(c, escape);
      EscapeIsOnePass(term[1..], escape);
    }
  }

  lemma EscapeOneChar(c: char, escape: char)
    requires escape != '%' && escape != '_'
    ensures EscapeTerm([c], escape) == EscapeChar(c, escape)
  {
    ReplaceOne(c, escape, [escape, escape]);
    ReplaceOne(c, '%', [escape, '%']);
    ReplaceOne(escape, '%', [escape, '%']);
    ReplaceOne(c, '_', [escape, '_']);
    ReplaceOne(escape, '_', [escape, '_']);
    ReplaceOne('%', '_', [escape, '_']);
    ReplaceTwo(escape, escape, '%', [escape, '%']);
    ReplaceTwo(escape, escape, '_', [escape, '_']);
    ReplaceTwo(escape, '%', '_', [escape, '_']);
  }

  lemma {:induction false} PercentMatchesAll(text: string, escape: Option<char>)
    ensures Matches("%", text, escape)
  {
    assert "%"[1..] == [];
    if text != [] {
      PercentMatchesAll(text[1..], escape);
    }
  }

  /** An escaped term followed by % matches exactly the texts that start with the term. */
  lemma {:induction false} EscapedPrefix(term: string, text: string, escape: char)
    requires escape != '%' && escape != '_'
    ensures Matches(EscapeEach(term, escape) + "%", text, Some(escape)) <==> FoldedAt(text, term, 0)
  {
    var pattern := EscapeEach(term, escape) + "%";
    if term == [] {
      assert pattern == "%";
      PercentMatchesAll(text, Some(escape));
    } else {
      var rest := EscapeEach(term[1..], escape) + "%";
      if EscapeChar(term[0], escape) == [term[0]] {
        assert pattern[0] == term[0] && pattern[1..] == rest;
      } else {
        assert pattern[0] == escape && pattern[1] == term[0] && pattern[2..] == rest;
      }
      if text != [] {
        EscapedPrefix(term[1..], text[1..], escape);
        FoldedStep(text, term);
      }
    }
  }

  lemma FoldedStep(text: string, term: string)
    requires text != [] && term != []
    ensures FoldedAt(text, term, 0) <==> Fold(term[0]) == Fold(text[0]) && FoldedAt(text[1..], term[1..], 0)
  {
  }

  /** A leading % lets the rest of the pattern start anywhere in the text. */
  lemma {:induction false} LeadingPercent(pattern: string, text: string, escape: Option<char>)
    ensures Matches("%" + pattern, text, escape)
       <==> exists i: nat :: i <= |text| && Matches(pattern, text[i..], escape)
  {
    var p := "%" + pattern;
    assert p[1..] == pattern;
    assert text[0..] == text;
    if text == [] {
    } else {
      LeadingPercent(pattern, text[1..], escape);
      if Matches(p, text[1..], escape) {
        var i: nat :| i <= |text[1..]| && Matches(pattern, text[1..][i..], escape);
        assert text[1..][i..] == text[i + 1..];
      }
      if i: nat :| i <= |text| && Matches(pattern, text[i..], escape) {
        if i > 0 {
          assert text[1..][i - 1..] == text[i..];
        }
      }
    }
  }

  /** `raw_content LIKE '%' || escaped || '%' ESCAPE escape` holds exactly when the text
      contains the raw term up to ASCII case, whatever LIKE metacharacters the term holds. */
  lemma ExactMatch(term: string, text: string, escape: char)
    requires escape != '%' && escape != '_'
    ensures Matches("%" + EscapeTerm(term, escape) + "%", text, Some(escape)) <==> FoldedContains(text, term)
  {
    EscapeIsOnePass(term, escape);
    var pattern := EscapeEach(term, escape) + "%";
    assert "%" + EscapeTerm(term, escape) + "%" == "%" + pattern;
    LeadingPercent(pattern, text, Some(escape));
    if i: nat :| i <= |text| && Matches(pattern, text[i..], Some(escape)) {
      EscapedPrefix(term, text[i..], escape);
      assert text[i..][0..|term|] == text[i..i + |term|];
      assert FoldedAt(text, term, i);
    }
    if i: nat :| FoldedAt(text, term, i) {
      assert text[i..][0..|term|] == text[i..i + |term|];
      EscapedPrefix(term, text[i..], escape);
    }
  }

  /** A term with no LIKE metacharacter and no letter, as the dotted ids of a link path. */
  predicate Plain(term: string) {
    forall i | 0 <= i < |term| :: IsDigit(term[i]) || term[i] == '.'
  }

  lemma {:induction false} PlainPrefix(term: string, text: string)
    requires Plain(term)
    ensures Matches(term + "%", text, None) <==> At(text, term, 0)
  {
    if term == [] {
      assert term + "%" == "%";
      PercentMatchesAll(text, None);
      assert text[0..0] == [];
    } else {
      assert (term + "%")[1..] == term[1..] + "%" && (term + "%")[0] == term[0];
      if text != [] {
        PlainPrefix(term[1..], text[1..]);
        if At(text, term, 0) {
          assert text[0..|term|][0] == text[0];
          assert text[1..][0..|term| - 1] == text[0..|term|][1..];
        }
        if term[0] == text[0] && At(text[1..], term[1..], 0) {
          assert text[0..|term|] == [text[0]] + text[1..][0..|term| - 1];
        }
      }
    }
  }

  /** With no ESCAPE clause and a plain term, LIKE '%term%' is substring search. */
  lemma PlainLike(term: string, text: string)
    requires Plain(term)
    ensures Matches("%" + term + "%", text, None) <==> Contains(text, term)
  {
    assert "%" + term + "%" == "%" + (term + "%");
    LeadingPercent(term + "%", text, None);
    if i: nat :| i <= |text| && Matches(term + "%", text[i..], None) {
      PlainPrefix(term, text[i..]);
      assert text[i..][0..|term|] == text[i..i + |term|];
      assert At(text, term, i);
    }
    if i: nat :| At(text, term, i) {
      assert text[i..][0..|term|] == text[i..i + |term|];
      PlainPrefix(term, text[i..]);
    }
  }
}
