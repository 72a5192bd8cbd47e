/** How the text of a tag option is read: tags separated by ` OR ` or `|`, each with an optional sign of
    negation. */
module TagOptions {
  import opened Strings

  // --- The parse ---

  /** Splits at ` OR ` and at `|`. */
  function SplitTags(s: string): (r: seq<string>)
    ensures r != []
  {
    if s == [] then [""]
    else if HasPrefix(s, " OR ") then [""] + SplitTags(s[4..])
    else if s[0] == '|' then [""] + SplitTags(s[1..])
    else
      var rest := SplitTags(s[1..]);
      [[s[0]] + rest[0]] + rest[1..]
  }

  datatype TagGroup = TagGroup(negate: bool, globs: seq<string>)

  /** One tag of a group: whether it is negated, and its glob, empty when there is none. */
  datatype Term = Term(negative: bool, glob: string)

  /** The sign of negation a trimmed tag begins with. */
  function Sign(t: string): (sign: string)
    ensures |sign| <= |t|
  {
    if HasPrefix(t, "-") then "-" else if HasPrefix(t, "NOT") then "NOT" else ""
  }

  function TagTerm(part: string): Term {
    var t := TrimSpace(part);
    Term(Sign(t) != "", TrimSpace(t[|Sign(t)|..]))
  }

  function Terms(parts: seq<string>): seq<Term> {
    seq(|parts|, i requires 0 <= i < |parts| => TagTerm(parts[i]))
  }

  function GroupOf(terms: seq<Term>): TagGroup {
    if terms == [] then TagGroup(false, [])
    else
      var front, t := GroupOf(terms[..|terms| - 1]), terms[|terms| - 1];
      TagGroup(front.negate || t.negative, if t.glob == "" then front.globs else front.globs + [t.glob])
  }

  function ParseTags(s: string): TagGroup {
    GroupOf(Terms(SplitTags(s)))
  }

  predicate NegatedOr(g: TagGroup) {
    g.negate && |g.globs| > 1
  }

  // --- What an option says ---

  predicate SeparatorAt(s: string, i: nat) {
    At(s, " OR ", i) || At(s, "|", i)
  }

  /** No separator begins before `k`. */
  predicate Clear(s: string, k: nat) {
    forall i: nat | i < k :: !SeparatorAt(s, i)
  }

  /** The text is the parts in order, each up to the first separator that follows. */
  predicate SplitsInto(s: string, parts: seq<string>)
    decreases |parts|, 0
  {
    && parts != [] && HasPrefix(s, parts[0]) && Clear(s, |parts[0]|)
    && var k := |parts[0]|;
       if |parts| == 1 then k == |s| else Follow(s, k, parts[1..])
  }

  /** A separator at `k`, then the parts. */
  predicate Follow(s: string, k: nat, parts: seq<string>)
    decreases |parts|, 1
  {
    || (At(s, " OR ", k) && SplitsInto(s[k + 4..], parts))
    || (At(s, "|", k) && SplitsInto(s[k + 1..], parts))
  }

  predicate Signed(s: string) {
    HasPrefix(s, "-") || HasPrefix(s, "NOT")
  }

  /** The part is the sign and the glob, with white space around them. */
  predicate Written(part: string, before: string, sign: string, space: string, glob: string, after: string) {
    && part == before + sign + space + glob + after && Spaces(before) && Spaces(space) && Spaces(after)
    && Trimmed(glob) && sign in ["", "-", "NOT"] && (sign == "" ==> !Signed(glob))
  }

  ghost predicate TermOf(part: string, t: Term) {
    exists before, sign, space, after ::
      Written(part, before, sign, space, t.glob, after) && t.negative == (sign != "")
  }

  function Globs(terms: seq<Term>): seq<string> {
    if terms == [] then []
    else if terms[0].glob == "" then Globs(terms[1..])
    else [terms[0].glob] + Globs(terms[1..])
  }

  ghost predicate TermsOf(parts: seq<string>, terms: seq<Term>) {
    |terms| == |parts| && forall i | 0 <= i < |parts| :: TermOf(parts[i], terms[i])
  }

  predicate Groups(terms: seq<Term>, g: TagGroup) {
    g.negate == (exists t | t in terms :: t.negative) && g.globs == Globs(terms)
  }

  /** The option names this group: a single negative tag negates it, tags without a glob do not count. */
  ghost predicate Reads(s: string, g: TagGroup) {
    exists parts, terms :: SplitsInto(s, parts) && TermsOf(parts, terms) && Groups(terms, g)
  }

  // --- Parts ---

  lemma AtTail(s: string, needle: string, i: nat)
    requires s != []
    ensures At(s, needle, i + 1) <==> At(s[1..], needle, i)
  {
    if i + 1 + |needle| <= |s| {
      assert s[i + 1..i + 1 + |needle|] == s[1..][i..i + |needle|];
    }
  }

  lemma ClearTail(s: string, k: nat)
    requires s != []
    ensures Clear(s, k + 1) <==> !SeparatorAt(s, 0) && Clear(s[1..], k)
  {
    forall i: nat ensures SeparatorAt(s, i + 1) <==> SeparatorAt(s[1..], i) {
      AtTail(s, " OR ", i);
      AtTail(s, "|", i);
    }
    if !SeparatorAt(s, 0) && Clear(s[1..], k) {
      forall i: nat | i < k + 1 ensures !SeparatorAt(s, i) {
        if i > 0 {
          assert SeparatorAt(s, i - 1 + 1) <==> SeparatorAt(s[1..], i - 1);
        }
      }
    }
  }

  lemma SeparatorFirst(s: string)
    ensures SeparatorAt(s, 0) <==> HasPrefix(s, " OR ") || (s != [] && s[0] == '|')
  {
    if s != [] {
      assert s[0..1] == [s[0]];
    }
  }

  /** Moving the first character in or out of the first part. */
  lemma SplitsTail(s: string, parts: seq<string>)
    requires s != [] && parts != []
    ensures SplitsInto(s, [[s[0]] + parts[0]] + parts[1..]) <==> !SeparatorAt(s, 0) && SplitsInto(s[1..], parts)
  {
    var longer := [[s[0]] + parts[0]] + parts[1..];
    var k := |parts[0]|;
    assert longer[1..] == parts[1..];
    ClearTail(s, k);
    PrefixTail(s, parts[0]);
    FollowTail(s, k, parts[1..]);
  }

  lemma FollowTail(s: string, k: nat, parts: seq<string>)
    requires s != []
    ensures Follow(s, k + 1, parts) <==> Follow(s[1..], k, parts)
  {
    AtTail(s, " OR ", k);
    AtTail(s, "|", k);
    if At(s, " OR ", k + 1) {
      assert s[k + 1 + 4..] == s[1..][k + 4..];
    }
    if At(s, "|", k + 1) {
      assert s[k + 1 + 1..] == s[1..][k + 1..];
    }
  }

  lemma PrefixTail(s: string, prefix: string)
    requires s != []
    ensures HasPrefix(s, [s[0]] + prefix) <==> HasPrefix(s[1..], prefix)
  {
    if |prefix| + 1 <= |s| {
      assert s[..|prefix| + 1] == [s[0]] + s[1..][..|prefix|];
      assert ([s[0]] + prefix)[1..] == prefix && ([s[0]] + s[1..][..|prefix|])[1..] == s[1..][..|prefix|];
    }
  }

  lemma {:induction false} SplitTagsSplits(s: string)
    ensures SplitsInto(s, SplitTags(s))
  {
    if s != [] {
      SeparatorFirst(s);
      if HasPrefix(s, " OR ") {
        SplitTagsSplits(s[4..]);
      } else {
        SplitTagsSplits(s[1..]);
        if s[0] != '|' {
          SplitsTail(s, SplitTags(s[1..]));
        }
      }
    }
  }

  lemma {:induction false} SplitUnique(s: string, parts: seq<string>)
    requires SplitsInto(s, parts)
    ensures parts == SplitTags(s)
    decreases |s|
  {
    SeparatorFirst(s);
    var first := parts[0];
    if first == "" {
      if |parts| > 1 {
        SplitUnique(s[if At(s, " OR ", 0) then 4 else 1..], parts[1..]);
      }
    } else {
      var shorter := [first[1..]] + parts[1..];
      assert s[..|first|] == first && first == [s[0]] + first[1..];
      assert parts == [[s[0]] + shorter[0]] + shorter[1..];
      SplitsTail(s, shorter);
      SplitUnique(s[1..], shorter);
    }
  }

  // --- Tags ---

  lemma SpacesConcat(a: string, b: string)
    ensures Spaces(a + b) <==> Spaces(a) && Spaces(b)
  {
    if Spaces(a + b) {
      assert forall i | 0 <= i < |a| :: a[i] == (a + b)[i];
      assert forall i | 0 <= i < |b| :: b[i] == (a + b)[|a| + i];
    }
  }

  lemma TrimSpaceOfBlank(s: string)
    requires Spaces(s)
    ensures TrimSpace(s) == ""
  {
    TrimLeftOf(s, "");
    assert s + "" == s;
  }

  lemma TrimRightKeeps(s: string)
    requires s != [] ==> !IsSpace(s[0])
    ensures Trimmed(TrimRight(s))
  {
    var r := TrimRight(s);
    if r != [] {
      assert r[0] == s[0];
    }
  }

  lemma TrimSpaceTrims(s: string)
    ensures Trimmed(TrimSpace(s))
  {
    TrimRightKeeps(TrimLeft(s));
  }

  /** The white space around a trimmed text, empty or not, is all that is trimmed off. */
  lemma TrimAround(before: string, text: string, after: string)
    requires Spaces(before) && Spaces(after) && Trimmed(text)
    ensures TrimSpace(before + text + after) == text
  {
    if text == "" {
      assert before + text + after == before + after;
      SpacesConcat(before, after);
      TrimSpaceOfBlank(before + after);
    } else {
      TrimSpaceOf(before, text, after);
    }
  }

  lemma SignedWritten(part: string, before: string, t: string, sign: string, outer: string)
    returns (space: string, after: string)
    requires sign in ["-", "NOT"] && HasPrefix(t, sign)
    requires part == before + t + outer && Spaces(before) && Spaces(outer)
    ensures Written(part, before, sign, space, TrimSpace(t[|sign|..]), after)
  {
    space, after := RestWritten(part, before, t, sign, t[|sign|..], outer);
  }

  lemma RestWritten(part: string, before: string, t: string, sign: string, rest: string, outer: string)
    returns (space: string, after: string)
    requires sign in ["-", "NOT"] && t == sign + rest
    requires part == before + t + outer && Spaces(before) && Spaces(outer)
    ensures Written(part, before, sign, space, TrimSpace(rest), after)
  {
    var more;
    space, more := TrimSpaceIs(rest);
    TrimSpaceTrims(rest);
    after := more + outer;
    GlobWritten(part, before, t, sign, space, TrimSpace(rest), more, outer);
  }

  lemma GlobWritten(part: string, before: string, t: string, sign: string, space: string, glob: string, more: string,
                    outer: string)
    requires sign in ["-", "NOT"] && t == sign + (space + glob + more) && part == before + t + outer
    requires Spaces(before) && Spaces(space) && Spaces(more) && Spaces(outer) && Trimmed(glob)
    ensures Written(part, before, sign, space, glob, more + outer)
  {
    SpacesConcat(more, outer);
    SignedText(before, sign, space, glob, more, outer);
  }

  lemma UnsignedWritten(part: string, before: string, t: string, after: string)
    requires part == before + t + after && Spaces(before) && Spaces(after) && Trimmed(t) && !Signed(t)
    ensures Written(part, before, "", "", t, after)
  {
    assert before + "" + "" + t + after == before + t + after;
  }

  lemma NoSign(t: string)
    requires Trimmed(t) && Sign(t) == ""
    ensures TrimSpace(t[0..]) == t && !Signed(t)
  {
    assert t[0..] == t;
    TrimSpaceFixes(t);
  }

  lemma SignOf(t: string, sign: string)
    requires sign == Sign(t) && sign != ""
    ensures sign in ["-", "NOT"] && HasPrefix(t, sign)
  {
  }

  lemma TrimmedWritten(part: string, before: string, t: string, sign: string, glob: string, outer: string)
    requires part == before + t + outer && Spaces(before) && Spaces(outer) && Trimmed(t)
    requires sign == Sign(t) && glob == TrimSpace(t[|sign|..])
    ensures TermOf(part, Term(sign != "", glob))
  {
    if sign == "" {
      NoSign(t);
      UnsignedWritten(part, before, t, outer);
    } else {
      SignOf(t, sign);
      var space, after := SignedWritten(part, before, t, sign, outer);
    }
  }

  lemma TermWritten(part: string)
    ensures TermOf(part, TagTerm(part))
  {
    var before, outer := TrimSpaceIs(part);
    TrimSpaceTrims(part);
    var t := TrimSpace(part);
    TrimmedWritten(part, before, t, Sign(t), TagTerm(part).glob, outer);
  }

  lemma SignedText(before: string, sign: string, space: string, glob: string, more: string, after: string)
    ensures before + (sign + (space + glob + more)) + after == before + sign + space + glob + (more + after)
  {
  }

  lemma UnsignedIsRead(before: string, space: string, glob: string, after: string)
    requires Spaces(before) && Spaces(space) && Spaces(after) && Trimmed(glob)
    ensures TrimSpace(before + "" + space + glob + after) == glob == TrimSpace(glob)
  {
    assert before + "" + space == before + space;
    SpacesConcat(before, space);
    TrimAround(before + space, glob, after);
    TrimSpaceFixes(glob);
  }

  /** The parse reads a tag as it is written, whatever the white space around its sign and its glob. */
  lemma WrittenIsRead(part: string, before: string, sign: string, space: string, glob: string, after: string)
    requires Written(part, before, sign, space, glob, after)
    ensures TagTerm(part) == Term(sign != "", glob)
  {
    if sign == "" {
      UnsignedIsRead(before, space, glob, after);
    } else {
      SignedTrimmed(before, sign, space, glob, after);
      SignIs(TrimSpace(part), sign);
    }
  }

  lemma SignIs(t: string, sign: string)
    requires sign in ["-", "NOT"] && HasPrefix(t, sign)
    ensures Sign(t) == sign
  {
    assert t[..|sign|][0] == t[0];
  }

  lemma SignedTrimmed(before: string, sign: string, space: string, glob: string, after: string)
    requires Spaces(before) && Spaces(space) && Spaces(after) && Trimmed(glob) && sign in ["-", "NOT"]
    ensures var t := TrimSpace(before + sign + space + glob + after);
      HasPrefix(t, sign) && TrimSpace(t[|sign|..]) == glob
  {
    assert Trimmed(sign);
    if glob == "" {
      SpacesConcat(space, after);
      assert before + sign + space + glob + after == before + sign + (space + after);
      TrimAround(before, sign, space + after);
      TrimSpaceOfBlank("");
    } else {
      var t := sign + (space + glob);
      assert before + sign + space + glob + after == before + t + after;
      assert t[0] == sign[0] && t[|t| - 1] == glob[|glob| - 1];
      TrimAround(before, t, after);
      assert t[|sign|..] == space + glob + "";
      TrimAround(space, glob, "");
    }
  }

  lemma TermOfIff(part: string, t: Term)
    ensures TermOf(part, t) <==> t == TagTerm(part)
  {
    if before, sign, space, after :| Written(part, before, sign, space, t.glob, after) && t.negative == (sign != "") {
      WrittenIsRead(part, before, sign, space, t.glob, after);
    }
    TermWritten(part);
  }

  // --- Groups ---

  lemma {:induction false} GlobsLast(terms: seq<Term>, t: Term)
    ensures Globs(terms + [t]) == Globs(terms) + if t.glob == "" then [] else [t.glob]
  {
    if terms != [] {
      assert (terms + [t])[1..] == terms[1..] + [t];
      GlobsLast(terms[1..], t);
    } else {
      assert terms + [t] == [t] && [t][1..] == [];
    }
  }

  lemma {:induction false} GroupOfGroups(terms: seq<Term>)
    ensures Groups(terms, GroupOf(terms))
  {
    if terms != [] {
      var front, t := terms[..|terms| - 1], terms[|terms| - 1];
      GroupOfGroups(front);
      assert terms == front + [t];
      GlobsLast(front, t);
    }
  }

  lemma TermsOfIff(parts: seq<string>, terms: seq<Term>)
    ensures TermsOf(parts, terms) <==> terms == Terms(parts)
  {
    if |terms| == |parts| {
      forall i | 0 <= i < |parts| ensures TermOf(parts[i], terms[i]) <==> terms[i] == Terms(parts)[i] {
        TermOfIff(parts[i], terms[i]);
      }
    }
  }

  /** The parse gives the group the option names, and no other group is named by it. */
  lemma ParseIsReading(s: string, g: TagGroup)
    ensures Reads(s, g) <==> g == ParseTags(s)
  {
    var parts := SplitTags(s);
    SplitTagsSplits(s);
    TermsOfIff(parts, Terms(parts));
    GroupOfGroups(Terms(parts));
    if ps, ts :| SplitsInto(s, ps) && TermsOf(ps, ts) && Groups(ts, g) {
      SplitUnique(s, ps);
      TermsOfIff(ps, ts);
    }
  }

  // --- Options of one and two tags ---

  /** One tag: not empty, without a separator and without white space around it. */
  predicate IsTag(t: string) {
    t != "" && Trimmed(t) && Clear(t, |t|)
  }

  lemma OneGlob(t: Term)
    requires t.glob != ""
    ensures Globs([t]) == [t.glob] && Groups([t], TagGroup(t.negative, [t.glob]))
  {
    assert [t][1..] == [];
  }

  /** One tag, with or without a sign. */
  lemma OnePart(part: string, t: Term)
    requires Clear(part, |part|) && TermOf(part, t) && t.glob != ""
    ensures Reads(part, TagGroup(t.negative, [t.glob]))
  {
    assert SplitsInto(part, [part]) && TermsOf([part], [t]);
    OneGlob(t);
  }

  lemma TwoGlobs(x: Term, y: Term)
    requires x.glob != "" && y.glob != ""
    ensures Groups([x, y], TagGroup(x.negative || y.negative, [x.glob, y.glob]))
  {
    assert [x, y][1..] == [y];
    OneGlob(y);
    assert x in [x, y] && y in [x, y];
  }

  lemma TwoSplit(a: string, separator: string, b: string)
    requires separator in [" OR ", "|"] && Clear(a + separator + b, |a|) && Clear(b, |b|)
    ensures SplitsInto(a + separator + b, [a, b])
  {
    var s := a + separator + b;
    assert s[|a|..|a| + |separator|] == separator && s[|a| + |separator|..] == b && s[..|a|] == a;
    assert [a, b][1..] == [b];
    assert SplitsInto(b, [b]);
    assert At(s, separator, |a|);
  }

  /** Two tags with a separator between them. */
  lemma TwoParts(a: string, x: Term, separator: string, b: string, y: Term)
    requires separator in [" OR ", "|"] && Clear(a + separator + b, |a|) && Clear(b, |b|)
    requires TermOf(a, x) && TermOf(b, y) && x.glob != "" && y.glob != ""
    ensures Reads(a + separator + b, TagGroup(x.negative || y.negative, [x.glob, y.glob]))
  {
    TwoSplit(a, separator, b);
    TwoGlobs(x, y);
    assert TermsOf([a, b], [x, y]);
  }

  lemma PlainTerm(t: string)
    requires IsTag(t) && !Signed(t)
    ensures TermOf(t, Term(false, t))
  {
    assert t == "" + "" + "" + t + "";
    assert Written(t, "", "", "", t, "");
  }

  lemma SignedTerms(t: string, sign: string) returns (glob: string)
    requires Trimmed(t) && sign == Sign(t) && sign != ""
    ensures TermOf(t, Term(true, glob))
  {
    glob := TrimSpace(t[|sign|..]);
    Surround(t);
    TrimmedWritten(t, "", t, sign, glob, "");
  }

  lemma Surround(t: string)
    ensures "" + t + "" == t && Spaces("")
  {
  }

  lemma SignedPart(part: string, t: Term)
    requires Clear(part, |part|) && TermOf(part, t) && t.negative
    ensures Reads(part, TagGroup(true, Globs([t])))
  {
    assert SplitsInto(part, [part]) && TermsOf([part], [t]);
    assert t in [t] && Groups([t], TagGroup(true, Globs([t])));
  }

  /** A tag stands for itself exactly when it does not begin with a sign: `NOTES` is the negation of `ES`. */
  lemma PlainTagIff(t: string)
    requires IsTag(t)
    ensures Reads(t, TagGroup(false, [t])) <==> !Signed(t)
  {
    if Signed(t) {
      var glob := SignedTerms(t, Sign(t));
      SignedPart(t, Term(true, glob));
      ParseIsReading(t, TagGroup(true, Globs([Term(true, glob)])));
      ParseIsReading(t, TagGroup(false, [t]));
    } else {
      PlainTerm(t);
      OnePart(t, Term(false, t));
    }
  }

  lemma ClearNot(s: string)
    requires Clear(s, |s|)
    ensures Clear("NOT" + s, |s| + 3)
  {
    ClearLetter('T', s);
    ClearLetter('O', "T" + s);
    ClearLetter('N', "O" + ("T" + s));
    assert "NOT" + s == "N" + ("O" + ("T" + s));
  }

  /** The space before a tag can be that of a separator. */
  lemma ClearSpace(t: string)
    requires Clear(t, |t|) && !HasPrefix(t, "OR ")
    ensures Clear(" " + t, |t| + 1)
  {
    var s := " " + t;
    assert s[1..] == t;
    if |t| >= 3 {
      assert s[..4] == " " + t[..3];
      assert s[..4][1..] == t[..3] && " OR "[1..] == "OR ";
    }
    SeparatorFirst(s);
    ClearTail(s, |t|);
  }

  lemma ClearLetter(c: char, s: string)
    requires Clear(s, |s|) && c != ' ' && c != '|'
    ensures Clear([c] + s, |s| + 1)
  {
    assert ([c] + s)[1..] == s && ([c] + s)[0] == c;
    SeparatorFirst([c] + s);
    ClearTail([c] + s, |s|);
  }

  lemma NegatedTerm(t: string)
    requires IsTag(t)
    ensures TermOf("-" + t, Term(true, t)) && TermOf("NOT" + t, Term(true, t))
    ensures TermOf("NOT" + (" " + t), Term(true, t))
  {
    assert "-" + t == "" + "-" + "" + t + "" && "NOT" + t == "" + "NOT" + "" + t + "";
    assert "NOT" + (" " + t) == "" + "NOT" + " " + t + "";
    assert Written("-" + t, "", "-", "", t, "") && Written("NOT" + t, "", "NOT", "", t, "");
    assert Written("NOT" + (" " + t), "", "NOT", " ", t, "");
  }

  /** A sign before a tag negates it. */
  lemma NegatedTag(t: string)
    requires IsTag(t)
    ensures Reads("-" + t, TagGroup(true, [t])) && Reads("NOT" + t, TagGroup(true, [t]))
    ensures !HasPrefix(t, "OR ") ==> Reads("NOT " + t, TagGroup(true, [t]))
  {
    NegatedTerm(t);
    ClearLetter('-', t);
    OnePart("-" + t, Term(true, t));
    ClearNot(t);
    OnePart("NOT" + t, Term(true, t));
    if !HasPrefix(t, "OR ") {
      ClearSpace(t);
      ClearNot(" " + t);
      OnePart("NOT" + (" " + t), Term(true, t));
      assert "NOT" + (" " + t) == "NOT " + t;
    }
  }

  lemma AtPrefix(t: string, v: string, needle: string, i: nat)
    requires i + |needle| <= |t|
    ensures At(t + v, needle, i) <==> At(t, needle, i)
  {
    assert (t + v)[i..i + |needle|] == t[i..i + |needle|];
  }

  /** A separator that begins in `t` and ends after it. */
  lemma Overlap(t: string, v: string, i: nat)
    requires i < |t| < i + 4 && v != [] && At(t + v, " OR ", i)
    ensures v[0] in "OR " && (v[0] == ' ' ==> HasSuffix(t, " OR"))
  {
    var s := t + v;
    assert s[|t|] == s[i..i + 4][|t| - i] == " OR "[|t| - i];
    assert s[i..i + 4] == t[i..] + v[..i + 4 - |t|];
    assert t[i..] == s[i..i + 4][..|t| - i] == " OR "[..|t| - i];
  }

  lemma SeparatorBefore(t: string, separator: string, u: string, i: nat)
    requires separator == "|" || (separator == " OR " && !HasSuffix(t, " OR"))
    requires i < |t| && SeparatorAt(t + separator + u, i)
    ensures SeparatorAt(t, i)
  {
    var v := separator + u;
    assert t + separator + u == t + v && v[0] == separator[0];
    AtPrefix(t, v, "|", i);
    if i + 4 <= |t| {
      AtPrefix(t, v, " OR ", i);
    } else if At(t + v, " OR ", i) {
      Overlap(t, v, i);
    }
  }

  lemma ClearBefore(t: string, separator: string, u: string)
    requires Clear(t, |t|) && (separator == "|" || (separator == " OR " && !HasSuffix(t, " OR")))
    ensures Clear(t + separator + u, |t|)
  {
    if i: nat :| i < |t| && SeparatorAt(t + separator + u, i) {
      SeparatorBefore(t, separator, u, i);
    }
  }

  /** Two tags joined by either separator. */
  lemma EitherTag(t: string, separator: string, u: string)
    requires IsTag(t) && IsTag(u) && !Signed(t) && !Signed(u)
    requires separator == "|" || (separator == " OR " && !HasSuffix(t, " OR"))
    ensures Reads(t + separator + u, TagGroup(false, [t, u]))
  {
    PlainTerm(t);
    PlainTerm(u);
    ClearBefore(t, separator, u);
    TwoParts(t, Term(false, t), separator, u, Term(false, u));
  }
}
