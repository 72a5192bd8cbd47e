/** The line scanner of the language server that finds the links of a document: it keeps its
    state in variables that outlive a call. */
module DocumentLinks {
  import opened Strings
  import LinkPaths

  // --- Lines ---

  /** Both fence patterns only test how the line begins. */
  predicate IsFence(line: string) {
    HasPrefix(line, "```") || HasPrefix(line, "~~~")
  }

  predicate IsBlank(c: char) {
    c == ' ' || c == '\t' || c == '\n' || c == '\r' || c == 12 as char
  }

  /** `^(\s{4}|\t).+` */
  predicate IsIndented(line: string) {
    (|line| >= 5 && IsBlank(line[0]) && IsBlank(line[1]) && IsBlank(line[2]) && IsBlank(line[3]) && line[4] != '\n')
    || (|line| >= 2 && line[0] == '\t' && line[1] != '\n')
  }

  // --- Code blocks ---

  datatype Block = Outside | Fenced(start: nat) | Indented(start: nat)

  /** Same fence on both lines. */
  predicate ClosesFence(lines: seq<string>, start: nat, line: string)
    requires start < |lines| && IsFence(lines[start])
  {
    IsFence(line) && lines[start][..3] == line[..3]
  }

  /** The block after line `i`, and whether that line is code. */
  function Scan(lines: seq<string>, i: nat, b: Block): (Block, bool)
    requires i < |lines| && (b.Fenced? ==> b.start < |lines| && IsFence(lines[b.start]))
  {
    var line := lines[i];
    match b
    case Fenced(start) => (if ClosesFence(lines, start, line) then Outside else b, true)
    case Indented(_) => if !IsIndented(line) && |line| > 0 then (Outside, false) else (b, true)
    case Outside =>
      if IsFence(line) then (Fenced(i), true)
      else if IsIndented(line) && (i == 0 || lines[i - 1] == "") then (Indented(i), true)
      else (Outside, false)
  }

  /** The block before line `i`, found from the lines alone. */
  function BlockAt(lines: seq<string>, i: nat): (b: Block)
    requires i <= |lines|
    ensures b.Fenced? ==> b.start < i && IsFence(lines[b.start])
    ensures b.Indented? ==> b.start < i
  {
    if i == 0 then Outside else Scan(lines, i - 1, BlockAt(lines, i - 1)).0
  }

  predicate IsCode(lines: seq<string>, i: nat)
    requires i < |lines|
  {
    Scan(lines, i, BlockAt(lines, i)).1
  }

  /** A fence is closed by the next line that begins like it; all the lines up to that one are code. */
  lemma {:induction false} FencedBlock(lines: seq<string>, i: nat, k: nat)
    requires i <= k < |lines| && BlockAt(lines, i) == Outside && IsFence(lines[i])
    requires forall j | i < j < k :: !HasPrefix(lines[j], lines[i][..3])
    ensures IsCode(lines, k)
    ensures BlockAt(lines, k + 1) == if i < k && HasPrefix(lines[k], lines[i][..3]) then Outside else Fenced(i)
  {
    if i < k {
      FencedBlock(lines, i, k - 1);
      assert HasPrefix(lines[k], lines[i][..3]) ==> IsFence(lines[k]);
    }
  }

  /** An indented block begins at the first line or after an empty one, and goes on over the indented and the
      empty lines that follow. */
  lemma {:induction false} IndentedBlock(lines: seq<string>, i: nat, k: nat)
    requires i <= k < |lines| && BlockAt(lines, i) == Outside
    requires IsIndented(lines[i]) && (i == 0 || lines[i - 1] == "")
    requires forall j | i < j <= k :: IsIndented(lines[j]) || lines[j] == ""
    ensures IsCode(lines, k) && BlockAt(lines, k + 1) == Indented(i)
  {
    if i < k {
      IndentedBlock(lines, i, k - 1);
    }
  }

  lemma IndentedBlockEnds(lines: seq<string>, i: nat)
    requires i < |lines| && BlockAt(lines, i).Indented? && !IsIndented(lines[i]) && lines[i] != ""
    ensures !IsCode(lines, i) && BlockAt(lines, i + 1) == Outside
  {
  }

  /** Any other line outside a block is no code. */
  lemma OrdinaryLine(lines: seq<string>, i: nat)
    requires i < |lines| && BlockAt(lines, i) == Outside
    ensures IsCode(lines, i) <==> IsFence(lines[i]) || (IsIndented(lines[i]) && (i == 0 || lines[i - 1] == ""))
    ensures !IsCode(lines, i) ==> BlockAt(lines, i + 1) == Outside
  {
  }

  /** Outside a fenced block, a fence opens one exactly when no indented block precedes it. */
  lemma FenceOpensIff(lines: seq<string>, i: nat)
    requires i < |lines| && IsFence(lines[i]) && !BlockAt(lines, i).Fenced?
    ensures IsCode(lines, i) && BlockAt(lines, i + 1) == Fenced(i) <==> !BlockAt(lines, i).Indented?
  {
    assert lines[i][..3][0] == lines[i][0];
  }

  // --- Inline code ---

  predicate Odd(n: nat) {
    n > 0 && !Odd(n - 1)
  }

  lemma {:induction false} OddIsModulo(n: nat)
    ensures Odd(n) <==> n % 2 == 1
  {
    if n > 0 {
      OddIsModulo(n - 1);
    }
  }

  lemma {:induction false} OddSum(a: nat, b: nat)
    ensures Odd(a + b) <==> Odd(a) != Odd(b)
  {
    if a > 0 {
      OddSum(a - 1, b);
    }
  }

  function Backticks(s: string): nat {
    if s == [] then 0 else (if s[0] == '`' then 1 else 0) + Backticks(s[1..])
  }

  /** Backticks of the lines before `i` that are not code. */
  function BackticksBefore(lines: seq<string>, i: nat): nat
    requires i <= |lines|
  {
    if i == 0 then 0
    else BackticksBefore(lines, i - 1) + if IsCode(lines, i - 1) then 0 else Backticks(lines[i - 1])
  }

  /** strings.Index for a backtick. */
  function IndexOfBacktick(s: string): (k: int)
    ensures -1 <= k < |s|
    ensures k >= 0 ==> s[k] == '`' && '`' !in s[..k]
    ensures k == -1 ==> '`' !in s
  {
    if s == [] then -1 else if s[0] == '`' then 0
    else
      var k := IndexOfBacktick(s[1..]);
      assert k >= 0 ==> s[..k + 1] == [s[0]] + s[1..][..k];
      if k < 0 then -1 else k + 1
  }

  /** linkWithinInlineCode; the start of the link plays no role. */
  function WithinInlineCode(buffer: string, linkEnd: int, inside: bool): bool
    decreases |buffer|
  {
    var k := IndexOfBacktick(buffer);
    if 0 <= k < linkEnd then WithinInlineCode(buffer[k + 1..], linkEnd - k - 1, !inside) else inside
  }

  lemma {:induction false} NoBackticks(s: string)
    requires '`' !in s
    ensures Backticks(s) == 0
  {
    if s != [] {
      NoBackticks(s[1..]);
    }
  }

  lemma {:induction false} BackticksConcat(a: string, b: string)
    ensures Backticks(a + b) == Backticks(a) + Backticks(b)
  {
    if a == [] {
      assert a + b == b;
    } else {
      assert (a + b)[1..] == a[1..] + b;
      BackticksConcat(a[1..], b);
    }
  }

  lemma BacktickAt(line: string, linkEnd: nat, k: nat)
    requires k < linkEnd <= |line| && line[k] == '`' && '`' !in line[..k]
    ensures Backticks(line[..linkEnd]) == 1 + Backticks(line[k + 1..][..linkEnd - k - 1])
  {
    var rest := line[k + 1..][..linkEnd - k - 1];
    assert line[..linkEnd] == line[..k] + (['`'] + rest);
    NoBackticks(line[..k]);
    BackticksConcat(line[..k], ['`'] + rest);
    BackticksConcat(['`'], rest);
  }

  lemma NoBacktickBefore(line: string, linkEnd: nat, k: nat)
    requires linkEnd <= k <= |line| && '`' !in line[..k]
    ensures Backticks(line[..linkEnd]) == 0
  {
    assert line[..linkEnd] == line[..k][..linkEnd];
    NoBackticks(line[..linkEnd]);
  }

  /** The recursion flips the state once per backtick before the end of the link. */
  lemma {:induction false} InlineParity(line: string, linkEnd: nat, inside: bool)
    requires linkEnd <= |line|
    ensures WithinInlineCode(line, linkEnd, inside) == (inside != Odd(Backticks(line[..linkEnd])))
    decreases |line|
  {
    var k := IndexOfBacktick(line);
    if 0 <= k < linkEnd {
      InlineParity(line[k + 1..], linkEnd - k - 1, !inside);
      BacktickAt(line, linkEnd, k);
    } else {
      assert line[..|line|] == line;
      NoBacktickBefore(line, linkEnd, if k < 0 then |line| else k);
    }
  }

  /** A link is within inline code exactly when the number of backticks before its end is odd. */
  lemma InlineIsOdd(line: string, linkEnd: nat, before: nat)
    requires linkEnd <= |line|
    ensures WithinInlineCode(line, linkEnd, Odd(before)) <==> Odd(before + Backticks(line[..linkEnd]))
  {
    InlineParity(line, linkEnd, Odd(before));
    OddSum(before, Backticks(line[..linkEnd]));
  }

  // --- Links of a line ---

  /** A match of one of the link patterns: the whole match and the href in it. */
  datatype Match = Match(start: nat, end: nat, hrefStart: nat, hrefEnd: nat, hasTitle: bool)

  datatype Found = Found(href: string, line: nat, start: nat, end: nat, hasTitle: bool, isWiki: bool)

  /** The regular expressions of Markdown and wiki links. */
  datatype Patterns = Patterns(markdown: string -> seq<Match>, wiki: string -> seq<Match>)

  /** Matches of a regular expression lie within the line. */
  predicate InBounds(line: string, m: Match) {
    m.start <= m.hrefStart <= m.hrefEnd <= m.end <= |line|
  }

  ghost predicate PatternsOk(p: Patterns, line: string) {
    (forall m | m in p.markdown(line) :: InBounds(line, m)) && forall m | m in p.wiki(line) :: InBounds(line, m)
  }

  ghost predicate AllOk(p: Patterns, lines: seq<string>) {
    forall line | line in lines :: PatternsOk(p, line)
  }

  /** Images, file URIs and magnet links are not reported. */
  predicate IgnoredTarget(line: string, m: Match)
    requires InBounds(line, m)
  {
    (m.start > 0 && line[m.start - 1] == '!')
    || (m.hrefEnd - m.hrefStart >= 8
        && (line[m.hrefStart..m.hrefStart + 8] == "file:///" || line[m.hrefStart..m.hrefStart + 8] == "magnet:?"))
  }

  function Href(line: string, m: Match, isWiki: bool): string
    requires InBounds(line, m)
  {
    var raw := line[m.hrefStart..m.hrefEnd];
    if isWiki then raw
    else match LinkPaths.PathUnescape(raw) case Some(decoded) => decoded case None => raw
  }

  /** What is kept of one match, given how many backticks come before its end in the document. */
  function Kept(line: string, index: nat, m: Match, isWiki: bool, backticks: nat): seq<Found>
    requires InBounds(line, m)
  {
    if Odd(backticks) || (!isWiki && IgnoredTarget(line, m)) || Href(line, m, isWiki) == "" then []
    else [Found(Href(line, m, isWiki), index, m.start, m.end, m.hasTitle, isWiki)]
  }

  function KeptAll(line: string, index: nat, ms: seq<Match>, isWiki: bool, before: nat): seq<Found>
    requires forall m | m in ms :: InBounds(line, m)
  {
    if ms == [] then []
    else
      var m := ms[|ms| - 1];
      assert m in ms && InBounds(line, m);
      KeptAll(line, index, ms[..|ms| - 1], isWiki, before)
        + Kept(line, index, m, isWiki, before + Backticks(line[..m.end]))
  }

  lemma KeepNext(line: string, index: nat, ms: seq<Match>, isWiki: bool, before: nat, i: nat)
    requires (forall m | m in ms :: InBounds(line, m)) && i < |ms|
    ensures InBounds(line, ms[i])
    ensures var m := ms[i];
      KeptAll(line, index, ms[..i + 1], isWiki, before) ==
        KeptAll(line, index, ms[..i], isWiki, before)
        + if WithinInlineCode(line, m.end, Odd(before)) || (!isWiki && IgnoredTarget(line, m))
          || Href(line, m, isWiki) == "" then []
          else [Found(Href(line, m, isWiki), index, m.start, m.end, m.hasTitle, isWiki)]
  {
    assert ms[i] in ms && InBounds(line, ms[i]);
    assert ms[..i + 1][..i] == ms[..i];
    InlineIsOdd(line, ms[i].end, before);
  }

  /** The links of a line outside code blocks, with `before` backticks in the lines before it. */
  function LineLinks(p: Patterns, line: string, index: nat, before: nat): seq<Found>
    requires PatternsOk(p, line)
  {
    KeptAll(line, index, p.markdown(line), false, before) + KeptAll(line, index, p.wiki(line), true, before)
  }

  /** The links of the lines before `i`: those outside code blocks whose end has an even number of
      backticks before it in the lines outside code blocks. A function of the lines alone. */
  function LinksBefore(p: Patterns, lines: seq<string>, i: nat): seq<Found>
    requires i <= |lines| && AllOk(p, lines)
  {
    if i == 0 then []
    else
      assert lines[i - 1] in lines;
      LinksBefore(p, lines, i - 1)
      + if IsCode(lines, i - 1) then [] else LineLinks(p, lines[i - 1], i - 1, BackticksBefore(lines, i - 1))
  }

  /** The backticks and the links once line `i` is scanned. */
  lemma NextLine(p: Patterns, lines: seq<string>, i: nat)
    requires i < |lines| && AllOk(p, lines)
    ensures PatternsOk(p, lines[i])
    ensures var before := BackticksBefore(lines, i);
      if IsCode(lines, i) then
        BackticksBefore(lines, i + 1) == before && LinksBefore(p, lines, i + 1) == LinksBefore(p, lines, i)
      else
        BackticksBefore(lines, i + 1) == before + Backticks(lines[i])
        && LinksBefore(p, lines, i + 1) == LinksBefore(p, lines, i) + LineLinks(p, lines[i], i, before)
  {
  }

  // --- Which links are found ---

  function MatchesOf(p: Patterns, line: string, isWiki: bool): seq<Match> {
    if isWiki then p.wiki(line) else p.markdown(line)
  }

  /** An image, a file URI or a magnet link. */
  predicate IsResource(line: string, m: Match, raw: string) {
    (0 < m.start <= |line| && line[m.start - 1] == '!') || HasPrefix(raw, "file:///") || HasPrefix(raw, "magnet:?")
  }

  /** The href of a Markdown link is decoded when it can be. */
  predicate IsHref(raw: string, isWiki: bool, href: string) {
    if isWiki then href == raw
    else LinkPaths.PathUnescape(raw) == Some(href) || (LinkPaths.PathUnescape(raw) == None && href == raw)
  }

  /** The link reported for a match of a line with `before` backticks in the lines before it. */
  predicate Reports(line: string, before: nat, m: Match, x: Found) {
    && InBounds(line, m) && x.start == m.start && x.end == m.end && x.hasTitle == m.hasTitle && x.href != ""
    && (before + Backticks(line[..m.end])) % 2 == 0
    && var raw := line[m.hrefStart..m.hrefEnd];
       IsHref(raw, x.isWiki, x.href) && (x.isWiki || !IsResource(line, m, raw))
  }

  /** The link is reported for a match of its line, which is outside code blocks. */
  ghost predicate Reported(p: Patterns, lines: seq<string>, x: Found) {
    && x.line < |lines| && !IsCode(lines, x.line)
    && exists m | m in MatchesOf(p, lines[x.line], x.isWiki) ::
         Reports(lines[x.line], BackticksBefore(lines, x.line), m, x)
  }

  lemma IgnoredIff(line: string, m: Match)
    requires InBounds(line, m)
    ensures IgnoredTarget(line, m) <==> IsResource(line, m, line[m.hrefStart..m.hrefEnd])
  {
    var raw := line[m.hrefStart..m.hrefEnd];
    if |raw| >= 8 {
      assert raw[..8] == line[m.hrefStart..m.hrefStart + 8];
    }
  }

  lemma HrefIff(line: string, m: Match, isWiki: bool, href: string)
    requires InBounds(line, m)
    ensures href == Href(line, m, isWiki) <==> IsHref(line[m.hrefStart..m.hrefEnd], isWiki, href)
  {
  }

  lemma KeptIff(line: string, i: nat, m: Match, isWiki: bool, before: nat, x: Found)
    requires InBounds(line, m)
    ensures x in Kept(line, i, m, isWiki, before + Backticks(line[..m.end]))
      <==> x.isWiki == isWiki && x.line == i && Reports(line, before, m, x)
  {
    OddIsModulo(before + Backticks(line[..m.end]));
    IgnoredIff(line, m);
    HrefIff(line, m, isWiki, x.href);
  }

  lemma {:induction false} KeptAllIff(line: string, i: nat, ms: seq<Match>, isWiki: bool, before: nat, x: Found)
    requires forall m | m in ms :: InBounds(line, m)
    ensures x in KeptAll(line, i, ms, isWiki, before)
      <==> x.isWiki == isWiki && x.line == i && exists m | m in ms :: Reports(line, before, m, x)
  {
    if ms != [] {
      var front, last := ms[..|ms| - 1], ms[|ms| - 1];
      assert ms == front + [last];
      KeptAllIff(line, i, front, isWiki, before, x);
      assert last in ms;
      KeptIff(line, i, last, isWiki, before, x);
    }
  }

  lemma LineLinksIff(p: Patterns, line: string, i: nat, before: nat, x: Found)
    requires PatternsOk(p, line)
    ensures x in LineLinks(p, line, i, before)
      <==> x.line == i && exists m | m in MatchesOf(p, line, x.isWiki) :: Reports(line, before, m, x)
  {
    KeptAllIff(line, i, p.markdown(line), false, before, x);
    KeptAllIff(line, i, p.wiki(line), true, before, x);
  }

  lemma NextLinks(p: Patterns, lines: seq<string>, i: nat, x: Found)
    requires i < |lines| && AllOk(p, lines)
    ensures x in LinksBefore(p, lines, i + 1) <==>
      x in LinksBefore(p, lines, i) || (x.line == i && Reported(p, lines, x))
  {
    NextLine(p, lines, i);
    if !IsCode(lines, i) {
      LineLinksIff(p, lines[i], i, BackticksBefore(lines, i), x);
    }
  }

  lemma {:induction false} OnceFound(found: seq<bool>, k: nat, reported: bool, n: nat)
    requires n < |found| && !found[0]
    requires forall i | 0 <= i < n :: found[i + 1] == (found[i] || (k == i && reported))
    ensures found[n] == (k < n && reported)
  {
    if n > 0 {
      OnceFound(found, k, reported, n - 1);
      assert found[n - 1 + 1] == found[n];
    }
  }

  ghost function FoundBefore(p: Patterns, lines: seq<string>, x: Found): (found: seq<bool>)
    requires AllOk(p, lines)
    ensures |found| == |lines| + 1
    ensures forall i | 0 <= i <= |lines| :: found[i] == (x in LinksBefore(p, lines, i))
  {
    seq(|lines| + 1, i requires 0 <= i <= |lines| => x in LinksBefore(p, lines, i))
  }

  /** The links found are those outside code, inline or not, that are no image, file URI or magnet link, each
      with its decoded href and its place. */
  lemma FoundIffReported(p: Patterns, lines: seq<string>, x: Found)
    requires AllOk(p, lines)
    ensures x in LinksBefore(p, lines, |lines|) <==> Reported(p, lines, x)
  {
    var found, reported := FoundBefore(p, lines, x), Reported(p, lines, x);
    forall i | 0 <= i < |lines| ensures found[i + 1] == (found[i] || (x.line == i && reported)) {
      NextLinks(p, lines, i, x);
    }
    OnceFound(found, x.line, reported, |lines|);
  }

  // --- The scanner ---

  class Scanner {
    var insideInline: bool
    var insideFenced: bool
    var insideIndented: bool
    var currentCodeBlockStart: int

    /** The variables describe this block. */
    predicate Describes(b: Block)
      reads this
    {
      && insideFenced == b.Fenced? && insideIndented == b.Indented?
      && currentCodeBlockStart == match b case Outside => -1 case Fenced(s) => s case Indented(s) => s
    }

    /** isLineWithinCodeBlock. Nothing is asked of the variables at the first line. */
    method IsLineWithinCodeBlock(lines: seq<string>, index: nat) returns (code: bool)
      requires index < |lines| && (index > 0 ==> Describes(BlockAt(lines, index)))
      modifies this
      ensures code == IsCode(lines, index) && Describes(BlockAt(lines, index + 1))
      ensures insideInline == if index == 0 then false else old(insideInline)
      ensures !(insideFenced && insideIndented)
    {
      if index == 0 {
        insideInline, insideFenced, insideIndented, currentCodeBlockStart := false, false, false, -1;
      }
      var line := lines[index];
      if insideFenced {
        if IsFence(line) && lines[currentCodeBlockStart][..3] == line[..3] {
          insideFenced := false;
          currentCodeBlockStart := -1;
        }
        return true;
      } else if insideIndented {
        if !IsIndented(line) && |line| > 0 {
          insideIndented := false;
          currentCodeBlockStart := -1;
        } else {
          return true;
        }
      } else {
        if IsFence(line) {
          insideFenced := true;
          currentCodeBlockStart := index;
          return true;
        } else if IsIndented(line) && ((index > 0 && |lines[index - 1]| == 0) || index == 0) {
          insideIndented := true;
          currentCodeBlockStart := index;
          return true;
        }
      }
      return false;
    }

    /** The links kept among the matches of one pattern. */
    method KeepLinks(line: string, index: nat, ms: seq<Match>, isWiki: bool, ghost before: nat)
      returns (found: seq<Found>)
      requires (forall m | m in ms :: InBounds(line, m)) && insideInline == Odd(before)
      ensures found == KeptAll(line, index, ms, isWiki, before)
    {
      found := [];
      for i := 0 to |ms|
        invariant found == KeptAll(line, index, ms[..i], isWiki, before)
      {
        var m := ms[i];
        KeepNext(line, index, ms, isWiki, before, i);
        var inline := WithinInlineCode(line, m.end, insideInline);
        if !inline && !(!isWiki && IgnoredTarget(line, m)) {
          var href := Href(line, m, isWiki);
          if href != "" {
            found := found + [Found(href, index, m.start, m.end, m.hasTitle, isWiki)];
          }
        }
      }
      assert ms[..|ms|] == ms;
    }

    /** The links of a line outside code blocks; the inline state is carried over to the next line. */
    method ScanLine(p: Patterns, line: string, index: nat, ghost before: nat) returns (found: seq<Found>)
      requires PatternsOk(p, line) && insideInline == Odd(before)
      modifies this`insideInline
      ensures found == LineLinks(p, line, index, before)
      ensures insideInline == Odd(before + Backticks(line))
    {
      var markdown := KeepLinks(line, index, p.markdown(line), false, before);
      var wiki := KeepLinks(line, index, p.wiki(line), true, before);
      OddSum(before, Backticks(line));
      OddIsModulo(Backticks(line));
      if Backticks(line) % 2 == 1 {
        insideInline := !insideInline;
      }
      return markdown + wiki;
    }

    /** The variables are those of a scan of the lines before `i`; at the first line they are free. */
    predicate ScannedTo(lines: seq<string>, i: nat)
      requires i <= |lines|
      reads this
    {
      i > 0 ==> Describes(BlockAt(lines, i)) && insideInline == Odd(BackticksBefore(lines, i))
    }

    method ScanNext(p: Patterns, lines: seq<string>, i: nat) returns (found: seq<Found>)
      requires i < |lines| && AllOk(p, lines) && ScannedTo(lines, i)
      modifies this
      ensures ScannedTo(lines, i + 1)
      ensures LinksBefore(p, lines, i) + found == LinksBefore(p, lines, i + 1)
    {
      NextLine(p, lines, i);
      ghost var before := BackticksBefore(lines, i);
      var code := IsLineWithinCodeBlock(lines, i);
      assert insideInline == Odd(before);
      if code {
        found := [];
        assert LinksBefore(p, lines, i) + [] == LinksBefore(p, lines, i);
      } else {
        found := ScanLine(p, lines[i], i, before);
      }
    }

    /** DocumentLinks: whatever an earlier call left in the variables, the links found are those of
        the lines. */
    method DocumentLinks(p: Patterns, lines: seq<string>) returns (links: seq<Found>)
      requires AllOk(p, lines)
      modifies this
      ensures links == LinksBefore(p, lines, |lines|)
    {
      links := [];
      for i := 0 to |lines|
        invariant links == LinksBefore(p, lines, i) && ScannedTo(lines, i)
      {
        var found := ScanNext(p, lines, i);
        links := links + found;
      }
    }
  }
}
