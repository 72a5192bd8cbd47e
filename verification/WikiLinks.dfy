/** Wiki links: the printer used when a link is inserted in a note and the parser used when the
    note is read. Printing then parsing returns the path exactly on the paths that survive. */
module WikiLinks {
  import opened Strings

  datatype Relation = NoRelation | Up | Down

  datatype WikiLink = WikiLink(href: string, linkLabel: string, rel: Relation)

  // --- Printer ---

  /** NewWikiLinkFormatter, with path encoding off. */
  function Format(path: string): string {
    "[[" + ReplaceAll(ReplaceAll(path, "\\", "\\\\"), "]]", "\\]]") + "]]"
  }

  // --- Parser ---

  datatype Status = Scanning | Rejected | Ended

  /** The variables of the scan. */
  datatype Scan = Scan(href: string, linkLabel: string, rel: Relation, isOpen: bool, closed: bool, escaping: bool,
                       inLabel: bool, openers: nat, closers: nat, status: Status)

  const START := Scan("", "", NoRelation, false, false, false, false, 0, 0, Scanning)

  function Append(s: Scan, text: string): Scan {
    if s.inLabel then s.(linkLabel := s.linkLabel + text) else s.(href := s.href + text)
  }

  function Brackets(n: nat): (r: string)
    ensures |r| == n
  {
    if n == 0 then "" else "]" + Brackets(n - 1)
  }

  /** One character of the line. */
  function Next(s: Scan, c: char): Scan {
    if s.closed then s.(rel := if c == '#' then Down else s.rel, status := Ended)
    else if !s.isOpen && c == '#' then s.(rel := Up)
    else if !s.isOpen && c == '[' then s.(openers := s.openers + 1)
    else if !s.isOpen && (s.openers < 2 || s.openers > 3) then s.(status := Rejected)
    else Content(s.(isOpen := true), c)
  }

  function Content(s: Scan, c: char): Scan {
    if !s.escaping && c == '|' then s.(inLabel := true)
    else if !s.escaping && c == '\\' then s.(escaping := true)
    else if !s.escaping && c == ']' then
      var n := s.closers + 1;
      s.(closers := n, closed := n == s.openers, rel := if n == s.openers == 3 then Down else s.rel)
    else Append(Append(s.(escaping := false, closers := 0), Brackets(s.closers)), [c])
  }

  function Run(s: Scan, line: string): Scan
    decreases |line|
  {
    if line == [] || s.status != Scanning then s else Run(Next(s, line[0]), line[1..])
  }

  function Result(s: Scan): Option<WikiLink> {
    if s.status == Rejected || !s.closed || s.href == "" then None
    else
      var href, linkLabel := TrimSpace(s.href), TrimSpace(s.linkLabel);
      Some(WikiLink(href, if linkLabel == "" then href else linkLabel, s.rel))
  }

  lemma RunNext(s: Scan, line: string, i: nat)
    requires i < |line| && s.status == Scanning
    ensures Run(s, line[i..]) == Run(Next(s, line[i]), line[i + 1..])
  {
  }

  /** The body of the scanning loop; the status tells how it was left. */
  method ScanChar(before: Scan, c: char) returns (s: Scan)
    requires before.status == Scanning
    ensures s == Next(before, c)
  {
    s := before;
    if s.closed {
      if c == '#' {
        s := s.(rel := Down);
      }
      return s.(status := Ended);
    }
    if !s.isOpen {
      if c == '#' {
        return s.(rel := Up);
      }
      if c == '[' {
        return s.(openers := s.openers + 1);
      }
      if s.openers < 2 || s.openers > 3 {
        return s.(status := Rejected);
      }
    }
    s := s.(isOpen := true);
    if !s.escaping {
      if c == '|' {
        return s.(inLabel := true);
      }
      if c == '\\' {
        return s.(escaping := true);
      }
      if c == ']' {
        s := s.(closers := s.closers + 1);
        if s.closers == s.openers {
          s := s.(closed := true, rel := if s.closers == 3 then Down else s.rel);
        }
        return s;
      }
    }
    var held := Brackets(s.closers);
    s := Append(s.(escaping := false, closers := 0), held);
    s := Append(s, [c]);
  }

  /** The link found at the start of a line. */
  function ParseLine(line: string): Option<WikiLink> {
    Result(Run(START, line))
  }

  method Parse(line: string) returns (link: Option<WikiLink>)
    ensures link == ParseLine(line)
  {
    var s := START;
    var i := 0;
    while i < |line|
      invariant i <= |line| && s.status == Scanning
      invariant Run(s, line[i..]) == Run(START, line)
    {
      RunNext(s, line, i);
      s := ScanChar(s, line[i]);
      i := i + 1;
      if s.status == Rejected {
        return None;
      }
      if s.status == Ended {
        break;
      }
    }
    return Result(s);
  }

  // --- The printed path, character by character ---

  /** Backslashes are doubled and each pair of closing brackets gets a backslash. */
  function Escaped(p: string): string {
    if p == [] then []
    else if |p| >= 2 && p[0] == ']' && p[1] == ']' then "\\]]" + Escaped(p[2..])
    else if p[0] == '\\' then "\\\\" + Escaped(p[1..])
    else [p[0]] + Escaped(p[1..])
  }

  function Doubled(p: string): string {
    if p == [] then [] else (if p[0] == '\\' then "\\\\" else [p[0]]) + Doubled(p[1..])
  }

  lemma {:induction false} ReplaceDoubles(p: string)
    ensures ReplaceAll(p, "\\", "\\\\") == Doubled(p)
  {
    if p != [] {
      assert p[..1] == [p[0]];
      ReplaceDoubles(p[1..]);
    }
  }

  lemma SkipChar(c: char, rest: string)
    requires c != ']' || rest == [] || rest[0] != ']'
    ensures ReplaceAll([c] + rest, "]]", "\\]]") == [c] + ReplaceAll(rest, "]]", "\\]]")
  {
    var text := [c] + rest;
    assert text[1..] == rest;
    if |text| >= 2 {
      assert text[..2] == [c, rest[0]];
      assert "]]"[0] == ']' && "]]"[1] == ']';
    }
  }

  lemma TakePair(rest: string)
    ensures ReplaceAll("]]" + rest, "]]", "\\]]") == "\\]]" + ReplaceAll(rest, "]]", "\\]]")
  {
  }

  lemma DoubledPair(p: string)
    requires |p| >= 2 && p[0] == ']' && p[1] == ']'
    ensures Doubled(p) == "]]" + Doubled(p[2..])
  {
  }

  lemma SkipBackslashes(rest: string)
    ensures ReplaceAll("\\\\" + rest, "]]", "\\]]") == "\\\\" + ReplaceAll(rest, "]]", "\\]]")
  {
  }

  lemma {:induction false} ReplacePairs(p: string)
    ensures ReplaceAll(Doubled(p), "]]", "\\]]") == Escaped(p)
  {
    if p == [] {
    } else if |p| >= 2 && p[0] == ']' && p[1] == ']' {
      DoubledPair(p);
      TakePair(Doubled(p[2..]));
      ReplacePairs(p[2..]);
    } else {
      ReplacePairs(p[1..]);
      var rest := Doubled(p[1..]);
      if p[0] == '\\' {
        SkipBackslashes(rest);
      } else {
        SkipChar(p[0], rest);
      }
    }
  }

  lemma FormatIsEscaped(path: string)
    ensures Format(path) == "[[" + Escaped(path) + "]]"
  {
    ReplaceDoubles(path);
    ReplacePairs(path);
  }

  // --- The paths that survive ---

  /** Scanning `p` after a run of `run` closing brackets: no `|` and no line break, every run of
      closing brackets is a single one or even, and none ends the path. */
  predicate Scannable(p: string, run: nat) {
    if p == [] then run == 0
    else if p[0] == ']' then Scannable(p[1..], run + 1)
    else p[0] != '|' && p[0] != '\n' && (run <= 1 || run % 2 == 0) && Scannable(p[1..], 0)
  }

  /** The paths a printed wiki link gives back. */
  predicate Survives(path: string) {
    path != "" && Trimmed(path) && path[0] != '[' && path[0] != '#' && Scannable(path, 0)
  }

  /** The same test, two closing brackets at a time; `pending` is the number of brackets the parser holds back. */
  predicate Readable(p: string, pending: nat) {
    if p == [] then pending == 0
    else if |p| >= 2 && p[0] == ']' && p[1] == ']' then Readable(p[2..], 1)
    else if p[0] == ']' then pending == 0 && Readable(p[1..], 1)
    else p[0] != '|' && p[0] != '\n' && Readable(p[1..], 0)
  }

  lemma {:induction false} ScannableIsReadable(p: string, run: nat)
    requires run == 0 || run % 2 == 0 || (run == 1 && (p == [] || p[0] != ']'))
    ensures Scannable(p, run) <==> Readable(p, if run == 0 then 0 else 1)
    decreases |p|
  {
    if p == [] {
    } else if |p| >= 2 && p[0] == ']' && p[1] == ']' {
      assert p[1..][1..] == p[2..] && p[1..][0] == ']';
      ScannableIsReadable(p[2..], run + 2);
    } else if p[0] == ']' {
      if run == 0 {
        ScannableIsReadable(p[1..], 1);
      } else if |p| > 1 {
        assert p[1..][0] != ']';
      }
    } else {
      ScannableIsReadable(p[1..], 0);
    }
  }

  // --- Printing then parsing ---

  /** The first line of a text, with its line break. */
  function LineOf(text: string): string {
    if text == [] then [] else if text[0] == '\n' then "\n" else [text[0]] + LineOf(text[1..])
  }

  /** Inside a `[[` link, before its label. */
  predicate Inside(s: Scan) {
    s.isOpen && !s.closed && !s.escaping && !s.inLabel && s.openers == 2 && s.status == Scanning
  }

  lemma RunStep(s: Scan, c: char, rest: string)
    requires s.status == Scanning
    ensures c != '\n' ==> Run(s, LineOf([c] + rest)) == Run(Next(s, c), LineOf(rest))
    ensures c == '\n' ==> Run(s, LineOf([c] + rest)) == Next(s, c)
  {
  }

  /** The scan once the pending brackets and `c` are added to the href. */
  function Taken(s: Scan, c: char): Scan {
    s.(href := s.href + Brackets(s.closers) + [c], closers := 0)
  }

  lemma ReadPlain(s: Scan, c: char, rest: string)
    requires Inside(s) && c != '|' && c != '\\' && c != ']' && c != '\n'
    ensures Run(s, LineOf([c] + rest)) == Run(Taken(s, c), LineOf(rest))
  {
  }

  lemma ReadEscaped(s: Scan, c: char, rest: string)
    requires Inside(s) && c != '\n'
    ensures Run(s, LineOf(['\\', c] + rest)) == Run(Taken(s, c), LineOf(rest))
  {
  }

  /** The scan once one more closing bracket is counted. */
  function Counted(s: Scan): Scan {
    s.(closers := s.closers + 1, closed := s.closers + 1 == 2)
  }

  lemma ReadBracket(s: Scan, rest: string)
    requires Inside(s)
    ensures Run(s, LineOf("]" + rest)) == Run(Counted(s), LineOf(rest))
  {
  }

  lemma ReadPair(s: Scan, rest: string)
    requires Inside(s) && s.closers <= 1
    ensures Run(s, LineOf("\\]]" + rest)) == Run(Counted(Taken(s, ']')), LineOf(rest))
  {
    assert "\\]]" + rest == ['\\', ']'] + ("]" + rest);
    ReadEscaped(s, ']', "]" + rest);
    ReadBracket(Taken(s, ']'), rest);
  }

  /** `r` closed the link of the scan `s` with the given href; what follows the link can only set its relation. */
  predicate ClosedWith(r: Scan, s: Scan, href: string, rest: string) {
    && r.closed && r.status != Rejected && r.href == href && r.linkLabel == s.linkLabel
    && r.rel == if rest != [] && rest[0] == '#' then Down else s.rel
  }

  lemma ReadAfter(s: Scan, rest: string)
    requires s.closed && s.status == Scanning
    ensures ClosedWith(Run(s, LineOf(rest)), s, s.href, rest)
  {
  }

  lemma ReadEnd(s: Scan, rest: string)
    requires Inside(s) && s.closers == 0
    ensures ClosedWith(Run(s, LineOf("]]" + rest)), s, s.href, rest)
  {
    assert "]]" + rest == "]" + ("]" + rest);
    ReadBracket(s, "]" + rest);
    ReadBracket(Counted(s), rest);
    ReadAfter(Counted(Counted(s)), rest);
  }

  /** What the scan has taken, the brackets it holds back and the text to come, put together. */
  function Whole(s: Scan, p: string): string {
    s.href + Brackets(s.closers) + p
  }

  lemma WholeCounted(s: Scan, p: string)
    ensures Whole(Counted(s), p) == Whole(s, "]" + p)
  {
    BracketsSnoc(s.closers);
  }

  lemma WholeTaken(s: Scan, c: char, p: string)
    ensures Whole(Taken(s, c), p) == Whole(s, [c] + p)
  {
  }

  lemma {:induction false} BracketsSnoc(n: nat)
    ensures Brackets(n + 1) == Brackets(n) + "]"
  {
    if n > 0 {
      BracketsSnoc(n - 1);
    }
  }

  predicate StartsPair(p: string) { |p| >= 2 && p[0] == ']' && p[1] == ']' }

  /** What is left of a text once its first printed unit is read. */
  function AfterUnit(p: string): string
    requires p != []
  {
    if StartsPair(p) then p[2..] else p[1..]
  }

  /** The scan once the first printed unit of a readable text is read. */
  function UnitRead(p: string, s: Scan): Scan
    requires p != []
  {
    if StartsPair(p) then Counted(Taken(s, ']')) else if p[0] == ']' then Counted(s) else Taken(s, p[0])
  }

  lemma UnitRuns(p: string, s: Scan, after: string)
    requires Inside(s) && s.closers <= 1 && p != [] && Readable(p, s.closers)
    ensures Run(s, LineOf(Escaped(p) + after)) == Run(UnitRead(p, s), LineOf(Escaped(AfterUnit(p)) + after))
  {
    var tail := Escaped(AfterUnit(p)) + after;
    if StartsPair(p) {
      assert Escaped(p) + after == "\\]]" + tail;
      ReadPair(s, tail);
    } else if p[0] == '\\' {
      assert Escaped(p) + after == ['\\', '\\'] + tail;
      ReadEscaped(s, '\\', tail);
    } else {
      assert Escaped(p) + after == [p[0]] + tail;
      if p[0] == ']' {
        ReadBracket(s, tail);
      } else {
        ReadPlain(s, p[0], tail);
      }
    }
  }

  lemma UnitIsWhole(p: string, s: Scan)
    requires p != []
    ensures Whole(UnitRead(p, s), AfterUnit(p)) == Whole(s, p)
  {
    var rest := AfterUnit(p);
    if StartsPair(p) {
      WholeCounted(Taken(s, ']'), rest);
      WholeTaken(s, ']', "]" + rest);
      assert p == [']'] + ("]" + rest);
    } else {
      assert p == [p[0]] + rest;
      if p[0] == ']' {
        WholeCounted(s, rest);
      } else {
        WholeTaken(s, p[0], rest);
      }
    }
  }

  /** From inside a link, the printed form of a readable text is read back whole. */
  lemma {:induction false} ReadsBack(p: string, s: Scan, rest: string)
    requires Inside(s) && s.closers <= 1 && Readable(p, s.closers)
    ensures ClosedWith(Run(s, LineOf(Escaped(p) + ("]]" + rest))), s, Whole(s, p), rest)
    decreases |p|
  {
    if p == [] {
      assert Escaped(p) + ("]]" + rest) == "]]" + rest;
      ReadEnd(s, rest);
    } else {
      UnitRuns(p, s, "]]" + rest);
      UnitIsWhole(p, s);
      ReadsBack(AfterUnit(p), UnitRead(p, s), rest);
    }
  }

  // --- Losing part of the path ---

  /** Once the link is closed or its label begins, the href does not change any more. */
  lemma {:induction false} HrefKept(s: Scan, line: string)
    requires s.closed || (s.inLabel && s.isOpen)
    ensures Run(s, line).href == s.href
    decreases |line|
  {
    if line != [] && s.status == Scanning {
      HrefKept(Next(s, line[0]), line[1..]);
    }
  }

  /** From inside a link, the printed form of a text that is not readable is not read back whole. */
  lemma {:induction false} Misreads(p: string, s: Scan)
    requires Inside(s) && s.closers <= 1 && !Readable(p, s.closers)
    ensures var r := Run(s, LineOf(Escaped(p) + "]]")); r.closed ==> |r.href| < |s.href| + s.closers + |p|
    decreases |p|
  {
    if p == [] {
      assert Escaped(p) + "]]" == "]" + "]";
      ReadBracket(s, "]");
      HrefKept(Counted(s), LineOf("]"));
    } else if |p| >= 2 && p[0] == ']' && p[1] == ']' {
      var tail := Escaped(p[2..]) + "]]";
      assert Escaped(p) + "]]" == "\\]]" + tail;
      ReadPair(s, tail);
      Misreads(p[2..], Counted(Taken(s, ']')));
    } else {
      var tail := Escaped(p[1..]) + "]]";
      assert Escaped(p) + "]]" == (if p[0] == '\\' then ['\\', '\\'] else [p[0]]) + tail;
      if p[0] == ']' {
        ReadBracket(s, tail);
        if s.closers == 1 {
          HrefKept(Counted(s), LineOf(tail));
        } else {
          Misreads(p[1..], Counted(s));
        }
      } else if p[0] == '\\' {
        ReadEscaped(s, '\\', tail);
        Misreads(p[1..], Taken(s, p[0]));
      } else if p[0] == '|' || p[0] == '\n' {
        RunStep(s, p[0], tail);
        HrefKept(s.(inLabel := true), LineOf(tail));
      } else {
        ReadPlain(s, p[0], tail);
        Misreads(p[1..], Taken(s, p[0]));
      }
    }
  }

  // --- The start of the link ---

  /** `[[` has been read. */
  const OPENED := START.(openers := 2)

  lemma ReadBrackets(tail: string)
    ensures Run(START, LineOf("[" + ("[" + tail))) == Run(OPENED, LineOf(tail))
  {
    RunStep(START, '[', "[" + tail);
    RunStep(START.(openers := 1), '[', tail);
  }

  lemma ReadOpening(path: string, rest: string)
    ensures Run(START, LineOf(Format(path) + rest)) == Run(OPENED, LineOf(Escaped(path) + ("]]" + rest)))
  {
    FormatIsEscaped(path);
    var tail := Escaped(path) + ("]]" + rest);
    assert Format(path) + rest == "[" + ("[" + tail);
    ReadBrackets(tail);
  }

  /** The first character of the text opens the link for good, unless it is a bracket or a hash. */
  lemma FirstChar(line: string)
    requires line != [] && line[0] != '[' && line[0] != '#'
    ensures Run(OPENED, line) == Run(OPENED.(isOpen := true), line)
  {
  }

  lemma EscapedFirst(path: string, after: string)
    requires path != [] && path[0] != '[' && path[0] != '#'
    ensures var line := LineOf(Escaped(path) + after); line != [] && line[0] != '[' && line[0] != '#'
  {
  }

  /** How much text the href can still grow to without reading any more of the path. */
  function Weight(s: Scan): nat {
    |s.href| + s.closers
  }

  /** A scan ready for the next printed unit. */
  predicate Ready(s: Scan) {
    !s.closed && s.status == Scanning && !s.escaping
  }

  /** A plain unit takes at most one more character. */
  lemma PlainWeight(s: Scan, c: char)
    requires Ready(s) && c != '\\'
    ensures var t := Next(s, c); (Ready(t) || t.closed || t.status != Scanning) && Weight(t) <= Weight(s) + 1
    ensures c == ']' ==> Next(s, c).href == s.href
  {
  }

  /** An escaped unit takes at most one more character. */
  lemma EscapedWeight(s: Scan, c: char)
    requires Ready(s)
    ensures var t := Next(s, '\\');
      && Weight(t) <= Weight(s) && !t.closed
      && (t.status == Scanning ==> Ready(Next(t, c)) && Weight(Next(t, c)) <= Weight(s) + 1)
  {
  }

  lemma Stopped(s: Scan, line: string)
    requires s.closed || s.status != Scanning
    ensures |Run(s, line).href| <= Weight(s)
  {
  }

  /** The printed form of a text adds at most its length to the href. */
  lemma {:induction false} HrefBound(p: string, s: Scan)
    requires Ready(s)
    ensures |Run(s, LineOf(Escaped(p) + "]]")).href| <= Weight(s) + |p|
    decreases |p|
  {
    if p == [] {
      EndBound(s);
      assert Escaped(p) + "]]" == "]]";
    } else if |p| >= 2 && p[0] == ']' && p[1] == ']' {
      PairBound(p, s);
    } else if p[0] == '\\' {
      BackslashBound(p, s);
    } else {
      var tail := Escaped(p[1..]) + "]]";
      assert Escaped(p) + "]]" == [p[0]] + tail;
      RunStep(s, p[0], tail);
      PlainWeight(s, p[0]);
      var t := Next(s, p[0]);
      if Ready(t) {
        HrefBound(p[1..], t);
      } else {
        Stopped(t, LineOf(tail));
      }
    }
  }

  lemma EndBound(s: Scan)
    requires Ready(s)
    ensures |Run(s, LineOf("]]")).href| <= Weight(s)
  {
  }

  lemma BackslashBound(p: string, s: Scan)
    requires Ready(s) && p != [] && p[0] == '\\'
    ensures |Run(s, LineOf(Escaped(p) + "]]")).href| <= Weight(s) + |p|
    decreases |p|, 0
  {
    var tail := Escaped(p[1..]) + "]]";
    assert Escaped(p) + "]]" == ['\\'] + (['\\'] + tail);
    RunStep(s, '\\', ['\\'] + tail);
    EscapedWeight(s, '\\');
    var t := Next(s, '\\');
    if t.status == Scanning {
      RunStep(t, '\\', tail);
      HrefBound(p[1..], Next(t, '\\'));
    }
  }

  lemma PairBound(p: string, s: Scan)
    requires Ready(s) && |p| >= 2 && p[0] == ']' && p[1] == ']'
    ensures |Run(s, LineOf(Escaped(p) + "]]")).href| <= Weight(s) + |p|
    decreases |p|, 0
  {
    var tail := Escaped(p[2..]) + "]]";
    assert Escaped(p) + "]]" == ['\\'] + ([']'] + ([']'] + tail));
    RunStep(s, '\\', [']'] + ([']'] + tail));
    EscapedWeight(s, ']');
    var t := Next(s, '\\');
    if t.status == Scanning {
      var u := Next(t, ']');
      RunStep(t, ']', [']'] + tail);
      RunStep(u, ']', tail);
      PlainWeight(u, ']');
      if Ready(Next(u, ']')) {
        HrefBound(p[2..], Next(u, ']'));
      } else {
        Stopped(Next(u, ']'), LineOf(tail));
      }
    }
  }

  /** A path that begins with a bracket or a hash loses it. */
  lemma LosesFirst(path: string)
    requires path != [] && (path[0] == '[' || path[0] == '#')
    ensures |Run(OPENED, LineOf(Escaped(path) + "]]")).href| < |path|
  {
    var tail := Escaped(path[1..]) + "]]";
    assert Escaped(path) + "]]" == [path[0]] + tail;
    RunStep(OPENED, path[0], tail);
    HrefBound(path[1..], Next(OPENED, path[0]));
  }

  // --- Round trip ---

  /** A path that survives is read back from its printed link, whatever follows on the line; a
      hash right after the link marks it as a down link. */
  lemma PrintedLinkParses(path: string, rest: string)
    requires Survives(path)
    ensures ParseLine(LineOf(Format(path) + rest))
         == Some(WikiLink(path, path, if rest != [] && rest[0] == '#' then Down else NoRelation))
  {
    ReadOpening(path, rest);
    ScannableIsReadable(path, 0);
    EscapedFirst(path, "]]" + rest);
    FirstChar(LineOf(Escaped(path) + ("]]" + rest)));
    ReadsBack(path, OPENED.(isOpen := true), rest);
    assert Whole(OPENED.(isOpen := true), path) == path by { assert Brackets(0) == ""; }
    TrimSpaceFixes(path);
  }

  /** Printing a path as a wiki link and parsing it returns the path exactly when the path
      survives: it is not empty, has no space around, does not begin with a bracket or a hash, and
      holds no pipe, no line break, and only runs of closing brackets of length one or even, away
      from its end. */
  lemma RoundTripIff(path: string)
    ensures (ParseLine(LineOf(Format(path))).Some? && ParseLine(LineOf(Format(path))).value.href == path)
      <==> Survives(path)
  {
    assert Format(path) + [] == Format(path) && "]]" + [] == "]]";
    ReadOpening(path, []);
    var r := Run(OPENED, LineOf(Escaped(path) + "]]"));
    if Survives(path) {
      PrintedLinkParses(path, []);
    } else if path == "" {
      assert Escaped("") + "]]" == "]]";
      HrefBound("", OPENED);
    } else if path[0] == '[' || path[0] == '#' {
      LosesFirst(path);
    } else {
      EscapedFirst(path, "]]");
      FirstChar(LineOf(Escaped(path) + "]]"));
      ScannableIsReadable(path, 0);
      if Scannable(path, 0) {
        ReadsBack(path, OPENED.(isOpen := true), []);
        assert Whole(OPENED.(isOpen := true), path) == path by { assert Brackets(0) == ""; }
        TrimSpaceFixes(path);
      } else {
        Misreads(path, OPENED.(isOpen := true));
      }
    }
  }
}
