/** What the wiki-link parser reads from the forms a user writes: labels, a leading or trailing hash, two
    or three brackets; and what it does not take for a link. */
module WikiLinkForms {
  import opened Strings
  import opened WikiLinks

  /** Text that holds nothing the parser treats specially once the link is open. */
  predicate PlainText(t: string) {
    forall i | 0 <= i < |t| :: t[i] !in {'|', '\\', ']', '\n'}
  }

  function Openers(k: nat): (r: string)
    ensures |r| == k
  {
    if k == 0 then "" else "[" + Openers(k - 1)
  }

  /** Inside the link, with no closing bracket pending. */
  predicate Reading(s: Scan) {
    s.isOpen && !s.closed && !s.escaping && s.closers == 0 && s.status == Scanning
  }

  lemma {:induction false} ReadText(s: Scan, t: string, rest: string)
    requires Reading(s) && PlainText(t)
    ensures Run(s, LineOf(t + rest)) == Run(Append(s, t), LineOf(rest))
    decreases |t|
  {
    if t == [] {
      assert t + rest == rest;
      AppendNothing(s);
    } else {
      var c, t' := t[0], t[1..];
      assert t + rest == [c] + (t' + rest);
      RunStep(s, c, t' + rest);
      AppendNothing(s);
      ReadText(Append(s, [c]), t', rest);
      AppendTwice(s, [c], t');
      assert [c] + t' == t;
    }
  }

  lemma AppendNothing(s: Scan)
    ensures Append(s, "") == s && Brackets(0) == ""
  {
    assert s.href + "" == s.href && s.linkLabel + "" == s.linkLabel;
  }

  lemma AppendTwice(s: Scan, a: string, b: string)
    ensures Append(Append(s, a), b) == Append(s, a + b)
  {
    ConcatAssociative(s.href, a, b);
    ConcatAssociative(s.linkLabel, a, b);
  }

  lemma ReadPipe(s: Scan, rest: string)
    requires Reading(s)
    ensures Run(s, LineOf("|" + rest)) == Run(s.(inLabel := true), LineOf(rest))
  {
    RunStep(s, '|', rest);
  }

  lemma {:induction false} ReadOpeners(s: Scan, k: nat, rest: string)
    requires !s.isOpen && !s.closed && s.status == Scanning
    ensures Run(s, LineOf(Openers(k) + rest)) == Run(s.(openers := s.openers + k), LineOf(rest))
    decreases k
  {
    if k == 0 {
      assert Openers(0) + rest == rest;
    } else {
      assert Openers(k) + rest == "[" + (Openers(k - 1) + rest);
      RunStep(s, '[', Openers(k - 1) + rest);
      ReadOpeners(s.(openers := s.openers + 1), k - 1, rest);
    }
  }

  lemma ReadHash(rest: string)
    ensures Run(START, LineOf("#" + rest)) == Run(START.(rel := Up), LineOf(rest))
  {
    RunStep(START, '#', rest);
  }

  /** The link once its last bracket is read. */
  function Ended(s: Scan): Scan {
    s.(closers := s.openers, closed := true, rel := if s.openers == 3 then Down else s.rel)
  }

  lemma ReadClosers(s: Scan, rest: string)
    requires Reading(s) && 2 <= s.openers <= 3
    ensures Run(s, LineOf(Brackets(s.openers) + rest)) == Run(Ended(s), LineOf(rest))
  {
    var k := s.openers;
    assert Brackets(k) + rest == "]" + (Brackets(k - 1) + rest);
    RunStep(s, ']', Brackets(k - 1) + rest);
    ReadMoreClosers(s.(closers := 1), rest);
  }

  lemma ReadMoreClosers(s: Scan, rest: string)
    requires s.isOpen && !s.closed && !s.escaping && s.status == Scanning && 2 <= s.openers <= 3 && s.closers == 1
    ensures Run(s, LineOf(Brackets(s.openers - 1) + rest)) == Run(Ended(s), LineOf(rest))
  {
    var k := s.openers;
    assert Brackets(k - 1) + rest == "]" + (Brackets(k - 2) + rest);
    RunStep(s, ']', Brackets(k - 2) + rest);
    if k == 3 {
      assert Brackets(1) + rest == "]" + rest by { assert Brackets(0) == ""; }
      RunStep(s.(closers := 2), ']', rest);
    } else {
      assert Brackets(0) + rest == rest;
    }
  }

  /** The first character that is no bracket and no hash opens a link of two or three brackets. */
  lemma FirstOpens(s: Scan, line: string)
    requires !s.isOpen && !s.closed && s.status == Scanning && line != [] && line[0] !in {'[', '#'}
    ensures 2 <= s.openers <= 3 ==> Run(s, line) == Run(s.(isOpen := true), line)
    ensures s.openers < 2 || s.openers > 3 ==> Run(s, line).status == Rejected
  {
    if s.openers < 2 || s.openers > 3 {
      assert Next(s, line[0]).status == Rejected;
      assert Run(Next(s, line[0]), line[1..]) == Next(s, line[0]);
    }
  }

  // --- The forms ---

  /** A path of a link: not empty, plain, and not taken for more brackets or a hash. */
  predicate PlainPath(h: string) {
    h != "" && PlainText(h) && h[0] !in {'[', '#'}
  }

  function LabelText(title: Option<string>): string {
    if title.Some? then "|" + title.value else ""
  }

  function Shown(h: string, title: Option<string>): string {
    if title.Some? && TrimSpace(title.value) != "" then TrimSpace(title.value) else TrimSpace(h)
  }

  lemma LineOfFirst(c: char, rest: string)
    requires c != '\n'
    ensures LineOf([c] + rest) != [] && LineOf([c] + rest)[0] == c
  {
  }

  /** The end of a link: its closing brackets and what follows them. */
  lemma ReadLinkEnd(s: Scan, rest: string)
    requires Reading(s) && 2 <= s.openers <= 3
    ensures ClosedWith(Run(s, LineOf(Brackets(s.openers) + rest)), Ended(s), s.href, rest)
  {
    ReadClosers(s, rest);
    ReadAfter(Ended(s), rest);
  }

  lemma ReadLabel(s: Scan, l: string, tail: string)
    requires Reading(s) && !s.inLabel && s.linkLabel == "" && PlainText(l)
    ensures Run(s, LineOf("|" + l + tail)) == Run(s.(inLabel := true, linkLabel := l), LineOf(tail))
  {
    assert "|" + l + tail == "|" + (l + tail);
    ReadPipe(s, l + tail);
    ReadText(s.(inLabel := true), l, tail);
    assert "" + l == l;
  }

  /** From an open link on: the path, the label, the closing brackets and what follows them. */
  lemma ReadBody(s: Scan, h: string, title: Option<string>, rest: string)
    requires Reading(s) && 2 <= s.openers <= 3 && !s.inLabel && s.href == "" && s.linkLabel == ""
    requires PlainPath(h) && (title.Some? ==> PlainText(title.value))
    ensures var r := Run(s, LineOf(h + (LabelText(title) + (Brackets(s.openers) + rest))));
      ClosedWith(r, Ended(s).(linkLabel := if title.Some? then title.value else ""), h, rest)
  {
    var tail := Brackets(s.openers) + rest;
    ReadText(s, h, LabelText(title) + tail);
    assert "" + h == h;
    if title.Some? {
      ReadLabel(s.(href := h), title.value, tail);
      ReadLinkEnd(s.(href := h, inLabel := true, linkLabel := title.value), rest);
    } else {
      assert LabelText(title) + tail == tail;
      ReadLinkEnd(s.(href := h), rest);
    }
  }

  /** The text of a link with `k` brackets. */
  function LinkText(hash: bool, k: nat, h: string, title: Option<string>): string {
    (if hash then "#" else "") + Openers(k) + h + LabelText(title) + Brackets(k)
  }

  lemma ReadStart(hash: bool, openers: string, body: string)
    ensures Run(START, LineOf((if hash then "#" else "") + openers + body))
         == Run(START.(rel := if hash then Up else NoRelation), LineOf(openers + body))
  {
    if hash {
      assert "#" + openers + body == "#" + (openers + body);
      ReadHash(openers + body);
    } else {
      assert "" + openers + body == openers + body;
    }
  }

  lemma ReachBody(hash: bool, k: nat, body: string)
    requires body != [] && body[0] !in {'[', '#', '\n'}
    ensures Run(START, LineOf((if hash then "#" else "") + Openers(k) + body))
         == Run(START.(rel := if hash then Up else NoRelation, openers := k), LineOf(body))
  {
    ReadStart(hash, Openers(k), body);
    ReadOpeners(START.(rel := if hash then Up else NoRelation), k, body);
  }

  lemma BodyOpens(s: Scan, body: string)
    requires !s.isOpen && !s.closed && s.status == Scanning && body != [] && body[0] !in {'[', '#', '\n'}
    ensures 2 <= s.openers <= 3 ==> Run(s, LineOf(body)) == Run(s.(isOpen := true), LineOf(body))
    ensures s.openers < 2 || s.openers > 3 ==> Run(s, LineOf(body)).status == Rejected
  {
    assert body == [body[0]] + body[1..];
    LineOfFirst(body[0], body[1..]);
    FirstOpens(s, LineOf(body));
  }

  lemma OpenBody(hash: bool, k: nat, body: string)
    requires body != [] && body[0] !in {'[', '#', '\n'}
    ensures var s := START.(rel := if hash then Up else NoRelation, openers := k);
      && (2 <= k <= 3 ==>
            Run(START, LineOf((if hash then "#" else "") + Openers(k) + body)) == Run(s.(isOpen := true), LineOf(body)))
      && (k < 2 || k > 3 ==> Run(START, LineOf((if hash then "#" else "") + Openers(k) + body)).status == Rejected)
  {
    ReachBody(hash, k, body);
    BodyOpens(START.(rel := if hash then Up else NoRelation, openers := k), body);
  }

  /** The scan of a link that is open. */
  function Opening(hash: bool, k: nat): Scan {
    START.(rel := if hash then Up else NoRelation, openers := k, isOpen := true)
  }

  lemma LinkRuns(text: string, hash: bool, k: nat, h: string, title: Option<string>, rest: string)
    requires 2 <= k <= 3 && PlainPath(h) && (title.Some? ==> PlainText(title.value))
    requires text == LinkText(hash, k, h, title) + rest
    ensures var s := Ended(Opening(hash, k)).(linkLabel := if title.Some? then title.value else "");
      ClosedWith(Run(START, LineOf(text)), s, h, rest)
  {
    var body := h + (LabelText(title) + (Brackets(k) + rest));
    LinkTextIs(hash, k, h, title, rest);
    assert body[0] == h[0];
    OpenBody(hash, k, body);
    ReadBody(Opening(hash, k), h, title, rest);
  }

  function RelationOf(hash: bool, k: nat, rest: string): Relation {
    if rest != [] && rest[0] == '#' then Down else if k == 3 then Down else if hash then Up else NoRelation
  }

  /** A text that starts with a link of two or three brackets is read as that link, with its path and its
      label, trimmed; the path stands for a missing or blank label. A hash right after it or a third
      bracket make it a down link, and otherwise a hash in front an up link. */
  lemma LinkIsRead(text: string, hash: bool, k: nat, h: string, title: Option<string>, rest: string)
    requires 2 <= k <= 3 && PlainPath(h) && (title.Some? ==> PlainText(title.value))
    requires text == LinkText(hash, k, h, title) + rest
    ensures ParseLine(LineOf(text)) == Some(LinkOf(hash, k, h, title, rest))
  {
    LinkRuns(text, hash, k, h, title, rest);
    ResultOf(Run(START, LineOf(text)), hash, k, h, title, rest);
  }

  lemma LinkTextIs(hash: bool, k: nat, h: string, title: Option<string>, rest: string)
    ensures LinkText(hash, k, h, title) + rest
         == (if hash then "#" else "") + Openers(k) + (h + (LabelText(title) + (Brackets(k) + rest)))
  {
  }

  function LinkOf(hash: bool, k: nat, h: string, title: Option<string>, rest: string): WikiLink {
    WikiLink(TrimSpace(h), Shown(h, title), RelationOf(hash, k, rest))
  }

  lemma ResultFields(r: Scan)
    requires r.closed && r.status != Rejected && r.href != ""
    ensures Result(r).Some? && Result(r).value.href == TrimSpace(r.href) && Result(r).value.rel == r.rel
    ensures Result(r).value.linkLabel
         == if TrimSpace(r.linkLabel) == "" then TrimSpace(r.href) else TrimSpace(r.linkLabel)
  {
  }

  lemma ShownIs(h: string, title: Option<string>)
    ensures var text := if title.Some? then title.value else "";
      Shown(h, title) == if TrimSpace(text) == "" then TrimSpace(h) else TrimSpace(text)
  {
    BlankLabel();
  }

  lemma RelationIs(r: Scan, hash: bool, k: nat, h: string, text: string, rest: string)
    requires ClosedWith(r, Ended(Opening(hash, k)).(linkLabel := text), h, rest)
    ensures r.closed && r.status != Rejected && r.href == h && r.linkLabel == text && r.rel == RelationOf(hash, k, rest)
  {
  }

  lemma ResultOf(r: Scan, hash: bool, k: nat, h: string, title: Option<string>, rest: string)
    requires h != ""
    requires var text := if title.Some? then title.value else "";
      ClosedWith(r, Ended(Opening(hash, k)).(linkLabel := text), h, rest)
    ensures Result(r) == Some(LinkOf(hash, k, h, title, rest))
  {
    RelationIs(r, hash, k, h, if title.Some? then title.value else "", rest);
    ResultFields(r);
    ShownIs(h, title);
  }

  lemma BlankLabel()
    ensures TrimSpace("") == ""
  {
    TrimSpaceFixes("");
  }

  /** With one bracket, or more than three, there is no link. */
  lemma OtherBracketsAreNoLink(hash: bool, k: nat, body: string)
    requires (k < 2 || k > 3) && body != [] && body[0] !in {'[', '#', '\n'}
    ensures ParseLine(LineOf((if hash then "#" else "") + Openers(k) + body)) == None
  {
    OpenBody(hash, k, body);
  }

  /** Without closing brackets there is no link. */
  lemma UnclosedIsNoLink(hash: bool, k: nat, body: string)
    requires 2 <= k <= 3 && PlainPath(body)
    ensures ParseLine(LineOf((if hash then "#" else "") + Openers(k) + body)) == None
  {
    OpenBody(hash, k, body);
    var s := START.(rel := if hash then Up else NoRelation, openers := k, isOpen := true);
    assert body + "" == body;
    ReadText(s, body, "");
    assert Run(Append(s, body), LineOf("")) == Append(s, body);
  }

  /** `[[path|label]]`, as a user writes it. */
  lemma LabelledLink(h: string, l: string, rest: string)
    requires PlainPath(h) && PlainText(l)
    ensures ParseLine(LineOf("[[" + h + "|" + l + "]]" + rest))
         == Some(WikiLink(TrimSpace(h), if TrimSpace(l) == "" then TrimSpace(h) else TrimSpace(l),
                          if rest != [] && rest[0] == '#' then Down else NoRelation))
  {
    TwoBrackets();
    var text := "[[" + h + "|" + l + "]]" + rest;
    assert "" + "[[" + h + ("|" + l) + "]]" + rest == text;
    LinkIsRead(text, false, 2, h, Some(l), rest);
  }

  lemma TwoBrackets()
    ensures Openers(2) == "[[" && Brackets(2) == "]]"
  {
    assert Openers(0) == "" && Openers(1) == "[" && Brackets(0) == "" && Brackets(1) == "]";
  }
}
