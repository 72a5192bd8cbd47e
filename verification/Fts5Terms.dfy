/** What a converted query says: the terms and operators of the query, read off its text, each written
    in FTS5 syntax, in order. */
module Fts5Terms {
  import opened Strings
  import opened Fts5Query

  // --- The items of a query ---

  /** `Word` is a bare term, `Phrase` an explicitly quoted one with any bare text right before it, `Sign` one
      of ^ * :, `Filter` a column name, `Gap` a separator. */
  datatype Item =
    | Word(word: string)
    | Phrase(text: string)
    | Sign(sign: char)
    | Filter(column: string)
    | Gap(gap: char)
    | Operator(name: string)

  predicate IsGap(c: char) {
    c in {' ', '\t', '\n', '(', ')'}
  }

  predicate EndsWord(c: char) {
    IsGap(c) || c in {'"', ':', '|'}
  }

  /** The longest prefix that can be a bare term. */
  function FirstWord(q: string): (w: string)
    ensures |w| <= |q| && w == q[..|w|] && (|w| < |q| ==> EndsWord(q[|w|]))
    ensures forall i | 0 <= i < |w| :: !EndsWord(w[i])
  {
    if q == [] || EndsWord(q[0]) then [] else [q[0]] + FirstWord(q[1..])
  }

  /** The text before the next quote. */
  function UntilQuote(q: string): (t: string)
    ensures |t| <= |q| && t == q[..|t|] && '"' !in t && (|t| < |q| ==> q[|t|] == '"')
  {
    if q == [] || q[0] == '"' then [] else [q[0]] + UntilQuote(q[1..])
  }

  /** The items of a query that starts outside quotes, between two terms. */
  function Items(q: string): seq<Item>
    decreases |q|, 1
  {
    if q == [] then []
    else if q[0] == '"' then QuotedItems(q[1..])
    else if q[0] in {'^', '*', ':'} then [Sign(q[0])] + Items(q[1..])
    else if q[0] == '-' then [Operator("NOT")] + Items(q[1..])
    else if q[0] == '|' then [Operator("OR")] + Items(q[1..])
    else if q[0] == '+' then Items(q[1..])
    else if IsGap(q[0]) then [Gap(q[0])] + Items(q[1..])
    else
      var w := FirstWord(q);
      WordItems(w, q[|w|..])
  }

  /** The items once the bare text `w` is read: it is a term, a column name or the start of a quoted term. */
  function WordItems(w: string, rest: string): seq<Item>
    decreases |rest|, 2
  {
    if rest != [] && rest[0] == ':' then [Filter(w)] + Items(rest[1..])
    else if rest != [] && rest[0] == '"' then PhraseItems(w, rest[1..])
    else [Word(w)] + Items(rest)
  }

  /** The items once a quote is open and nothing of its term is read: a dash, ^ and * still act there. */
  function QuotedItems(q: string): seq<Item>
    decreases |q|, 1
  {
    if q == [] then []
    else if q[0] == '"' then Items(q[1..])
    else if q[0] in {'^', '*'} then [Sign(q[0])] + QuotedItems(q[1..])
    else if q[0] == '-' then [Operator("NOT")] + QuotedItems(q[1..])
    else PhraseItems("", q)
  }

  /** The items once a quote is open and `w` is read of its term: all up to the next quote belongs to it. */
  function PhraseItems(w: string, q: string): seq<Item>
    decreases |q|, 0
  {
    var t := UntilQuote(q);
    var after := q[|t|..];
    [Phrase(w + t)] + if after == [] then [] else Items(after[1..])
  }

  // --- Writing them ---

  function InQuotes(text: string): string {
    "\"" + text + "\""
  }

  function Write(item: Item): string {
    match item
    case Word(w) =>
      if w in {"AND", "OR", "NOT"} then w
      else if HasSuffix(w, "*") then InQuotes(w[..|w| - 1]) + "*"
      else InQuotes(w)
    case Phrase(t) => InQuotes(t)
    case Sign(c) => [c]
    case Filter(column) => column + ":"
    case Gap(c) => [c]
    case Operator(name) => " " + name + " "
  }

  function WriteAll(items: seq<Item>): string {
    if items == [] then "" else Write(items[0]) + WriteAll(items[1..])
  }

  lemma WriteFirst(item: Item, rest: seq<Item>)
    ensures WriteAll([item] + rest) == Write(item) + WriteAll(rest)
  {
    assert ([item] + rest)[1..] == rest;
  }

  // --- The conversion writes the items ---

  function ConvertFrom(s: State, q: string): string {
    CloseTerm(Read(s, q)).out
  }

  lemma FromStep(s: State, q: string)
    requires q != []
    ensures ConvertFrom(s, q) == ConvertFrom(Step(s, q[0]), q[1..])
  {
    assert q == [q[0]] + q[1..];
    ReadConcat(s, [q[0]], q[1..]);
    ReadOne(s, q[0]);
  }

  lemma FromConcat(s: State, a: string, b: string)
    ensures ConvertFrom(s, a + b) == ConvertFrom(Read(s, a), b)
  {
    ReadConcat(s, a, b);
  }

  function Between(out: string): State { State(out, "", false) }

  lemma WriteItem(out: string, item: Item, rest: seq<Item>)
    ensures out + Write(item) + WriteAll(rest) == out + WriteAll([item] + rest)
  {
    WriteFirst(item, rest);
    ConcatAssociative(out, Write(item), WriteAll(rest));
  }

  /** A bare term closed at its end is written as its item. */
  lemma CloseWord(out: string, w: string)
    requires w != ""
    ensures CloseTerm(State(out, w, false)) == Between(out + Write(Word(w)))
  {
  }

  lemma ReadPhrase(out: string, w: string, t: string)
    requires '"' !in t && (w != "" || QuotableTerm(t))
    ensures Read(State(out, w, true), t) == State(out, w + t, true)
    decreases |t|
  {
    if t != [] {
      var front, last := t[..|t| - 1], t[|t| - 1];
      assert t == front + [last];
      if front == [] {
        assert w + t == w + [last];
      } else {
        ReadPhrase(out, w, front);
      }
    }
  }

  lemma {:induction false} ItemsWritten(out: string, q: string)
    ensures ConvertFrom(Between(out), q) == out + WriteAll(Items(q))
    decreases |q|, 1
  {
    if q != [] {
      var c, rest := q[0], q[1..];
      if c == '"' {
        FromStep(Between(out), q);
        QuotedItemsWritten(out, rest);
      } else if c in {'^', '*', ':'} {
        FromStep(Between(out), q);
        StepSign(out, c);
        ItemsWritten(out + [c], rest);
        WriteItem(out, Sign(c), Items(rest));
      } else if c == '-' {
        FromStep(Between(out), q);
        ItemsWritten(out + " NOT ", rest);
        OperatorWritten(out, "NOT", rest);
      } else if c == '|' {
        FromStep(Between(out), q);
        ItemsWritten(out + " OR ", rest);
        OperatorWritten(out, "OR", rest);
      } else if c == '+' {
        FromStep(Between(out), q);
        ItemsWritten(out, rest);
      } else if IsGap(c) {
        FromStep(Between(out), q);
        ItemsWritten(out + [c], rest);
        WriteItem(out, Gap(c), Items(rest));
      } else {
        WordWritten(out, q);
      }
    }
  }

  lemma StepSign(out: string, c: char)
    requires c in {'^', '*', ':'}
    ensures Step(Between(out), c) == Between(out + [c])
  {
    assert out + "" == out;
  }

  lemma OperatorWritten(out: string, name: string, rest: string)
    requires name == "NOT" || name == "OR"
    ensures out + (if name == "NOT" then " NOT " else " OR ") + WriteAll(Items(rest))
         == out + WriteAll([Operator(name)] + Items(rest))
  {
    assert " " + "NOT" + " " == " NOT " && " " + "OR" + " " == " OR ";
    WriteItem(out, Operator(name), Items(rest));
  }

  /** A query that starts with a bare term. */
  lemma WordWritten(out: string, q: string)
    requires q != [] && q[0] !in {'^', '*', '-', '+'} && !EndsWord(q[0])
    ensures ConvertFrom(Between(out), q) == out + WriteAll(WordItems(FirstWord(q), q[|FirstWord(q)|..]))
    decreases |q|, 0
  {
    var w := FirstWord(q);
    var rest := q[|w|..];
    assert q == w + rest;
    FirstWordIsBare(q);
    ReadBare(out, w);
    FromConcat(Between(out), w, rest);
    WordItemsWritten(out, w, rest);
  }

  lemma {:induction false} WordItemsWritten(out: string, w: string, rest: string)
    requires w != "" && (rest != [] ==> EndsWord(rest[0]))
    ensures ConvertFrom(State(out, w, false), rest) == out + WriteAll(WordItems(w, rest))
    decreases |rest|, 2
  {
    AfterWord(out, w, rest);
    if rest != [] && rest[0] == ':' {
      ItemsWritten(out + w + ":", rest[1..]);
      assert out + w + ":" == out + Write(Filter(w));
      WriteItem(out, Filter(w), Items(rest[1..]));
    } else if rest != [] && rest[0] == '"' {
      PhraseWritten(out, w, rest[1..]);
    } else {
      ItemsWritten(out + Write(Word(w)), rest);
      WriteItem(out, Word(w), Items(rest));
      assert out + Write(Word(w)) + "" == out + Write(Word(w));
    }
  }

  lemma FirstWordIsBare(q: string)
    requires q != [] && q[0] !in {'^', '*', '-', '+'} && !EndsWord(q[0])
    ensures BareTerm(FirstWord(q)) && FirstWord(q) != ""
  {
    var w := FirstWord(q);
    assert w[0] == q[0];
    assert forall i | 0 <= i < |w| :: BareChar(w[i]);
  }

  /** What follows a bare term: its end, its closing, a column filter or a quote. */
  lemma AfterWord(out: string, w: string, rest: string)
    requires w != "" && (rest != [] ==> EndsWord(rest[0]))
    ensures rest == [] ==> ConvertFrom(State(out, w, false), rest) == out + Write(Word(w))
    ensures rest != [] && (rest[0] == '|' || IsGap(rest[0])) ==>
      ConvertFrom(State(out, w, false), rest) == ConvertFrom(Between(out + Write(Word(w))), rest)
    ensures rest != [] && rest[0] == ':' ==>
      ConvertFrom(State(out, w, false), rest) == ConvertFrom(Between(out + w + ":"), rest[1..])
    ensures rest != [] && rest[0] == '"' ==>
      ConvertFrom(State(out, w, false), rest) == ConvertFrom(State(out, w, true), rest[1..])
  {
    CloseWord(out, w);
    if rest != [] {
      FromStep(State(out, w, false), rest);
      FromStep(Between(out + Write(Word(w))), rest);
    }
  }

  lemma {:induction false} QuotedItemsWritten(out: string, q: string)
    ensures ConvertFrom(State(out, "", true), q) == out + WriteAll(QuotedItems(q))
    decreases |q|, 1
  {
    if q != [] {
      var c, rest := q[0], q[1..];
      if c == '"' {
        FromStep(State(out, "", true), q);
        ItemsWritten(out, rest);
      } else if c in {'^', '*'} {
        FromStep(State(out, "", true), q);
        QuotedItemsWritten(out + [c], rest);
        WriteItem(out, Sign(c), QuotedItems(rest));
      } else if c == '-' {
        FromStep(State(out, "", true), q);
        QuotedItemsWritten(out + " NOT ", rest);
        assert " " + "NOT" + " " == " NOT ";
        WriteItem(out, Operator("NOT"), QuotedItems(rest));
      } else {
        PhraseWritten(out, "", q);
      }
    }
  }

  /** A term whose quote is open runs to the next quote. */
  lemma {:induction false} PhraseWritten(out: string, w: string, q: string)
    requires w != "" || (q != [] && q[0] !in {'"', '^', '*', '-'})
    ensures ConvertFrom(State(out, w, true), q) == out + WriteAll(PhraseItems(w, q))
    decreases |q|, 0
  {
    var t := UntilQuote(q);
    var after := q[|t|..];
    assert q == t + after;
    assert w == "" ==> t != "" && t[0] == q[0];
    PhraseRead(out, w, t, after);
    if after != [] {
      ItemsWritten(out + InQuotes(w + t), after[1..]);
      WriteItem(out, Phrase(w + t), Items(after[1..]));
    } else {
      WriteItem(out, Phrase(w + t), []);
      assert out + InQuotes(w + t) + "" == out + InQuotes(w + t);
    }
  }

  lemma PhraseRead(out: string, w: string, t: string, after: string)
    requires '"' !in t && (w != "" || QuotableTerm(t)) && (after != [] ==> after[0] == '"')
    ensures ConvertFrom(State(out, w, true), t + after)
         == if after == [] then out + InQuotes(w + t) else ConvertFrom(Between(out + InQuotes(w + t)), after[1..])
  {
    ReadPhrase(out, w, t);
    FromConcat(State(out, w, true), t, after);
    ClosePhrase(out, w + t, after);
  }

  lemma ClosePhrase(out: string, t: string, after: string)
    requires t != "" && (after != [] ==> after[0] == '"')
    ensures after == [] ==> ConvertFrom(State(out, t, true), after) == out + InQuotes(t)
    ensures after != [] ==>
      ConvertFrom(State(out, t, true), after) == ConvertFrom(Between(out + InQuotes(t)), after[1..])
  {
    assert CloseTerm(State(out, t, true)) == State(out + InQuotes(t), "", true);
    if after != [] {
      FromStep(State(out, t, true), after);
    }
  }

  /** For every query, the conversion is its items, in order, in FTS5 syntax. */
  lemma ConvertWritesItems(query: string)
    ensures Convert(query) == WriteAll(Items(query))
  {
    ItemsWritten("", query);
    assert "" + WriteAll(Items(query)) == WriteAll(Items(query));
  }

  // --- On query texts ---

  /** A bare term is quoted; a star at its end stays outside the quotes; operators stay bare. */
  lemma ConvertTerm(w: string)
    requires BareTerm(w) && w != ""
    ensures w == "AND" || w == "OR" || w == "NOT" ==> Convert(w) == w
    ensures w != "AND" && w != "OR" && w != "NOT" && w[|w| - 1] != '*' ==> Convert(w) == "\"" + w + "\""
    ensures w[|w| - 1] == '*' ==> Convert(w) == "\"" + w[..|w| - 1] + "\"" + "*"
  {
    ConvertBare(w);
    assert w[|w| - 1..] == [w[|w| - 1]];
  }

  lemma ConvertBare(w: string)
    requires BareTerm(w) && w != ""
    ensures Convert(w) == Write(Word(w))
  {
    ReadBare("", w);
    CloseWord("", w);
    assert "" + Write(Word(w)) == Write(Word(w));
  }

  lemma {:induction false} InQuoteIffUnbalanced(q: string)
    ensures Read(INIT, q).inQuote <==> !Balanced(q)
  {
    if q != [] {
      InQuoteIffUnbalanced(q[..|q| - 1]);
    }
  }

  lemma ConvertedFrom(out: string, q: string)
    ensures ConvertFrom(Between(out), q) == out + Convert(q)
  {
    ItemsWritten(out, q);
    ConvertWritesItems(q);
  }

  /** A separator outside quotes splits a query: each side is converted on its own. */
  lemma ConvertSeparated(a: string, c: char, b: string)
    requires Balanced(a) && c in {' ', '\t', '\n', '(', ')'}
    ensures Convert(a + [c] + b) == Convert(a) + [c] + Convert(b)
  {
    InQuoteIffUnbalanced(a);
    FromConcat(INIT, a + [c], b);
    ReadConcat(INIT, a, [c]);
    ReadOne(Read(INIT, a), c);
    assert Read(INIT, a + [c]) == Between(Convert(a) + [c]);
    ConvertedFrom(Convert(a) + [c], b);
  }

  /** So does a bar, which becomes the operator OR. */
  lemma ConvertOr(a: string, b: string)
    requires Balanced(a)
    ensures Convert(a + "|" + b) == Convert(a) + " OR " + Convert(b)
  {
    InQuoteIffUnbalanced(a);
    FromConcat(INIT, a + "|", b);
    ReadConcat(INIT, a, "|");
    ReadOne(Read(INIT, a), '|');
    assert Read(INIT, a + "|") == Between(Convert(a) + " OR ");
    ConvertedFrom(Convert(a) + " OR ", b);
  }

  /** A dash in front is the operator NOT. */
  lemma ConvertNot(b: string)
    ensures Convert("-" + b) == " NOT " + Convert(b)
  {
    FromConcat(INIT, "-", b);
    ReadOne(INIT, '-');
    assert "" + " NOT " == " NOT ";
    ConvertedFrom(" NOT ", b);
  }

  /** A quoted text is one term, whatever separators and operators it holds. */
  lemma ConvertPhrase(t: string, b: string)
    requires QuotableTerm(t)
    ensures Convert("\"" + t + "\"" + b) == "\"" + t + "\"" + Convert(b)
  {
    FromConcat(INIT, "\"" + t + "\"", b);
    ReadQuoted("", t);
    assert "" + "\"" + t + "\"" == "\"" + t + "\"";
    ConvertedFrom("\"" + t + "\"", b);
  }
}
