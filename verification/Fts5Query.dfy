/** The conversion of a search query into an FTS5 query, and the language of its results. */
module Fts5Query {
  import opened Strings

  predicate IsKeyword(term: string) {
    term == "AND" || term == "OR" || term == "NOT"
  }

  predicate IsSeparator(c: char) {
    c == ' ' || c == '\t' || c == '\n' || c == '(' || c == ')'
  }

  /** The output, the term being read and whether it was explicitly quoted. */
  datatype State = State(out: string, term: string, inQuote: bool)

  const INIT := State("", "", false)

  function CloseTerm(s: State): State {
    if s.term == "" then s
    else if !s.inQuote && IsKeyword(s.term) then s.(out := s.out + s.term, term := "")
    else if !s.inQuote && HasSuffix(s.term, "*") then
      s.(out := s.out + "\"" + s.term[..|s.term| - 1] + "\"" + "*", term := "")
    else s.(out := s.out + "\"" + s.term + "\"", term := "")
  }

  function Emit(s: State, text: string): State {
    s.(out := s.out + text)
  }

  /** One character of the query; the order of the cases matters. */
  function Step(s: State, c: char): State {
    if c == '"' then (if s.inQuote then CloseTerm(s) else s).(inQuote := !s.inQuote)
    else if s.term == "" && (c == '^' || c == '*') then Emit(s, [c])
    else if !s.inQuote && c == ':' then s.(out := s.out + s.term + [c], term := "")
    else if c == '-' && s.term == "" then Emit(s, " NOT ")
    else if !s.inQuote && c == '|' then Emit(CloseTerm(s), " OR ")
    else if !s.inQuote && c == '+' && s.term == "" then s
    else if !s.inQuote && IsSeparator(c) then Emit(CloseTerm(s), [c])
    else s.(term := s.term + [c])
  }

  function Read(s: State, query: string): State {
    if query == [] then s else Step(Read(s, query[..|query| - 1]), query[|query| - 1])
  }

  function Convert(query: string): string {
    CloseTerm(Read(INIT, query)).out
  }

  method ConvertQuery(query: string) returns (out: string)
    ensures out == Convert(query)
  {
    var s := INIT;
    for i := 0 to |query|
      invariant s == Read(INIT, query[..i])
    {
      var c := query[i];
      assert query[..i + 1][..i] == query[..i];
      if c == '"' {
        if s.inQuote {
          s := CloseTerm(s);
        }
        s := s.(inQuote := !s.inQuote);
      } else if s.term == "" && (c == '^' || c == '*') {
        s := s.(out := s.out + [c]);
      } else if !s.inQuote && c == ':' {
        s := s.(out := s.out + s.term + [c], term := "");
      } else if c == '-' && s.term == "" {
        s := s.(out := s.out + " NOT ");
      } else if !s.inQuote && c == '|' {
        s := CloseTerm(s);
        s := s.(out := s.out + " OR ");
      } else if !s.inQuote && c == '+' && s.term == "" {
      } else if !s.inQuote && IsSeparator(c) {
        s := CloseTerm(s);
        s := s.(out := s.out + [c]);
      } else {
        s := s.(term := s.term + [c]);
      }
    }
    assert query[..|query|] == query;
    out := CloseTerm(s).out;
  }

  // --- The language of the output ---

  /** `Quoted` is a quoted term, `Mark` one of ^ * :, `Column` a column filter, `Keyword` a bare operator. */
  datatype Token =
    | Quoted(term: string)
    | Mark(mark: char)
    | Column(name: string)
    | Separator(sep: char)
    | Keyword(word: string)

  /** A term in quotes: never empty, without quote, and not starting with a character that is
      special at the start of a term even inside quotes. */
  predicate QuotableTerm(term: string) {
    term != "" && '"' !in term && term[0] != '^' && term[0] != '*' && term[0] != '-'
  }

  predicate BareChar(c: char) {
    c != '"' && c != ':' && c != '|' && !IsSeparator(c)
  }

  /** A term outside quotes. */
  predicate BareTerm(term: string) {
    (term != "" ==> QuotableTerm(term) && term[0] != '+') && forall i | 0 <= i < |term| :: BareChar(term[i])
  }

  predicate TokenOk(t: Token) {
    match t
    case Quoted(term) => QuotableTerm(term)
    case Mark(c) => c == '^' || c == '*' || c == ':'
    case Column(name) => name != "" && BareTerm(name)
    case Separator(c) => IsSeparator(c)
    case Keyword(w) => IsKeyword(w)
  }

  function Text(t: Token): string {
    match t
    case Quoted(term) => "\"" + term + "\""
    case Mark(c) => [c]
    case Column(name) => name + ":"
    case Separator(c) => [c]
    case Keyword(w) => w
  }

  function Render(ts: seq<Token>): string {
    if ts == [] then "" else Render(ts[..|ts| - 1]) + Text(ts[|ts| - 1])
  }

  /** A bare keyword is followed by a separator, or ends the query. */
  predicate WellFormed(ts: seq<Token>) {
    forall i | 0 <= i < |ts| :: TokenOk(ts[i]) && (ts[i].Keyword? && i + 1 < |ts| ==> ts[i + 1].Separator?)
  }

  predicate Closed(ts: seq<Token>) {
    WellFormed(ts) && (ts != [] ==> !ts[|ts| - 1].Keyword?)
  }

  lemma RenderAppend(ts: seq<Token>, t: Token)
    ensures Render(ts + [t]) == Render(ts) + Text(t)
  {
    assert (ts + [t])[..|ts|] == ts;
  }

  lemma WellFormedAppend(ts: seq<Token>, t: Token)
    requires WellFormed(ts) && TokenOk(t) && (Closed(ts) || t.Separator?)
    ensures WellFormed(ts + [t])
  {
  }

  lemma CloseAppend(ts: seq<Token>, t: Token)
    requires Closed(ts) && TokenOk(t)
    ensures WellFormed(ts + [t]) && Render(ts + [t]) == Render(ts) + Text(t)
    ensures !t.Keyword? ==> Closed(ts + [t])
  {
    RenderAppend(ts, t);
    WellFormedAppend(ts, t);
  }

  lemma SeparatorAppend(ts: seq<Token>, c: char)
    requires WellFormed(ts) && IsSeparator(c)
    ensures Closed(ts + [Separator(c)]) && Render(ts + [Separator(c)]) == Render(ts) + [c]
  {
    RenderAppend(ts, Separator(c));
    WellFormedAppend(ts, Separator(c));
  }

  // --- The output is in the language ---

  /** What holds between two characters: the output so far is a closed token list. */
  ghost predicate Reading(s: State, ts: seq<Token>) {
    && Closed(ts) && s.out == Render(ts)
    && (s.inQuote ==> s.term == "" || QuotableTerm(s.term))
    && (!s.inQuote ==> BareTerm(s.term))
  }

  lemma StemIsQuotable(term: string)
    requires BareTerm(term) && term != "" && HasSuffix(term, "*")
    ensures QuotableTerm(term[..|term| - 1])
  {
  }

  lemma Reassociate(a: string, b: string, c: string, d: string)
    ensures a + (b + c + d) == a + b + c + d
  {
  }

  lemma AppendQuoted(ts: seq<Token>, term: string)
    requires Closed(ts) && QuotableTerm(term)
    ensures Closed(ts + [Quoted(term)]) && Render(ts + [Quoted(term)]) == Render(ts) + "\"" + term + "\""
  {
    CloseAppend(ts, Quoted(term));
    Reassociate(Render(ts), "\"", term, "\"");
  }

  /** Closing a term writes one well-formed piece; a keyword is left bare at the end. */
  lemma CloseTermTokens(s: State, ts: seq<Token>) returns (ts': seq<Token>)
    requires Reading(s, ts)
    ensures WellFormed(ts') && CloseTerm(s) == State(Render(ts'), "", s.inQuote)
    ensures s.inQuote ==> Closed(ts')
  {
    if s.term == "" {
      ts' := ts;
    } else if !s.inQuote && IsKeyword(s.term) {
      CloseAppend(ts, Keyword(s.term));
      ts' := ts + [Keyword(s.term)];
    } else if !s.inQuote && HasSuffix(s.term, "*") {
      var stem := s.term[..|s.term| - 1];
      StemIsQuotable(s.term);
      AppendQuoted(ts, stem);
      CloseAppend(ts + [Quoted(stem)], Mark('*'));
      ts' := ts + [Quoted(stem)] + [Mark('*')];
    } else {
      AppendQuoted(ts, s.term);
      ts' := ts + [Quoted(s.term)];
    }
  }

  lemma KeywordAppend(ts: seq<Token>, word: string) returns (ts': seq<Token>)
    requires WellFormed(ts) && IsKeyword(word)
    ensures Closed(ts') && Render(ts') == Render(ts) + (" " + word + " ")
  {
    var a := ts + [Separator(' ')];
    var b := a + [Keyword(word)];
    SeparatorAppend(ts, ' ');
    CloseAppend(a, Keyword(word));
    SeparatorAppend(b, ' ');
    ts' := b + [Separator(' ')];
    Reassociate(Render(ts), " ", word, " ");
  }

  /** Reading one more character of a term. */
  lemma GrowTerm(s: State, ts: seq<Token>, c: char)
    requires Reading(s, ts) && c != '"' && (s.term == "" ==> c != '^' && c != '*' && c != '-')
    requires !s.inQuote ==> BareChar(c) && (s.term == "" ==> c != '+')
    ensures Reading(s.(term := s.term + [c]), ts)
  {
  }

  lemma ColonTokens(s: State, ts: seq<Token>) returns (ts': seq<Token>)
    requires Reading(s, ts) && !s.inQuote
    ensures Reading(State(s.out + s.term + ":", "", false), ts')
  {
    var t := if s.term == "" then Mark(':') else Column(s.term);
    CloseAppend(ts, t);
    ts' := ts + [t];
    assert Text(t) == s.term + ":";
  }

  lemma OperatorTokens(s: State, ts: seq<Token>, word: string) returns (ts': seq<Token>)
    requires WellFormed(ts) && s.out == Render(ts) && s.term == "" && IsKeyword(word)
    ensures Reading(Emit(s, " " + word + " "), ts')
  {
    ts' := KeywordAppend(ts, word);
  }

  lemma NotTokens(s: State, ts: seq<Token>) returns (ts': seq<Token>)
    requires Reading(s, ts) && s.term == ""
    ensures Reading(Emit(s, " NOT "), ts')
  {
    ts' := OperatorTokens(s, ts, "NOT");
    assert " " + "NOT" + " " == " NOT ";
  }

  lemma OrTokens(s: State, ts: seq<Token>) returns (ts': seq<Token>)
    requires Reading(s, ts)
    ensures Reading(Emit(CloseTerm(s), " OR "), ts')
  {
    ts' := CloseTermTokens(s, ts);
    ts' := OperatorTokens(CloseTerm(s), ts', "OR");
    assert " " + "OR" + " " == " OR ";
  }

  lemma StepTokens(s: State, ts: seq<Token>, c: char) returns (ts': seq<Token>)
    requires Reading(s, ts)
    ensures Reading(Step(s, c), ts')
  {
    if c == '"' && s.inQuote {
      ts' := CloseTermTokens(s, ts);
    } else if c == '"' {
      ts' := ts;
    } else if s.term == "" && (c == '^' || c == '*') {
      CloseAppend(ts, Mark(c));
      ts' := ts + [Mark(c)];
    } else if !s.inQuote && c == ':' {
      ts' := ColonTokens(s, ts);
    } else if c == '-' && s.term == "" {
      ts' := NotTokens(s, ts);
    } else if !s.inQuote && c == '|' {
      ts' := OrTokens(s, ts);
    } else if !s.inQuote && c == '+' && s.term == "" {
      ts' := ts;
    } else if !s.inQuote && IsSeparator(c) {
      var closed := CloseTermTokens(s, ts);
      SeparatorAppend(closed, c);
      ts' := closed + [Separator(c)];
    } else {
      ts' := ts;
      GrowTerm(s, ts, c);
    }
  }

  lemma {:induction false} ReadTokens(query: string) returns (ts: seq<Token>)
    ensures Reading(Read(INIT, query), ts)
  {
    if query == [] {
      ts := [];
    } else {
      ts := ReadTokens(query[..|query| - 1]);
      ts := StepTokens(Read(INIT, query[..|query| - 1]), ts, query[|query| - 1]);
    }
  }

  /** Every result is a well-formed list of tokens: quotes are balanced, quoted terms are not
      empty, and outside quotes there are only operators, marks, separators and column filters. */
  lemma ConvertIsWellFormed(query: string) returns (ts: seq<Token>)
    ensures WellFormed(ts) && Convert(query) == Render(ts)
  {
    var open := ReadTokens(query);
    ts := CloseTermTokens(Read(INIT, query), open);
  }

  // --- The language is left unchanged ---

  lemma {:induction false} ReadConcat(s: State, a: string, b: string)
    ensures Read(s, a + b) == Read(Read(s, a), b)
  {
    if b == [] {
      assert a + b == a;
    } else {
      assert (a + b)[..|a + b| - 1] == a + b[..|b| - 1];
      ReadConcat(s, a, b[..|b| - 1]);
    }
  }

  lemma {:induction false} ReadInQuote(out: string, text: string)
    requires text == "" || QuotableTerm(text)
    ensures Read(State(out, "", true), text) == State(out, text, true)
  {
    if text != [] {
      ReadInQuote(out, text[..|text| - 1]);
      assert text == text[..|text| - 1] + [text[|text| - 1]];
    }
  }

  lemma {:induction false} ReadBare(out: string, text: string)
    requires BareTerm(text)
    ensures Read(State(out, "", false), text) == State(out, text, false)
  {
    if text != [] {
      var front := text[..|text| - 1];
      assert BareTerm(front) by {
        assert forall c | c in front :: c in text;
      }
      ReadBare(out, front);
      assert text == front + [text[|text| - 1]];
      assert BareChar(text[|text| - 1]);
    }
  }

  lemma ReadOne(s: State, c: char)
    ensures Read(s, [c]) == Step(s, c)
  {
  }

  lemma ReadQuoted(out: string, term: string)
    requires QuotableTerm(term)
    ensures Read(State(out, "", false), "\"" + term + "\"") == State(out + "\"" + term + "\"", "", false)
  {
    var s := State(out, "", false);
    ReadConcat(s, "\"" + term, "\"");
    ReadConcat(s, "\"", term);
    ReadOne(s, '"');
    ReadInQuote(out, term);
    ReadOne(State(out, term, true), '"');
  }

  lemma ReadColumn(out: string, name: string)
    requires BareTerm(name)
    ensures Read(State(out, "", false), name + ":") == State(out + name + ":", "", false)
  {
    ReadConcat(State(out, "", false), name, ":");
    ReadBare(out, name);
    ReadOne(State(out, name, false), ':');
  }

  lemma KeywordIsBare(word: string)
    requires IsKeyword(word)
    ensures BareTerm(word)
  {
  }

  lemma ReadToken(out: string, t: Token)
    requires TokenOk(t) && !t.Keyword?
    ensures Read(State(out, "", false), Text(t)) == State(out + Text(t), "", false)
  {
    var s := State(out, "", false);
    match t
    case Quoted(term) =>
      ReadQuoted(out, term);
      assert out + "\"" + term + "\"" == out + Text(t);
    case Mark(c) => ReadOne(s, c);
    case Column(name) =>
      ReadColumn(out, name);
      assert out + name + ":" == out + Text(t);
    case Separator(c) => ReadOne(s, c);
  }

  /** A separator after a keyword writes both. */
  lemma ReadKeyword(ts: seq<Token>, c: char)
    requires WellFormed(ts) && !Closed(ts) && IsSeparator(c)
    ensures Read(State(Render(ts[..|ts| - 1]), ts[|ts| - 1].word, false), [c]) == State(Render(ts) + [c], "", false)
  {
  }

  /** Reading rendered tokens writes them back; a keyword at the end is still the current term. */
  lemma {:induction false} ReadRendered(ts: seq<Token>)
    requires WellFormed(ts)
    ensures Closed(ts) ==> Read(INIT, Render(ts)) == State(Render(ts), "", false)
    ensures !Closed(ts) ==>
      Read(INIT, Render(ts)) == State(Render(ts[..|ts| - 1]), ts[|ts| - 1].word, false)
  {
    if ts != [] {
      var front, t := ts[..|ts| - 1], ts[|ts| - 1];
      assert WellFormed(front);
      ReadRendered(front);
      ReadConcat(INIT, Render(front), Text(t));
      if !Closed(front) {
        assert ts[|front| - 1].Keyword? && ts[|front|] == t;
        ReadKeyword(front, t.sep);
      } else if t.Keyword? {
        KeywordIsBare(t.word);
        ReadBare(Render(front), t.word);
      } else {
        ReadToken(Render(front), t);
      }
    }
  }

  lemma RenderedIsFixed(ts: seq<Token>)
    requires WellFormed(ts)
    ensures Convert(Render(ts)) == Render(ts)
  {
    ReadRendered(ts);
  }

  /** Converting is idempotent. */
  lemma ConvertIsIdempotent(query: string)
    ensures Convert(Convert(query)) == Convert(query)
  {
    var ts := ConvertIsWellFormed(query);
    RenderedIsFixed(ts);
  }

  /** The queries left unchanged are exactly the well-formed ones. */
  lemma FixedIffWellFormed(query: string)
    ensures Convert(query) == query <==> exists ts :: WellFormed(ts) && Render(ts) == query
  {
    if Convert(query) == query {
      var ts := ConvertIsWellFormed(query);
    }
    if ts :| WellFormed(ts) && Render(ts) == query {
      RenderedIsFixed(ts);
    }
  }

  // --- Quotes ---

  /** The quotes of `s` come in pairs. */
  predicate Balanced(s: string) {
    s == [] || Balanced(s[..|s| - 1]) == (s[|s| - 1] != '"')
  }

  lemma {:induction false} BalancedConcat(a: string, b: string)
    ensures Balanced(a + b) <==> (Balanced(a) <==> Balanced(b))
  {
    if b == [] {
      assert a + b == a;
    } else {
      assert (a + b)[..|a + b| - 1] == a + b[..|b| - 1];
      BalancedConcat(a, b[..|b| - 1]);
    }
  }

  lemma {:induction false} NoQuotes(s: string)
    requires '"' !in s
    ensures Balanced(s)
  {
    if s != [] {
      NoQuotes(s[..|s| - 1]);
    }
  }

  lemma TokenQuotes(t: Token)
    requires TokenOk(t)
    ensures Balanced(Text(t))
  {
    match t
    case Quoted(term) =>
      NoQuotes(term);
      BalancedConcat("\"" + term, "\"");
      BalancedConcat("\"", term);
    case Mark(c) => NoQuotes([c]);
    case Column(name) => NoQuotes(name + ":");
    case Separator(c) => NoQuotes([c]);
    case Keyword(w) => NoQuotes(w);
  }

  lemma {:induction false} RenderedQuotes(ts: seq<Token>)
    requires WellFormed(ts)
    ensures Balanced(Render(ts))
  {
    if ts != [] {
      var front, t := ts[..|ts| - 1], ts[|ts| - 1];
      RenderedQuotes(front);
      TokenQuotes(t);
      BalancedConcat(Render(front), Text(t));
    }
  }

  /** The double quotes of the result are balanced, whatever those of the query. */
  lemma ConvertBalancesQuotes(query: string)
    ensures Balanced(Convert(query))
  {
    var ts := ConvertIsWellFormed(query);
    RenderedQuotes(ts);
  }
}
