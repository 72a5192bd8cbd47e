/** The notes selected by the query of a set of finding options: the meaning of its clauses with
    their positional arguments, and their agreement with the filters taken one by one. */
module FindNotes {
  import opened Strings
  import opened IndexSpec
  import opened IndexInvariants
  import LinkGraph
  import opened LinkClosure
  import opened LinkQueries
  import opened TagOptions
  import opened FindRows
  import Like

  /** SQLite's GLOB and the regular expression test: (pattern, text). */
  datatype Matchers = Matchers(glob: (string, string) -> bool, regex: (string, string) -> bool)

  /** The tables, the rows of the links table in some order, and the rows of the closure. */
  datatype Tables = Tables(db: Db, links: seq<LinkGraph.Link>, closure: seq<Row>)

  // --- Meaning of the query ---

  /** A link row, or a closure row, goes from `s` to `t`. */
  ghost predicate RowBetween(src: Tables, recursive: bool, s: nat, t: nat) {
    if recursive then exists d :: RowAt(src.closure, s, t, d) else LinkGraph.Edge(src.links, s, t)
  }

  ghost predicate InLinkSelect(src: Tables, direction: Direction, ids: set<nat>, recursive: bool, n: nat) {
    exists x | x in ids :: (direction != To && RowBetween(src, recursive, x, n))
      || (direction != By && RowBetween(src, recursive, n, x))
  }

  ghost predicate TagMatches(m: Matchers, t: TagTable, n: nat, globs: seq<Arg>) {
    exists i, tag :: 0 <= i < |globs| && globs[i].Text? && HasTag(t, n, tag) && m.glob(globs[i].text, tag)
  }

  ghost predicate Holds(m: Matchers, src: Tables, c: Clause, values: seq<Arg>, n: nat)
    requires n in src.db.notes.rows && |values| == Placeholders(c)
  {
    var row := src.db.notes.rows[n];
    match c
    case ContentLike => values[0].Text? && Like.Matches("%" + values[0].text + "%", row.content, Some('\\'))
    case ContentRegexp => values[0].Text? && m.regex(values[0].text, row.content)
    case TagIn(negate, _) => TagMatches(m, src.db.tags, n, values) != negate
    case LinkedIn(negate, direction, ids, recursive) => InLinkSelect(src, direction, ids, recursive, n) != negate
    case NotTarget => forall l | l in src.links :: l.target != Some(n)
    case NoTags => forall tag :: !HasTag(src.db.tags, n, tag)
    case CreatedFrom => values[0].Date? && row.created >= values[0].date
    case CreatedBefore => values[0].Date? && row.created < values[0].date
    case ModifiedFrom => values[0].Date? && row.modified >= values[0].date
    case ModifiedBefore => values[0].Date? && row.modified < values[0].date
    case IdIn(ids) => n in ids
    case IdNotIn(ids) => n !in ids
  }

  /** The WHERE expression: each `?`, from left to right, takes the next argument. */
  ghost predicate Where(m: Matchers, src: Tables, clauses: seq<Clause>, args: seq<Arg>, n: nat)
    requires n in src.db.notes.rows
    decreases |clauses|
  {
    if clauses == [] then args == []
    else
      var k := Placeholders(clauses[0]);
      k <= |args| && Holds(m, src, clauses[0], args[..k], n) && Where(m, src, clauses[1..], args[k..], n)
  }

  /** All the clauses hold, each with its own values, and those fit its placeholders. */
  ghost predicate AllHold(m: Matchers, src: Tables, bs: seq<Bound>, n: nat)
    requires n in src.db.notes.rows
  {
    forall b | b in bs :: |b.values| == Placeholders(b.clause) && Holds(m, src, b.clause, b.values, n)
  }

  lemma AllHoldConcat(m: Matchers, src: Tables, a: seq<Bound>, b: seq<Bound>, n: nat)
    requires n in src.db.notes.rows
    ensures AllHold(m, src, a + b, n) <==> AllHold(m, src, a, n) && AllHold(m, src, b, n)
  {
  }

  /** The i-th placeholder of the clauses takes the i-th argument: every clause is evaluated with its
      own values, and there are as many arguments as placeholders. */
  lemma {:induction false} PositionalArguments(m: Matchers, src: Tables, bs: seq<Bound>, n: nat)
    requires n in src.db.notes.rows && Fits(bs)
    ensures Where(m, src, Clauses(bs), Args(bs), n) <==> AllHold(m, src, bs, n)
  {
    if bs != [] {
      var first, rest := bs[0], bs[1..];
      assert bs == [first] + rest;
      assert first in bs && forall b | b in rest :: b in bs;
      assert Clauses(bs)[1..] == Clauses(rest) && Clauses(bs)[0] == first.clause;
      var k := Placeholders(first.clause);
      assert Args(bs)[..k] == first.values && Args(bs)[k..] == Args(rest);
      PositionalArguments(m, src, rest, n);
      AllHoldConcat(m, src, [first], rest, n);
    }
  }

  lemma FitsConcat(a: seq<Bound>, b: seq<Bound>)
    requires Fits(a) && Fits(b)
    ensures Fits(a + b)
  {
  }

  lemma {:induction false} TagBoundsFit(groups: seq<TagGroup>)
    ensures Fits(TagBounds(groups))
  {
    if groups != [] {
      TagBoundsFit(groups[..|groups| - 1]);
      FitsConcat(TagBounds(groups[..|groups| - 1]), GroupBounds(groups[|groups| - 1]));
    }
  }

  lemma FlagBoundsFit(opts: Opts)
    ensures Fits(If(opts.orphan, NotTarget) + If(opts.tagless, NoTags))
  {
  }

  lemma DateBoundsFit(start: Option<int>, end: Option<int>, from: Clause, before: Clause)
    requires Placeholders(from) == Placeholders(before) == 1
    ensures Fits(DateBounds(start, from) + DateBounds(end, before))
  {
  }

  lemma IdBoundsFit(included: Option<set<nat>>, excluded: Option<set<nat>>)
    ensures Fits(IdBounds(included, false) + IdBounds(excluded, true))
  {
  }

  lemma ColumnBoundsFit(notes: map<nat, NoteRow>, opts: Opts)
    ensures Fits(ColumnBounds(notes, opts))
  {
    var flags := If(opts.orphan, NotTarget) + If(opts.tagless, NoTags);
    var created := DateBounds(opts.createdStart, CreatedFrom) + DateBounds(opts.createdEnd, CreatedBefore);
    var modified := DateBounds(opts.modifiedStart, ModifiedFrom) + DateBounds(opts.modifiedEnd, ModifiedBefore);
    var ids := IdBounds(IncludedIds(notes, opts), false) + IdBounds(ExcludedIds(notes, opts), true);
    FlagBoundsFit(opts);
    DateBoundsFit(opts.createdStart, opts.createdEnd, CreatedFrom, CreatedBefore);
    DateBoundsFit(opts.modifiedStart, opts.modifiedEnd, ModifiedFrom, ModifiedBefore);
    IdBoundsFit(IncludedIds(notes, opts), ExcludedIds(notes, opts));
    FitsConcat(flags, created);
    FitsConcat(flags + created, modified);
    FitsConcat(flags + created + modified, ids);
  }

  lemma TextBoundsFit(opts: Opts)
    ensures Fits(TextBounds(opts))
  {
    TagBoundsFit(TagGroups(TagList(opts)));
    FitsConcat(MatchBounds(opts.match_, opts.strategy), TagBounds(TagGroups(TagList(opts))));
  }

  lemma GraphBoundsFit(notes: map<nat, NoteRow>, opts: Opts)
    ensures Fits(GraphBounds(notes, opts))
  {
  }

  /** Every clause written comes with as many arguments as it has placeholders. */
  lemma BoundsFit(notes: map<nat, NoteRow>, opts: Opts)
    ensures Fits(AllBounds(notes, opts))
  {
    TextBoundsFit(opts);
    GraphBoundsFit(notes, opts);
    ColumnBoundsFit(notes, opts);
    FitsConcat(TextBounds(opts), GraphBounds(notes, opts));
    FitsConcat(TextBounds(opts) + GraphBounds(notes, opts), ColumnBounds(notes, opts));
  }

  // --- The filters one by one ---

  ghost predicate MatchOk(m: Matchers, opts: Opts, content: string) {
    forall term | term in opts.match_ ::
      if opts.strategy == Exact then Like.FoldedContains(content, term) else m.regex(term, content)
  }

  /** Some tag of the note matches one of the globs of the group, or none does for a negated group. */
  ghost predicate GroupOk(m: Matchers, t: TagTable, n: nat, g: TagGroup) {
    g.globs == [] || (exists glob, tag :: glob in g.globs && HasTag(t, n, tag) && m.glob(glob, tag)) != g.negate
  }

  ghost predicate TagsOk(m: Matchers, opts: Opts, t: TagTable, n: nat) {
    forall s, g | s in TagList(opts) && Reads(s, g) :: GroupOk(m, t, n, g)
  }

  /** There is a link from `s` to `t`, or for a recursive filter a chain of links within `max`; a
      note is only linked to itself by a direct link. */
  ghost predicate Linked(links: seq<LinkGraph.Link>, recursive: bool, max: int, s: nat, t: nat) {
    if !recursive || s == t then LinkGraph.Edge(links, s, t)
    else exists d: nat :: LinkGraph.Distance(links, s, t, d) && WithinMax(max, d)
  }

  /** Some note designated by the filter links to the note, or is linked by it. */
  ghost predicate LinkFilterOk(notes: map<nat, NoteRow>, links: seq<LinkGraph.Link>, f: Option<LinkFilter>,
                               direction: Direction, n: nat) {
    f.Some? ==>
      (exists x | Named(notes, f.value.hrefs, true, x) ::
        if direction == By then Linked(links, f.value.recursive, f.value.maxDistance, x, n)
        else Linked(links, f.value.recursive, f.value.maxDistance, n, x)) != f.value.negate
  }

  ghost predicate RelatedOk(notes: map<nat, NoteRow>, links: seq<LinkGraph.Link>, related: Option<seq<string>>,
                            n: nat) {
    related.Some? ==>
      var xs := set x | x in notes && Named(notes, related.value, true, x);
      Nearest(links, xs, n, 2) && !(n in xs && LinkGraph.Edge(links, n, n))
  }

  /** Half-open range. */
  predicate InRange(date: int, start: Option<int>, end: Option<int>) {
    (start.Some? ==> start.value <= date) && (end.Some? ==> date < end.value)
  }

  /** The filters on the columns of the note. */
  ghost predicate ColumnsOk(src: Tables, opts: Opts, n: nat)
    requires n in src.db.notes.rows
  {
    var notes, row := src.db.notes.rows, src.db.notes.rows[n];
    && (opts.orphan ==> forall l | l in src.links :: l.target != Some(n))
    && (opts.tagless ==> forall tag :: !HasTag(src.db.tags, n, tag))
    && InRange(row.created, opts.createdStart, opts.createdEnd)
    && InRange(row.modified, opts.modifiedStart, opts.modifiedEnd)
    && (opts.includeIds.Some? || opts.includeHrefs.Some? ==>
          Listed(notes, opts.includeIds, opts.includeHrefs, opts.allowPartialHrefs, n))
    && !Listed(notes, opts.excludeIds, opts.excludeHrefs, opts.allowPartialHrefs, n)
  }

  /** The note is given by its id or designated by an href. */
  ghost predicate Listed(notes: map<nat, NoteRow>, ids: Option<set<nat>>, hrefs: Option<seq<string>>, partial: bool,
                         n: nat) {
    (ids.Some? && n in ids.value) || (hrefs.Some? && Named(notes, hrefs.value, partial, n))
  }

  /** The note passes every filter of the options. */
  ghost predicate Selected(m: Matchers, src: Tables, opts: Opts, n: nat)
    requires n in src.db.notes.rows
  {
    var notes, row := src.db.notes.rows, src.db.notes.rows[n];
    && MatchOk(m, opts, row.content)
    && TagsOk(m, opts, src.db.tags, n)
    && LinkFilterOk(notes, src.links, opts.linkedBy, By, n)
    && LinkFilterOk(notes, src.links, opts.linkTo, To, n)
    && RelatedOk(notes, src.links, opts.related, n)
    && ColumnsOk(src, opts, n)
  }

  // --- What the query selects ---

  /** The ON condition of a join. */
  predicate Matches(source: nat, target: Option<nat>, j: Join, n: nat) {
    target.Some?
    && ((j.direction != To && n == target.value && source in j.ids)
      || (j.direction != By && n == source && target.value in j.ids))
  }

  /** The rows of the closure joined to the note by `j`. */
  predicate JoinedRow(closure: seq<Row>, j: Join, n: nat, row: Row) {
    row in closure && Matches(row.source, row.target, j, n)
  }

  /** `HAVING MIN(l_rel.distance) = 2`: false when no row is joined, for the minimum is then NULL. Only
      the closure has distances. */
  ghost predicate Having(closure: seq<Row>, joins: seq<Join>, n: nat) {
    exists j | j in joins && j.direction == Both && j.recursive ::
      && (exists row :: JoinedRow(closure, j, n, row) && row.distance == 2)
      && forall row | JoinedRow(closure, j, n, row) :: row.distance >= 2
  }

  /** The query returns note `n`: its WHERE expression holds, and its HAVING condition if it has one. */
  ghost predicate Selects(m: Matchers, src: Tables, q: Query, n: nat)
    requires n in src.db.notes.rows
  {
    Where(m, src, q.clauses, q.args, n) && (q.having ==> Having(src.closure, q.joins, n))
  }

  // --- Agreement ---

  /** Distances allowed by two maximums are the same. */
  predicate SameMax(a: int, b: int) {
    a == b || (a != 0 && b != 0 && a <= 1 && b <= 1)
  }

  /** Every recursive filter asks for the maximum distance the query ends up with. */
  predicate MaxAgrees(opts: Opts) {
    (Recursive(opts.linkedBy) ==> SameMax(opts.linkedBy.value.maxDistance, EffectiveMax(opts)))
    && (Recursive(opts.linkTo) ==> SameMax(opts.linkTo.value.maxDistance, EffectiveMax(opts)))
  }

  lemma SameMaxIff(a: int, b: int)
    ensures SameMax(a, b) <==> forall d: nat | d >= 1 :: WithinMax(a, d) <==> WithinMax(b, d)
  {
    if !SameMax(a, b) {
      var d: nat := if a == 0 then (if b < 1 then 2 else b + 1) else if b == 0 then (if a < 1 then 2 else a + 1)
                    else if a < b then b else a;
      assert WithinMax(a, d) != WithinMax(b, d);
    }
  }

  lemma RowBetweenIsLinked(src: Tables, recursive: bool, max: int, own: int, s: nat, t: nat)
    requires recursive ==> Complete(src.links, max, src.closure) && SameMax(own, max)
    ensures RowBetween(src, recursive, s, t) <==> Linked(src.links, recursive, own, s, t)
  {
    if recursive {
      SameMaxIff(own, max);
      if s == t {
        forall d ensures RowAt(src.closure, s, s, d) <==> d == 1 && LinkGraph.Edge(src.links, s, s) {
          ClosureSelf(src.links, max, src.closure, s, d);
        }
        assert LinkGraph.Edge(src.links, s, s) ==> RowAt(src.closure, s, s, 1);
      } else {
        ClosureDistance(src.links, max, src.closure, s, t);
        forall d: nat | LinkGraph.Distance(src.links, s, t, d) ensures d >= 1 {
        }
      }
    }
  }

  lemma LinkClauses(m: Matchers, src: Tables, f: Option<LinkFilter>, direction: Direction, max: int, n: nat)
    requires n in src.db.notes.rows && direction != Both
    requires Recursive(f) ==> Complete(src.links, max, src.closure) && SameMax(f.value.maxDistance, max)
    ensures AllHold(m, src, LinkBounds(src.db.notes.rows, f, direction), n)
       <==> LinkFilterOk(src.db.notes.rows, src.links, f, direction, n)
  {
    if f.Some? {
      var ids, g := HrefsIds(src.db.notes.rows, f.value.hrefs, true), f.value;
      forall x | x in ids
        ensures RowBetween(src, g.recursive, x, n) <==> Linked(src.links, g.recursive, g.maxDistance, x, n)
        ensures RowBetween(src, g.recursive, n, x) <==> Linked(src.links, g.recursive, g.maxDistance, n, x)
      {
        RowBetweenIsLinked(src, g.recursive, max, g.maxDistance, x, n);
        RowBetweenIsLinked(src, g.recursive, max, g.maxDistance, n, x);
      }
      forall x ensures x in ids <==> Named(src.db.notes.rows, g.hrefs, true, x) {
        HrefsIdsIff(src.db.notes.rows, g.hrefs, true, x);
      }
      var b := LinkBounds(src.db.notes.rows, f, direction)[0];
      assert AllHold(m, src, [b], n) <==> Holds(m, src, b.clause, b.values, n);
    }
  }

  lemma NamedIds(notes: map<nat, NoteRow>, hrefs: seq<string>, partial: bool)
    ensures HrefsIds(notes, hrefs, partial) == set x | x in notes && Named(notes, hrefs, partial, x)
  {
    forall x ensures x in HrefsIds(notes, hrefs, partial) <==> x in notes && Named(notes, hrefs, partial, x) {
      HrefsIdsIff(notes, hrefs, partial, x);
    }
  }

  /** The HAVING condition reads the join of --related, and no other. */
  lemma HavingIsRelated(closure: seq<Row>, notes: map<nat, NoteRow>, opts: Opts, n: nat)
    requires opts.related.Some?
    ensures Having(closure, GraphJoins(notes, opts), n)
      <==> RelatedSelects(closure, HrefsIds(notes, opts.related.value, true), n)
  {
    var j := Join(Both, HrefsIds(notes, opts.related.value, true), true);
    var joins := GraphJoins(notes, opts);
    assert j in joins && forall x | x in joins && x.direction == Both :: x == j;
    assert forall row :: JoinedRow(closure, j, n, row) <==> row in closure && RelatedRow(row, j.ids, n);
  }

  /** The WHERE and HAVING conditions of --related. */
  lemma RelatedClauses(m: Matchers, src: Tables, opts: Opts, n: nat)
    requires n in src.db.notes.rows
    requires opts.related.Some? ==> Complete(src.links, 2, src.closure)
    ensures AllHold(m, src, LinkBounds(src.db.notes.rows, RelatedFilter(opts), Both), n)
            && (opts.related.Some? ==> Having(src.closure, GraphJoins(src.db.notes.rows, opts), n))
       <==> RelatedOk(src.db.notes.rows, src.links, opts.related, n)
  {
    if opts.related.Some? {
      var ids := HrefsIds(src.db.notes.rows, opts.related.value, true);
      NamedIds(src.db.notes.rows, opts.related.value, true);
      HavingIsRelated(src.closure, src.db.notes.rows, opts, n);
      RelatedIsDistanceTwo(src.links, src.closure, ids, n);
      var b := LinkBounds(src.db.notes.rows, RelatedFilter(opts), Both)[0];
      assert AllHold(m, src, [b], n) <==> Holds(m, src, b.clause, b.values, n);
      if RelatedSelects(src.closure, ids, n) {
        RelatedRowAt(src.closure, ids, n, 2);
        assert InLinkSelect(src, Both, ids, true, n);
      }
    }
  }

  lemma MatchClauses(m: Matchers, src: Tables, opts: Opts, n: nat)
    requires n in src.db.notes.rows
    ensures AllHold(m, src, MatchBounds(opts.match_, opts.strategy), n)
      <==> MatchOk(m, opts, src.db.notes.rows[n].content)
  {
    var content := src.db.notes.rows[n].content;
    var bs := MatchBounds(opts.match_, opts.strategy);
    forall i | 0 <= i < |opts.match_|
      ensures |bs[i].values| == Placeholders(bs[i].clause)
      ensures Holds(m, src, bs[i].clause, bs[i].values, n) <==>
        if opts.strategy == Exact then Like.FoldedContains(content, opts.match_[i])
          else m.regex(opts.match_[i], content)
    {
      Like.ExactMatch(opts.match_[i], content, '\\');
    }
    if MatchOk(m, opts, content) {
      forall b | b in bs ensures |b.values| == Placeholders(b.clause) && Holds(m, src, b.clause, b.values, n) {
        var i :| 0 <= i < |bs| && bs[i] == b;
        assert opts.match_[i] in opts.match_;
      }
    } else {
      var term :| term in opts.match_
        && !(if opts.strategy == Exact then Like.FoldedContains(content, term) else m.regex(term, content));
      var i :| 0 <= i < |opts.match_| && opts.match_[i] == term;
      assert bs[i] in bs;
    }
  }

  lemma GroupClause(m: Matchers, src: Tables, g: TagGroup, n: nat)
    requires n in src.db.notes.rows && g.globs != []
    ensures Holds(m, src, TagIn(g.negate, |g.globs|), Texts(g.globs), n) <==> GroupOk(m, src.db.tags, n, g)
  {
    var globs := Texts(g.globs);
    if i, tag :| 0 <= i < |globs| && globs[i].Text? && HasTag(src.db.tags, n, tag) && m.glob(globs[i].text, tag) {
      assert g.globs[i] in g.globs;
    }
    if glob, tag :| glob in g.globs && HasTag(src.db.tags, n, tag) && m.glob(glob, tag) {
      var i :| 0 <= i < |g.globs| && g.globs[i] == glob;
      assert globs[i] == Text(glob);
    }
  }

  lemma GroupBoundsHold(m: Matchers, src: Tables, g: TagGroup, n: nat)
    requires n in src.db.notes.rows
    ensures AllHold(m, src, GroupBounds(g), n) <==> GroupOk(m, src.db.tags, n, g)
  {
    if g.globs != [] {
      GroupClause(m, src, g, n);
    }
  }

  lemma {:induction false} TagClauses(m: Matchers, src: Tables, groups: seq<TagGroup>, n: nat)
    requires n in src.db.notes.rows
    ensures AllHold(m, src, TagBounds(groups), n) <==> forall g | g in groups :: GroupOk(m, src.db.tags, n, g)
  {
    if groups != [] {
      var front, g := groups[..|groups| - 1], groups[|groups| - 1];
      TagClauses(m, src, front, n);
      AllHoldConcat(m, src, TagBounds(front), GroupBounds(g), n);
      GroupBoundsHold(m, src, g, n);
      assert groups == front + [g];
      LastGroup(m, src.db.tags, n, front, g);
    }
  }

  lemma LastGroup(m: Matchers, t: TagTable, n: nat, front: seq<TagGroup>, g: TagGroup)
    ensures (forall x | x in front + [g] :: GroupOk(m, t, n, x)) <==>
      (forall x | x in front :: GroupOk(m, t, n, x)) && GroupOk(m, t, n, g)
  {
    assert g in front + [g] && forall x | x in front :: x in front + [g];
  }

  lemma TagsRead(m: Matchers, opts: Opts, t: TagTable, n: nat)
    ensures TagsOk(m, opts, t, n) <==> forall g | g in TagGroups(TagList(opts)) :: GroupOk(m, t, n, g)
  {
    forall g ensures g in TagGroups(TagList(opts)) <==> exists s :: s in TagList(opts) && Reads(s, g) {
      GroupsRead(TagList(opts), g);
    }
  }

  lemma CreatedClauses(m: Matchers, src: Tables, start: Option<int>, end: Option<int>, n: nat)
    requires n in src.db.notes.rows
    ensures AllHold(m, src, DateBounds(start, CreatedFrom) + DateBounds(end, CreatedBefore), n)
       <==> InRange(src.db.notes.rows[n].created, start, end)
  {
  }

  lemma ModifiedClauses(m: Matchers, src: Tables, start: Option<int>, end: Option<int>, n: nat)
    requires n in src.db.notes.rows
    ensures AllHold(m, src, DateBounds(start, ModifiedFrom) + DateBounds(end, ModifiedBefore), n)
       <==> InRange(src.db.notes.rows[n].modified, start, end)
  {
  }

  lemma FlagClauses(m: Matchers, src: Tables, opts: Opts, n: nat)
    requires n in src.db.notes.rows
    ensures AllHold(m, src, If(opts.orphan, NotTarget) + If(opts.tagless, NoTags), n) <==>
      (opts.orphan ==> forall l | l in src.links :: l.target != Some(n))
      && (opts.tagless ==> forall tag :: !HasTag(src.db.tags, n, tag))
  {
  }

  lemma IdClauses(m: Matchers, src: Tables, included: Option<set<nat>>, excluded: Option<set<nat>>, n: nat)
    requires n in src.db.notes.rows
    ensures AllHold(m, src, IdBounds(included, false) + IdBounds(excluded, true), n) <==>
      (included.Some? ==> n in included.value) && (excluded.Some? ==> n !in excluded.value)
  {
  }

  lemma ColumnClauses(m: Matchers, src: Tables, opts: Opts, n: nat)
    requires n in src.db.notes.rows
    ensures AllHold(m, src, ColumnBounds(src.db.notes.rows, opts), n) <==> ColumnsOk(src, opts, n)
  {
    var notes := src.db.notes.rows;
    var flags := If(opts.orphan, NotTarget) + If(opts.tagless, NoTags);
    var created := DateBounds(opts.createdStart, CreatedFrom) + DateBounds(opts.createdEnd, CreatedBefore);
    var modified := DateBounds(opts.modifiedStart, ModifiedFrom) + DateBounds(opts.modifiedEnd, ModifiedBefore);
    var ids := IdBounds(IncludedIds(notes, opts), false) + IdBounds(ExcludedIds(notes, opts), true);
    assert ColumnBounds(notes, opts) == flags + created + modified + ids;
    AllHoldConcat(m, src, flags + created + modified, ids, n);
    AllHoldConcat(m, src, flags + created, modified, n);
    AllHoldConcat(m, src, flags, created, n);
    FlagClauses(m, src, opts, n);
    CreatedClauses(m, src, opts.createdStart, opts.createdEnd, n);
    ModifiedClauses(m, src, opts.modifiedStart, opts.modifiedEnd, n);
    IdClauses(m, src, IncludedIds(notes, opts), ExcludedIds(notes, opts), n);
    IdsListed(notes, opts.includeIds, opts.includeHrefs, opts.allowPartialHrefs, n);
    IdsListed(notes, opts.excludeIds, opts.excludeHrefs, opts.allowPartialHrefs, n);
  }

  lemma IdsListed(notes: map<nat, NoteRow>, ids: Option<set<nat>>, hrefs: Option<seq<string>>, partial: bool, n: nat)
    ensures var all := WithHrefs(notes, ids, hrefs, partial);
      && (all.Some? <==> ids.Some? || hrefs.Some?)
      && (all.Some? && n in all.value <==> Listed(notes, ids, hrefs, partial, n))
  {
    if hrefs.Some? {
      HrefsIdsIff(notes, hrefs.value, partial, n);
    }
  }

  /** The closure a query asks for is evaluated whole: its size is within the row cap. */
  ghost predicate ClosureOk(src: Tables, q: Query) {
    q.closure ==> Complete(src.links, q.maxDistance, src.closure)
  }

  /** The WHERE expression of the query, filter by filter. */
  lemma WhereClauses(m: Matchers, src: Tables, opts: Opts, q: Query, n: nat)
    requires n in src.db.notes.rows && IsQueryOf(src.db.notes.rows, opts, q)
    ensures var notes := src.db.notes.rows;
      Where(m, src, q.clauses, q.args, n) <==>
        && AllHold(m, src, MatchBounds(opts.match_, opts.strategy), n)
        && AllHold(m, src, TagBounds(TagGroups(TagList(opts))), n)
        && AllHold(m, src, LinkBounds(notes, opts.linkedBy, By), n)
        && AllHold(m, src, LinkBounds(notes, opts.linkTo, To), n)
        && AllHold(m, src, LinkBounds(notes, RelatedFilter(opts), Both), n)
        && AllHold(m, src, ColumnBounds(notes, opts), n)
  {
    var notes := src.db.notes.rows;
    var text, graph, column := TextBounds(opts), GraphBounds(notes, opts), ColumnBounds(notes, opts);
    var linkedBy, linkTo, related := LinkBounds(notes, opts.linkedBy, By), LinkBounds(notes, opts.linkTo, To),
      LinkBounds(notes, RelatedFilter(opts), Both);
    BoundsFit(notes, opts);
    PositionalArguments(m, src, AllBounds(notes, opts), n);
    AllHoldConcat(m, src, text + graph, column, n);
    AllHoldConcat(m, src, text, graph, n);
    AllHoldConcat(m, src, MatchBounds(opts.match_, opts.strategy), TagBounds(TagGroups(TagList(opts))), n);
    AllHoldConcat(m, src, linkedBy + linkTo, related, n);
    AllHoldConcat(m, src, linkedBy, linkTo, n);
  }

  /** The notes a query selects are exactly those that pass every filter of its options, provided the
      recursive filters agree on the maximum distance. */
  lemma QueryIsIntersection(m: Matchers, src: Tables, opts: Opts, q: Query, n: nat)
    requires n in src.db.notes.rows && IsQueryOf(src.db.notes.rows, opts, q) && ClosureOk(src, q) && MaxAgrees(opts)
    ensures Selects(m, src, q, n) <==> Selected(m, src, opts, n)
  {
    WhereClauses(m, src, opts, q, n);
    MatchClauses(m, src, opts, n);
    TagClauses(m, src, TagGroups(TagList(opts)), n);
    TagsRead(m, opts, src.db.tags, n);
    LinkClauses(m, src, opts.linkedBy, By, EffectiveMax(opts), n);
    LinkClauses(m, src, opts.linkTo, To, EffectiveMax(opts), n);
    RelatedClauses(m, src, opts, n);
    ColumnClauses(m, src, opts, n);
  }

  // --- What a tag option selects ---

  function OnlyTag(s: string): Opts {
    Opts([], Exact, None, None, false, None, None, Some([s]), None, None, None, false, false, None, None, None, None)
  }

  /** Some tag of the note matches the glob. */
  ghost predicate Tagged(m: Matchers, t: TagTable, n: nat, glob: string) {
    exists tag :: HasTag(t, n, tag) && m.glob(glob, tag)
  }

  lemma OneGroupSelects(m: Matchers, src: Tables, s: string, g: TagGroup, q: Query, n: nat)
    requires n in src.db.notes.rows && IsQueryOf(src.db.notes.rows, OnlyTag(s), q) && Reads(s, g)
    ensures Selects(m, src, q, n) <==> GroupOk(m, src.db.tags, n, g)
  {
    QueryIsIntersection(m, src, OnlyTag(s), q, n);
    ParseIsReading(s, g);
    TagsRead(m, OnlyTag(s), src.db.tags, n);
    assert TagGroups([s]) == [g];
  }

  /** A tag without a sign selects the notes with such a tag. */
  lemma PlainTagSelects(m: Matchers, src: Tables, t: string, q: Query, n: nat)
    requires n in src.db.notes.rows && IsQueryOf(src.db.notes.rows, OnlyTag(t), q) && IsTag(t) && !Signed(t)
    ensures Selects(m, src, q, n) <==> Tagged(m, src.db.tags, n, t)
  {
    PlainTagIff(t);
    OneGroupSelects(m, src, t, TagGroup(false, [t]), q, n);
    OneGlobOk(m, src.db.tags, n, false, t);
  }

  lemma OneGlobOk(m: Matchers, tags: TagTable, n: nat, negate: bool, t: string)
    ensures GroupOk(m, tags, n, TagGroup(negate, [t])) <==> Tagged(m, tags, n, t) != negate
  {
    assert t in [t];
  }

  lemma TwoGlobsOk(m: Matchers, tags: TagTable, n: nat, t: string, u: string)
    ensures GroupOk(m, tags, n, TagGroup(false, [t, u])) <==> Tagged(m, tags, n, t) || Tagged(m, tags, n, u)
  {
    assert t in [t, u] && u in [t, u];
  }

  /** A tag after `-` or NOT selects the notes without such a tag. */
  lemma NegatedTagSelects(m: Matchers, src: Tables, s: string, t: string, q: Query, n: nat)
    requires n in src.db.notes.rows && IsQueryOf(src.db.notes.rows, OnlyTag(s), q) && IsTag(t)
    requires s == "-" + t || s == "NOT" + t || (s == "NOT " + t && !HasPrefix(t, "OR "))
    ensures Selects(m, src, q, n) <==> !Tagged(m, src.db.tags, n, t)
  {
    NegatedTag(t);
    OneGroupSelects(m, src, s, TagGroup(true, [t]), q, n);
    OneGlobOk(m, src.db.tags, n, true, t);
  }

  /** Two tags with `|` or OR between them select the notes with either tag. */
  lemma EitherTagSelects(m: Matchers, src: Tables, t: string, separator: string, u: string, q: Query, n: nat)
    requires n in src.db.notes.rows && IsQueryOf(src.db.notes.rows, OnlyTag(t + separator + u), q)
    requires IsTag(t) && IsTag(u) && !Signed(t) && !Signed(u)
    requires separator == "|" || (separator == " OR " && !HasSuffix(t, " OR"))
    ensures Selects(m, src, q, n) <==> Tagged(m, src.db.tags, n, t) || Tagged(m, src.db.tags, n, u)
  {
    EitherTag(t, separator, u);
    OneGroupSelects(m, src, t + separator + u, TagGroup(false, [t, u]), q, n);
    TwoGlobsOk(m, src.db.tags, n, t, u);
  }

  /** A negated tag is refused next to another one. */
  lemma NegatedEitherRejected(notes: map<nat, NoteRow>, a: string, x: Term, separator: string, b: string, y: Term)
    requires separator in [" OR ", "|"] && Clear(a + separator + b, |a|) && Clear(b, |b|)
    requires TermOf(a, x) && TermOf(b, y) && x.glob != "" && y.glob != "" && (x.negative || y.negative)
    ensures Rejected(notes, OnlyTag(a + separator + b))
  {
    var s, g := a + separator + b, TagGroup(true, [x.glob, y.glob]);
    TwoParts(a, x, separator, b, y);
    assert s in TagList(OnlyTag(s)) && Reads(s, g) && NegatedOr(g);
  }

  // --- Any maximum distance ---

  /** The options with the maximum distance the query ends up with in every link filter. */
  function AtEffectiveMax(opts: Opts): Opts {
    opts.(linkedBy := WithMax(opts.linkedBy, EffectiveMax(opts)), linkTo := WithMax(opts.linkTo, EffectiveMax(opts)))
  }

  function WithMax(f: Option<LinkFilter>, max: int): Option<LinkFilter> {
    if f.Some? then Some(f.value.(maxDistance := max)) else None
  }

  lemma SameLinks(notes: map<nat, NoteRow>, f: Option<LinkFilter>, direction: Direction, max: int)
    ensures LinkBounds(notes, WithMax(f, max), direction) == LinkBounds(notes, f, direction)
    ensures LinkJoins(notes, WithMax(f, max), direction) == LinkJoins(notes, f, direction)
    ensures Recursive(WithMax(f, max)) == Recursive(f)
  {
  }

  lemma SameGraph(notes: map<nat, NoteRow>, opts: Opts)
    ensures var same := AtEffectiveMax(opts);
      && GraphBounds(notes, same) == GraphBounds(notes, opts) && GraphJoins(notes, same) == GraphJoins(notes, opts)
      && EffectiveMax(same) == EffectiveMax(opts) && MaxAgrees(same)
  {
    SameLinks(notes, opts.linkedBy, By, EffectiveMax(opts));
    SameLinks(notes, opts.linkTo, To, EffectiveMax(opts));
  }

  lemma SameOthers(notes: map<nat, NoteRow>, opts: Opts, linkedBy: Option<LinkFilter>, linkTo: Option<LinkFilter>)
    ensures var other := opts.(linkedBy := linkedBy, linkTo := linkTo);
      TextBounds(other) == TextBounds(opts) && ColumnBounds(notes, other) == ColumnBounds(notes, opts)
  {
  }

  /** The query does not tell the maximums of the options apart, except for the last one. */
  lemma SameQuery(notes: map<nat, NoteRow>, opts: Opts, q: Query)
    requires IsQueryOf(notes, opts, q)
    ensures IsQueryOf(notes, AtEffectiveMax(opts), q) && MaxAgrees(AtEffectiveMax(opts))
  {
    SameGraph(notes, opts);
    SameOthers(notes, opts, AtEffectiveMax(opts).linkedBy, AtEffectiveMax(opts).linkTo);
    SameLinks(notes, opts.linkedBy, By, EffectiveMax(opts));
    SameLinks(notes, opts.linkTo, To, EffectiveMax(opts));
  }

  /** Whatever the options, the notes a query selects are exactly those that pass every filter once
      all of them are given the maximum distance of the last link filter. */
  lemma QueryAtEffectiveMax(m: Matchers, src: Tables, opts: Opts, q: Query, n: nat)
    requires n in src.db.notes.rows && IsQueryOf(src.db.notes.rows, opts, q) && ClosureOk(src, q)
    ensures Selects(m, src, q, n) <==> Selected(m, src, AtEffectiveMax(opts), n)
  {
    SameQuery(src.db.notes.rows, opts, q);
    QueryIsIntersection(m, src, AtEffectiveMax(opts), q, n);
  }

  // --- One row per note ---

  /** Number of rows a LEFT JOIN yields for the note, before grouping. */
  function JoinRows(src: Tables, j: Join, n: nat): nat {
    var rows := if j.recursive then ClosureRows(src.closure, j, n) else LinkRows(src.links, j, n);
    if rows == 0 then 1 else rows
  }

  function ClosureRows(table: seq<Row>, j: Join, n: nat): nat {
    if table == [] then 0
      else (if Matches(table[0].source, table[0].target, j, n) then 1 else 0) + ClosureRows(table[1..], j, n)
  }

  function LinkRows(links: seq<LinkGraph.Link>, j: Join, n: nat): nat {
    if links == [] then 0
      else (if Matches(links[0].source, links[0].target, j, n) then 1 else 0) + LinkRows(links[1..], j, n)
  }

  function RowsOfNote(src: Tables, joins: seq<Join>, n: nat): nat {
    if joins == [] then 1 else JoinRows(src, joins[0], n) * RowsOfNote(src, joins[1..], n)
  }

  /** Rows of the result for a note that passes the WHERE expression. */
  function ResultRows(src: Tables, q: Query, n: nat): nat {
    if q.groupBy then 1 else RowsOfNote(src, q.joins, n)
  }

  /** A query that groups as soon as it joins returns each note at most once. */
  method RowsReturned(src: Tables, opts: Opts, n: nat) returns (rows: nat)
    requires n in src.db.notes.rows
    ensures rows == if Rejected(src.db.notes.rows, opts) then 0 else 1
  {
    var built := FindRows.FindRows(src.db.notes.rows, opts);
    return if built.Built? then ResultRows(src, built.query, n) else 0;
  }

  // --- Filters that overwrite each other's maximum distance ---

  function ChainLinks(k: nat): seq<LinkGraph.Link> {
    seq(k, i requires 0 <= i < k => LinkGraph.Link(i, Some(i + 1)))
  }

  lemma {:induction false} ChainWalk(k: nat, ids: seq<nat>, i: nat)
    requires LinkGraph.Walk(ChainLinks(k), ids) && i < |ids|
    ensures ids[i] == ids[0] + i
  {
    if i > 0 {
      ChainWalk(k, ids, i - 1);
      assert LinkGraph.Edge(ChainLinks(k), ids[i - 1], ids[i]);
    }
  }

  /** In a chain of k links the distance between its ends is k. */
  lemma ChainDistance(k: nat, d: nat)
    requires k >= 1
    ensures LinkGraph.Distance(ChainLinks(k), 0, k, d) <==> d == k
  {
    var links := ChainLinks(k);
    var ids := seq(k + 1, i requires 0 <= i <= k => i);
    forall i | 0 < i < |ids| ensures LinkGraph.Edge(links, ids[i - 1], ids[i]) {
      assert links[i - 1] == LinkGraph.Link(ids[i - 1], Some(ids[i]));
    }
    assert LinkGraph.WalkBetween(links, 0, k, ids);
    forall e: nat | LinkGraph.ReachIn(links, 0, k, e) ensures e == k {
      var w: seq<nat> :| LinkGraph.WalkBetween(links, 0, k, w) && |w| == e + 1;
      ChainWalk(k, w, e);
    }
  }

  /** A recursive filter whose maximum is replaced by another gives the same notes in every notebook
      exactly when the two maximums are the same. */
  lemma MaximumMattersIff(own: int, effective: int)
    ensures SameMax(own, effective) <==>
      forall links, s, t :: Linked(links, true, own, s, t) <==> Linked(links, true, effective, s, t)
  {
    SameMaxIff(own, effective);
    if SameMax(own, effective) {
      forall links, s, t ensures Linked(links, true, own, s, t) <==> Linked(links, true, effective, s, t) {
        assert forall d: nat | LinkGraph.Distance(links, s, t, d) :: d >= 1;
      }
    } else {
      var d: nat :| d >= 1 && WithinMax(own, d) != WithinMax(effective, d);
      forall e: nat ensures LinkGraph.Distance(ChainLinks(d), 0, d, e) <==> e == d {
        ChainDistance(d, e);
      }
      assert Linked(ChainLinks(d), true, own, 0, d) != Linked(ChainLinks(d), true, effective, 0, d);
    }
  }
}
