/** The query built from a set of finding options: clauses with positional arguments, joins,
    grouping and the recursive closure, and the notes it selects. Full-text and mention filters,
    sorting and the result limit are not part of the model. */
module FindRows {
  import opened Strings
  import opened HrefMatch
  import opened IndexSpec
  import opened TagOptions
  import Like

  // --- Options ---

  datatype LinkFilter = LinkFilter(hrefs: seq<string>, negate: bool, recursive: bool, maxDistance: int)

  datatype Strategy = Exact | Regex

  datatype Opts = Opts(
    match_: seq<string>, strategy: Strategy,
    includeHrefs: Option<seq<string>>, excludeHrefs: Option<seq<string>>, allowPartialHrefs: bool,
    includeIds: Option<set<nat>>, excludeIds: Option<set<nat>>,
    tags: Option<seq<string>>,
    linkedBy: Option<LinkFilter>, linkTo: Option<LinkFilter>, related: Option<seq<string>>,
    orphan: bool, tagless: bool,
    createdStart: Option<int>, createdEnd: Option<int>, modifiedStart: Option<int>, modifiedEnd: Option<int>)

  // --- Queries ---

  datatype Arg = Text(text: string) | Date(date: int)

  /** `By`: the notes linked by the given ones; `To`: the notes linking to them; `Both`. */
  datatype Direction = By | To | Both

  /** A WHERE expression. `TagIn` holds one placeholder per glob. */
  datatype Clause =
    | ContentLike | ContentRegexp
    | TagIn(negate: bool, globs: nat)
    | LinkedIn(negate: bool, direction: Direction, ids: set<nat>, recursive: bool)
    | NotTarget | NoTags
    | CreatedFrom | CreatedBefore | ModifiedFrom | ModifiedBefore
    | IdIn(ids: set<nat>) | IdNotIn(ids: set<nat>)

  /** LEFT JOIN on the links or on the closure; there is one alias per direction: l_by, l_to, l_rel. */
  datatype Join = Join(direction: Direction, ids: set<nat>, recursive: bool)

  datatype Query = Query(closure: bool, maxDistance: int, joins: seq<Join>, clauses: seq<Clause>, args: seq<Arg>,
                         groupBy: bool, having: bool)

  datatype Built = Built(query: Query) | NotesNotFound(hrefs: seq<string>) | NegatedGroup(tags: string)

  /** Number of `?` of a clause. */
  function Placeholders(c: Clause): nat {
    match c
    case TagIn(_, globs) => globs
    case ContentLike => 1
    case ContentRegexp => 1
    case CreatedFrom => 1
    case CreatedBefore => 1
    case ModifiedFrom => 1
    case ModifiedBefore => 1
    case _ => 0
  }

  // --- Lookup of hrefs ---

  function TierIds(notes: map<nat, NoteRow>, tier: Tier, href: string): set<nat> {
    set n | n in notes && TierMatch(tier, href, notes[n].path)
  }

  /** FindIdsByHref. */
  function HrefIds(notes: map<nat, NoteRow>, href: string, partial: bool): set<nat> {
    var h := StripAnchor(href);
    if partial && TierIds(notes, Filename, h) != {} then TierIds(notes, Filename, h)
    else if partial && TierIds(notes, Anywhere, h) != {} then TierIds(notes, Anywhere, h)
    else TierIds(notes, Strict, h)
  }

  function HrefsIds(notes: map<nat, NoteRow>, hrefs: seq<string>, partial: bool): set<nat> {
    set h, n | h in hrefs && n in HrefIds(notes, h, partial) :: n
  }

  /** The href designates the note: for a partial href, by its file name if that finds a note, else
      anywhere in its path if that does; else as a whole path or folder. */
  predicate Designates(notes: map<nat, NoteRow>, href: string, partial: bool, n: nat) {
    var h := StripAnchor(href);
    n in notes &&
    if partial && exists k | k in notes :: FilenameMatch(h, notes[k].path) then FilenameMatch(h, notes[n].path)
    else if partial && exists k | k in notes :: Contains(notes[k].path, h) then Contains(notes[n].path, h)
    else StrictMatch(h, notes[n].path)
  }

  predicate Named(notes: map<nat, NoteRow>, hrefs: seq<string>, partial: bool, n: nat) {
    exists h | h in hrefs :: Designates(notes, h, partial, n)
  }

  lemma HrefIdsIff(notes: map<nat, NoteRow>, href: string, partial: bool, n: nat)
    ensures n in HrefIds(notes, href, partial) <==> Designates(notes, href, partial, n)
  {
    var h := StripAnchor(href);
    assert TierIds(notes, Filename, h) != {} <==> exists k | k in notes :: FilenameMatch(h, notes[k].path) by {
      if k :| k in notes && FilenameMatch(h, notes[k].path) {
        assert k in TierIds(notes, Filename, h);
      }
    }
    assert TierIds(notes, Anywhere, h) != {} <==> exists k | k in notes :: Contains(notes[k].path, h) by {
      if k :| k in notes && Contains(notes[k].path, h) {
        assert k in TierIds(notes, Anywhere, h);
      }
    }
  }

  /** The ids looked up are those of the notes some href designates. */
  lemma HrefsIdsIff(notes: map<nat, NoteRow>, hrefs: seq<string>, partial: bool, n: nat)
    ensures n in HrefsIds(notes, hrefs, partial) <==> Named(notes, hrefs, partial, n)
  {
    forall h ensures n in HrefIds(notes, h, partial) <==> Designates(notes, h, partial, n) {
      HrefIdsIff(notes, h, partial, n);
    }
  }

  // --- Building the query ---

  const EMPTY_QUERY := Query(false, 0, [], [], [], false, false)

  function Push(q: Query, c: Clause, values: seq<Arg>): Query {
    q.(clauses := q.clauses + [c], args := q.args + values)
  }

  // --- The clauses in order, each with its own values ---

  datatype Bound = Bound(clause: Clause, values: seq<Arg>)

  function Clauses(bs: seq<Bound>): seq<Clause> {
    seq(|bs|, i requires 0 <= i < |bs| => bs[i].clause)
  }

  function Args(bs: seq<Bound>): seq<Arg> {
    if bs == [] then [] else bs[0].values + Args(bs[1..])
  }

  predicate Fits(bs: seq<Bound>) {
    forall b | b in bs :: |b.values| == Placeholders(b.clause)
  }

  function MatchBounds(match_: seq<string>, strategy: Strategy): seq<Bound> {
    seq(|match_|, i requires 0 <= i < |match_| =>
      if strategy == Exact then Bound(ContentLike, [Text(Like.EscapeTerm(match_[i], '\\'))])
        else Bound(ContentRegexp, [Text(match_[i])]))
  }

  function Texts(globs: seq<string>): seq<Arg> {
    seq(|globs|, i requires 0 <= i < |globs| => Text(globs[i]))
  }

  /** A group without any tag is skipped. */
  function GroupBounds(g: TagGroup): seq<Bound> {
    if g.globs == [] then [] else [Bound(TagIn(g.negate, |g.globs|), Texts(g.globs))]
  }

  function TagBounds(groups: seq<TagGroup>): seq<Bound> {
    if groups == [] then [] else TagBounds(groups[..|groups| - 1]) + GroupBounds(groups[|groups| - 1])
  }

  function LinkBounds(notes: map<nat, NoteRow>, f: Option<LinkFilter>, direction: Direction): seq<Bound> {
    if f.None? then []
    else [Bound(LinkedIn(f.value.negate, direction, HrefsIds(notes, f.value.hrefs, true), f.value.recursive), [])]
  }

  function If(test: bool, c: Clause): seq<Bound> {
    if test then [Bound(c, [])] else []
  }

  function DateBounds(date: Option<int>, c: Clause): seq<Bound> {
    if date.None? then [] else [Bound(c, [Date(date.value)])]
  }

  /** --related is a recursive filter in both directions. */
  function RelatedFilter(opts: Opts): Option<LinkFilter> {
    if opts.related.None? then None else Some(LinkFilter(opts.related.value, false, true, 2))
  }

  /** The ids after IncludingIDs or ExcludingIDs. */
  function WithHrefs(notes: map<nat, NoteRow>, ids: Option<set<nat>>, hrefs: Option<seq<string>>,
                     partial: bool): Option<set<nat>> {
    if hrefs.None? then ids
    else Some((if ids.Some? then ids.value else {}) + HrefsIds(notes, hrefs.value, partial))
  }

  function IncludedIds(notes: map<nat, NoteRow>, opts: Opts): Option<set<nat>> {
    WithHrefs(notes, opts.includeIds, opts.includeHrefs, opts.allowPartialHrefs)
  }

  function ExcludedIds(notes: map<nat, NoteRow>, opts: Opts): Option<set<nat>> {
    WithHrefs(notes, opts.excludeIds, opts.excludeHrefs, opts.allowPartialHrefs)
  }

  function IdBounds(ids: Option<set<nat>>, negate: bool): seq<Bound> {
    if ids.None? then [] else [Bound(if negate then IdNotIn(ids.value) else IdIn(ids.value), [])]
  }

  function TagList(opts: Opts): seq<string> {
    if opts.tags.None? then [] else opts.tags.value
  }

  function TagGroups(tags: seq<string>): seq<TagGroup> {
    seq(|tags|, i requires 0 <= i < |tags| => ParseTags(tags[i]))
  }

  function TextBounds(opts: Opts): seq<Bound> {
    MatchBounds(opts.match_, opts.strategy) + TagBounds(TagGroups(TagList(opts)))
  }

  function GraphBounds(notes: map<nat, NoteRow>, opts: Opts): seq<Bound> {
    LinkBounds(notes, opts.linkedBy, By) + LinkBounds(notes, opts.linkTo, To)
      + LinkBounds(notes, RelatedFilter(opts), Both)
  }

  function ColumnBounds(notes: map<nat, NoteRow>, opts: Opts): seq<Bound> {
    (If(opts.orphan, NotTarget) + If(opts.tagless, NoTags))
    + (DateBounds(opts.createdStart, CreatedFrom) + DateBounds(opts.createdEnd, CreatedBefore))
    + (DateBounds(opts.modifiedStart, ModifiedFrom) + DateBounds(opts.modifiedEnd, ModifiedBefore))
    + (IdBounds(IncludedIds(notes, opts), false) + IdBounds(ExcludedIds(notes, opts), true))
  }

  function AllBounds(notes: map<nat, NoteRow>, opts: Opts): seq<Bound> {
    TextBounds(opts) + GraphBounds(notes, opts) + ColumnBounds(notes, opts)
  }

  /** The maximum distance of the closure: a single variable that each link filter overwrites. */
  function EffectiveMax(opts: Opts): int {
    if opts.related.Some? then 2
    else if opts.linkTo.Some? then opts.linkTo.value.maxDistance
    else if opts.linkedBy.Some? then opts.linkedBy.value.maxDistance
    else 0
  }

  predicate Recursive(f: Option<LinkFilter>) { f.Some? && f.value.recursive }

  predicate Joined(f: Option<LinkFilter>) { f.Some? && !f.value.negate }

  function LinkJoins(notes: map<nat, NoteRow>, f: Option<LinkFilter>, direction: Direction): seq<Join> {
    if Joined(f) then [Join(direction, HrefsIds(notes, f.value.hrefs, true), f.value.recursive)] else []
  }

  function GraphJoins(notes: map<nat, NoteRow>, opts: Opts): seq<Join> {
    LinkJoins(notes, opts.linkedBy, By) + LinkJoins(notes, opts.linkTo, To)
      + LinkJoins(notes, RelatedFilter(opts), Both)
  }

  ghost predicate Unknown(notes: map<nat, NoteRow>, f: Option<LinkFilter>) {
    f.Some? && forall n :: !Named(notes, f.value.hrefs, true, n)
  }

  lemma UnknownIff(notes: map<nat, NoteRow>, f: LinkFilter)
    ensures Unknown(notes, Some(f)) <==> HrefsIds(notes, f.hrefs, true) == {}
  {
    forall n ensures n in HrefsIds(notes, f.hrefs, true) <==> Named(notes, f.hrefs, true, n) {
      HrefsIdsIff(notes, f.hrefs, true, n);
    }
  }

  /** Some option names a group of several tags, one of them negated. */
  ghost predicate NegatesGroup(tags: seq<string>) {
    exists s, g :: s in tags && Reads(s, g) && NegatedOr(g)
  }

  lemma NegatesGroupIff(tags: seq<string>)
    ensures NegatesGroup(tags) <==> exists g | g in TagGroups(tags) :: NegatedOr(g)
  {
    forall g ensures g in TagGroups(tags) <==> exists s :: s in tags && Reads(s, g) {
      GroupsRead(tags, g);
    }
  }

  lemma GroupsRead(tags: seq<string>, g: TagGroup)
    ensures g in TagGroups(tags) <==> exists s :: s in tags && Reads(s, g)
  {
    var groups := TagGroups(tags);
    if i :| 0 <= i < |groups| && groups[i] == g {
      ParseIsReading(tags[i], g);
      assert tags[i] in tags;
    }
    if s :| s in tags && Reads(s, g) {
      ParseIsReading(s, g);
      var i :| 0 <= i < |tags| && tags[i] == s;
      assert groups[i] == g;
    }
  }

  /** The options are rejected: a negated tag in an OR group, or a link filter on unknown notes. */
  ghost predicate Rejected(notes: map<nat, NoteRow>, opts: Opts) {
    NegatesGroup(TagList(opts))
    || Unknown(notes, opts.linkedBy) || Unknown(notes, opts.linkTo) || Unknown(notes, RelatedFilter(opts))
  }

  lemma {:induction false} ArgsConcat(a: seq<Bound>, b: seq<Bound>)
    ensures Args(a + b) == Args(a) + Args(b) && Clauses(a + b) == Clauses(a) + Clauses(b)
  {
    if a == [] {
      assert a + b == b;
    } else {
      assert (a + b)[1..] == a[1..] + b;
      ArgsConcat(a[1..], b);
    }
  }

  /** `q` after the clauses and arguments of `bs` are appended. */
  function PushAll(q: Query, bs: seq<Bound>): Query
    decreases |bs|
  {
    if bs == [] then q else PushAll(Push(q, bs[0].clause, bs[0].values), bs[1..])
  }

  lemma {:induction false} PushConcat(q: Query, a: seq<Bound>, b: seq<Bound>)
    ensures PushAll(q, a + b) == PushAll(PushAll(q, a), b)
    decreases |a|
  {
    if a == [] {
      assert a + b == b;
    } else {
      assert (a + b)[1..] == a[1..] + b;
      PushConcat(Push(q, a[0].clause, a[0].values), a[1..], b);
    }
  }

  /** The clauses and the arguments appended are those of `bs`, in order; nothing else changes. */
  lemma {:induction false} PushAllIs(q: Query, bs: seq<Bound>)
    ensures PushAll(q, bs) == q.(clauses := q.clauses + Clauses(bs), args := q.args + Args(bs))
    decreases |bs|
  {
    if bs == [] {
      assert q.clauses + Clauses(bs) == q.clauses && q.args + Args(bs) == q.args;
    } else {
      PushAllIs(Push(q, bs[0].clause, bs[0].values), bs[1..]);
      assert Clauses(bs) == [bs[0].clause] + Clauses(bs[1..]);
      Associative(q.clauses, [bs[0].clause], Clauses(bs[1..]));
      Associative(q.args, bs[0].values, Args(bs[1..]));
    }
  }

  lemma PushLast(q: Query, bs: seq<Bound>, b: Bound)
    ensures PushAll(q, bs + [b]) == Push(PushAll(q, bs), b.clause, b.values)
  {
    PushConcat(q, bs, [b]);
    assert [b][1..] == [];
  }

  method PushMatches(match_: seq<string>, strategy: Strategy, q: Query) returns (r: Query)
    ensures r == PushAll(q, MatchBounds(match_, strategy))
  {
    r := q;
    for i := 0 to |match_|
      invariant r == PushAll(q, MatchBounds(match_[..i], strategy))
    {
      var b := if strategy == Exact then Bound(ContentLike, [Text(Like.EscapeTerm(match_[i], '\\'))])
        else Bound(ContentRegexp, [Text(match_[i])]);
      r := Push(r, b.clause, b.values);
      PushLast(q, MatchBounds(match_[..i], strategy), b);
      assert MatchBounds(match_[..i], strategy) + [b] == MatchBounds(match_[..i + 1], strategy);
    }
    assert match_[..|match_|] == match_;
  }

  lemma PushGroup(q: Query, groups: seq<TagGroup>, i: nat)
    requires i < |groups|
    ensures PushAll(q, TagBounds(groups[..i + 1]))
      == PushOptional(PushAll(q, TagBounds(groups[..i])), GroupBounds(groups[i]))
  {
    assert groups[..i + 1][..i] == groups[..i];
    PushConcat(q, TagBounds(groups[..i]), GroupBounds(groups[i]));
    PushTwo(PushAll(q, TagBounds(groups[..i])), GroupBounds(groups[i]), []);
    assert GroupBounds(groups[i]) + [] == GroupBounds(groups[i]);
  }

  /** The tag groups, in order; the first negated OR group is an error. */
  method PushTags(tags: seq<string>, groups: seq<TagGroup>, q: Query) returns (r: Built)
    requires |tags| == |groups|
    ensures if exists g | g in groups :: NegatedOr(g) then r.NegatedGroup?
      else r == Built(PushAll(q, TagBounds(groups)))
    ensures r.NegatedGroup? ==> exists i | 0 <= i < |tags| :: r.tags == tags[i] && NegatedOr(groups[i])
  {
    var q' := q;
    for i := 0 to |groups|
      invariant q' == PushAll(q, TagBounds(groups[..i]))
      invariant forall k | 0 <= k < i :: !NegatedOr(groups[k])
    {
      PushGroup(q, groups, i);
      var g := groups[i];
      if g.globs != [] {
        if g.negate && |g.globs| > 1 {
          assert g in groups && NegatedOr(g);
          return NegatedGroup(tags[i]);
        }
        q' := Push(q', TagIn(g.negate, |g.globs|), Texts(g.globs));
      }
    }
    assert groups[..|groups|] == groups;
    assert forall g | g in groups :: !NegatedOr(g);
    return Built(q');
  }

  /** The clauses on the note's own columns. */
  method PushColumns(notes: map<nat, NoteRow>, opts: Opts, q: Query) returns (r: Query)
    ensures r == PushAll(q, ColumnBounds(notes, opts))
  {
    r := q;
    if opts.orphan {
      r := Push(r, NotTarget, []);
    }
    if opts.tagless {
      r := Push(r, NoTags, []);
    }
    var flags := If(opts.orphan, NotTarget) + If(opts.tagless, NoTags);
    assert r == PushAll(q, flags) by { PushTwo(q, If(opts.orphan, NotTarget), If(opts.tagless, NoTags)); }
    r := PushDates(opts.createdStart, opts.createdEnd, CreatedFrom, CreatedBefore, r);
    var created := DateBounds(opts.createdStart, CreatedFrom) + DateBounds(opts.createdEnd, CreatedBefore);
    PushConcat(q, flags, created);
    r := PushDates(opts.modifiedStart, opts.modifiedEnd, ModifiedFrom, ModifiedBefore, r);
    var modified := DateBounds(opts.modifiedStart, ModifiedFrom) + DateBounds(opts.modifiedEnd, ModifiedBefore);
    PushConcat(q, flags + created, modified);
    var included, excluded := IncludedIds(notes, opts), ExcludedIds(notes, opts);
    ghost var before := r;
    if included.Some? {
      r := Push(r, IdIn(included.value), []);
    }
    if excluded.Some? {
      r := Push(r, IdNotIn(excluded.value), []);
    }
    var ids := IdBounds(included, false) + IdBounds(excluded, true);
    assert r == PushAll(before, ids) by { PushTwo(before, IdBounds(included, false), IdBounds(excluded, true)); }
    PushConcat(q, flags + created + modified, ids);
  }

  function PushOptional(q: Query, bs: seq<Bound>): Query
    requires |bs| <= 1
  {
    if bs == [] then q else Push(q, bs[0].clause, bs[0].values)
  }

  lemma PushTwo(q: Query, a: seq<Bound>, b: seq<Bound>)
    requires |a| <= 1 && |b| <= 1
    ensures PushAll(q, a + b) == PushOptional(PushOptional(q, a), b)
  {
    PushConcat(q, a, b);
    assert forall x: seq<Bound>, p: Query | |x| <= 1 :: PushAll(p, x) == PushOptional(p, x);
  }

  method PushDates(start: Option<int>, end: Option<int>, from: Clause, before: Clause, q: Query) returns (r: Query)
    ensures r == PushAll(q, DateBounds(start, from) + DateBounds(end, before))
  {
    r := q;
    if start.Some? {
      r := Push(r, from, [Date(start.value)]);
    }
    if end.Some? {
      r := Push(r, before, [Date(end.value)]);
    }
    PushTwo(q, DateBounds(start, from), DateBounds(end, before));
  }

  /** Everything of a query but its clauses and arguments. */
  function Shape(q: Query): Query {
    q.(clauses := [], args := [])
  }

  /** `r` is `q` with the shape changed and the clauses of `bs` appended. */
  predicate Appended(q: Query, bs: seq<Bound>, r: Query) {
    r.clauses == q.clauses + Clauses(bs) && r.args == q.args + Args(bs)
  }

  lemma AppendedConcat(q: Query, a: seq<Bound>, r: Query, b: seq<Bound>, t: Query)
    requires Appended(q, a, r) && Appended(r, b, t)
    ensures Appended(q, a + b, t)
  {
    ArgsConcat(a, b);
    Associative(q.clauses, Clauses(a), Clauses(b));
    Associative(q.args, Args(a), Args(b));
  }

  lemma Associative<T>(a: seq<T>, b: seq<T>, c: seq<T>)
    ensures (a + b) + c == a + (b + c)
  {
  }

  lemma AppendedPush(q: Query, bs: seq<Bound>)
    ensures Appended(q, bs, PushAll(q, bs)) && Shape(PushAll(q, bs)) == Shape(q)
  {
    PushAllIs(q, bs);
  }

  /** The query after a link filter, if present: one join more unless it is negated, and grouped as
      soon as there is one. */
  predicate LinkedShape(notes: map<nat, NoteRow>, q: Query, f: Option<LinkFilter>, direction: Direction, r: Query) {
    && r.closure == (q.closure || Recursive(f))
    && r.joins == q.joins + LinkJoins(notes, f, direction) && r.groupBy == (q.groupBy || Joined(f))
    && r.having == q.having
  }

  /** Every link filter overwrites the maximum distance. */
  function LinkMax(q: Query, f: Option<LinkFilter>): int {
    if f.Some? then f.value.maxDistance else q.maxDistance
  }

  /** setupLinkFilter: an error exactly for hrefs that find no note. */
  method SetupLinkFilter(notes: map<nat, NoteRow>, q: Query, f: LinkFilter, direction: Direction) returns (r: Built)
    ensures Unknown(notes, Some(f)) ==> r == NotesNotFound(f.hrefs)
    ensures !Unknown(notes, Some(f)) ==>
      && r.Built? && Appended(q, LinkBounds(notes, Some(f), direction), r.query)
      && LinkedShape(notes, q, Some(f), direction, r.query) && r.query.maxDistance == q.maxDistance
  {
    var ids := HrefsIds(notes, f.hrefs, true);
    UnknownIff(notes, f);
    if ids == {} {
      return NotesNotFound(f.hrefs);
    }
    var q' := q;
    if f.recursive {
      q' := q'.(closure := true);
    }
    if !f.negate {
      q' := q'.(joins := q'.joins + [Join(direction, ids, f.recursive)], groupBy := true);
    }
    var b := Bound(LinkedIn(f.negate, direction, ids, f.recursive), []);
    assert Clauses([b]) == [b.clause] && Args([b]) == [] + Args([b][1..]) == [];
    return Built(Push(q', b.clause, b.values));
  }

  method PushLinks(notes: map<nat, NoteRow>, f: Option<LinkFilter>, direction: Direction, q: Query) returns (r: Built)
    ensures Unknown(notes, f) ==> r == NotesNotFound(f.value.hrefs)
    ensures !Unknown(notes, f) ==>
      && r.Built? && Appended(q, LinkBounds(notes, f, direction), r.query)
      && LinkedShape(notes, q, f, direction, r.query) && r.query.maxDistance == LinkMax(q, f)
  {
    if f.None? {
      assert q.clauses + Clauses([]) == q.clauses && q.args + Args([]) == q.args && q.joins + [] == q.joins;
      return Built(q);
    }
    r := SetupLinkFilter(notes, q.(maxDistance := f.value.maxDistance), f.value, direction);
  }

  /** The shape of the query after the three link filters. */
  predicate GraphShape(notes: map<nat, NoteRow>, opts: Opts, q: Query) {
    && q.joins == GraphJoins(notes, opts) && (q.groupBy <==> q.joins != []) && q.maxDistance == EffectiveMax(opts)
    && q.closure == (Recursive(opts.linkedBy) || Recursive(opts.linkTo) || opts.related.Some?)
  }

  lemma GraphShapeOf(notes: map<nat, NoteRow>, opts: Opts, q: Query, first: Query, second: Query, third: Query)
    requires Shape(q) == EMPTY_QUERY
    requires LinkedShape(notes, q, opts.linkedBy, By, first) && LinkedShape(notes, first, opts.linkTo, To, second)
    requires LinkedShape(notes, second, RelatedFilter(opts), Both, third)
    requires first.maxDistance == LinkMax(q, opts.linkedBy) && second.maxDistance == LinkMax(first, opts.linkTo)
    requires third.maxDistance == LinkMax(second, RelatedFilter(opts))
    ensures GraphShape(notes, opts, third) && !third.having
  {
  }

  /** The three link filters in order. */
  method PushGraph(notes: map<nat, NoteRow>, opts: Opts, q: Query) returns (r: Built)
    requires Shape(q) == EMPTY_QUERY
    ensures r.NotesNotFound?
      <==> Unknown(notes, opts.linkedBy) || Unknown(notes, opts.linkTo) || Unknown(notes, RelatedFilter(opts))
    ensures r.Built? || r.NotesNotFound?
    ensures r.Built? ==>
      Appended(q, GraphBounds(notes, opts), r.query) && GraphShape(notes, opts, r.query) && !r.query.having
  {
    r := PushLinks(notes, opts.linkedBy, By, q);
    if !r.Built? {
      return;
    }
    var first := r.query;
    r := PushLinks(notes, opts.linkTo, To, first);
    if !r.Built? {
      return;
    }
    var second := r.query;
    r := PushLinks(notes, RelatedFilter(opts), Both, second);
    if r.Built? {
      AppendedConcat(q, LinkBounds(notes, opts.linkedBy, By), first, LinkBounds(notes, opts.linkTo, To), second);
      AppendedConcat(q, LinkBounds(notes, opts.linkedBy, By) + LinkBounds(notes, opts.linkTo, To), second,
                     LinkBounds(notes, RelatedFilter(opts), Both), r.query);
      GraphShapeOf(notes, opts, q, first, second, r.query);
    }
  }

  lemma TextAppended(opts: Opts)
    ensures var text := PushAll(PushAll(EMPTY_QUERY, MatchBounds(opts.match_, opts.strategy)),
      TagBounds(TagGroups(TagList(opts))));
      Appended(EMPTY_QUERY, TextBounds(opts), text) && Shape(text) == Shape(EMPTY_QUERY)
  {
    PushConcat(EMPTY_QUERY, MatchBounds(opts.match_, opts.strategy), TagBounds(TagGroups(TagList(opts))));
    AppendedPush(EMPTY_QUERY, TextBounds(opts));
  }

  lemma AllAppended(notes: map<nat, NoteRow>, opts: Opts, text: Query, graph: Query, q: Query)
    requires Appended(EMPTY_QUERY, TextBounds(opts), text) && Appended(text, GraphBounds(notes, opts), graph)
    requires q == PushAll(graph, ColumnBounds(notes, opts))
    ensures q.clauses == Clauses(AllBounds(notes, opts)) && q.args == Args(AllBounds(notes, opts))
      && Shape(q) == Shape(graph)
  {
    AppendedPush(graph, ColumnBounds(notes, opts));
    AppendedConcat(EMPTY_QUERY, TextBounds(opts), text, GraphBounds(notes, opts), graph);
    AppendedConcat(EMPTY_QUERY, TextBounds(opts) + GraphBounds(notes, opts), graph, ColumnBounds(notes, opts), q);
  }

  /** `q` has the clauses of all the filters in order, with their values in the same order as
      arguments, the joins of the link filters, and HAVING for related notes. */
  predicate IsQueryOf(notes: map<nat, NoteRow>, opts: Opts, q: Query) {
    && q.clauses == Clauses(AllBounds(notes, opts)) && q.args == Args(AllBounds(notes, opts))
    && GraphShape(notes, opts, q) && q.having == opts.related.Some?
  }

  /** findRows: the query of the options, refused exactly for rejected options. */
  method FindRows(notes: map<nat, NoteRow>, opts: Opts) returns (r: Built)
    ensures r.Built? <==> !Rejected(notes, opts)
    ensures r.Built? ==> IsQueryOf(notes, opts, r.query)
  {
    var q := PushMatches(opts.match_, opts.strategy, EMPTY_QUERY);
    r := PushTags(TagList(opts), TagGroups(TagList(opts)), q);
    NegatesGroupIff(TagList(opts));
    if !r.Built? {
      return;
    }
    var text := r.query;
    TextAppended(opts);
    r := PushGraph(notes, opts, text);
    if !r.Built? {
      return;
    }
    var graph := r.query.(having := opts.related.Some?);
    q := PushColumns(notes, opts, graph);
    AllAppended(notes, opts, text, graph, q);
    r := Built(q);
  }
}
