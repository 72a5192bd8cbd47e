/** Inputs on which the code does not do what it is for; the exact conditions are the lemmas beside
    the model of each operation. */
module Counterexamples {
  import opened Strings
  import opened HrefMatch
  import opened IndexSpec
  import opened IndexInvariants
  import opened LinkTargets
  import LinkGraph
  import LinkClosure
  import opened LinkQueries
  import opened FindRows
  import opened FindNotes
  import TagOptions
  import WikiLinks
  import DocumentLinks
  import PathDiff
  import Indexing
  import Migrations

  function Stored(path: string): NoteRow {
    NoteRow(path, SortablePath(path), "", "", "", 0, 0)
  }

  /** The href is taken as it is: neither a URL nor changed by making it relative to the root. */
  predicate Plain(env: Env, href: string) {
    !env.isUrl(href) && env.rel(href) == Some(href)
  }

  // --- Hrefs and paths ---

  lemma NoAnchor(href: string)
    requires '#' !in href
    ensures StripAnchor(href) == href
  {
  }

  /** A path that is the href and a suffix of its file name. */
  lemma SuffixMatches(href: string, suffix: string)
    requires '/' !in suffix
    ensures StrictMatch(href, href + suffix)
  {
    assert (href + suffix)[|href|..] == suffix;
  }

  lemma FooIn(path: string, i: nat)
    requires i + 3 <= |path| && path[i] == 'f' && path[i + 1] == 'o' && path[i + 2] == 'o'
    ensures At(path, "foo", i)
  {
    assert path[i..i + 3] == [path[i], path[i + 1], path[i + 2]] == ['f', 'o', 'o'] == "foo";
  }

  // --- A wiki link is taken away from a better match ---

  const WIKI := Link("foo", WikiLink, false)

  lemma FooInFilename()
    ensures FilenameMatch("foo", "dir/foo.md")
  {
    var near := "dir/foo.md";
    FooIn(near, 4);
    assert near[7..] == ['.', 'm', 'd'] && near[4..4] == [];
    assert near[..3] == ['d', 'i', 'r'] && DirectoryPrefix(near, 4);
  }

  lemma FilenameRank(env: Env, link: Link, path: string)
    requires link.kind == WikiLink && Plain(env, link.href) && '#' !in link.href && link.href != ""
    requires FilenameMatch(link.href, path) && !StrictMatch(link.href, path)
    ensures Rank(env, link, path) == 1 && LinkMatches(link, path)
  {
    NoAnchor(link.href);
  }

  lemma NotStrict(path: string)
    requires |path| >= 3 && path[0] != 'f'
    ensures !StrictMatch("foo", path)
  {
    assert path[..3][0] != 'f';
  }

  lemma NearRank(env: Env)
    requires Plain(env, "foo")
    ensures Rank(env, WIKI, "dir/foo.md") == 1 && LinkMatches(WIKI, "dir/foo.md")
  {
    FooInFilename();
    NotStrict("dir/foo.md");
    FilenameRank(env, WIKI, "dir/foo.md");
  }

  lemma FooInDirectory(i: nat)
    requires At("afoo/b.md", "foo", i)
    ensures '/' in "afoo/b.md"[i + 3..]
  {
    var far := "afoo/b.md";
    assert far[i] == far[i..i + 3][0] == 'f';
    assert i == 1;
    assert far[4..][0] == '/';
  }

  lemma FarRank(env: Env)
    requires Plain(env, "foo")
    ensures Rank(env, WIKI, "afoo/b.md") == 2 && LinkMatches(WIKI, "afoo/b.md")
  {
    var far := "afoo/b.md";
    NoAnchor("foo");
    FooIn(far, 1);
    assert far[..3][0] == 'a';
    forall i: nat | i <= |far| && At(far, "foo", i) ensures '/' in far[i + 3..] {
      FooInDirectory(i);
    }
  }

  function Two(near: string, far: string): map<nat, NoteRow> {
    map[1 := Stored(near), 2 := Stored(far)]
  }

  lemma BetterRankWins(env: Env, link: Link, near: string, far: string)
    requires !env.isUrl(link.href) && Rank(env, link, near) < Rank(env, link, far) < NO_RANK
    ensures Resolves(env, Two(near, far), link, Some(1)) && !Resolves(env, Two(near, far), link, Some(2))
    ensures Resolves(env, Two(near, far) - {2}, link, Some(1))
  {
    var notes := Two(near, far);
    assert BestRanked(env, notes, link, Some(1)) && !BestRanked(env, notes, link, Some(2));
    assert BestRanked(env, notes - {2}, link, Some(1));
    ResolvesIsBestRanked(env, notes, link, Some(1));
    ResolvesIsBestRanked(env, notes, link, Some(2));
    ResolvesIsBestRanked(env, notes - {2}, link, Some(1));
  }

  /** A wiki link to `foo`, resolved to dir/foo.md, is taken over by afoo/b.md once that is added,
      although resolving it again would leave it where it was. */
  lemma WikiLinkTakenAway(env: Env)
    requires Plain(env, "foo")
    ensures var notes := Two("dir/foo.md", "afoo/b.md");
      && Resolves(env, notes - {2}, WIKI, Some(1))
      && RetargetRow(notes, LinkRow(1, Some(1), WIKI), 2, "afoo/b.md").target == Some(2)
      && Resolves(env, notes, WIKI, Some(1)) && !Resolves(env, notes, WIKI, Some(2))
  {
    NearRank(env);
    FarRank(env);
    BetterRankWins(env, WIKI, "dir/foo.md", "afoo/b.md");
  }

  // --- Remove leaves a link without target ---

  const MARKDOWN := Link("foo", Markdown, false)

  /** The notes `target`, `other` and `source`, with a link of the last to the first. */
  function Linked3(link: Link, target: string, other: string, source: string): Db {
    Db(NoteTable(map[1 := Stored(target), 2 := Stored(other), 3 := Stored(source)], 3, multiset{}),
       LinkTable(map[1 := LinkRow(3, Some(1), link)], 1), TagTable(map[], 0, map[], 0))
  }

  lemma OtherMatchForgotten(env: Env, link: Link, target: string, other: string, source: string)
    requires Internal(env, link) && LinkMatches(link, target) && LinkMatches(link, other) && !LinkMatches(link, source)
    requires |target| <= |other|
    ensures var db := Linked3(link, target, other, source); Optimal(env, db.notes.rows, db.links)
    ensures var d := AfterRemove(Linked3(link, target, other, source), 1);
      d.links.rows[1].target == None && !Optimal(env, d.notes.rows, d.links)
  {
    var d := AfterRemove(Linked3(link, target, other, source), 1);
    assert 2 in d.notes.rows && d.notes.rows[2].path == other;
    assert 1 in d.links.rows && d.links.rows[1] == LinkRow(3, None, link);
  }

  lemma FooMatches()
    ensures LinkMatches(MARKDOWN, "foo.md") && LinkMatches(MARKDOWN, "foobar.md") && !LinkMatches(MARKDOWN, "z.md")
  {
    NoAnchor("foo");
    SuffixMatches("foo", ".md");
    SuffixMatches("foo", "bar.md");
    assert "foo" + ".md" == "foo.md" && "foo" + "bar.md" == "foobar.md";
    assert "z.md"[..3][0] == 'z';
  }

  /** A link to `foo` from z.md targets foo.md; removing foo.md leaves it without target although
      foobar.md matches. */
  lemma RemoveForgetsOtherMatch(env: Env)
    requires Plain(env, "foo")
    ensures var db := Linked3(MARKDOWN, "foo.md", "foobar.md", "z.md"); Optimal(env, db.notes.rows, db.links)
    ensures LinkMatches(MARKDOWN, "foobar.md")
    ensures var d := AfterRemove(Linked3(MARKDOWN, "foo.md", "foobar.md", "z.md"), 1);
      d.links.rows[1].target == None && !Optimal(env, d.notes.rows, d.links)
  {
    FooMatches();
    OtherMatchForgotten(env, MARKDOWN, "foo.md", "foobar.md", "z.md");
  }

  // --- Links that get a target they do not match ---

  lemma ResolvesToOnly(env: Env, link: Link, path: string)
    requires Plain(env, link.href) && StrictMatch(StripAnchor(link.href), path)
    ensures Resolves(env, map[1 := Stored(path)], link, Some(1))
  {
    assert TierMatch(Strict, StripAnchor(link.href), map[1 := Stored(path)][1].path);
  }

  /** The autolink <doi:1>, external although it is not a URL for it has no host, is resolved to the note
      doi:1.md. */
  lemma ExternalLinkResolved(env: Env)
    requires Plain(env, "doi:1")
    ensures Resolves(env, map[1 := Stored("doi:1.md")], Link("doi:1", Implicit, true), Some(1))
  {
    NoAnchor("doi:1");
    SuffixMatches("doi:1", ".md");
    assert "doi:1" + ".md" == "doi:1.md";
    ResolvesToOnly(env, Link("doi:1", Implicit, true), "doi:1.md");
  }

  /** A link to a section of the same note is resolved to another note. */
  lemma SectionLinkResolved(env: Env, kind: LinkType)
    requires Plain(env, "#toc")
    ensures var link := Link("#toc", kind, false); var notes := map[1 := Stored("a.md")];
      Resolves(env, notes, link, Some(1)) && !LinkMatches(link, "a.md")
  {
    var notes := map[1 := Stored("a.md")];
    assert StripAnchor("#toc") == "";
    assert TierMatch(Strict, "", notes[1].path);
  }

  /** A link to `./x`, without target at first, is not given the note x.md once that is added, although it
      resolves to it. */
  lemma DotLinkStaysUnresolved(env: Env)
    requires !env.isUrl("./x") && env.rel("./x") == Some("x")
    ensures var link := Link("./x", Markdown, false); var notes := map[1 := Stored("x.md")];
      && Resolves(env, notes - {1}, link, None)
      && RetargetRow(notes, LinkRow(2, None, link), 1, "x.md").target == None
      && Resolves(env, notes, link, Some(1))
  {
    var link, notes := Link("./x", Markdown, false), map[1 := Stored("x.md")];
    NoAnchor("x");
    NoAnchor("./x");
    SuffixMatches("x", ".md");
    assert "x" + ".md" == "x.md";
    assert TierMatch(Strict, "x", notes[1].path);
    assert notes - {1} == map[];
    assert "x.md"[..3][0] == 'x';
  }

  // --- A related note that links to itself ---

  /** 1 links to 2, 2 to 3, and 3 to itself: 3 is at distance 2 from 1 and is not found related when
      3 is given as well. */
  function SelfLinks(): seq<LinkGraph.Link> {
    [LinkGraph.Link(1, Some(2)), LinkGraph.Link(2, Some(3)), LinkGraph.Link(3, Some(3))]
  }

  lemma RelatedDropsSelfLink(table: seq<LinkClosure.Row>)
    requires Complete(SelfLinks(), 2, table)
    ensures Nearest(SelfLinks(), {1, 3}, 3, 2) && !RelatedSelects(table, {1, 3}, 3)
  {
    var links := SelfLinks();
    assert links[2] in links && LinkGraph.Edge(links, 3, 3);
    RelatedIsDistanceTwo(links, table, {1, 3}, 3);
    SelfLinkDistance();
  }

  /** The last step of a walk is a link. */
  lemma LastStep(links: seq<LinkGraph.Link>, w: seq<nat>)
    requires LinkGraph.Walk(links, w) && |w| >= 2
    ensures LinkGraph.Edge(links, w[|w| - 2], w[|w| - 1])
  {
  }

  lemma SelfLinkDistance()
    ensures Nearest(SelfLinks(), {1, 3}, 3, 2)
  {
    var links := SelfLinks();
    assert links[0] in links && links[1] in links;
    assert LinkGraph.WalkBetween(links, 1, 3, [1, 2, 3]);
    assert LinkGraph.ReachIn(links, 1, 3, 2);
    forall e: nat | LinkGraph.ReachIn(links, 1, 3, e) ensures e >= 2 {
      var w: seq<nat> :| LinkGraph.WalkBetween(links, 1, 3, w) && |w| == e + 1;
      if |w| == 2 {
        LastStep(links, w);
      }
    }
    assert LinkGraph.Distance(links, 1, 3, 2);
    forall e: nat | LinkDistanceTo(links, {1, 3}, 3, e) ensures 2 <= e {
      if LinkGraph.Distance(links, 3, 1, e) {
        var w: seq<nat> :| LinkGraph.WalkBetween(links, 3, 1, w) && |w| == e + 1;
        LastStep(links, w);
      }
    }
  }

  // --- A wiki link that does not come back ---

  ghost predicate ComesBack(path: string) {
    var link := WikiLinks.ParseLine(WikiLinks.LineOf(WikiLinks.Format(path)));
    link.Some? && link.value.href == path
  }

  lemma LostUnlessScannable(path: string)
    requires !WikiLinks.Scannable(path, 0)
    ensures !ComesBack(path)
  {
    WikiLinks.RoundTripIff(path);
  }

  lemma PipeIsNotScannable(path: string)
    requires |path| == 3 && path[0] == 'a' && path[1] == '|'
    ensures !WikiLinks.Scannable(path, 0)
  {
    assert path[1..] != [] && path[1..][0] == '|';
    assert !WikiLinks.Scannable(path[1..], 0);
  }

  /** The path a|b, printed as a wiki link, is not read back: its pipe starts a label. */
  lemma PipeEndsPath()
    ensures !ComesBack("a|b")
  {
    PipeIsNotScannable("a|b");
    LostUnlessScannable("a|b");
  }

  // --- The flag goes down without the file ---

  function UnparsedRun(path: string): Migrations.Event {
    Migrations.IndexRun([PathDiff.Metadata(path, 0)], [], false, _ => None, Indexing.NoFailure, false)
  }

  lemma OneNewFile(path: string)
    ensures PathDiff.Changes([PathDiff.Metadata(path, 0)], [], true) == [PathDiff.Change(path, PathDiff.Added)]
  {
    var source := [PathDiff.Metadata(path, 0)];
    assert PathDiff.HeadChange(PathDiff.First(source), None, true) == Some(PathDiff.Change(path, PathDiff.Added));
    assert source[1..] == [];
    assert PathDiff.Changes([], [], true) == [];
  }

  /** A run over one file that does not parse lowers the flag and leaves the tables as they are. */
  lemma UnparsedFileLowersFlag(env: Env, s: Migrations.Store, path: string)
    requires s.needsReindexing
    ensures Migrations.Commits(s, UnparsedRun(path))
      && Migrations.Effect(env, s, UnparsedRun(path), s.(needsReindexing := false))
  {
    var e := UnparsedRun(path);
    OneNewFile(path);
    assert Migrations.Issued(s, e) == [PathDiff.Change(path, PathDiff.Added)];
    assert Indexing.AppliesAll(env, e.parse, Migrations.Issued(s, e), [s.db, s.db]);
  }

  // --- A failed commit is not reported ---

  /** A forced run over the new file a.md, whose commit fails. */
  function LostCommit(parse: Indexing.Parser): Migrations.Event {
    Migrations.IndexRun([PathDiff.Metadata("a.md", 0)], [], true, parse, Indexing.NoFailure, true)
  }

  /** It reports success, and leaves the flag up and the tables without the file. */
  lemma FailedCommitReportsSuccess(env: Env, s: Migrations.Store, parse: Indexing.Parser, s': Migrations.Store)
    requires s.needsReindexing && s.db == EMPTY && Migrations.Effect(env, s, LostCommit(parse), s')
    ensures Migrations.BodyCompletes(s, LostCommit(parse)) && !Migrations.Commits(s, LostCommit(parse))
    ensures s'.needsReindexing && s'.db == EMPTY && s'.version == s.version
  {
    Migrations.ReportedIffCommitted(env, s, LostCommit(parse), s');
  }

  // --- A negated filter lifts the maximum distance of another ---

  /** a.md links to b.md and b.md to c.md. */
  function Abc(): map<nat, NoteRow> {
    Three("a.md", "b.md", "c.md")
  }

  function AbcLinks(): seq<LinkGraph.Link> {
    [LinkGraph.Link(1, Some(2)), LinkGraph.Link(2, Some(3))]
  }

  /** --linked-by a --recursive --max-distance 1 --no-link-to a */
  function LinkedByAtMostOne(): Opts {
    Opts([], Exact, None, None, false, None, None, None, Some(LinkFilter(["a"], false, true, 1)),
      Some(LinkFilter(["a"], true, false, 0)),
         None, false, false, None, None, None, None)
  }

  lemma NoA(path: string)
    requires 'a' !in path
    ensures !FilenameMatch("a", path)
  {
    if i: nat :| At(path, "a", i) {
      AIsThere(path, i);
    }
  }

  lemma AIsThere(path: string, i: nat)
    requires At(path, "a", i)
    ensures 'a' in path
  {
    assert path[i] == path[i..i + 1][0];
  }

  lemma AInFilename()
    ensures FilenameMatch("a", "a.md")
  {
    var path := "a.md";
    assert path[0..1] == ['a'] && path[1..] == ['.', 'm', 'd'] && path[0..0] == [];
    assert At(path, "a", 0) && DirectoryPrefix(path, 0);
  }

  function Three(a: string, b: string, c: string): map<nat, NoteRow> {
    map[1 := Stored(a), 2 := Stored(b), 3 := Stored(c)]
  }

  lemma OnlyFirst(href: string, a: string, b: string, c: string)
    requires '#' !in href && FilenameMatch(href, a) && !FilenameMatch(href, b) && !FilenameMatch(href, c)
    ensures HrefsIds(Three(a, b, c), [href], true) == {1}
  {
    NoAnchor(href);
    assert TierIds(Three(a, b, c), Filename, href) == {1};
    assert HrefIds(Three(a, b, c), href, true) == {1};
  }

  lemma OnlyA()
    ensures forall n :: Named(Abc(), ["a"], true, n) <==> n == 1
  {
    AInFilename();
    NoA("b.md");
    NoA("c.md");
    OnlyFirst("a", "a.md", "b.md", "c.md");
    NamedIs(Abc(), ["a"], 1);
  }

  lemma NamedIs(notes: map<nat, NoteRow>, hrefs: seq<string>, x: nat)
    requires HrefsIds(notes, hrefs, true) == {x}
    ensures forall n :: Named(notes, hrefs, true, n) <==> n == x
  {
    forall n ensures Named(notes, hrefs, true, n) <==> n == x {
      HrefsIdsIff(notes, hrefs, true, n);
    }
  }

  lemma AbcDistance(d: nat)
    ensures LinkGraph.Distance(AbcLinks(), 1, 3, d) <==> d == 2
  {
    var links := AbcLinks();
    assert links[0] in links && links[1] in links;
    assert LinkGraph.WalkBetween(links, 1, 3, [1, 2, 3]);
    assert LinkGraph.ReachIn(links, 1, 3, 2);
    forall e: nat | LinkGraph.ReachIn(links, 1, 3, e) ensures e >= 2 {
      var w: seq<nat> :| LinkGraph.WalkBetween(links, 1, 3, w) && |w| == e + 1;
      if |w| == 2 {
        LastStep(links, w);
      }
    }
  }

  /** The filter --linked-by a --recursive finds c.md without a maximum distance, and not with 1. */
  lemma CIsTwoAway(links: seq<LinkGraph.Link>)
    requires links == AbcLinks()
    ensures Linked(links, true, 0, 1, 3) && !Linked(links, true, 1, 1, 3) && !Linked(links, false, 0, 3, 1)
  {
    AbcDistance(2);
    assert LinkClosure.WithinMax(0, 2);
    forall d: nat | LinkGraph.Distance(links, 1, 3, d) ensures d == 2 {
      AbcDistance(d);
    }
  }

  lemma OneDesignated(notes: map<nat, NoteRow>, links: seq<LinkGraph.Link>, f: LinkFilter, x: nat, n: nat)
    requires forall k :: Named(notes, f.hrefs, true, k) <==> k == x
    ensures LinkFilterOk(notes, links, Some(f), By, n) <==>
      Linked(links, f.recursive, f.maxDistance, x, n) != f.negate
    ensures LinkFilterOk(notes, links, Some(f), To, n) <==>
      Linked(links, f.recursive, f.maxDistance, n, x) != f.negate
  {
    assert Named(notes, f.hrefs, true, x);
  }

  lemma CPasses(max: int)
    ensures LinkFilterOk(Abc(), AbcLinks(), Some(LinkFilter(["a"], false, true, max)), By, 3)
      <==> Linked(AbcLinks(), true, max, 1, 3)
    ensures LinkFilterOk(Abc(), AbcLinks(), Some(LinkFilter(["a"], true, false, max)), To, 3)
      <==> !Linked(AbcLinks(), false, max, 3, 1)
  {
    OnlyA();
    OneDesignated(Abc(), AbcLinks(), LinkFilter(["a"], false, true, max), 1, 3);
    OneDesignated(Abc(), AbcLinks(), LinkFilter(["a"], true, false, max), 1, 3);
  }

  /** Without other options, the link filters decide. */
  lemma LinkFiltersOnly(m: Matchers, src: Tables, opts: Opts, n: nat)
    requires n in src.db.notes.rows
    requires opts == LinkedByAtMostOne().(linkedBy := opts.linkedBy, linkTo := opts.linkTo)
    ensures Selected(m, src, opts, n) <==>
      && LinkFilterOk(src.db.notes.rows, src.links, opts.linkedBy, By, n)
      && LinkFilterOk(src.db.notes.rows, src.links, opts.linkTo, To, n)
  {
  }

  /** c.md, two links away from a.md, is selected although the maximum distance is 1. */
  lemma NoLinkToLiftsMaximum(m: Matchers, src: Tables, q: Query)
    requires src.db.notes.rows == Abc() && src.links == AbcLinks()
    requires IsQueryOf(src.db.notes.rows, LinkedByAtMostOne(), q) && ClosureOk(src, q)
    ensures Selects(m, src, q, 3) && !Selected(m, src, LinkedByAtMostOne(), 3)
  {
    CIsTwoAway(AbcLinks());
    CPasses(0);
    CPasses(1);
    LinkFiltersOnly(m, src, LinkedByAtMostOne(), 3);
    LinkFiltersOnly(m, src, AtEffectiveMax(LinkedByAtMostOne()), 3);
    QueryAtEffectiveMax(m, src, LinkedByAtMostOne(), q, 3);
  }

  // --- A tag that begins with NOT ---

  /** The option for the tag NOTES selects the notes without a tag ES. */
  lemma NotesTagIsNegated(m: Matchers, src: Tables, s: string, q: Query, n: nat)
    requires n in src.db.notes.rows && s == "NOTES" && IsQueryOf(src.db.notes.rows, OnlyTag(s), q)
    ensures Selects(m, src, q, n) <==> !Tagged(m, src.db.tags, n, "ES")
  {
    var t := AfterNot(s);
    NegatedTagSelects(m, src, s, t, q, n);
  }

  lemma AfterNot(s: string) returns (t: string)
    requires s == "NOTES"
    ensures t == "ES" && s == "NOT" + t && TagOptions.IsTag(t)
  {
    t := s[3..];
    ShortTag(t);
  }

  lemma ShortTag(t: string)
    requires t != "" && |t| < 4 && '|' !in t && ' ' !in t && Trimmed(t)
    ensures TagOptions.IsTag(t)
  {
    forall i: nat | i < |t| ensures !TagOptions.SeparatorAt(t, i) {
      assert t[i..i + 1] == [t[i]];
    }
  }

  // --- A fence after an indented block ---

  /** The fence that follows an indented block is not seen: the code after it is searched for links, and its
      closing fence hides the text that follows. */
  lemma FenceAfterIndentedBlock(lines: seq<string>)
    requires lines == ["    x", "```", "[[a]]", "```", "[[b]]"]
    ensures !DocumentLinks.IsCode(lines, 2) && DocumentLinks.IsCode(lines, 4)
  {
    DocumentLinks.IndentedBlock(lines, 0, 0);
    DocumentLinks.IndentedBlockEnds(lines, 1);
    DocumentLinks.OrdinaryLine(lines, 2);
    DocumentLinks.FencedBlock(lines, 3, 4);
  }
}
