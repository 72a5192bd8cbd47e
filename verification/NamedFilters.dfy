/** The expansion of named filters found among the paths of a set of filtering options. */
module NamedFilters {
  import opened Strings

  datatype Filtering = Filtering(
    path: seq<string>,
    interactive: bool, limit: int, match_: seq<string>, matchStrategy: string,
    exclude: seq<string>, tag: seq<string>, mention: seq<string>, mentionedBy: seq<string>,
    linkTo: seq<string>, noLinkTo: seq<string>, linkedBy: seq<string>, noLinkedBy: seq<string>,
    orphan: bool, tagless: bool, related: seq<string>, maxDistance: int, recursive: bool,
    created: string, createdBefore: string, createdAfter: string,
    modified: string, modifiedBefore: string, modifiedAfter: string,
    sort: seq<string>, exactMatch: bool)

  /** The named filters of the configuration, parsed; None when their text is not a valid list of options. */
  type Filters = map<string, Option<Filtering>>

  // --- The source's merge ---

  function FirstNumber(a: int, b: int): int { if a == 0 then b else a }

  function FirstText(a: string, b: string): string { if a == "" then b else a }

  /** `f` after the options of an expanded filter are added to it; the paths are handled apart. */
  function Merge(f: Filtering, g: Filtering): Filtering {
    Filtering(
      f.path,
      f.interactive || g.interactive, FirstNumber(f.limit, g.limit), f.match_ + g.match_,
      FirstText(f.matchStrategy, g.matchStrategy),
      f.exclude + g.exclude, f.tag + g.tag, f.mention + g.mention, f.mentionedBy + g.mentionedBy,
      f.linkTo + g.linkTo, f.noLinkTo + g.noLinkTo, f.linkedBy + g.linkedBy, f.noLinkedBy + g.noLinkedBy,
      f.orphan || g.orphan, f.tagless || g.tagless, f.related + g.related,
      FirstNumber(f.maxDistance, g.maxDistance), f.recursive || g.recursive,
      FirstText(f.created, g.created), FirstText(f.createdBefore, g.createdBefore),
      FirstText(f.createdAfter, g.createdAfter),
      FirstText(f.modified, g.modified), FirstText(f.modifiedBefore, g.modifiedBefore),
      FirstText(f.modifiedAfter, g.modifiedAfter),
      f.sort + g.sort, f.exactMatch || g.exactMatch)
  }

  function Chain(names: seq<string>): set<string> { set n | n in names }

  lemma ChainGrows(filters: Filters, chain: seq<string>, name: string)
    requires name in filters && name !in chain
    ensures |filters.Keys - Chain(chain + [name])| < |filters.Keys - Chain(chain)|
  {
    var before, after := filters.Keys - Chain(chain), filters.Keys - Chain(chain + [name]);
    assert after == before - {name} && name in before;
  }

  // --- Reference: the expansion as a tree walk ---

  /** A path left after expansion, with the filters being expanded where it was met. */
  datatype Leaf = Leaf(path: string, chain: seq<string>)

  /** The sets of options met in pre-order, and the paths left, in order. */
  datatype Expansion = Expansion(nodes: seq<Filtering>, leaves: seq<Leaf>)

  predicate Expands(filters: Filters, chain: seq<string>, name: string) {
    name in filters && name !in chain
  }

  function Visit(filters: Filters, f: Filtering, chain: seq<string>): Option<Expansion>
    decreases |filters.Keys - Chain(chain)|, 2, 0
  {
    var below := VisitPaths(filters, f.path, chain);
    if below.None? then None else Some(Expansion([f] + below.value.nodes, below.value.leaves))
  }

  function VisitPaths(filters: Filters, paths: seq<string>, chain: seq<string>): Option<Expansion>
    decreases |filters.Keys - Chain(chain)|, 1, |paths|
  {
    if paths == [] then Some(Expansion([], []))
    else
      var front := VisitPaths(filters, paths[..|paths| - 1], chain);
      var last := VisitPath(filters, paths[|paths| - 1], chain);
      if front.None? || last.None? then None
      else Some(Expansion(front.value.nodes + last.value.nodes, front.value.leaves + last.value.leaves))
  }

  function VisitPath(filters: Filters, path: string, chain: seq<string>): Option<Expansion>
    decreases |filters.Keys - Chain(chain)|, 0, 0
  {
    if !Expands(filters, chain, path) then Some(Expansion([], [Leaf(path, chain)]))
    else if filters[path].None? then None
    else
      ChainGrows(filters, chain, path);
      Visit(filters, filters[path].value, chain + [path])
  }

  function Fold(nodes: seq<Filtering>): Filtering
    requires nodes != []
  {
    if |nodes| == 1 then nodes[0] else Merge(Fold(nodes[..|nodes| - 1]), nodes[|nodes| - 1])
  }

  function Paths(leaves: seq<Leaf>): seq<string> {
    seq(|leaves|, i requires 0 <= i < |leaves| => leaves[i].path)
  }

  /** What the expansion should give: all the options met, merged in pre-order, and the paths left. */
  function Expanded(e: Expansion): Filtering
    requires e.nodes != []
  {
    Fold(e.nodes).(path := Paths(e.leaves))
  }

  lemma MergeAssociative(a: Filtering, b: Filtering, c: Filtering)
    ensures Merge(Merge(a, b), c) == Merge(a, Merge(b, c))
  {
    ListsAssociative(a, b, c);
  }

  lemma ListsAssociative(a: Filtering, b: Filtering, c: Filtering)
    ensures forall o :: ListOf(Merge(Merge(a, b), c), o) == ListOf(Merge(a, Merge(b, c)), o)
  {
    forall o ensures ListOf(Merge(Merge(a, b), c), o) == ListOf(Merge(a, Merge(b, c)), o) {
      assert (ListOf(a, o) + ListOf(b, o)) + ListOf(c, o) == ListOf(a, o) + (ListOf(b, o) + ListOf(c, o));
    }
  }

  // --- Options by kind ---

  datatype ListOption =
    | Match | Exclude | Tag | Mention | MentionedBy
    | LinkTo | NoLinkTo | LinkedBy | NoLinkedBy | Related | Sort

  datatype Flag = Interactive | Orphan | Tagless | Recursive | ExactMatch

  datatype NumberOption = Limit | MaxDistance

  datatype TextOption =
    | MatchStrategy | Created | CreatedBefore | CreatedAfter | Modified | ModifiedBefore | ModifiedAfter

  function ListOf(f: Filtering, o: ListOption): seq<string> {
    match o
    case Match => f.match_
    case Exclude => f.exclude
    case Tag => f.tag
    case Mention => f.mention
    case MentionedBy => f.mentionedBy
    case LinkTo => f.linkTo
    case NoLinkTo => f.noLinkTo
    case LinkedBy => f.linkedBy
    case NoLinkedBy => f.noLinkedBy
    case Related => f.related
    case Sort => f.sort
  }

  predicate FlagOf(f: Filtering, o: Flag) {
    match o
    case Interactive => f.interactive
    case Orphan => f.orphan
    case Tagless => f.tagless
    case Recursive => f.recursive
    case ExactMatch => f.exactMatch
  }

  function NumberOf(f: Filtering, o: NumberOption): int {
    match o
    case Limit => f.limit
    case MaxDistance => f.maxDistance
  }

  function TextOf(f: Filtering, o: TextOption): string {
    match o
    case MatchStrategy => f.matchStrategy
    case Created => f.created
    case CreatedBefore => f.createdBefore
    case CreatedAfter => f.createdAfter
    case Modified => f.modified
    case ModifiedBefore => f.modifiedBefore
    case ModifiedAfter => f.modifiedAfter
  }

  function ConcatLists(nodes: seq<Filtering>, o: ListOption): seq<string> {
    if nodes == [] then [] else ConcatLists(nodes[..|nodes| - 1], o) + ListOf(nodes[|nodes| - 1], o)
  }

  /** `value` is the first of the values that is set, or unset when none is. */
  ghost predicate FirstSet<T>(values: seq<T>, unset: T, value: T) {
    if value == unset then forall v | v in values :: v == unset
    else exists i | 0 <= i < |values| :: values[i] == value && forall k | 0 <= k < i :: values[k] == unset
  }

  lemma FirstSetAppend<T>(values: seq<T>, last: T, unset: T, value: T)
    requires FirstSet(values, unset, value)
    ensures FirstSet(values + [last], unset, if value == unset then last else value)
  {
    var all := values + [last];
    if value == unset {
      assert last != unset ==> all[|values|] == last;
      forall k | 0 <= k < |values| ensures all[k] == unset {
        assert values[k] in values;
      }
    } else {
      var i :| 0 <= i < |values| && values[i] == value && forall k | 0 <= k < i :: values[k] == unset;
      assert all[i] == value;
    }
  }

  function Numbers(nodes: seq<Filtering>, o: NumberOption): seq<int> {
    seq(|nodes|, i requires 0 <= i < |nodes| => NumberOf(nodes[i], o))
  }

  function Texts(nodes: seq<Filtering>, o: TextOption): seq<string> {
    seq(|nodes|, i requires 0 <= i < |nodes| => TextOf(nodes[i], o))
  }

  /** List options are concatenated in pre-order. */
  lemma {:induction false} FoldedList(nodes: seq<Filtering>, o: ListOption)
    requires nodes != []
    ensures ListOf(Fold(nodes), o) == ConcatLists(nodes, o)
  {
    if |nodes| > 1 {
      FoldedList(nodes[..|nodes| - 1], o);
    } else {
      assert ConcatLists(nodes[..0], o) == [];
    }
  }

  /** A flag is set when it is set in one of the sets of options. */
  lemma {:induction false} FoldedFlag(nodes: seq<Filtering>, o: Flag)
    requires nodes != []
    ensures FlagOf(Fold(nodes), o) <==> exists n | n in nodes :: FlagOf(n, o)
  {
    if |nodes| > 1 {
      var front, last := nodes[..|nodes| - 1], nodes[|nodes| - 1];
      FoldedFlag(front, o);
      assert nodes == front + [last];
      if FlagOf(last, o) {
        assert last in nodes;
      } else if n :| n in front && FlagOf(n, o) {
        assert n in nodes;
      }
    } else {
      assert nodes[0] in nodes;
    }
  }

  /** For the limit and the maximum distance, the first non-zero value in pre-order wins. */
  lemma {:induction false} FoldedNumber(nodes: seq<Filtering>, o: NumberOption)
    requires nodes != []
    ensures FirstSet(Numbers(nodes, o), 0, NumberOf(Fold(nodes), o))
  {
    if |nodes| > 1 {
      var front, last := nodes[..|nodes| - 1], nodes[|nodes| - 1];
      FoldedNumber(front, o);
      FirstSetAppend(Numbers(front, o), NumberOf(last, o), 0, NumberOf(Fold(front), o));
      assert Numbers(nodes, o) == Numbers(front, o) + [NumberOf(last, o)];
    } else {
      FirstSetAppend([], NumberOf(nodes[0], o), 0, 0);
      assert Numbers(nodes, o) == [] + [NumberOf(nodes[0], o)];
    }
  }

  /** For dates and the match strategy, the first non-empty text in pre-order wins. */
  lemma {:induction false} FoldedText(nodes: seq<Filtering>, o: TextOption)
    requires nodes != []
    ensures FirstSet(Texts(nodes, o), "", TextOf(Fold(nodes), o))
  {
    if |nodes| > 1 {
      var front, last := nodes[..|nodes| - 1], nodes[|nodes| - 1];
      FoldedText(front, o);
      FirstSetAppend(Texts(front, o), TextOf(last, o), "", TextOf(Fold(front), o));
      assert Texts(nodes, o) == Texts(front, o) + [TextOf(last, o)];
    } else {
      FirstSetAppend([], TextOf(nodes[0], o), "", "");
      assert Texts(nodes, o) == [] + [TextOf(nodes[0], o)];
    }
  }

  // --- Correctness of the expansion ---

  lemma {:induction false} FoldConcat(a: seq<Filtering>, b: seq<Filtering>)
    requires a != [] && b != []
    ensures Fold(a + b) == Merge(Fold(a), Fold(b))
  {
    var last := b[|b| - 1];
    assert (a + b)[|a + b| - 1] == last;
    if |b| == 1 {
      assert (a + b)[..|a + b| - 1] == a;
    } else {
      assert (a + b)[..|a + b| - 1] == a + b[..|b| - 1];
      FoldConcat(a, b[..|b| - 1]);
      MergeAssociative(Fold(a), Fold(b[..|b| - 1]), last);
    }
  }

  lemma PathsConcat(a: seq<Leaf>, b: seq<Leaf>)
    ensures Paths(a + b) == Paths(a) + Paths(b)
  {
  }

  lemma MergePath(f: Filtering, g: Filtering, path: seq<string>)
    ensures Merge(f, g.(path := path)) == Merge(f, g)
  {
  }

  /** A failing path makes the whole list fail. */
  lemma {:induction false} VisitPathsFails(filters: Filters, paths: seq<string>, chain: seq<string>, i: nat)
    requires i < |paths| && VisitPath(filters, paths[i], chain).None?
    ensures VisitPaths(filters, paths, chain).None?
  {
    if i < |paths| - 1 {
      VisitPathsFails(filters, paths[..|paths| - 1], chain, i);
    }
  }

  /** After `i` paths: the options merged and the paths kept so far. */
  ghost predicate Midway(filters: Filters, f: Filtering, chain: seq<string>, i: nat, g: Filtering, kept: seq<string>)
    requires i <= |f.path|
  {
    var e := VisitPaths(filters, f.path[..i], chain);
    e.Some? && g == Fold([f] + e.value.nodes) && kept == Paths(e.value.leaves)
  }

  lemma MidwayNext(filters: Filters, f: Filtering, chain: seq<string>, i: nat, g: Filtering, kept: seq<string>,
                   e: Expansion)
    requires i < |f.path| && Midway(filters, f, chain, i, g, kept) && VisitPath(filters, f.path[i], chain) == Some(e)
    ensures Midway(filters, f, chain, i + 1, if e.nodes == [] then g else Merge(g, Expanded(e)), kept + Paths(e.leaves))
  {
    assert f.path[..i + 1][..i] == f.path[..i];
    var before := VisitPaths(filters, f.path[..i], chain).value;
    PathsConcat(before.leaves, e.leaves);
    assert [f] + (before.nodes + e.nodes) == ([f] + before.nodes) + e.nodes;
    if e.nodes == [] {
      assert before.nodes + e.nodes == before.nodes;
    } else {
      FoldConcat([f] + before.nodes, e.nodes);
      MergePath(g, Fold(e.nodes), Paths(e.leaves));
    }
  }

  /** ExpandNamedFilters: the result is the pre-order walk of the expansion, for every table of
      filters, cyclic ones included, and it fails exactly when some filter met does not parse. */
  method ExpandNamedFilters(filters: Filters, f: Filtering, chain: seq<string>) returns (r: Option<Filtering>)
    ensures r == Expand(filters, f, chain)
    decreases |filters.Keys - Chain(chain)|
  {
    var actual: seq<string> := [];
    var g := f;
    assert f.path[..0] == [] && [f] + [] == [f];
    for i := 0 to |f.path|
      invariant Midway(filters, f, chain, i, g, actual)
    {
      var path := f.path[i];
      if path in filters && path !in chain {
        var parsed := filters[path];
        if parsed.None? {
          VisitPathsFails(filters, f.path, chain, i);
          return None;
        }
        ChainGrows(filters, chain, path);
        var sub := ExpandNamedFilters(filters, parsed.value, chain + [path]);
        if sub.None? {
          VisitPathsFails(filters, f.path, chain, i);
          return None;
        }
        MidwayNext(filters, f, chain, i, g, actual, VisitPath(filters, path, chain).value);
        actual := actual + sub.value.path;
        g := Merge(g, sub.value);
      } else {
        MidwayNext(filters, f, chain, i, g, actual, Expansion([], [Leaf(path, chain)]));
        actual := actual + [path];
      }
    }
    assert f.path[..|f.path|] == f.path;
    return Some(g.(path := actual));
  }

  ghost predicate LeavesOk(filters: Filters, leaves: seq<Leaf>) {
    forall l | l in leaves :: l.path !in filters || l.path in l.chain
  }

  /** Every path left is not the name of a filter, or names a filter it was met under. */
  lemma {:induction false} LeavesAreFinal(filters: Filters, f: Filtering, chain: seq<string>)
    requires Visit(filters, f, chain).Some?
    ensures LeavesOk(filters, Visit(filters, f, chain).value.leaves)
    decreases |filters.Keys - Chain(chain)|, 2, 0
  {
    PathsAreFinal(filters, f.path, chain);
  }

  lemma {:induction false} PathsAreFinal(filters: Filters, paths: seq<string>, chain: seq<string>)
    requires VisitPaths(filters, paths, chain).Some?
    ensures LeavesOk(filters, VisitPaths(filters, paths, chain).value.leaves)
    decreases |filters.Keys - Chain(chain)|, 1, |paths|
  {
    if paths != [] {
      var path := paths[|paths| - 1];
      PathsAreFinal(filters, paths[..|paths| - 1], chain);
      if Expands(filters, chain, path) {
        ChainGrows(filters, chain, path);
        LeavesAreFinal(filters, filters[path].value, chain + [path]);
      }
    }
  }

  // --- The expansion on its own terms ---

  /** What ExpandNamedFilters returns. */
  function Expand(filters: Filters, f: Filtering, chain: seq<string>): Option<Filtering> {
    var e := Visit(filters, f, chain);
    if e.None? then None else Some(Expanded(e.value))
  }

  const NO_OPTIONS := Filtering([], false, 0, [], "", [], [], [], [], [], [], [], [], false, false, [], 0, false,
                                "", "", "", "", "", "", [], false)

  lemma {:induction false} VisitPathsNothing(filters: Filters, paths: seq<string>, chain: seq<string>)
    requires forall p | p in paths :: p !in filters || p in chain
    ensures var e := VisitPaths(filters, paths, chain);
      e.Some? && e.value.nodes == [] && Paths(e.value.leaves) == paths
  {
    if paths != [] {
      var front, last := paths[..|paths| - 1], paths[|paths| - 1];
      VisitPathsNothing(filters, front, chain);
      assert paths == front + [last];
    }
  }

  /** When no path is the name of a filter to expand, the options stay as they are. */
  lemma ExpandNothing(filters: Filters, f: Filtering, chain: seq<string>)
    requires forall p | p in f.path :: p !in filters || p in chain
    ensures Expand(filters, f, chain) == Some(f)
  {
    VisitPathsNothing(filters, f.path, chain);
    assert [f] + [] == [f];
  }

  function Joined(a: Expansion, b: Expansion): Expansion {
    Expansion(a.nodes + b.nodes, a.leaves + b.leaves)
  }

  lemma {:induction false} VisitPathsConcat(filters: Filters, a: seq<string>, b: seq<string>, chain: seq<string>)
    ensures var x, y := VisitPaths(filters, a, chain), VisitPaths(filters, b, chain);
      VisitPaths(filters, a + b, chain) == if x.None? || y.None? then None else Some(Joined(x.value, y.value))
    decreases |b|
  {
    var x, y := VisitPaths(filters, a, chain), VisitPaths(filters, b, chain);
    if b == [] {
      assert a + b == a;
      if x.Some? {
        assert x.value.nodes + [] == x.value.nodes && x.value.leaves + [] == x.value.leaves;
      }
    } else {
      var front := b[..|b| - 1];
      assert (a + b)[..|a + b| - 1] == a + front;
      VisitPathsConcat(filters, a, front, chain);
      var z := VisitPaths(filters, front, chain);
      var last := VisitPath(filters, b[|b| - 1], chain);
      if x.Some? && z.Some? && last.Some? {
        JoinedAssociative(x.value, z.value, last.value);
      }
    }
  }

  lemma JoinedAssociative(a: Expansion, b: Expansion, c: Expansion)
    ensures Joined(Joined(a, b), c) == Joined(a, Joined(b, c))
  {
    assert (a.nodes + b.nodes) + c.nodes == a.nodes + (b.nodes + c.nodes);
    assert (a.leaves + b.leaves) + c.leaves == a.leaves + (b.leaves + c.leaves);
  }

  lemma MergeNothing(f: Filtering, path: seq<string>)
    ensures Merge(f, NO_OPTIONS.(path := path)) == f
  {
    assert forall o :: ListOf(f, o) + [] == ListOf(f, o);
  }

  /** Sets of options met further on are merged after those met before. */
  lemma FoldMore(before: seq<Filtering>, path: seq<string>, after: seq<Filtering>)
    requires before != []
    ensures Fold(before + after) == Merge(Fold(before), Fold([NO_OPTIONS.(path := path)] + after))
  {
    var none := NO_OPTIONS.(path := path);
    FoldConcat(before, [none] + after);
    ConcatAssociative(before, [none], after);
    FoldNothing(before, path);
    SameFold(before + [none], before, after);
  }

  lemma ConcatAssociative(a: seq<Filtering>, b: seq<Filtering>, c: seq<Filtering>)
    ensures a + (b + c) == (a + b) + c
  {
  }

  lemma FoldNothing(before: seq<Filtering>, path: seq<string>)
    requires before != []
    ensures Fold(before + [NO_OPTIONS.(path := path)]) == Fold(before)
  {
    FoldConcat(before, [NO_OPTIONS.(path := path)]);
    MergeNothing(Fold(before), path);
  }

  lemma SameFold(a: seq<Filtering>, b: seq<Filtering>, after: seq<Filtering>)
    requires a != [] && b != [] && Fold(a) == Fold(b)
    ensures Fold(a + after) == Fold(b + after)
  {
    if after == [] {
      assert a + after == a && b + after == b;
    } else {
      FoldConcat(a, after);
      FoldConcat(b, after);
    }
  }

  /** A path that names a filter is replaced by the paths of that filter, itself expanded, in place; the
      options of that filter are merged after those of the paths before it and before those of the
      paths after it. */
  lemma ExpandOne(filters: Filters, f: Filtering, chain: seq<string>, a: seq<string>, p: string, b: seq<string>)
    requires f.path == a + [p] + b && p in filters && p !in chain && filters[p].Some?
    requires Expand(filters, f.(path := a), chain).Some? && Expand(filters, NO_OPTIONS.(path := b), chain).Some?
    requires Expand(filters, filters[p].value, chain + [p]).Some?
    ensures var before := Expand(filters, f.(path := a), chain).value;
      var named := Expand(filters, filters[p].value, chain + [p]).value;
      var after := Expand(filters, NO_OPTIONS.(path := b), chain).value;
      Expand(filters, f, chain)
      == Some(Merge(Merge(before, named), after).(path := before.path + named.path + after.path))
  {
    var x, y := VisitPaths(filters, a, chain).value, VisitPaths(filters, b, chain).value;
    var named := Visit(filters, filters[p].value, chain + [p]).value;
    VisitOne(filters, chain, a, p, b);
    assert VisitPaths(filters, f.path, chain) == Some(Joined(Joined(x, named), y));
    ExpandedOne(f, a, x, named, b, y);
  }

  lemma VisitOne(filters: Filters, chain: seq<string>, a: seq<string>, p: string, b: seq<string>)
    requires p in filters && p !in chain && filters[p].Some?
    ensures var x, y := VisitPaths(filters, a, chain), VisitPaths(filters, b, chain);
      var named := Visit(filters, filters[p].value, chain + [p]);
      VisitPaths(filters, a + [p] + b, chain)
      == if x.None? || y.None? || named.None? then None else Some(Joined(Joined(x.value, named.value), y.value))
  {
    var named := Visit(filters, filters[p].value, chain + [p]);
    VisitPathsConcat(filters, a + [p], b, chain);
    VisitPathsConcat(filters, a, [p], chain);
    assert [p][..0] == [];
    assert VisitPath(filters, p, chain) == named;
    if named.Some? {
      assert [] + named.value.nodes == named.value.nodes && [] + named.value.leaves == named.value.leaves;
    }
    assert VisitPaths(filters, [p], chain) == named;
  }

  lemma ExpandedOne(f: Filtering, a: seq<string>, x: Expansion, named: Expansion, b: seq<string>, y: Expansion)
    requires named.nodes != []
    ensures var before := Expanded(Expansion([f.(path := a)] + x.nodes, x.leaves));
      var after := Expanded(Expansion([NO_OPTIONS.(path := b)] + y.nodes, y.leaves));
      var all := Joined(Joined(x, named), y);
      Expanded(Expansion([f] + all.nodes, all.leaves))
      == Merge(Merge(before, Expanded(named)), after).(path := before.path + Expanded(named).path + after.path)
  {
    PathsConcat(x.leaves + named.leaves, y.leaves);
    PathsConcat(x.leaves, named.leaves);
    var n := [f] + x.nodes;
    assert [f] + ((x.nodes + named.nodes) + y.nodes) == (n + named.nodes) + y.nodes;
    FoldMore(n + named.nodes, b, y.nodes);
    FoldConcat(n, named.nodes);
    FoldPath(f, a, x.nodes);
  }

  /** Only the paths of the first set of options are kept, and they are replaced in the end. */
  lemma {:induction false} FoldPath(f: Filtering, path: seq<string>, nodes: seq<Filtering>)
    ensures Fold([f.(path := path)] + nodes) == Fold([f] + nodes).(path := path)
  {
    if nodes != [] {
      var front := nodes[..|nodes| - 1];
      assert ([f] + nodes)[..|[f] + nodes| - 1] == [f] + front;
      assert ([f.(path := path)] + nodes)[..|[f] + nodes| - 1] == [f.(path := path)] + front;
      FoldPath(f, path, front);
    } else {
      assert [f] + nodes == [f] && [f.(path := path)] + nodes == [f.(path := path)];
    }
  }

  /** The expansion fails exactly when some path names a filter to expand that does not parse, or whose own
      expansion fails. */
  lemma ExpandFailsIff(filters: Filters, f: Filtering, chain: seq<string>)
    ensures Expand(filters, f, chain).None? <==>
      exists p | p in f.path :: p in filters && p !in chain
        && (filters[p].None? || Expand(filters, filters[p].value, chain + [p]).None?)
  {
    VisitPathsFailsIff(filters, f.path, chain);
  }

  lemma {:induction false} VisitPathsFailsIff(filters: Filters, paths: seq<string>, chain: seq<string>)
    ensures VisitPaths(filters, paths, chain).None? <==>
      exists p | p in paths :: p in filters && p !in chain
        && (filters[p].None? || Expand(filters, filters[p].value, chain + [p]).None?)
  {
    if paths != [] {
      var front, last := paths[..|paths| - 1], paths[|paths| - 1];
      VisitPathsFailsIff(filters, front, chain);
      assert paths == front + [last];
      assert VisitPath(filters, last, chain).None? <==>
        last in filters && last !in chain
        && (filters[last].None? || Expand(filters, filters[last].value, chain + [last]).None?);
    }
  }
}
