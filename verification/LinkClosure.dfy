/** The recursive common table expression behind --recursive, --max-distance and --related:
    its evaluation, and what its rows mean in the link graph. */
module LinkClosure {
  import opened Strings
  import opened LinkGraph
  import Like

  /** A row of transitive_closure; `path` is the dotted string of the ids met so far, NULL for a dead link. */
  datatype Row = Row(source: Id, target: Option<Id>, distance: nat, path: Option<string>)

  const ROW_LIMIT: nat := 100000

  // --- The query ---

  /** The non-recursive SELECT. */
  function Base(links: seq<Link>): seq<Row> {
    seq(|links|, i requires 0 <= i < |links| => BaseRow(links[i]))
  }

  /** `'.' || source_id || '.' || target_id || '.'`, NULL as soon as the target is. */
  function BaseRow(l: Link): Row {
    match l.target
    case None => Row(l.source, None, 1, None)
    case Some(t) => Row(l.source, Some(t), 1, Some("." + Decimal(l.source) + "." + Decimal(t) + "."))
  }

  /** `tc.path NOT LIKE '%.' || id || '.%'`. */
  predicate NotOnPath(path: string, id: Id) {
    !Like.Matches("%." + Decimal(id) + ".%", path, None)
  }

  /** The distance test, left out of the query when the maximum is 0. */
  predicate DistanceTest(max: int, distance: nat) {
    max != 0 ==> distance < max
  }

  /** The JOIN and WHERE conditions of the recursive SELECT; comparing NULL is never true. */
  predicate Joins(max: int, row: Row, l: Link) {
    row.target == Some(l.source) && l.target.Some? && row.path.Some?
    && NotOnPath(row.path.value, l.target.value) && DistanceTest(max, row.distance)
  }

  function NextRow(row: Row, l: Link): Row
    requires l.target.Some? && row.path.Some?
  {
    Row(row.source, l.target, row.distance + 1, Some(row.path.value + Decimal(l.target.value) + "."))
  }

  /** The recursive SELECT run with `row` as the only row of the recursive table. */
  function Extend(links: seq<Link>, max: int, row: Row): seq<Row> {
    if links == [] then []
    else (if Joins(max, row, links[0]) then [NextRow(row, links[0])] else []) + Extend(links[1..], max, row)
  }

  // --- Trails: the id lists behind the dotted paths ---

  /** The ids a row went through; a single id stands for a link without target. */
  type Trail = ids: seq<Id> | |ids| >= 1 witness [0]

  /** Dotted form of a list of ids: `.1.5.12.`. */
  function Dotted(ids: seq<Id>): (s: string)
    ensures s != [] && s[0] == '.'
  {
    if ids == [] then "." else "." + Decimal(ids[0]) + Dotted(ids[1..])
  }

  function RowOf(t: Trail): Row {
    if |t| == 1 then Row(t[0], None, 1, None)
    else Row(t[0], Some(t[|t| - 1]), |t| - 1, Some(Dotted(t)))
  }

  predicate Continues(max: int, t: Trail, l: Link) {
    |t| >= 2 && t[|t| - 1] == l.source && l.target.Some? && l.target.value !in t && DistanceTest(max, |t| - 1)
  }

  function BaseTrail(l: Link): Trail {
    match l.target case None => [l.source] case Some(t) => [l.source, t]
  }

  function BaseTrails(links: seq<Link>): seq<Trail> {
    seq(|links|, i requires 0 <= i < |links| => BaseTrail(links[i]))
  }

  function ExtendTrail(links: seq<Link>, max: int, t: Trail): seq<Trail> {
    if links == [] then []
    else (if Continues(max, t, links[0]) then [t + [links[0].target.value]] else []) + ExtendTrail(links[1..], max, t)
  }

  function RowsOf(ts: seq<Trail>): seq<Row> {
    seq(|ts|, i requires 0 <= i < |ts| => RowOf(ts[i]))
  }

  lemma {:induction false} DottedAppend(ids: seq<Id>, id: Id)
    ensures Dotted(ids + [id]) == Dotted(ids) + Decimal(id) + "."
  {
    if ids == [] {
      assert [id][1..] == [];
      assert ids + [id] == [id];
    } else {
      assert (ids + [id])[1..] == ids[1..] + [id];
      DottedAppend(ids[1..], id);
    }
  }

  /** Two ids delimited by dots in the same place are the same id. */
  lemma AlignedIds(a: Id, b: Id, rest: string)
    requires rest != [] && rest[0] == '.'
    requires At("." + Decimal(b) + rest, "." + Decimal(a) + ".", 0)
    ensures a == b
  {
    var text, needle := "." + Decimal(b) + rest, "." + Decimal(a) + ".";
    assert text[0..|needle|] == needle;
    forall i | 0 <= i < |needle| ensures text[i] == needle[i] {
      assert text[0..|needle|][i] == text[i];
    }
    var m, n := |Decimal(a)|, |Decimal(b)|;
    assert needle[m + 1] == '.' && text[n + 1] == '.';
    assert m == n;
    assert Decimal(a) == needle[1..m + 1] == text[1..m + 1] == Decimal(b);
    DecimalInjective(a, b);
  }

  /** An occurrence of `.id.` in a dotted path is the first id or lies in the rest of the path. */
  lemma DottedSearch(first: Id, rest: string, id: Id)
    requires rest != [] && rest[0] == '.'
    requires Contains("." + Decimal(first) + rest, "." + Decimal(id) + ".")
    ensures id == first || Contains(rest, "." + Decimal(id) + ".")
  {
    var head, needle := "." + Decimal(first), "." + Decimal(id) + ".";
    var text := head + rest;
    var i: nat :| i <= |text| && At(text, needle, i);
    if i == 0 {
      AlignedIds(id, first, rest);
    } else {
      assert text[i] == text[i..i + |needle|][0] == '.';
      assert i >= |head|;
      var k := i - |head|;
      assert rest[k..k + |needle|] == text[i..i + |needle|];
      assert At(rest, needle, k);
    }
  }

  lemma DottedFirst(id: Id, rest: string)
    requires rest != [] && rest[0] == '.'
    ensures Contains("." + Decimal(id) + rest, "." + Decimal(id) + ".")
  {
    var text, needle := "." + Decimal(id) + rest, "." + Decimal(id) + ".";
    assert text[0..|needle|] == needle;
    assert At(text, needle, 0);
  }

  lemma ContainsAfter(head: string, rest: string, needle: string)
    requires Contains(rest, needle)
    ensures Contains(head + rest, needle)
  {
    var i: nat :| i <= |rest| && At(rest, needle, i);
    var k := i + |head|;
    assert (head + rest)[k..k + |needle|] == rest[i..i + |needle|];
    assert At(head + rest, needle, k);
  }

  /** Searching `.id.` in a dotted path finds exactly the ids on the path. */
  lemma {:induction false} DottedContains(ids: seq<Id>, id: Id)
    ensures Contains(Dotted(ids), "." + Decimal(id) + ".") <==> id in ids
  {
    var needle := "." + Decimal(id) + ".";
    if ids == [] {
      assert |Dotted(ids)| == 1;
    } else {
      var head, rest := "." + Decimal(ids[0]), Dotted(ids[1..]);
      DottedContains(ids[1..], id);
      if Contains(head + rest, needle) {
        DottedSearch(ids[0], rest, id);
      }
      if id == ids[0] {
        DottedFirst(id, rest);
      } else if Contains(rest, needle) {
        ContainsAfter(head, rest, needle);
      }
    }
  }

  /** The NOT LIKE guard of the query is exactly "this id is not on the path yet". */
  lemma NotLikeIsNotVisited(ids: seq<Id>, id: Id)
    ensures NotOnPath(Dotted(ids), id) <==> id !in ids
  {
    var term := "." + Decimal(id) + ".";
    assert "%." + Decimal(id) + ".%" == "%" + term + "%";
    Like.PlainLike(term, Dotted(ids));
    DottedContains(ids, id);
  }

  lemma BaseRows(links: seq<Link>)
    ensures Base(links) == RowsOf(BaseTrails(links))
  {
    forall i | 0 <= i < |links| ensures BaseRow(links[i]) == RowOf(BaseTrail(links[i])) {
      var l := links[i];
      if l.target.Some? {
        assert [l.source] + [l.target.value] == [l.source, l.target.value];
        DottedAppend([l.source], l.target.value);
        DottedAppend([], l.source);
        assert [] + [l.source] == [l.source];
      }
    }
  }

  /** Extending a row is extending its trail. */
  lemma {:induction false} ExtendRows(links: seq<Link>, max: int, t: Trail)
    ensures Extend(links, max, RowOf(t)) == RowsOf(ExtendTrail(links, max, t))
  {
    if links != [] {
      ExtendRows(links[1..], max, t);
      var l := links[0];
      if |t| >= 2 && l.target.Some? {
        NotLikeIsNotVisited(t, l.target.value);
        DottedAppend(t, l.target.value);
      }
    }
  }

  // --- Size of the closure, for the row cap ---

  function Targets(links: seq<Link>): set<Id> {
    set l | l in links && l.target.Some? :: l.target.value
  }

  function Visited(t: Trail): set<Id> { set id | id in t }

  lemma {:induction false} ExtensionsOf(links: seq<Link>, max: int, t: Trail)
    ensures forall e | e in ExtendTrail(links, max, t) ::
      |e| == |t| + 1 && e[..|t|] == t && Continues(max, t, Link(t[|t| - 1], Some(e[|t|])))
        && Edge(links, t[|t| - 1], e[|t|])
    ensures forall l | l in links && Continues(max, t, l) :: t + [l.target.value] in ExtendTrail(links, max, t)
  {
    if links != [] {
      ExtensionsOf(links[1..], max, t);
      forall e | e in ExtendTrail(links, max, t)
        ensures |e| == |t| + 1 && e[..|t|] == t && Continues(max, t, Link(t[|t| - 1], Some(e[|t|])))
          && Edge(links, t[|t| - 1], e[|t|])
      {
        if e !in ExtendTrail(links[1..], max, t) {
          assert e == t + [links[0].target.value];
          assert links[0] == Link(t[|t| - 1], Some(e[|t|]));
        }
      }
      forall l | l in links && Continues(max, t, l)
        ensures t + [l.target.value] in ExtendTrail(links, max, t)
      {
        if l != links[0] {
          assert l in links[1..];
        }
      }
    }
  }

  lemma UnvisitedShrinks(links: seq<Link>, max: int, t: Trail, e: Trail)
    requires e in ExtendTrail(links, max, t)
    ensures |Targets(links) - Visited(e)| < |Targets(links) - Visited(t)|
  {
    ExtensionsOf(links, max, t);
    var x := e[|t|];
    assert Link(t[|t| - 1], Some(x)) in links;
    assert x in Targets(links);
    assert x !in t && x in e;
    forall id | id in t ensures id in e {
      var i :| 0 <= i < |t| && t[i] == id;
      assert e[..|t|][i] == e[i];
    }
    assert Visited(t) <= Visited(e);
    SmallerSet(Targets(links) - Visited(e), Targets(links) - Visited(t), x);
  }

  lemma SmallerSet<T>(a: set<T>, b: set<T>, x: T)
    requires a <= b && x in b && x !in a
    ensures |a| < |b|
  {
    assert b == a + (b - a);
    assert x in b - a;
  }

  function Sum(ns: seq<nat>): nat {
    if ns == [] then 0 else ns[0] + Sum(ns[1..])
  }

  lemma {:induction false} SumConcat(a: seq<nat>, b: seq<nat>)
    ensures Sum(a + b) == Sum(a) + Sum(b)
  {
    if a == [] {
      assert a + b == b;
    } else {
      assert (a + b)[1..] == a[1..] + b;
      SumConcat(a[1..], b);
    }
  }

  /** How many rows a row and everything derived from it produce. It is defined by recursion on
      the notes not visited yet, so the recursion of the query ends for every link graph. */
  function Weight(links: seq<Link>, max: int, t: Trail): (w: nat)
    ensures w >= 1
    decreases |Targets(links) - Visited(t)|
  {
    var next := ExtendTrail(links, max, t);
    1 + Sum(seq(|next|,
      i requires 0 <= i < |next| => UnvisitedShrinks(links, max, t, next[i]); Weight(links, max, next[i])))
  }

  function Weights(links: seq<Link>, max: int, ts: seq<Trail>): nat {
    Sum(seq(|ts|, i requires 0 <= i < |ts| => Weight(links, max, ts[i])))
  }

  /** Total number of rows of the closure, duplicates included (UNION ALL keeps them). */
  function ClosureSize(links: seq<Link>, max: int): nat {
    Weights(links, max, BaseTrails(links))
  }

  lemma WeightsConcat(links: seq<Link>, max: int, a: seq<Trail>, b: seq<Trail>)
    ensures Weights(links, max, a + b) == Weights(links, max, a) + Weights(links, max, b)
  {
    var wa := seq(|a|, i requires 0 <= i < |a| => Weight(links, max, a[i]));
    var wb := seq(|b|, i requires 0 <= i < |b| => Weight(links, max, b[i]));
    assert seq(|a + b|, i requires 0 <= i < |a + b| => Weight(links, max, (a + b)[i])) == wa + wb;
    SumConcat(wa, wb);
  }

  lemma WeightUnfold(links: seq<Link>, max: int, t: Trail)
    ensures Weight(links, max, t) == 1 + Weights(links, max, ExtendTrail(links, max, t))
  {
  }

  lemma WeightsSwap(links: seq<Link>, max: int, queue: seq<Trail>, k: nat)
    requires k < |queue|
    ensures Weights(links, max, queue)
         == 1 + Weights(links, max, queue[..k] + queue[k + 1..] + ExtendTrail(links, max, queue[k]))
  {
    var next := ExtendTrail(links, max, queue[k]);
    assert queue == queue[..k] + [queue[k]] + queue[k + 1..];
    WeightsConcat(links, max, queue[..k] + [queue[k]], queue[k + 1..]);
    WeightsConcat(links, max, queue[..k], [queue[k]]);
    WeightsConcat(links, max, queue[..k] + queue[k + 1..], next);
    WeightsConcat(links, max, queue[..k], queue[k + 1..]);
    WeightUnfold(links, max, queue[k]);
    assert seq(1, i requires 0 <= i < 1 => Weight(links, max, [queue[k]][i])) == [Weight(links, max, queue[k])];
    assert Sum([Weight(links, max, queue[k])]) == Weight(links, max, queue[k]);
  }

  // --- The trails of the closure, without reference to the evaluation ---

  /** Distances kept by the query for a maximum distance `max`. */
  predicate WithinMax(max: int, d: nat) {
    d == 1 || max == 0 || d <= max
  }

  /** `t` follows existing links and, past its second note, never meets a note again. */
  ghost predicate ClosureTrail(links: seq<Link>, max: int, t: Trail) {
    if |t| == 1 then Link(t[0], None) in links
    else Walk(links, t) && NoRepeat(t) && WithinMax(max, |t| - 1)
  }

  ghost predicate ClosureRow(links: seq<Link>, max: int, row: Row) {
    exists t: Trail :: ClosureTrail(links, max, t) && RowOf(t) == row
  }

  lemma BaseTrailIs(links: seq<Link>, max: int, l: Link)
    requires l in links
    ensures ClosureTrail(links, max, BaseTrail(l))
  {
  }

  lemma ShortTrailIsBase(links: seq<Link>, max: int, t: Trail)
    requires ClosureTrail(links, max, t) && |t| <= 2
    ensures t in BaseTrails(links)
  {
    var l := if |t| == 1 then Link(t[0], None) else Link(t[0], Some(t[1]));
    if |t| == 2 {
      assert Edge(links, t[0], t[1]);
    }
    var i :| 0 <= i < |links| && links[i] == l;
    assert BaseTrails(links)[i] == BaseTrail(l) == t;
  }

  lemma BaseTrailsAre(links: seq<Link>, max: int)
    ensures forall t | t in BaseTrails(links) :: ClosureTrail(links, max, t)
    ensures forall t: Trail | ClosureTrail(links, max, t) && |t| <= 2 :: t in BaseTrails(links)
  {
    forall t: Trail | ClosureTrail(links, max, t) && |t| <= 2 ensures t in BaseTrails(links) {
      ShortTrailIsBase(links, max, t);
    }
    forall t | t in BaseTrails(links) ensures ClosureTrail(links, max, t) {
      var i :| 0 <= i < |links| && BaseTrails(links)[i] == t;
      BaseTrailIs(links, max, links[i]);
    }
  }

  lemma WalkExtends(links: seq<Link>, t: seq<Id>, x: Id)
    requires Walk(links, t) && Edge(links, t[|t| - 1], x)
    ensures Walk(links, t + [x])
  {
  }

  /** Past its second id the trail never meets an id again. */
  predicate NoRepeat(t: seq<Id>) {
    forall j | 2 <= j < |t| :: t[j] !in t[..j]
  }

  lemma NoRepeatExtends(t: seq<Id>, x: Id)
    requires NoRepeat(t) && x !in t
    ensures NoRepeat(t + [x])
  {
  }

  lemma ExtensionIsClosureTrail(links: seq<Link>, max: int, t: Trail, e: Trail)
    requires ClosureTrail(links, max, t) && e in ExtendTrail(links, max, t)
    ensures ClosureTrail(links, max, e)
  {
    ExtensionsOf(links, max, t);
    var x := e[|t|];
    assert e == t + [x];
    WalkExtends(links, t, x);
    NoRepeatExtends(t, x);
  }

  lemma ClosureTrailShrinks(links: seq<Link>, max: int, t: Trail)
    requires ClosureTrail(links, max, t) && |t| > 2
    ensures ClosureTrail(links, max, t[..|t| - 1]) && t in ExtendTrail(links, max, t[..|t| - 1])
  {
    var p: Trail := t[..|t| - 1];
    forall i | 0 < i < |p| ensures Edge(links, p[i - 1], p[i]) {
      assert Edge(links, t[i - 1], t[i]);
    }
    forall j | 2 <= j < |p| ensures p[j] !in p[..j] {
      assert p[..j] == t[..j];
    }
    var l := Link(p[|p| - 1], Some(t[|t| - 1]));
    assert Edge(links, t[|t| - 2], t[|t| - 1]);
    assert l in links && Continues(max, p, l);
    ExtensionsOf(links, max, p);
    assert p + [t[|t| - 1]] == t;
  }

  // --- Evaluation ---

  /** Every trail in `done` has its extensions in `done` or `queue`, and every base trail is there. */
  ghost predicate Saturating(links: seq<Link>, max: int, done: seq<Trail>, queue: seq<Trail>) {
    && (forall t | t in BaseTrails(links) :: t in done + queue)
    && (forall t, e | t in done && e in ExtendTrail(links, max, t) :: e in done + queue)
  }

  lemma {:induction false} SaturatedIsComplete(links: seq<Link>, max: int, done: seq<Trail>, t: Trail)
    requires Saturating(links, max, done, []) && ClosureTrail(links, max, t)
    ensures t in done
    decreases |t|
  {
    assert done + [] == done;
    if |t| <= 2 {
      BaseTrailsAre(links, max);
    } else {
      ClosureTrailShrinks(links, max, t);
      SaturatedIsComplete(links, max, done, t[..|t| - 1]);
    }
  }

  /** What evaluation keeps: no trail is lost, all trails belong to the closure, and the rows
      written plus the rows still to come add up to the size of the closure. */
  ghost predicate Evaluating(links: seq<Link>, max: int, done: seq<Trail>, pending: seq<Trail>) {
    && |done| + Weights(links, max, pending) == ClosureSize(links, max)
    && (forall t | t in done + pending :: ClosureTrail(links, max, t))
    && Saturating(links, max, done, pending)
  }

  lemma EvaluationStep(links: seq<Link>, max: int, done: seq<Trail>, pending: seq<Trail>, k: nat)
    requires Evaluating(links, max, done, pending) && k < |pending|
    ensures Evaluating(links, max, done + [pending[k]],
                       pending[..k] + pending[k + 1..] + ExtendTrail(links, max, pending[k]))
  {
    var t, next := pending[k], ExtendTrail(links, max, pending[k]);
    WeightsSwap(links, max, pending, k);
    StepSaturates(links, max, done, pending, k);
    assert t in done + pending;
    forall x | x in (done + [t]) + (pending[..k] + pending[k + 1..] + next) ensures ClosureTrail(links, max, x) {
      if x in next {
        ExtensionIsClosureTrail(links, max, t, x);
      } else {
        assert x in done + pending;
      }
    }
  }

  lemma RowsStep(links: seq<Link>, max: int, pending: seq<Trail>, queue: seq<Row>, k: nat)
    requires queue == RowsOf(pending) && k < |queue|
    ensures queue[..k] + queue[k + 1..] + Extend(links, max, queue[k])
         == RowsOf(pending[..k] + pending[k + 1..] + ExtendTrail(links, max, pending[k]))
  {
    ExtendRows(links, max, pending[k]);
  }

  lemma EvaluationBegin(links: seq<Link>, max: int)
    ensures Base(links) == RowsOf(BaseTrails(links))
    ensures Evaluating(links, max, [], BaseTrails(links))
  {
    BaseRows(links);
    BaseTrailsAre(links, max);
    assert [] + BaseTrails(links) == BaseTrails(links);
  }

  /** Once the queue is empty the table holds the whole closure; before that, only a part of it. */
  lemma EvaluationEnd(links: seq<Link>, max: int, done: seq<Trail>, pending: seq<Trail>)
    requires Evaluating(links, max, done, pending)
    ensures |done| <= ClosureSize(links, max)
    ensures |done| == ClosureSize(links, max) <==> pending == []
    ensures forall row | row in RowsOf(done) :: ClosureRow(links, max, row)
    ensures pending == [] ==> forall row :: ClosureRow(links, max, row) <==> row in RowsOf(done)
  {
    var table := RowsOf(done);
    WeightsPositive(links, max, pending);
    forall row | row in table ensures ClosureRow(links, max, row) {
      var i :| 0 <= i < |table| && table[i] == row;
      assert done[i] in done + pending;
    }
    if pending == [] {
      forall row | ClosureRow(links, max, row) ensures row in table {
        var t: Trail :| ClosureTrail(links, max, t) && RowOf(t) == row;
        SaturatedIsComplete(links, max, done, t);
        var i :| 0 <= i < |done| && done[i] == t;
        assert table[i] == row;
      }
    }
  }

  /** One row, any of the queue, goes to the table and the rows that extend it to the queue. */
  method EvaluateRow(links: seq<Link>, max: int, table: seq<Row>, queue: seq<Row>, ghost done: seq<Trail>,
                     ghost pending: seq<Trail>)
    returns (table': seq<Row>, queue': seq<Row>, ghost done': seq<Trail>, ghost pending': seq<Trail>)
    requires queue != [] && table == RowsOf(done) && queue == RowsOf(pending) && Evaluating(links, max, done, pending)
    ensures |table'| == |table| + 1 && table' == RowsOf(done') && queue' == RowsOf(pending')
      && Evaluating(links, max, done', pending')
  {
    var k :| 0 <= k < |queue|;
    EvaluationStep(links, max, done, pending, k);
    RowsStep(links, max, pending, queue, k);
    table', done' := table + [queue[k]], done + [pending[k]];
    queue' := queue[..k] + queue[k + 1..] + Extend(links, max, queue[k]);
    pending' := pending[..k] + pending[k + 1..] + ExtendTrail(links, max, pending[k]);
  }

  /** SQLite's evaluation of the recursive query: rows leave the queue one at a time, in an order
      its documentation leaves open, and evaluation stops once the table holds `limit` rows.
      Whatever the order, the table has min(limit, ClosureSize) rows, all of them rows of the
      closure, and all the rows of the closure when that size is within the limit. */
  method Evaluate(links: seq<Link>, max: int, limit: nat) returns (table: seq<Row>)
    ensures |table| == if ClosureSize(links, max) <= limit then ClosureSize(links, max) else limit
    ensures forall row | row in table :: ClosureRow(links, max, row)
    ensures ClosureSize(links, max) <= limit ==> forall row :: ClosureRow(links, max, row) <==> row in table
  {
    table := [];
    var queue := Base(links);
    ghost var done, pending: seq<Trail> := [], BaseTrails(links);
    EvaluationBegin(links, max);
    while queue != [] && |table| < limit
      invariant table == RowsOf(done) && queue == RowsOf(pending)
      invariant |table| <= limit
      invariant Evaluating(links, max, done, pending)
      decreases limit - |table|
    {
      table, queue, done, pending := EvaluateRow(links, max, table, queue, done, pending);
    }
    EvaluationEnd(links, max, done, pending);
  }

  lemma WeightsPositive(links: seq<Link>, max: int, ts: seq<Trail>)
    ensures Weights(links, max, ts) >= 1 <==> ts != []
  {
  }

  lemma StepSaturates(links: seq<Link>, max: int, done: seq<Trail>, pending: seq<Trail>, k: nat)
    requires Saturating(links, max, done, pending) && k < |pending|
    ensures Saturating(links, max, done + [pending[k]],
                       pending[..k] + pending[k + 1..] + ExtendTrail(links, max, pending[k]))
  {
    var t, next := pending[k], ExtendTrail(links, max, pending[k]);
    var all := (done + [t]) + (pending[..k] + pending[k + 1..] + next);
    forall x | x in done + pending ensures x in all {
      if x in pending {
        var i :| 0 <= i < |pending| && pending[i] == x;
        assert i < k ==> pending[..k][i] == x;
        assert i > k ==> pending[k + 1..][i - k - 1] == x;
      }
    }
  }
}
