/** What the link filters select: the rows of the closure read as reachability and link distance. */
module LinkQueries {
  import opened Strings
  import opened LinkGraph
  import opened LinkClosure

  /** `table` holds the whole closure, as it does when the row cap is not met. */
  ghost predicate Complete(links: seq<Link>, max: int, table: seq<Row>) {
    forall row :: ClosureRow(links, max, row) <==> row in table
  }

  /** The table the query works on: the whole closure when that has no more rows than the cap. */
  method TransitiveClosure(links: seq<Link>, max: int) returns (table: seq<Row>)
    ensures ClosureSize(links, max) <= 100000 ==> Complete(links, max, table)
    ensures |table| <= 100000
    ensures forall row | row in table :: ClosureRow(links, max, row)
  {
    table := Evaluate(links, max, ROW_LIMIT);
  }

  /** Some row goes from `s` to `t` with the given distance. */
  predicate RowAt(table: seq<Row>, s: Id, t: Id, d: nat) {
    exists row | row in table :: row.source == s && row.target == Some(t) && row.distance == d
  }

  lemma RowIsWalk(links: seq<Link>, max: int, table: seq<Row>, s: Id, t: Id, d: nat)
    requires Complete(links, max, table) && RowAt(table, s, t, d)
    ensures ReachIn(links, s, t, d) && WithinMax(max, d) && d >= 1
  {
  }

  lemma ShortestIsRow(links: seq<Link>, max: int, table: seq<Row>, s: Id, t: Id, d: nat)
    requires Complete(links, max, table) && s != t
    requires Distance(links, s, t, d) && WithinMax(max, d)
    ensures RowAt(table, s, t, d)
  {
    var ids: seq<Id> :| WalkBetween(links, s, t, ids) && |ids| == d + 1;
    ShortestIsSimple(links, s, t, ids);
    var trail: Trail := ids;
    assert ClosureTrail(links, max, trail);
    assert ClosureRow(links, max, RowOf(trail));
  }

  /** A note other than the source is in the closure exactly when it is reachable within the maximum
      distance, and its least distance there is its shortest link distance. */
  lemma ClosureDistance(links: seq<Link>, max: int, table: seq<Row>, s: Id, t: Id)
    requires Complete(links, max, table) && s != t
    ensures (exists d :: RowAt(table, s, t, d)) <==> exists d: nat :: Distance(links, s, t, d) && WithinMax(max, d)
    ensures max == 0 ==> ((exists d :: RowAt(table, s, t, d)) <==> Reachable(links, s, t))
    ensures forall d: nat | Distance(links, s, t, d) && WithinMax(max, d) ::
      RowAt(table, s, t, d) && forall e | RowAt(table, s, t, e) :: d <= e
  {
    if d :| RowAt(table, s, t, d) {
      RowIsWalk(links, max, table, s, t, d);
      var least := LeastReach(links, s, t, d);
      assert least != 0;
      assert Distance(links, s, t, least) && WithinMax(max, least);
    }
    if max == 0 && Reachable(links, s, t) {
      var d: nat :| ReachIn(links, s, t, d);
      var least := LeastReach(links, s, t, d);
      assert Distance(links, s, t, least) && WithinMax(max, least);
    }
    forall d: nat | Distance(links, s, t, d) && WithinMax(max, d)
      ensures RowAt(table, s, t, d) && forall e | RowAt(table, s, t, e) :: d <= e
    {
      ShortestIsRow(links, max, table, s, t, d);
      forall e | RowAt(table, s, t, e) ensures d <= e {
        RowIsWalk(links, max, table, s, t, e);
      }
    }
  }

  /** The source itself is only found through a link to itself, at distance 1: longer cycles never close. */
  lemma ClosureSelf(links: seq<Link>, max: int, table: seq<Row>, s: Id, d: nat)
    requires Complete(links, max, table)
    ensures RowAt(table, s, s, d) <==> d == 1 && Edge(links, s, s)
  {
    if RowAt(table, s, s, d) {
      var row :| row in table && row.source == s && row.target == Some(s) && row.distance == d;
      assert ClosureRow(links, max, row);
      var trail: Trail :| ClosureTrail(links, max, trail) && RowOf(trail) == row;
      var last := |trail| - 1;
      if last >= 2 {
        assert false;
      }
      assert Edge(links, trail[0], trail[1]);
    }
    if d == 1 && Edge(links, s, s) {
      var trail: Trail := [s, s];
      assert ClosureTrail(links, max, trail);
      assert ClosureRow(links, max, RowOf(trail));
    }
  }

  // --- --related ---

  /** The rows joined to note `n` as l_rel. */
  predicate RelatedRow(row: Row, xs: set<Id>, n: Id) {
    row.target.Some? && ((row.target.value == n && row.source in xs) || (row.source == n && row.target.value in xs))
  }

  /** `n.id IN (...)` and `HAVING MIN(l_rel.distance) = 2`. */
  predicate RelatedSelects(table: seq<Row>, xs: set<Id>, n: Id) {
    (exists row | row in table :: RelatedRow(row, xs, n) && row.distance == 2)
    && forall row | row in table && RelatedRow(row, xs, n) :: row.distance >= 2
  }

  /** `d` is the shortest link distance, in either direction, between `n` and another note of `xs`. */
  ghost predicate LinkDistanceTo(links: seq<Link>, xs: set<Id>, n: Id, d: nat) {
    exists x | x in xs && x != n :: Distance(links, x, n, d) || Distance(links, n, x, d)
  }

  ghost predicate Nearest(links: seq<Link>, xs: set<Id>, n: Id, d: nat) {
    LinkDistanceTo(links, xs, n, d) && forall e: nat | LinkDistanceTo(links, xs, n, e) :: d <= e
  }

  lemma RelatedRowAt(table: seq<Row>, xs: set<Id>, n: Id, d: nat)
    ensures (exists row | row in table :: RelatedRow(row, xs, n) && row.distance == d)
       <==> exists x | x in xs :: RowAt(table, x, n, d) || RowAt(table, n, x, d)
  {
  }

  /** --related selects exactly the notes at link distance 2 of the given ones, over both
      directions, except a given note that links to itself. */
  lemma RelatedIsDistanceTwo(links: seq<Link>, table: seq<Row>, xs: set<Id>, n: Id)
    requires Complete(links, 2, table)
    ensures RelatedSelects(table, xs, n) <==> Nearest(links, xs, n, 2) && !(n in xs && Edge(links, n, n))
  {
    RelatedRowAt(table, xs, n, 2);
    forall x | x in xs && x != n
      ensures forall d: nat | d <= 2 && (Distance(links, x, n, d) || Distance(links, n, x, d)) ::
        RowAt(table, x, n, d) || RowAt(table, n, x, d)
    {
      ClosureDistance(links, 2, table, x, n);
      ClosureDistance(links, 2, table, n, x);
    }
    if RelatedSelects(table, xs, n) {
      RelatedImpliesNearest(links, table, xs, n);
    } else if Nearest(links, xs, n, 2) {
      assert exists x | x in xs :: RowAt(table, x, n, 2) || RowAt(table, n, x, 2);
      var row :| row in table && RelatedRow(row, xs, n) && row.distance < 2;
      CloserRow(links, table, xs, n, row);
    }
    if n in xs && Edge(links, n, n) {
      ClosureSelf(links, 2, table, n, 1);
      assert RowAt(table, n, n, 1);
    }
  }

  /** A row at distance less than 2 is a link of `n` to itself or a note at distance 1. */
  lemma CloserRow(links: seq<Link>, table: seq<Row>, xs: set<Id>, n: Id, row: Row)
    requires Complete(links, 2, table) && row in table && RelatedRow(row, xs, n) && row.distance < 2
    ensures (n in xs && Edge(links, n, n)) || LinkDistanceTo(links, xs, n, 1)
  {
  }

  lemma RelatedImpliesNearest(links: seq<Link>, table: seq<Row>, xs: set<Id>, n: Id)
    requires Complete(links, 2, table) && RelatedSelects(table, xs, n)
    ensures Nearest(links, xs, n, 2)
  {
    RelatedRowAt(table, xs, n, 2);
    var x :| x in xs && (RowAt(table, x, n, 2) || RowAt(table, n, x, 2));
    ClosureSelf(links, 2, table, n, 2);
    assert x != n;
    assert forall d: nat | LinkDistanceTo(links, xs, n, d) :: d >= 2 by {
      forall d: nat | LinkDistanceTo(links, xs, n, d) ensures d >= 2 {
        if d < 2 {
          RelatedRowAt(table, xs, n, d);
          var y :| y in xs && y != n && (Distance(links, y, n, d) || Distance(links, n, y, d));
          assert d != 0;
          ClosureDistance(links, 2, table, y, n);
          ClosureDistance(links, 2, table, n, y);
        }
      }
    }
    var s, t := if RowAt(table, x, n, 2) then x else n, if RowAt(table, x, n, 2) then n else x;
    RowIsWalk(links, 2, table, s, t, 2);
    var least := LeastReach(links, s, t, 2);
    assert LinkDistanceTo(links, xs, n, least);
  }
}
