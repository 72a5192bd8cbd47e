/** Walks and link distances in the graph of notes: the reference the recursive query is compared with. */
module LinkGraph {
  import opened Strings

  type Id = nat

  /** A row of the links table; the target is None when it is NULL. */
  datatype Link = Link(source: Id, target: Option<Id>)

  /** A link from `a` to `b` exists. */
  predicate Edge(links: seq<Link>, a: Id, b: Id) {
    Link(a, Some(b)) in links
  }

  ghost predicate Walk(links: seq<Link>, ids: seq<Id>) {
    |ids| >= 2 && forall i | 0 < i < |ids| :: Edge(links, ids[i - 1], ids[i])
  }

  ghost predicate WalkBetween(links: seq<Link>, s: Id, t: Id, ids: seq<Id>) {
    Walk(links, ids) && ids[0] == s && ids[|ids| - 1] == t
  }

  /** `t` can be reached from `s` by following exactly `d` links, d > 0. */
  ghost predicate ReachIn(links: seq<Link>, s: Id, t: Id, d: nat) {
    exists ids: seq<Id> :: WalkBetween(links, s, t, ids) && |ids| == d + 1
  }

  ghost predicate Reachable(links: seq<Link>, s: Id, t: Id) {
    exists d: nat :: ReachIn(links, s, t, d)
  }

  /** The shortest link distance from `s` to `t` is `d`. */
  ghost predicate Distance(links: seq<Link>, s: Id, t: Id, d: nat) {
    ReachIn(links, s, t, d) && forall k: nat | k < d :: !ReachIn(links, s, t, k)
  }

  lemma {:induction false} LeastReach(links: seq<Link>, s: Id, t: Id, d: nat) returns (least: nat)
    requires ReachIn(links, s, t, d)
    ensures least <= d && Distance(links, s, t, least)
    decreases d
  {
    if k: nat :| k < d && ReachIn(links, s, t, k) {
      least := LeastReach(links, s, t, k);
    } else {
      least := d;
    }
  }

  /** Cutting the loop between two visits of the same note leaves a walk. */
  lemma CutLoop(links: seq<Link>, s: Id, t: Id, ids: seq<Id>, i: nat, j: nat)
    requires WalkBetween(links, s, t, ids) && s != t
    requires i < j < |ids| && ids[i] == ids[j]
    ensures WalkBetween(links, s, t, ids[..i] + ids[j..])
  {
  }

  /** A shortest walk between two different notes visits no note twice. */
  lemma ShortestIsSimple(links: seq<Link>, s: Id, t: Id, ids: seq<Id>)
    requires WalkBetween(links, s, t, ids) && s != t
    requires Distance(links, s, t, |ids| - 1)
    ensures forall j | 0 < j < |ids| :: ids[j] !in ids[..j]
  {
    forall j | 0 < j < |ids| ensures ids[j] !in ids[..j] {
      if ids[j] in ids[..j] {
        var i: nat :| i < j && ids[..j][i] == ids[j];
        CutLoop(links, s, t, ids, i, j);
        var cut := ids[..i] + ids[j..];
        assert ReachIn(links, s, t, |cut| - 1);
        assert false;
      }
    }
  }
}
