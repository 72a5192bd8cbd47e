/** The order of the two streams of a run against the raw order the merge compares paths with: which
    streams make the merge add a path it has not yet removed. */
module StreamOrder {
  import opened Strings
  import opened IndexSpec
  import opened PathOrder
  import opened PathDiff

  ghost predicate SortedBy(files: seq<Metadata>) {
    forall i, j | 0 <= i < j < |files| :: SortableLess(files[i].path, files[j].path)
  }

  lemma SortableAsymmetric(a: string, b: string)
    requires SortableLess(a, b)
    ensures !SortableLess(b, a) && a != b
  {
    LessAsymmetric(SortablePath(a), SortablePath(b));
    LessIrreflexive(SortablePath(a));
  }

  ghost predicate DistinctPaths(files: seq<Metadata>) {
    forall i, j | 0 <= i < |files| && 0 <= j < |files| && files[i].path == files[j].path :: i == j
  }

  lemma SortedDistinct(files: seq<Metadata>)
    requires SortedBy(files)
    ensures DistinctPaths(files)
  {
    forall i, j | 0 <= i < j < |files| ensures files[i].path != files[j].path {
      SortableAsymmetric(files[i].path, files[j].path);
    }
  }

  /** At some point the merge reports a source file as added while the target still holds its path. */
  ghost predicate AddsIndexed(source: seq<Metadata>, target: seq<Metadata>, force: bool)
    decreases |source| + |target|
  {
    var c := HeadChange(First(source), First(target), force);
    c.Some?
    && ((c.value.kind == Added && Has(target, c.value.path))
        || AddsIndexed(SourceAfter(source, c.value.kind), TargetAfter(target, c.value.kind), force))
  }

  // --- Streams in any order ---

  /** The target file reached once source file `i` is taken at target file `k`. */
  function AfterStep(source: seq<Metadata>, target: seq<Metadata>, i: nat, k: nat): nat
    requires i < |source| && k < |target|
  {
    if source[i].path == target[k].path then k + 1 else k
  }

  /** From file `i` of the source and `j` of the target on, each source file before `a` equals or precedes
      in raw order the target file `at` gives it; those come in order, up to `b`, and the next files do
      not take again one that was equal. */
  ghost predicate Staircase(source: seq<Metadata>, target: seq<Metadata>, i: nat, j: nat, a: nat, b: nat,
                            at: seq<nat>) {
    && i <= a == |at| < |source| && j <= b < |target|
    && (forall k | i <= k < a :: j <= at[k] <= b && !Less(target[at[k]].path, source[k].path))
    && (forall k | i <= k < a :: AfterStep(source, target, k, at[k]) <= b)
    && (forall k, l | i <= k < l < a :: AfterStep(source, target, k, at[k]) <= at[l])
  }

  /** Source file `a` precedes target file `b` in raw order although the target holds it further on, and
      the files before it do not keep the merge from coming to `a` before it is past `b`. */
  ghost predicate Overtakes(source: seq<Metadata>, target: seq<Metadata>, i: nat, j: nat, a: nat, b: nat) {
    && i <= a < |source| && j <= b < |target|
    && Less(source[a].path, target[b].path) && Has(target[b..], source[a].path)
    && exists at :: Staircase(source, target, i, j, a, b, at)
  }

  ghost predicate Overtaken(source: seq<Metadata>, target: seq<Metadata>) {
    exists a: nat, b: nat :: Overtakes(source, target, 0, 0, a, b)
  }

  /** The merge stands at the files `i` and `j` and reports `c`. */
  ghost predicate Reporting(source: seq<Metadata>, target: seq<Metadata>, force: bool, i: nat, j: nat, c: Change) {
    i <= |source| && j <= |target| && HeadChange(First(source[i..]), First(target[j..]), force) == Some(c)
  }

  /** The file a change was reported for, seen from the whole lists. */
  lemma HeadOfRest(source: seq<Metadata>, target: seq<Metadata>, force: bool, i: nat, j: nat, c: Change)
    requires Reporting(source, target, force, i, j, c)
    ensures c.kind != Removed ==>
      i < |source| && source[i].path == c.path && SourceAfter(source[i..], c.kind) == source[i + 1..]
    ensures c.kind != Added ==>
      j < |target| && target[j].path == c.path && TargetAfter(target[j..], c.kind) == target[j + 1..]
    ensures c.kind == Unchanged ==> source[i].modified == target[j].modified
  {
  }

  /** Where the merge stands after a change. */
  function SourceNext(i: nat, kind: Kind): nat { if kind == Removed then i else i + 1 }

  function TargetNext(j: nat, kind: Kind): nat { if kind == Added then j else j + 1 }

  // Moving the foot of a staircase.

  lemma StairsFromEarlier(source: seq<Metadata>, target: seq<Metadata>, i: nat, j: nat, a: nat, b: nat, at: seq<nat>)
    requires Staircase(source, target, i, j + 1, a, b, at)
    ensures Staircase(source, target, i, j, a, b, at)
  {
  }

  lemma StairsTake(source: seq<Metadata>, target: seq<Metadata>, i: nat, j: nat, a: nat, b: nat, at: seq<nat>)
    requires i < |source| && j < |target| && !Less(target[j].path, source[i].path)
    requires Staircase(source, target, i + 1, AfterStep(source, target, i, j), a, b, at)
    ensures Staircase(source, target, i, j, a, b, at[i := j])
  {
  }

  lemma StairsNextSource(source: seq<Metadata>, target: seq<Metadata>, i: nat, j: nat, a: nat, b: nat, at: seq<nat>)
    requires Staircase(source, target, i, j, a, b, at) && i < a
    ensures Staircase(source, target, i + 1, j, a, b, at)
  {
  }

  lemma StairsNextTarget(source: seq<Metadata>, target: seq<Metadata>, i: nat, j: nat, a: nat, b: nat, at: seq<nat>)
    requires Staircase(source, target, i, j, a, b, at) && j < b && forall k | i <= k < a :: j < at[k]
    ensures Staircase(source, target, i, j + 1, a, b, at)
  {
  }

  /** What overtakes further on overtakes from where the merge stands. */
  lemma OvertakesBefore(source: seq<Metadata>, target: seq<Metadata>, force: bool, i: nat, j: nat, c: Change,
                        a: nat, b: nat)
    requires Reporting(source, target, force, i, j, c)
    requires Overtakes(source, target, SourceNext(i, c.kind), TargetNext(j, c.kind), a, b)
    ensures Overtakes(source, target, i, j, a, b)
  {
    HeadOfRest(source, target, force, i, j, c);
    var at :| Staircase(source, target, SourceNext(i, c.kind), TargetNext(j, c.kind), a, b, at);
    if c.kind == Removed {
      StairsFromEarlier(source, target, i, j, a, b, at);
    } else {
      NotPast(source, target, force, i, j, c);
      StairsTake(source, target, i, j, a, b, at);
    }
  }

  /** A source file is reported at a target file it equals or precedes. */
  lemma NotPast(source: seq<Metadata>, target: seq<Metadata>, force: bool, i: nat, j: nat, c: Change)
    requires Reporting(source, target, force, i, j, c) && c.kind != Removed && j < |target|
    ensures i < |source| && !Less(target[j].path, source[i].path)
    ensures AfterStep(source, target, i, j) == TargetNext(j, c.kind)
  {
    LessIrreflexive(source[i].path);
    if c.kind == Added {
      LessAsymmetric(source[i].path, target[j].path);
    }
  }

  /** What overtakes still does after a change, unless the change is the one that adds it. */
  lemma OvertakesAfter(source: seq<Metadata>, target: seq<Metadata>, force: bool, i: nat, j: nat, c: Change,
                       a: nat, b: nat)
    requires Reporting(source, target, force, i, j, c) && DistinctPaths(target) && Overtakes(source, target, i, j, a, b)
    requires !(c.kind == Added && a == i)
    ensures Overtakes(source, target, SourceNext(i, c.kind), TargetNext(j, c.kind), a, b)
  {
    HeadOfRest(source, target, force, i, j, c);
    var at :| Staircase(source, target, i, j, a, b, at);
    match c.kind
    case Removed =>
      LessTotal(source[i].path, target[j].path);
      RemovedBelow(source, target, i, j, a, b, at);
    case Added => StairsNextSource(source, target, i, j, a, b, at);
    case _ => MatchedBelow(source, target, i, j, a, b, at);
  }

  lemma RemovedBelow(source: seq<Metadata>, target: seq<Metadata>, i: nat, j: nat, a: nat, b: nat, at: seq<nat>)
    requires Staircase(source, target, i, j, a, b, at) && Less(target[j].path, source[i].path)
    requires Less(source[a].path, target[b].path)
    ensures Staircase(source, target, i, j + 1, a, b, at)
  {
    LessAsymmetric(source[a].path, target[b].path);
    if i < a {
      assert at[i] != j;
    }
    StairsNextTarget(source, target, i, j, a, b, at);
  }

  lemma MatchedBelow(source: seq<Metadata>, target: seq<Metadata>, i: nat, j: nat, a: nat, b: nat, at: seq<nat>)
    requires DistinctPaths(target) && Staircase(source, target, i, j, a, b, at) && source[i].path == target[j].path
    requires Less(source[a].path, target[b].path) && Has(target[b..], source[a].path)
    ensures Staircase(source, target, i + 1, j + 1, a, b, at)
  {
    if a == i {
      LessIrreflexive(source[a].path);
      OnlyOnce(target, j, b);
    }
    StairsNextSource(source, target, i, j, a, b, at);
    StairsNextTarget(source, target, i + 1, j, a, b, at);
  }

  /** A path that stands at `j` is not found from a later file on. */
  lemma OnlyOnce(target: seq<Metadata>, j: nat, b: nat)
    requires DistinctPaths(target) && j < b < |target|
    ensures !Has(target[b..], target[j].path)
  {
  }

  lemma HasEarlier(target: seq<Metadata>, j: nat, b: nat, path: string)
    requires j <= b <= |target| && Has(target[b..], path)
    ensures Has(target[j..], path)
  {
    var m :| m in target[b..] && m.path == path;
    assert m in target[j..];
  }

  lemma {:induction false} AddsIndexedFromIff(source: seq<Metadata>, target: seq<Metadata>, force: bool, i: nat, j: nat)
    requires DistinctPaths(target) && i <= |source| && j <= |target|
    ensures AddsIndexed(source[i..], target[j..], force)
      <==> exists a: nat, b: nat :: Overtakes(source, target, i, j, a, b)
    decreases |source| + |target| - i - j
  {
    var head := HeadChange(First(source[i..]), First(target[j..]), force);
    if head.Some? {
      var c := head.value;
      HeadOfRest(source, target, force, i, j, c);
      AddsIndexedFromIff(source, target, force, SourceNext(i, c.kind), TargetNext(j, c.kind));
      if c.kind == Added && Has(target[j..], c.path) {
        HeadOvertakes(source, target, i, j);
      } else {
        NextOvertakesIff(source, target, force, i, j, c);
      }
    }
  }

  lemma HeadOvertakes(source: seq<Metadata>, target: seq<Metadata>, i: nat, j: nat)
    requires i < |source| && j < |target| && Less(source[i].path, target[j].path) && Has(target[j..], source[i].path)
    ensures Overtakes(source, target, i, j, i, j)
  {
    var at := seq(i, k requires 0 <= k < i => 0);
    assert Staircase(source, target, i, j, i, j, at);
  }

  lemma NextOvertakesIff(source: seq<Metadata>, target: seq<Metadata>, force: bool, i: nat, j: nat, c: Change)
    requires Reporting(source, target, force, i, j, c) && DistinctPaths(target)
    requires !(c.kind == Added && Has(target[j..], c.path))
    ensures (exists a: nat, b: nat :: Overtakes(source, target, i, j, a, b))
       <==> exists a: nat, b: nat :: Overtakes(source, target, SourceNext(i, c.kind), TargetNext(j, c.kind), a, b)
  {
    HeadOfRest(source, target, force, i, j, c);
    if a: nat, b: nat :| Overtakes(source, target, i, j, a, b) {
      HasEarlier(target, j, b, source[a].path);
      OvertakesAfter(source, target, force, i, j, c, a, b);
    }
    if a: nat, b: nat :| Overtakes(source, target, SourceNext(i, c.kind), TargetNext(j, c.kind), a, b) {
      OvertakesBefore(source, target, force, i, j, c, a, b);
    }
  }

  /** The merge adds a path the target still holds exactly when some file is overtaken, whatever the
      order of the streams. */
  lemma AddsIndexedIff(source: seq<Metadata>, target: seq<Metadata>, force: bool)
    requires DistinctPaths(target)
    ensures AddsIndexed(source, target, force) <==> Overtaken(source, target)
  {
    assert source[0..] == source && target[0..] == target;
    AddsIndexedFromIff(source, target, force, 0, 0);
  }

  // --- Streams in walk order ---

  ghost predicate Shared(source: seq<Metadata>, target: seq<Metadata>, p: string) {
    Has(source, p) && Has(target, p)
  }

  /** `p` is the first path after `q`, in walk order, that both streams hold. */
  ghost predicate FirstShared(source: seq<Metadata>, target: seq<Metadata>, q: string, p: string) {
    Shared(source, target, p) && SortableLess(q, p)
    && forall x | Shared(source, target, x) && SortableLess(q, x) :: !SortableLess(x, p)
  }

  /** The first shared path after a file to remove does not precede it in raw order. */
  ghost predicate SharedInPlace(source: seq<Metadata>, target: seq<Metadata>) {
    forall p, q | Has(target, q) && !Has(source, q) && FirstShared(source, target, q, p) :: !Less(p, q)
  }

  lemma SortedRest(files: seq<Metadata>)
    requires SortedBy(files) && files != []
    ensures SortedBy(files[1..]) && forall m | m in files[1..] :: SortableLess(files[0].path, m.path)
  {
  }

  lemma SortedRests(source: seq<Metadata>, target: seq<Metadata>, force: bool, c: Change)
    requires SortedBy(source) && SortedBy(target) && HeadChange(First(source), First(target), force) == Some(c)
    ensures SortedBy(SourceAfter(source, c.kind)) && SortedBy(TargetAfter(target, c.kind))
  {
  }

  /** The head of the target comes before all the other paths of the target. */
  lemma HeadIsFirst(files: seq<Metadata>, p: string)
    requires SortedBy(files) && files != [] && Has(files, p)
    ensures p == files[0].path || (SortableLess(files[0].path, p) && !SortableLess(p, files[0].path))
  {
    if p != files[0].path {
      var m :| m in files && m.path == p;
      assert files == [files[0]] + files[1..];
      SortedRest(files);
      SortableAsymmetric(files[0].path, p);
    }
  }

  /** Taking a change that does not add an indexed path moves no first shared path of what is left. */
  lemma FirstSharedOfRest(source: seq<Metadata>, target: seq<Metadata>, force: bool, c: Change, q: string, p: string)
    requires SortedBy(source) && SortedBy(target) && HeadChange(First(source), First(target), force) == Some(c)
    requires !(c.kind == Added && Has(target, c.path)) && Has(TargetAfter(target, c.kind), q)
    ensures FirstShared(source, target, q, p)
      <==> FirstShared(SourceAfter(source, c.kind), TargetAfter(target, c.kind), q, p)
  {
    var s, t := SourceAfter(source, c.kind), TargetAfter(target, c.kind);
    forall x | SortableLess(q, x) ensures Shared(source, target, x) <==> Shared(s, t, x) {
      HeadAndRest(source, target, force, c, x);
      if c.kind != Added && x == c.path {
        SortedRest(target);
        var m :| m in t && m.path == q;
        SortableAsymmetric(x, q);
      }
    }
  }

  /** For streams sorted alike, what is added while indexed has overtaken the head of the target. */
  lemma {:induction false} AddsIndexedDisplaces(source: seq<Metadata>, target: seq<Metadata>, force: bool)
    requires SortedBy(source) && SortedBy(target) && AddsIndexed(source, target, force)
    ensures !SharedInPlace(source, target)
    decreases |source| + |target|
  {
    var c := HeadChange(First(source), First(target), force).value;
    var s, t := SourceAfter(source, c.kind), TargetAfter(target, c.kind);
    if c.kind == Added && Has(target, c.path) {
      HeadDisplaced(source, target);
    } else {
      SortedRests(source, target, force, c);
      AddsIndexedDisplaces(s, t, force);
      var p, q :| Has(t, q) && !Has(s, q) && FirstShared(s, t, q, p) && Less(p, q);
      FirstSharedOfRest(source, target, force, c, q, p);
      HeadAndRest(source, target, force, c, q);
      if c.kind != Removed && q == c.path {
        SortedDistinct(target);
      }
      assert Has(target, q) && !Has(source, q) && FirstShared(source, target, q, p);
    }
  }

  lemma HeadDisplaced(source: seq<Metadata>, target: seq<Metadata>)
    requires SortedBy(source) && SortedBy(target) && source != [] && target != []
    requires Has(target, source[0].path) && source[0].path != target[0].path && Less(source[0].path, target[0].path)
    ensures !SharedInPlace(source, target)
  {
    var p, q := source[0].path, target[0].path;
    assert source[0] in source && target[0] in target;
    HeadIsFirst(target, p);
    if Has(source, q) {
      HeadIsFirst(source, q);
    }
    forall x | Shared(source, target, x) ensures !SortableLess(x, p) {
      HeadIsFirst(source, x);
      LessIrreflexive(SortablePath(p));
    }
    assert FirstShared(source, target, q, p);
  }

  /** When all the files are indexed already, a shared path that overtakes is added while indexed. */
  lemma {:induction false} DisplacedAddsIndexed(source: seq<Metadata>, target: seq<Metadata>, force: bool)
    requires SortedBy(source) && SortedBy(target) && !SharedInPlace(source, target)
    requires forall p | Has(source, p) :: Has(target, p)
    ensures AddsIndexed(source, target, force)
    decreases |source| + |target|
  {
    var p, q :| Has(target, q) && !Has(source, q) && FirstShared(source, target, q, p) && Less(p, q);
    assert source != [] && target != [];
    var c := HeadChange(First(source), First(target), force).value;
    var s, t := SourceAfter(source, c.kind), TargetAfter(target, c.kind);
    assert source[0] in source && Has(source, source[0].path);
    if c.kind != Added {
      StillIndexed(source, target, force, c);
      HeadAndRest(source, target, force, c, q);
      if q == c.path {
        HeadIsFirst(target, source[0].path);
        HeadIsFirst(source, p);
        LessAsymmetric(p, q);
      } else {
        HeadAndRest(source, target, force, c, q);
        FirstSharedOfRest(source, target, force, c, q, p);
        assert Has(t, q) && !Has(s, q) && FirstShared(s, t, q, p);
        SortedRests(source, target, force, c);
        DisplacedAddsIndexed(s, t, force);
      }
    }
  }

  lemma StillIndexed(source: seq<Metadata>, target: seq<Metadata>, force: bool, c: Change)
    requires SortedBy(source) && SortedBy(target) && HeadChange(First(source), First(target), force) == Some(c)
      && c.kind != Added
    requires source != [] && forall p | Has(source, p) :: Has(target, p)
    ensures forall p | Has(SourceAfter(source, c.kind), p) :: Has(TargetAfter(target, c.kind), p)
  {
    var s, t := SourceAfter(source, c.kind), TargetAfter(target, c.kind);
    assert source[0] in source && target[0] in target;
    forall p | Has(s, p) ensures Has(t, p) {
      HeadAndRest(source, target, force, c, p);
      if p == c.path {
        HeadIsFirst(source, p);
        HeadIsFirst(target, source[0].path);
        SortedRest(source);
        LessIrreflexive(SortablePath(p));
      }
    }
  }

  /** The files of the notebook in the order of the directory walk. */
  ghost predicate WalkedStream(source: seq<Metadata>) {
    forall i, j | 0 <= i < j < |source| :: WalkLess(Components(source[i].path), Components(source[j].path))
  }

  ghost predicate CleanPaths(files: seq<Metadata>) {
    forall m | m in files :: Clean(m.path)
  }

  lemma SortableInjective(a: string, b: string)
    requires Clean(a) && Clean(b) && SortablePath(a) == SortablePath(b)
    ensures a == b
  {
  }

  lemma WalkedStreamIsSorted(source: seq<Metadata>)
    requires WalkedStream(source) && CleanPaths(source)
    ensures SortedBy(source)
  {
    forall i, j | 0 <= i < j < |source| ensures SortableLess(source[i].path, source[j].path) {
      assert source[i] in source && source[j] in source;
      SortableIsWalk(source[i].path, source[j].path);
    }
  }

  lemma {:induction false} SortedUnique(a: seq<Metadata>, b: seq<Metadata>)
    requires SortedBy(a) && SortedBy(b) && forall m :: m in a <==> m in b
    ensures a == b
  {
    assert First(b).Some? ==> First(b).value in b;
    if a != [] {
      assert a[0] in a && b != [];
      var i :| 0 <= i < |b| && b[i] == a[0];
      assert b[0] in b;
      var j :| 0 <= j < |a| && a[j] == b[0];
      assert i == 0 || j == 0 by {
        if i != 0 && j != 0 {
          SortableAsymmetric(a[0].path, b[0].path);
        }
      }
      SortedDistinct(a);
      SortedDistinct(b);
      assert a[0] == b[0];
      assert a == [a[0]] + a[1..] && b == [b[0]] + b[1..];
      forall m ensures m in a[1..] <==> m in b[1..] {
        assert m in a <==> m in b;
        assert m in a[1..] <==> m in a && m != a[0];
        assert m in b[1..] <==> m in b && m != b[0];
      }
      SortedUnique(a[1..], b[1..]);
    }
  }

  /** Nothing can be overtaken when no two paths of the streams conflict, that is when the order of
      the streams and the order of the merge agree. */
  lemma NoConflictInPlace(source: seq<Metadata>, target: seq<Metadata>)
    requires CleanPaths(source) && CleanPaths(target)
    requires forall s, t | s in source && t in target :: !Conflict(t.path, s.path)
    ensures SharedInPlace(source, target)
  {
    forall p, q | Has(source, p) && Has(target, q) && SortableLess(q, p) ensures !Less(p, q) {
      var s :| s in source && s.path == p;
      var t :| t in target && t.path == q;
      assert !Conflict(t.path, s.path);
      OrdersDisagreeIff(q, p);
      LessAsymmetric(q, p);
    }
  }

  /** A run loses a.md when the folder a/ that stood beside it has been deleted: the walk lists
      a/b.md before a.md, but the merge compares a.md as smaller. */
  lemma DeletedFolderLosesNote(modified: int, gone: int)
    ensures WalkLess(Components("a/b.md"), Components("a.md"))
    ensures Overtaken([Metadata("a.md", modified)], [Metadata("a/b.md", gone), Metadata("a.md", modified)])
  {
    var source, target := [Metadata("a.md", modified)], [Metadata("a/b.md", gone), Metadata("a.md", modified)];
    assert target[0..] == target && target[1] in target && Has(target, "a.md");
    assert "a.md"[1..] == ".md" && "a/b.md"[1..] == "/b.md";
    HeadOvertakes(source, target, 0, 0);
  }
}
