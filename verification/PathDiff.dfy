/** The merge of two streams of file metadata into a stream of changes. */
module PathDiff {
  import opened Strings
  import opened PathOrder

  datatype Metadata = Metadata(path: string, modified: int)

  datatype Kind = Added | Modified | Removed | Unchanged

  datatype Change = Change(path: string, kind: Kind)

  /** The change reported for the files at the head of the streams, None once both are closed. */
  function HeadChange(source: Option<Metadata>, target: Option<Metadata>, force: bool): (c: Option<Change>)
    ensures c.None? <==> source.None? && target.None?
    ensures c.Some? && c.value.kind != Removed ==> source.Some? && source.value.path == c.value.path
    ensures c.Some? && c.value.kind != Added ==> target.Some? && target.value.path == c.value.path
  {
    match (source, target)
    case (None, None) => None
    case (None, Some(t)) => Some(Change(t.path, Removed))
    case (Some(s), None) => Some(Change(s.path, Added))
    case (Some(s), Some(t)) =>
      if s.path == t.path then Some(Change(s.path, if force || s.modified != t.modified then Modified else Unchanged))
      else if Less(s.path, t.path) then Some(Change(s.path, Added))
      else Some(Change(t.path, Removed))
  }

  function First(files: seq<Metadata>): Option<Metadata> {
    if files == [] then None else Some(files[0])
  }

  /** The stream once a change of the given kind is taken out of it. */
  function SourceAfter(source: seq<Metadata>, kind: Kind): seq<Metadata>
    requires kind != Removed ==> source != []
  {
    if kind == Removed then source else source[1..]
  }

  function TargetAfter(target: seq<Metadata>, kind: Kind): seq<Metadata>
    requires kind != Added ==> target != []
  {
    if kind == Added then target else target[1..]
  }

  /** The changes the merge reports. */
  function Changes(source: seq<Metadata>, target: seq<Metadata>, force: bool): seq<Change>
    decreases |source| + |target|
  {
    var c := HeadChange(First(source), First(target), force);
    if c.None? then []
    else [c.value] + Changes(SourceAfter(source, c.value.kind), TargetAfter(target, c.value.kind), force)
  }

  // --- The loop ---

  class DiffPair {
    var source: Option<Metadata>
    var target: Option<Metadata>

    constructor ()
      ensures source == None && target == None
    {
      source, target := None, None;
    }

    /** Takes the next change out of the pair. */
    method Diff(force: bool) returns (change: Option<Change>)
      modifies this
      ensures change == HeadChange(old(source), old(target), force)
      ensures source == if change.Some? && change.value.kind != Removed then None else old(source)
      ensures target == if change.Some? && change.value.kind != Added then None else old(target)
    {
      change := None;
      if source == None && target == None {
      } else if source == None {
        change := Some(Change(target.value.path, Removed));
        target := None;
      } else if target == None {
        change := Some(Change(source.value.path, Added));
        source := None;
      } else if source.value.path == target.value.path {
        if force || source.value.modified != target.value.modified {
          change := Some(Change(source.value.path, Modified));
        } else {
          change := Some(Change(source.value.path, Unchanged));
        }
        source, target := None, None;
      } else if Less(source.value.path, target.value.path) {
        change := Some(Change(source.value.path, Added));
        source := None;
      } else {
        change := Some(Change(target.value.path, Removed));
        target := None;
      }
    }
  }

  /** What is left of a stream: the element held in the pair, then the unread ones. */
  function Left(held: Option<Metadata>, unread: seq<Metadata>): seq<Metadata> {
    if held.Some? then [held.value] + unread else unread
  }

  /** The callback accepts the changes one after the other. */
  ghost predicate Accepts(fails: seq<Change> -> bool, changes: seq<Change>) {
    forall k | 0 < k <= |changes| :: !fails(changes[..k])
  }

  /** What the callback has received: changes it accepted, then the one it failed on if any. */
  ghost predicate Delivered(fails: seq<Change> -> bool, changes: seq<Change>, failed: bool) {
    if failed then changes != [] && fails(changes) && Accepts(fails, changes[..|changes| - 1])
    else Accepts(fails, changes)
  }

  lemma DeliverNext(fails: seq<Change> -> bool, changes: seq<Change>, c: Change)
    requires Delivered(fails, changes, false)
    ensures Delivered(fails, changes + [c], fails(changes + [c]))
  {
    var next := changes + [c];
    assert next[..|changes|] == changes;
    forall k | 0 < k <= |next| && !fails(next) ensures !fails(next[..k]) {
      assert k <= |changes| ==> next[..k] == changes[..k];
      assert k == |next| ==> next[..k] == next;
    }
  }

  /** Reads the head of a stream unless one is held already. */
  method Read(files: seq<Metadata>, at: nat, held: Option<Metadata>, isOpen: bool)
    returns (held': Option<Metadata>, at': nat, isOpen': bool)
    requires at <= |files| && (isOpen || (held == None && at == |files|))
    ensures at <= at' <= |files| && Left(held', files[at'..]) == Left(held, files[at..])
      && held' == First(Left(held, files[at..]))
    ensures isOpen' == if held == None then at < |files| else isOpen
    ensures isOpen' || (held' == None && at' == |files|)
    ensures held'.Some? ==> files[at'..] == Left(held, files[at..])[1..]
  {
    held', at', isOpen' := held, at, isOpen;
    if held == None {
      isOpen' := at < |files|;
      if isOpen' {
        held', at' := Some(files[at]), at + 1;
      }
    }
  }

  lemma TakeChange(reported: seq<Change>, s: seq<Metadata>, t: seq<Metadata>, force: bool, c: Change)
    requires HeadChange(First(s), First(t), force) == Some(c)
    ensures reported + Changes(s, t, force)
         == (reported + [c]) + Changes(SourceAfter(s, c.kind), TargetAfter(t, c.kind), force)
  {
  }

  /** The positions in the streams and what is left of them. */
  datatype Cursor = Cursor(count: nat, sourceOpened: bool, read: nat, targetOpened: bool)

  ghost predicate Tracks(c: Cursor, source: seq<Metadata>, target: seq<Metadata>, heldSource: Option<Metadata>,
                         heldTarget: Option<Metadata>, s: seq<Metadata>, t: seq<Metadata>)
  {
    && c.count <= |source| && c.read <= |target|
    && (c.sourceOpened || (heldSource == None && c.count == |source|))
    && (c.targetOpened || (heldTarget == None && c.read == |target|))
    && s == Left(heldSource, source[c.count..]) && t == Left(heldTarget, target[c.read..])
  }

  /** One turn of the loop: reads what is missing in the pair and takes the next change out of it. */
  method Turn(pair: DiffPair, source: seq<Metadata>, target: seq<Metadata>, force: bool, c: Cursor,
              ghost s: seq<Metadata>, ghost t: seq<Metadata>) returns (c': Cursor, change: Option<Change>)
    requires Tracks(c, source, target, pair.source, pair.target, s, t)
    modifies pair
    ensures change == HeadChange(First(s), First(t), force)
    ensures change.Some? ==> Tracks(c', source, target, pair.source, pair.target,
                                    SourceAfter(s, change.value.kind), TargetAfter(t, change.value.kind))
    ensures change.None? ==> !c'.sourceOpened && !c'.targetOpened && c'.count == |source|
  {
    var held, count, sourceOpened := Read(source, c.count, pair.source, c.sourceOpened);
    pair.source := held;
    var read, targetOpened;
    held, read, targetOpened := Read(target, c.read, pair.target, c.targetOpened);
    pair.target := held;
    c' := Cursor(count, sourceOpened, read, targetOpened);
    change := pair.Diff(force);
  }

  /** Diff. `fails` is the error test of the callback, which may depend on all it has seen. The
      callback receives the changes of the merge in order, up to the first one it rejects; without
      error all of them, and the count returned is the number of files in the source. */
  method Diff(source: seq<Metadata>, target: seq<Metadata>, force: bool, fails: seq<Change> -> bool)
    returns (reported: seq<Change>, count: nat, failed: bool)
    ensures reported <= Changes(source, target, force)
    ensures !failed ==> reported == Changes(source, target, force) && count == |source|
    ensures Delivered(fails, reported, failed)
  {
    var pair := new DiffPair();
    var c := Cursor(0, true, 0, true);
    reported, failed := [], false;
    ghost var s, t := source, target;
    while !failed && (c.sourceOpened || c.targetOpened)
      invariant c.sourceOpened || c.targetOpened ==> Tracks(c, source, target, pair.source, pair.target, s, t)
      invariant !(c.sourceOpened || c.targetOpened) ==> s == [] && t == [] && c.count == |source|
      invariant reported + Changes(s, t, force) == Changes(source, target, force)
      invariant Delivered(fails, reported, failed)
      decreases |s| + |t|, c.sourceOpened || c.targetOpened
    {
      var change;
      c, change := Turn(pair, source, target, force, c, s, t);
      if change.Some? {
        TakeChange(reported, s, t, force, change.value);
        DeliverNext(fails, reported, change.value);
        s, t := SourceAfter(s, change.value.kind), TargetAfter(t, change.value.kind);
        reported := reported + [change.value];
        failed := fails(reported);
      }
    }
    count := c.count;
  }

  // --- Counts ---

  function Count(changes: seq<Change>, kind: Kind): nat {
    if changes == [] then 0 else (if changes[0].kind == kind then 1 else 0) + Count(changes[1..], kind)
  }

  /** Every source file is reported added, modified or unchanged, and every target file removed,
      modified or unchanged, whatever the order of the streams. */
  lemma {:induction false} ChangesAddUp(source: seq<Metadata>, target: seq<Metadata>, force: bool)
    ensures var c := Changes(source, target, force);
      && Count(c, Added) + Count(c, Modified) + Count(c, Unchanged) == |source|
      && Count(c, Removed) + Count(c, Modified) + Count(c, Unchanged) == |target|
      && (force ==> Count(c, Unchanged) == 0)
    decreases |source| + |target|
  {
    var c := Changes(source, target, force);
    if c != [] {
      ChangesAddUp(SourceAfter(source, c[0].kind), TargetAfter(target, c[0].kind), force);
    }
  }

  // --- Sorted streams ---

  /** Strictly sorted by raw path, as the merge requires. */
  ghost predicate Sorted(files: seq<Metadata>) {
    forall i, j | 0 <= i < j < |files| :: Less(files[i].path, files[j].path)
  }

  ghost predicate Has(files: seq<Metadata>, path: string) {
    exists m | m in files :: m.path == path
  }

  /** The change a path deserves given the two streams. */
  ghost predicate RightChange(source: seq<Metadata>, target: seq<Metadata>, force: bool, c: Change) {
    match c.kind
    case Added => Has(source, c.path) && !Has(target, c.path)
    case Removed => Has(target, c.path) && !Has(source, c.path)
    case Modified =>
      exists s, t | s in source && t in target :: s.path == t.path == c.path && (force || s.modified != t.modified)
    case Unchanged =>
      exists s, t | s in source && t in target :: s.path == t.path == c.path && !force && s.modified == t.modified
  }

  /** Every path of the streams is after `path`. */
  ghost predicate AllAfter(path: string, files: seq<Metadata>) {
    forall m | m in files :: Less(path, m.path)
  }

  lemma SortedTail(files: seq<Metadata>)
    requires Sorted(files) && files != []
    ensures Sorted(files[1..]) && AllAfter(files[0].path, files[1..]) && !Has(files[1..], files[0].path)
  {
    forall m | m in files[1..] ensures Less(files[0].path, m.path) {
      var i :| 0 <= i < |files[1..]| && files[1..][i] == m;
      assert files[i + 1] == m;
    }
    LessIrreflexive(files[0].path);
  }

  lemma AfterTransitive(a: string, b: string, files: seq<Metadata>)
    requires Less(a, b) && AllAfter(b, files)
    ensures AllAfter(a, files)
  {
    forall m | m in files ensures Less(a, m.path) {
      LessTransitive(a, b, m.path);
    }
  }

  lemma AfterIsAbsent(path: string, files: seq<Metadata>)
    requires AllAfter(path, files)
    ensures !Has(files, path)
  {
    LessIrreflexive(path);
  }

  ghost predicate Ascending(changes: seq<Change>) {
    forall i, j | 0 <= i < j < |changes| :: Less(changes[i].path, changes[j].path)
  }

  /** The head of the merge comes before everything left, and the kind reported for it is right. */
  lemma MergeHead(source: seq<Metadata>, target: seq<Metadata>, force: bool, c: Change)
    requires Sorted(source) && Sorted(target) && HeadChange(First(source), First(target), force) == Some(c)
    ensures RightChange(source, target, force, c)
    ensures AllAfter(c.path, SourceAfter(source, c.kind)) && AllAfter(c.path, TargetAfter(target, c.kind))
    ensures Sorted(SourceAfter(source, c.kind)) && Sorted(TargetAfter(target, c.kind))
  {
    if source != [] {
      SortedTail(source);
      assert source[0] in source;
    }
    if target != [] {
      SortedTail(target);
      assert target[0] in target;
    }
    if source != [] && target != [] && source[0].path != target[0].path {
      if Less(source[0].path, target[0].path) {
        AfterTransitive(source[0].path, target[0].path, target[1..]);
        assert target == [target[0]] + target[1..];
        AfterIsAbsent(source[0].path, target);
      } else {
        LessTotal(source[0].path, target[0].path);
        AfterTransitive(target[0].path, source[0].path, source[1..]);
        assert source == [source[0]] + source[1..];
        AfterIsAbsent(target[0].path, source);
      }
    }
  }

  lemma HeadAndRest(source: seq<Metadata>, target: seq<Metadata>, force: bool, c: Change, path: string)
    requires HeadChange(First(source), First(target), force) == Some(c)
    ensures Has(source, path) <==> Has(SourceAfter(source, c.kind), path) || (c.kind != Removed && path == c.path)
    ensures Has(target, path) <==> Has(TargetAfter(target, c.kind), path) || (c.kind != Added && path == c.path)
  {
  }

  /** A right change of the rest of the streams is a right change of the whole. */
  lemma RightChangeGrows(source: seq<Metadata>, target: seq<Metadata>, force: bool, c: Change, x: Change)
    requires HeadChange(First(source), First(target), force) == Some(c) && Less(c.path, x.path)
    requires RightChange(SourceAfter(source, c.kind), TargetAfter(target, c.kind), force, x)
    ensures RightChange(source, target, force, x)
  {
    LessIrreflexive(c.path);
    HeadAndRest(source, target, force, c, x.path);
    assert forall m :: m in SourceAfter(source, c.kind) ==> m in source;
    assert forall m :: m in TargetAfter(target, c.kind) ==> m in target;
  }

  lemma RightChangeHas(source: seq<Metadata>, target: seq<Metadata>, force: bool, x: Change)
    requires RightChange(source, target, force, x)
    ensures Has(source, x.path) || Has(target, x.path)
  {
  }

  ghost predicate Reports(changes: seq<Change>, path: string) {
    exists x | x in changes :: x.path == path
  }

  /** For sorted streams the merge reports exactly one change per path of the union, in increasing
      order and of the right kind. */
  lemma {:induction false} SortedChanges(source: seq<Metadata>, target: seq<Metadata>, force: bool)
    requires Sorted(source) && Sorted(target)
    ensures var changes := Changes(source, target, force);
      && Ascending(changes)
      && (forall x | x in changes :: RightChange(source, target, force, x))
      && (forall path :: Reports(changes, path) <==> Has(source, path) || Has(target, path))
    decreases |source| + |target|
  {
    var changes := Changes(source, target, force);
    if changes != [] {
      var c := changes[0];
      var s, t := SourceAfter(source, c.kind), TargetAfter(target, c.kind);
      var rest := changes[1..];
      MergeHead(source, target, force, c);
      SortedChanges(s, t, force);
      forall x | x in rest ensures Less(c.path, x.path) && RightChange(source, target, force, x) {
        RightChangeHas(s, t, force, x);
        RightChangeGrows(source, target, force, c, x);
      }
      assert Ascending(changes) by {
        forall i, j | 0 <= i < j < |changes| ensures Less(changes[i].path, changes[j].path) {
          assert changes[j] == rest[j - 1];
          assert i > 0 ==> changes[i] == rest[i - 1];
        }
      }
      forall path ensures Reports(changes, path) <==> Has(source, path) || Has(target, path) {
        HeadAndRest(source, target, force, c, path);
        assert Reports(changes, path) <==> path == c.path || Reports(rest, path) by {
          assert changes == [c] + rest;
        }
      }
    }
  }
}
