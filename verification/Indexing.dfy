/** One indexing run: the changes between the files of the notebook and the index are applied to
    the index. When it leaves the index equal to the files, and when it does not. */
module Indexing {
  import opened Strings
  import opened IndexSpec
  import opened IndexInvariants
  import opened PathOrder
  import opened PathDiff
  import opened StreamOrder
  import NoteIndex

  /** ParseNoteAt, None when the file cannot be read or parsed. */
  type Parser = string -> Option<Note>

  /** The index operation issued for a change; none for a file that does not parse. */
  function OpOf(parse: Parser, c: Change): Option<Op> {
    match c.kind
    case Added => if parse(c.path).Some? then Some(Add(parse(c.path).value)) else None
    case Modified => if parse(c.path).Some? then Some(Update(parse(c.path).value)) else None
    case Removed => Some(Remove(c.path))
    case Unchanged => None
  }

  /** Errors of the index are logged and do not stop the run. */
  ghost predicate Applies(env: Env, parse: Parser, db: Db, c: Change, db': Db) {
    var op := OpOf(parse, c);
    if op.None? then db' == db else Step(env, db, op.value, db')
  }

  /** `dbs` are the states met while applying `changes`. */
  ghost predicate AppliesAll(env: Env, parse: Parser, changes: seq<Change>, dbs: seq<Db>) {
    |dbs| == |changes| + 1 && forall i | 0 <= i < |changes| :: Applies(env, parse, dbs[i], changes[i], dbs[i + 1])
  }

  // --- The index seen as paths and modification dates ---

  ghost function Paths(rows: map<nat, NoteRow>): set<string> {
    set n | n in rows :: rows[n].path
  }

  ghost function View(rows: map<nat, NoteRow>): map<string, int> {
    map p | p in Paths(rows) :: var n :| n in rows && rows[n].path == p; rows[n].modified
  }

  function ViewAfterOp(v: map<string, int>, op: Op): map<string, int> {
    match op
    case Add(note) => if note.path in v then v else v[note.path := note.modified]
    case Update(note) => if note.path in v then v[note.path := note.modified] else v
    case Remove(path) => v - {path}
  }

  function ViewAfterChange(v: map<string, int>, parse: Parser, c: Change): map<string, int> {
    var op := OpOf(parse, c);
    if op.None? then v else ViewAfterOp(v, op.value)
  }

  function ViewAfter(v: map<string, int>, parse: Parser, changes: seq<Change>): map<string, int>
    decreases |changes|
  {
    if changes == [] then v else ViewAfter(ViewAfterChange(v, parse, changes[0]), parse, changes[1..])
  }

  /** `v` is the view of `rows`, stated row by row. */
  ghost predicate IsView(v: map<string, int>, rows: map<nat, NoteRow>) {
    && (forall n | n in rows :: rows[n].path in v && v[rows[n].path] == rows[n].modified)
    && (forall p | p in v :: Indexed(rows, p))
  }

  lemma ViewIs(t: NoteTable)
    requires NotesOk(t)
    ensures IsView(View(t.rows), t.rows)
  {
    forall n | n in t.rows ensures t.rows[n].path in View(t.rows)
      && View(t.rows)[t.rows[n].path] == t.rows[n].modified {
      assert t.rows[n].path in Paths(t.rows);
    }
  }

  lemma ViewUnique(v: map<string, int>, w: map<string, int>, rows: map<nat, NoteRow>)
    requires IsView(v, rows) && IsView(w, rows)
    ensures v == w
  {
  }

  lemma InsertView(t: NoteTable, note: Note, v: map<string, int>)
    requires NotesOk(t) && IsView(v, t.rows) && !Indexed(t.rows, note.path)
    ensures IsView(v[note.path := note.modified], InsertNote(t, note).rows)
  {
    var rows := InsertNote(t, note).rows;
    forall p | p in v[note.path := note.modified] ensures Indexed(rows, p) {
      if p == note.path {
        assert rows[t.last + 1].path == p;
      } else {
        var n :| n in t.rows && t.rows[n].path == p;
        assert rows[n].path == p;
      }
    }
  }

  lemma UpdateView(t: NoteTable, id: nat, note: Note, v: map<string, int>)
    requires NotesOk(t) && IsView(v, t.rows) && id in t.rows && t.rows[id].path == note.path
    ensures IsView(v[note.path := note.modified], UpdateNote(t, id, note).rows)
  {
    var rows := UpdateNote(t, id, note).rows;
    forall p | p in v[note.path := note.modified] ensures Indexed(rows, p) {
      var n :| n in t.rows && t.rows[n].path == p;
      assert rows[n].path == p;
    }
  }

  lemma OtherPath(t: NoteTable, m: nat, n: nat)
    requires NotesOk(t) && m in t.rows && n in t.rows && m != n
    ensures t.rows[m].path != t.rows[n].path
  {
  }

  lemma DeleteView(t: NoteTable, id: nat, v: map<string, int>)
    requires NotesOk(t) && IsView(v, t.rows) && id in t.rows
    ensures IsView(v - {t.rows[id].path}, DeleteNote(t, id).rows)
  {
    var rows := DeleteNote(t, id).rows;
    forall n | n in rows ensures rows[n].path in v - {t.rows[id].path} {
      OtherPath(t, id, n);
    }
    forall p | p in v - {t.rows[id].path} ensures Indexed(rows, p) {
      var n :| n in t.rows && t.rows[n].path == p;
      assert n in rows && rows[n] == t.rows[n];
    }
  }

  /** The notes after an operation, as a view. */
  lemma StepIsView(env: Env, db: Db, op: Op, db': Db, v: map<string, int>)
    requires NotesOk(db.notes) && IsView(v, db.notes.rows) && Step(env, db, op, db')
    ensures IsView(ViewAfterOp(v, op), db'.notes.rows)
  {
    match op
    case Add(note) =>
      if !Indexed(db.notes.rows, note.path) {
        InsertView(db.notes, note, v);
      } else {
        assert note.path in v;
      }
    case Update(note) =>
      if Indexed(db.notes.rows, note.path) {
        assert note.path in v;
        var id, targets :| id in db.notes.rows && db.notes.rows[id].path == note.path
          && ResolvesAll(env, UpdateNote(db.notes, id, note).rows, note.links, targets)
          && db' == AfterUpdate(db, id, note, targets);
        UpdateView(db.notes, id, note, v);
      }
    case Remove(path) =>
      if Indexed(db.notes.rows, path) {
        var id :| id in db.notes.rows && db.notes.rows[id].path == path && db' == AfterRemove(db, id);
        DeleteView(db.notes, id, v);
      } else {
        assert v - {path} == v;
      }
  }

  lemma StepView(env: Env, db: Db, op: Op, db': Db)
    requires NotesOk(db.notes) && NotesOk(db'.notes) && Step(env, db, op, db')
    ensures View(db'.notes.rows) == ViewAfterOp(View(db.notes.rows), op)
  {
    ViewIs(db.notes);
    ViewIs(db'.notes);
    StepIsView(env, db, op, db', View(db.notes.rows));
    ViewUnique(View(db'.notes.rows), ViewAfterOp(View(db.notes.rows), op), db'.notes.rows);
  }

  /** A run acts on paths and dates as ViewAfter says, and keeps the index safe. */
  lemma {:induction false} RunView(env: Env, parse: Parser, changes: seq<Change>, dbs: seq<Db>)
    requires AppliesAll(env, parse, changes, dbs) && Safe(env, dbs[0])
    ensures Safe(env, dbs[|changes|])
    ensures View(dbs[|changes|].notes.rows) == ViewAfter(View(dbs[0].notes.rows), parse, changes)
  {
    if changes != [] {
      assert Applies(env, parse, dbs[0], changes[0], dbs[0 + 1]);
      var op := OpOf(parse, changes[0]);
      if op.Some? {
        StepKeeps(env, dbs[0], op.value, dbs[1]);
        StepView(env, dbs[0], op.value, dbs[1]);
      }
      assert AppliesAll(env, parse, changes[1..], dbs[1..]) by {
        forall i | 0 <= i < |changes[1..]| ensures Applies(env, parse, dbs[1..][i], changes[1..][i], dbs[1..][i + 1]) {
          assert Applies(env, parse, dbs[i + 1], changes[i + 1], dbs[i + 1 + 1]);
        }
      }
      RunView(env, parse, changes[1..], dbs[1..]);
    }
  }

  // --- Streams ---

  ghost predicate ParsesAll(parse: Parser, source: seq<Metadata>) {
    forall m | m in source ::
      parse(m.path).Some? && parse(m.path).value.path == m.path && parse(m.path).value.modified == m.modified
  }

  /** The index holds the files of the source already merged and those of the target not merged yet. */
  ghost predicate Midway(source: seq<Metadata>, target: seq<Metadata>, i: nat, j: nat, v: map<string, int>)
    requires i <= |source| && j <= |target|
  {
    && (forall a, b | 0 <= a < i && j <= b < |target| :: source[a].path != target[b].path)
    && (forall a | 0 <= a < i :: source[a].path in v && v[source[a].path] == source[a].modified)
    && (forall b | j <= b < |target| :: target[b].path in v && v[target[b].path] == target[b].modified)
    && (forall p | p in v ::
          (exists a :: 0 <= a < i && source[a].path == p) || exists b :: j <= b < |target| && target[b].path == p)
  }

  lemma MidwayRemoved(source: seq<Metadata>, target: seq<Metadata>, i: nat, j: nat, v: map<string, int>)
    requires DistinctPaths(target) && i <= |source| && j < |target| && Midway(source, target, i, j, v)
    ensures Midway(source, target, i, j + 1, v - {target[j].path})
  {
  }

  lemma MidwayAdded(source: seq<Metadata>, target: seq<Metadata>, i: nat, j: nat, v: map<string, int>)
    requires DistinctPaths(source) && i < |source| && j <= |target| && Midway(source, target, i, j, v)
    requires !Has(target[j..], source[i].path)
    ensures source[i].path !in v && Midway(source, target, i + 1, j, v[source[i].path := source[i].modified])
  {
    forall b | j <= b < |target| ensures source[i].path != target[b].path {
      assert target[j..][b - j] in target[j..];
    }
    var v' := v[source[i].path := source[i].modified];
    forall p | p in v'
      ensures
        (exists a :: 0 <= a < i + 1 && source[a].path == p) || exists b :: j <= b < |target| && target[b].path == p
    {
      if p != source[i].path {
        assert p in v;
      }
    }
  }

  lemma MidwayMatched(source: seq<Metadata>, target: seq<Metadata>, i: nat, j: nat, v: map<string, int>)
    requires DistinctPaths(source) && DistinctPaths(target)
    requires i < |source| && j < |target| && Midway(source, target, i, j, v) && source[i].path == target[j].path
    ensures Midway(source, target, i + 1, j + 1, v[source[i].path := source[i].modified])
  {
  }

  /** A file that parses gets its date in the view, unless it is added twice or modified while absent. */
  lemma ParsedChange(parse: Parser, source: seq<Metadata>, m: Metadata, v: map<string, int>)
    requires ParsesAll(parse, source) && m in source
    ensures m.path !in v ==> ViewAfterChange(v, parse, Change(m.path, Added)) == v[m.path := m.modified]
    ensures m.path in v ==> ViewAfterChange(v, parse, Change(m.path, Modified)) == v[m.path := m.modified]
  {
  }

  /** The view after the change of the heads: a path less, or the date of the file. */
  lemma HeadView(source: seq<Metadata>, target: seq<Metadata>, force: bool, parse: Parser, i: nat, j: nat,
                 v: map<string, int>, c: Change)
    requires DistinctPaths(source) && ParsesAll(parse, source)
    requires i <= |source| && j <= |target| && Midway(source, target, i, j, v)
    requires HeadChange(First(source[i..]), First(target[j..]), force) == Some(c)
    requires !(c.kind == Added && Has(target[j..], c.path))
    ensures c.kind == Removed ==> j < |target| && ViewAfterChange(v, parse, c) == v - {target[j].path}
    ensures c.kind != Removed ==>
      i < |source| && ViewAfterChange(v, parse, c) == v[source[i].path := source[i].modified]
  {
    HeadOfRest(source, target, force, i, j, c);
    if c.kind != Removed {
      assert source[i] in source;
      ParsedChange(parse, source, source[i], v);
      if c.kind == Added {
        MidwayAdded(source, target, i, j, v);
      } else {
        assert target[j].path in v;
      }
    }
  }

  /** The change reported for the heads of what is left leads from one midway state to the next. */
  lemma SynchroniseStep(source: seq<Metadata>, target: seq<Metadata>, force: bool, parse: Parser,
                        i: nat, j: nat, v: map<string, int>, c: Change)
    requires DistinctPaths(source) && DistinctPaths(target) && ParsesAll(parse, source)
    requires i <= |source| && j <= |target| && Midway(source, target, i, j, v)
    requires HeadChange(First(source[i..]), First(target[j..]), force) == Some(c)
    requires !(c.kind == Added && Has(target[j..], c.path))
    ensures SourceNext(i, c.kind) <= |source| && TargetNext(j, c.kind) <= |target|
    ensures Midway(source, target, SourceNext(i, c.kind), TargetNext(j, c.kind), ViewAfterChange(v, parse, c))
  {
    HeadView(source, target, force, parse, i, j, v, c);
    HeadOfRest(source, target, force, i, j, c);
    if c.kind == Removed {
      MidwayRemoved(source, target, i, j, v);
    } else if c.kind == Added {
      MidwayAdded(source, target, i, j, v);
    } else {
      MidwayMatched(source, target, i, j, v);
    }
  }

  lemma {:induction false} SynchroniseFrom(source: seq<Metadata>, target: seq<Metadata>, force: bool, parse: Parser,
                                           i: nat, j: nat, v: map<string, int>)
    requires DistinctPaths(source) && DistinctPaths(target) && ParsesAll(parse, source)
    requires i <= |source| && j <= |target| && Midway(source, target, i, j, v)
    requires !AddsIndexed(source[i..], target[j..], force)
    ensures Midway(source, target, |source|, |target|, ViewAfter(v, parse, Changes(source[i..], target[j..], force)))
    decreases |source| + |target| - i - j
  {
    var head := HeadChange(First(source[i..]), First(target[j..]), force);
    if head.Some? {
      var c := head.value;
      var i', j' := SourceNext(i, c.kind), TargetNext(j, c.kind);
      HeadOfRest(source, target, force, i, j, c);
      SynchroniseStep(source, target, force, parse, i, j, v, c);
      SynchroniseFrom(source, target, force, parse, i', j', ViewAfterChange(v, parse, c));
      ViewAfterHead(v, parse, c, Changes(source[i'..], target[j'..], force));
    }
  }

  lemma ViewAfterHead(v: map<string, int>, parse: Parser, c: Change, rest: seq<Change>)
    ensures ViewAfter(v, parse, [c] + rest) == ViewAfter(ViewAfterChange(v, parse, c), parse, rest)
  {
  }

  // --- Streams of a run ---

  /** The indexed notes as streamed by `ORDER BY sortable_path ASC`. */
  ghost predicate IndexedStream(rows: map<nat, NoteRow>, target: seq<Metadata>) {
    && (forall m :: m in target <==> Holds(rows, m))
    && (forall i, j | 0 <= i < j < |target| :: target[i] != target[j] && !SortableLess(target[j].path, target[i].path))
  }

  /** A note is indexed with this path and modification date. */
  ghost predicate Holds(rows: map<nat, NoteRow>, m: Metadata) {
    exists n | n in rows :: rows[n].path == m.path && rows[n].modified == m.modified
  }

  lemma IndexedStreamIsSorted(t: NoteTable, target: seq<Metadata>)
    requires NotesOk(t) && IndexedStream(t.rows, target) && CleanPaths(target)
    ensures SortedBy(target)
  {
    forall i, j | 0 <= i < j < |target| ensures SortableLess(target[i].path, target[j].path) {
      var a, b := target[i], target[j];
      assert a in target && b in target;
      assert Holds(t.rows, a) && Holds(t.rows, b);
      assert a != b;
      assert a.path != b.path;
      if SortablePath(a.path) == SortablePath(b.path) {
        SortableInjective(a.path, b.path);
      }
      LessTotal(SortablePath(a.path), SortablePath(b.path));
    }
  }

  /** The index and the files have the same paths and modification dates. */
  ghost predicate InSync(rows: map<nat, NoteRow>, source: seq<Metadata>) {
    forall m :: m in source <==> Holds(rows, m)
  }

  lemma MidwayStart(t: NoteTable, source: seq<Metadata>, target: seq<Metadata>)
    requires NotesOk(t) && InSync(t.rows, target)
    ensures Midway(source, target, 0, 0, View(t.rows))
  {
    ViewIs(t);
    var v := View(t.rows);
    forall b | 0 <= b < |target| ensures target[b].path in v && v[target[b].path] == target[b].modified {
      assert target[b] in target;
      assert Holds(t.rows, target[b]);
    }
    forall p | p in v ensures exists b :: 0 <= b < |target| && target[b].path == p {
      var n :| n in t.rows && t.rows[n].path == p;
      var m := Metadata(p, t.rows[n].modified);
      assert Holds(t.rows, m);
      var b :| 0 <= b < |target| && target[b] == m;
    }
  }

  lemma MidwayEnd(t: NoteTable, source: seq<Metadata>, target: seq<Metadata>)
    requires NotesOk(t) && Midway(source, target, |source|, |target|, View(t.rows))
    ensures InSync(t.rows, source)
  {
    ViewIs(t);
    var v := View(t.rows);
    forall m ensures m in source <==> Holds(t.rows, m) {
      if m in source {
        var a :| 0 <= a < |source| && source[a] == m;
        assert m.path in v && v[m.path] == m.modified;
        var n :| n in t.rows && t.rows[n].path == m.path;
      }
      if Holds(t.rows, m) {
        var n :| n in t.rows && t.rows[n].path == m.path && t.rows[n].modified == m.modified;
        assert m.path in v;
        var a :| 0 <= a < |source| && source[a].path == m.path;
        assert source[a] == m;
      }
    }
  }

  /** The streams of a run: the indexed notes and the files, which all parse, each path once. */
  ghost predicate Streams(rows: map<nat, NoteRow>, parse: Parser, source: seq<Metadata>, target: seq<Metadata>) {
    DistinctPaths(source) && DistinctPaths(target) && InSync(rows, target) && ParsesAll(parse, source)
  }

  ghost predicate Ready(rows: map<nat, NoteRow>, parse: Parser, source: seq<Metadata>, target: seq<Metadata>) {
    Streams(rows, parse, source, target) && !Overtaken(source, target)
  }

  /** From any index, and for streams in any order, a run leaves the indexed paths and dates equal to
      those of the files exactly when no file of the target is overtaken. */
  lemma RunSynchronisesIff(env: Env, parse: Parser, source: seq<Metadata>, target: seq<Metadata>, force: bool,
                           dbs: seq<Db>)
    requires AppliesAll(env, parse, Changes(source, target, force), dbs) && Safe(env, dbs[0])
    requires Streams(dbs[0].notes.rows, parse, source, target)
    ensures var last := dbs[|dbs| - 1];
      Safe(env, last) && (InSync(last.notes.rows, source) <==> !Overtaken(source, target))
  {
    var first, last := dbs[0], dbs[|dbs| - 1];
    RunView(env, parse, Changes(source, target, force), dbs);
    AddsIndexedIff(source, target, force);
    if AddsIndexed(source, target, force) {
      var m := AddedIsLost(source, target, force, parse, View(first.notes.rows));
      ViewIs(last.notes);
      assert !Holds(last.notes.rows, m);
    } else {
      assert source[0..] == source && target[0..] == target;
      MidwayStart(first.notes, source, target);
      SynchroniseFrom(source, target, force, parse, 0, 0, View(first.notes.rows));
      MidwayEnd(last.notes, source, target);
    }
  }

  /** A path the target still holds and the source does not is gone at the end of the run. */
  lemma {:induction false} RemovedEventually(source: seq<Metadata>, target: seq<Metadata>, force: bool, parse: Parser,
                                             v: map<string, int>, path: string)
    requires !Has(source, path) && (Has(target, path) || path !in v) && ParsesAll(parse, source)
    ensures path !in ViewAfter(v, parse, Changes(source, target, force))
    decreases |source| + |target|
  {
    var head := HeadChange(First(source), First(target), force);
    if head.Some? {
      var c := head.value;
      var s, t, v' := SourceAfter(source, c.kind), TargetAfter(target, c.kind), ViewAfterChange(v, parse, c);
      ViewAfterHead(v, parse, c, Changes(s, t, force));
      HeadAndRest(source, target, force, c, path);
      assert c.kind != Removed ==> source[0] in source;
      RemovedEventually(s, t, force, parse, v', path);
    }
  }

  /** A file added while the target still holds it, though present before and after the run, is not
      indexed any more: adding it fails, and then it is removed. */
  lemma {:induction false} AddedIsLost(source: seq<Metadata>, target: seq<Metadata>, force: bool, parse: Parser,
                                       v: map<string, int>)
    returns (lost: Metadata)
    requires DistinctPaths(source) && ParsesAll(parse, source) && AddsIndexed(source, target, force)
    ensures lost in source && lost.path !in ViewAfter(v, parse, Changes(source, target, force))
    decreases |source| + |target|
  {
    var c := HeadChange(First(source), First(target), force).value;
    var s, t, v' := SourceAfter(source, c.kind), TargetAfter(target, c.kind), ViewAfterChange(v, parse, c);
    ViewAfterHead(v, parse, c, Changes(s, t, force));
    if c.kind == Added && Has(target, c.path) {
      lost := source[0];
      forall m | m in s ensures m.path != lost.path {
        var i :| 0 <= i < |s| && s[i] == m;
        assert m == source[i + 1];
      }
      RemovedEventually(s, t, force, parse, v', lost.path);
    } else {
      lost := AddedIsLost(s, t, force, parse, v');
    }
  }

  // --- Streams in walk order ---

  /** The files in walk order and the notes in sortable order. */
  ghost predicate WalkStreams(rows: map<nat, NoteRow>, source: seq<Metadata>, target: seq<Metadata>) {
    WalkedStream(source) && IndexedStream(rows, target) && CleanPaths(source) && CleanPaths(target)
  }

  lemma StreamsAreSorted(t: NoteTable, source: seq<Metadata>, target: seq<Metadata>)
    requires NotesOk(t) && WalkStreams(t.rows, source, target)
    ensures SortedBy(source) && SortedBy(target) && DistinctPaths(source) && DistinctPaths(target)
  {
    IndexedStreamIsSorted(t, target);
    WalkedStreamIsSorted(source);
    SortedDistinct(source);
    SortedDistinct(target);
  }

  /** One indexing run of a walk, from any index, leaves the index in sync with the files if every
      file parses and the shared paths keep their place. */
  lemma RunSynchronises(env: Env, parse: Parser, source: seq<Metadata>, target: seq<Metadata>, force: bool,
                        dbs: seq<Db>)
    requires AppliesAll(env, parse, Changes(source, target, force), dbs) && Safe(env, dbs[0])
    requires WalkStreams(dbs[0].notes.rows, source, target) && ParsesAll(parse, source)
    requires SharedInPlace(source, target)
    ensures var last := dbs[|dbs| - 1]; Safe(env, last) && InSync(last.notes.rows, source)
  {
    StreamsAreSorted(dbs[0].notes, source, target);
    if Overtaken(source, target) {
      AddsIndexedIff(source, target, force);
      AddsIndexedDisplaces(source, target, force);
    }
    RunSynchronisesIff(env, parse, source, target, force, dbs);
  }

  /** When no file is new, that is exactly when the shared paths keep their place. */
  lemma RunWithoutNewFilesIff(env: Env, parse: Parser, source: seq<Metadata>, target: seq<Metadata>, force: bool,
                              dbs: seq<Db>)
    requires AppliesAll(env, parse, Changes(source, target, force), dbs) && Safe(env, dbs[0])
    requires WalkStreams(dbs[0].notes.rows, source, target) && ParsesAll(parse, source)
    requires forall p | Has(source, p) :: Has(target, p)
    ensures InSync(dbs[|dbs| - 1].notes.rows, source) <==> SharedInPlace(source, target)
  {
    StreamsAreSorted(dbs[0].notes, source, target);
    AddsIndexedIff(source, target, force);
    RunSynchronisesIff(env, parse, source, target, force, dbs);
    if Overtaken(source, target) {
      AddsIndexedDisplaces(source, target, force);
    } else if !SharedInPlace(source, target) {
      DisplacedAddsIndexed(source, target, force);
    }
  }

  // --- The next run ---

  lemma {:induction false} SameStreams(files: seq<Metadata>)
    ensures forall c | c in Changes(files, files, false) :: c.kind == Unchanged
  {
    if files != [] {
      SameStreams(files[1..]);
    }
  }

  /** Running again without force right after reports every file unchanged and leaves the
      database as it is. */
  lemma NextRunChangesNothing(env: Env, parse: Parser, source: seq<Metadata>, target: seq<Metadata>, dbs: seq<Db>)
    requires AppliesAll(env, parse, Changes(source, target, false), dbs)
    requires NotesOk(dbs[0].notes) && InSync(dbs[0].notes.rows, source)
    requires WalkedStream(source) && CleanPaths(source) && IndexedStream(dbs[0].notes.rows, target)
    ensures target == source && |Changes(source, target, false)| == |source|
    ensures forall c | c in Changes(source, target, false) :: c.kind == Unchanged
    ensures forall i | 0 <= i < |dbs| :: dbs[i] == dbs[0]
  {
    var changes := Changes(source, target, false);
    assert CleanPaths(target);
    IndexedStreamIsSorted(dbs[0].notes, target);
    WalkedStreamIsSorted(source);
    SortedUnique(source, target);
    SameStreams(source);
    AllUnchanged(source);
    NothingApplied(env, parse, changes, dbs, |changes|);
    forall i | 0 <= i < |dbs| ensures dbs[i] == dbs[0] {
      NothingApplied(env, parse, changes, dbs, i);
    }
  }

  lemma {:induction false} AllUnchanged(files: seq<Metadata>)
    ensures |Changes(files, files, false)| == |files|
  {
    if files != [] {
      AllUnchanged(files[1..]);
    }
  }

  lemma {:induction false} NothingApplied(env: Env, parse: Parser, changes: seq<Change>, dbs: seq<Db>, i: nat)
    requires AppliesAll(env, parse, changes, dbs) && i < |dbs|
    requires forall c | c in changes :: c.kind == Unchanged
    ensures dbs[i] == dbs[0]
  {
    if i > 0 {
      NothingApplied(env, parse, changes, dbs, i - 1);
      assert Applies(env, parse, dbs[i - 1], changes[i - 1], dbs[i - 1 + 1]);
      assert changes[i - 1] in changes;
    }
  }

  // --- The indexing task ---

  datatype Stats = Stats(sourceCount: nat, added: nat, modified: nat, removed: nat)

  lemma {:induction false} CountLast(changes: seq<Change>, c: Change, kind: Kind)
    ensures Count(changes + [c], kind) == Count(changes, kind) + if c.kind == kind then 1 else 0
  {
    if changes == [] {
      assert [c][1..] == [];
      assert changes + [c] == [c];
    } else {
      assert (changes + [c])[1..] == changes[1..] + [c];
      CountLast(changes[1..], c, kind);
    }
  }

  function StatsOf(count: nat, changes: seq<Change>): Stats {
    Stats(count, Count(changes, Added), Count(changes, Modified), Count(changes, Removed))
  }

  function Counted(s: Stats, kind: Kind): Stats {
    match kind
    case Added => s.(added := s.added + 1)
    case Modified => s.(modified := s.modified + 1)
    case Removed => s.(removed := s.removed + 1)
    case Unchanged => s
  }

  lemma StatsNext(count: nat, changes: seq<Change>, c: Change)
    ensures StatsOf(count, changes + [c]) == Counted(StatsOf(count, changes), c.kind)
  {
    CountLast(changes, c, Added);
    CountLast(changes, c, Modified);
    CountLast(changes, c, Removed);
  }

  /** Issues the index operation of one change. */
  method Apply(index: NoteIndex.NoteIndex, parse: Parser, c: Change)
    requires index.Valid()
    modifies index`notes, index`links, index`tags
    ensures index.Valid() && Applies(index.env, parse, old(index.Value()), c, index.Value())
  {
    match c.kind
    case Added =>
      var note := parse(c.path);
      if note.Some? {
        var _ := index.Add(note.value);
      }
    case Modified =>
      var note := parse(c.path);
      if note.Some? {
        var _ := index.Update(note.value);
      }
    case Removed =>
      var _ := index.Remove(c.path);
    case Unchanged =>
  }

  lemma ApplyNext(env: Env, parse: Parser, changes: seq<Change>, i: nat, count: nat, dbs: seq<Db>, db: Db)
    requires i < |changes| && AppliesAll(env, parse, changes[..i], dbs) && Applies(env, parse, dbs[i], changes[i], db)
    ensures AppliesAll(env, parse, changes[..i + 1], dbs + [db])
    ensures StatsOf(count, changes[..i + 1]) == Counted(StatsOf(count, changes[..i]), changes[i].kind)
  {
    assert changes[..i + 1] == changes[..i] + [changes[i]];
    StatsNext(count, changes[..i], changes[i]);
    AppliesNext(env, parse, changes[..i], dbs, changes[i], db);
  }

  /** Applies the changes in order and counts them. */
  method ApplyAll(index: NoteIndex.NoteIndex, parse: Parser, changes: seq<Change>, count: nat)
    returns (stats: Stats, ghost dbs: seq<Db>)
    requires index.Valid()
    modifies index`notes, index`links, index`tags
    ensures index.Valid() && stats == StatsOf(count, changes)
    ensures AppliesAll(index.env, parse, changes, dbs) && dbs[0] == old(index.Value())
      && dbs[|changes|] == index.Value()
  {
    dbs := [index.Value()];
    stats := Stats(count, 0, 0, 0);
    for i := 0 to |changes|
      invariant index.Valid()
      invariant AppliesAll(index.env, parse, changes[..i], dbs)
      invariant dbs[0] == old(index.Value()) && dbs[i] == index.Value()
      invariant stats == StatsOf(count, changes[..i])
    {
      Apply(index, parse, changes[i]);
      ApplyNext(index.env, parse, changes, i, count, dbs, index.Value());
      stats := Counted(stats, changes[i].kind);
      dbs := dbs + [index.Value()];
    }
    assert changes[..|changes|] == changes;
  }

  /** What stops an indexing task: reading the flag or the indexed paths, a panic once `applied`
      changes are applied, or lowering the flag. */
  datatype Failure = NoFailure | Reading | Panic(applied: nat) | Lowering

  /** The indexing task gets to its end. */
  predicate Completes(failure: Failure, needsReindexing: bool, changes: nat) {
    match failure
    case NoFailure => true
    case Reading => false
    case Panic(applied) => applied >= changes
    case Lowering => !needsReindexing
  }

  /** The tables go from `before` to `after` by the changes, through the states `dbs`. */
  ghost predicate GoesThrough(env: Env, parse: Parser, changes: seq<Change>, before: Db, after: Db, dbs: seq<Db>) {
    AppliesAll(env, parse, changes, dbs) && dbs[0] == before && dbs[|changes|] == after
  }

  /** The callback on the changes, in order; a panic leaves the rest undone. */
  method ApplyChanges(index: NoteIndex.NoteIndex, parse: Parser, changes: seq<Change>, count: nat, failure: Failure)
    returns (ok: bool, stats: Stats, ghost dbs: seq<Db>)
    requires index.Valid()
    modifies index`notes, index`links, index`tags
    ensures index.Valid() && (ok <==> !(failure.Panic? && failure.applied < |changes|))
    ensures ok ==>
      && stats == StatsOf(count, changes)
      && GoesThrough(index.env, parse, changes, old(index.Value()), index.Value(), dbs)
  {
    ok := !(failure.Panic? && failure.applied < |changes|);
    stats, dbs := ApplyAll(index, parse, if ok then changes else changes[..failure.applied], count);
  }

  /** execute: every change of the merge is applied in order, counted, and the reindexing flag is
      lowered at the end. All the files are processed again when that flag was up. */
  method Execute(index: NoteIndex.NoteIndex, parse: Parser, source: seq<Metadata>, target: seq<Metadata>, force: bool,
                 failure: Failure)
    returns (ok: bool, stats: Stats, ghost dbs: seq<Db>)
    requires index.Valid()
    modifies index
    ensures index.Valid()
    ensures ok <==> Completes(failure, old(index.needsReindexing),
      |Changes(source, target, force || old(index.needsReindexing))|)
    ensures ok ==> var changes := Changes(source, target, force || old(index.needsReindexing));
      && !index.needsReindexing && stats == StatsOf(|source|, changes)
      && GoesThrough(index.env, parse, changes, old(index.Value()), index.Value(), dbs)
    ensures ok && Ready(old(index.notes.rows), parse, source, target) ==> InSync(index.notes.rows, source)
  {
    if failure == Reading {
      return false, Stats(0, 0, 0, 0), [];
    }
    var all := force || index.needsReindexing;
    var changes, count, failed := Diff(source, target, all, _ => false);
    ok, stats, dbs := ApplyChanges(index, parse, changes, count, failure);
    if ok {
      ReadySynchronises(index.env, parse, source, target, all, old(index.Value()), index.Value(), dbs);
      if index.needsReindexing {
        if failure == Lowering {
          return false, stats, dbs;
        }
        index.needsReindexing := false;
      }
    }
  }

  lemma ReadySynchronises(env: Env, parse: Parser, source: seq<Metadata>, target: seq<Metadata>, force: bool,
                          before: Db, after: Db, dbs: seq<Db>)
    requires GoesThrough(env, parse, Changes(source, target, force), before, after, dbs) && Safe(env, before)
    ensures Ready(before.notes.rows, parse, source, target) ==> InSync(after.notes.rows, source)
  {
    if Ready(before.notes.rows, parse, source, target) {
      RunSynchronisesIff(env, parse, source, target, force, dbs);
    }
  }

  lemma AppliesNext(env: Env, parse: Parser, changes: seq<Change>, dbs: seq<Db>, c: Change, db: Db)
    requires AppliesAll(env, parse, changes, dbs) && Applies(env, parse, dbs[|changes|], c, db)
    ensures AppliesAll(env, parse, changes + [c], dbs + [db])
  {
  }
}
