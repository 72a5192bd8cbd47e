/** What the index holds of each file after a run: its text, its tags and its links, as parsed. */
module IndexedContent {
  import opened Strings
  import opened HrefMatch
  import opened IndexSpec
  import opened IndexInvariants
  import opened PathDiff
  import opened StreamOrder
  import opened Indexing

  // --- A note as it was parsed ---

  ghost predicate HasRow(t: NoteTable, n: nat, note: Note) {
    && n in t.rows && t.rows[n].path == note.path && t.rows[n].title == note.title && t.rows[n].body == note.body
    && t.rows[n].content == note.content && t.rows[n].modified == note.modified
  }

  ghost predicate HasTags(t: TagTable, n: nat, tags: seq<string>) {
    forall tag :: HasTag(t, n, tag) <==> tag in tags
  }

  /** The rows that store the link for the note, whatever its target. */
  ghost function LinkIds(t: LinkTable, n: nat, link: Link): set<nat> {
    set l | l in t.rows && t.rows[l].source == n && t.rows[l].link == link
  }

  /** Every link is stored as many times as it occurs. */
  ghost predicate HasLinks(t: LinkTable, n: nat, links: seq<Link>) {
    forall link :: |LinkIds(t, n, link)| == multiset(links)[link]
  }

  ghost predicate CurrentAt(db: Db, n: nat, note: Note) {
    HasRow(db.notes, n, note) && HasTags(db.tags, n, note.tags) && HasLinks(db.links, n, note.links)
  }

  /** The index holds the note with the text, the date, the tags and the links it was parsed with. */
  ghost predicate Current(db: Db, note: Note) {
    exists n :: CurrentAt(db, n, note)
  }

  // --- Links of a note ---

  lemma {:induction false} AddLinksGive(t: LinkTable, source: nat, links: seq<Link>, targets: seq<Option<nat>>, n: nat,
                                        link: Link)
    requires LinksBounded(t) && |links| == |targets|
    ensures |LinkIds(AddLinks(t, source, links, targets), n, link)|
         == |LinkIds(t, n, link)| + if n == source then multiset(links)[link] else 0
  {
    if links != [] {
      var k := |links| - 1;
      var d := AddLinks(t, source, links[..k], targets[..k]);
      AddLinksGive(t, source, links[..k], targets[..k], n, link);
      AddLinksEffect(t, source, links[..k], targets[..k]);
      assert links == links[..k] + [links[k]];
      AddRowGives(d, LinkRow(source, targets[k], links[k]), n, link);
    }
  }

  lemma AddRowGives(t: LinkTable, row: LinkRow, n: nat, link: Link)
    requires LinksBounded(t)
    ensures |LinkIds(LinkTable(t.rows[t.last + 1 := row], t.last + 1), n, link)|
         == |LinkIds(t, n, link)| + if row.source == n && row.link == link then 1 else 0
  {
    var d := LinkTable(t.rows[t.last + 1 := row], t.last + 1);
    if row.source == n && row.link == link {
      assert LinkIds(d, n, link) == LinkIds(t, n, link) + {t.last + 1};
    } else {
      assert LinkIds(d, n, link) == LinkIds(t, n, link);
    }
  }

  lemma RetargetKeepsLinks(notes: map<nat, NoteRow>, t: LinkTable, id: nat, path: string, n: nat, link: Link)
    ensures LinkIds(Retarget(notes, t, id, path), n, link) == LinkIds(t, n, link)
  {
  }

  lemma RemoveLinksGive(t: LinkTable, source: nat, n: nat, link: Link)
    ensures LinkIds(RemoveLinks(t, source), n, link) == if n == source then {} else LinkIds(t, n, link)
  {
  }

  lemma UnlinkNoteGives(t: LinkTable, id: nat, n: nat, link: Link)
    ensures LinkIds(UnlinkNote(t, id), n, link) == if n == id then {} else LinkIds(t, n, link)
  {
  }

  // --- One operation ---

  /** Add gives the new note its creation date and touches no other row. */
  lemma AddTouchesOneRow(db: Db, note: Note, targets: seq<Option<nat>>)
    requires NotesOk(db.notes) && |targets| == |note.links|
    ensures var d := AfterAdd(db, note, targets).notes;
      && d.last !in db.notes.rows && d.rows.Keys == db.notes.rows.Keys + {d.last}
      && d.rows[d.last].created == note.created
      && forall n | n in db.notes.rows :: d.rows[n] == db.notes.rows[n]
  {
  }

  /** Update keeps the path and the creation date of its note and touches no other row. */
  lemma UpdateTouchesOneRow(db: Db, id: nat, note: Note, targets: seq<Option<nat>>)
    requires id in db.notes.rows && |targets| == |note.links|
    ensures var d := AfterUpdate(db, id, note, targets).notes;
      && d.rows.Keys == db.notes.rows.Keys
      && d.rows[id].path == db.notes.rows[id].path && d.rows[id].created == db.notes.rows[id].created
      && forall n | n in db.notes.rows && n != id :: d.rows[n] == db.notes.rows[n]
  {
  }

  lemma RemoveTouchesOneRow(db: Db, id: nat)
    requires id in db.notes.rows
    ensures var d := AfterRemove(db, id).notes;
      d.rows.Keys == db.notes.rows.Keys - {id} && forall n | n in d.rows :: d.rows[n] == db.notes.rows[n]
  {
  }

  /** After Add the note is current under its new id; the other notes have the text, tags and links they had. */
  lemma AddMakesCurrent(db: Db, note: Note, targets: seq<Option<nat>>, n: nat, other: Note)
    requires Integrity(db) && |targets| == |note.links|
    ensures var d := AfterAdd(db, note, targets);
      CurrentAt(d, d.notes.last, note) && (CurrentAt(db, n, other) ==> CurrentAt(d, n, other))
  {
    var notes := InsertNote(db.notes, note);
    var added := AddLinks(db.links, notes.last, note.links, targets);
    AddTags(db, note, targets);
    forall k, link
      ensures |LinkIds(Retarget(notes.rows, added, notes.last, note.path), k, link)|
           == |LinkIds(db.links, k, link)| + if k == notes.last then multiset(note.links)[link] else 0
    {
      AddLinksGive(db.links, notes.last, note.links, targets, k, link);
      RetargetKeepsLinks(notes.rows, added, notes.last, note.path, k, link);
    }
    forall link ensures LinkIds(db.links, notes.last, link) == {} {
      assert forall l | l in db.links.rows :: LiveEnds(db.notes.rows, db.links.rows[l]);
    }
  }

  lemma UpdateMakesCurrent(db: Db, id: nat, note: Note, targets: seq<Option<nat>>, n: nat, other: Note)
    requires Integrity(db) && id in db.notes.rows && db.notes.rows[id].path == note.path && |targets| == |note.links|
    ensures var d := AfterUpdate(db, id, note, targets);
      CurrentAt(d, id, note) && (n != id && CurrentAt(db, n, other) ==> CurrentAt(d, n, other))
  {
    var rest := RemoveLinks(db.links, id);
    UpdateTags(db, id, note, targets);
    forall k, link
      ensures |LinkIds(AddLinks(rest, id, note.links, targets), k, link)|
           == if k == id then multiset(note.links)[link] else |LinkIds(db.links, k, link)|
    {
      RemoveLinksGive(db.links, id, k, link);
      AddLinksGive(rest, id, note.links, targets, k, link);
    }
  }

  lemma RemoveLeavesCurrent(db: Db, id: nat, n: nat, other: Note)
    requires Integrity(db) && id in db.notes.rows && n != id && CurrentAt(db, n, other)
    ensures CurrentAt(AfterRemove(db, id), n, other)
  {
    RemoveAssociationsEffect(db.tags, id);
    forall link ensures LinkIds(UnlinkNote(db.links, id), n, link) == LinkIds(db.links, n, link) {
      UnlinkNoteGives(db.links, id, n, link);
    }
  }

  function OpPath(op: Op): string {
    if op.Remove? then op.path else op.note.path
  }

  /** An Add or an Update that does not fail makes its note current. */
  lemma StepMakesCurrent(env: Env, db: Db, op: Op, db': Db)
    requires Safe(env, db) && Step(env, db, op, db') && !op.Remove?
    requires op.Add? <==> !Indexed(db.notes.rows, op.note.path)
    ensures Current(db', op.note)
  {
    var note := op.note;
    if op.Add? {
      var targets :| ResolvesAll(env, InsertNote(db.notes, note).rows, note.links, targets)
        && db' == AfterAdd(db, note, targets);
      AddMakesCurrent(db, note, targets, 0, note);
    } else {
      var id, targets :| id in db.notes.rows && db.notes.rows[id].path == note.path
        && ResolvesAll(env, UpdateNote(db.notes, id, note).rows, note.links, targets)
        && db' == AfterUpdate(db, id, note, targets);
      UpdateMakesCurrent(db, id, note, targets, id, note);
    }
  }

  /** An operation on another path leaves a current note current. */
  lemma StepLeavesCurrent(env: Env, db: Db, op: Op, db': Db, other: Note)
    requires Safe(env, db) && Step(env, db, op, db') && Current(db, other) && OpPath(op) != other.path
    ensures Current(db', other)
  {
    var n :| CurrentAt(db, n, other);
    match op
    case Add(note) =>
      if !Indexed(db.notes.rows, note.path) {
        var targets :| ResolvesAll(env, InsertNote(db.notes, note).rows, note.links, targets)
          && db' == AfterAdd(db, note, targets);
        AddMakesCurrent(db, note, targets, n, other);
      }
    case Update(note) =>
      if Indexed(db.notes.rows, note.path) {
        var id, targets :| id in db.notes.rows && db.notes.rows[id].path == note.path
          && ResolvesAll(env, UpdateNote(db.notes, id, note).rows, note.links, targets)
          && db' == AfterUpdate(db, id, note, targets);
        UpdateMakesCurrent(db, id, note, targets, n, other);
      }
    case Remove(path) =>
      if Indexed(db.notes.rows, path) {
        var id :| id in db.notes.rows && db.notes.rows[id].path == path && db' == AfterRemove(db, id);
        RemoveLeavesCurrent(db, id, n, other);
      }
  }

  // --- A run ---

  /** The operation of a change acts on the path of the change. */
  ghost predicate OwnPath(parse: Parser, c: Change) {
    OpOf(parse, c).Some? ==> OpPath(OpOf(parse, c).value) == c.path
  }

  lemma AppliesRest(env: Env, parse: Parser, changes: seq<Change>, dbs: seq<Db>)
    requires AppliesAll(env, parse, changes, dbs) && changes != []
    ensures Applies(env, parse, dbs[0], changes[0], dbs[1]) && AppliesAll(env, parse, changes[1..], dbs[1..])
  {
    assert Applies(env, parse, dbs[0], changes[0], dbs[0 + 1]);
    forall i | 0 <= i < |changes[1..]| ensures Applies(env, parse, dbs[1..][i], changes[1..][i], dbs[1..][i + 1]) {
      assert Applies(env, parse, dbs[i + 1], changes[i + 1], dbs[i + 1 + 1]);
    }
  }

  lemma {:induction false} RunLeavesCurrent(env: Env, parse: Parser, changes: seq<Change>, dbs: seq<Db>, note: Note)
    requires AppliesAll(env, parse, changes, dbs) && Safe(env, dbs[0]) && Current(dbs[0], note)
    requires forall c | c in changes :: OwnPath(parse, c) && c.path != note.path
    ensures Current(dbs[|changes|], note)
  {
    if changes != [] {
      AppliesRest(env, parse, changes, dbs);
      assert changes[0] in changes;
      var op := OpOf(parse, changes[0]);
      if op.Some? {
        StepKeeps(env, dbs[0], op.value, dbs[1]);
        StepLeavesCurrent(env, dbs[0], op.value, dbs[1], note);
      }
      RunLeavesCurrent(env, parse, changes[1..], dbs[1..], note);
    }
  }

  /** The paths of the changes of a merge are those of its streams. */
  lemma {:induction false} ChangesAreOfStreams(source: seq<Metadata>, target: seq<Metadata>, force: bool, c: Change)
    requires c in Changes(source, target, force)
    ensures (c.kind != Removed ==> Has(source, c.path)) && (Has(source, c.path) || Has(target, c.path))
    decreases |source| + |target|
  {
    var head := HeadChange(First(source), First(target), force).value;
    var s, t := SourceAfter(source, head.kind), TargetAfter(target, head.kind);
    HeadAndRest(source, target, force, head, c.path);
    if c != head {
      ChangesAreOfStreams(s, t, force, c);
    }
  }

  lemma ChangesOwnTheirPath(source: seq<Metadata>, target: seq<Metadata>, force: bool, parse: Parser, c: Change)
    requires ParsesAll(parse, source) && c in Changes(source, target, force)
    ensures OwnPath(parse, c)
  {
    ChangesAreOfStreams(source, target, force, c);
  }

  /** The index while the streams are merged: `i` and `j` files have been taken from them. */
  ghost predicate Underway(env: Env, parse: Parser, source: seq<Metadata>, target: seq<Metadata>, i: nat, j: nat,
                           db: Db) {
    && DistinctPaths(source) && DistinctPaths(target) && ParsesAll(parse, source)
    && i <= |source| && j <= |target|
    && Safe(env, db) && Midway(source, target, i, j, View(db.notes.rows))
  }

  /** The change of the heads is applied as reported and leaves the index underway. */
  lemma FirstChange(env: Env, parse: Parser, source: seq<Metadata>, target: seq<Metadata>, force: bool, i: nat, j: nat,
                    c: Change, db: Db, db': Db)
    requires Underway(env, parse, source, target, i, j, db)
      && HeadChange(First(source[i..]), First(target[j..]), force) == Some(c)
    requires !(c.kind == Added && Has(target[j..], c.path)) && Applies(env, parse, db, c, db')
    ensures Underway(env, parse, source, target, SourceNext(i, c.kind), TargetNext(j, c.kind), db')
  {
    SynchroniseStep(source, target, force, parse, i, j, View(db.notes.rows), c);
    ChangeView(env, parse, c, db, db');
  }

  lemma ChangeView(env: Env, parse: Parser, c: Change, db: Db, db': Db)
    requires Safe(env, db) && Applies(env, parse, db, c, db')
    ensures Safe(env, db') && View(db'.notes.rows) == ViewAfterChange(View(db.notes.rows), parse, c)
  {
    var op := OpOf(parse, c);
    if op.Some? {
      StepKeeps(env, db, op.value, db');
      StepView(env, db, op.value, db');
    }
  }

  /** A file added or modified is current right after. */
  lemma FirstIsCurrent(env: Env, parse: Parser, source: seq<Metadata>, target: seq<Metadata>, force: bool, i: nat,
                       j: nat, c: Change, db: Db, db': Db)
    requires Underway(env, parse, source, target, i, j, db)
      && HeadChange(First(source[i..]), First(target[j..]), force) == Some(c)
    requires !(c.kind == Added && Has(target[j..], c.path)) && Applies(env, parse, db, c, db')
      && (c.kind == Added || c.kind == Modified)
    ensures parse(c.path).Some? && Current(db', parse(c.path).value)
  {
    HeadOfRest(source, target, force, i, j, c);
    assert source[i] in source;
    IndexedWhenModified(source, target, i, j, db.notes, c);
    StepMakesCurrent(env, db, OpOf(parse, c).value, db');
  }

  lemma IndexedWhenModified(source: seq<Metadata>, target: seq<Metadata>, i: nat, j: nat, t: NoteTable, c: Change)
    requires NotesOk(t) && DistinctPaths(source) && i < |source| && j <= |target| && source[i].path == c.path
    requires Midway(source, target, i, j, View(t.rows)) && (c.kind == Added || c.kind == Modified)
    requires c.kind == Added ==> !Has(target[j..], c.path)
    requires c.kind == Modified ==> j < |target| && target[j].path == c.path
    ensures c.kind == Added <==> !Indexed(t.rows, c.path)
  {
    ViewIs(t);
    if c.kind == Added {
      MidwayAdded(source, target, i, j, View(t.rows));
    } else {
      assert target[j].path in View(t.rows);
    }
  }

  /** What is left of the streams does not report a file already merged again. */
  lemma NotReportedAgain(source: seq<Metadata>, target: seq<Metadata>, force: bool, c: Change, x: Change)
    requires DistinctPaths(source) && DistinctPaths(target)
      && HeadChange(First(source), First(target), force) == Some(c)
    requires c.kind != Removed && !(c.kind == Added && Has(target, c.path))
    requires x in Changes(SourceAfter(source, c.kind), TargetAfter(target, c.kind), force)
    ensures x.path != c.path
  {
    var s, t := SourceAfter(source, c.kind), TargetAfter(target, c.kind);
    ChangesAreOfStreams(s, t, force, x);
    if Has(s, x.path) {
      var k :| 0 <= k < |s| && s[k].path == x.path;
      assert s[k] == source[k + 1];
    }
    if Has(t, x.path) && c.kind != Added {
      var k :| 0 <= k < |t| && t[k].path == x.path;
      assert t[k] == target[k + 1];
    }
  }

  /** A file added or modified first stays current to the end of the run. */
  lemma HeadStaysCurrent(env: Env, parse: Parser, source: seq<Metadata>, target: seq<Metadata>, force: bool, c: Change,
                         dbs: seq<Db>, last: Db, note: Note)
    requires DistinctPaths(source) && DistinctPaths(target) && ParsesAll(parse, source)
    requires HeadChange(First(source), First(target), force) == Some(c) && c.kind != Removed
      && !(c.kind == Added && Has(target, c.path))
    requires AppliesAll(env, parse, Changes(SourceAfter(source, c.kind), TargetAfter(target, c.kind), force), dbs)
    requires Safe(env, dbs[0]) && Current(dbs[0], note) && note.path == c.path && last == dbs[|dbs| - 1]
    ensures Current(last, note)
  {
    var rest := Changes(SourceAfter(source, c.kind), TargetAfter(target, c.kind), force);
    forall x | x in rest ensures OwnPath(parse, x) && x.path != note.path {
      ChangesOwnTheirPath(SourceAfter(source, c.kind), TargetAfter(target, c.kind), force, parse, x);
      NotReportedAgain(source, target, force, c, x);
    }
    RunLeavesCurrent(env, parse, rest, dbs, note);
  }

  /** A run from where the streams stand: never adding what is indexed, it goes through the changes left. */
  ghost predicate RunFrom(env: Env, parse: Parser, source: seq<Metadata>, target: seq<Metadata>, force: bool, i: nat,
                          j: nat, dbs: seq<Db>) {
    && i <= |source| && j <= |target| && !AddsIndexed(source[i..], target[j..], force)
    && AppliesAll(env, parse, Changes(source[i..], target[j..], force), dbs)
    && Underway(env, parse, source, target, i, j, dbs[0])
  }

  /** The rest of a run once its first change is applied. */
  lemma RestOfRun(env: Env, parse: Parser, source: seq<Metadata>, target: seq<Metadata>, force: bool, i: nat, j: nat,
                  dbs: seq<Db>, c: Change)
    requires RunFrom(env, parse, source, target, force, i, j, dbs)
      && HeadChange(First(source[i..]), First(target[j..]), force) == Some(c)
    ensures RunFrom(env, parse, source, target, force, SourceNext(i, c.kind), TargetNext(j, c.kind), dbs[1..])
    ensures Applies(env, parse, dbs[0], c, dbs[1]) && !(c.kind == Added && Has(target[j..], c.path))
    ensures dbs[1..][|dbs[1..]| - 1] == dbs[|dbs| - 1]
    ensures Changes(source[i..], target[j..], force) == [c]
      + Changes(source[SourceNext(i, c.kind)..], target[TargetNext(j, c.kind)..], force)
  {
    HeadOfRest(source, target, force, i, j, c);
    AppliesRest(env, parse, Changes(source[i..], target[j..], force), dbs);
    FirstChange(env, parse, source, target, force, i, j, c, dbs[0], dbs[1]);
  }

  /** A file added or modified by the first change is current at the end of the run. */
  lemma FirstEndsCurrent(env: Env, parse: Parser, source: seq<Metadata>, target: seq<Metadata>, force: bool, i: nat,
                         j: nat, dbs: seq<Db>, c: Change,
                         last: Db)
    requires RunFrom(env, parse, source, target, force, i, j, dbs)
      && HeadChange(First(source[i..]), First(target[j..]), force) == Some(c)
    requires (c.kind == Added || c.kind == Modified) && last == dbs[|dbs| - 1]
    ensures parse(c.path).Some? && Current(last, parse(c.path).value)
  {
    RestOfRun(env, parse, source, target, force, i, j, dbs, c);
    FirstIsCurrent(env, parse, source, target, force, i, j, c, dbs[0], dbs[1]);
    HeadOfRest(source, target, force, i, j, c);
    DistinctRests(source, target, i, j);
    assert source[i] in source;
    HeadStaysCurrent(env, parse, source[i..], target[j..], force, c, dbs[1..], last, parse(c.path).value);
  }

  lemma {:induction false} RunMakesCurrentFrom(env: Env, parse: Parser, source: seq<Metadata>, target: seq<Metadata>,
                                               force: bool,
                                               i: nat, j: nat, dbs: seq<Db>, c: Change, last: Db)
    requires RunFrom(env, parse, source, target, force, i, j, dbs) && last == dbs[|dbs| - 1]
    requires c in Changes(source[i..], target[j..], force) && (c.kind == Added || c.kind == Modified)
    ensures parse(c.path).Some? && Current(last, parse(c.path).value)
    decreases |source| + |target| - i - j
  {
    var head := HeadChange(First(source[i..]), First(target[j..]), force).value;
    if c == head {
      FirstEndsCurrent(env, parse, source, target, force, i, j, dbs, c, last);
    } else {
      RestOfRun(env, parse, source, target, force, i, j, dbs, head);
      RunMakesCurrentFrom(env, parse, source, target, force, SourceNext(i, head.kind), TargetNext(j, head.kind),
        dbs[1..], c, last);
    }
  }

  lemma DistinctRests(source: seq<Metadata>, target: seq<Metadata>, i: nat, j: nat)
    requires DistinctPaths(source) && DistinctPaths(target) && i <= |source| && j <= |target|
    ensures DistinctPaths(source[i..]) && DistinctPaths(target[j..])
  {
  }

  /** After a run that synchronises, every file it added or updated is indexed with the text, the
      date, the tags and the links it was parsed with. */
  lemma RunMakesCurrent(env: Env, parse: Parser, source: seq<Metadata>, target: seq<Metadata>, force: bool,
                        dbs: seq<Db>, c: Change)
    requires AppliesAll(env, parse, Changes(source, target, force), dbs)
    requires Safe(env, dbs[0]) && Ready(dbs[0].notes.rows, parse, source, target)
    requires c in Changes(source, target, force) && (c.kind == Added || c.kind == Modified)
    ensures parse(c.path).Some? && Current(dbs[|dbs| - 1], parse(c.path).value)
  {
    AddsIndexedIff(source, target, force);
    MidwayStart(dbs[0].notes, source, target);
    assert source[0..] == source && target[0..] == target;
    RunMakesCurrentFrom(env, parse, source, target, force, 0, 0, dbs, c, dbs[|dbs| - 1]);
  }

  /** A forced merge reports every source file as added or modified. */
  lemma {:induction false} ForcedReportsAll(source: seq<Metadata>, target: seq<Metadata>, m: Metadata)
    requires m in source
    ensures exists c | c in Changes(source, target, true) :: c.path == m.path && (c.kind == Added || c.kind == Modified)
    decreases |source| + |target|
  {
    var c := HeadChange(First(source), First(target), true).value;
    var s, t := SourceAfter(source, c.kind), TargetAfter(target, c.kind);
    assert c in Changes(source, target, true);
    if c.kind == Removed || source[0] != m {
      ForcedReportsAll(s, t, m);
      var x :| x in Changes(s, t, true) && x.path == m.path && (x.kind == Added || x.kind == Modified);
      assert x in Changes(source, target, true);
    }
  }

  /** After a forced run that synchronises, every file is indexed as it was parsed. */
  lemma ForcedRunMakesAllCurrent(env: Env, parse: Parser, source: seq<Metadata>, target: seq<Metadata>, dbs: seq<Db>)
    requires AppliesAll(env, parse, Changes(source, target, true), dbs)
    requires Safe(env, dbs[0]) && Ready(dbs[0].notes.rows, parse, source, target)
    ensures forall m | m in source :: parse(m.path).Some? && Current(dbs[|dbs| - 1], parse(m.path).value)
  {
    forall m | m in source ensures parse(m.path).Some? && Current(dbs[|dbs| - 1], parse(m.path).value) {
      ForcedReportsAll(source, target, m);
      var c :| c in Changes(source, target, true) && c.path == m.path && (c.kind == Added || c.kind == Modified);
      RunMakesCurrent(env, parse, source, target, true, dbs, c);
    }
  }
}
