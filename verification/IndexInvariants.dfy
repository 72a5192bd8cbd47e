/** What every run of index operations keeps: the integrity of the tables, the targets of
    links, the tags of notes and the full-text mirror. */
module IndexInvariants {
  import opened Strings
  import opened HrefMatch
  import opened IndexSpec

  // --- Integrity of the tables ---

  /** Ids come from the sequence, paths are unique, the sortable path follows the path. */
  ghost predicate NotesOk(t: NoteTable) {
    && (forall n | n in t.rows :: 0 < n <= t.last && t.rows[n].sortablePath == SortablePath(t.rows[n].path))
    && (forall m, n | m in t.rows && n in t.rows && t.rows[m].path == t.rows[n].path :: m == n)
  }

  /** The full-text table holds (id, path, title, body) of every note once, and nothing else. */
  ghost predicate FtsOk(t: NoteTable) {
    forall row: FtsRow :: t.fts[row] == if row.id in t.rows && Mirrors(row, t.rows[row.id]) then 1 else 0
  }

  predicate Mirrors(row: FtsRow, note: NoteRow) {
    row.path == note.path && row.title == note.title && row.body == note.body
  }

  ghost predicate LinksBounded(t: LinkTable) {
    forall l | l in t.rows :: 0 < l <= t.last
  }

  /** The link has a live source, and a live target if any. */
  predicate LiveEnds(notes: map<nat, NoteRow>, row: LinkRow) {
    row.source in notes && (row.target.Some? ==> row.target.value in notes)
  }

  ghost predicate LinksOk(notes: map<nat, NoteRow>, t: LinkTable) {
    LinksBounded(t) && forall l | l in t.rows :: LiveEnds(notes, t.rows[l])
  }

  ghost predicate CollectionsOk(t: TagTable) {
    && (forall c | c in t.collections :: 0 < c <= t.lastCollection)
    && (forall c, d | c in t.collections && d in t.collections && t.collections[c] == t.collections[d] :: c == d)
  }

  /** Both ends of an association are live and no (note, collection) pair is stored twice, although
      the schema only indexes that pair. */
  ghost predicate AssociationsOk(t: TagTable) {
    && (forall a | a in t.associations :: 0 < a <= t.lastAssociation && t.associations[a].collection in t.collections)
    && (forall a, b | a in t.associations && b in t.associations && t.associations[a] == t.associations[b] :: a == b)
  }

  ghost predicate TaggedNotesLive(notes: map<nat, NoteRow>, t: TagTable) {
    forall a | a in t.associations :: t.associations[a].note in notes
  }

  ghost predicate TagsOk(notes: map<nat, NoteRow>, t: TagTable) {
    CollectionsOk(t) && AssociationsOk(t) && TaggedNotesLive(notes, t)
  }

  ghost predicate Integrity(db: Db) {
    NotesOk(db.notes) && FtsOk(db.notes) && LinksOk(db.notes.rows, db.links) && TagsOk(db.notes.rows, db.tags)
  }

  // --- Targets of links ---

  /** Resolution can give the path to the link: through the href made relative to the root, or
      through the href itself. */
  predicate Designates(env: Env, link: Link, path: string) {
    (env.rel(link.href).Some? && StrictMatch(StripAnchor(env.rel(link.href).value), path)) || HrefMatches(link, path)
  }

  /** The href names something once its anchor is removed, and is already relative to the root
      (or could not be made so). */
  predicate Usable(env: Env, link: Link) {
    StripAnchor(link.href) != "" && (env.rel(link.href) == None || env.rel(link.href) == Some(link.href))
  }

  lemma UsableDesignates(env: Env, link: Link, path: string)
    requires Usable(env, link)
    ensures Designates(env, link, path) <==> LinkMatches(link, path)
  {
  }

  /** A target is a note the href designates, and an external link to a URL has none. */
  ghost predicate TargetOk(env: Env, notes: map<nat, NoteRow>, row: LinkRow) {
    row.target.Some? && row.target.value in notes ==>
      && Designates(env, row.link, notes[row.target.value].path)
      && (row.link.external ==> !env.isUrl(row.link.href))
  }

  ghost predicate TargetsOk(env: Env, notes: map<nat, NoteRow>, t: LinkTable) {
    forall l | l in t.rows :: TargetOk(env, notes, t.rows[l])
  }

  /** Links whose target resolution looks at the notes. */
  predicate Internal(env: Env, link: Link) {
    !link.external && !env.isUrl(link.href)
  }

  /** A link without target matches no path, and a target is designated by its href. For usable hrefs,
      where the two are the same, the target of a link that is not a wiki link is also a match of
      least path length. */
  ghost predicate OptimalTarget(env: Env, notes: map<nat, NoteRow>, row: LinkRow) {
    && (row.target.None? ==> forall n | n in notes :: !LinkMatches(row.link, notes[n].path))
    && (row.target.Some? ==>
          && row.target.value in notes && Designates(env, row.link, notes[row.target.value].path)
          && (Usable(env, row.link) && row.link.kind != WikiLink ==>
                forall n | n in notes && LinkMatches(row.link, notes[n].path) ::
                  |notes[row.target.value].path| <= |notes[n].path|))
  }

  ghost predicate Optimal(env: Env, notes: map<nat, NoteRow>, t: LinkTable) {
    forall l | l in t.rows && Internal(env, t.rows[l].link) :: OptimalTarget(env, notes, t.rows[l])
  }

  /** Resolving a link from scratch gives an optimal target. */
  lemma ResolveIsOptimal(env: Env, notes: map<nat, NoteRow>, row: LinkRow)
    requires Internal(env, row.link) && Resolves(env, notes, row.link, row.target)
    ensures OptimalTarget(env, notes, row)
  {
  }

  lemma ResolveIsOk(env: Env, notes: map<nat, NoteRow>, row: LinkRow)
    requires Resolves(env, notes, row.link, row.target)
    ensures TargetOk(env, notes, row) && (row.target.Some? ==> row.target.value in notes)
  {
  }

  /** A row that is optimal for all notes, or for all notes but the new one, is optimal for all
      of them once re-targeted. */
  lemma RetargetIsOptimal(env: Env, notes: map<nat, NoteRow>, row: LinkRow, id: nat)
    requires !row.link.external && id in notes
    requires OptimalTarget(env, notes, row) || OptimalTarget(env, notes - {id}, row)
    ensures OptimalTarget(env, notes, RetargetRow(notes, row, id, notes[id].path))
  {
    var path := notes[id].path;
    var row' := RetargetRow(notes, row, id, path);
    assert forall n | n in notes :: n == id || n in notes - {id};
    if row.target.Some? && Usable(env, row.link) {
      UsableDesignates(env, row.link, TargetPath(notes, row));
    }
  }

  // --- Links of an added or updated note ---

  lemma {:induction false} AddLinksEffect(t: LinkTable, source: nat, links: seq<Link>, targets: seq<Option<nat>>)
    requires |links| == |targets| && LinksBounded(t)
    ensures var d := AddLinks(t, source, links, targets);
      && d.last == t.last + |links| && LinksBounded(d)
      && (forall l | l in t.rows :: l in d.rows && d.rows[l] == t.rows[l])
      && (forall l | l in d.rows && l !in t.rows ::
            t.last < l && d.rows[l] == LinkRow(source, targets[l - t.last - 1], links[l - t.last - 1]))
      && (forall l | t.last < l <= d.last :: l in d.rows)
  {
    if links != [] {
      AddLinksEffect(t, source, links[..|links| - 1], targets[..|links| - 1]);
    }
  }

  /** Inserting resolved links keeps what holds of every row. */
  lemma AddLinksKeep(env: Env, notes: map<nat, NoteRow>, t: LinkTable, source: nat, links: seq<Link>,
                     targets: seq<Option<nat>>)
    requires ResolvesAll(env, notes, links, targets) && source in notes
    requires LinksOk(notes, t) && TargetsOk(env, notes, t)
    ensures var d := AddLinks(t, source, links, targets); LinksOk(notes, d) && TargetsOk(env, notes, d)
  {
    var d := AddLinks(t, source, links, targets);
    AddLinksEffect(t, source, links, targets);
    forall l | l in d.rows ensures LiveEnds(notes, d.rows[l]) && TargetOk(env, notes, d.rows[l]) {
      if l in t.rows {
        assert d.rows[l] == t.rows[l];
      } else {
        ResolveIsOk(env, notes, d.rows[l]);
      }
    }
  }

  lemma AddedRowsOptimal(env: Env, notes: map<nat, NoteRow>, t: LinkTable, source: nat, links: seq<Link>,
                         targets: seq<Option<nat>>)
    requires ResolvesAll(env, notes, links, targets) && LinksBounded(t)
    ensures var d := AddLinks(t, source, links, targets);
      forall l | l in d.rows && l !in t.rows && Internal(env, d.rows[l].link) :: OptimalTarget(env, notes, d.rows[l])
  {
    var d := AddLinks(t, source, links, targets);
    AddLinksEffect(t, source, links, targets);
    forall l | l in d.rows && l !in t.rows && Internal(env, d.rows[l].link)
      ensures OptimalTarget(env, notes, d.rows[l])
    {
      ResolveIsOptimal(env, notes, d.rows[l]);
    }
  }

  lemma RetargetKeeps(env: Env, notes: map<nat, NoteRow>, t: LinkTable, id: nat)
    requires LinksOk(notes, t) && TargetsOk(env, notes, t) && id in notes
    ensures var d := Retarget(notes, t, id, notes[id].path); LinksOk(notes, d) && TargetsOk(env, notes, d)
  {
  }

  /** Adding a note: its own links and the re-targeted ones. */
  lemma AddKeepsLinks(env: Env, db: Db, note: Note, targets: seq<Option<nat>>)
    requires NotesOk(db.notes) && LinksOk(db.notes.rows, db.links) && TargetsOk(env, db.notes.rows, db.links)
    requires ResolvesAll(env, InsertNote(db.notes, note).rows, note.links, targets)
    ensures var d := AfterAdd(db, note, targets);
      LinksOk(d.notes.rows, d.links) && TargetsOk(env, d.notes.rows, d.links)
  {
    var notes := InsertNote(db.notes, note);
    forall l | l in db.links.rows
      ensures LiveEnds(notes.rows, db.links.rows[l]) && TargetOk(env, notes.rows, db.links.rows[l])
    {
      assert LiveEnds(db.notes.rows, db.links.rows[l]) && TargetOk(env, db.notes.rows, db.links.rows[l]);
    }
    AddLinksKeep(env, notes.rows, db.links, notes.last, note.links, targets);
    RetargetKeeps(env, notes.rows, AddLinks(db.links, notes.last, note.links, targets), notes.last);
  }

  /** Re-targeting after an insertion gives the targets a resolution from scratch would give, up to
      the choice between matches of equal length. */
  lemma AddKeepsOptimal(env: Env, db: Db, note: Note, targets: seq<Option<nat>>)
    requires NotesOk(db.notes) && LinksOk(db.notes.rows, db.links) && Optimal(env, db.notes.rows, db.links)
    requires ResolvesAll(env, InsertNote(db.notes, note).rows, note.links, targets)
    ensures var d := AfterAdd(db, note, targets); Optimal(env, d.notes.rows, d.links)
  {
    var notes := InsertNote(db.notes, note);
    var id := notes.last;
    var added := AddLinks(db.links, id, note.links, targets);
    var d := Retarget(notes.rows, added, id, note.path);
    AddLinksEffect(db.links, id, note.links, targets);
    AddedRowsOptimal(env, notes.rows, db.links, id, note.links, targets);
    assert notes.rows - {id} == db.notes.rows;
    forall l | l in d.rows && Internal(env, d.rows[l].link) ensures OptimalTarget(env, notes.rows, d.rows[l]) {
      var row := added.rows[l];
      assert d.rows[l] == RetargetRow(notes.rows, row, id, note.path);
      assert l in db.links.rows ==> row == db.links.rows[l] && OptimalTarget(env, db.notes.rows, row);
      RetargetIsOptimal(env, notes.rows, row, id);
    }
  }

  /** Update changes no path, so the links of the other notes keep their matches. */
  lemma UpdateKeepsLinks(env: Env, db: Db, id: nat, note: Note, targets: seq<Option<nat>>)
    requires LinksOk(db.notes.rows, db.links) && TargetsOk(env, db.notes.rows, db.links) && id in db.notes.rows
    requires ResolvesAll(env, UpdateNote(db.notes, id, note).rows, note.links, targets)
    ensures var d := AfterUpdate(db, id, note, targets);
      LinksOk(d.notes.rows, d.links) && TargetsOk(env, d.notes.rows, d.links)
  {
    var notes := UpdateNote(db.notes, id, note).rows;
    var rest := RemoveLinks(db.links, id);
    forall l | l in rest.rows ensures LiveEnds(notes, rest.rows[l]) && TargetOk(env, notes, rest.rows[l]) {
      assert rest.rows[l] == db.links.rows[l];
      assert LiveEnds(db.notes.rows, db.links.rows[l]) && TargetOk(env, db.notes.rows, db.links.rows[l]);
    }
    AddLinksKeep(env, notes, rest, id, note.links, targets);
  }

  lemma UpdateKeepsOptimal(env: Env, db: Db, id: nat, note: Note, targets: seq<Option<nat>>)
    requires LinksOk(db.notes.rows, db.links) && Optimal(env, db.notes.rows, db.links) && id in db.notes.rows
    requires ResolvesAll(env, UpdateNote(db.notes, id, note).rows, note.links, targets)
    ensures var d := AfterUpdate(db, id, note, targets); Optimal(env, d.notes.rows, d.links)
  {
    var notes := UpdateNote(db.notes, id, note).rows;
    var rest := RemoveLinks(db.links, id);
    var d := AddLinks(rest, id, note.links, targets);
    assert LinksBounded(rest);
    AddLinksEffect(rest, id, note.links, targets);
    AddedRowsOptimal(env, notes, rest, id, note.links, targets);
    forall l | l in d.rows && Internal(env, d.rows[l].link) ensures OptimalTarget(env, notes, d.rows[l]) {
      if l in rest.rows {
        assert d.rows[l] == db.links.rows[l];
        SamePathsOptimal(env, db.notes.rows, notes, d.rows[l]);
      }
    }
  }

  lemma SamePathsOptimal(env: Env, before: map<nat, NoteRow>, after: map<nat, NoteRow>, row: LinkRow)
    requires before.Keys == after.Keys && forall n | n in before :: before[n].path == after[n].path
    requires OptimalTarget(env, before, row)
    ensures OptimalTarget(env, after, row)
  {
  }

  lemma RemoveKeepsLinks(env: Env, db: Db, id: nat)
    requires LinksOk(db.notes.rows, db.links) && TargetsOk(env, db.notes.rows, db.links) && id in db.notes.rows
    ensures var d := AfterRemove(db, id); LinksOk(d.notes.rows, d.links) && TargetsOk(env, d.notes.rows, d.links)
  {
  }

  // --- Notes and full-text rows ---

  lemma InsertKeepsNotes(t: NoteTable, note: Note)
    requires NotesOk(t) && FtsOk(t) && !Indexed(t.rows, note.path)
    ensures var d := InsertNote(t, note); NotesOk(d) && FtsOk(d) && d.last !in t.rows
  {
    var d := InsertNote(t, note);
    forall m, n | m in d.rows && n in d.rows && d.rows[m].path == d.rows[n].path ensures m == n {
      if m in t.rows && n in t.rows {
        assert t.rows[m].path == t.rows[n].path;
      }
    }
  }

  lemma UpdateKeepsPaths(t: NoteTable, id: nat, note: Note)
    requires NotesOk(t) && id in t.rows
    ensures NotesOk(UpdateNote(t, id, note))
  {
  }

  lemma UpdateKeepsNotes(t: NoteTable, id: nat, note: Note)
    requires NotesOk(t) && FtsOk(t) && id in t.rows
    ensures var d := UpdateNote(t, id, note); NotesOk(d) && FtsOk(d)
  {
    UpdateKeepsPaths(t, id, note);
    assert t.fts[FtsOf(id, t.rows[id])] == 1;
  }

  lemma DeleteKeepsNotes(t: NoteTable, id: nat)
    requires NotesOk(t) && FtsOk(t) && id in t.rows
    ensures var d := DeleteNote(t, id); NotesOk(d) && FtsOk(d)
  {
  }

  // --- Tags ---

  ghost predicate HasTag(t: TagTable, n: nat, tag: string) {
    exists c | c in t.collections :: t.collections[c].name == tag && Associated(t, Association(n, c))
  }

  /** A new collection without association changes no tag. */
  lemma NewCollectionKeepsTags(t: TagTable, d: TagTable, n: nat, tag: string)
    requires AssociationsOk(t) && d.associations == t.associations
    requires forall k | k in t.collections :: k in d.collections && d.collections[k] == t.collections[k]
    ensures HasTag(d, n, tag) <==> HasTag(t, n, tag)
  {
  }

  lemma EnsureCollectionEffect(t: TagTable, c: Collection)
    requires CollectionsOk(t) && AssociationsOk(t)
    ensures var d := EnsureCollection(t, c);
      && CollectionsOk(d) && AssociationsOk(d) && d.associations == t.associations
      && CollectionId(t, c) in d.collections && d.collections[CollectionId(t, c)] == c
      && forall n, tag :: HasTag(d, n, tag) <==> HasTag(t, n, tag)
  {
    var d := EnsureCollection(t, c);
    forall n, tag ensures HasTag(d, n, tag) <==> HasTag(t, n, tag) {
      NewCollectionKeepsTags(t, d, n, tag);
    }
  }

  lemma AssociateEffect(t: TagTable, a: Association)
    requires CollectionsOk(t) && AssociationsOk(t) && a.collection in t.collections
    ensures var d := Associate(t, a);
      && CollectionsOk(d) && AssociationsOk(d) && d.collections == t.collections
      && forall b :: Associated(d, b) <==> Associated(t, b) || b == a
  {
    var d := Associate(t, a);
    forall b ensures Associated(d, b) <==> Associated(t, b) || b == a {
      if k :| k in t.associations && t.associations[k] == b {
        assert d.associations[k] == b;
      }
      if !Associated(t, a) {
        assert d.associations[d.lastAssociation] == a;
      }
    }
  }

  lemma TagNoteEffect(t: TagTable, id: nat, tag: string)
    requires CollectionsOk(t) && AssociationsOk(t)
    ensures var d := TagNote(t, id, tag);
      && CollectionsOk(d) && AssociationsOk(d)
      && forall n, g :: HasTag(d, n, g) <==> HasTag(t, n, g) || (n == id && g == tag)
  {
    var c := Collection(Tag, tag);
    var e, k := EnsureCollection(t, c), CollectionId(t, c);
    var d := TagNote(t, id, tag);
    EnsureCollectionEffect(t, c);
    AssociateEffect(e, Association(id, k));
    forall n, g ensures HasTag(d, n, g) <==> HasTag(e, n, g) || (n == id && g == tag) {
      if x :| x in d.collections && d.collections[x].name == g && Associated(d, Association(n, x)) {
        assert Associated(e, Association(n, x)) || (n == id && x == k);
      }
      if x :| x in e.collections && e.collections[x].name == g && Associated(e, Association(n, x)) {
        assert x in d.collections && Associated(d, Association(n, x));
      }
      if n == id && g == tag {
        assert k in d.collections && Associated(d, Association(id, k));
      }
    }
  }

  lemma {:induction false} AssociateTagsEffect(t: TagTable, id: nat, tags: seq<string>)
    requires CollectionsOk(t) && AssociationsOk(t)
    ensures var d := AssociateTags(t, id, tags);
      && CollectionsOk(d) && AssociationsOk(d)
      && forall n, g :: HasTag(d, n, g) <==> HasTag(t, n, g) || (n == id && g in tags)
  {
    if tags != [] {
      var front, last := tags[..|tags| - 1], tags[|tags| - 1];
      assert tags == front + [last];
      AssociateTagsEffect(t, id, front);
      TagNoteEffect(AssociateTags(t, id, front), id, last);
    }
  }

  lemma {:induction false} AssociateTagsLive(notes: map<nat, NoteRow>, t: TagTable, id: nat, tags: seq<string>)
    requires TaggedNotesLive(notes, t) && id in notes
    ensures TaggedNotesLive(notes, AssociateTags(t, id, tags))
  {
    if tags != [] {
      AssociateTagsLive(notes, t, id, tags[..|tags| - 1]);
    }
  }

  lemma RemoveAssociationsEffect(t: TagTable, id: nat)
    requires CollectionsOk(t) && AssociationsOk(t)
    ensures var d := RemoveAssociations(t, id);
      && CollectionsOk(d) && AssociationsOk(d)
      && forall n, g :: HasTag(d, n, g) <==> HasTag(t, n, g) && n != id
  {
    var d := RemoveAssociations(t, id);
    forall a ensures Associated(d, a) <==> Associated(t, a) && a.note != id {
      if k :| k in t.associations && t.associations[k] == a && a.note != id {
        assert k in d.associations && d.associations[k] == a;
      }
    }
  }

  /** After Add a note carries exactly its parsed tags; the tags of the others do not change. */
  lemma AddTags(db: Db, note: Note, targets: seq<Option<nat>>)
    requires NotesOk(db.notes) && TagsOk(db.notes.rows, db.tags) && |targets| == |note.links|
    ensures var d := AfterAdd(db, note, targets);
      && TagsOk(d.notes.rows, d.tags)
      && (forall g :: HasTag(d.tags, d.notes.last, g) <==> g in note.tags)
      && forall n, g | n != d.notes.last :: HasTag(d.tags, n, g) <==> HasTag(db.tags, n, g)
  {
    var notes := InsertNote(db.notes, note);
    AssociateTagsEffect(db.tags, notes.last, note.tags);
    assert TaggedNotesLive(notes.rows, db.tags);
    AssociateTagsLive(notes.rows, db.tags, notes.last, note.tags);
    assert forall g :: !HasTag(db.tags, notes.last, g);
  }

  /** After Update a note carries exactly its parsed tags; the tags of the others do not change. */
  lemma UpdateTags(db: Db, id: nat, note: Note, targets: seq<Option<nat>>)
    requires TagsOk(db.notes.rows, db.tags) && id in db.notes.rows && |targets| == |note.links|
    ensures var d := AfterUpdate(db, id, note, targets);
      && TagsOk(d.notes.rows, d.tags)
      && forall n, g :: HasTag(d.tags, n, g) <==> if n == id then g in note.tags else HasTag(db.tags, n, g)
  {
    var rest := RemoveAssociations(db.tags, id);
    RemoveAssociationsEffect(db.tags, id);
    AssociateTagsEffect(rest, id, note.tags);
    assert TaggedNotesLive(UpdateNote(db.notes, id, note).rows, rest);
    AssociateTagsLive(UpdateNote(db.notes, id, note).rows, rest, id, note.tags);
  }

  // --- Runs ---

  /** What holds in every reachable state. */
  ghost predicate Safe(env: Env, db: Db) {
    Integrity(db) && TargetsOk(env, db.notes.rows, db.links)
  }

  lemma AddKeeps(env: Env, db: Db, note: Note, targets: seq<Option<nat>>)
    requires Safe(env, db) && !Indexed(db.notes.rows, note.path)
    requires ResolvesAll(env, InsertNote(db.notes, note).rows, note.links, targets)
    ensures Safe(env, AfterAdd(db, note, targets))
  {
    InsertKeepsNotes(db.notes, note);
    AddKeepsLinks(env, db, note, targets);
    AddTags(db, note, targets);
  }

  lemma UpdateKeeps(env: Env, db: Db, id: nat, note: Note, targets: seq<Option<nat>>)
    requires Safe(env, db) && id in db.notes.rows
    requires ResolvesAll(env, UpdateNote(db.notes, id, note).rows, note.links, targets)
    ensures Safe(env, AfterUpdate(db, id, note, targets))
  {
    UpdateKeepsNotes(db.notes, id, note);
    UpdateKeepsLinks(env, db, id, note, targets);
    UpdateTags(db, id, note, targets);
  }

  lemma RemoveKeeps(env: Env, db: Db, id: nat)
    requires Safe(env, db) && id in db.notes.rows
    ensures Safe(env, AfterRemove(db, id))
  {
    DeleteKeepsNotes(db.notes, id);
    RemoveKeepsLinks(env, db, id);
    RemoveAssociationsEffect(db.tags, id);
  }

  lemma EmptyKeeps(env: Env)
    ensures Safe(env, EMPTY) && Optimal(env, EMPTY.notes.rows, EMPTY.links)
  {
  }

  /** Every step keeps the state safe; every step but Remove keeps the targets optimal. */
  lemma StepKeeps(env: Env, db: Db, op: Op, db': Db)
    requires Safe(env, db) && Step(env, db, op, db')
    ensures Safe(env, db')
    ensures !op.Remove? && Optimal(env, db.notes.rows, db.links) ==> Optimal(env, db'.notes.rows, db'.links)
  {
    match op
    case Add(note) =>
      if !Indexed(db.notes.rows, note.path) {
        var targets :| ResolvesAll(env, InsertNote(db.notes, note).rows, note.links, targets)
          && db' == AfterAdd(db, note, targets);
        AddKeeps(env, db, note, targets);
        if Optimal(env, db.notes.rows, db.links) {
          AddKeepsOptimal(env, db, note, targets);
        }
      }
    case Update(note) =>
      if Indexed(db.notes.rows, note.path) {
        var id, targets :| id in db.notes.rows && db.notes.rows[id].path == note.path
          && ResolvesAll(env, UpdateNote(db.notes, id, note).rows, note.links, targets)
          && db' == AfterUpdate(db, id, note, targets);
        UpdateKeeps(env, db, id, note, targets);
        if Optimal(env, db.notes.rows, db.links) {
          UpdateKeepsOptimal(env, db, id, note, targets);
        }
      }
    case Remove(path) =>
      if Indexed(db.notes.rows, path) {
        var id :| id in db.notes.rows && db.notes.rows[id].path == path && db' == AfterRemove(db, id);
        RemoveKeeps(env, db, id);
      }
  }

  /** In every state reached by any run: note paths are unique, links have live sources, targets are
      live notes that match their link, URL links have no target, no (note, tag) pair is repeated
      and the full-text table mirrors the notes. While no note has been removed, moreover, every
      internal link has an optimal target. */
  lemma {:induction false} RunKeeps(env: Env, ops: seq<Op>, db: Db)
    requires Reaches(env, EMPTY, ops, db)
    ensures Safe(env, db)
    ensures (forall op | op in ops :: !op.Remove?) ==> Optimal(env, db.notes.rows, db.links)
    decreases |ops|
  {
    if ops == [] {
      EmptyKeeps(env);
    } else {
      var front, last := ops[..|ops| - 1], ops[|ops| - 1];
      var mid :| Reaches(env, EMPTY, front, mid) && Step(env, mid, last, db);
      RunKeeps(env, front, mid);
      StepKeeps(env, mid, last, db);
      assert forall op | op in front :: op in ops;
    }
  }

  // --- Links to URLs ---

  /** The parser marks a link to a URL as external. */
  predicate Marked(env: Env, link: Link) {
    env.isUrl(link.href) ==> link.external
  }

  ghost predicate AllMarked(env: Env, t: LinkTable) {
    forall l | l in t.rows :: Marked(env, t.rows[l].link)
  }

  /** The links of the note an operation adds or updates are marked. */
  ghost predicate OpMarked(env: Env, op: Op) {
    op.Remove? || forall link | link in op.note.links :: Marked(env, link)
  }

  lemma AddLinksMarked(env: Env, t: LinkTable, source: nat, links: seq<Link>, targets: seq<Option<nat>>)
    requires |links| == |targets| && LinksBounded(t) && AllMarked(env, t)
    requires forall link | link in links :: Marked(env, link)
    ensures AllMarked(env, AddLinks(t, source, links, targets))
  {
    AddLinksEffect(t, source, links, targets);
  }

  lemma AddKeepsMarked(env: Env, db: Db, note: Note, targets: seq<Option<nat>>)
    requires LinksBounded(db.links) && AllMarked(env, db.links) && |targets| == |note.links|
    requires forall link | link in note.links :: Marked(env, link)
    ensures AllMarked(env, AfterAdd(db, note, targets).links)
  {
    AddLinksMarked(env, db.links, db.notes.last + 1, note.links, targets);
  }

  lemma UpdateKeepsMarked(env: Env, db: Db, id: nat, note: Note, targets: seq<Option<nat>>)
    requires LinksBounded(db.links) && AllMarked(env, db.links) && |targets| == |note.links| && id in db.notes.rows
    requires forall link | link in note.links :: Marked(env, link)
    ensures AllMarked(env, AfterUpdate(db, id, note, targets).links)
  {
    AddLinksMarked(env, RemoveLinks(db.links, id), id, note.links, targets);
  }

  lemma StepKeepsMarked(env: Env, db: Db, op: Op, db': Db)
    requires LinksBounded(db.links) && Step(env, db, op, db') && AllMarked(env, db.links) && OpMarked(env, op)
    ensures AllMarked(env, db'.links)
  {
    match op
    case Add(note) =>
      if !Indexed(db.notes.rows, note.path) {
        var targets :| ResolvesAll(env, InsertNote(db.notes, note).rows, note.links, targets)
          && db' == AfterAdd(db, note, targets);
        AddKeepsMarked(env, db, note, targets);
      }
    case Update(note) =>
      if Indexed(db.notes.rows, note.path) {
        var id, targets :| id in db.notes.rows && db.notes.rows[id].path == note.path
          && ResolvesAll(env, UpdateNote(db.notes, id, note).rows, note.links, targets)
          && db' == AfterUpdate(db, id, note, targets);
        UpdateKeepsMarked(env, db, id, note, targets);
      }
    case Remove(path) =>
  }

  lemma MarkedUrlsHaveNoTarget(env: Env, notes: map<nat, NoteRow>, t: LinkTable)
    requires LinksOk(notes, t) && TargetsOk(env, notes, t) && AllMarked(env, t)
    ensures forall l | l in t.rows && env.isUrl(t.rows[l].link.href) :: t.rows[l].target == None
  {
    forall l | l in t.rows && env.isUrl(t.rows[l].link.href) ensures t.rows[l].target == None {
      assert LiveEnds(notes, t.rows[l]) && TargetOk(env, notes, t.rows[l]);
    }
  }

  /** Over every run of operations on parsed notes, no link to a URL has a target. */
  lemma {:induction false} UrlsHaveNoTarget(env: Env, ops: seq<Op>, db: Db)
    requires Reaches(env, EMPTY, ops, db) && forall op | op in ops :: OpMarked(env, op)
    ensures AllMarked(env, db.links)
    ensures forall l | l in db.links.rows && env.isUrl(db.links.rows[l].link.href) :: db.links.rows[l].target == None
    decreases |ops|
  {
    RunKeeps(env, ops, db);
    if ops != [] {
      var front, last := ops[..|ops| - 1], ops[|ops| - 1];
      var mid :| Reaches(env, EMPTY, front, mid) && Step(env, mid, last, db);
      assert forall op | op in front :: op in ops;
      RunKeeps(env, front, mid);
      UrlsHaveNoTarget(env, front, mid);
      StepKeepsMarked(env, mid, last, db);
    }
    MarkedUrlsHaveNoTarget(env, db.notes.rows, db.links);
  }
}
