/** The tables of the note index and the effect of each index operation on them,
    as functions and relations over database values. */
module IndexSpec {
  import opened Strings
  import opened HrefMatch

  datatype Note = Note(path: string, title: string, body: string, content: string, created: int, modified: int,
                       links: seq<Link>, tags: seq<string>)

  datatype NoteRow = NoteRow(path: string, sortablePath: string, title: string, body: string, content: string,
                             created: int, modified: int)

  datatype LinkRow = LinkRow(source: nat, target: Option<nat>, link: Link)

  datatype CollectionKind = Tag

  datatype Collection = Collection(kind: CollectionKind, name: string)

  datatype Association = Association(note: nat, collection: nat)

  datatype FtsRow = FtsRow(id: nat, path: string, title: string, body: string)

  /** Rows by id; `last` is the AUTOINCREMENT sequence: an id is never given twice. The full-text
      table is kept by triggers of the notes table. */
  datatype NoteTable = NoteTable(rows: map<nat, NoteRow>, last: nat, fts: multiset<FtsRow>)

  datatype LinkTable = LinkTable(rows: map<nat, LinkRow>, last: nat)

  /** collections and notes_collections. */
  datatype TagTable = TagTable(collections: map<nat, Collection>, lastCollection: nat,
                               associations: map<nat, Association>, lastAssociation: nat)

  datatype Db = Db(notes: NoteTable, links: LinkTable, tags: TagTable)

  const EMPTY := Db(NoteTable(map[], 0, multiset{}), LinkTable(map[], 0), TagTable(map[], 0, map[], 0))

  /** Library behaviour the index relies on: the URL test, and the href made relative to the
      notebook root (None when that fails). */
  datatype Env = Env(isUrl: string -> bool, rel: string -> Option<string>)

  // --- Notes ---

  predicate Indexed(notes: map<nat, NoteRow>, path: string) {
    exists n | n in notes :: notes[n].path == path
  }

  function SortablePath(path: string): (r: string)
    ensures |r| == |path| && forall i | 0 <= i < |r| :: r[i] == if path[i] == '/' then 1 as char else path[i]
  {
    if path == [] then [] else [if path[0] == '/' then 1 as char else path[0]] + SortablePath(path[1..])
  }

  function RowOf(note: Note): NoteRow {
    NoteRow(note.path, SortablePath(note.path), note.title, note.body, note.content, note.created, note.modified)
  }

  function FtsOf(id: nat, row: NoteRow): FtsRow {
    FtsRow(id, row.path, row.title, row.body)
  }

  /** INSERT INTO notes, with the trigger that feeds the full-text table. */
  function InsertNote(t: NoteTable, note: Note): NoteTable {
    NoteTable(t.rows[t.last + 1 := RowOf(note)], t.last + 1, t.fts + multiset{FtsOf(t.last + 1, RowOf(note))})
  }

  /** UPDATE notes: path, sortable path and creation date are not among the columns set. */
  function UpdatedRow(row: NoteRow, note: Note): NoteRow {
    row.(title := note.title, body := note.body, content := note.content, modified := note.modified)
  }

  /** The update trigger deletes the old text from the full-text table and inserts the new one. */
  function UpdateNote(t: NoteTable, id: nat, note: Note): NoteTable
    requires id in t.rows
  {
    var row := UpdatedRow(t.rows[id], note);
    t.(rows := t.rows[id := row], fts := t.fts - multiset{FtsOf(id, t.rows[id])} + multiset{FtsOf(id, row)})
  }

  function DeleteNote(t: NoteTable, id: nat): NoteTable
    requires id in t.rows
  {
    t.(rows := t.rows - {id}, fts := t.fts - multiset{FtsOf(id, t.rows[id])})
  }

  // --- Link resolution ---

  ghost predicate HasMatch(notes: map<nat, NoteRow>, tier: Tier, href: string) {
    exists n | n in notes :: TierMatch(tier, href, notes[n].path)
  }

  /** `id` is a first row of `... WHERE path REGEXP ? ORDER BY LENGTH(path) ASC`; ties are left open. */
  ghost predicate Shortest(notes: map<nat, NoteRow>, tier: Tier, href: string, id: nat) {
    id in notes && TierMatch(tier, href, notes[id].path)
    && forall n | n in notes && TierMatch(tier, href, notes[n].path) :: |notes[id].path| <= |notes[n].path|
  }

  /** FindIdByHref. */
  ghost predicate FindsByHref(notes: map<nat, NoteRow>, href: string, partial: bool, r: Option<nat>) {
    var h := StripAnchor(href);
    if partial && HasMatch(notes, Filename, h) then r.Some? && Shortest(notes, Filename, h, r.value)
    else if partial && HasMatch(notes, Anywhere, h) then r.Some? && Shortest(notes, Anywhere, h, r.value)
    else if HasMatch(notes, Strict, h) then r.Some? && Shortest(notes, Strict, h, r.value)
    else r == None
  }

  /** findLinkMatch with an empty base directory. */
  ghost predicate Resolves(env: Env, notes: map<nat, NoteRow>, link: Link, r: Option<nat>) {
    if env.isUrl(link.href) then r == None
    else
      var rel := env.rel(link.href);
      if rel.Some? && HasMatch(notes, Strict, StripAnchor(rel.value))
      then r.Some? && Shortest(notes, Strict, StripAnchor(rel.value), r.value)
      else FindsByHref(notes, link.href, link.kind == WikiLink, r)
  }

  ghost predicate ResolvesAll(env: Env, notes: map<nat, NoteRow>, links: seq<Link>, targets: seq<Option<nat>>) {
    |targets| == |links| && forall i | 0 <= i < |links| :: Resolves(env, notes, links[i], targets[i])
  }

  // --- Links ---

  /** INSERT INTO links, one row per link. */
  function AddLinks(t: LinkTable, source: nat, links: seq<Link>, targets: seq<Option<nat>>): LinkTable
    requires |links| == |targets|
  {
    if links == [] then t
    else
      var k := |links| - 1;
      var d := AddLinks(t, source, links[..k], targets[..k]);
      LinkTable(d.rows[d.last + 1 := LinkRow(source, targets[k], links[k])], d.last + 1)
  }

  /** DELETE FROM links WHERE source_id = source. */
  function RemoveLinks(t: LinkTable, source: nat): LinkTable {
    t.(rows := map l | l in t.rows && t.rows[l].source != source :: t.rows[l])
  }

  /** Deleting a note: ON DELETE CASCADE for its outbound links, ON DELETE SET NULL for the inbound ones. */
  function UnlinkNote(t: LinkTable, id: nat): LinkTable {
    t.(rows := map l | l in t.rows && t.rows[l].source != id :: Unlinked(t.rows[l], id))
  }

  function Unlinked(row: LinkRow, id: nat): LinkRow {
    if row.target == Some(id) then row.(target := None) else row
  }

  /** target_path of the resolved_links view; the empty string when there is no target. */
  function TargetPath(notes: map<nat, NoteRow>, row: LinkRow): string {
    if row.target.Some? && row.target.value in notes then notes[row.target.value].path else ""
  }

  /** The loop body of fixExistingLinks. */
  function RetargetRow(notes: map<nat, NoteRow>, row: LinkRow, id: nat, path: string): LinkRow {
    var current := TargetPath(notes, row);
    if row.link.external || (current != "" && |current| < |path|) || !LinkMatches(row.link, path) then row
    else row.(target := Some(id))
  }

  function Retarget(notes: map<nat, NoteRow>, t: LinkTable, id: nat, path: string): LinkTable {
    t.(rows := map l | l in t.rows :: RetargetRow(notes, t.rows[l], id, path))
  }

  // --- Tags ---

  ghost function FindCollection(t: TagTable, c: Collection): (r: Option<nat>)
    ensures r.Some? ==> r.value in t.collections && t.collections[r.value] == c
    ensures r.None? ==> forall k | k in t.collections :: t.collections[k] != c
  {
    if k :| k in t.collections && t.collections[k] == c then Some(k) else None
  }

  /** FindOrCreate, as the id and the table it leaves. */
  ghost function CollectionId(t: TagTable, c: Collection): nat {
    var found := FindCollection(t, c);
    if found.Some? then found.value else t.lastCollection + 1
  }

  ghost function EnsureCollection(t: TagTable, c: Collection): TagTable {
    if FindCollection(t, c).Some? then t
    else t.(collections := t.collections[t.lastCollection + 1 := c], lastCollection := t.lastCollection + 1)
  }

  predicate Associated(t: TagTable, a: Association) {
    exists k | k in t.associations :: t.associations[k] == a
  }

  function Associate(t: TagTable, a: Association): TagTable {
    if Associated(t, a) then t
    else t.(associations := t.associations[t.lastAssociation + 1 := a], lastAssociation := t.lastAssociation + 1)
  }

  ghost function TagNote(t: TagTable, id: nat, tag: string): TagTable {
    var c := Collection(Tag, tag);
    Associate(EnsureCollection(t, c), Association(id, CollectionId(t, c)))
  }

  ghost function AssociateTags(t: TagTable, id: nat, tags: seq<string>): TagTable {
    if tags == [] then t else TagNote(AssociateTags(t, id, tags[..|tags| - 1]), id, tags[|tags| - 1])
  }

  /** Also what ON DELETE CASCADE does when the note is deleted. */
  function RemoveAssociations(t: TagTable, id: nat): TagTable {
    t.(associations := map a | a in t.associations && t.associations[a].note != id :: t.associations[a])
  }

  // --- Index operations ---

  datatype Op = Add(note: Note) | Update(note: Note) | Remove(path: string)

  ghost function AfterAdd(db: Db, note: Note, targets: seq<Option<nat>>): Db
    requires |targets| == |note.links|
  {
    var notes := InsertNote(db.notes, note);
    Db(notes,
       Retarget(notes.rows, AddLinks(db.links, notes.last, note.links, targets), notes.last, note.path),
       AssociateTags(db.tags, notes.last, note.tags))
  }

  /** Add; a path already indexed breaks the UNIQUE constraint and nothing changes. */
  ghost predicate AddStep(env: Env, db: Db, note: Note, db': Db) {
    if Indexed(db.notes.rows, note.path) then db' == db
    else
      exists targets ::
        && ResolvesAll(env, InsertNote(db.notes, note).rows, note.links, targets)
        && db' == AfterAdd(db, note, targets)
  }

  ghost function AfterUpdate(db: Db, id: nat, note: Note, targets: seq<Option<nat>>): Db
    requires id in db.notes.rows && |targets| == |note.links|
  {
    Db(UpdateNote(db.notes, id, note),
       AddLinks(RemoveLinks(db.links, id), id, note.links, targets),
       AssociateTags(RemoveAssociations(db.tags, id), id, note.tags))
  }

  /** Update; a path that is not indexed is an error and nothing changes. */
  ghost predicate UpdateStep(env: Env, db: Db, note: Note, db': Db) {
    if !Indexed(db.notes.rows, note.path) then db' == db
    else
      exists id, targets ::
        && id in db.notes.rows && db.notes.rows[id].path == note.path
        && ResolvesAll(env, UpdateNote(db.notes, id, note).rows, note.links, targets)
        && db' == AfterUpdate(db, id, note, targets)
  }

  function AfterRemove(db: Db, id: nat): Db
    requires id in db.notes.rows
  {
    Db(DeleteNote(db.notes, id), UnlinkNote(db.links, id), RemoveAssociations(db.tags, id))
  }

  /** Remove; a path that is not indexed is an error and nothing changes. */
  ghost predicate RemoveStep(db: Db, path: string, db': Db) {
    if !Indexed(db.notes.rows, path) then db' == db
    else exists id :: id in db.notes.rows && db.notes.rows[id].path == path && db' == AfterRemove(db, id)
  }

  ghost predicate Step(env: Env, db: Db, op: Op, db': Db) {
    match op
    case Add(note) => AddStep(env, db, note, db')
    case Update(note) => UpdateStep(env, db, note, db')
    case Remove(path) => RemoveStep(db, path, db')
  }

  /** Running `ops` from `db` can end in `db'`. */
  ghost predicate Reaches(env: Env, db: Db, ops: seq<Op>, db': Db)
    decreases |ops|
  {
    if ops == [] then db' == db
    else
      var front, last := ops[..|ops| - 1], ops[|ops| - 1];
      exists mid :: Reaches(env, db, front, mid) && Step(env, mid, last, db')
  }
}
