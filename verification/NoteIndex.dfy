/** The note index: each operation changes the tables step by step, as its specification in
    IndexSpec says. */
module NoteIndex {
  import opened Strings
  import opened HrefMatch
  import opened IndexSpec
  import opened IndexInvariants

  datatype Outcome<T> = Done(value: T) | NotFound | AlreadyIndexed

  datatype TagCount = TagCount(id: nat, name: string, notes: nat)

  ghost function Image(keys: set<nat>, f: map<nat, nat>): set<nat>
    requires keys <= f.Keys
  {
    set a | a in keys :: f[a]
  }

  lemma {:induction false} ImageSize(keys: set<nat>, f: map<nat, nat>)
    requires keys <= f.Keys && forall a, b | a in keys && b in keys && f[a] == f[b] :: a == b
    ensures |Image(keys, f)| == |keys|
    decreases keys
  {
    if a :| a in keys {
      ImageSize(keys - {a}, f);
      assert Image(keys, f) == Image(keys - {a}, f) + {f[a]};
    } else {
      assert Image(keys, f) == {};
    }
  }

  function AssociationsOf(t: TagTable, c: nat): set<nat> {
    set a | a in t.associations && t.associations[a].collection == c
  }

  ghost function NotesWith(notes: map<nat, NoteRow>, t: TagTable, name: string): set<nat> {
    set n | n in notes && HasTag(t, n, name)
  }

  /** Counting the association rows of a tag counts the live notes that carry it. */
  lemma TagCountIsNoteCount(notes: map<nat, NoteRow>, t: TagTable, c: nat)
    requires TagsOk(notes, t) && c in t.collections
    ensures |AssociationsOf(t, c)| == |NotesWith(notes, t, t.collections[c].name)|
  {
    var rows, tagged := AssociationsOf(t, c), NotesWith(notes, t, t.collections[c].name);
    var noteOf := map a | a in rows :: t.associations[a].note;
    forall a, b | a in rows && b in rows && noteOf[a] == noteOf[b] ensures a == b {
      assert t.associations[a] == t.associations[b];
    }
    ImageSize(rows, noteOf);
    var image := Image(rows, noteOf);
    forall n | n in tagged ensures n in image {
      var k :| k in t.collections && t.collections[k].name == t.collections[c].name && Associated(t, Association(n, k));
      assert t.collections[k] == t.collections[c];
      var a :| a in t.associations && t.associations[a] == Association(n, k);
      assert a in rows && noteOf[a] == n;
    }
    forall n | n in image ensures n in tagged {
      var a :| a in rows && noteOf[a] == n;
      assert t.associations[a] == Association(n, c);
      assert Associated(t, Association(n, c));
    }
    assert tagged == image;
  }

  /** `f` states the name of its tag and the number of notes carrying it, which is not 0. */
  ghost predicate CountOk(notes: map<nat, NoteRow>, t: TagTable, f: TagCount) {
    f.id in t.collections && f.name == t.collections[f.id].name && f.notes == |NotesWith(notes, t, f.name)|
      && f.notes > 0
  }

  /** Every collection outside `rest` that some note carries is listed, once, with its count. */
  ghost predicate Listed(notes: map<nat, NoteRow>, t: TagTable, found: seq<TagCount>, rest: set<nat>) {
    && (forall f | f in found :: f.id !in rest && CountOk(notes, t, f))
    && (forall i, j | 0 <= i < j < |found| :: found[i].id != found[j].id)
    && (forall c | c in t.collections && c !in rest ::
          NotesWith(notes, t, t.collections[c].name) == {} || exists f :: f in found && f.id == c)
  }

  lemma ListOne(notes: map<nat, NoteRow>, t: TagTable, found: seq<TagCount>, rest: set<nat>, f: TagCount)
    requires f.id in rest && Listed(notes, t, found, rest) && CountOk(notes, t, f)
    ensures Listed(notes, t, found + [f], rest - {f.id})
  {
  }

  lemma ListNext(notes: map<nat, NoteRow>, t: TagTable, found: seq<TagCount>, rest: set<nat>, c: nat)
    requires TagsOk(notes, t) && rest <= t.collections.Keys && c in rest && Listed(notes, t, found, rest)
    ensures var count := |AssociationsOf(t, c)|;
      Listed(notes, t, if count > 0 then found + [TagCount(c, t.collections[c].name, count)] else found, rest - {c})
  {
    TagCountIsNoteCount(notes, t, c);
    var count := |AssociationsOf(t, c)|;
    if count > 0 {
      ListOne(notes, t, found, rest, TagCount(c, t.collections[c].name, count));
    }
  }

  class NoteIndex {
    const env: Env
    var notes: NoteTable
    var links: LinkTable
    var tags: TagTable
    /** The reindexing key of the metadata table. */
    var needsReindexing: bool

    function Value(): Db
      reads this
    {
      Db(notes, links, tags)
    }

    ghost predicate Valid()
      reads this
    {
      Safe(env, Value())
    }

    constructor (env: Env)
      ensures this.env == env && Value() == EMPTY && Valid() && !needsReindexing
    {
      this.env, needsReindexing := env, false;
      notes, links, tags := EMPTY.notes, EMPTY.links, EMPTY.tags;
      new;
      EmptyKeeps(env);
    }

    // --- Lookups ---

    /** SELECT id FROM notes WHERE path = ? */
    method FindIdByPath(path: string) returns (r: Option<nat>)
      ensures r.None? <==> !Indexed(notes.rows, path)
      ensures r.Some? ==> r.value in notes.rows && notes.rows[r.value].path == path
    {
      var rest := notes.rows.Keys;
      while rest != {}
        invariant rest <= notes.rows.Keys
        invariant forall n | n in notes.rows && n !in rest :: notes.rows[n].path != path
        decreases rest
      {
        var n :| n in rest;
        if notes.rows[n].path == path {
          return Some(n);
        }
        rest := rest - {n};
      }
      return None;
    }

    /** The first row of the lookup by pattern: a match of least path length. */
    method FindByPattern(tier: Tier, href: string) returns (r: Option<nat>)
      ensures r.None? <==> !HasMatch(notes.rows, tier, href)
      ensures r.Some? ==> Shortest(notes.rows, tier, href, r.value)
    {
      r := None;
      var rest := notes.rows.Keys;
      while rest != {}
        invariant rest <= notes.rows.Keys
        invariant r.Some? ==> r.value in notes.rows && TierMatch(tier, href, notes.rows[r.value].path)
        invariant forall n | n in notes.rows && n !in rest && TierMatch(tier, href, notes.rows[n].path) ::
          r.Some? && |notes.rows[r.value].path| <= |notes.rows[n].path|
        decreases rest
      {
        var n :| n in rest;
        var path := notes.rows[n].path;
        if TierMatch(tier, href, path) && (r == None || |path| < |notes.rows[r.value].path|) {
          r := Some(n);
        }
        rest := rest - {n};
      }
    }

    method FindIdByHref(href: string, partial: bool) returns (r: Option<nat>)
      ensures FindsByHref(notes.rows, href, partial, r)
    {
      var h := StripAnchor(href);
      if partial {
        r := FindByPattern(Filename, h);
        if r.Some? {
          return;
        }
        r := FindByPattern(Anywhere, h);
        if r.Some? {
          return;
        }
      }
      r := FindByPattern(Strict, h);
    }

    method FindLinkMatch(link: Link) returns (r: Option<nat>)
      ensures Resolves(env, notes.rows, link, r)
    {
      if env.isUrl(link.href) {
        return None;
      }
      var rel := env.rel(link.href);
      if rel.Some? {
        r := FindIdByHref(rel.value, false);
        if r.Some? {
          return;
        }
      }
      r := FindIdByHref(link.href, link.kind == WikiLink);
    }

    method ResolveLinks(ls: seq<Link>) returns (targets: seq<Option<nat>>)
      ensures ResolvesAll(env, notes.rows, ls, targets)
    {
      targets := [];
      for i := 0 to |ls|
        invariant |targets| == i && forall k | 0 <= k < i :: Resolves(env, notes.rows, ls[k], targets[k])
      {
        var target := FindLinkMatch(ls[i]);
        targets := targets + [target];
      }
    }

    // --- Links ---

    method InsertLinks(source: nat, ls: seq<Link>, targets: seq<Option<nat>>)
      requires |ls| == |targets|
      modifies this`links
      ensures links == AddLinks(old(links), source, ls, targets)
    {
      for i := 0 to |ls|
        invariant links == AddLinks(old(links), source, ls[..i], targets[..i])
      {
        assert ls[..i + 1][..i] == ls[..i] && targets[..i + 1][..i] == targets[..i];
        links := LinkTable(links.rows[links.last + 1 := LinkRow(source, targets[i], ls[i])], links.last + 1);
      }
      assert ls[..|ls|] == ls && targets[..|ls|] == targets;
    }

    /** Goes over a snapshot of the internal links and points those that match `path` at least as
        well as their current target to `id`. */
    method FixExistingLinks(id: nat, path: string)
      modifies this`links
      ensures links == Retarget(notes.rows, old(links), id, path)
    {
      var found := links;
      var rest := set l | l in found.rows && !found.rows[l].link.external;
      while rest != {}
        invariant rest <= found.rows.Keys
        invariant links.last == found.last && links.rows.Keys == found.rows.Keys
        invariant forall l | l in found.rows ::
          links.rows[l] == if l in rest then found.rows[l] else RetargetRow(notes.rows, found.rows[l], id, path)
        decreases rest
      {
        var l :| l in rest;
        var row := found.rows[l];
        var current := TargetPath(notes.rows, row);
        if (current == "" || |current| >= |path|) && LinkMatches(row.link, path) {
          links := links.(rows := links.rows[l := links.rows[l].(target := Some(id))]);
        }
        rest := rest - {l};
      }
      assert links.rows == Retarget(notes.rows, found, id, path).rows;
    }

    // --- Tags ---

    method FindOrCreate(c: Collection) returns (id: nat)
      requires CollectionsOk(tags)
      modifies this`tags
      ensures id == CollectionId(old(tags), c) && tags == EnsureCollection(old(tags), c)
    {
      var rest := tags.collections.Keys;
      while rest != {}
        invariant rest <= tags.collections.Keys && tags == old(tags)
        invariant forall k | k in tags.collections && k !in rest :: tags.collections[k] != c
        decreases rest
      {
        var k :| k in rest;
        if tags.collections[k] == c {
          return k;
        }
        rest := rest - {k};
      }
      id := tags.lastCollection + 1;
      tags := tags.(collections := tags.collections[id := c], lastCollection := id);
    }

    method AssociateNote(a: Association)
      modifies this`tags
      ensures tags == Associate(old(tags), a)
    {
      if !Associated(tags, a) {
        var id := tags.lastAssociation + 1;
        tags := tags.(associations := tags.associations[id := a], lastAssociation := id);
      }
    }

    method AssociateWithTags(id: nat, names: seq<string>)
      requires CollectionsOk(tags) && AssociationsOk(tags)
      modifies this`tags
      ensures tags == AssociateTags(old(tags), id, names)
    {
      for i := 0 to |names|
        invariant tags == AssociateTags(old(tags), id, names[..i])
        invariant CollectionsOk(tags) && AssociationsOk(tags)
      {
        ghost var before := tags;
        TagNoteEffect(before, id, names[i]);
        var c := FindOrCreate(Collection(Tag, names[i]));
        AssociateNote(Association(id, c));
        assert names[..i + 1][..i] == names[..i];
        assert tags == TagNote(before, id, names[i]);
      }
      assert names[..|names|] == names;
    }

    /** FindAll: every tag carried by some note, once, with the number of notes carrying it. */
    method FindAll() returns (found: seq<TagCount>)
      requires TagsOk(notes.rows, tags)
      ensures Listed(notes.rows, tags, found, {})
    {
      found := [];
      var rest := tags.collections.Keys;
      while rest != {}
        invariant rest <= tags.collections.Keys && Listed(notes.rows, tags, found, rest)
        decreases rest
      {
        var c :| c in rest;
        ListNext(notes.rows, tags, found, rest, c);
        var count := |AssociationsOf(tags, c)|;
        if count > 0 {
          found := found + [TagCount(c, tags.collections[c].name, count)];
        }
        rest := rest - {c};
      }
    }

    // --- Operations ---

    method Add(note: Note) returns (r: Outcome<nat>)
      requires Valid()
      modifies this`notes, this`links, this`tags
      ensures Valid() && AddStep(env, old(Value()), note, Value())
      ensures r == if Indexed(old(notes.rows), note.path) then AlreadyIndexed else Done(notes.last)
    {
      ghost var before := Value();
      var existing := FindIdByPath(note.path);
      if existing.Some? {
        return AlreadyIndexed;
      }
      notes := InsertNote(notes, note);
      var id := notes.last;
      var targets := ResolveLinks(note.links);
      InsertLinks(id, note.links, targets);
      FixExistingLinks(id, note.path);
      AssociateWithTags(id, note.tags);
      assert Value() == AfterAdd(before, note, targets);
      StepKeeps(env, before, Op.Add(note), Value());
      return Done(id);
    }

    method Update(note: Note) returns (r: Outcome<()>)
      requires Valid()
      modifies this`notes, this`links, this`tags
      ensures Valid() && UpdateStep(env, old(Value()), note, Value())
      ensures r == if Indexed(old(notes.rows), note.path) then Done(()) else NotFound
    {
      ghost var before := Value();
      var found := FindIdByPath(note.path);
      if found.None? {
        return NotFound;
      }
      var id := found.value;
      notes := UpdateNote(notes, id, note);
      links := RemoveLinks(links, id);
      var targets := ResolveLinks(note.links);
      InsertLinks(id, note.links, targets);
      RemoveAssociationsEffect(tags, id);
      tags := RemoveAssociations(tags, id);
      AssociateWithTags(id, note.tags);
      assert Value() == AfterUpdate(before, id, note, targets);
      StepKeeps(env, before, Op.Update(note), Value());
      return Done(());
    }

    method Remove(path: string) returns (r: Outcome<()>)
      requires Valid()
      modifies this`notes, this`links, this`tags
      ensures Valid() && RemoveStep(old(Value()), path, Value())
      ensures r == if Indexed(old(notes.rows), path) then Done(()) else NotFound
    {
      ghost var before := Value();
      var found := FindIdByPath(path);
      if found.None? {
        return NotFound;
      }
      var id := found.value;
      notes, links, tags := DeleteNote(notes, id), UnlinkNote(links, id), RemoveAssociations(tags, id);
      assert Value() == AfterRemove(before, id);
      StepKeeps(env, before, Op.Remove(path), Value());
      return Done(());
    }
  }
}
