# A verified model of the zk note index

zk keeps a relational index (notes, links, tags, a full-text mirror) in step with a directory of
Markdown notes and answers graph and text queries over it. This project models the parts of zk whose
behaviour is hardest to see in the code and proves what they promise, in Dafny 4.11:
`dafny verify dfyconfig.toml` checks all of it.

* **Recursive link queries.** `LinkGraph` (walks, shortest distance), `LinkClosure` (the recursive SQL
  query as a queue of rows that carry a dotted path string), `LinkQueries` (what its rows mean),
  `Like` (SQLite's LIKE and the escaping of its terms).
* **The index as a state machine.** `HrefMatch` (which paths an href designates), `IndexSpec` (the
  tables and each operation as a relation between states), `IndexInvariants` (what every run of
  Add, Update and Remove keeps), `LinkTargets` (incremental re-targeting against resolution from
  scratch), `NoteIndex` (the class whose methods change the tables step by step).
* **Incremental synchronisation.** `PathOrder` (walk order, sortable paths, raw order), `PathDiff`
  (the merge of two streams), `StreamOrder` (streams whose order misleads the merge), `Indexing` (the
  changes applied to the index, and when the index ends up equal to the files), `IndexedContent` (the text, tags and links it then holds), `Migrations`
  (histories of migrations and index runs as transactions on one store: schema version, tables and
  reindexing flag).
* **Text transducers.** `Fts5Query` (the language of converted queries), `Fts5Terms` (which terms a
  query is converted to), `WikiLinks` (printing and parsing), `WikiLinkForms` (what each form of a wiki
  link is read as), `LinkPaths`.
* **Queries, filters and the line scanner.** `TagOptions` (what the text of a tag option says),
  `FindRows` (query building), `FindNotes` (what the query selects), `NamedFilters`, `DocumentLinks`.
  `Strings` holds the string operations they share.
* **Inputs that fail.** `Counterexamples`.

Objects that zk updates in place are classes (`NoteIndex.NoteIndex`, `PathDiff.DiffPair`,
`DocumentLinks.Scanner`, `Migrations.Database`); loops are loops, each proved against a function or a
relation whose own properties are the lemmas beside it.

## Where the code does not keep a promise

Each of these is a lemma with a failing input and a lemma with the exact condition under which the
promise holds.

* **A run can lose a note.** The files are listed in walk order, the index in the order of
  `sortable_path`, but the merge compares raw paths, although its own comment asks for streams sorted
  by path. When `a/b.md` was deleted and `a.md` stayed, `a.md` is added while still indexed, which
  fails, and is then removed (`StreamOrder.DeletedFolderLosesNote`). The exact condition, on the paths
  of the streams, is in `Indexing.RunSynchronisesIff`; a simpler one, exact when no file is new, is in
  `Indexing.RunSynchronises` and `Indexing.RunWithoutNewFilesIff`, and the paths on which the two
  orders differ are given by `PathOrder.OrdersDisagreeIff`.
* **A failed commit is reported as a success.** The error of the commit is assigned after the result of
  the transaction has been returned, so a migration or an index run whose commit fails reports success
  and changes nothing (`Counterexamples.FailedCommitReportsSuccess`); the condition is
  `Migrations.ReportedIffCommitted`.
* **Re-targeting a link.** For wiki links it compares lengths only, while resolution prefers a match in
  the file name (`Counterexamples.WikiLinkTakenAway`), and it never looks at the relative form of an
  href such as `./x` (`Counterexamples.DotLinkStaysUnresolved`); the condition, for all links, is in
  `LinkTargets.RetargetIsFresh`.
* **Remove does not look for another target** for the links it leaves without one
  (`Counterexamples.RemoveForgetsOtherMatch`, `LinkTargets.RemoveOptimalIff`).
* **A link can be given a target it does not match**, such as a link to a section of its own note
  (`Counterexamples.SectionLinkResolved`); the conditions are `LinkTargets.EmptyHrefMismatch` and,
  for all links, `LinkTargets.TargetMatchesIff`.
* **An external link has no target** only if its href is a URL or designates nothing
  (`LinkTargets.NoTargetIff`, `Counterexamples.ExternalLinkResolved`); autolinks are external
  whatever their href.
* **One maximum distance for all link filters.** A later filter overwrites the maximum of an earlier
  one, so `--no-link-to` lifts the `--max-distance` of `--linked-by`
  (`Counterexamples.NoLinkToLiftsMaximum`). What is selected then is `FindNotes.QueryAtEffectiveMax`;
  the condition is in `FindNotes.QueryIsIntersection` and `FindNotes.MaximumMattersIff`.
* **`--related`** also leaves out a given note that links to itself
  (`Counterexamples.RelatedDropsSelfLink`, `LinkQueries.RelatedIsDistanceTwo`).
* **The wiki-link printer** does not escape every path; the paths that come back are exactly those of
  `WikiLinks.RoundTripIff` (a path with a pipe is lost: `Counterexamples.PipeEndsPath`).
* **A tag option that begins with NOT** is a negation even without a space, so `--tag NOTES` selects the
  notes without a tag `ES` (`Counterexamples.NotesTagIsNegated`); a tag stands for itself exactly under
  the condition of `TagOptions.PlainTagIff`.
* **A fence right after an indented code block is not seen** by the line scanner: the code after it is
  searched for links and its closing fence hides the text that follows
  (`Counterexamples.FenceAfterIndentedBlock`); the condition is `DocumentLinks.FenceOpensIff`.
* **The reindexing flag** is lowered even if a file could not be parsed and so was not indexed again
  (`Counterexamples.UnparsedFileLowersFlag`, `Migrations.FlagLoweredByFullRun`).

## Model

| member | source | states |
|---|---|---|
| `LinkClosure.NotLikeIsNotVisited` | internal/adapter/sqlite/note_dao.go:713 | The `NOT LIKE` test on the dotted path string holds exactly when the id is not on the path yet; no id is mistaken for a part of another. |
| `LinkClosure.ExtendRows` | internal/adapter/sqlite/note_dao.go:708-717 | The recursive step on rows with strings is the step that extends a walk by a link to a note not visited. |
| `LinkClosure.Evaluate` | internal/adapter/sqlite/note_dao.go:697-723 | For every graph and every order of evaluation the query ends; the table has as many rows as the closure or the row cap, only rows of the closure, and all of them when the cap is not met. |
| `LinkQueries.TransitiveClosure` | internal/adapter/sqlite/note_dao.go:697-723 | With the cap of 100000 rows, the table holds the whole closure whenever that has no more rows than the cap, and never a row outside it. |
| `LinkQueries.ClosureDistance` | internal/adapter/sqlite/note_dao.go:697-723 | A note other than the source is in the closure exactly when it is reachable within the maximum distance, and its least distance there is the shortest link distance. |
| `LinkQueries.ClosureSelf` | internal/adapter/sqlite/note_dao.go:699-717 | The source itself is only found through a link to itself, at distance 1. |
| `LinkQueries.RelatedIsDistanceTwo` | internal/adapter/sqlite/note_dao.go:641-648 | `--related` selects exactly the notes whose least link distance to the given ones, over both directions, is 2, except a given note that links to itself. |
| `LinkGraph.ShortestIsSimple` | internal/adapter/sqlite/note_dao.go:697-723 | A shortest walk between two notes visits none twice, so forbidding repeated ids loses no distance. |
| `Like.EscapeIsOnePass` | internal/adapter/sqlite/util.go:26-31 | The three nested replacements never act on each other's output: they are one escape per character. |
| `Like.ExactMatch` | internal/adapter/sqlite/note_dao.go:521-525 | `LIKE '%' escaped '%' ESCAPE` matches exactly the texts that contain the raw term up to ASCII case, whatever metacharacters the term has. |
| `Like.PlainLike` | internal/adapter/sqlite/note_dao.go:713 | Without an escape character, a term of digits and dots between percent signs is substring search. |
| `HrefMatch.WikiMatchIsContains` | internal/adapter/sqlite/note_index.go:171-208 | For wiki links the three patterns of the match test together mean that the path contains the href. |
| `HrefMatch.StrictMatchIff` | internal/adapter/sqlite/note_dao.go:281-306 | The strict pattern finds a path exactly when it is the href with the rest of a file name, or lies below the folder the href names. |
| `HrefMatch.FilenameMatchIff` | internal/adapter/sqlite/note_dao.go:281-306 | The file-name pattern finds a path exactly when it is a folder, if any, and a file name with the href in it. |
| `IndexInvariants.RunKeeps` | internal/adapter/sqlite/note_index.go:117-297 | In every state reached by any mix of Add, Update and Remove: unique paths, live link ends, targets their href designates, none for external URLs, no repeated (note, tag) pair, full-text table equal to the notes. Without Remove: an internal link without target matches no path, and for clean hrefs a non-wiki link has a shortest match. |
| `IndexInvariants.StepKeeps` | internal/adapter/sqlite/note_index.go:117-297 | Each operation, failing ones included, keeps all of it; Add and Update keep the targets optimal. |
| `IndexInvariants.UrlsHaveNoTarget` | internal/adapter/markdown/markdown.go:222-262 | Over every run on notes as the parser gives them, where URLs are marked external, no link to a URL has a target. |
| `IndexInvariants.ResolveIsOptimal` | internal/adapter/sqlite/note_dao.go:281-306 | Resolving a link from scratch leaves it without target only if no path matches, and finds a shortest match for a clean non-wiki href. |
| `IndexInvariants.AddKeepsLinks` | internal/adapter/sqlite/note_index.go:117-140 | After Add every link, whatever its href, has live ends and a target its href designates. |
| `IndexInvariants.AddKeepsOptimal` | internal/adapter/sqlite/note_index.go:145-167 | Re-targeting the existing links after an insertion keeps every target as good as a resolution over all notes. |
| `IndexInvariants.UpdateKeepsLinks` | internal/adapter/sqlite/note_index.go:221-247 | Replacing the links of a note keeps live ends and designated targets for all links. |
| `IndexInvariants.UpdateKeepsOptimal` | internal/adapter/sqlite/note_index.go:221-247 | Update needs no re-targeting: no path changes and the new links are resolved over all notes. |
| `IndexInvariants.RemoveKeepsLinks` | internal/adapter/sqlite/db.go:108-119 | The cascade and set-null rules leave no link with a dead source or target. |
| `IndexInvariants.InsertKeepsNotes` | internal/adapter/sqlite/db.go:130-132 | The insert trigger keeps one full-text row per note; ids are fresh and paths unique. |
| `IndexInvariants.UpdateKeepsNotes` | internal/adapter/sqlite/db.go:136-139 | The update trigger replaces exactly the full-text row of the note. |
| `IndexInvariants.DeleteKeepsNotes` | internal/adapter/sqlite/db.go:133-135 | The delete trigger removes exactly the full-text row of the note. |
| `IndexInvariants.AddTags` | internal/adapter/sqlite/note_index.go:249-262 | After Add a note has exactly its parsed tags and the other notes keep theirs. |
| `IndexInvariants.UpdateTags` | internal/adapter/sqlite/note_index.go:236-243 | After Update a note has exactly its parsed tags and the other notes keep theirs. |
| `IndexInvariants.AssociateTagsEffect` | internal/adapter/sqlite/collection_dao.go:181-195 | Associating a list of tags, repeated ones included, stores each pair once and adds those tags only. |
| `LinkTargets.OptimalIsFresh` | internal/adapter/sqlite/note_index.go:145-167 | For clean hrefs outside wiki links, the targets kept by every run are exactly those a resolution from scratch could give. |
| `LinkTargets.NoTargetIff` | internal/adapter/sqlite/note_index.go:66-86 | A link, external or not and whatever its href, resolves to no note exactly when the href is a URL or designates no path. |
| `LinkTargets.TargetMatchesIff` | internal/adapter/sqlite/note_index.go:171-208 | Exactly when every target resolution can give is one the match test accepts: for an anchor alone, when nothing is designated; for another href, when the shortest paths found through its relative form, if any, are found by the href itself as well. |
| `LinkTargets.RelativeTargetNeverMatches` | internal/adapter/sqlite/note_index.go:171-208 | The target of a link such as `./x` never passes the match test, so the link is not re-targeted any more. |
| `LinkTargets.ResolvesIsBestRanked` | internal/adapter/sqlite/note_dao.go:281-306 | For every href, resolution picks a note of best pattern and, among those, of least length. |
| `LinkTargets.RetargetIsFresh` | internal/adapter/sqlite/note_index.go:145-167 | For every href, re-targeting a link to a new note agrees with resolving it again if and only if the new path is not missed and, against the current target, length and pattern choose alike. |
| `LinkTargets.RetargetIsFreshOutsideWiki` | internal/adapter/sqlite/note_index.go:145-167 | For clean hrefs outside wiki links the two always agree. |
| `Counterexamples.WikiLinkTakenAway` | internal/adapter/sqlite/note_index.go:145-167 | A wiki link to `foo`, resolved to `dir/foo.md`, is re-targeted to the shorter `afoo/b.md`, which resolution rejects. |
| `Counterexamples.DotLinkStaysUnresolved` | internal/adapter/sqlite/note_index.go:171-208 | A link to `./x` is not given the note `x.md` when that is added, although it resolves to it. |
| `Counterexamples.RemoveForgetsOtherMatch` | internal/adapter/sqlite/note_dao.go:185-196 | Removing `foo.md` leaves a link to `foo` without target although `foobar.md` matches. |
| `Counterexamples.ExternalLinkResolved` | internal/adapter/markdown/markdown.go:238-248 | The autolink `doi:1`, external although not a URL, gets the note `doi:1.md` as target. |
| `Counterexamples.SectionLinkResolved` | internal/adapter/sqlite/note_index.go:66-86 | A link to `#toc` resolves to a note it does not match. |
| `Counterexamples.NotesTagIsNegated` | internal/adapter/sqlite/note_dao.go:569-575 | The option `NOTES` selects the notes without a tag that matches `ES`. |
| `Counterexamples.FenceAfterIndentedBlock` | internal/adapter/lsp/document.go:236-258 | A fenced line after an indented block is not code, and the line after its closing fence is. |
| `Counterexamples.RelatedDropsSelfLink` | internal/adapter/sqlite/note_dao.go:641-648 | A given note at distance 2 that links to itself is not found related. |
| `Counterexamples.PipeEndsPath` | internal/core/link_format.go:77-86 | The printed link of a path with a pipe is not read back. |
| `Counterexamples.UnparsedFileLowersFlag` | internal/core/note_index.go:167-203 | A committed run over one file that does not parse lowers the flag and leaves the tables as they were. |
| `Counterexamples.FailedCommitReportsSuccess` | internal/adapter/sqlite/transaction.go:48-68 | A forced index run whose commit fails reports success and leaves the flag up and the tables empty. |
| `Counterexamples.NoLinkToLiftsMaximum` | internal/adapter/sqlite/note_dao.go:623-648 | With links from a.md to b.md and b.md to c.md, the query of `--linked-by a --recursive --max-distance 1 --no-link-to a` selects c.md, which the filters reject. |
| `LinkTargets.RemoveOptimalIff` | internal/adapter/sqlite/note_dao.go:185-196 | Targets stay optimal after Remove if and only if no link to the note matches another one. |
| `LinkTargets.EmptyHrefMismatch` | internal/adapter/sqlite/note_dao.go:281-306 | For an href that is its own relative form, the target resolution gives passes the match test if and only if the href is not an anchor alone, or nothing is found by it: no note at all for a wiki link, none at the root for another. |
| `NoteIndex.NoteIndex.FindIdByPath` | internal/adapter/sqlite/note_dao.go:198-218 | The id found has the path, and none is found exactly when the path is not indexed. |
| `NoteIndex.NoteIndex.FindByPattern` | internal/adapter/sqlite/note_dao.go:220-239 | A match of least path length, if there is one. |
| `NoteIndex.NoteIndex.FindIdByHref` | internal/adapter/sqlite/note_dao.go:260-306 | The first pattern with a match decides, and gives its shortest match. |
| `NoteIndex.NoteIndex.FindLinkMatch` | internal/adapter/sqlite/note_index.go:66-86 | The target is one that resolution allows: none for a URL, the relative path first. |
| `NoteIndex.NoteIndex.ResolveLinks` | internal/adapter/sqlite/note_index.go:272-289 | Every link is resolved, in order. |
| `NoteIndex.NoteIndex.InsertLinks` | internal/adapter/sqlite/link_dao.go:50-62 | The links table grows by one row per link, with fresh ids. |
| `NoteIndex.NoteIndex.FixExistingLinks` | internal/adapter/sqlite/note_index.go:145-167 | Working from a snapshot, in any order, each internal link is re-targeted on its own merits. |
| `NoteIndex.NoteIndex.FindOrCreate` | internal/adapter/sqlite/collection_dao.go:67-78 | The id of the collection, created only if absent. |
| `NoteIndex.NoteIndex.AssociateNote` | internal/adapter/sqlite/collection_dao.go:181-195 | The pair is stored, once. |
| `NoteIndex.NoteIndex.AssociateWithTags` | internal/adapter/sqlite/note_index.go:249-262 | The tags are associated one after the other. |
| `NoteIndex.NoteIndex.FindAll` | internal/adapter/sqlite/collection_dao.go:80-124 | Every tag that some live note has is listed once, with the number of live notes that have it. |
| `NoteIndex.TagCountIsNoteCount` | internal/adapter/sqlite/collection_dao.go:80-124 | Counting association rows counts notes, although the schema does not forbid repeated pairs. |
| `NoteIndex.NoteIndex.Add` | internal/adapter/sqlite/note_index.go:117-140 | The tables make an Add step and stay safe; a path already indexed is an error that changes nothing. |
| `NoteIndex.NoteIndex.Update` | internal/adapter/sqlite/note_index.go:221-247 | The tables make an Update step and stay safe; a path not indexed is an error that changes nothing. |
| `NoteIndex.NoteIndex.Remove` | internal/adapter/sqlite/note_index.go:292-297 | The tables make a Remove step and stay safe; a path not indexed is an error that changes nothing. |
| `PathOrder.SortableIsWalkIff` | internal/adapter/sqlite/note_dao.go:129-135 | For all paths, comparing sortable paths is comparing lists of path components, the order of the directory walk, except exactly for a slash against a byte not above the one that replaces it. |
| `PathOrder.SortableIsWalk` | internal/adapter/sqlite/note_dao.go:129-135 | Paths without such bytes are always ordered as in the walk. |
| `PathOrder.OrdersDisagreeIff` | internal/util/paths/diff.go:130-137 | For all paths, raw and sortable order differ exactly when, at the first difference, one has a slash and the other a byte between \x01 and the slash, or \x01 itself with the rest in the other order. |
| `PathDiff.DiffPair.Diff` | internal/util/paths/diff.go:106-141 | The change of the two held files, and which of them are let go. |
| `PathDiff.Diff` | internal/util/paths/diff.go:65-93 | The callback gets the changes of the merge in order, a prefix of them up to its first error, all of them otherwise; the count is the number of source files. |
| `PathDiff.ChangesAddUp` | internal/util/paths/diff.go:65-141 | In any stream order, added + modified + unchanged is the number of source files and removed + modified + unchanged that of target files. |
| `PathDiff.SortedChanges` | internal/util/paths/diff.go:65-141 | For sorted streams: exactly one change per path of the union, in increasing order, of the right kind. |
| `StreamOrder.AddsIndexedIff` | internal/util/paths/diff.go:106-141 | For streams in any order, the merge adds a path the target still holds if and only if a file overtakes: it precedes, in raw order, a target file placed before it, and each source file before it, in order, equals or precedes a target file up to that one. |
| `Indexing.RunSynchronisesIff` | internal/core/note_index.go:162-191 | From any safe index and for streams in any order, a run leaves the indexed paths and dates equal to the files if and only if no file is overtaken so. |
| `Indexing.RunSynchronises` | internal/core/note_index.go:162-191 | For streams in walk order it is enough that, after each file to remove, the first path both streams hold does not precede it in raw order. |
| `Indexing.RunWithoutNewFilesIff` | internal/core/note_index.go:162-191 | When no file is new, the run synchronises if and only if that holds. |
| `StreamOrder.NoConflictInPlace` | internal/util/paths/diff.go:130-137 | It holds in particular when the two orders agree on the paths of the streams. |
| `StreamOrder.AddsIndexedDisplaces` | internal/util/paths/diff.go:106-141 | In walk order, whatever is added while indexed precedes a file to remove that it is the first shared path after. |
| `StreamOrder.DisplacedAddsIndexed` | internal/util/paths/diff.go:106-141 | When no file is new, such a path makes the merge add it while it is indexed. |
| `Indexing.AddedIsLost` | internal/core/note_index.go:162-191 | A file added while the target still holds it is not indexed at the end of the run, whatever the index was. |
| `StreamOrder.DeletedFolderLosesNote` | internal/util/paths/diff.go:130-137 | Deleting `a/b.md` lets `a.md` overtake it, so a run loses `a.md`. |
| `Indexing.NextRunChangesNothing` | internal/core/note_index.go:162-191 | A run right after one that synchronised, without force, reports every file unchanged and leaves every table as it is. |
| `Indexing.RunView` | internal/core/note_index.go:162-191 | The tables, seen as paths and dates, follow the changes whatever the links and tags are, and stay safe. |
| `Indexing.Apply` | internal/core/note_index.go:167-191 | The operation of the change is issued; a file that does not parse issues none. |
| `Indexing.ApplyAll` | internal/core/note_index.go:162-191 | The operations are issued in order and counted by kind. |
| `Indexing.ApplyChanges` | internal/core/note_index.go:162-191 | A panic of the parser or the index leaves the rest of the changes undone; without one all are applied. |
| `Indexing.Execute` | internal/core/note_index.go:96-206 | When nothing fails the index goes through the changes of the merge, forced when the flag was up, ends in sync for ready streams, and the flag is down; it fails exactly for the failures that are met. |
| `IndexedContent.StepMakesCurrent` | internal/adapter/sqlite/note_index.go:117-247 | After an Add or Update that succeeds, the note has the text, date and tags it was parsed with, and each link as often as it was parsed. |
| `IndexedContent.AddMakesCurrent` | internal/adapter/sqlite/note_index.go:117-140 | Add gives the note its parsed path, title, body, content, date, tags and links under a new id; the other notes have what they had. |
| `IndexedContent.AddTouchesOneRow` | internal/adapter/sqlite/note_dao.go:132-154 | Add stores the creation date and touches no other row. |
| `IndexedContent.UpdateTouchesOneRow` | internal/adapter/sqlite/note_dao.go:49-57 | Update keeps the path and the creation date of its note and touches no other row. |
| `IndexedContent.RemoveTouchesOneRow` | internal/adapter/sqlite/note_dao.go:185-196 | Remove deletes its row and touches no other. |
| `IndexedContent.StepLeavesCurrent` | internal/adapter/sqlite/note_index.go:117-297 | No operation on another path changes the text, tags or links of a note. |
| `IndexedContent.RunMakesCurrent` | internal/core/note_index.go:162-191 | After a run that synchronises, every file it added or modified is indexed with the text, date, tags and links it was parsed with. |
| `IndexedContent.ForcedRunMakesAllCurrent` | internal/core/note_index.go:113-191 | After a forced run that synchronises, every file is. |
| `Migrations.Database.RunMigrations` | internal/adapter/sqlite/db.go:75-251 | It succeeds exactly when no pending migration and no write of the reindexing key fails; then every pending migration is done and the flag is up if one asked for it. |
| `Migrations.Database.Migrate` | internal/adapter/sqlite/transaction.go:48-68 | Success is reported exactly when no statement fails; committed exactly when the commit does not fail either; otherwise version, tables and flag are as before. |
| `Migrations.Database.Index` | internal/core/notebook.go:67-81 | An index run is one transaction: committed, the tables are at the end of its changes and the flag is down; on an error, a panic or a failing commit, version, tables and flag are as before, and for a failing commit success is reported nevertheless. |
| `Migrations.ReportedIffCommitted` | internal/adapter/sqlite/transaction.go:48-68 | Success is reported exactly for committed transactions unless the body completes and the commit fails; then it is reported and nothing has changed. |
| `Migrations.HistoryKeeps` | internal/adapter/sqlite/transaction.go:48-68 | Over every history of migrations and index runs, with failures and rollbacks, the tables keep their invariants. |
| `Migrations.VersionNeverDecreases` | internal/adapter/sqlite/db.go:222-232 | Over every such history the schema version never decreases. |
| `Migrations.MigrationIsDone` | internal/adapter/sqlite/db.go:222-232 | Once a migration is committed, no later one changes anything, whatever happens in between. |
| `Migrations.FlagStaysUp` | internal/adapter/sqlite/db.go:234-242 | A migration that needs reindexing leaves the flag up through every history without a committed index run. |
| `Migrations.OldSchemaIsFlagged` | internal/adapter/sqlite/db.go:215-219 | Migrating any database older than schema 7 brings it there and raises the flag; any other is left as it is. |
| `Migrations.FlagLoweredByFullRun` | internal/core/note_index.go:113-203 | Whenever the flag goes from up to down in a history, an index run was committed in between from a state where it was up: the tables are at the end of its forced changes, and an Add or Update was issued for exactly the files that parse. |
| `Migrations.FullRunIndexesAll` | internal/core/note_index.go:113-203 | Such a run over the streams of the notebook leaves every file indexed as parsed and nothing else indexed. |
| `IndexedContent.ForcedReportsAll` | internal/util/paths/diff.go:106-141 | A forced merge reports every source file as added or modified, in any stream order. |
| `Fts5Query.ConvertQuery` | internal/util/fts5/fts5.go:6-103 | The loop computes the conversion the lemmas below, of this module and of Fts5Terms, speak of. |
| `Fts5Query.ConvertIsWellFormed` | internal/util/fts5/fts5.go:6-103 | Every output is a list of non-empty quoted terms, operators, marks, column filters and separators, with a separator after each operator. |
| `Fts5Query.ConvertIsIdempotent` | internal/util/fts5/fts5.go:6-103 | Converting an output again gives it back. |
| `Fts5Query.FixedIffWellFormed` | internal/util/fts5/fts5.go:6-103 | The queries left unchanged are exactly those of that language. |
| `Fts5Query.ConvertBalancesQuotes` | internal/util/fts5/fts5.go:6-103 | The double quotes of every output are balanced. |
| `Fts5Terms.ConvertWritesItems` | internal/util/fts5/fts5.go:6-103 | For every query, the output is the terms, operators, marks and separators of an independent split of the query, in order, each in FTS5 syntax. |
| `Fts5Terms.ConvertTerm` | internal/util/fts5/fts5.go:31-54 | A bare term is quoted, a star at its end stays outside the quotes, and AND, OR, NOT stay bare. |
| `Fts5Terms.ConvertSeparated` | internal/util/fts5/fts5.go:6-103 | Around a separator outside quotes the two sides are converted on their own. |
| `Fts5Terms.ConvertOr` | internal/util/fts5/fts5.go:6-103 | A bar outside quotes becomes the operator OR between the converted sides. |
| `Fts5Terms.ConvertNot` | internal/util/fts5/fts5.go:6-103 | A dash in front of a query becomes the operator NOT. |
| `Fts5Terms.ConvertPhrase` | internal/util/fts5/fts5.go:6-103 | A quoted text is kept as one term, whatever it holds. |
| `WikiLinks.Parse` | internal/adapter/markdown/extensions/wikilink.go:40-150 | The loop finds the link the lemmas below, of this module and of WikiLinkForms, speak of. |
| `WikiLinks.FormatIsEscaped` | internal/core/link_format.go:77-86 | The two replacements are one pass: backslashes are doubled and each pair of brackets gets one. |
| `WikiLinks.PrintedLinkParses` | internal/core/link_format.go:77-86 | A path that survives is read back from its printed link whatever follows on the line; a hash right after makes it a down link. |
| `WikiLinks.RoundTripIff` | internal/adapter/markdown/extensions/wikilink.go:40-150 | Printing then parsing returns the path if and only if it is trimmed and not empty, does not begin with `[` or `#`, and has no pipe, no line break and no closing brackets at its end or in an odd run of three or more. |
| `WikiLinkForms.LinkIsRead` | internal/adapter/markdown/extensions/wikilink.go:40-150 | A link with two or three brackets, with or without a hash in front and a label, is read with its trimmed path, its trimmed label or else the path, and the relation that its brackets and hashes give. |
| `WikiLinkForms.LabelledLink` | internal/adapter/markdown/extensions/wikilink.go:130-150 | `[[path`, a pipe, `label]]` has that path and label, and is a down link exactly when a hash follows. |
| `WikiLinkForms.OtherBracketsAreNoLink` | internal/adapter/markdown/extensions/wikilink.go:40-150 | With fewer than two or more than three opening brackets there is no link. |
| `WikiLinkForms.UnclosedIsNoLink` | internal/adapter/markdown/extensions/wikilink.go:40-150 | Without closing brackets there is no link. |
| `LinkPaths.OnlySlashesRewritten` | internal/core/link_format.go:104-112 | Turning `%2F` back into a slash rewrites encoded slashes and nothing else. |
| `LinkPaths.UnescapeFormatted` | internal/adapter/markdown/markdown.go:222 | Decoding an encoded path returns it, for every byte string. |
| `LinkPaths.EncodedIsSafe` | internal/core/link_format.go:104-112 | An encoded path holds letters, digits and a few marks only: no white space, parenthesis or bracket. |
| `LinkPaths.PlainPathIsKept` | internal/core/link_format.go:104-112 | A path of those characters without a percent sign is written as it is. |
| `TagOptions.ParseIsReading` | internal/adapter/sqlite/note_dao.go:559-586 | For every option text, the group built is the one and only group the text names: its parts between the first separators, a sign that negates, globs without the white space around them. |
| `TagOptions.PlainTagIff` | internal/adapter/sqlite/note_dao.go:566-575 | A single tag stands for itself exactly when it begins with neither `-` nor NOT. |
| `TagOptions.NegatedTag` | internal/adapter/sqlite/note_dao.go:566-575 | A tag after `-` or NOT is that tag negated. |
| `TagOptions.EitherTag` | internal/adapter/sqlite/note_dao.go:559-562 | Two tags around either separator are a group of the two. |
| `FindRows.HrefsIdsIff` | internal/adapter/sqlite/note_dao.go:268-306 | The ids looked up for hrefs are exactly those of the notes some href designates: by file name if that finds a note, else anywhere in the path if that does, else as a path or folder. |
| `FindRows.SetupLinkFilter` | internal/adapter/sqlite/note_dao.go:448-517 | An error exactly for hrefs that find no note; otherwise one clause more, one join on the given notes and a grouping unless the filter is negated, the closure for a recursive filter, and nothing else. |
| `FindRows.PushMatches` | internal/adapter/sqlite/note_dao.go:519-541 | One clause with one argument per text to match. |
| `FindRows.PushTags` | internal/adapter/sqlite/note_dao.go:559-605 | One clause per tag group with an argument per glob; a negated group with OR is an error. |
| `FindRows.PushGraph` | internal/adapter/sqlite/note_dao.go:623-648 | The clauses and the joins of the three link filters in order, grouping exactly when there is a join, and the maximum distance of the last one. |
| `FindRows.PushColumns` | internal/adapter/sqlite/note_dao.go:650-686 | The clauses on the note itself, each with its arguments. |
| `FindRows.FindRows` | internal/adapter/sqlite/note_dao.go:437-757 | The clauses and the arguments of all filters in the same order, the joins of the link filters, grouping exactly when something is joined, and an error exactly for rejected options. |
| `FindNotes.PositionalArguments` | internal/adapter/sqlite/note_dao.go:733-757 | Taking arguments by position gives every clause its own values. |
| `FindNotes.BoundsFit` | internal/adapter/sqlite/note_dao.go:437-757 | Every clause written comes with as many arguments as it has placeholders, for all options. |
| `FindNotes.LinkClauses` | internal/adapter/sqlite/note_dao.go:494-516 | The clause of a link filter holds exactly for the notes linked, within its maximum distance, to or by the given ones, or for the others when negated. |
| `FindNotes.HavingIsRelated` | internal/adapter/sqlite/note_dao.go:641-648 | The minimum of HAVING is taken over the rows joined for `--related` and no others. |
| `FindNotes.QueryIsIntersection` | internal/adapter/sqlite/note_dao.go:437-757 | The notes the built query selects, by its clauses, arguments and joins, are exactly those that pass every filter taken alone, when recursive filters agree on the maximum distance. |
| `FindNotes.QueryAtEffectiveMax` | internal/adapter/sqlite/note_dao.go:623-648 | Without any condition, the notes the built query selects are those that pass every filter once all link filters are given the maximum distance of the last one. |
| `FindNotes.PlainTagSelects` | internal/adapter/sqlite/note_dao.go:559-605 | The query of a tag option without a sign selects the notes with a tag that matches it. |
| `FindNotes.NegatedTagSelects` | internal/adapter/sqlite/note_dao.go:559-605 | That of a negated tag selects the notes without such a tag. |
| `FindNotes.EitherTagSelects` | internal/adapter/sqlite/note_dao.go:559-605 | That of two tags selects the notes with a tag that matches one of them. |
| `FindNotes.NegatedEitherRejected` | internal/adapter/sqlite/note_dao.go:589-591 | A negated tag next to another one is refused. |
| `FindNotes.RowsReturned` | internal/adapter/sqlite/note_dao.go:437-757 | Joins never repeat a note in the result. |
| `FindNotes.SameMaxIff` | internal/adapter/sqlite/note_dao.go:713-717 | When two maximum distances allow the same distances. |
| `FindNotes.MaximumMattersIff` | internal/adapter/sqlite/note_dao.go:623-648 | Replacing the maximum of a filter changes nothing in any notebook if and only if the two maximums allow the same distances. |
| `NamedFilters.ExpandNamedFilters` | internal/cli/filtering.go:50-133 | Ends for every table of filters, cyclic ones included; the result is the pre-order walk of the expansion, and it fails exactly when a filter it meets does not parse. |
| `NamedFilters.FoldedList` | internal/cli/filtering.go:78-125 | List options are concatenated in pre-order. |
| `NamedFilters.FoldedFlag` | internal/cli/filtering.go:78-125 | A flag is set when some filter met sets it. |
| `NamedFilters.FoldedNumber` | internal/cli/filtering.go:78-125 | The first non-zero limit and distance in pre-order win. |
| `NamedFilters.FoldedText` | internal/cli/filtering.go:78-125 | The first non-empty date and strategy in pre-order win. |
| `NamedFilters.LeavesAreFinal` | internal/cli/filtering.go:50-133 | A path left is not a filter name, or names a filter it was met under. |
| `NamedFilters.ExpandNothing` | internal/cli/filtering.go:50-133 | Without a path that names a filter to expand, the options stay as they are. |
| `NamedFilters.ExpandOne` | internal/cli/filtering.go:50-133 | A path that names a filter is replaced in place by the paths of that filter, itself expanded; its options are merged after those of the paths before it and before those of the paths after it. |
| `NamedFilters.ExpandFailsIff` | internal/cli/filtering.go:50-133 | The expansion fails exactly when some path names a filter to expand that does not parse or whose own expansion fails. |
| `DocumentLinks.Scanner.IsLineWithinCodeBlock` | internal/adapter/lsp/document.go:218-260 | Whether a line is code depends on the lines alone, and fenced and indented states are never both on, whatever was left at the first line. |
| `DocumentLinks.Scanner.KeepLinks` | internal/adapter/lsp/document.go:274-342 | The links kept are those outside inline code, with their place in the line. |
| `DocumentLinks.Scanner.ScanLine` | internal/adapter/lsp/document.go:304-345 | The inline state after a line is the parity of the backticks so far. |
| `DocumentLinks.Scanner.DocumentLinks` | internal/adapter/lsp/document.go:264-349 | The links found are a function of the lines, never of what an earlier call left behind. |
| `DocumentLinks.InlineIsOdd` | internal/adapter/lsp/document.go:194-201 | A link is dropped as inline code exactly when an odd number of backticks precede its end in the lines outside code blocks. |
| `DocumentLinks.FencedBlock` | internal/adapter/lsp/document.go:227-250 | A fence is closed by the next line that begins with the same fence, or by none; all the lines in between are code. |
| `DocumentLinks.IndentedBlock` | internal/adapter/lsp/document.go:235-257 | An indented block begins at the first line or after an empty one and goes on over indented and empty lines. |
| `DocumentLinks.IndentedBlockEnds` | internal/adapter/lsp/document.go:235-242 | It ends at the first other line, which is no code. |
| `DocumentLinks.OrdinaryLine` | internal/adapter/lsp/document.go:243-260 | Outside blocks, a line is code exactly when it opens one. |
| `DocumentLinks.FenceOpensIff` | internal/adapter/lsp/document.go:227-250 | A fence outside a fenced block opens one exactly when no indented block precedes it. |
| `DocumentLinks.FoundIffReported` | internal/adapter/lsp/document.go:264-349 | A link is found exactly when its line is outside code blocks, an even number of backticks precede its end, it is no image, file URI or magnet link, and its href, decoded for Markdown links, is not empty. |

## Left out

- FindNotes.QueryIsIntersection: that the maximum distances must agree is proved filter by filter (MaximumMattersIff), not for whole option sets, where another filter may hide the difference; QueryAtEffectiveMax has no such condition.
- Indexing.RunSynchronises: its simpler condition is exact only when no file is new (RunWithoutNewFilesIff); the exact one for all streams is in RunSynchronisesIff. Paths hold no byte at or below \x01.
- IndexInvariants.RunKeeps: that a target is a shortest match is claimed for clean hrefs: not an anchor alone, and already relative to the notebook root or impossible to make so. For the others it is false, and LinkTargets.RetargetIsFresh says exactly when. Making an href relative (Go's filepath functions) and the URL test are given functions.
- LinkTargets.OptimalIsFresh: for clean hrefs, for the same reason; so is LinkTargets.RetargetIsFreshOutsideWiki.
- Migrations.Database.RunMigrations: the rows of the tables are not changed by a migration; the default values of the columns it adds are not modelled.
- FindNotes.PositionalArguments: full-text matching and mention filters, which rest on FTS5, are not options of the model, nor are sorting, snippets and the result limit.
- DocumentLinks.Scanner.DocumentLinks: the matches of the two link patterns are given, within their line; titles and the conversion of byte offsets to runes are not modelled.
- NamedFilters.ExpandNamedFilters: the options of a named filter are given parsed; sharing of slices between expansions is not modelled.
- WikiLinks.Parse: the line is given; the position of the block reader after the link is not modelled.
- Fts5Query.ConvertIsWellFormed: the output is described as text; how FTS5 parses two adjacent quoted terms is not modelled.
- NoteIndex.NoteIndex.Add: statements fail only for a repeated path; other database errors are not modelled. Title, rels, snippets and positions of links, word counts, checksums and metadata are left out.
- The SQLite engine, FTS5 tokenising and ranking, Go's regexp engine: only the tables, the constraints and triggers used, LIKE, and the string predicates the path patterns denote. GLOB and REGEXP on contents are given functions.
- Lengths of paths are the same for SQL and Go, as for ASCII paths.
- Walking the file system, channels and row streaming: both streams are fixed sequences, that of the index taken before the changes are applied.
- Markdown, YAML and configuration parsing, commands, LSP requests other than document links, terminal output: they would add no property of this kind.
