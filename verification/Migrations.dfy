/** Schema migrations, index runs and the flag that asks for a full reindexing, as transactions on one
    store: what any history of them, with failures and rollbacks, does to the version, the tables
    and the flag. */
module Migrations {
  import opened IndexSpec
  import opened IndexInvariants
  import opened PathDiff
  import opened Indexing
  import opened IndexedContent
  import NoteIndex

  /** Whether each migration asks for the notes to be indexed again. */
  const NEEDS_REINDEXING := [false, false, true, false, true, false, true]

  const LATEST: nat := |NEEDS_REINDEXING|

  /** Some migration from `version` on asks for reindexing. */
  predicate NeedsFrom(version: nat, upTo: nat)
    requires upTo <= LATEST
  {
    exists i | version <= i < upTo :: NEEDS_REINDEXING[i]
  }

  /** PRAGMA user_version, the tables of the index and the reindexing key of the metadata table. */
  datatype Store = Store(version: nat, db: Db, needsReindexing: bool)

  // --- What each transaction does ---

  /** `fails` tells the migrations whose statements fail, `keyFails` whether writing the reindexing
      key does, and `commitFails` whether the commit does. */
  datatype Event =
    | Migration(fails: nat -> bool, keyFails: bool, commitFails: bool)
    | IndexRun(source: seq<Metadata>, target: seq<Metadata>, force: bool, parse: Parser, failure: Failure,
      commitFails: bool)

  predicate MigrationCompletes(version: nat, fails: nat -> bool, keyFails: bool) {
    (forall i | version <= i < LATEST :: !fails(i)) && !(keyFails && NeedsFrom(version, LATEST))
  }

  /** The changes an index run applies. */
  function Issued(s: Store, e: Event): seq<Change>
    requires e.IndexRun?
  {
    Changes(e.source, e.target, e.force || s.needsReindexing)
  }

  /** The body of the transaction gets to its end. */
  predicate BodyCompletes(s: Store, e: Event) {
    match e
    case Migration(fails, keyFails, _) => MigrationCompletes(s.version, fails, keyFails)
    case IndexRun(_, _, _, _, failure, _) => Completes(failure, s.needsReindexing, |Issued(s, e)|)
  }

  predicate Commits(s: Store, e: Event) {
    BodyCompletes(s, e) && !e.commitFails
  }

  /** The store after a successful migration; the rows stay as they are. */
  function Migrated(s: Store): Store {
    s.(version := if s.version < LATEST then LATEST else s.version,
       needsReindexing := s.needsReindexing || NeedsFrom(s.version, LATEST))
  }

  /** The tables went through all the changes of the run, and the flag is down. */
  ghost predicate RunTo(env: Env, s: Store, e: Event, s': Store)
    requires e.IndexRun?
  {
    s'.version == s.version && !s'.needsReindexing
    && exists dbs :: AppliesAll(env, e.parse, Issued(s, e), dbs) && dbs[0] == s.db && dbs[|dbs| - 1] == s'.db
  }

  ghost predicate Effect(env: Env, s: Store, e: Event, s': Store) {
    if !Commits(s, e) then s' == s
    else if e.Migration? then s' == Migrated(s)
    else RunTo(env, s, e, s')
  }

  // --- Transactions ---

  class Database {
    const index: NoteIndex.NoteIndex
    var version: nat

    constructor (index: NoteIndex.NoteIndex, version: nat)
      ensures this.index == index && this.version == version
    {
      this.index, this.version := index, version;
    }

    function Value(): Store
      reads this, index
    {
      Store(version, index.Value(), index.needsReindexing)
    }

    /** migrate, inside its transaction; on error the store is left half changed. */
    method RunMigrations(fails: nat -> bool, keyFails: bool) returns (ok: bool)
      modifies this`version, index`needsReindexing
      ensures ok <==> MigrationCompletes(old(version), fails, keyFails)
      ensures ok ==> Value() == Migrated(old(Value()))
    {
      var first, flag := version, index.needsReindexing;
      var needsReindexing := false;
      for i := 0 to LATEST
        invariant version == if first < i then i else first
        invariant index.needsReindexing == flag
        invariant needsReindexing <==> NeedsFrom(first, i)
        invariant forall k | first <= k < i :: !fails(k)
      {
        if first > i {
          continue;
        }
        if fails(i) {
          return false;
        }
        version := i + 1;
        needsReindexing := needsReindexing || NEEDS_REINDEXING[i];
      }
      if needsReindexing {
        if keyFails {
          return false;
        }
        index.needsReindexing := true;
      }
      return true;
    }

    /** What a rollback restores. */
    method Restore(begin: Store)
      modifies this, index
      ensures Value() == begin
    {
      version := begin.version;
      index.notes, index.links, index.tags := begin.db.notes, begin.db.links, begin.db.tags;
      index.needsReindexing := begin.needsReindexing;
    }

    /** The end of WithTransaction: commit, or roll back after an error. The error of the commit is assigned
        too late to be returned: success is reported as soon as the body has succeeded. */
    method EndTransaction(begin: Store, ok: bool, commitFails: bool) returns (reported: bool, committed: bool)
      modifies this, index
      ensures reported == ok && committed == (ok && !commitFails)
      ensures Value() == if committed then old(Value()) else begin
    {
      reported, committed := ok, ok && !commitFails;
      if !committed {
        Restore(begin);
      }
    }

    /** migrate. */
    method Migrate(fails: nat -> bool, keyFails: bool, commitFails: bool) returns (reported: bool, committed: bool)
      requires index.Valid()
      modifies this, index
      ensures index.Valid()
      ensures var e := Migration(fails, keyFails, commitFails);
        && reported == BodyCompletes(old(Value()), e) && committed == Commits(old(Value()), e)
        && Effect(index.env, old(Value()), e, Value())
    {
      var begin := Value();
      var ok := RunMigrations(fails, keyFails);
      reported, committed := EndTransaction(begin, ok, commitFails);
    }

    /** Index: the whole task is one transaction; errors and panics roll it back. */
    method Index(parse: Parser, source: seq<Metadata>, target: seq<Metadata>, force: bool, failure: Failure,
                 commitFails: bool)
      returns (reported: bool, committed: bool)
      requires index.Valid()
      modifies this, index
      ensures index.Valid()
      ensures var e := IndexRun(source, target, force, parse, failure, commitFails);
        && reported == BodyCompletes(old(Value()), e) && committed == Commits(old(Value()), e)
        && Effect(index.env, old(Value()), e, Value())
    {
      var begin := Value();
      var ok, stats;
      ghost var dbs;
      ok, stats, dbs := Execute(index, parse, source, target, force, failure);
      reported, committed := EndTransaction(begin, ok, commitFails);
    }
  }

  /** Success is reported exactly for committed transactions unless the body completes and the commit
      fails: then it is reported and the store is as before. */
  lemma ReportedIffCommitted(env: Env, s: Store, e: Event, s': Store)
    requires Effect(env, s, e, s')
    ensures BodyCompletes(s, e) == Commits(s, e) <==> !(BodyCompletes(s, e) && e.commitFails)
    ensures BodyCompletes(s, e) && e.commitFails ==> s' == s
  {
  }

  // --- Histories ---

  /** `stores` are the states met during the transactions `events`. */
  ghost predicate History(env: Env, stores: seq<Store>, events: seq<Event>) {
    |stores| == |events| + 1 && forall i | 0 < i < |stores| :: Effect(env, stores[i - 1], events[i - 1], stores[i])
  }

  /** The tables stay safe in every state of every history. */
  lemma {:induction false} HistoryKeeps(env: Env, stores: seq<Store>, events: seq<Event>, i: nat)
    requires History(env, stores, events) && Safe(env, stores[0].db) && i < |stores|
    ensures Safe(env, stores[i].db)
  {
    if i > 0 {
      HistoryKeeps(env, stores, events, i - 1);
      EffectKeeps(env, stores[i - 1], events[i - 1], stores[i]);
    }
  }

  lemma EffectKeeps(env: Env, s: Store, e: Event, s': Store)
    requires Effect(env, s, e, s') && Safe(env, s.db)
    ensures Safe(env, s'.db)
  {
    if Commits(s, e) && e.IndexRun? {
      var dbs :| AppliesAll(env, e.parse, Issued(s, e), dbs) && dbs[0] == s.db && dbs[|dbs| - 1] == s'.db;
      RunView(env, e.parse, Issued(s, e), dbs);
    }
  }

  /** The schema version never decreases, over every history. */
  lemma {:induction false} VersionNeverDecreases(env: Env, stores: seq<Store>, events: seq<Event>, i: nat, j: nat)
    requires History(env, stores, events) && i <= j < |stores|
    ensures stores[i].version <= stores[j].version
  {
    if i < j {
      VersionNeverDecreases(env, stores, events, i, j - 1);
      assert Effect(env, stores[j - 1], events[j - 1], stores[j]);
    }
  }

  /** Once a migration is committed, no later one changes anything, whatever came between. */
  lemma MigrationIsDone(env: Env, stores: seq<Store>, events: seq<Event>, i: nat, j: nat)
    requires History(env, stores, events) && i < j < |events| && events[i].Migration? && events[j].Migration?
    requires Commits(stores[i], events[i])
    ensures stores[j + 1] == stores[j]
  {
    assert Effect(env, stores[i], events[i], stores[i + 1]);
    assert Effect(env, stores[j], events[j], stores[j + 1]);
    VersionNeverDecreases(env, stores, events, i + 1, j);
  }

  // --- The reindexing flag ---

  /** An Add or an Update is issued for the file. */
  ghost predicate Reindexed(changes: seq<Change>, parse: Parser, m: Metadata) {
    exists c | c in changes ::
      c.path == m.path && OpOf(parse, c).Some? && (OpOf(parse, c).value.Add? || OpOf(parse, c).value.Update?)
  }

  lemma ForcedReindexes(source: seq<Metadata>, target: seq<Metadata>, parse: Parser, m: Metadata)
    requires m in source
    ensures Reindexed(Changes(source, target, true), parse, m) <==> parse(m.path).Some?
  {
    ForcedReportsAll(source, target, m);
    var c :| c in Changes(source, target, true) && c.path == m.path && (c.kind == Added || c.kind == Modified);
    if parse(m.path).Some? {
      assert OpOf(parse, c).Some?;
    }
  }

  /** A committed index run of `s` that leads to `s'`, where an Add or an Update was issued for
      exactly the files that parse. */
  ghost predicate FullRun(env: Env, s: Store, e: Event, s': Store) {
    e.IndexRun? && Commits(s, e) && RunTo(env, s, e, s')
    && forall m | m in e.source :: Reindexed(Issued(s, e), e.parse, m) <==> e.parse(m.path).Some?
  }

  /** Whenever the flag goes down between two states of a history, a full run was committed in
      between, from a state where it was up, and left the tables at the end of its changes. */
  lemma {:induction false} FlagLoweredByFullRun(env: Env, stores: seq<Store>, events: seq<Event>, i: nat, j: nat)
    returns (k: nat)
    requires History(env, stores, events) && i <= j < |stores| && stores[i].needsReindexing
      && !stores[j].needsReindexing
    ensures i <= k < j && stores[k].needsReindexing && FullRun(env, stores[k], events[k], stores[k + 1])
  {
    if stores[j - 1].needsReindexing {
      k := j - 1;
      var e := events[k];
      assert Effect(env, stores[k], e, stores[j]);
      forall m | m in e.source ensures Reindexed(Issued(stores[k], e), e.parse, m) <==> e.parse(m.path).Some? {
        ForcedReindexes(e.source, e.target, e.parse, m);
      }
    } else {
      k := FlagLoweredByFullRun(env, stores, events, i, j - 1);
    }
  }

  /** A full run over the streams of its notebook leaves every file indexed as it was parsed, and
      nothing else indexed. */
  lemma FullRunIndexesAll(env: Env, s: Store, e: Event, s': Store)
    requires FullRun(env, s, e, s') && s.needsReindexing && Safe(env, s.db)
      && Ready(s.db.notes.rows, e.parse, e.source, e.target)
    ensures InSync(s'.db.notes.rows, e.source)
    ensures forall m | m in e.source :: e.parse(m.path).Some? && Current(s'.db, e.parse(m.path).value)
  {
    var dbs :| AppliesAll(env, e.parse, Issued(s, e), dbs) && dbs[0] == s.db && dbs[|dbs| - 1] == s'.db;
    RunSynchronisesIff(env, e.parse, e.source, e.target, true, dbs);
    ForcedRunMakesAllCurrent(env, e.parse, e.source, e.target, dbs);
  }

  /** Once a migration asks for it, the flag stays up until an index run is committed. */
  lemma FlagStaysUp(env: Env, stores: seq<Store>, events: seq<Event>, i: nat, j: nat)
    requires History(env, stores, events) && i < j < |stores| && events[i].Migration? && Commits(stores[i], events[i])
    requires NeedsFrom(stores[i].version, LATEST)
    requires forall k | i < k < j && events[k].IndexRun? :: !Commits(stores[k], events[k])
    ensures stores[j].needsReindexing
  {
    assert Effect(env, stores[i], events[i], stores[i + 1]);
    if !stores[j].needsReindexing {
      var k := FlagLoweredByFullRun(env, stores, events, i + 1, j);
    }
  }

  /** A migration leads to version 7 and raises the flag exactly for older databases. */
  lemma OldSchemaIsFlagged(s: Store)
    ensures Migrated(s).version == if s.version < 7 then 7 else s.version
    ensures Migrated(s).needsReindexing <==> s.needsReindexing || s.version < 7
  {
    assert LATEST == 7 && NEEDS_REINDEXING[6];
  }
}
