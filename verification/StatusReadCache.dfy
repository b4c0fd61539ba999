/**
 * A per-connection read cache that is validated by two change counters instead of being invalidated by writers.
 */
module StatusReadCache {
  import opened Prelude

  /** Database contents as the cache cares about them: what loaders read, and the daemon heartbeat row. */
  datatype Db<S> = Db(data: S, heartbeat: int)

  datatype Revision = Revision(external: nat, local: nat)

  /**
   * One SQLite connection. `dataVersion` counts commits by other connections, `totalChanges` the rows this one has
   * changed, rolled back or not. `history` lists the loader-visible contents of every committed state so far.
   */
  class Connection<S(!new)> {
    var committed: Db<S>
    var working: Db<S>
    var inTransaction: bool
    var dataVersion: nat
    var totalChanges: nat
    var changesAtBegin: nat
    ghost var history: seq<S>

    ghost predicate Valid()
      reads this
    {
      && |history| > 0 && history[|history| - 1] == committed.data
      && (!inTransaction ==> working == committed)
      && (inTransaction ==> changesAtBegin <= totalChanges && (changesAtBegin == totalChanges ==> working == committed))
    }

    constructor (db: Db<S>)
      ensures Valid() && committed == db && !inTransaction && history == [db.data]
    {
      committed, working, inTransaction, dataVersion, totalChanges, changesAtBegin := db, db, false, 0, 0, 0;
      history := [db.data];
    }

    function CurrentRevision(): Revision
      reads this
    {
      Revision(dataVersion, totalChanges)
    }

    /** Whatever other connections commit at this point, possibly nothing. */
    method OthersCommit(commits: seq<Db<S>>)
      requires Valid() && !inTransaction
      modifies this
      ensures Valid() && !inTransaction
      ensures dataVersion == old(dataVersion) + |commits| && totalChanges == old(totalChanges)
      ensures committed == if commits == [] then old(committed) else commits[|commits| - 1]
      ensures history == old(history) + DataOf(commits)
    {
      if commits != [] {
        committed := commits[|commits| - 1];
        working := committed;
        dataVersion := dataVersion + |commits|;
        history := history + DataOf(commits);
      }
      assert history == old(history) + DataOf(commits);
    }

    method Begin()
      requires Valid() && !inTransaction
      modifies this
      ensures Valid() && inTransaction
          && unchanged(this`committed, this`working, this`dataVersion, this`totalChanges, this`history)
      ensures changesAtBegin == totalChanges
    {
      inTransaction := true;
      changesAtBegin := totalChanges;
    }

    /** A statement of this connection that changes `rows` rows. */
    method Write(db: Db<S>, rows: nat)
      requires Valid() && (rows == 0 ==> db == working)
      modifies this
      ensures Valid() && inTransaction == old(inTransaction) && working == db
      ensures totalChanges == old(totalChanges) + rows && dataVersion == old(dataVersion)
          && changesAtBegin == old(changesAtBegin)
      ensures inTransaction ==> committed == old(committed) && history == old(history)
      ensures !inTransaction ==> committed == db && history == old(history) + [db.data]
    {
      working := db;
      totalChanges := totalChanges + rows;
      if !inTransaction {
        committed := db;
        history := history + [db.data];
      }
    }

    method Commit()
      requires Valid() && inTransaction
      modifies this
      ensures Valid() && !inTransaction && committed == old(working) && history == old(history) + [committed.data]
      ensures unchanged(this`dataVersion, this`totalChanges)
    {
      inTransaction := false;
      committed := working;
      history := history + [committed.data];
    }

    method Rollback()
      requires Valid() && inTransaction
      modifies this
      ensures Valid() && !inTransaction && unchanged(this`committed, this`dataVersion, this`totalChanges, this`history)
    {
      inTransaction := false;
      working := committed;
    }
  }

  function DataOf<S>(commits: seq<Db<S>>): (r: seq<S>)
    ensures |r| == |commits|
  {
    seq(|commits|, i requires 0 <= i < |commits| => commits[i].data)
  }

  /** A value as callers get it: a mutable aggregate. */
  method Clone(a: array<int>) returns (b: array<int>)
    ensures fresh(b) && b[..] == a[..]
  {
    b := new int[a.Length];
    var i := 0;
    while i < a.Length
      invariant i <= a.Length && b[..i] == a[..i]
    {
      b[i] := a[i];
      i := i + 1;
    }
  }

  method FromValue(v: seq<int>) returns (b: array<int>)
    ensures fresh(b) && b[..] == v
  {
    b := new int[|v|];
    var i := 0;
    while i < |v|
      invariant i <= |v| && b[..i] == v[..i]
    {
      b[i] := v[i];
      i := i + 1;
    }
  }

  class Cache<S(!new)> {
    const sqlite: Connection<S>
    /** The one loader each key stands for. */
    const loaders: string -> S -> seq<int>
    var revision: Option<Revision>
    var values: map<string, array<int>>
    ghost var repr: set<object>

    /**
     * While the recorded revision is the connection's current one, every cached value is what its loader returns on the
     * committed state; and no cached array is known outside the cache.
     */
    ghost predicate Valid()
      reads this, repr, sqlite
    {
      && sqlite.Valid()
      && this !in repr && sqlite !in repr
      && (forall key :: key in values ==> values[key] in repr)
      && (revision.Some? ==>
            revision.value.external <= sqlite.dataVersion && revision.value.local <= sqlite.totalChanges)
      && (revision.Some? && sqlite.inTransaction ==> revision.value.local <= sqlite.changesAtBegin)
      && (revision == Some(sqlite.CurrentRevision()) ==>
            forall key :: key in values ==> values[key][..] == loaders(key)(sqlite.committed.data))
    }

    constructor (sqlite: Connection<S>, loaders: string -> S -> seq<int>)
      requires sqlite.Valid()
      ensures Valid() && this.sqlite == sqlite && this.loaders == loaders && fresh(repr)
    {
      this.sqlite, this.loaders, revision, values, repr := sqlite, loaders, None, map[], {};
    }

    /** Drops everything cached under another revision. */
    method Revalidate() returns (before: Revision)
      requires Valid() && !sqlite.inTransaction
      modifies this
      ensures Valid() && repr == old(repr) && before == sqlite.CurrentRevision() && revision == Some(before)
      ensures values == if old(revision) == Some(before) then old(values) else map[]
    {
      before := sqlite.CurrentRevision();
      if revision != Some(before) {
        values := map[];
        revision := Some(before);
      }
    }

    /** Some state committed between two moments of a call gave this value. */
    ghost predicate LoadedDuring(key: string, v: seq<int>, from: nat)
      reads this, sqlite
    {
      exists i :: from <= i < |sqlite.history| && v == loaders(key)(sqlite.history[i])
    }

    /**
     * The loader runs in a transaction of its own, so that all its queries see one state; what it reads through the
     * cache meanwhile (`nested`) comes from that transaction too.
     */
    method LoadInTransaction(key: string, nested: seq<string>) returns (value: array<int>)
      requires Valid() && !sqlite.inTransaction
      modifies this, sqlite
      ensures Valid() && !sqlite.inTransaction && unchanged(this)
      ensures fresh(value) && value[..] == loaders(key)(sqlite.committed.data)
      ensures sqlite.committed == old(sqlite.committed) && sqlite.CurrentRevision() == old(sqlite.CurrentRevision())
      ensures sqlite.history == old(sqlite.history) + [sqlite.committed.data]
      decreases 2
    {
      sqlite.Begin();
      ReadNested(nested);
      value := FromValue(loaders(key)(sqlite.working.data));
      sqlite.Commit();
    }

    method LoadAndStore(
        key: string, nested: seq<string>, before: Revision, between: seq<Db<S>>, after: seq<Db<S>>)
      returns (v: array<int>)
      requires Valid() && !sqlite.inTransaction && before == sqlite.CurrentRevision() && revision == Some(before)
      modifies this, sqlite
      ensures Valid() && fresh(v) && v !in repr && fresh(repr - old(repr)) && !sqlite.inTransaction
      ensures old(sqlite.history) <= sqlite.history
      ensures LoadedDuring(key, v[..], |old(sqlite.history)| - 1)
      ensures between == [] && after == []
          ==> sqlite.committed == old(sqlite.committed) && v[..] == loaders(key)(sqlite.committed.data)
      ensures between == [] && after == [] ==> key in values && revision == Some(sqlite.CurrentRevision())
      decreases 3
    {
      sqlite.OthersCommit(between);
      var value := LoadInTransaction(key, nested);
      ghost var loadedAt := |sqlite.history| - 1;
      sqlite.OthersCommit(after);
      assert value[..] == loaders(key)(sqlite.history[loadedAt]);
      if sqlite.CurrentRevision() == before {
        values := values[key := value];
        repr := repr + {value};
      }
      v := Clone(value);
    }

    method ReadNested(keys: seq<string>)
      requires Valid() && sqlite.inTransaction
      modifies this, sqlite
      ensures Valid() && unchanged(this) && unchanged(sqlite)
      decreases 1
    {
      for i := 0 to |keys|
        invariant Valid() && unchanged(this) && unchanged(sqlite)
      {
        var v := Read(keys[i], [], [], []);
        assert v[..] == loaders(keys[i])(sqlite.working.data);
      }
    }

    /**
     * `between` and `after` are what other connections commit after the revision is taken and after the load. Outside a
     * transaction the result is what the loader returns on a state committed at some moment during the call, so on the
     * current one when nobody else commits; inside one it is loaded from the transaction's own view and not cached.
     * The returned array is the caller's own. A key cached under the current revision asks nothing of the database, and
     * a read that nobody disturbs leaves its key cached.
     */
    method Read(key: string, nested: seq<string>, between: seq<Db<S>>, after: seq<Db<S>>) returns (v: array<int>)
      requires Valid()
      requires sqlite.inTransaction ==> between == [] && after == []
      modifies this, sqlite
      ensures Valid() && fresh(v) && v !in repr && fresh(repr - old(repr))
      ensures sqlite.inTransaction == old(sqlite.inTransaction)
      ensures sqlite.inTransaction ==>
                v[..] == loaders(key)(sqlite.working.data) && unchanged(this) && unchanged(sqlite)
      ensures !sqlite.inTransaction ==>
                old(sqlite.history) <= sqlite.history && LoadedDuring(key, v[..], |old(sqlite.history)| - 1)
      ensures !sqlite.inTransaction && between == [] && after == [] ==>
        sqlite.committed == old(sqlite.committed) && v[..] == loaders(key)(sqlite.committed.data)
      ensures !sqlite.inTransaction && between == [] && after == [] ==>
        key in values && revision == Some(sqlite.CurrentRevision())
      ensures !sqlite.inTransaction && old(revision) == Some(old(sqlite.CurrentRevision())) && key in old(values) ==>
        v[..] == old(values[key][..]) && unchanged(sqlite) && values == old(values)
      decreases if sqlite.inTransaction then 0 else 4
    {
      if sqlite.inTransaction {
        v := FromValue(loaders(key)(sqlite.working.data));
        return;
      }
      var before := Revalidate();
      if key in values {
        v := Clone(values[key]);
        assert v[..] == loaders(key)(sqlite.history[|sqlite.history| - 1]);
        return;
      }
      v := LoadAndStore(key, nested, before, between, after);
    }

    /**
     * A heartbeat writes the daemon row only, so cached values stay usable unless somebody else committed meanwhile.
     */
    method PreserveAcrossDaemonHeartbeat(heartbeat: int, rows: nat, between: seq<Db<S>>, after: seq<Db<S>>)
      requires Valid() && (rows == 0 ==> heartbeat == sqlite.working.heartbeat)
      requires sqlite.inTransaction ==> between == [] && after == []
      modifies this, sqlite
      ensures Valid() && sqlite.inTransaction == old(sqlite.inTransaction)
      ensures sqlite.inTransaction ==>
                sqlite.working == old(sqlite.working).(heartbeat := heartbeat)
                    && sqlite.committed == old(sqlite.committed)
      ensures !sqlite.inTransaction && between == [] && after == []
          ==> sqlite.committed == old(sqlite.committed).(heartbeat := heartbeat)
      ensures values == old(values) && repr == old(repr)
      ensures !sqlite.inTransaction && between == [] && after == [] ==>
                old(revision) == Some(old(sqlite.CurrentRevision())) ==> revision == Some(sqlite.CurrentRevision())
    {
      if sqlite.inTransaction {
        sqlite.Write(sqlite.working.(heartbeat := heartbeat), rows);
        return;
      }
      var before := sqlite.CurrentRevision();
      sqlite.OthersCommit(between);
      sqlite.Write(sqlite.working.(heartbeat := if rows == 0 then sqlite.working.heartbeat else heartbeat), rows);
      sqlite.OthersCommit(after);
      var now := sqlite.CurrentRevision();
      if revision == Some(before) && before.external == now.external {
        revision := Some(now);
      }
    }

    // Everything else that can happen on the connection keeps the cache valid without the cache knowing of it.

    method ExternalCommits(commits: seq<Db<S>>)
      requires Valid() && !sqlite.inTransaction
      modifies sqlite
      ensures Valid() && !sqlite.inTransaction && unchanged(this)
      ensures sqlite.committed == if commits == [] then old(sqlite.committed) else commits[|commits| - 1]
    {
      sqlite.OthersCommit(commits);
    }

    method LocalWrite(db: Db<S>, rows: nat)
      requires Valid() && (rows == 0 ==> db == sqlite.working)
      modifies sqlite
      ensures Valid() && unchanged(this) && sqlite.working == db && sqlite.inTransaction == old(sqlite.inTransaction)
      ensures sqlite.inTransaction ==> sqlite.committed == old(sqlite.committed)
    {
      sqlite.Write(db, rows);
    }

    method BeginTransaction()
      requires Valid() && !sqlite.inTransaction
      modifies sqlite
      ensures Valid() && unchanged(this) && sqlite.inTransaction
      ensures sqlite.committed == old(sqlite.committed) && sqlite.working == old(sqlite.working)
    {
      sqlite.Begin();
    }

    method CommitTransaction()
      requires Valid() && sqlite.inTransaction
      modifies sqlite
      ensures Valid() && unchanged(this) && !sqlite.inTransaction && sqlite.committed == old(sqlite.working)
    {
      sqlite.Commit();
    }

    method RollbackTransaction()
      requires Valid() && sqlite.inTransaction
      modifies sqlite
      ensures Valid() && unchanged(this) && !sqlite.inTransaction && sqlite.committed == old(sqlite.committed)
    {
      sqlite.Rollback();
    }

    /** Mutating an array a read returned cannot reach the cache: a later read still returns the loader's value. */
    method MutatedResultsDoNotLeak(key: string, x: int) returns (first: array<int>, second: array<int>)
      requires Valid() && !sqlite.inTransaction
      modifies this, sqlite
      ensures Valid() && second[..] == loaders(key)(sqlite.committed.data) && sqlite.committed == old(sqlite.committed)
    {
      first := Read(key, [], [], []);
      if first.Length > 0 { first[0] := x; }
      second := Read(key, [], [], []);
    }

    /** Any sequence of operations: every read returns what its loader returns on the state the connection then sees. */
    method Session(ops: seq<SessionOp<S>>) returns (results: seq<seq<int>>)
      requires Valid()
      modifies this, sqlite
      ensures Valid()
      ensures results
          == ReadResults(loaders, Seen(old(sqlite.committed), old(sqlite.working), old(sqlite.inTransaction)), ops)
      ensures Seen(sqlite.committed, sqlite.working, sqlite.inTransaction)
              == AfterAll(Seen(old(sqlite.committed), old(sqlite.working), old(sqlite.inTransaction)), ops)
    {
      results := [];
      ghost var start := Seen(sqlite.committed, sqlite.working, sqlite.inTransaction);
      for i := 0 to |ops|
        invariant Valid() && fresh(repr - old(repr))
        invariant Seen(sqlite.committed, sqlite.working, sqlite.inTransaction) == AfterAll(start, ops[..i])
        invariant results == ReadResults(loaders, start, ops[..i])
      {
        assert ops[..i + 1][..i] == ops[..i];
        match ops[i]
        case ReadKey(key, nested) =>
          var v := Read(key, nested, [], []);
          results := results + [v[..]];
        case OthersWrite(commits) => if !sqlite.inTransaction { ExternalCommits(commits); }
        case Write(db, more) => LocalWrite(db, more + 1);
        case Heartbeat(value, more) => PreserveAcrossDaemonHeartbeat(value, more + 1, [], []);
        case BeginTx => if !sqlite.inTransaction { BeginTransaction(); }
        case CommitTx => if sqlite.inTransaction { CommitTransaction(); }
        case RollbackTx => if sqlite.inTransaction { RollbackTransaction(); }
      }
      assert ops[..|ops|] == ops;
    }
  }

  // ------------------------------------------------------ without a cache

  /** What may happen on a connection between two reads, and the reads; a write changes `more + 1` rows. */
  datatype SessionOp<S> =
    | ReadKey(key: string, nested: seq<string>)
    | OthersWrite(commits: seq<Db<S>>)
    | Write(db: Db<S>, more: nat)
    | Heartbeat(value: int, more: nat)
    | BeginTx
    | CommitTx
    | RollbackTx

  /** What a connection sees. */
  datatype Seen<S> = Seen(committed: Db<S>, working: Db<S>, inTransaction: bool)

  function After<S>(s: Seen<S>, op: SessionOp<S>): Seen<S> {
    match op
    case ReadKey(_, _) => s
    case OthersWrite(commits) =>
      if s.inTransaction || commits == [] then s else Seen(commits[|commits| - 1], commits[|commits| - 1], false)
    case Write(db, _) => if s.inTransaction then s.(working := db) else Seen(db, db, false)
    case Heartbeat(value, _) =>
      var db := s.working.(heartbeat := value);
      if s.inTransaction then s.(working := db) else Seen(db, db, false)
    case BeginTx => s.(inTransaction := true)
    case CommitTx => Seen(s.working, s.working, false)
    case RollbackTx => if s.inTransaction then Seen(s.committed, s.committed, false) else s
  }

  function AfterAll<S>(s: Seen<S>, ops: seq<SessionOp<S>>): Seen<S> {
    if ops == [] then s else After(AfterAll(s, ops[..|ops| - 1]), ops[|ops| - 1])
  }

  /** The results of the reads, each loaded afresh from what the connection sees. */
  function ReadResults<S>(loaders: string -> S -> seq<int>, s: Seen<S>, ops: seq<SessionOp<S>>): seq<seq<int>> {
    if ops == [] then []
    else
      var front, last := ops[..|ops| - 1], ops[|ops| - 1];
      ReadResults(loaders, s, front)
          + (if last.ReadKey? then [loaders(last.key)(AfterAll(s, front).working.data)] else [])
  }
}
