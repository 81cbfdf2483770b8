/** From ingest to search: what a restarted server finds. */
module EndToEnd {
  import opened Bytes
  import opened Model
  import opened Strings
  import opened Fts
  import opened Query
  import opened Paging
  import opened Sqlite
  import Wal
  import WalCodec
  import Ingest
  import Ingestor

  /** What agreement of the two engines asks of a query and an event. */
  ghost predicate Comparable(lib: Lib, w: Letters, q: Query, e: LogEvent, keys: seq<string>) {
    && Listing(keys, e.attributes)
    && (forall f :: f in q.filters ==> Alike(lib, f, e) && !Corner(lib, f, e))
    && (q.terms != [] ==> forall k :: k in keys ==> !e.attributes[k].Null?)
    && (forall t :: t in q.terms ==> Steady(w, e, t))
  }

  /** The keys of the rows a search lists. */
  ghost function Found(lib: Lib, w: Letters, q: Query, logs: Logs, index: Index): set<Key> {
    Matching(lib, w, JoinedRows(logs, index), Where(lib, q))
  }

  lemma StoredIsMatched(logs: Logs, index: Index, store: Events, lib: Lib, w: Letters, q: Query, e: LogEvent,
                        keys: seq<string>)
    requires Holds(logs, store) && Exact(logs, index) && Stored(store, e)
    requires Comparable(lib, w, q, e, keys) && QueryMatches(lib, w, q, e, keys)
    ensures KeyOf(e) in Found(lib, w, q, logs, index)
  {
    SearchFindsWhatMatches(lib, w, q, logs, index, store, e, keys);
    var row :| row in JoinedRows(logs, index) && row.event == e && RowSelected(lib, w, row, Where(lib, q));
    assert KeyOf(row.event) in Found(lib, w, q, logs, index);
  }

  lemma PagesReach(order: Order, limit: nat, rows: set<Key>, key: Key)
    requires limit > 0 && key in rows
    ensures key in Followed(order, limit, Repeated(rows, |rows| + 1), None)
  {
    Enough(limit, |rows|);
    PagesTile(order, limit, Repeated(rows, |rows| + 1), rows);
  }

  /** Following the pages of a search reaches every stored event that its query
      accepts. */
  lemma StoredIsFound(db: DB, lib: Lib, w: Letters, q: Query, order: Order, limit: nat, e: LogEvent, keys: seq<string>)
    requires db.Valid() && Stored(db.events, e) && limit > 0
    requires Comparable(lib, w, q, e, keys) && QueryMatches(lib, w, q, e, keys)
    ensures var rows := Found(lib, w, q, db.logs, db.index);
            KeyOf(e) in rows && KeyOf(e) in Followed(order, limit, Repeated(rows, |rows| + 1), None)
  {
    StoredIsMatched(db.logs, db.index, db.events, lib, w, q, e, keys);
    PagesReach(order, limit, Found(lib, w, q, db.logs, db.index), KeyOf(e));
  }

  /** Once a recovery has succeeded, with any crashes and failures before it, a
      search of the database that the ingestor feeds finds every event accepted
      until then, now and after whatever the ingestor does next. */
  lemma AcceptedIsFound(server: Ingestor.Ingestor, recovered: Ingest.System, steps: seq<Ingest.Step>,
                        lib: Lib, w: Letters, q: Query, order: Order, limit: nat, s: nat, keys: seq<string>)
    requires server.Valid() && Ingest.Path(recovered, steps, server.Abs())
    requires Ingest.Inv(recovered) && recovered.persisted == |recovered.history|
    requires s in recovered.accepted && limit > 0
    requires 1 <= s <= |recovered.history| && var e := recovered.history[s - 1];
             Comparable(lib, w, q, e, keys) && QueryMatches(lib, w, q, e, keys)
    ensures var e, rows := recovered.history[s - 1], Found(lib, w, q, server.store.logs, server.store.index);
            KeyOf(e) in rows && KeyOf(e) in Followed(order, limit, Repeated(rows, |rows| + 1), None)
  {
    var e := recovered.history[s - 1];
    assert Stored(recovered.store, e);
    Ingest.StaysStoredAlong(recovered, steps, server.Abs(), e);
    StoredIsFound(server.store, lib, w, q, order, limit, e, keys);
  }

  /** What was refused is nowhere in the database. */
  lemma RefusedIsNotFound(server: Ingestor.Ingestor, row: Row)
    requires server.Valid() && row in JoinedRows(server.store.logs, server.store.index)
    ensures row.event.id !in server.refused
  {
    assert Stored(server.store.events, row.event);
    assert row.event in server.Abs().history;
  }

  /** A restart on whatever an earlier process left: open the log, recover, and
      serve any interleaving of producers, flushes and crashes. If recovery
      succeeds, everything accepted before is in the database at the end. */
  method Restart(dir: Wal.Dir, f: WalCodec.LawfulFormat, db: DB, json: Ingestor.Json, capacity: nat, batchSize: nat,
                 ghost told: set<nat>, ghost denied: set<string>, storeFault: nat -> Fault, fault: Wal.CheckpointFault,
                 stuck: set<nat>, schedule: seq<Ingestor.Action>)
    returns (server: Ingestor.Ingestor, ok: bool)
    requires dir.Inv(f) && db.Valid() && batchSize > 0
    requires json.Lawful() && Ingestor.Decodable(json, dir.history)
    requires Ingest.Inv(Left(json, dir, db, told, denied))
    requires |dir.history| + |schedule| + 1 < TWO_64
    requires Ingestor.IdsLeft(Ingest.Known(Left(json, dir, db, told, denied)), schedule, 0)
    modifies dir, db
    ensures server.Valid() && server.store == db && db.Valid()
    ensures ok <== fault.NoCheckpointFault? && forall n :: storeFault(n).None?
    ensures ok ==> AllStored(told, Ingestor.Decode(json, old(dir.history)), db.events)
  {
    ghost var before := Left(json, dir, db, told, denied);
    var wal := new Wal.WAL.Open(dir, f, 0, false);
    server := new Ingestor.Ingestor(wal, db, json, capacity, batchSize, told, denied);
    ghost var steps;
    ok, steps := server.Recover(storeFault, fault, stuck);
    if ok {
      ghost var recovered := server.Abs();
      assert recovered.history == before.history;
      assert recovered.refused == before.refused;
      ghost var _, more := server.Interleave(schedule);
      StayStored(recovered, more, server.Abs(), told);
    }
  }

  ghost predicate AllStored(told: set<nat>, h: seq<LogEvent>, events: Events) {
    forall s :: s in told ==> 1 <= s <= |h| && Stored(events, h[s - 1])
  }

  lemma StayStored(recovered: Ingest.System, steps: seq<Ingest.Step>, s': Ingest.System, told: set<nat>)
    requires Ingest.Inv(recovered) && recovered.persisted == |recovered.history| && told == recovered.accepted
    requires Ingest.Path(recovered, steps, s')
    ensures AllStored(told, recovered.history, s'.store)
  {
    forall s | s in told ensures 1 <= s <= |recovered.history| && Stored(s'.store, recovered.history[s - 1]) {
      Ingest.StaysStoredAlong(recovered, steps, s', recovered.history[s - 1]);
    }
  }

  /** The state of a system that is down. */
  ghost function Left(json: Ingestor.Json, dir: Wal.Dir, db: DB, told: set<nat>, denied: set<string>): Ingest.System
    requires Ingestor.Decodable(json, dir.history)
    reads dir, db
  {
    Ingest.System(Ingestor.Decode(json, dir.history), dir.persisted, db.events, Ingest.Down, told, denied)
  }

  /** As many requests for a page as could be needed. */
  ghost function Repeated(rows: set<Key>, n: nat): (states: seq<set<Key>>)
    ensures |states| == n && Constant(states, rows)
  {
    seq(n, i => rows)
  }

  lemma Enough(limit: nat, n: nat)
    requires limit > 0
    ensures n < limit * (n + 1)
  {
    assert limit * (n + 1) >= 1 * (n + 1);
  }
}
