/** The SQLite store: the logs table, and the full-text index that search joins
    to it by row ID. */
module Sqlite {
  import opened Model
  import opened Fts
  import opened Query

  /** A row of logs_fts. */
  datatype FtsRow = FtsRow(id: string, text: string)

  type Logs = map<nat, LogEvent>
  type Index = map<nat, FtsRow>

  /** The ID column is unique. */
  ghost predicate UniqueIds(logs: Logs) {
    forall r, r' {:trigger logs[r], logs[r']} :: r in logs && r' in logs && logs[r].id == logs[r'].id ==> r == r'
  }

  /** The text of an event, in some order of its attributes. */
  ghost predicate IsTextOf(text: string, e: LogEvent) {
    exists keys :: Listing(keys, e.attributes) && text == FtsText(e, keys)
  }

  ghost predicate Describes(row: FtsRow, e: LogEvent) {
    row.id == e.id && IsTextOf(row.text, e)
  }

  /** The index has a row for every log row under the same row ID, its text that
      of the event, and no other rows. */
  ghost predicate Exact(logs: Logs, index: Index) {
    && logs.Keys == index.Keys
    && forall r {:trigger Describes(index[r], logs[r])} :: r in logs ==> Describes(index[r], logs[r])
  }

  ghost predicate RowHas(logs: Logs, r: nat, id: string) {
    r in logs && logs[r].id == id
  }

  ghost predicate HasRow(logs: Logs, id: string) {
    exists r :: RowHas(logs, r, id)
  }

  /** The table holds exactly these events, one row each. */
  ghost predicate Holds(logs: Logs, events: Events) {
    && UniqueIds(logs)
    && (forall r {:trigger logs[r]} :: r in logs ==> Stored(events, logs[r]))
    && (forall id {:trigger HasRow(logs, id)} :: id in events ==> HasRow(logs, id))
  }

  lemma HoldsPut(logs: Logs, events: Events, r: nat, e: LogEvent)
    requires Holds(logs, events)
    requires if r in logs then logs[r].id == e.id else !HasRow(logs, e.id)
    ensures Holds(logs[r := e], events[e.id := e])
  {
    var logs', events' := logs[r := e], events[e.id := e];
    forall k | k in logs && k != r ensures logs[k].id != e.id {
      assert RowHas(logs, k, logs[k].id);
    }
    assert RowHas(logs', r, e.id);
    forall id | id in events' ensures HasRow(logs', id) {
      if id != e.id {
        assert HasRow(logs, id);
        var k :| RowHas(logs, k, id);
        assert RowHas(logs', k, id);
      }
    }
  }

  lemma ExactPut(logs: Logs, index: Index, r: nat, e: LogEvent, row: FtsRow)
    requires Exact(logs, index) && Describes(row, e)
    ensures Exact(logs[r := e], (index - {r})[r := row])
  {
  }

  function Older(logs: Logs, cutoff: int): set<nat> {
    set r | r in logs && logs[r].timestamp < cutoff
  }

  /** The events that are not older than a time. */
  function Since(events: Events, cutoff: int): Events {
    map id | id in events && events[id].timestamp >= cutoff :: events[id]
  }

  lemma HoldsPurged(logs: Logs, events: Events, cutoff: int)
    requires Holds(logs, events)
    ensures Holds(logs - Older(logs, cutoff), Since(events, cutoff))
  {
    var logs' := logs - Older(logs, cutoff);
    forall id | id in Since(events, cutoff) ensures HasRow(logs', id) {
      assert HasRow(logs, id);
      var r :| RowHas(logs, r, id);
      assert RowHas(logs', r, id);
    }
  }

  /** Writing a batch again changes nothing. */
  lemma AgainChangesNothing(events: Events, batch: seq<LogEvent>)
    ensures Upsert(Upsert(events, batch), batch) == Upsert(events, batch)
  {
    var once := Upsert(events, batch);
    forall id ensures id in Upsert(once, batch) <==> id in once {
      UpsertFinds(events, batch, id);
      UpsertFinds(once, batch, id);
    }
    forall id | id in once ensures Upsert(once, batch)[id] == once[id] {
      UpsertFinds(once, batch, id);
      if Bears(batch, id) {
        UpsertSame(events, once, batch, id);
      }
    }
  }

  /** Where a batch bears an ID, what was there before does not matter. */
  lemma {:induction false} UpsertSame(a: Events, b: Events, batch: seq<LogEvent>, id: string)
    requires Bears(batch, id) || (id in a && id in b && a[id] == b[id])
    ensures id in Upsert(a, batch) && id in Upsert(b, batch)
    ensures Upsert(a, batch)[id] == Upsert(b, batch)[id]
    decreases |batch|
  {
    if batch != [] {
      var e, rest := batch[0], batch[1..];
      assert batch == [e] + rest;
      if e.id != id && Bears(batch, id) {
        var x :| x in batch && x.id == id;
        assert x in rest;
      }
      UpsertSame(a[e.id := e], b[e.id := e], rest, id);
    }
  }

  /** The rows that search reads: logs joined with logs_fts by row ID. */
  ghost function JoinedRows(logs: Logs, index: Index): set<Row> {
    set r | r in logs && r in index :: Row(logs[r], index[r].text)
  }

  lemma EveryEventIsJoined(logs: Logs, index: Index, events: Events, e: LogEvent)
    returns (row: Row, keys: seq<string>)
    requires Holds(logs, events) && Exact(logs, index) && Stored(events, e)
    ensures row in JoinedRows(logs, index) && row.event == e
    ensures Listing(keys, e.attributes) && row.text == FtsText(e, keys)
  {
    assert HasRow(logs, e.id);
    var r :| RowHas(logs, r, e.id);
    assert Stored(events, logs[r]) && Describes(index[r], logs[r]);
    row := Row(e, index[r].text);
    keys :| Listing(keys, e.attributes) && row.text == FtsText(e, keys);
  }

  /** A query finds, in a store with an exact index, exactly the events that the
      matcher accepts, in whatever order the matcher visits their attributes, as
      long as its terms are steady on them: single words always are. */
  lemma SearchFindsWhatMatches(lib: Lib, w: Letters, q: Query, logs: Logs, index: Index, events: Events,
                               e: LogEvent, keys: seq<string>)
    requires Holds(logs, events) && Exact(logs, index) && Stored(events, e)
    requires Listing(keys, e.attributes)
    requires forall f :: f in q.filters ==> Alike(lib, f, e) && !Corner(lib, f, e)
    requires forall t :: t in q.terms ==> Steady(w, e, t)
    requires q.terms != [] ==> forall k :: k in keys ==> !e.attributes[k].Null?
    ensures (exists row :: row in JoinedRows(logs, index) && row.event == e
                           && RowSelected(lib, w, row, Where(lib, q)))
            <==> QueryMatches(lib, w, q, e, keys)
  {
    var row, keys' := EveryEventIsJoined(logs, index, events, e);
    assert forall row' :: row' in JoinedRows(logs, index) && row'.event == e ==> row' == row;
    QueryAgreement(lib, w, q, e, keys');
    forall t | t in q.terms
      ensures Occurs(FtsTokens(w, e, keys), Tokens(w, t)) <==> Occurs(FtsTokens(w, e, keys'), Tokens(w, t))
    {
      SteadyInAnyOrder(w, e, keys, keys', t);
    }
  }

  // ----- the database -----------------------------------------------------------------------

  /** Which statement of a transaction fails, if any; past the end it is the
      commit. */
  type Fault = Option<nat>

  class DB {
    var logs: Logs
    var index: Index
    ghost var events: Events

    ghost predicate Valid()
      reads this
    {
      Holds(logs, events) && Exact(logs, index)
    }

    constructor ()
      ensures Valid() && events == map[]
    {
      logs, index, events := map[], map[], map[];
    }

    /** Writes a batch in one transaction: either every event is upserted, each
        keeping the row it had, or nothing changes. */
    method Append(batch: seq<LogEvent>, fault: Fault) returns (ok: bool)
      requires Valid()
      modifies this
      ensures Valid()
      ensures ok <==> fault.None? || batch == []
      ensures events == if ok then Upsert(old(events), batch) else old(events)
      ensures ok ==> forall r :: r in old(logs) ==> r in logs && logs[r].id == old(logs[r]).id
      ensures !ok ==> logs == old(logs) && index == old(index)
    {
      if |batch| == 0 {
        return true;
      }
      var txLogs: Logs, txIndex: Index := logs, index;
      ghost var written := events;
      assert batch[0..] == batch;
      for i := 0 to |batch|
        invariant logs == old(logs) && index == old(index) && events == old(events)
        invariant Holds(txLogs, written) && Exact(txLogs, txIndex)
        invariant Upsert(written, batch[i..]) == Upsert(old(events), batch)
        invariant forall r :: r in logs ==> r in txLogs && txLogs[r].id == logs[r].id
      {
        if fault == Some(i) {
          return false;
        }
        var e := batch[i];
        var rowid := UpsertRow(txLogs, e.id);
        HoldsPut(txLogs, written, rowid, e);
        var text := EventText(e);
        ExactPut(txLogs, txIndex, rowid, e, FtsRow(e.id, text));
        assert batch[i..][1..] == batch[i + 1..];
        txLogs := txLogs[rowid := e];
        txIndex := txIndex - {rowid};
        txIndex := txIndex[rowid := FtsRow(e.id, text)];
        written := written[e.id := e];
      }
      if fault.Some? {
        return false;
      }
      logs, index, events := txLogs, txIndex, written;
      return true;
    }

    /** Deletes the events older than a time, and their index rows by row ID. */
    method Purge(cutoff: int) returns (n: nat)
      requires Valid()
      modifies this
      ensures Valid()
      ensures events == Since(old(events), cutoff)
      ensures n == |Older(old(logs), cutoff)|
      ensures forall r :: r in logs ==> r in old(logs) && logs[r] == old(logs[r])
    {
      HoldsPurged(logs, events, cutoff);
      index := index - Older(logs, cutoff);
      n := |Older(logs, cutoff)|;
      logs := logs - Older(logs, cutoff);
      events := Since(events, cutoff);
    }

    /** Re-creates the index from the table, whatever it held: afterwards it is
        exact. */
    method RebuildFtsRowids()
      requires Holds(logs, events)
      modifies this`index
      ensures Valid()
    {
      index := RebuiltIndex(logs);
    }

  }

  /** An index built from nothing but the table. */
  method RebuiltIndex(logs: Logs) returns (index: Index)
    ensures Exact(logs, index)
  {
    index := map[];
    var rest := logs.Keys;
    while rest != {}
      invariant rest <= logs.Keys && index.Keys == logs.Keys - rest
      invariant forall r :: r in index ==> Describes(index[r], logs[r])
      decreases |rest|
    {
      var rowid :| rowid in rest;
      var text := EventText(logs[rowid]);
      index, rest := index[rowid := FtsRow(logs[rowid].id, text)], rest - {rowid};
    }
  }

  /** The row of an ID, or an unused one past the others. */
  method UpsertRow(logs: Logs, id: string) returns (rowid: nat)
    requires UniqueIds(logs)
    ensures if HasRow(logs, id) then RowHas(logs, rowid, id) else rowid !in logs
  {
    var rows := logs.Keys;
    rowid := 1;
    while rows != {}
      invariant rows <= logs.Keys
      invariant forall r :: r in logs.Keys - rows ==> r < rowid && logs[r].id != id
      decreases |rows|
    {
      var r :| r in rows;
      if logs[r].id == id {
        assert RowHas(logs, r, id);
        return r;
      }
      rows := rows - {r};
      if r >= rowid {
        rowid := r + 1;
      }
    }
  }

  /** The text of an event, its attributes in whatever order the map yields. */
  method EventText(e: LogEvent) returns (text: string)
    ensures IsTextOf(text, e)
  {
    var rest, keys := e.attributes.Keys, [];
    while rest != {}
      invariant rest <= e.attributes.Keys
      invariant forall k :: k in keys <==> k in e.attributes.Keys - rest
      invariant forall i, j :: 0 <= i < j < |keys| ==> keys[i] != keys[j]
      decreases |rest|
    {
      var k :| k in rest;
      assert k !in keys && forall i :: 0 <= i < |keys| ==> keys[i] in keys;
      keys, rest := keys + [k], rest - {k};
    }
    text := WriteFtsText(e, keys);
  }
}
