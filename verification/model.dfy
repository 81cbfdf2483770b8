/** The canonical log event, and attribute values as JSON has them. */
module Model {
  datatype Option<+T> = None | Some(value: T) {
    function UnwrapOr(default: T): T {
      if Some? then value else default
    }
  }

  /** The order of strings.Compare, and of SQLite's BINARY collation. */
  predicate Less(a: string, b: string) {
    b != "" && (a == "" || a[0] < b[0] || (a[0] == b[0] && Less(a[1..], b[1..])))
  }

  lemma {:induction false} LessIsStrict(a: string, b: string)
    ensures Less(a, b) ==> a != b && !Less(b, a)
    ensures a != b ==> Less(a, b) || Less(b, a)
    decreases |a|
  {
    if a != "" && b != "" {
      LessIsStrict(a[1..], b[1..]);
      assert a == [a[0]] + a[1..] && b == [b[0]] + b[1..];
    }
  }

  lemma {:induction false} LessIsTransitive(a: string, b: string, c: string)
    requires Less(a, b) && Less(b, c)
    ensures Less(a, c)
    decreases |a|
  {
    if a != "" && a[0] == b[0] == c[0] {
      LessIsTransitive(a[1..], b[1..], c[1..]);
    }
  }

  /** A JSON scalar. A number carries the text Go prints it as and the text
      SQLite casts it to. */
  datatype Value =
    | Null
    | Bool(b: bool)
    | Str(s: string)
    | Num(value: real, printed: string, cast: string)

  datatype LogEvent = LogEvent(
    id: string,
    timestamp: int,   // nanoseconds
    level: string,
    service: string,
    source: string,
    message: string,
    raw: string,
    attributes: map<string, Value>)

  /** The events a store holds, by ID. */
  type Events = map<string, LogEvent>

  ghost predicate Stored(events: Events, e: LogEvent) {
    e.id in events && events[e.id] == e
  }

  /** Writing a batch: a later event replaces an earlier one with its ID. */
  function Upsert(events: Events, batch: seq<LogEvent>): Events
    decreases |batch|
  {
    if batch == [] then events else Upsert(events[batch[0].id := batch[0]], batch[1..])
  }

  lemma {:induction false} UpsertConcat(events: Events, xs: seq<LogEvent>, ys: seq<LogEvent>)
    ensures Upsert(events, xs + ys) == Upsert(Upsert(events, xs), ys)
    decreases |xs|
  {
    if xs == [] {
      assert xs + ys == ys;
    } else {
      assert (xs + ys)[1..] == xs[1..] + ys;
      UpsertConcat(events[xs[0].id := xs[0]], xs[1..], ys);
    }
  }

  ghost predicate Bears(batch: seq<LogEvent>, id: string) {
    exists e :: e in batch && e.id == id
  }

  /** An ID finds an event of the batch if one bears it, else what was there. */
  lemma {:induction false} UpsertFinds(events: Events, batch: seq<LogEvent>, id: string)
    ensures var events' := Upsert(events, batch);
            if Bears(batch, id) then id in events' && events'[id] in batch && events'[id].id == id
            else (id in events' <==> id in events) && (id in events ==> events'[id] == events[id])
    decreases |batch|
  {
    if batch != [] {
      var first, rest := batch[0], batch[1..];
      UpsertFinds(events[first.id := first], rest, id);
      assert batch == [first] + rest;
    }
  }

  /** Writing events whose IDs determine them keeps what is stored and stores
      the batch; doing it again changes nothing. */
  lemma UpsertStores(events: Events, batch: seq<LogEvent>, e: LogEvent)
    requires forall b :: b in batch && b.id == e.id ==> b == e
    requires Stored(events, e) || e in batch
    ensures Stored(Upsert(events, batch), e)
  {
    UpsertFinds(events, batch, e.id);
  }
}
