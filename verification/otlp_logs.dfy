/** OTLP log requests: records, scopes and resources around the values, and the
    events they become. */
module OtlpLogs {
  import opened Bytes
  import opened Model
  import opened Protowire
  import opened Otlp

  // ----- messages as folds over fields ---------------------------------------------

  /** Taking a field into what was decoded so far; None is an error. */
  type Take<!S> = (S, Field) -> Option<S>

  /** Every decoder of this format walks the fields of its message. */
  function Walk<S>(take: Take<S>, b: seq<byte>, s: S): Option<S>
    decreases |b|
  {
    if b == [] then Some(s)
    else match ReadField(b)
      case None => None
      case Some((f, rest)) =>
        match take(s, f)
        case None => None
        case Some(s') => Walk(take, rest, s')
  }

  function WriteAll(fs: seq<Field>): seq<byte> {
    if fs == [] then [] else WriteField(fs[0]) + WriteAll(fs[1..])
  }

  function TakeAll<S>(take: Take<S>, fs: seq<Field>, s: S): Option<S>
    decreases |fs|
  {
    if fs == [] then Some(s)
    else match take(s, fs[0])
      case None => None
      case Some(s') => TakeAll(take, fs[1..], s')
  }

  ghost predicate AllWritable(fs: seq<Field>) {
    forall f :: f in fs ==> Writable(f)
  }

  /** Part of the walk over b is done: the rest of it is left, and this is what
      was decoded so far. */
  ghost predicate Walking<S>(take: Take<S>, b: seq<byte>, start: S, left: seq<byte>, s: S) {
    Walk(take, b, start) == Walk(take, left, s)
  }

  lemma WalkStep<S>(take: Take<S>, b: seq<byte>, start: S, left: seq<byte>, s: S)
    requires Walking(take, b, start, left, s) && left != []
    ensures match ReadField(left)
            case None => Walk(take, b, start) == None
            case Some((f, rest)) =>
              match take(s, f)
              case None => Walk(take, b, start) == None
              case Some(s') => Walking(take, b, start, rest, s')
  {
  }

  lemma {:induction false} WalkTakesAll<S>(take: Take<S>, fs: seq<Field>, s: S)
    requires AllWritable(fs)
    ensures Walk(take, WriteAll(fs), s) == TakeAll(take, fs, s)
    decreases |fs|
  {
    if fs != [] {
      assert fs[0] in fs;
      FieldReadsBack(fs[0], WriteAll(fs[1..]));
      var s' := take(s, fs[0]);
      if s'.Some? {
        WalkTakesAll(take, fs[1..], s'.value);
      }
    }
  }

  lemma {:induction false} TakeAllConcat<S>(take: Take<S>, fs: seq<Field>, gs: seq<Field>, s: S)
    ensures TakeAll(take, fs + gs, s)
            == match TakeAll(take, fs, s) case None => None case Some(s') => TakeAll(take, gs, s')
    decreases |fs|
  {
    if fs == [] {
      assert fs + gs == gs;
    } else {
      assert (fs + gs)[1..] == fs[1..] + gs;
      var s' := take(s, fs[0]);
      if s'.Some? {
        TakeAllConcat(take, fs[1..], gs, s'.value);
      }
    }
  }

  /** A field that a decoder passes over can stand anywhere in its message. */
  lemma IgnoredAnywhere<S(!new)>(take: Take<S>, fs: seq<Field>, f: Field, gs: seq<Field>, s: S)
    requires AllWritable(fs) && AllWritable(gs) && Writable(f)
    requires forall x: S :: take(x, f) == Some(x)
    ensures Walk(take, WriteAll(fs + [f] + gs), s) == Walk(take, WriteAll(fs + gs), s)
  {
    WalkTakesAll(take, fs + [f] + gs, s);
    WalkTakesAll(take, fs + gs, s);
    TakeAllConcat(take, fs, gs, s);
    TakeAllConcat(take, fs + [f], gs, s);
    TakeAllConcat(take, fs, [f], s);
    var s' := TakeAll(take, fs, s);
    if s'.Some? {
      assert [f][1..] == [];
      assert TakeAll(take, [f], s'.value) == s';
    }
  }

  // ----- attributes ------------------------------------------------------------------

  type Attributes = map<Text, Otlp.Value>

  function TakeAttribute(m: Attributes, kv: seq<byte>, depth: nat): Option<Attributes> {
    match DecodeKeyValue(kv, depth)
    case None => None
    case Some((k, v)) => Some(if k == [] then m else m[k := v])
  }

  /** Attributes as repeated fields of a message. */
  function AttributeFields(number: nat, kvs: Kvs): seq<Field>
    requires EntriesInRange(kvs)
  {
    match kvs
    case End => []
    case Entry(key, value, next) =>
      [Field(number, Chunk(EncodeKeyValue(key, EncodeAny(value))))] + AttributeFields(number, next)
  }

  /** Every value fits the nesting budget when its key and value are decoded at
      this depth. */
  predicate Within(kvs: Kvs, depth: nat) {
    match kvs
    case End => true
    case Entry(_, value, next) => depth + 1 + Levels(value) <= MAX_NESTING_DEPTH && Within(next, depth)
  }

  /** No field is too long for its length to be written. */
  ghost predicate Sized(fs: seq<Field>) {
    forall f :: f in fs && f.payload.Chunk? ==> |f.payload.bytes| < TWO_64
  }

  lemma {:induction false} ChunksFit(fs: seq<Field>)
    requires |WriteAll(fs)| < TWO_64
    ensures Sized(fs)
    decreases |fs|
  {
    if fs != [] {
      assert fs == [fs[0]] + fs[1..];
      ChunksFit(fs[1..]);
    }
  }

  lemma AttributeTaken(m: Attributes, key: Text, value: Any, depth: nat)
    requires InRange(value) && |EncodeKeyValue(key, EncodeAny(value))| < TWO_64
    ensures TakeAttribute(m, EncodeKeyValue(key, EncodeAny(value)), depth)
            == if depth + 1 + Levels(value) <= MAX_NESTING_DEPTH
               then Some(if key == [] then m else m[key := Meaning(value)]) else None
  {
    KeyAnyRoundTrip(key, value, depth);
  }

  // ----- resources --------------------------------------------------------------------

  const RESOURCE_DEPTH: nat := 2
  const RECORD_DEPTH: nat := 3

  function TakeResource(m: Attributes, f: Field): Option<Attributes> {
    match f
    case Field(1, Chunk(kv)) => TakeAttribute(m, kv, RESOURCE_DEPTH)
    case _ => Some(m)
  }

  lemma {:induction false} ResourceTaken(kvs: Kvs, m: Attributes)
    requires EntriesInRange(kvs) && Sized(AttributeFields(1, kvs))
    ensures TakeAll(TakeResource, AttributeFields(1, kvs), m)
            == if Within(kvs, RESOURCE_DEPTH) then Some(Entries(kvs, m)) else None
    decreases kvs
  {
    if kvs.Entry? {
      var fs := AttributeFields(1, kvs);
      assert fs[0] in fs && fs[1..] == AttributeFields(1, kvs.next);
      AttributeTaken(m, kvs.key, kvs.value, RESOURCE_DEPTH);
      ResourceTaken(kvs.next, if kvs.key == [] then m else m[kvs.key := Meaning(kvs.value)]);
    }
  }

  // ----- log records --------------------------------------------------------------------

  /** A log record as a sender builds it. */
  datatype LogRecord = LogRecord(
    time: nat, observed: nat, severity: nat, severityText: Text, body: Any, attributes: Kvs,
    traceId: seq<byte>, spanId: seq<byte>)

  predicate Encodable(r: LogRecord) {
    && r.time < TWO_64 && r.observed < TWO_64 && r.severity < TWO_64
    && InRange(r.body) && EntriesInRange(r.attributes)
  }

  type Record = r: LogRecord | Encodable(r) witness LogRecord(0, 0, 0, [], Unset, End, [], [])

  type Pairs = kvs: Kvs | EntriesInRange(kvs) witness End

  /** What the fields of a record come to. */
  datatype Facts = Facts(
    time: nat, observed: nat, severity: nat, severityText: Text, body: Otlp.Value, attributes: Attributes)

  const EMPTY := Facts(0, 0, 0, [], Nothing, map[])

  /** trace_id and span_id */
  const TRACE_ID: Text := [116, 114, 97, 99, 101, 95, 105, 100]
  const SPAN_ID: Text := [115, 112, 97, 110, 95, 105, 100]

  function PutId(m: Attributes, name: Text, id: seq<byte>): Attributes {
    if id == [] then m else m[name := Words(Hex(id))]
  }

  function TakeTime(facts: Facts, number: nat, n: nat): Facts {
    if number == 1 then facts.(time := n) else if number == 11 then facts.(observed := n) else facts
  }

  function TakeText(facts: Facts, number: nat, s: seq<byte>): Option<Facts> {
    match number
    case 3 => Some(facts.(severityText := s))
    case 5 => (match DecodeAny(s, RECORD_DEPTH) case None => None case Some(v) => Some(facts.(body := v)))
    case 6 =>
      (match TakeAttribute(facts.attributes, s, RECORD_DEPTH)
       case None => None
       case Some(m) => Some(facts.(attributes := m)))
    case 9 => Some(facts.(attributes := PutId(facts.attributes, TRACE_ID, s)))
    case 10 => Some(facts.(attributes := PutId(facts.attributes, SPAN_ID, s)))
    case _ => Some(facts)
  }

  function TakeRecord(facts: Facts, f: Field): Option<Facts> {
    match f.payload
    case Fixed64(n) => Some(TakeTime(facts, f.number, n))
    case Varint(n) => Some(if f.number == 2 then facts.(severity := n) else facts)
    case Chunk(s) => TakeText(facts, f.number, s)
    case Fixed32(_) => Some(facts)
  }

  function NumberFields(r: Record): seq<Field> {
    [Field(1, Fixed64(r.time)), Field(11, Fixed64(r.observed)), Field(2, Varint(r.severity))]
  }

  function TextFields(r: Record): seq<Field> {
    [Field(3, Chunk(r.severityText)), Field(5, Chunk(EncodeAny(r.body)))]
  }

  function IdFields(r: Record): seq<Field> {
    [Field(9, Chunk(r.traceId)), Field(10, Chunk(r.spanId))]
  }

  function RecordFields(r: Record): seq<Field> {
    NumberFields(r) + (TextFields(r) + (AttributeFields(6, r.attributes) + IdFields(r)))
  }

  function EncodeRecord(r: Record): seq<byte> {
    WriteAll(RecordFields(r))
  }

  predicate RecordWithin(r: Record) {
    RECORD_DEPTH + Levels(r.body) <= MAX_NESTING_DEPTH && Within(r.attributes, RECORD_DEPTH)
  }

  /** What a record means: the trace and span IDs are attributes in hex. */
  function FactsOf(r: Record): Facts {
    var m := PutId(PutId(Entries(r.attributes, map[]), TRACE_ID, r.traceId), SPAN_ID, r.spanId);
    Facts(r.time, r.observed, r.severity, r.severityText, Meaning(r.body), m)
  }

  lemma TakeTwo<S>(take: Take<S>, f: Field, g: Field, s: S)
    ensures TakeAll(take, [f, g], s)
            == match take(s, f) case None => None case Some(s') => take(s', g)
  {
    assert [f, g][1..] == [g];
    assert [g][1..] == [];
    var s' := take(s, f);
    if s'.Some? {
      assert TakeAll(take, [g], s'.value) == take(s'.value, g);
    }
  }

  lemma NumbersTaken(r: Record)
    ensures TakeAll(TakeRecord, NumberFields(r), EMPTY)
            == Some(EMPTY.(time := r.time, observed := r.observed, severity := r.severity))
  {
    var fs, a := NumberFields(r), EMPTY.(time := r.time);
    assert fs[1..] == [fs[1], fs[2]];
    TakeTwo(TakeRecord, fs[1], fs[2], a);
    assert TakeAll(TakeRecord, fs, EMPTY) == TakeAll(TakeRecord, fs[1..], a);
  }

  lemma TextsTaken(r: Record, facts: Facts)
    requires Sized(TextFields(r))
    ensures TakeAll(TakeRecord, TextFields(r), facts)
            == if RECORD_DEPTH + Levels(r.body) <= MAX_NESTING_DEPTH
               then Some(facts.(severityText := r.severityText, body := Meaning(r.body))) else None
  {
    var fs := TextFields(r);
    assert fs[1] in fs;
    TakeTwo(TakeRecord, fs[0], fs[1], facts);
    AnyRoundTrip(r.body, RECORD_DEPTH);
  }

  lemma {:induction false} AttributesTaken(kvs: Kvs, facts: Facts)
    requires EntriesInRange(kvs) && Sized(AttributeFields(6, kvs))
    ensures TakeAll(TakeRecord, AttributeFields(6, kvs), facts)
            == if Within(kvs, RECORD_DEPTH) then Some(facts.(attributes := Entries(kvs, facts.attributes))) else None
    decreases kvs
  {
    if kvs.Entry? {
      var fs, m := AttributeFields(6, kvs), facts.attributes;
      assert fs[0] in fs && fs[1..] == AttributeFields(6, kvs.next);
      AttributeTaken(m, kvs.key, kvs.value, RECORD_DEPTH);
      AttributesTaken(kvs.next, facts.(attributes := if kvs.key == [] then m else m[kvs.key := Meaning(kvs.value)]));
    }
  }

  lemma IdsTaken(r: Record, facts: Facts)
    ensures TakeAll(TakeRecord, IdFields(r), facts)
            == Some(facts.(attributes := PutId(PutId(facts.attributes, TRACE_ID, r.traceId), SPAN_ID, r.spanId)))
  {
    TakeTwo(TakeRecord, IdFields(r)[0], IdFields(r)[1], facts);
  }

  lemma {:induction false} AttributesAreWritable(number: nat, kvs: Kvs)
    requires EntriesInRange(kvs) && 0 < number < 100
    requires Sized(AttributeFields(number, kvs))
    ensures AllWritable(AttributeFields(number, kvs))
  {
    if kvs.Entry? {
      var fs := AttributeFields(number, kvs);
      assert fs[0] in fs && fs[1..] == AttributeFields(number, kvs.next);
      AttributesAreWritable(number, kvs.next);
    }
  }

  lemma RecordIsWritable(r: Record)
    requires Sized(RecordFields(r))
    ensures AllWritable(RecordFields(r))
  {
    var attrs := AttributeFields(6, r.attributes);
    assert forall f :: f in attrs ==> f in RecordFields(r);
    AttributesAreWritable(6, r.attributes);
    forall f | f in RecordFields(r) ensures Writable(f) {
      if f !in attrs {
        assert f in NumberFields(r) || f in TextFields(r) || f in IdFields(r);
      }
    }
  }

  /** A log record decodes to what it means exactly when its body and attributes
      fit the nesting budget. */
  lemma RecordRoundTrip(r: Record)
    requires |EncodeRecord(r)| < TWO_64
    ensures Walk(TakeRecord, EncodeRecord(r), EMPTY) == if RecordWithin(r) then Some(FactsOf(r)) else None
  {
    var numbers, texts, attrs, ids := NumberFields(r), TextFields(r), AttributeFields(6, r.attributes), IdFields(r);
    ChunksFit(RecordFields(r));
    RecordIsWritable(r);
    WalkTakesAll(TakeRecord, RecordFields(r), EMPTY);
    assert forall f :: f in texts || f in attrs ==> f in RecordFields(r);
    TakeAllConcat(TakeRecord, numbers, texts + (attrs + ids), EMPTY);
    NumbersTaken(r);
    var a := EMPTY.(time := r.time, observed := r.observed, severity := r.severity);
    TakeAllConcat(TakeRecord, texts, attrs + ids, a);
    TextsTaken(r, a);
    var b := a.(severityText := r.severityText, body := Meaning(r.body));
    TakeAllConcat(TakeRecord, attrs, ids, b);
    AttributesTaken(r.attributes, b);
    IdsTaken(r, b.(attributes := Entries(r.attributes, b.attributes)));
  }

  /** A field that records do not have changes nothing wherever it stands. */
  lemma UnknownInRecord(fs: seq<Field>, f: Field, gs: seq<Field>)
    requires AllWritable(fs) && AllWritable(gs) && Writable(f)
    requires f.number !in {1, 2, 3, 5, 6, 9, 10, 11}
    ensures Walk(TakeRecord, WriteAll(fs + [f] + gs), EMPTY) == Walk(TakeRecord, WriteAll(fs + gs), EMPTY)
  {
    IgnoredAnywhere(TakeRecord, fs, f, gs, EMPTY);
  }

  // ----- the decoders as loops -----------------------------------------------------------

  /** Adds the attributes of a resource to those already there. */
  method DecodeResource(b: seq<byte>, attrs: Attributes) returns (m: Option<Attributes>)
    ensures m == Walk(TakeResource, b, attrs)
  {
    var out := attrs;
    var r := new Reader(b);
    while !r.Done()
      invariant r.Valid() && fresh(r)
      invariant Walking(TakeResource, b, attrs, r.Left(), out)
      decreases |r.Left()|
    {
      WalkStep(TakeResource, b, attrs, r.Left(), out);
      var field, wire, ok := r.Tag();
      if !ok {
        return None;
      }
      if field != 1 || wire != WIRE_BYTES {
        var ok := r.Skip(wire);
        if !ok {
          return None;
        }
        continue;
      }
      var payload, good := r.Bytes();
      if !good {
        return None;
      }
      var kv := ReadKeyValue(payload, RESOURCE_DEPTH);
      if kv.None? {
        return None;
      }
      var (key, x) := kv.value;
      if key != [] {
        out := out[key := x];
      }
    }
    return Some(out);
  }

  method DecodeLogRecord(b: seq<byte>) returns (facts: Option<Facts>)
    ensures facts == Walk(TakeRecord, b, EMPTY)
  {
    var cur := EMPTY;
    var r := new Reader(b);
    while !r.Done()
      invariant r.Valid() && fresh(r)
      invariant Walking(TakeRecord, b, EMPTY, r.Left(), cur)
      decreases |r.Left()|
    {
      WalkStep(TakeRecord, b, EMPTY, r.Left(), cur);
      var field, wire, ok := r.Tag();
      if !ok {
        return None;
      }
      if (field == 1 || field == 11) && wire == WIRE_I64 {
        var n, ok := r.Fixed(8);
        if !ok {
          return None;
        }
        cur := if field == 1 then cur.(time := n) else cur.(observed := n);
      } else if field == 2 && wire == WIRE_VARINT {
        var n, ok := r.Varint();
        if !ok {
          return None;
        }
        cur := cur.(severity := n);
      } else if wire == WIRE_BYTES {
        var payload, ok := r.Bytes();
        if !ok {
          return None;
        }
        var next := TakeChunk(cur, field, payload);
        if next.None? {
          return None;
        }
        cur := next.value;
      } else {
        var ok := r.Skip(wire);
        if !ok {
          return None;
        }
      }
    }
    return Some(cur);
  }

  /** The cases of length-delimited fields. */
  method TakeChunk(facts: Facts, field: nat, s: seq<byte>) returns (next: Option<Facts>)
    ensures next == TakeText(facts, field, s)
  {
    if field == 3 {
      return Some(facts.(severityText := s));
    } else if field == 5 {
      var v := DecodeAnyValue(s, RECORD_DEPTH);
      return if v.None? then None else Some(facts.(body := v.value));
    } else if field == 6 {
      var kv := ReadKeyValue(s, RECORD_DEPTH);
      if kv.None? {
        return None;
      }
      var (key, x) := kv.value;
      return Some(if key == [] then facts else facts.(attributes := facts.attributes[key := x]));
    } else if field == 9 || field == 10 {
      var name := if field == 9 then TRACE_ID else SPAN_ID;
      return Some(if s == [] then facts else facts.(attributes := facts.attributes[name := Words(Hex(s))]));
    }
    return Some(facts);
  }
}
