/** OTLP log requests: records under scopes under resources, and the events
    they become. */
module OtlpRequest {
  import opened Bytes
  import opened Model
  import opened Protowire
  import opened Otlp
  import opened OtlpLogs
  import Seqs

  // ----- events ------------------------------------------------------------------

  datatype Severity = Debug | Info | Warn | Error | Fatal

  /** An event before it is given its ID. */
  datatype Event = Event(
    service: Text, source: Text, level: Severity, message: Text, attributes: Attributes,
    timestamp: int, received: int)

  /** What the library and the clock contribute. */
  datatype Context = Context(now: int, render: Otlp.Value -> Text, parseLevel: Text -> Severity)

  function Shown(c: Context, v: Otlp.Value): Text {
    match v
    case Nothing => []
    case Words(s) => s
    case _ => c.render(v)
  }

  function LevelOf(c: Context, number: nat, text: Text): Severity {
    if number == 0 then if text != [] then c.parseLevel(text) else Info
    else if number <= 8 then Debug
    else if number <= 12 then Info
    else if number <= 16 then Warn
    else if number <= 20 then Error
    else Fatal
  }

  /** The first of these keys that is there and shows as something. */
  function FirstAttr(c: Context, m: Attributes, keys: seq<Text>): Text
    decreases |keys|
  {
    if keys == [] then []
    else if Shows(c, m, keys[0]) then Shown(c, m[keys[0]])
    else FirstAttr(c, m, keys[1..])
  }

  predicate Shows(c: Context, m: Attributes, key: Text) {
    key in m && Shown(c, m[key]) != []
  }

  /** It is the earliest of the keys that decides, and without any there is
      nothing. */
  lemma {:induction false} FirstAttrIsFirst(c: Context, m: Attributes, keys: seq<Text>, i: nat)
    requires i <= |keys| && forall j :: 0 <= j < i ==> !Shows(c, m, keys[j])
    requires i < |keys| ==> Shows(c, m, keys[i])
    ensures FirstAttr(c, m, keys) == if i < |keys| then Shown(c, m[keys[i]]) else []
    decreases i
  {
    if i > 0 {
      assert !Shows(c, m, keys[0]);
      FirstAttrIsFirst(c, m, keys[1..], i - 1);
    }
  }

  function Ascii(s: string): Text {
    if s == "" then [] else [(s[0] as int) % 256] + Ascii(s[1..])
  }

  const SERVICE_KEYS: seq<Text> :=
    [Ascii("service.name"), Ascii("service_name"), Ascii("k8s.deployment.name"), Ascii("k8s.container.name")]

  const HOST_KEYS: seq<Text> :=
    [Ascii("host.name"), Ascii("host"), Ascii("k8s.pod.name"), Ascii("k8s.node.name")]

  /** The event of a record: its own attributes win over those of its resource. */
  function Finish(c: Context, resource: Attributes, scope: Text, facts: Facts): Event {
    var service := FirstAttr(c, resource, SERVICE_KEYS);
    var received := if facts.observed > 0 then ToInt64(facts.observed) else c.now;
    Event(if service == [] then scope else service,
          FirstAttr(c, resource, HOST_KEYS),
          LevelOf(c, facts.severity, facts.severityText),
          Shown(c, facts.body),
          resource + facts.attributes,
          if facts.time > 0 then ToInt64(facts.time) else received,
          received)
  }

  // ----- gathering events of submessages ---------------------------------------------

  function Joined(xs: Option<seq<Event>>, ys: Option<seq<Event>>): Option<seq<Event>> {
    if xs.Some? && ys.Some? then Some(xs.value + ys.value) else None
  }

  /** The events of submessages in order, unless one fails. */
  function Gather(decode: seq<byte> -> Option<seq<Event>>, chunks: seq<seq<byte>>): Option<seq<Event>>
    decreases |chunks|
  {
    if chunks == [] then Some([]) else Joined(decode(chunks[0]), Gather(decode, chunks[1..]))
  }

  function Each<X>(encode: X -> seq<byte>, xs: seq<X>): seq<seq<byte>> {
    if xs == [] then [] else [encode(xs[0])] + Each(encode, xs[1..])
  }

  function All<X>(fits: X -> bool, xs: seq<X>): bool {
    xs == [] || (fits(xs[0]) && All(fits, xs[1..]))
  }

  function Flatten<X>(mean: X -> seq<Event>, xs: seq<X>): seq<Event> {
    if xs == [] then [] else mean(xs[0]) + Flatten(mean, xs[1..])
  }

  /** Decoding the encoding of x gives its meaning, or fails if x does not fit. */
  ghost predicate DecodesTo<X>(decode: seq<byte> -> Option<seq<Event>>, encode: X -> seq<byte>, fits: X -> bool,
                               mean: X -> seq<Event>, x: X)
  {
    |encode(x)| < TWO_64 ==> decode(encode(x)) == if fits(x) then Some(mean(x)) else None
  }

  ghost predicate Decodes<X(!new)>(decode: seq<byte> -> Option<seq<Event>>, encode: X -> seq<byte>, fits: X -> bool,
                                   mean: X -> seq<Event>)
  {
    forall x: X :: DecodesTo(decode, encode, fits, mean, x)
  }

  ghost predicate Short(chunks: seq<seq<byte>>) {
    forall b :: b in chunks ==> |b| < TWO_64
  }

  lemma {:induction false} GatherMeans<X(!new)>(decode: seq<byte> -> Option<seq<Event>>, encode: X -> seq<byte>,
                                                fits: X -> bool, mean: X -> seq<Event>, xs: seq<X>)
    requires Decodes(decode, encode, fits, mean) && Short(Each(encode, xs))
    ensures Gather(decode, Each(encode, xs)) == if All(fits, xs) then Some(Flatten(mean, xs)) else None
    decreases |xs|
  {
    if xs != [] {
      var chunks := Each(encode, xs);
      assert chunks[0] in chunks && chunks[1..] == Each(encode, xs[1..]);
      assert DecodesTo(decode, encode, fits, mean, xs[0]);
      GatherMeans(decode, encode, fits, mean, xs[1..]);
    }
  }

  lemma {:induction false} EachConcat<X>(encode: X -> seq<byte>, xs: seq<X>, ys: seq<X>)
    ensures Each(encode, xs + ys) == Each(encode, xs) + Each(encode, ys)
    decreases |xs|
  {
    if xs == [] {
      assert xs + ys == ys;
    } else {
      assert (xs + ys)[1..] == xs[1..] + ys;
      EachConcat(encode, xs[1..], ys);
    }
  }

  /** Submessages as repeated fields. */
  function Chunks(number: nat, chunks: seq<seq<byte>>): seq<Field> {
    if chunks == [] then [] else [Field(number, Chunk(chunks[0]))] + Chunks(number, chunks[1..])
  }

  lemma {:induction false} ChunksAre(number: nat, chunks: seq<seq<byte>>)
    requires 0 < number < 100 && Sized(Chunks(number, chunks))
    ensures AllWritable(Chunks(number, chunks)) && Short(chunks)
    decreases |chunks|
  {
    if chunks != [] {
      var fs := Chunks(number, chunks);
      assert fs[0] in fs && fs[1..] == Chunks(number, chunks[1..]);
      ChunksAre(number, chunks[1..]);
    }
  }

  // ----- scopes ----------------------------------------------------------------------------

  /** The name of a scope; a malformed scope has none. */
  function ScopeName(b: seq<byte>): Text
    decreases |b|
  {
    if b == [] then []
    else match ReadField(b)
      case None => []
      case Some((f, rest)) =>
        match f
        case Field(1, Chunk(s)) => s
        case _ => ScopeName(rest)
  }

  /** The scope's name and its records, not decoded yet. */
  type Gathered<H> = (H, seq<seq<byte>>)

  function TakeScope(s: Gathered<Text>, f: Field): Option<Gathered<Text>> {
    match f
    case Field(1, Chunk(b)) => Some((ScopeName(b), s.1))
    case Field(2, Chunk(b)) => Some((s.0, s.1 + [b]))
    case _ => Some(s)
  }

  function DecodeRecord(c: Context, resource: Attributes, scope: Text, b: seq<byte>): Option<seq<Event>> {
    match Walk(TakeRecord, b, EMPTY)
    case None => None
    case Some(facts) => Some([Finish(c, resource, scope, facts)])
  }

  function RecordDecoder(c: Context, resource: Attributes, scope: Text): seq<byte> -> Option<seq<Event>> {
    b => DecodeRecord(c, resource, scope, b)
  }

  function DecodeScope(c: Context, resource: Attributes, b: seq<byte>): Option<seq<Event>> {
    match Walk<Gathered<Text>>(TakeScope, b, ([], []))
    case None => None
    case Some(found) => Gather(RecordDecoder(c, resource, found.0), found.1)
  }

  function ScopeDecoder(c: Context, resource: Attributes): seq<byte> -> Option<seq<Event>> {
    b => DecodeScope(c, resource, b)
  }

  datatype Scope = Scope(name: Text, records: seq<Record>)

  function NameFields(name: Text): seq<Field> {
    [Field(1, Chunk(WriteAll([Field(1, Chunk(name))])))]
  }

  function ScopeFields(s: Scope): seq<Field> {
    NameFields(s.name) + Chunks(2, Each(EncodeRecord, s.records))
  }

  function EncodeScope(s: Scope): seq<byte> {
    WriteAll(ScopeFields(s))
  }

  function ScopeWithin(s: Scope): bool {
    All(RecordWithin, s.records)
  }

  /** What a record means under its scope and resource. */
  function RecordEvents(c: Context, resource: Attributes, scope: Text, r: Record): seq<Event> {
    [Finish(c, resource, scope, FactsOf(r))]
  }

  function RecordMeaning(c: Context, resource: Attributes, scope: Text): Record -> seq<Event> {
    (r: Record) => RecordEvents(c, resource, scope, r)
  }

  function ScopeMeaning(c: Context, resource: Attributes): Scope -> seq<Event> {
    (s: Scope) => Flatten(RecordMeaning(c, resource, s.name), s.records)
  }

  lemma NameReads(name: Text)
    requires |name| < TWO_64
    ensures ScopeName(WriteAll([Field(1, Chunk(name))])) == name
  {
    var f := Field(1, Chunk(name));
    assert [f][1..] == [];
    assert WriteAll([f]) == WriteField(f) + WriteAll([f][1..]);
    FieldReadsBack(f, []);
  }

  ghost predicate Keeps<H(!new)>(take: Take<Gathered<H>>) {
    forall s: Gathered<H>, b :: take(s, Field(2, Chunk(b))) == Some((s.0, s.1 + [b]))
  }

  /** Submessages are set aside in order. */
  lemma {:induction false} Kept<H(!new)>(take: Take<Gathered<H>>, chunks: seq<seq<byte>>, s: Gathered<H>)
    requires Keeps(take)
    ensures TakeAll(take, Chunks(2, chunks), s) == Some((s.0, s.1 + chunks))
    decreases |chunks|
  {
    if chunks == [] {
      assert s.1 + chunks == s.1;
    } else {
      Kept(take, chunks[1..], (s.0, s.1 + [chunks[0]]));
      assert s.1 + chunks == s.1 + [chunks[0]] + chunks[1..];
    }
  }

  lemma RecordDecodes(c: Context, resource: Attributes, scope: Text, r: Record)
    ensures DecodesTo(RecordDecoder(c, resource, scope), EncodeRecord, RecordWithin,
                      RecordMeaning(c, resource, scope), r)
  {
    if |EncodeRecord(r)| < TWO_64 {
      RecordRoundTrip(r);
    }
  }

  lemma RecordsDecode(c: Context, resource: Attributes, scope: Text)
    ensures Decodes(RecordDecoder(c, resource, scope), EncodeRecord, RecordWithin, RecordMeaning(c, resource, scope))
  {
    forall r: Record
      ensures DecodesTo(RecordDecoder(c, resource, scope), EncodeRecord, RecordWithin,
                        RecordMeaning(c, resource, scope), r)
    {
      RecordDecodes(c, resource, scope, r);
    }
  }

  lemma NameTaken(name: Text, s: Gathered<Text>)
    requires Sized(NameFields(name))
    ensures AllWritable(NameFields(name))
    ensures TakeAll(TakeScope, NameFields(name), s) == Some((name, s.1))
  {
    var fs, inner := NameFields(name), [Field(1, Chunk(name))];
    assert fs[0] in fs && fs[1..] == [];
    ChunksFit(inner);
    assert inner[0] in inner;
    NameReads(name);
  }

  lemma ScopeFieldsWritable(s: Scope)
    requires Sized(ScopeFields(s))
    ensures AllWritable(ScopeFields(s)) && Sized(NameFields(s.name))
    ensures Short(Each(EncodeRecord, s.records))
  {
    var name, records := NameFields(s.name), Each(EncodeRecord, s.records);
    assert forall f :: f in name || f in Chunks(2, records) ==> f in ScopeFields(s);
    NameTaken(s.name, ([], []));
    ChunksAre(2, records);
  }

  lemma ScopeFieldsTaken(name: seq<Field>, scope: Text, records: seq<seq<byte>>)
    requires name == NameFields(scope) && Sized(name)
    ensures TakeAll<Gathered<Text>>(TakeScope, name + Chunks(2, records), ([], [])) == Some((scope, records))
  {
    NameTaken(scope, ([], []));
    TakeAllConcat<Gathered<Text>>(TakeScope, name, Chunks(2, records), ([], []));
    Kept<Text>(TakeScope, records, (scope, []));
    assert [] + records == records;
  }

  lemma ScopeFound(s: Scope)
    requires |EncodeScope(s)| < TWO_64
    ensures Walk<Gathered<Text>>(TakeScope, EncodeScope(s), ([], [])) == Some((s.name, Each(EncodeRecord, s.records)))
    ensures Short(Each(EncodeRecord, s.records))
  {
    ChunksFit(ScopeFields(s));
    ScopeFieldsWritable(s);
    WalkTakesAll<Gathered<Text>>(TakeScope, ScopeFields(s), ([], []));
    ScopeFieldsTaken(NameFields(s.name), s.name, Each(EncodeRecord, s.records));
  }

  lemma ScopesDecode(c: Context, resource: Attributes)
    ensures Decodes(ScopeDecoder(c, resource), EncodeScope, ScopeWithin, ScopeMeaning(c, resource))
  {
    forall s: Scope
      ensures DecodesTo(ScopeDecoder(c, resource), EncodeScope, ScopeWithin, ScopeMeaning(c, resource), s)
    {
      if |EncodeScope(s)| < TWO_64 {
        ScopeFound(s);
        RecordsDecode(c, resource, s.name);
        GatherMeans(RecordDecoder(c, resource, s.name), EncodeRecord, RecordWithin,
                    RecordMeaning(c, resource, s.name), s.records);
      }
    }
  }

  // ----- resources with their scopes ----------------------------------------------------

  function TakeBatch(s: Gathered<Attributes>, f: Field): Option<Gathered<Attributes>> {
    match f
    case Field(1, Chunk(b)) =>
      (match Walk(TakeResource, b, s.0) case None => None case Some(m) => Some((m, s.1)))
    case Field(2, Chunk(b)) => Some((s.0, s.1 + [b]))
    case _ => Some(s)
  }

  function DecodeBatch(c: Context, b: seq<byte>): Option<seq<Event>> {
    match Walk<Gathered<Attributes>>(TakeBatch, b, (map[], []))
    case None => None
    case Some(found) => Gather(ScopeDecoder(c, found.0), found.1)
  }

  function BatchDecoder(c: Context): seq<byte> -> Option<seq<Event>> {
    b => DecodeBatch(c, b)
  }

  /** Scopes may stand before their resource and after it. */
  datatype Batch = Batch(early: seq<Scope>, resource: Pairs, late: seq<Scope>)

  function EncodeResource(resource: Pairs): seq<byte> {
    WriteAll(AttributeFields(1, resource))
  }

  function BatchFields(b: Batch): seq<Field> {
    Chunks(2, Each(EncodeScope, b.early))
    + ([Field(1, Chunk(EncodeResource(b.resource)))] + Chunks(2, Each(EncodeScope, b.late)))
  }

  function EncodeBatch(b: Batch): seq<byte> {
    WriteAll(BatchFields(b))
  }

  function BatchWithin(b: Batch): bool {
    Within(b.resource, RESOURCE_DEPTH) && All(ScopeWithin, b.early + b.late)
  }

  function BatchMeaning(c: Context): Batch -> seq<Event> {
    (b: Batch) => Flatten(ScopeMeaning(c, Entries(b.resource, map[])), b.early + b.late)
  }

  lemma ResourceRoundTrip(resource: Pairs)
    requires |EncodeResource(resource)| < TWO_64
    ensures Walk(TakeResource, EncodeResource(resource), map[])
            == if Within(resource, RESOURCE_DEPTH) then Some(Entries(resource, map[])) else None
  {
    ChunksFit(AttributeFields(1, resource));
    AttributesAreWritable(1, resource);
    WalkTakesAll(TakeResource, AttributeFields(1, resource), map[]);
    ResourceTaken(resource, map[]);
  }

  lemma ResourceFieldTaken(resource: Pairs, scopes: seq<seq<byte>>)
    requires |EncodeResource(resource)| < TWO_64
    ensures TakeAll<Gathered<Attributes>>(TakeBatch, [Field(1, Chunk(EncodeResource(resource)))], (map[], scopes))
            == if Within(resource, RESOURCE_DEPTH) then Some((Entries(resource, map[]), scopes)) else None
  {
    ResourceRoundTrip(resource);
    assert [Field(1, Chunk(EncodeResource(resource)))][1..] == [];
  }

  lemma BatchFieldsWritable(b: Batch)
    requires Sized(BatchFields(b))
    ensures AllWritable(BatchFields(b))
    ensures |EncodeResource(b.resource)| < TWO_64
    ensures Short(Each(EncodeScope, b.early + b.late))
  {
    var early, late := Each(EncodeScope, b.early), Each(EncodeScope, b.late);
    var resource := Field(1, Chunk(EncodeResource(b.resource)));
    assert forall f :: f in Chunks(2, early) || f in Chunks(2, late) || f == resource ==> f in BatchFields(b);
    ChunksAre(2, early);
    ChunksAre(2, late);
    EachConcat(EncodeScope, b.early, b.late);
  }

  lemma BatchFieldsTaken(early: seq<seq<byte>>, resource: Pairs, late: seq<seq<byte>>)
    requires |EncodeResource(resource)| < TWO_64
    ensures TakeAll<Gathered<Attributes>>(
              TakeBatch, Chunks(2, early) + ([Field(1, Chunk(EncodeResource(resource)))] + Chunks(2, late)), (map[], []))
            == if Within(resource, RESOURCE_DEPTH) then Some((Entries(resource, map[]), early + late)) else None
  {
    var field := [Field(1, Chunk(EncodeResource(resource)))];
    TakeAllConcat<Gathered<Attributes>>(TakeBatch, Chunks(2, early), field + Chunks(2, late), (map[], []));
    Kept<Attributes>(TakeBatch, early, (map[], []));
    assert [] + early == early;
    TakeAllConcat<Gathered<Attributes>>(TakeBatch, field, Chunks(2, late), (map[], early));
    ResourceFieldTaken(resource, early);
    Kept<Attributes>(TakeBatch, late, (Entries(resource, map[]), early));
  }

  lemma BatchFound(b: Batch)
    requires |EncodeBatch(b)| < TWO_64
    ensures Walk<Gathered<Attributes>>(TakeBatch, EncodeBatch(b), (map[], []))
            == if Within(b.resource, RESOURCE_DEPTH)
               then Some((Entries(b.resource, map[]), Each(EncodeScope, b.early + b.late))) else None
    ensures Short(Each(EncodeScope, b.early + b.late))
  {
    ChunksFit(BatchFields(b));
    BatchFieldsWritable(b);
    WalkTakesAll<Gathered<Attributes>>(TakeBatch, BatchFields(b), (map[], []));
    BatchFieldsTaken(Each(EncodeScope, b.early), b.resource, Each(EncodeScope, b.late));
    EachConcat(EncodeScope, b.early, b.late);
  }

  lemma BatchesDecode(c: Context)
    ensures Decodes(BatchDecoder(c), EncodeBatch, BatchWithin, BatchMeaning(c))
  {
    forall b: Batch ensures DecodesTo(BatchDecoder(c), EncodeBatch, BatchWithin, BatchMeaning(c), b) {
      if |EncodeBatch(b)| < TWO_64 {
        var resource := Entries(b.resource, map[]);
        BatchFound(b);
        ScopesDecode(c, resource);
        GatherMeans(ScopeDecoder(c, resource), EncodeScope, ScopeWithin, ScopeMeaning(c, resource), b.early + b.late);
      }
    }
  }

  // ----- requests ----------------------------------------------------------------------------

  function TakeRequest(c: Context, es: seq<Event>, f: Field): Option<seq<Event>> {
    match f
    case Field(1, Chunk(b)) => Joined(Some(es), DecodeBatch(c, b))
    case _ => Some(es)
  }

  function RequestTaker(c: Context): Take<seq<Event>> {
    (es, f) => TakeRequest(c, es, f)
  }

  function DecodeRequest(c: Context, b: seq<byte>): Option<seq<Event>> {
    Walk(RequestTaker(c), b, [])
  }

  function EncodeRequest(bs: seq<Batch>): seq<byte> {
    WriteAll(Chunks(1, Each(EncodeBatch, bs)))
  }

  lemma {:induction false} RequestTaken(c: Context, chunks: seq<seq<byte>>, es: seq<Event>)
    ensures TakeAll(RequestTaker(c), Chunks(1, chunks), es) == Joined(Some(es), Gather(BatchDecoder(c), chunks))
    decreases |chunks|
  {
    if chunks == [] {
      assert es + [] == es;
    } else {
      var first := DecodeBatch(c, chunks[0]);
      if first.Some? {
        RequestTaken(c, chunks[1..], es + first.value);
        var rest := Gather(BatchDecoder(c), chunks[1..]);
        if rest.Some? {
          Seqs.Assoc(es, first.value, rest.value);
        }
      }
    }
  }

  /** A request becomes the events it means, in order, exactly when every
      attribute and body in it fits the nesting budget. */
  lemma RequestRoundTrip(c: Context, bs: seq<Batch>)
    requires |EncodeRequest(bs)| < TWO_64
    ensures DecodeRequest(c, EncodeRequest(bs))
            == if All(BatchWithin, bs) then Some(Flatten(BatchMeaning(c), bs)) else None
  {
    var chunks := Each(EncodeBatch, bs);
    ChunksFit(Chunks(1, chunks));
    ChunksAre(1, chunks);
    WalkTakesAll(RequestTaker(c), Chunks(1, chunks), []);
    RequestTaken(c, chunks, []);
    BatchesDecode(c);
    GatherMeans(BatchDecoder(c), EncodeBatch, BatchWithin, BatchMeaning(c), bs);
    if All(BatchWithin, bs) {
      var es := Flatten(BatchMeaning(c), bs);
      assert [] + es == es;
    }
  }

  // ----- the decoders as loops -----------------------------------------------------------------

  method DecodeScopeName(b: seq<byte>) returns (name: Text)
    ensures name == ScopeName(b)
  {
    var r := new Reader(b);
    while !r.Done()
      invariant r.Valid() && fresh(r)
      invariant ScopeName(b) == ScopeName(r.Left())
      decreases |r.Left()|
    {
      var field, wire, ok := r.Tag();
      if !ok {
        return [];
      }
      if field == 1 && wire == WIRE_BYTES {
        var v, ok := r.Bytes();
        return if ok then v else [];
      }
      ok := r.Skip(wire);
      if !ok {
        return [];
      }
    }
    return [];
  }

  method FirstOf(c: Context, m: Attributes, keys: seq<Text>) returns (s: Text)
    ensures s == FirstAttr(c, m, keys)
  {
    for i := 0 to |keys|
      invariant FirstAttr(c, m, keys) == FirstAttr(c, m, keys[i..])
    {
      if keys[i] in m {
        s := Shown(c, m[keys[i]]);
        if s != [] {
          return;
        }
      }
    }
    return [];
  }

  /** Copies the attributes of the resource that the record does not have. */
  method Inherit(own: Attributes, resource: Attributes) returns (all: Attributes)
    ensures all == resource + own
  {
    all := own;
    var left := resource.Keys;
    while left != {}
      invariant left <= resource.Keys
      invariant all == map k | k in own.Keys + (resource.Keys - left) :: if k in own then own[k] else resource[k]
      decreases |left|
    {
      var k :| k in left;
      if k !in all {
        all := all[k := resource[k]];
      }
      left := left - {k};
    }
  }

  method FinishEvent(c: Context, resource: Attributes, scope: Text, facts: Facts) returns (e: Event)
    ensures e == Finish(c, resource, scope, facts)
  {
    var attributes := Inherit(facts.attributes, resource);
    var service := FirstOf(c, resource, SERVICE_KEYS);
    var source := FirstOf(c, resource, HOST_KEYS);
    if service == [] && scope != [] {
      service := scope;
    }
    var timestamp, received := None, None;
    if facts.time > 0 {
      timestamp := Some(ToInt64(facts.time));
    } else if facts.observed > 0 {
      timestamp := Some(ToInt64(facts.observed));
    }
    if facts.observed > 0 {
      received := Some(ToInt64(facts.observed));
    }
    if received.None? {
      received := Some(c.now);
    }
    if timestamp.None? {
      timestamp := received;
    }
    e := Event(service, source, LevelOf(c, facts.severity, facts.severityText), Shown(c, facts.body), attributes,
               timestamp.value, received.value);
  }

  method DecodeScopeLogs(c: Context, resource: Attributes, b: seq<byte>) returns (events: Option<seq<Event>>)
    ensures events == DecodeScope(c, resource, b)
  {
    var name: Text, records: seq<seq<byte>> := [], [];
    var r := new Reader(b);
    while !r.Done()
      invariant r.Valid() && fresh(r)
      invariant Walking<Gathered<Text>>(TakeScope, b, ([], []), r.Left(), (name, records))
      decreases |r.Left()|
    {
      WalkStep<Gathered<Text>>(TakeScope, b, ([], []), r.Left(), (name, records));
      var field, wire, ok := r.Tag();
      if !ok {
        return None;
      }
      if wire != WIRE_BYTES {
        var ok := r.Skip(wire);
        if !ok {
          return None;
        }
        continue;
      }
      var payload, good := r.Bytes();
      if !good {
        return None;
      }
      if field == 1 {
        name := DecodeScopeName(payload);
      } else if field == 2 {
        records := records + [payload];
      }
    }
    events := DecodeRecords(c, resource, name, records);
  }

  method DecodeRecords(c: Context, resource: Attributes, name: Text, records: seq<seq<byte>>)
    returns (events: Option<seq<Event>>)
    ensures events == Gather(RecordDecoder(c, resource, name), records)
  {
    var out: seq<Event> := [];
    GatheredAll(RecordDecoder(c, resource, name), records);
    for i := 0 to |records|
      invariant Gathers(RecordDecoder(c, resource, name), records, i, out)
    {
      var facts := DecodeLogRecord(records[i]);
      GatherStep(RecordDecoder(c, resource, name), records, i, out);
      if facts.None? {
        return None;
      }
      var e := FinishEvent(c, resource, name, facts.value);
      out := out + [e];
    }
    GatherEnds(RecordDecoder(c, resource, name), records, out);
    return Some(out);
  }

  /** Decoding the first i submessages came to these events. */
  ghost predicate Gathers(decode: seq<byte> -> Option<seq<Event>>, chunks: seq<seq<byte>>, i: nat, out: seq<Event>)
    requires i <= |chunks|
  {
    Gather(decode, chunks) == Joined(Some(out), Gather(decode, chunks[i..]))
  }

  lemma GatheredAll(decode: seq<byte> -> Option<seq<Event>>, chunks: seq<seq<byte>>)
    ensures Gathers(decode, chunks, 0, [])
  {
    assert chunks[0..] == chunks;
    var rest := Gather(decode, chunks);
    assert rest.Some? ==> [] + rest.value == rest.value;
  }

  lemma GatherStep(decode: seq<byte> -> Option<seq<Event>>, chunks: seq<seq<byte>>, i: nat, out: seq<Event>)
    requires i < |chunks| && Gathers(decode, chunks, i, out)
    ensures decode(chunks[i]).None? ==> Gather(decode, chunks) == None
    ensures decode(chunks[i]).Some? ==> Gathers(decode, chunks, i + 1, out + decode(chunks[i]).value)
  {
    assert chunks[i..][1..] == chunks[i + 1..];
    var next, rest := decode(chunks[i]), Gather(decode, chunks[i + 1..]);
    if next.Some? && rest.Some? {
      Seqs.Assoc(out, next.value, rest.value);
    }
  }

  lemma GatherEnds(decode: seq<byte> -> Option<seq<Event>>, chunks: seq<seq<byte>>, out: seq<Event>)
    requires Gathers(decode, chunks, |chunks|, out)
    ensures Gather(decode, chunks) == Some(out)
  {
    assert chunks[|chunks|..] == [];
    assert out + [] == out;
  }

  method DecodeResourceLogs(c: Context, b: seq<byte>) returns (events: Option<seq<Event>>)
    ensures events == DecodeBatch(c, b)
  {
    var resource: Attributes, scopes: seq<seq<byte>> := map[], [];
    var r := new Reader(b);
    while !r.Done()
      invariant r.Valid() && fresh(r)
      invariant Walking<Gathered<Attributes>>(TakeBatch, b, (map[], []), r.Left(), (resource, scopes))
      decreases |r.Left()|
    {
      WalkStep<Gathered<Attributes>>(TakeBatch, b, (map[], []), r.Left(), (resource, scopes));
      var field, wire, ok := r.Tag();
      if !ok {
        return None;
      }
      if wire != WIRE_BYTES {
        var ok := r.Skip(wire);
        if !ok {
          return None;
        }
        continue;
      }
      var payload, good := r.Bytes();
      if !good {
        return None;
      }
      if field == 1 {
        var m := DecodeResource(payload, resource);
        if m.None? {
          return None;
        }
        resource := m.value;
      } else if field == 2 {
        scopes := scopes + [payload];
      }
    }
    var out: seq<Event> := [];
    GatheredAll(ScopeDecoder(c, resource), scopes);
    for i := 0 to |scopes|
      invariant Gathers(ScopeDecoder(c, resource), scopes, i, out)
    {
      var es := DecodeScopeLogs(c, resource, scopes[i]);
      GatherStep(ScopeDecoder(c, resource), scopes, i, out);
      if es.None? {
        return None;
      }
      out := out + es.value;
    }
    GatherEnds(ScopeDecoder(c, resource), scopes, out);
    return Some(out);
  }

  method DecodeProtobuf(c: Context, b: seq<byte>) returns (events: Option<seq<Event>>)
    ensures events == DecodeRequest(c, b)
  {
    var out: seq<Event> := [];
    var r := new Reader(b);
    while !r.Done()
      invariant r.Valid() && fresh(r)
      invariant Walking(RequestTaker(c), b, [], r.Left(), out)
      decreases |r.Left()|
    {
      WalkStep(RequestTaker(c), b, [], r.Left(), out);
      var field, wire, ok := r.Tag();
      if !ok {
        return None;
      }
      if field != 1 || wire != WIRE_BYTES {
        var ok := r.Skip(wire);
        if !ok {
          return None;
        }
        continue;
      }
      var body, good := r.Bytes();
      if !good {
        return None;
      }
      var es := DecodeResourceLogs(c, body);
      if es.None? {
        return None;
      }
      out := out + es.value;
    }
    return Some(out);
  }
}
