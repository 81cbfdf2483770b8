/** OTLP log values: the protobuf encoding of an AnyValue, and the mutually
    recursive decoders that read it back. */
module Otlp {
  import opened Bytes
  import opened Model
  import opened Protowire
  import Seqs

  const MAX_NESTING_DEPTH: nat := 16

  type Text = seq<byte>

  // ----- values ------------------------------------------------------------------

  /** An AnyValue as a sender builds it. */
  datatype Any =
    | Unset
    | Str(s: Text)
    | Flag(b: bool)
    | Int(i: int)
    | Double(bits: nat)
    | Array(xs: Anys)
    | Kvlist(kvs: Kvs)
    | Raw(bytes: seq<byte>)

  datatype Anys = Done | More(head: Any, tail: Anys)

  datatype Kvs = End | Entry(key: Text, value: Any, next: Kvs)

  /** What the receiver stores for it. */
  datatype Value =
    | Nothing
    | Words(s: Text)
    | Boolean(b: bool)
    | Integer(i: int)
    | Float(bits: nat)
    | List(vs: seq<Value>)
    | Dict(m: map<Text, Value>)

  function HexDigit(n: nat): (d: byte)
    requires n < 16
  {
    if n < 10 then 48 + n else 87 + n
  }

  function Hex(b: seq<byte>): Text {
    if b == [] then [] else [HexDigit(b[0] / 16), HexDigit(b[0] % 16)] + Hex(b[1..])
  }

  /** Bytes are stored as hex, later entries of a key replace earlier ones, and
      entries without a key are dropped. */
  function Meaning(a: Any): Value {
    match a
    case Unset => Nothing
    case Str(s) => Words(s)
    case Flag(b) => Boolean(b)
    case Int(i) => Integer(i)
    case Double(bits) => Float(bits)
    case Array(xs) => List(Meanings(xs))
    case Kvlist(kvs) => Dict(Entries(kvs, map[]))
    case Raw(bytes) => Words(Hex(bytes))
  }

  function Meanings(xs: Anys): seq<Value> {
    match xs
    case Done => []
    case More(head, tail) => [Meaning(head)] + Meanings(tail)
  }

  function Entries(kvs: Kvs, m: map<Text, Value>): map<Text, Value> {
    match kvs
    case End => m
    case Entry(key, value, next) => Entries(next, if key == [] then m else m[key := Meaning(value)])
  }

  // ----- the encoder ----------------------------------------------------------------

  function FromInt64(i: int): nat
    requires -TWO_63 <= i < TWO_63
  {
    if i < 0 then i + TWO_64 else i
  }

  function ToInt64(n: nat): int {
    if n < TWO_63 then n else n - TWO_64
  }

  predicate InRange(a: Any) {
    match a
    case Int(i) => -TWO_63 <= i < TWO_63
    case Double(bits) => bits < TWO_64
    case Array(xs) => AllInRange(xs)
    case Kvlist(kvs) => EntriesInRange(kvs)
    case _ => true
  }

  predicate AllInRange(xs: Anys) {
    match xs
    case Done => true
    case More(head, tail) => InRange(head) && AllInRange(tail)
  }

  predicate EntriesInRange(kvs: Kvs) {
    match kvs
    case End => true
    case Entry(_, value, next) => InRange(value) && EntriesInRange(next)
  }

  function FieldOf(a: Any): Field
    requires InRange(a) && !a.Unset?
    decreases a, 0
  {
    match a
    case Str(s) => Field(1, Chunk(s))
    case Flag(b) => Field(2, Varint(if b then 1 else 0))
    case Int(i) => Field(3, Varint(FromInt64(i)))
    case Double(bits) => Field(4, Fixed64(bits))
    case Array(xs) => Field(5, Chunk(EncodeArray(xs)))
    case Kvlist(kvs) => Field(6, Chunk(EncodeKvlist(kvs)))
    case Raw(bytes) => Field(7, Chunk(bytes))
  }

  function EncodeAny(a: Any): seq<byte>
    requires InRange(a)
    decreases a, 1
  {
    if a.Unset? then [] else WriteField(FieldOf(a))
  }

  function EncodeArray(xs: Anys): seq<byte>
    requires AllInRange(xs)
  {
    match xs
    case Done => []
    case More(head, tail) => WriteField(Field(1, Chunk(EncodeAny(head)))) + EncodeArray(tail)
  }

  function EncodeKvlist(kvs: Kvs): seq<byte>
    requires EntriesInRange(kvs)
  {
    match kvs
    case End => []
    case Entry(key, value, next) =>
      WriteField(Field(1, Chunk(EncodeKeyValue(key, EncodeAny(value))))) + EncodeKvlist(next)
  }

  function EncodeKeyValue(key: Text, value: seq<byte>): seq<byte> {
    WriteField(Field(1, Chunk(key))) + WriteField(Field(2, Chunk(value)))
  }

  // ----- the decoders ---------------------------------------------------------------

  function DecodeAny(b: seq<byte>, depth: nat): Option<Value>
    decreases |b|, 1
  {
    if depth > MAX_NESTING_DEPTH then None else AnyFields(b, depth)
  }

  /** The first field that is a value decides; what follows it is not read. */
  function AnyFields(b: seq<byte>, depth: nat): Option<Value>
    decreases |b|, 0
  {
    if b == [] then Some(Nothing)
    else match ReadField(b)
      case None => None
      case Some((f, rest)) => FieldValue(f, depth).UnwrapOr(AnyFields(rest, depth))
  }

  /** The value that a field of an AnyValue carries, if it carries one. */
  function FieldValue(f: Field, depth: nat): Option<Option<Value>>
    decreases if f.payload.Chunk? then |f.payload.bytes| else 0, 1
  {
    match f
    case Field(1, Chunk(s)) => Some(Some(Words(s)))
    case Field(2, Varint(n)) => Some(Some(Boolean(n != 0)))
    case Field(3, Varint(n)) => Some(Some(Integer(ToInt64(n))))
    case Field(4, Fixed64(n)) => Some(Some(Float(n)))
    case Field(5, Chunk(s)) => Some(Listed(ArrayFields(s, depth + 1)))
    case Field(6, Chunk(s)) => Some(Keyed(KvlistFields(s, depth + 1, map[])))
    case Field(7, Chunk(s)) => Some(Some(Words(Hex(s))))
    case _ => None
  }

  function Listed(vs: Option<seq<Value>>): Option<Value> {
    match vs case None => None case Some(vs) => Some(List(vs))
  }

  function Keyed(m: Option<map<Text, Value>>): Option<Value> {
    match m case None => None case Some(m) => Some(Dict(m))
  }

  function ArrayFields(b: seq<byte>, depth: nat): Option<seq<Value>>
    decreases |b|, 0
  {
    if b == [] then Some([])
    else match ReadField(b)
      case None => None
      case Some((f, rest)) =>
        match f
        case Field(1, Chunk(s)) =>
          (match DecodeAny(s, depth + 1)
           case None => None
           case Some(v) =>
             match ArrayFields(rest, depth)
             case None => None
             case Some(vs) => Some([v] + vs))
        case _ => ArrayFields(rest, depth)
  }

  function KvlistFields(b: seq<byte>, depth: nat, m: map<Text, Value>): Option<map<Text, Value>>
    decreases |b|, 0
  {
    if b == [] then Some(m)
    else match ReadField(b)
      case None => None
      case Some((f, rest)) =>
        match f
        case Field(1, Chunk(s)) =>
          (match DecodeKeyValue(s, depth + 1)
           case None => None
           case Some((k, v)) => KvlistFields(rest, depth, if k == [] then m else m[k := v]))
        case _ => KvlistFields(rest, depth, m)
  }

  function DecodeKeyValue(b: seq<byte>, depth: nat): Option<(Text, Value)>
    decreases |b|, 1
  {
    if depth > MAX_NESTING_DEPTH then None else KeyValueFields(b, depth, [], Nothing)
  }

  function KeyValueFields(b: seq<byte>, depth: nat, key: Text, value: Value): Option<(Text, Value)>
    decreases |b|, 0
  {
    if b == [] then Some((key, value))
    else match ReadField(b)
      case None => None
      case Some((f, rest)) =>
        match f
        case Field(1, Chunk(s)) => KeyValueFields(rest, depth, s, value)
        case Field(2, Chunk(s)) =>
          (match DecodeAny(s, depth + 1)
           case None => None
           case Some(v) => KeyValueFields(rest, depth, key, v))
        case _ => KeyValueFields(rest, depth, key, value)
  }

  // ----- decoding inverts encoding -------------------------------------------------------

  /** How many levels of decoder a value takes below its own. */
  function Levels(a: Any): nat {
    match a
    case Array(xs) => ArrayLevels(xs)
    case Kvlist(kvs) => KvlistLevels(kvs)
    case _ => 0
  }

  function ArrayLevels(xs: Anys): nat {
    match xs
    case Done => 0
    case More(head, tail) => Max(2 + Levels(head), ArrayLevels(tail))
  }

  function KvlistLevels(kvs: Kvs): nat {
    match kvs
    case End => 0
    case Entry(_, value, next) => Max(3 + Levels(value), KvlistLevels(next))
  }

  lemma ChunkIsShorter(number: nat, chunk: seq<byte>, rest: seq<byte>)
    ensures |chunk| < |WriteField(Field(number, Chunk(chunk))) + rest|
    ensures |rest| < |WriteField(Field(number, Chunk(chunk))) + rest|
  {
  }

  /** Every value within the nesting budget decodes to its meaning, and no value
      beyond it decodes. */
  lemma {:induction false} AnyRoundTrip(a: Any, depth: nat)
    requires InRange(a) && |EncodeAny(a)| < TWO_64
    ensures DecodeAny(EncodeAny(a), depth)
            == if depth + Levels(a) <= MAX_NESTING_DEPTH then Some(Meaning(a)) else None
    decreases a
  {
    if depth <= MAX_NESTING_DEPTH {
      AnyFieldsRoundTrip(a, depth, []);
      assert EncodeAny(a) + [] == EncodeAny(a);
    }
  }

  lemma AnyStep(f: Field, rest: seq<byte>, depth: nat)
    requires Writable(f)
    ensures AnyFields(WriteField(f) + rest, depth) == FieldValue(f, depth).UnwrapOr(AnyFields(rest, depth))
  {
    FieldReadsBack(f, rest);
  }

  lemma FieldIsWritable(a: Any)
    requires InRange(a) && !a.Unset? && |EncodeAny(a)| < TWO_64
    ensures Writable(FieldOf(a))
  {
    var f := FieldOf(a);
    assert |WriteField(f)| < TWO_64;
    if f.payload.Chunk? {
      ChunkIsShorter(f.number, f.payload.bytes, []);
    }
  }

  lemma {:induction false} FieldMeans(a: Any, depth: nat)
    requires InRange(a) && !a.Unset? && Writable(FieldOf(a))
    requires depth <= MAX_NESTING_DEPTH
    ensures FieldValue(FieldOf(a), depth)
            == Some(if depth + Levels(a) <= MAX_NESTING_DEPTH then Some(Meaning(a)) else None)
    decreases a, 0
  {
    if a.Array? {
      ArrayRoundTrip(a.xs, depth);
    } else if a.Kvlist? {
      KvlistRoundTrip(a.kvs, depth, map[]);
    }
  }

  lemma {:induction false} AnyFieldsRoundTrip(a: Any, depth: nat, tail: seq<byte>)
    requires InRange(a) && |EncodeAny(a)| < TWO_64
    requires depth <= MAX_NESTING_DEPTH
    requires a.Unset? ==> tail == []
    ensures AnyFields(EncodeAny(a) + tail, depth)
            == if depth + Levels(a) <= MAX_NESTING_DEPTH then Some(Meaning(a)) else None
    decreases a, 1
  {
    if !a.Unset? {
      FieldIsWritable(a);
      AnyStep(FieldOf(a), tail, depth);
      FieldMeans(a, depth);
    }
  }

  lemma ArrayStep(x: seq<byte>, rest: seq<byte>, depth: nat, read: bool, v: Value, goesOn: bool, more: seq<Value>,
                  vs: seq<Value>)
    requires |x| < TWO_64 && vs == [v] + more
    requires DecodeAny(x, depth + 1) == if read then Some(v) else None
    requires ArrayFields(rest, depth) == if goesOn then Some(more) else None
    ensures ArrayFields(WriteField(Field(1, Chunk(x))) + rest, depth) == if read && goesOn then Some(vs) else None
  {
    FieldReadsBack(Field(1, Chunk(x)), rest);
  }

  lemma {:induction false} ArrayRoundTrip(xs: Anys, depth: nat)
    requires AllInRange(xs) && |EncodeArray(xs)| < TWO_64
    requires depth <= MAX_NESTING_DEPTH
    ensures ArrayFields(EncodeArray(xs), depth + 1)
            == if depth + ArrayLevels(xs) <= MAX_NESTING_DEPTH then Some(Meanings(xs)) else None
    decreases xs, 0
  {
    match xs {
      case Done =>
      case More(head, tail) =>
        ChunkIsShorter(1, EncodeAny(head), EncodeArray(tail));
        AnyRoundTrip(head, depth + 2);
        ArrayRoundTrip(tail, depth);
        ArrayStep(EncodeAny(head), EncodeArray(tail), depth + 1, depth + 2 + Levels(head) <= MAX_NESTING_DEPTH,
                  Meaning(head), depth + ArrayLevels(tail) <= MAX_NESTING_DEPTH, Meanings(tail), Meanings(xs));
    }
  }

  lemma KvlistStep(kv: seq<byte>, rest: seq<byte>, depth: nat, m: map<Text, Value>)
    requires |kv| < TWO_64
    ensures KvlistFields(WriteField(Field(1, Chunk(kv))) + rest, depth, m)
            == match DecodeKeyValue(kv, depth + 1)
               case None => None
               case Some((k, v)) => KvlistFields(rest, depth, if k == [] then m else m[k := v])
  {
    FieldReadsBack(Field(1, Chunk(kv)), rest);
  }

  lemma {:induction false} KvlistRoundTrip(kvs: Kvs, depth: nat, m: map<Text, Value>)
    requires EntriesInRange(kvs) && |EncodeKvlist(kvs)| < TWO_64
    requires depth <= MAX_NESTING_DEPTH
    ensures KvlistFields(EncodeKvlist(kvs), depth + 1, m)
            == if depth + KvlistLevels(kvs) <= MAX_NESTING_DEPTH then Some(Entries(kvs, m)) else None
    decreases kvs, 0
  {
    match kvs {
      case End =>
      case Entry(key, value, next) =>
        var v := EncodeAny(value);
        KeyValueIsShorter(key, v, EncodeKvlist(next));
        KvlistStep(EncodeKeyValue(key, v), EncodeKvlist(next), depth + 1, m);
        AnyRoundTrip(value, depth + 3);
        KeyValueRoundTrip(key, v, depth + 2);
        KvlistRoundTrip(next, depth, if key == [] then m else m[key := Meaning(value)]);
    }
  }

  lemma KeyValueIsShorter(key: Text, value: seq<byte>, rest: seq<byte>)
    ensures var kv := EncodeKeyValue(key, value);
            var b := WriteField(Field(1, Chunk(kv))) + rest;
            |key| < |kv| && |value| < |kv| && |kv| < |b| && |rest| < |b|
  {
    ChunkIsShorter(1, EncodeKeyValue(key, value), rest);
    ChunkIsShorter(1, key, WriteField(Field(2, Chunk(value))));
    ChunkIsShorter(2, value, []);
  }

  lemma KeyStep(key: Text, rest: seq<byte>, depth: nat, k: Text, v: Value)
    requires |key| < TWO_64
    ensures KeyValueFields(WriteField(Field(1, Chunk(key))) + rest, depth, k, v)
            == KeyValueFields(rest, depth, key, v)
  {
    FieldReadsBack(Field(1, Chunk(key)), rest);
  }

  lemma ValueStep(value: seq<byte>, rest: seq<byte>, depth: nat, k: Text, v: Value)
    requires |value| < TWO_64
    ensures KeyValueFields(WriteField(Field(2, Chunk(value))) + rest, depth, k, v)
            == match DecodeAny(value, depth + 1)
               case None => None
               case Some(v') => KeyValueFields(rest, depth, k, v')
  {
    FieldReadsBack(Field(2, Chunk(value)), rest);
  }

  lemma KeyValueRoundTrip(key: Text, value: seq<byte>, depth: nat)
    requires |key| < TWO_64 && |value| < TWO_64
    ensures DecodeKeyValue(EncodeKeyValue(key, value), depth)
            == if depth > MAX_NESTING_DEPTH then None
               else match DecodeAny(value, depth + 1) case None => None case Some(v) => Some((key, v))
  {
    var second := WriteField(Field(2, Chunk(value)));
    KeyStep(key, second, depth, [], Nothing);
    ValueStep(value, [], depth, key, Nothing);
    assert second + [] == second;
  }

  lemma KeyValueFits(key: Text, value: seq<byte>, depth: nat, fits: bool, v: Value)
    requires |key| < TWO_64 && |value| < TWO_64 && (depth >= MAX_NESTING_DEPTH ==> !fits)
    requires DecodeAny(value, depth + 1) == if fits then Some(v) else None
    ensures DecodeKeyValue(EncodeKeyValue(key, value), depth) == if fits then Some((key, v)) else None
  {
    KeyValueRoundTrip(key, value, depth);
  }

  lemma KeyAnyRoundTrip(key: Text, value: Any, depth: nat)
    requires InRange(value) && |EncodeKeyValue(key, EncodeAny(value))| < TWO_64
    ensures DecodeKeyValue(EncodeKeyValue(key, EncodeAny(value)), depth)
            == if depth + 1 + Levels(value) <= MAX_NESTING_DEPTH then Some((key, Meaning(value))) else None
  {
    KeyValueIsShorter(key, EncodeAny(value), []);
    AnyRoundTrip(value, depth + 1);
    KeyValueFits(key, EncodeAny(value), depth, depth + 1 + Levels(value) <= MAX_NESTING_DEPTH, Meaning(value));
  }

  // ----- forward compatibility --------------------------------------------------------------

  /** Well-formed fields none of which is a value. */
  ghost predicate Unknown(u: seq<byte>)
    decreases |u|
  {
    u == [] || (ReadField(u).Some? && FieldValue(ReadField(u).value.0, 0).None? && Unknown(ReadField(u).value.1))
  }

  lemma UnknownStep(b: seq<byte>, depth: nat)
    requires ReadField(b).Some? && FieldValue(ReadField(b).value.0, 0).None?
    ensures AnyFields(b, depth) == AnyFields(ReadField(b).value.1, depth)
  {
  }

  lemma {:induction false} UnknownIsSkipped(u: seq<byte>, b: seq<byte>, depth: nat)
    requires Unknown(u)
    ensures AnyFields(u + b, depth) == AnyFields(b, depth)
    decreases |u|
  {
    if u == [] {
      assert u + b == b;
    } else {
      FieldExtends(u, b);
      UnknownStep(u + b, depth);
      UnknownIsSkipped(ReadField(u).value.1, b, depth);
    }
  }

  /** Unknown fields before a value, and anything at all after it, change
      nothing. */
  lemma SurroundingsChangeNothing(u: seq<byte>, a: Any, tail: seq<byte>, depth: nat)
    requires InRange(a) && !a.Unset? && |EncodeAny(a)| < TWO_64
    requires Unknown(u)
    ensures DecodeAny(u + (EncodeAny(a) + tail), depth) == DecodeAny(EncodeAny(a), depth)
  {
    AnyRoundTrip(a, depth);
    if depth <= MAX_NESTING_DEPTH {
      UnknownIsSkipped(u, EncodeAny(a) + tail, depth);
      AnyFieldsRoundTrip(a, depth, tail);
    }
  }

  // ----- the decoders as loops -----------------------------------------------------------------

  method DecodeAnyValue(b: seq<byte>, depth: nat) returns (v: Option<Value>)
    ensures v == DecodeAny(b, depth)
    decreases |b|, 1
  {
    if depth > MAX_NESTING_DEPTH {
      return None;
    }
    var r := new Reader(b);
    while true
      invariant r.Valid() && fresh(r) && |r.Left()| <= |b|
      invariant DecodeAny(b, depth) == AnyFields(r.Left(), depth)
      decreases |r.Left()|
    {
      if r.Done() {
        return Some(Nothing);
      }
      var field, wire, ok := r.Tag();
      if !ok {
        return None;
      }
      if HoldsValue(field, wire) {
        v := ReadValue(r, field, wire, depth);
        return;
      }
      var skipped := r.Skip(wire);
      if !skipped {
        return None;
      }
    }
  }

  predicate HoldsValue(field: nat, wire: nat) {
    || (field in {1, 5, 6, 7} && wire == WIRE_BYTES)
    || (field in {2, 3} && wire == WIRE_VARINT)
    || (field == 4 && wire == WIRE_I64)
  }

  /** The value that follows its tag. */
  method ReadValue(r: Reader, field: nat, wire: nat, depth: nat) returns (v: Option<Value>)
    requires r.Valid() && HoldsValue(field, wire)
    modifies r
    ensures v == match ReadPayload(wire, old(r.Left()))
                 case None => None
                 case Some((p, _)) => FieldValue(Field(field, p), depth).UnwrapOr(None)
    decreases |r.Left()|, 1
  {
    if field == 2 {
      var n, ok := r.Varint();
      return if ok then Some(Boolean(n != 0)) else None;
    } else if field == 3 {
      var n, ok := r.Varint();
      return if ok then Some(Integer(ToInt64(n))) else None;
    } else if field == 4 {
      var n, ok := r.Fixed(8);
      return if ok then Some(Float(n)) else None;
    }
    var s, ok := r.Bytes();
    if !ok {
      return None;
    }
    if field == 1 {
      return Some(Words(s));
    } else if field == 7 {
      return Some(Words(Hex(s)));
    } else if field == 5 {
      v := DecodeArrayValue(s, depth + 1);
    } else {
      v := DecodeKvlist(s, depth + 1);
    }
  }

  method DecodeArrayValue(b: seq<byte>, depth: nat) returns (v: Option<Value>)
    ensures v == Listed(ArrayFields(b, depth))
    decreases |b|, 0
  {
    var out: seq<Value> := [];
    var r := new Reader(b);
    ContinuedNone(ArrayFields(b, depth));
    while !r.Done()
      invariant r.Valid() && fresh(r) && |r.Left()| <= |b|
      invariant ArrayFields(b, depth) == Continued(out, ArrayFields(r.Left(), depth))
      decreases |r.Left()|
    {
      ghost var left := r.Left();
      var field, wire, ok := r.Tag();
      if !ok {
        return None;
      }
      if field != 1 || wire != WIRE_BYTES {
        var ok := r.Skip(wire);
        if !ok {
          return None;
        }
        continue;
      }
      var payload, good := r.Bytes();
      if !good {
        return None;
      }
      var x := DecodeAnyValue(payload, depth + 1);
      if x.None? {
        return None;
      }
      ArrayTakes(left, depth, out, payload, r.Left(), x.value);
      out := out + [x.value];
    }
    assert out + [] == out;
    return Some(List(out));
  }

  function Continued(out: seq<Value>, more: Option<seq<Value>>): Option<seq<Value>> {
    match more case None => None case Some(vs) => Some(out + vs)
  }

  lemma ContinuedNone(more: Option<seq<Value>>)
    ensures Continued([], more) == more
  {
    assert more.Some? ==> [] + more.value == more.value;
  }

  /** The pass of the loop that meets an element. */
  lemma ArrayTakes(b: seq<byte>, depth: nat, out: seq<Value>, s: seq<byte>, rest: seq<byte>, v: Value)
    requires b != [] && ReadField(b) == Some((Field(1, Chunk(s)), rest)) && DecodeAny(s, depth + 1) == Some(v)
    ensures Continued(out, ArrayFields(b, depth)) == Continued(out + [v], ArrayFields(rest, depth))
  {
    if ArrayFields(rest, depth).Some? {
      Seqs.Assoc(out, [v], ArrayFields(rest, depth).value);
    }
  }

  method DecodeKvlist(b: seq<byte>, depth: nat) returns (v: Option<Value>)
    ensures v == Keyed(KvlistFields(b, depth, map[]))
    decreases |b|, 0
  {
    var out: map<Text, Value> := map[];
    var r := new Reader(b);
    while !r.Done()
      invariant r.Valid() && fresh(r) && |r.Left()| <= |b|
      invariant KvlistFields(b, depth, map[]) == KvlistFields(r.Left(), depth, out)
      decreases |r.Left()|
    {
      var field, wire, ok := r.Tag();
      if !ok {
        return None;
      }
      if field != 1 || wire != WIRE_BYTES {
        var ok := r.Skip(wire);
        if !ok {
          return None;
        }
        continue;
      }
      var payload, good := r.Bytes();
      if !good {
        return None;
      }
      var kv := ReadKeyValue(payload, depth + 1);
      if kv.None? {
        return None;
      }
      var (key, x) := kv.value;
      if key != [] {
        out := out[key := x];
      }
    }
    return Some(Dict(out));
  }

  method ReadKeyValue(b: seq<byte>, depth: nat) returns (kv: Option<(Text, Value)>)
    ensures kv == DecodeKeyValue(b, depth)
    decreases |b|, 1
  {
    if depth > MAX_NESTING_DEPTH {
      return None;
    }
    var key: Text, value := [], Nothing;
    var r := new Reader(b);
    while !r.Done()
      invariant r.Valid() && fresh(r) && |r.Left()| <= |b|
      invariant DecodeKeyValue(b, depth) == KeyValueFields(r.Left(), depth, key, value)
      decreases |r.Left()|
    {
      var field, wire, ok := r.Tag();
      if !ok {
        return None;
      }
      if wire != WIRE_BYTES {
        var ok := r.Skip(wire);
        if !ok {
          return None;
        }
        continue;
      }
      var payload, good := r.Bytes();
      if !good {
        return None;
      }
      if field == 1 {
        key := payload;
      } else if field == 2 {
        var x := DecodeAnyValue(payload, depth + 1);
        if x.None? {
          return None;
        }
        value := x.value;
      }
    }
    return Some((key, value));
  }
}
