/** The protobuf wire format: varints, fixed-width numbers and length-delimited
    bytes, and the reader that walks a message of them. */
module Protowire {
  import opened Bytes
  import opened Model
  import Seqs

  const WIRE_VARINT: nat := 0
  const WIRE_I64: nat := 1
  const WIRE_BYTES: nat := 2
  const WIRE_I32: nat := 5

  /** What a field carries. */
  datatype Payload = Varint(n: nat) | Fixed64(n: nat) | Chunk(bytes: seq<byte>) | Fixed32(n: nat)

  datatype Field = Field(number: nat, payload: Payload)

  // ----- varints ---------------------------------------------------------------

  /** Seven bits a byte, the low ones first. */
  function WriteVarint(v: nat): (b: seq<byte>)
    ensures b != []
  {
    if v < 128 then [v] else [v % 128 + 128] + WriteVarint(v / 128)
  }

  /** The number in the varint at the front, after k of its bytes: a tenth byte
      may not ask for an eleventh. */
  function VarintFrom(b: seq<byte>, k: nat): (r: Option<(nat, seq<byte>)>)
    ensures r.Some? ==> |r.value.1| < |b|
  {
    if b == [] then None
    else if b[0] < 128 then Some((b[0], b[1..]))
    else if k >= 9 then None
    else match VarintFrom(b[1..], k + 1)
      case None => None
      case Some((v, rest)) => Some((b[0] - 128 + 128 * v, rest))
  }

  /** The bits that the tenth byte holds beyond the sixty-fourth are dropped. */
  function ReadVarint(b: seq<byte>): (r: Option<(nat, seq<byte>)>)
    ensures r.Some? ==> r.value.0 < TWO_64 && |r.value.1| < |b|
  {
    match VarintFrom(b, 0)
    case None => None
    case Some((v, rest)) => Some((v % TWO_64, rest))
  }

  /** How large a number may be after k bytes. */
  function Room(k: nat): nat
    decreases 9 - k
  {
    if k >= 9 then 2 else 128 * Room(k + 1)
  }

  lemma RoomIsTwo64()
    ensures Room(0) == TWO_64
  {
    assert Room(7) == 128 * Room(8) == 128 * 256;
    assert Room(5) == 128 * Room(6) == 128 * (128 * Room(7));
    assert Room(3) == 128 * Room(4) == 128 * (128 * Room(5));
    assert Room(1) == 128 * Room(2) == 128 * (128 * Room(3));
  }

  lemma {:induction false} VarintReadsFrom(v: nat, k: nat, rest: seq<byte>)
    requires k <= 9 && v < Room(k)
    ensures VarintFrom(WriteVarint(v) + rest, k) == Some((v, rest))
    decreases v
  {
    var b := WriteVarint(v) + rest;
    if v < 128 {
      assert b[1..] == rest;
    } else {
      VarintReadsFrom(v / 128, k + 1, rest);
      assert b[1..] == WriteVarint(v / 128) + rest;
    }
  }

  lemma VarintReadsBack(v: nat, rest: seq<byte>)
    requires v < TWO_64
    ensures ReadVarint(WriteVarint(v) + rest) == Some((v, rest))
  {
    assert v < Room(0) by {
      RoomIsTwo64();
    }
    assert v % TWO_64 == v;
    VarintReadsFrom(v, 0, rest);
  }

  lemma {:induction false} VarintFromExtends(b: seq<byte>, k: nat, more: seq<byte>)
    requires VarintFrom(b, k).Some?
    ensures var (v, rest) := VarintFrom(b, k).value; VarintFrom(b + more, k) == Some((v, rest + more))
    decreases |b|
  {
    assert (b + more)[1..] == b[1..] + more;
    if b[0] >= 128 {
      VarintFromExtends(b[1..], k + 1, more);
    }
  }

  // ----- fixed-width numbers -------------------------------------------------------

  function LittleEndian(n: nat, width: nat): (b: seq<byte>)
    ensures |b| == width
  {
    if width == 0 then [] else [n % 256] + LittleEndian(n / 256, width - 1)
  }

  function FromLittleEndian(b: seq<byte>): nat {
    if b == [] then 0 else b[0] + 256 * FromLittleEndian(b[1..])
  }

  lemma {:induction false} LittleEndianRoundTrip(n: nat, width: nat)
    requires n < Range(width)
    ensures FromLittleEndian(LittleEndian(n, width)) == n
  {
    if width > 0 {
      LittleEndianRoundTrip(n / 256, width - 1);
      assert LittleEndian(n, width)[1..] == LittleEndian(n / 256, width - 1);
    }
  }

  // ----- fields ---------------------------------------------------------------------

  function ReadTag(b: seq<byte>): (r: Option<(nat, nat, seq<byte>)>)
    ensures r.Some? ==> |r.value.2| < |b|
  {
    match ReadVarint(b)
    case None => None
    case Some((v, rest)) => if v / 8 == 0 then None else Some((v / 8, v % 8, rest))
  }

  function ReadPayload(wire: nat, b: seq<byte>): (r: Option<(Payload, seq<byte>)>)
    ensures r.Some? ==> |r.value.1| <= |b|
    ensures r.Some? && r.value.0.Chunk? ==> |r.value.0.bytes| <= |b|
  {
    if wire == WIRE_VARINT then
      match ReadVarint(b)
      case None => None
      case Some((v, rest)) => Some((Varint(v), rest))
    else if wire == WIRE_I64 then
      if |b| < 8 then None else Some((Fixed64(FromLittleEndian(b[..8])), b[8..]))
    else if wire == WIRE_BYTES then
      match ReadVarint(b)
      case None => None
      case Some((n, rest)) => if n > |rest| then None else Some((Chunk(rest[..n]), rest[n..]))
    else if wire == WIRE_I32 then
      if |b| < 4 then None else Some((Fixed32(FromLittleEndian(b[..4])), b[4..]))
    else None
  }

  /** The field at the front of a message and what follows it. */
  function ReadField(b: seq<byte>): (r: Option<(Field, seq<byte>)>)
    ensures r.Some? ==> |r.value.1| < |b|
    ensures r.Some? && r.value.0.payload.Chunk? ==> |r.value.0.payload.bytes| < |b|
  {
    match ReadTag(b)
    case None => None
    case Some((number, wire, rest)) =>
      match ReadPayload(wire, rest)
      case None => None
      case Some((payload, rest')) => Some((Field(number, payload), rest'))
  }

  function WireOf(p: Payload): nat {
    match p
    case Varint(_) => WIRE_VARINT
    case Fixed64(_) => WIRE_I64
    case Chunk(_) => WIRE_BYTES
    case Fixed32(_) => WIRE_I32
  }

  function WritePayload(p: Payload): seq<byte> {
    match p
    case Varint(n) => WriteVarint(n)
    case Fixed64(n) => LittleEndian(n, 8)
    case Chunk(bytes) => WriteVarint(|bytes|) + bytes
    case Fixed32(n) => LittleEndian(n, 4)
  }

  function WriteTag(number: nat, wire: nat): seq<byte> {
    WriteVarint(8 * number + wire)
  }

  function WriteField(f: Field): seq<byte> {
    WriteTag(f.number, WireOf(f.payload)) + WritePayload(f.payload)
  }

  /** Numbers that protobuf allows, and payloads that fit their width. */
  ghost predicate Writable(f: Field) {
    && 0 < f.number < 0x2000_0000
    && match f.payload
       case Varint(n) => n < TWO_64
       case Fixed64(n) => n < TWO_64
       case Chunk(bytes) => |bytes| < TWO_64
       case Fixed32(n) => n < 0x1_0000_0000
  }

  lemma PayloadReadsBack(p: Payload, rest: seq<byte>)
    requires Writable(Field(1, p))
    ensures ReadPayload(WireOf(p), WritePayload(p) + rest) == Some((p, rest))
  {
    var b := WritePayload(p) + rest;
    Ranges();
    match p {
      case Varint(n) => VarintReadsBack(n, rest);
      case Fixed64(n) =>
        LittleEndianRoundTrip(n, 8);
        Seqs.Split(LittleEndian(n, 8), rest);
      case Chunk(bytes) =>
        Seqs.Assoc(WriteVarint(|bytes|), bytes, rest);
        VarintReadsBack(|bytes|, bytes + rest);
        Seqs.Split(bytes, rest);
      case Fixed32(n) =>
        LittleEndianRoundTrip(n, 4);
        Seqs.Split(LittleEndian(n, 4), rest);
    }
  }

  /** A field reads back whatever follows it. */
  lemma FieldReadsBack(f: Field, rest: seq<byte>)
    requires Writable(f)
    ensures ReadField(WriteField(f) + rest) == Some((f, rest))
  {
    var tag := WriteTag(f.number, WireOf(f.payload));
    Seqs.Assoc(tag, WritePayload(f.payload), rest);
    VarintReadsBack(8 * f.number + WireOf(f.payload), WritePayload(f.payload) + rest);
    PayloadReadsBack(f.payload, rest);
  }

  /** What was read at the front does not depend on what follows. */
  lemma FieldExtends(b: seq<byte>, more: seq<byte>)
    requires ReadField(b).Some?
    ensures var (f, rest) := ReadField(b).value; ReadField(b + more) == Some((f, rest + more))
  {
    VarintFromExtends(b, 0, more);
    var (_, wire, rest) := ReadTag(b).value;
    if wire == WIRE_VARINT || wire == WIRE_BYTES {
      VarintFromExtends(rest, 0, more);
    }
    if wire == WIRE_BYTES {
      var (n, rest') := ReadVarint(rest).value;
      assert (rest' + more)[..n] == rest'[..n] && (rest' + more)[n..] == rest'[n..] + more;
    } else if wire == WIRE_I64 {
      assert (rest + more)[..8] == rest[..8] && (rest + more)[8..] == rest[8..] + more;
    } else if wire == WIRE_I32 {
      assert (rest + more)[..4] == rest[..4] && (rest + more)[4..] == rest[4..] + more;
    }
  }

  method AppendVarint(b: seq<byte>, v: nat) returns (out: seq<byte>)
    ensures out == b + WriteVarint(v)
  {
    out := b;
    var n := v;
    while n >= 128
      invariant out + WriteVarint(n) == b + WriteVarint(v)
    {
      Seqs.Assoc(out, [n % 128 + 128], WriteVarint(n / 128));
      out, n := out + [n % 128 + 128], n / 128;
    }
    out := out + [n];
  }

  // ----- the reader -------------------------------------------------------------------

  /** Of a varint whose first k bytes came to v, the rest is left; scale is what
      the next seven bits count. */
  ghost predicate Pending(start: seq<byte>, left: seq<byte>, k: nat, v: nat, scale: nat) {
    ReadVarint(start) == match VarintFrom(left, k)
                         case None => None
                         case Some((n, rest)) => Some(((v + scale * n) % TWO_64, rest))
  }

  /** The number after seven more bits. Adding them is what or-ing the shifted
      bits gives, since they do not overlap. */
  function Grown(v: nat, scale: nat, b: byte): (n: nat)
    ensures n < TWO_64
  {
    (v + scale * (b % 128)) % TWO_64
  }

  lemma GrownSum(v: nat, scale: nat, b: byte, n: nat)
    ensures (v + scale * (b % 128 + 128 * n)) % TWO_64 == (Grown(v, scale, b) + (128 * scale) * n) % TWO_64
  {
    var x, y := v + scale * (b % 128), (128 * scale) * n;
    assert scale * (b % 128 + 128 * n) == scale * (b % 128) + y;
    ModAdd(x, y);
  }

  lemma ModAdd(x: nat, y: nat)
    ensures (x + y) % TWO_64 == (x % TWO_64 + y) % TWO_64
  {
  }

  lemma TakesByte(start: seq<byte>, left: seq<byte>, k: nat, v: nat, scale: nat)
    requires left != [] && Pending(start, left, k, v, scale)
    ensures left[0] < 128 ==> ReadVarint(start) == Some((Grown(v, scale, left[0]), left[1..]))
    ensures left[0] >= 128 && k >= 9 ==> ReadVarint(start) == None
    ensures left[0] >= 128 && k < 9 ==> Pending(start, left[1..], k + 1, Grown(v, scale, left[0]), 128 * scale)
  {
    if left[0] >= 128 && k < 9 && VarintFrom(left[1..], k + 1).Some? {
      GrownSum(v, scale, left[0], VarintFrom(left[1..], k + 1).value.0);
    }
  }

  class Reader {
    const buf: seq<byte>
    var pos: nat

    ghost predicate Valid()
      reads this
    {
      pos <= |buf|
    }

    /** The bytes not read yet. */
    function Left(): seq<byte>
      requires Valid()
      reads this
    {
      buf[pos..]
    }

    constructor (b: seq<byte>)
      ensures Valid() && Left() == b
    {
      buf, pos := b, 0;
    }

    predicate Done()
      requires Valid()
      reads this
      ensures Done() <==> Left() == []
    {
      pos >= |buf|
    }

    method Varint() returns (v: nat, ok: bool)
      requires Valid()
      modifies this
      ensures Valid()
      ensures match ReadVarint(old(Left()))
              case None => !ok
              case Some((n, rest)) => ok && v == n && Left() == rest
    {
      v, ok := 0, true;
      var shift: nat, scale: nat := 0, 1;
      ghost var k: nat, start := 0, Left();
      assert Pending(start, start, 0, 0, 1);
      while true
        invariant pos <= |buf| && k <= 9 && shift == 7 * k
        invariant Pending(start, buf[pos..], k, v, scale)
        decreases |buf| - pos
      {
        if pos >= |buf| {
          return 0, false;
        }
        ghost var left := buf[pos..];
        var b := buf[pos];
        pos := pos + 1;
        assert left[0] == b && left[1..] == buf[pos..];
        TakesByte(start, left, k, v, scale);
        v := Grown(v, scale, b);
        if b < 128 {
          return;
        }
        shift, scale, k := shift + 7, 128 * scale, k + 1;
        if shift > 63 {
          return 0, false;
        }
      }
    }

    method Tag() returns (field: nat, wire: nat, ok: bool)
      requires Valid()
      modifies this
      ensures Valid()
      ensures match ReadTag(old(Left()))
              case None => !ok
              case Some((n, t, rest)) => ok && field == n && wire == t && Left() == rest
    {
      field, wire := 0, 0;
      var v;
      v, ok := Varint();
      if !ok {
        return;
      }
      field, wire := v / 8, v % 8;
      ok := field > 0;
    }

    method Bytes() returns (b: seq<byte>, ok: bool)
      requires Valid()
      modifies this
      ensures Valid()
      ensures match ReadPayload(WIRE_BYTES, old(Left()))
              case None => !ok
              case Some((p, rest)) => ok && p == Chunk(b) && Left() == rest
    {
      b := [];
      var n;
      n, ok := Varint();
      if !ok || n > |buf| - pos {
        return [], false;
      }
      var start := pos;
      assert Left()[n..] == buf[start + n..] && Left()[..n] == buf[start..start + n];
      pos := pos + n;
      b := buf[start..pos];
    }

    method Fixed(width: nat) returns (v: nat, ok: bool)
      requires Valid() && (width == 4 || width == 8)
      modifies this
      ensures Valid()
      ensures match ReadPayload(if width == 8 then WIRE_I64 else WIRE_I32, old(Left()))
              case None => !ok
              case Some((p, rest)) => ok && p == (if width == 8 then Fixed64(v) else Fixed32(v)) && Left() == rest
    {
      if pos + width > |buf| {
        return 0, false;
      }
      assert Left()[..width] == buf[pos..pos + width] && Left()[width..] == buf[pos + width..];
      v, ok := FromLittleEndian(buf[pos..pos + width]), true;
      pos := pos + width;
    }

    /** Moves past a payload of any known wire type. */
    method Skip(wire: nat) returns (ok: bool)
      requires Valid()
      modifies this
      ensures Valid()
      ensures match ReadPayload(wire, old(Left()))
              case None => !ok
              case Some((_, rest)) => ok && Left() == rest
    {
      if wire == WIRE_VARINT {
        var _, good := Varint();
        return good;
      } else if wire == WIRE_I64 {
        var _, good := Fixed(8);
        return good;
      } else if wire == WIRE_BYTES {
        var _, good := Bytes();
        return good;
      } else if wire == WIRE_I32 {
        var _, good := Fixed(4);
        return good;
      }
      return false;
    }
  }
}
