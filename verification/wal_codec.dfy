/** The record format of the write-ahead log and the scan that recovers it. */
module WalCodec {
  import opened Bytes
  import opened Seqs

  const HEADER_SIZE: nat := 16
  const MAX_RECORD_BYTES: nat := 0x400_0000

  datatype Record = Record(seqNo: nat, payload: seq<byte>) {
    ghost predicate Fits() {
      seqNo < TWO_64 && |payload| <= MAX_RECORD_BYTES
    }
  }

  ghost predicate AllFit(rs: seq<Record>) {
    forall i :: 0 <= i < |rs| ==> rs[i].Fits()
  }

  /** What a reader finds at the front of some bytes. */
  datatype Front = Clean | Torn | Whole(record: Record)

  /** A record format: how a record is written and how one is read back. */
  datatype Format = Format(encode: Record -> seq<byte>, read: seq<byte> -> Front) {

    /** Reading inverts writing whatever follows, and has no other preimage. */
    ghost predicate Lawful() {
      && (forall r: Record, tail :: r.Fits() ==> read(encode(r) + tail) == Whole(r))
      && (forall b :: read(b).Whole? ==> read(b).record.Fits() && encode(read(b).record) <= b)
      && (forall r :: encode(r) != [])
      && (forall b :: read(b).Clean? <==> b == [])
    }
  }

  type LawfulFormat = f: Format | f.Lawful()
    ghost witness (WalFormatLawful(_ => 0); WalFormat(_ => 0))

  // ----- segments ----------------------------------------------------------

  function EncodeAll(f: LawfulFormat, rs: seq<Record>): seq<byte> {
    if rs == [] then [] else f.encode(rs[0]) + EncodeAll(f, rs[1..])
  }

  /** The records visited, the offset past the last of them, and whether bytes
      that are not a record were left over. */
  datatype ScanResult = ScanResult(records: seq<Record>, end: nat, torn: bool)

  function Scan(f: LawfulFormat, b: seq<byte>): (s: ScanResult)
    decreases |b|
  {
    match f.read(b)
    case Clean => ScanResult([], 0, false)
    case Torn => ScanResult([], 0, true)
    case Whole(r) =>
      var size := |f.encode(r)|;
      var rest := Scan(f, b[size..]);
      ScanResult([r] + rest.records, size + rest.end, rest.torn)
  }

  lemma {:induction false} EncodeAllConcat(f: LawfulFormat, xs: seq<Record>, ys: seq<Record>)
    ensures EncodeAll(f, xs + ys) == EncodeAll(f, xs) + EncodeAll(f, ys)
  {
    if xs == [] {
      assert xs + ys == ys;
    } else {
      EncodeAllConcat(f, xs[1..], ys);
      assert (xs + ys)[1..] == xs[1..] + ys && (xs + ys)[0] == xs[0];
      assert EncodeAll(f, xs + ys) == f.encode(xs[0]) + EncodeAll(f, xs[1..] + ys);
      Assoc(f.encode(xs[0]), EncodeAll(f, xs[1..]), EncodeAll(f, ys));
    }
  }

  lemma EncodeAllOne(f: LawfulFormat, r: Record)
    ensures EncodeAll(f, [r]) == f.encode(r)
  {
    assert EncodeAll(f, [r]) == f.encode(r) + EncodeAll(f, []);
  }

  /** A scan visits the records whose encoding is a prefix of the bytes, stops
      just past them, and reports torn exactly when bytes remain. */
  lemma {:induction false} ScanVisitsAPrefix(f: LawfulFormat, b: seq<byte>)
    ensures var s := Scan(f, b);
            && AllFit(s.records)
            && s.end <= |b|
            && b[..s.end] == EncodeAll(f, s.records)
            && (s.torn <==> s.end < |b|)
    decreases |b|
  {
    match f.read(b)
    case Clean =>
    case Torn =>
    case Whole(r) =>
      var size := |f.encode(r)|;
      var rest, s := b[size..], Scan(f, b);
      ScanVisitsAPrefix(f, rest);
      var t := Scan(f, rest);
      assert s.records[1..] == t.records;
      TakeTwice(b, size, t.end);
  }

  /** No longer list of records is a prefix of the bytes: the scan is maximal. */
  lemma {:induction false} ScanIsLongest(f: LawfulFormat, b: seq<byte>, rs: seq<Record>)
    requires AllFit(rs) && EncodeAll(f, rs) <= b
    ensures rs <= Scan(f, b).records
    decreases |rs|
  {
    if rs != [] {
      var first := f.encode(rs[0]);
      var tail := b[|first|..];
      assert EncodeAll(f, rs) == first + EncodeAll(f, rs[1..]);
      assert b == first + tail;
      assert f.read(first + tail) == Whole(rs[0]);
      ScanIsLongest(f, tail, rs[1..]);
    }
  }

  /** A clean segment scans piecewise. */
  lemma {:induction false} ScanConcat(f: LawfulFormat, b: seq<byte>, c: seq<byte>)
    requires !Scan(f, b).torn
    ensures var s, t := Scan(f, b), Scan(f, c);
            Scan(f, b + c) == ScanResult(s.records + t.records, |b| + t.end, t.torn)
    decreases |b|
  {
    match f.read(b)
    case Clean =>
      assert b + c == c;
    case Torn =>
    case Whole(r) =>
      var size := |f.encode(r)|;
      var rest := b[size..];
      assert b == f.encode(r) + rest;
      Assoc(f.encode(r), rest, c);
      assert f.read(f.encode(r) + (rest + c)) == Whole(r);
      assert (b + c)[size..] == rest + c;
      ScanConcat(f, rest, c);
      Assoc([r], Scan(f, rest).records, Scan(f, c).records);
  }

  /** Scanning inverts encoding. */
  lemma ScanInverts(f: LawfulFormat, rs: seq<Record>)
    requires AllFit(rs)
    ensures Scan(f, EncodeAll(f, rs)) == ScanResult(rs, |EncodeAll(f, rs)|, false)
  {
    var b := EncodeAll(f, rs);
    ScanIsLongest(f, b, rs);
    ScanVisitsAPrefix(f, b);
    var s := Scan(f, b);
    var more := s.records[|rs|..];
    assert s.records == rs + more;
    EncodeAllConcat(f, rs, more);
    assert |EncodeAll(f, more)| == 0;
    assert more == [];
  }

  /** A list whose encoding does not reach past the cut is visited. */
  lemma ReachesTheCut(f: LawfulFormat, rs: seq<Record>, n: nat, cut: nat)
    requires AllFit(rs) && cut <= |EncodeAll(f, rs)|
    requires n <= |rs| && |EncodeAll(f, rs[..n])| <= cut
    ensures rs[..n] <= Scan(f, EncodeAll(f, rs)[..cut]).records
  {
    EncodeAllConcat(f, rs[..n], rs[n..]);
    assert rs == rs[..n] + rs[n..];
    ScanIsLongest(f, EncodeAll(f, rs)[..cut], rs[..n]);
  }

  /** Torn-tail recovery is exact. Cut the encoding of any records at any byte:
      the scan visits precisely the whole records before the cut and reports
      torn exactly when part of a record is left. */
  lemma TornTailIsExact(f: LawfulFormat, rs: seq<Record>, cut: nat)
    requires AllFit(rs) && cut <= |EncodeAll(f, rs)|
    ensures var s := Scan(f, EncodeAll(f, rs)[..cut]);
            && s.records <= rs
            && s.end == |EncodeAll(f, s.records)| <= cut
            && (s.records != rs ==> cut < |EncodeAll(f, rs[..|s.records| + 1])|)
            && (s.torn <==> s.end < cut)
  {
    var all := EncodeAll(f, rs);
    var s := Scan(f, all[..cut]);
    ScanVisitsAPrefix(f, all[..cut]);
    assert EncodeAll(f, s.records) <= all;
    ScanIsLongest(f, all, s.records);
    ScanInverts(f, rs);
    if s.records != rs && |EncodeAll(f, rs[..|s.records| + 1])| <= cut {
      ReachesTheCut(f, rs, |s.records| + 1, cut);
    }
  }

  /** Truncating at the offset the scan reports and appending a record gives
      the encoding of the surviving records followed by the new one. */
  lemma TruncateThenAppend(f: LawfulFormat, b: seq<byte>, r: Record)
    ensures Scan(f, b).end <= |b|
    ensures b[..Scan(f, b).end] + f.encode(r) == EncodeAll(f, Scan(f, b).records + [r])
  {
    ScanVisitsAPrefix(f, b);
    EncodeAllConcat(f, Scan(f, b).records, [r]);
    EncodeAllOne(f, r);
  }

  /** The scan of a segment whose first records were visited already. */
  function Resume(records: seq<Record>, endOff: nat, rest: ScanResult): ScanResult {
    ScanResult(records + rest.records, endOff + rest.end, rest.torn)
  }

  method ScanSegment(f: LawfulFormat, data: seq<byte>)
    returns (records: seq<Record>, endOff: nat, torn: bool)
    ensures ScanResult(records, endOff, torn) == Scan(f, data)
  {
    records, endOff := [], 0;
    assert data[0..] == data;
    while true
      invariant endOff <= |data|
      invariant Scan(f, data) == Resume(records, endOff, Scan(f, data[endOff..]))
      decreases |data| - endOff
    {
      var left := data[endOff..];
      match f.read(left) {
        case Clean => return records, endOff, false;
        case Torn => return records, endOff, true;
        case Whole(r) =>
          var size := |f.encode(r)|;
          assert data[endOff + size..] == left[size..];
          Assoc(records, [r], Scan(f, left[size..]).records);
          records, endOff := records + [r], endOff + size;
      }
    }
  }

  // ----- the format of the program -------------------------------------------

  /** CRC-32 in the program; every result here holds for any checksum. */
  type Checksum = seq<byte> -> uint32

  function WalFormat(crc: Checksum): Format {
    Format(r => Encode(crc, r), b => ReadFront(crc, b))
  }

  /** The bytes of one record: u64 sequence, u32 length, u32 checksum, payload.
      BigEndian keeps only the low bytes, as Go's uint32(len(payload)) does. */
  function Encode(crc: Checksum, r: Record): (b: seq<byte>)
    ensures |b| == HEADER_SIZE + |r.payload|
  {
    BigEndian(r.seqNo, 8) + BigEndian(|r.payload|, 4) + BigEndian(crc(r.payload), 4) + r.payload
  }

  function ReadFront(crc: Checksum, b: seq<byte>): Front {
    if b == [] then Clean
    else if |b| < HEADER_SIZE then Torn
    else
      var plen := FromBigEndian(b[8..12]);
      if plen > MAX_RECORD_BYTES || |b| < HEADER_SIZE + plen then Torn
      else
        var payload := b[HEADER_SIZE..HEADER_SIZE + plen];
        if crc(payload) != FromBigEndian(b[12..16]) then Torn
        else Whole(Record(FromBigEndian(b[..8]), payload))
  }

  lemma HeaderFields(crc: Checksum, r: Record, tail: seq<byte>)
    ensures var b := Encode(crc, r) + tail;
            && |b| >= HEADER_SIZE
            && b[..8] == BigEndian(r.seqNo, 8)
            && b[8..12] == BigEndian(|r.payload|, 4)
            && b[12..16] == BigEndian(crc(r.payload), 4)
            && b[HEADER_SIZE..] == r.payload + tail
  {
  }

  /** An encoded record is read back whatever follows it. */
  lemma ReadsBack(crc: Checksum, r: Record, tail: seq<byte>)
    requires r.Fits()
    ensures ReadFront(crc, Encode(crc, r) + tail) == Whole(r)
  {
    HeaderFields(crc, r, tail);
    Ranges();
    BigEndianRoundTrip(r.seqNo, 8);
    BigEndianRoundTrip(|r.payload|, 4);
    BigEndianRoundTrip(crc(r.payload), 4);
    var b := Encode(crc, r) + tail;
    assert b[HEADER_SIZE..HEADER_SIZE + |r.payload|] == b[HEADER_SIZE..][..|r.payload|] == r.payload;
  }

  /** Whatever is read back was encoded there. */
  lemma ReadIsEncoded(crc: Checksum, b: seq<byte>)
    requires ReadFront(crc, b).Whole?
    ensures var r := ReadFront(crc, b).record; r.Fits() && Encode(crc, r) <= b
  {
    var r := ReadFront(crc, b).record;
    Ranges();
    FromBigEndianBound(b[..8]);
    FromBigEndianRoundTrip(b[..8]);
    FromBigEndianRoundTrip(b[8..12]);
    FromBigEndianRoundTrip(b[12..16]);
    var n := HEADER_SIZE + |r.payload|;
    assert b[..n] == b[..8] + b[8..12] + b[12..16] + b[16..n];
    assert Encode(crc, r) == b[..n];
  }

  /** With any checksum the format of the program is lawful. */
  lemma WalFormatLawful(crc: Checksum)
    ensures WalFormat(crc).Lawful()
  {
    var f := WalFormat(crc);
    forall r: Record, tail | r.Fits() ensures f.read(f.encode(r) + tail) == Whole(r) {
      ReadsBack(crc, r, tail);
    }
    forall b | f.read(b).Whole? ensures f.read(b).record.Fits() && f.encode(f.read(b).record) <= b {
      ReadIsEncoded(crc, b);
    }
    forall r ensures f.encode(r) != [] {
      assert |f.encode(r)| == |Encode(crc, r)|;
    }
  }

  /** Append does not check the payload length, yet a scan rejects long records:
      an appended record survives exactly when its payload is small enough. */
  lemma SurvivesExactlyWhenShort(crc: Checksum, r: Record)
    requires r.seqNo < TWO_64
    ensures WalFormat(crc).Lawful()
    ensures Scan(WalFormat(crc), Encode(crc, r)).records == [r] <==> |r.payload| <= MAX_RECORD_BYTES
  {
    var f := WalFormat(crc);
    WalFormatLawful(crc);
    ScanVisitsAPrefix(f, Encode(crc, r));
    if Scan(f, Encode(crc, r)).records == [r] {
      assert Scan(f, Encode(crc, r)).records[0].Fits();
    }
    if |r.payload| <= MAX_RECORD_BYTES {
      ScanInverts(f, [r]);
      EncodeAllOne(f, r);
    }
  }

  method EncodeRecord(crc: Checksum, seqNo: nat, payload: seq<byte>) returns (buf: array<byte>)
    ensures fresh(buf)
    ensures buf[..] == WalFormat(crc).encode(Record(seqNo, payload))
  {
    buf := new byte[HEADER_SIZE + |payload|](_ => 0);
    forall i | 0 <= i < 8 { buf[i] := BigEndian(seqNo, 8)[i]; }
    forall i | 0 <= i < 4 { buf[8 + i] := BigEndian(|payload|, 4)[i]; }
    forall i | 0 <= i < 4 { buf[12 + i] := BigEndian(crc(payload), 4)[i]; }
    forall i | 0 <= i < |payload| { buf[16 + i] := payload[i]; }
    assert buf[..] == buf[0..8] + buf[8..12] + buf[12..16] + buf[16..];
    assert buf[..8] == BigEndian(seqNo, 8);
    assert buf[8..12] == BigEndian(|payload|, 4);
    assert buf[12..16] == BigEndian(crc(payload), 4);
    assert buf[16..] == payload;
  }

  /** One pass of the scan loop: the header, the payload, the checksum. */
  method ReadRecord(crc: Checksum, left: seq<byte>) returns (front: Front)
    ensures front == WalFormat(crc).read(left)
  {
    if |left| < HEADER_SIZE {
      return if left == [] then Clean else Torn;
    }
    var plen, sum := FromBigEndian(left[8..12]), FromBigEndian(left[12..16]);
    if plen > MAX_RECORD_BYTES || |left| < HEADER_SIZE + plen {
      return Torn;
    }
    var payload := left[HEADER_SIZE..HEADER_SIZE + plen];
    if crc(payload) != sum {
      return Torn;
    }
    return Whole(Record(FromBigEndian(left[..8]), payload));
  }

  // ----- the checkpoint file ---------------------------------------------------

  /** A checkpoint file that is missing or too short counts as zero. */
  function ReadCheckpoint(data: seq<byte>): nat {
    if |data| < 8 then 0 else FromBigEndian(data[..8])
  }

  /** A checkpoint file reads back as the number written to it, whole or as the
      front of a longer file; anything shorter than eight bytes reads as zero. */
  lemma CheckpointReadsBack(n: nat, tail: seq<byte>)
    requires n < TWO_64
    ensures ReadCheckpoint(BigEndian(n, 8) + tail) == n
  {
    Ranges();
    BigEndianRoundTrip(n, 8);
    assert (BigEndian(n, 8) + tail)[..8] == BigEndian(n, 8);
  }
}
