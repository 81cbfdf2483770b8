/** Event IDs: ULIDs, which sort as strings in the order they were made. */
module Ulid {
  import opened Bytes
  import opened Model
  import Seqs

  const CROCKFORD := "0123456789ABCDEFGHJKMNPQRSTVWXYZ"

  /** The number that digits write in a base, the most significant first. */
  function Number(base: nat, digits: seq<nat>): nat {
    if digits == [] then 0 else base * Number(base, digits[..|digits| - 1]) + digits[|digits| - 1]
  }

  ghost predicate Digits(base: nat, digits: seq<nat>) {
    forall i :: 0 <= i < |digits| ==> digits[i] < base
  }

  /** The bits of the sixteen bytes, five at a time: the first byte gives two
      digits, and each further five bytes give eight. */
  function FirstDigits(b: byte): seq<nat> {
    [b / 32, b % 32]
  }

  function GroupDigits(b: seq<byte>): (d: seq<nat>)
    requires |b| == 5
    ensures |d| == 8
  {
    [b[0] / 8, b[0] % 8 * 4 + b[1] / 64, b[1] / 2 % 32, b[1] % 2 * 16 + b[2] / 16,
     b[2] % 16 * 2 + b[3] / 128, b[3] / 4 % 32, b[3] % 4 * 8 + b[4] / 32, b[4] % 32]
  }

  function Base32(b: seq<byte>): (d: seq<nat>)
    requires |b| == 16
    ensures |d| == 26
  {
    FirstDigits(b[0]) + GroupDigits(b[1..6]) + GroupDigits(b[6..11]) + GroupDigits(b[11..16])
  }

  function Spell(digits: seq<nat>): (s: string)
    requires Digits(32, digits)
    ensures |s| == |digits|
  {
    seq(|digits|, i requires 0 <= i < |digits| => CROCKFORD[digits[i]])
  }

  function Encode(b: seq<byte>): (s: string)
    requires |b| == 16
    ensures |s| == 26
  {
    Base32Digits(b);
    Spell(Base32(b))
  }

  lemma Base32Digits(b: seq<byte>)
    requires |b| == 16
    ensures Digits(32, Base32(b))
  {
    GroupIsDigits(b[1..6]);
    GroupIsDigits(b[6..11]);
    GroupIsDigits(b[11..16]);
  }

  lemma GroupIsDigits(b: seq<byte>)
    requires |b| == 5
    ensures Digits(32, GroupDigits(b))
  {
  }

  // ----- the digits write the number -----------------------------------------------

  function Pow(base: nat, n: nat): nat {
    if n == 0 then 1 else base * Pow(base, n - 1)
  }

  lemma Snoc(base: nat, xs: seq<nat>, x: nat)
    ensures Number(base, xs + [x]) == base * Number(base, xs) + x
  {
    assert (xs + [x])[..|xs|] == xs;
  }

  lemma {:induction false} Joined(base: nat, xs: seq<nat>, ys: seq<nat>)
    ensures Number(base, xs + ys) == Number(base, xs) * Pow(base, |ys|) + Number(base, ys)
    decreases |ys|
  {
    if ys == [] {
      assert xs + ys == xs;
    } else {
      var front, y := ys[..|ys| - 1], ys[|ys| - 1];
      Joined(base, xs, front);
      assert xs + ys == (xs + front) + [y];
      Snoc(base, xs + front, y);
      Distribute(base, Number(base, xs), Pow(base, |front|), Number(base, front));
    }
  }

  lemma Distribute(base: nat, x: nat, p: nat, y: nat)
    ensures base * (x * p + y) == x * (base * p) + base * y
  {
  }

  const TWO_40: nat := 0x100_0000_0000

  lemma GroupPowers()
    ensures Pow(32, 8) == TWO_40 && Pow(256, 5) == TWO_40
  {
    assert Pow(32, 2) == 0x400 && Pow(32, 4) == 0x10_0000 && Pow(32, 6) == 0x4000_0000;
    assert Pow(256, 2) == 0x1_0000 && Pow(256, 4) == 0x1_0000_0000;
  }

  lemma EightDigits(d: seq<nat>)
    requires |d| == 8
    ensures Number(32, d) == ((((((d[0] * 32 + d[1]) * 32 + d[2]) * 32 + d[3]) * 32 + d[4]) * 32 + d[5]) * 32 + d[6]) * 32 + d[7]
  {
    assert d == [] + [d[0]] + [d[1]] + [d[2]] + [d[3]] + [d[4]] + [d[5]] + [d[6]] + [d[7]];
    Snoc(32, [], d[0]);
    Snoc(32, [] + [d[0]], d[1]);
    Snoc(32, [] + [d[0]] + [d[1]], d[2]);
    Snoc(32, [] + [d[0]] + [d[1]] + [d[2]], d[3]);
    Snoc(32, [] + [d[0]] + [d[1]] + [d[2]] + [d[3]], d[4]);
    Snoc(32, [] + [d[0]] + [d[1]] + [d[2]] + [d[3]] + [d[4]], d[5]);
    Snoc(32, [] + [d[0]] + [d[1]] + [d[2]] + [d[3]] + [d[4]] + [d[5]], d[6]);
    Snoc(32, [] + [d[0]] + [d[1]] + [d[2]] + [d[3]] + [d[4]] + [d[5]] + [d[6]], d[7]);
  }

  lemma FiveBytes(b: seq<nat>)
    requires |b| == 5
    ensures Number(256, b) == (((b[0] * 256 + b[1]) * 256 + b[2]) * 256 + b[3]) * 256 + b[4]
  {
    assert b == [] + [b[0]] + [b[1]] + [b[2]] + [b[3]] + [b[4]];
    Snoc(256, [], b[0]);
    Snoc(256, [] + [b[0]], b[1]);
    Snoc(256, [] + [b[0]] + [b[1]], b[2]);
    Snoc(256, [] + [b[0]] + [b[1]] + [b[2]], b[3]);
    Snoc(256, [] + [b[0]] + [b[1]] + [b[2]] + [b[3]], b[4]);
  }

  /** Five bytes cut into the twelve runs of bits that the digits take. */
  lemma GroupSum(h0: nat, l0: nat, h1: nat, m1: nat, l1: nat, h2: nat, l2: nat,
                 h3: nat, m3: nat, l3: nat, h4: nat, l4: nat)
    ensures ((((((h0 * 32 + (l0 * 4 + h1)) * 32 + m1) * 32 + (l1 * 16 + h2)) * 32 + (l2 * 2 + h3)) * 32 + m3) * 32
             + (l3 * 8 + h4)) * 32 + l4
         == ((((8 * h0 + l0) * 256 + (64 * h1 + 2 * m1 + l1)) * 256 + (16 * h2 + l2)) * 256
             + (128 * h3 + 4 * m3 + l3)) * 256 + (32 * h4 + l4)
  {
  }

  lemma ByteParts(x: byte)
    ensures x == 8 * (x / 8) + x % 8 == 64 * (x / 64) + 2 * (x / 2 % 32) + x % 2
    ensures x == 16 * (x / 16) + x % 16 == 128 * (x / 128) + 4 * (x / 4 % 32) + x % 4 == 32 * (x / 32) + x % 32
  {
    MiddleParts(x, 2);
    MiddleParts(x, 4);
  }

  lemma MiddleParts(x: byte, d: nat)
    requires d == 2 || d == 4
    ensures x == 32 * d * (x / (32 * d)) + d * (x / d % 32) + x % d
  {
  }

  lemma GroupWrites(b: seq<byte>)
    requires |b| == 5
    ensures Number(32, GroupDigits(b)) == Number(256, b)
  {
    EightDigits(GroupDigits(b));
    FiveBytes(b);
    ByteParts(b[0]);
    ByteParts(b[1]);
    ByteParts(b[2]);
    ByteParts(b[3]);
    ByteParts(b[4]);
    GroupSum(b[0] / 8, b[0] % 8, b[1] / 64, b[1] / 2 % 32, b[1] % 2, b[2] / 16, b[2] % 16,
             b[3] / 128, b[3] / 4 % 32, b[3] % 4, b[4] / 32, b[4] % 32);
  }

  lemma AppendGroup(d: seq<nat>, b: seq<byte>, g: seq<byte>)
    requires |g| == 5 && Number(32, d) == Number(256, b)
    ensures Number(32, d + GroupDigits(g)) == Number(256, b + g)
  {
    Joined(32, d, GroupDigits(g));
    Joined(256, b, g);
    GroupPowers();
    GroupWrites(g);
  }

  lemma FirstWrites(x: byte)
    ensures Number(32, FirstDigits(x)) == Number(256, [x])
  {
    Snoc(32, [], x / 32);
    Snoc(32, [x / 32], x % 32);
    Snoc(256, [], x);
    assert [] + [x / 32] == [x / 32] && [x / 32] + [x % 32] == FirstDigits(x) && [] + [x] == [x];
  }

  lemma GroupsWrite(x: byte, f: seq<byte>, g: seq<byte>, h: seq<byte>)
    requires |f| == |g| == |h| == 5
    ensures Number(32, FirstDigits(x) + GroupDigits(f) + GroupDigits(g) + GroupDigits(h)) == Number(256, [x] + f + g + h)
  {
    FirstWrites(x);
    AppendGroup(FirstDigits(x), [x], f);
    AppendGroup(FirstDigits(x) + GroupDigits(f), [x] + f, g);
    AppendGroup(FirstDigits(x) + GroupDigits(f) + GroupDigits(g), [x] + f + g, h);
  }

  /** The 26 digits are the base-32 digits of the 128-bit number. */
  lemma DigitsAreTheNumber(b: seq<byte>)
    requires |b| == 16
    ensures Number(32, Base32(b)) == Number(256, b)
  {
    GroupsWrite(b[0], b[1..6], b[6..11], b[11..16]);
    assert b == [b[0]] + b[1..6] + b[6..11] + b[11..16];
  }

  // ----- the order of the strings is the order of the numbers --------------------------

  lemma {:induction false} LessSnoc(a: string, b: string, x: char, y: char)
    requires |a| == |b|
    ensures Less(a + [x], b + [y]) <==> Less(a, b) || (a == b && x < y)
    decreases |a|
  {
    if a != "" {
      assert (a + [x])[1..] == a[1..] + [x] && (b + [y])[1..] == b[1..] + [y];
      LessSnoc(a[1..], b[1..], x, y);
      assert a == [a[0]] + a[1..] && b == [b[0]] + b[1..];
    } else {
      assert ([x])[1..] == "" && ([y])[1..] == "";
      assert a + [x] == [x] && b + [y] == [y];
    }
  }

  lemma {:induction false} OneMore(base: nat, m: nat, n: nat)
    requires m < n
    ensures base * m + base <= base * n
    decreases n
  {
    Plus(base, n - 1);
    if m < n - 1 {
      OneMore(base, m, n - 1);
    }
  }

  lemma Plus(base: nat, n: nat)
    ensures base * (n + 1) == base * n + base
  {
  }

  lemma NextDigit(base: nat, m: nat, n: nat, x: nat, y: nat)
    requires x < base && y < base
    ensures base * m + x < base * n + y <==> m < n || (m == n && x < y)
    ensures base * m + x == base * n + y <==> m == n && x == y
  {
    if m < n {
      OneMore(base, m, n);
    } else if m > n {
      OneMore(base, n, m);
    }
  }

  /** Where each digit is in the alphabet, which leaves out I, L, O and U. */
  function Letter(x: nat): char
    requires x < 32
  {
    (x + if x < 10 then 48 else if x < 18 then 55 else if x < 20 then 56 else if x < 22 then 57
         else if x < 27 then 58 else 59) as char
  }

  lemma AlphabetIs()
    ensures CROCKFORD == seq(32, i requires 0 <= i < 32 => Letter(i))
  {
  }

  lemma AlphabetAscends(x: nat, y: nat)
    requires x < 32 && y < 32
    ensures CROCKFORD[x] < CROCKFORD[y] <==> x < y
    ensures CROCKFORD[x] == CROCKFORD[y] <==> x == y
  {
    AlphabetIs();
    assert CROCKFORD[x] == Letter(x) && CROCKFORD[y] == Letter(y);
  }

  lemma SnocEqual(a: string, b: string, x: char, y: char)
    requires |a| == |b|
    ensures a + [x] == b + [y] <==> a == b && x == y
  {
    Seqs.Split(a, [x]);
    Seqs.Split(b, [y]);
    assert [x][0] == x && [y][0] == y;
  }

  /** Spelled, they are in the order of the numbers, and equal only together. */
  ghost predicate InOrder(d: seq<nat>, e: seq<nat>)
    requires Digits(32, d) && Digits(32, e)
  {
    && (Less(Spell(d), Spell(e)) <==> Number(32, d) < Number(32, e))
    && (Spell(d) == Spell(e) <==> Number(32, d) == Number(32, e))
  }

  lemma SpellSnoc(d: seq<nat>, x: nat)
    requires Digits(32, d) && x < 32
    ensures Digits(32, d + [x]) && Spell(d + [x]) == Spell(d) + [CROCKFORD[x]]
  {
  }

  lemma InOrderSnoc(d: seq<nat>, x: nat, e: seq<nat>, y: nat)
    requires |d| == |e| && Digits(32, d) && Digits(32, e) && InOrder(d, e) && x < 32 && y < 32
    ensures Digits(32, d + [x]) && Digits(32, e + [y]) && InOrder(d + [x], e + [y])
  {
    SpellSnoc(d, x);
    SpellSnoc(e, y);
    Snoc(32, d, x);
    Snoc(32, e, y);
    LessSnoc(Spell(d), Spell(e), CROCKFORD[x], CROCKFORD[y]);
    SnocEqual(Spell(d), Spell(e), CROCKFORD[x], CROCKFORD[y]);
    AlphabetAscends(x, y);
    NextDigit(32, Number(32, d), Number(32, e), x, y);
  }

  /** Strings of equally many digits compare as the numbers they write. */
  lemma {:induction false} SpellingKeepsOrder(d: seq<nat>, e: seq<nat>)
    requires |d| == |e| && Digits(32, d) && Digits(32, e)
    ensures InOrder(d, e)
    decreases |d|
  {
    if d != [] {
      var n := |d| - 1;
      SpellingKeepsOrder(d[..n], e[..n]);
      InOrderSnoc(d[..n], d[n], e[..n], e[n]);
      assert d == d[..n] + [d[n]] && e == e[..n] + [e[n]];
    }
  }

  /** Encoding is an order isomorphism: IDs compare as strings exactly as their
      sixteen bytes compare as a number, so distinct bytes give distinct IDs. */
  lemma EncodingKeepsOrder(b: seq<byte>, c: seq<byte>)
    requires |b| == |c| == 16
    ensures Less(Encode(b), Encode(c)) <==> Number(256, b) < Number(256, c)
    ensures Encode(b) == Encode(c) <==> Number(256, b) == Number(256, c)
  {
    Base32Digits(b);
    Base32Digits(c);
    SpellingKeepsOrder(Base32(b), Base32(c));
    DigitsAreTheNumber(b);
    DigitsAreTheNumber(c);
  }

  // ----- IDs of moments -------------------------------------------------------------------

  const TWO_48: nat := 0x1_0000_0000_0000

  /** The ID made at a millisecond: its low 48 bits, then ten random bytes. */
  function IdBytes(ms: nat, random: seq<byte>): (b: seq<byte>)
    requires |random| == 10
    ensures |b| == 16
  {
    BigEndian(ms, 6) + random
  }

  lemma {:induction false} NumberBound(b: seq<byte>)
    ensures Number(256, b) < Pow(256, |b|)
    decreases |b|
  {
    if b != [] {
      NumberBound(b[..|b| - 1]);
    }
  }

  lemma {:induction false} NumberIsBigEndian(b: seq<byte>)
    ensures Number(256, b) == FromBigEndian(b)
    decreases |b|
  {
    if b != [] {
      NumberIsBigEndian(b[..|b| - 1]);
    }
  }

  lemma Milliseconds(ms: nat)
    requires ms < TWO_48
    ensures Number(256, BigEndian(ms, 6)) == ms
  {
    assert Range(2) == 65536;
    assert Range(4) == 65536 * Range(2);
    assert Range(6) == 65536 * Range(4) == TWO_48;
    BigEndianRoundTrip(ms, 6);
    NumberIsBigEndian(BigEndian(ms, 6));
  }

  lemma IdNumber(ms: nat, random: seq<byte>)
    requires ms < TWO_48 && |random| == 10
    ensures Number(256, IdBytes(ms, random)) == Pow(256, 10) * ms + Number(256, random)
    ensures Number(256, random) < Pow(256, 10)
  {
    Joined(256, BigEndian(ms, 6), random);
    Milliseconds(ms);
    NumberBound(random);
  }

  /** An ID made at a later millisecond sorts after one made earlier, whatever
      the random bytes are. */
  lemma LaterSortsAfter(ms: nat, ms': nat, random: seq<byte>, random': seq<byte>)
    requires ms < ms' < TWO_48 && |random| == |random'| == 10
    ensures Less(Encode(IdBytes(ms, random)), Encode(IdBytes(ms', random')))
  {
    EncodingKeepsOrder(IdBytes(ms, random), IdBytes(ms', random'));
    IdNumber(ms, random);
    IdNumber(ms', random');
    NextDigit(Pow(256, 10), ms, ms', Number(256, random), Number(256, random'));
  }

  /** Shifted right and cut to a byte. */
  lemma BigEndianBytes(ms: nat)
    ensures BigEndian(ms, 6) == [ms / 0x100_0000_0000 % 256, ms / 0x1_0000_0000 % 256, ms / 0x100_0000 % 256,
                                 ms / 0x1_0000 % 256, ms / 0x100 % 256, ms % 256]
  {
    var n1, n2, n3, n4, n5 := ms / 0x100, ms / 0x1_0000, ms / 0x100_0000, ms / 0x1_0000_0000, ms / 0x100_0000_0000;
    assert n2 == n1 / 256 && n3 == n2 / 256 && n4 == n3 / 256 && n5 == n4 / 256;
    assert BigEndian(n4, 2) == [n5 % 256, n4 % 256];
    assert BigEndian(n2, 4) == [n5 % 256, n4 % 256, n3 % 256, n2 % 256];
  }

  method NewIdAt(ms: nat, random: seq<byte>) returns (id: string)
    requires |random| == 10
    ensures id == Encode(IdBytes(ms, random))
  {
    var b := new byte[16](_ => 0);
    b[0] := ms / 0x100_0000_0000 % 256;
    b[1] := ms / 0x1_0000_0000 % 256;
    b[2] := ms / 0x100_0000 % 256;
    b[3] := ms / 0x1_0000 % 256;
    b[4] := ms / 0x100 % 256;
    b[5] := ms % 256;
    forall i | 0 <= i < 10 { b[6 + i] := random[i]; }
    BigEndianBytes(ms);
    assert b[..] == b[..6] + b[6..] && b[..6] == BigEndian(ms, 6) && b[6..] == random;
    id := EncodeCrockford(b[..]);
  }

  lemma Doubled(v: bv8, bit: bv8)
    requires v < 128 && bit < 2
    ensures ((v << 1) | bit) as nat == 2 * v as nat + bit as nat
  {
    var r := (v << 1) | bit;
    assert r >> 1 == v && r & 1 == bit;
    Shift1(r);
    Mask1(r);
  }

  /** A byte as its bits. */
  function BitsOf(x: nat): (v: bv8)
    requires x < 256
    ensures v as nat == x
  {
    if x == 0 then 0
    else
      var half, bit := BitsOf(x / 2), if x % 2 == 1 then 1 as bv8 else 0;
      Doubled(half, bit);
      (half << 1) | bit
  }

  method Bits(b: seq<byte>) returns (v: seq<bv8>)
    ensures Are(v, b)
  {
    v := seq(|b|, i requires 0 <= i < |b| => BitsOf(b[i]));
  }

  // What a shift and a low mask come to as numbers.

  lemma Shift1(v: bv8)
    ensures (v >> 1) as nat == v as nat / 2
  {
  }

  lemma Shift2(v: bv8)
    ensures (v >> 2) as nat == v as nat / 4
  {
  }

  lemma Shift3(v: bv8)
    ensures (v >> 3) as nat == v as nat / 8
  {
  }

  lemma Shift4(v: bv8)
    ensures (v >> 4) as nat == v as nat / 16
  {
  }

  lemma Shift5(v: bv8)
    ensures (v >> 5) as nat == v as nat / 32
  {
  }

  lemma Shift6(v: bv8)
    ensures (v >> 6) as nat == v as nat / 64
  {
  }

  lemma Shift7(v: bv8)
    ensures (v >> 7) as nat == v as nat / 128
  {
  }

  lemma Mask1(v: bv8)
    ensures (v & 1) as nat == v as nat % 2
  {
  }

  lemma Mask2(v: bv8)
    ensures (v & 3) as nat == v as nat % 4
  {
  }

  lemma Mask3(v: bv8)
    ensures (v & 7) as nat == v as nat % 8
  {
  }

  lemma Mask4(v: bv8)
    ensures (v & 15) as nat == v as nat % 16
  {
  }

  lemma Mask5(v: bv8)
    ensures (v & 31) as nat == v as nat % 32
  {
  }

  /** What is cut out of one byte. */
  lemma Ends(v: bv8)
    ensures ((v & 224) >> 5) as nat == v as nat / 32 && ((v & 248) >> 3) as nat == v as nat / 8
    ensures (v & 31) as nat == v as nat % 32
  {
    assert (v & 224) >> 5 == v >> 5 && (v & 248) >> 3 == v >> 3;
    Shift5(v);
    Shift3(v);
    Mask5(v);
  }

  lemma Middles(v: bv8)
    ensures ((v & 62) >> 1) as nat == v as nat / 2 % 32 && ((v & 124) >> 2) as nat == v as nat / 4 % 32
  {
    assert (v & 62) >> 1 == (v >> 1) & 31 && (v & 124) >> 2 == (v >> 2) & 31;
    Mask5(v >> 1);
    Mask5(v >> 2);
    Shift1(v);
    Shift2(v);
  }

  /** What is put together from two: the low bits of one and the high bits of the
      next. */
  lemma ThreeAndTwo(v: bv8, w: bv8)
    ensures (((v & 7) << 2) | ((w & 192) >> 6)) as nat == v as nat % 8 * 4 + w as nat / 64
  {
    var r := ((v & 7) << 2) | ((w & 192) >> 6);
    assert r >> 2 == v & 7 && r & 3 == w >> 6;
    Mask3(v);
    Shift6(w);
    Shift2(r);
    Mask2(r);
  }

  lemma OneAndFour(v: bv8, w: bv8)
    ensures (((v & 1) << 4) | ((w & 240) >> 4)) as nat == v as nat % 2 * 16 + w as nat / 16
  {
    var r := ((v & 1) << 4) | ((w & 240) >> 4);
    assert r >> 4 == v & 1 && r & 15 == w >> 4;
    Mask1(v);
    Shift4(w);
    Shift4(r);
    Mask4(r);
  }

  lemma FourAndOne(v: bv8, w: bv8)
    ensures (((v & 15) << 1) | ((w & 128) >> 7)) as nat == v as nat % 16 * 2 + w as nat / 128
  {
    var r := ((v & 15) << 1) | ((w & 128) >> 7);
    assert r >> 1 == v & 15 && r & 1 == w >> 7;
    Mask4(v);
    Shift7(w);
    Shift1(r);
    Mask1(r);
  }

  lemma TwoAndThree(v: bv8, w: bv8)
    ensures (((v & 3) << 3) | ((w & 224) >> 5)) as nat == v as nat % 4 * 8 + w as nat / 32
  {
    var r := ((v & 3) << 3) | ((w & 224) >> 5);
    assert r >> 3 == v & 3 && r & 7 == w >> 5;
    Mask2(v);
    Shift5(w);
    Shift3(r);
    Mask3(r);
  }

  ghost predicate Are(v: seq<bv8>, b: seq<byte>) {
    |v| == |b| && forall i :: 0 <= i < |b| ==> v[i] as nat == b[i]
  }

  /** The eight digits that five bytes give. */
  lemma GroupBits(v: seq<bv8>, b: seq<byte>)
    requires |b| == 5 && Are(v, b)
    ensures var d := GroupDigits(b);
            && ((v[0] & 248) >> 3) as nat == d[0] && (((v[0] & 7) << 2) | ((v[1] & 192) >> 6)) as nat == d[1]
            && ((v[1] & 62) >> 1) as nat == d[2] && (((v[1] & 1) << 4) | ((v[2] & 240) >> 4)) as nat == d[3]
            && (((v[2] & 15) << 1) | ((v[3] & 128) >> 7)) as nat == d[4] && ((v[3] & 124) >> 2) as nat == d[5]
            && (((v[3] & 3) << 3) | ((v[4] & 224) >> 5)) as nat == d[6] && (v[4] & 31) as nat == d[7]
  {
    FrontBits(v, b);
    BackBits(v, b);
  }

  lemma FrontBits(v: seq<bv8>, b: seq<byte>)
    requires |b| == 5 && Are(v, b)
    ensures var d := GroupDigits(b);
            && ((v[0] & 248) >> 3) as nat == d[0] && (((v[0] & 7) << 2) | ((v[1] & 192) >> 6)) as nat == d[1]
            && ((v[1] & 62) >> 1) as nat == d[2] && (((v[1] & 1) << 4) | ((v[2] & 240) >> 4)) as nat == d[3]
  {
    Ends(v[0]);
    ThreeAndTwo(v[0], v[1]);
    Middles(v[1]);
    OneAndFour(v[1], v[2]);
  }

  lemma BackBits(v: seq<bv8>, b: seq<byte>)
    requires |b| == 5 && Are(v, b)
    ensures var d := GroupDigits(b);
            && (((v[2] & 15) << 1) | ((v[3] & 128) >> 7)) as nat == d[4] && ((v[3] & 124) >> 2) as nat == d[5]
            && (((v[3] & 3) << 3) | ((v[4] & 224) >> 5)) as nat == d[6] && (v[4] & 31) as nat == d[7]
  {
    FourAndOne(v[2], v[3]);
    Middles(v[3]);
    TwoAndThree(v[3], v[4]);
    Ends(v[4]);
  }

  lemma SpellConcat(d: seq<nat>, e: seq<nat>)
    requires Digits(32, d) && Digits(32, e)
    ensures Digits(32, d + e) && Spell(d + e) == Spell(d) + Spell(e)
  {
  }

  lemma GroupsSpell(b: seq<byte>)
    requires |b| == 16
    ensures var g1, g2, g3 := GroupDigits(b[1..6]), GroupDigits(b[6..11]), GroupDigits(b[11..16]);
            && Digits(32, FirstDigits(b[0])) && Digits(32, g1) && Digits(32, g2) && Digits(32, g3)
            && Encode(b) == Spell(FirstDigits(b[0])) + Spell(g1) + Spell(g2) + Spell(g3)
  {
    var d0, g1, g2, g3 := FirstDigits(b[0]), GroupDigits(b[1..6]), GroupDigits(b[6..11]), GroupDigits(b[11..16]);
    GroupIsDigits(b[1..6]);
    GroupIsDigits(b[6..11]);
    GroupIsDigits(b[11..16]);
    SpellConcat(d0, g1);
    SpellConcat(d0 + g1, g2);
    SpellConcat(d0 + g1 + g2, g3);
  }

  /** The first two of the 26 assignments. */
  method PutFirst(dst: array<char>, v: bv8, ghost b: byte)
    requires dst.Length >= 2 && v as nat == b
    modifies dst
    ensures dst[..2] == Spell(FirstDigits(b))
  {
    Ends(v);
    dst[0] := CROCKFORD[((v & 224) >> 5) as nat];
    dst[1] := CROCKFORD[(v & 31) as nat];
  }

  /** Eight of the 26 assignments; there are three such groups. */
  method PutGroup(dst: array<char>, at: nat, v: seq<bv8>, ghost b: seq<byte>)
    requires at + 8 <= dst.Length && |b| == 5 && Are(v, b)
    modifies dst
    ensures Digits(32, GroupDigits(b)) && dst[..at + 8] == old(dst[..at]) + Spell(GroupDigits(b))
  {
    GroupIsDigits(b);
    GroupBits(v, b);
    var d: seq<nat> := [
      ((v[0] & 248) >> 3) as nat, (((v[0] & 7) << 2) | ((v[1] & 192) >> 6)) as nat,
      ((v[1] & 62) >> 1) as nat, (((v[1] & 1) << 4) | ((v[2] & 240) >> 4)) as nat,
      (((v[2] & 15) << 1) | ((v[3] & 128) >> 7)) as nat, ((v[3] & 124) >> 2) as nat,
      (((v[3] & 3) << 3) | ((v[4] & 224) >> 5)) as nat, (v[4] & 31) as nat];
    assert d == GroupDigits(b);
    forall k | 0 <= k < 8 { dst[at + k] := CROCKFORD[d[k]]; }
    assert dst[at..at + 8] == Spell(GroupDigits(b));
    assert dst[..at + 8] == dst[..at] + dst[at..at + 8];
  }

  /** The bits of the masks and shifts are the base-32 digits of the ID. */
  method EncodeCrockford(b: seq<byte>) returns (s: string)
    requires |b| == 16
    ensures s == Encode(b)
  {
    var v := Bits(b);
    var dst := new char[26](_ => '0');
    GroupsSpell(b);
    PutFirst(dst, v[0], b[0]);
    PutGroup(dst, 2, v[1..6], b[1..6]);
    PutGroup(dst, 10, v[6..11], b[6..11]);
    PutGroup(dst, 18, v[11..16], b[11..16]);
    assert dst[..] == dst[..26];
    s := dst[..];
  }
}
