/** Bytes, and the big-endian fixed-width integers of Go's encoding/binary. */
module Bytes {

  type byte = x: int | 0 <= x < 256
  type uint32 = x: int | 0 <= x < 0x1_0000_0000

  const TWO_63: int := 0x8000_0000_0000_0000
  const TWO_64: nat := 0x1_0000_0000_0000_0000

  function Max(a: nat, b: nat): nat { if a < b then b else a }

  /** The number of values that fit in the given number of bytes. */
  function Range(width: nat): (p: nat)
    ensures p >= 1
  {
    if width == 0 then 1 else 256 * Range(width - 1)
  }

  /** The low `width` bytes of n, most significant first. */
  function BigEndian(n: nat, width: nat): (b: seq<byte>)
    ensures |b| == width
  {
    if width == 0 then [] else BigEndian(n / 256, width - 1) + [n % 256]
  }

  function FromBigEndian(b: seq<byte>): nat {
    if b == [] then 0 else 256 * FromBigEndian(b[..|b| - 1]) + b[|b| - 1]
  }

  lemma {:induction false} FromBigEndianBound(b: seq<byte>)
    ensures FromBigEndian(b) < Range(|b|)
  {
    if b != [] {
      FromBigEndianBound(b[..|b| - 1]);
    }
  }

  lemma {:induction false} BigEndianRoundTrip(n: nat, width: nat)
    requires n < Range(width)
    ensures FromBigEndian(BigEndian(n, width)) == n
  {
    if width > 0 {
      BigEndianRoundTrip(n / 256, width - 1);
      var b := BigEndian(n, width);
      assert b[..|b| - 1] == BigEndian(n / 256, width - 1);
    }
  }

  lemma {:induction false} FromBigEndianRoundTrip(b: seq<byte>)
    ensures BigEndian(FromBigEndian(b), |b|) == b
  {
    if b != [] {
      var front := b[..|b| - 1];
      FromBigEndianRoundTrip(front);
      assert b == front + [b[|b| - 1]];
    }
  }

  lemma Ranges()
    ensures Range(4) == 0x1_0000_0000
    ensures Range(8) == TWO_64
  {
    assert Range(2) == 65536;
    assert Range(4) == 65536 * Range(2);
    assert Range(6) == 65536 * Range(4);
    assert Range(8) == 65536 * Range(6);
  }
}
