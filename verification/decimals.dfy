/** Decimal numerals: how fmt and strconv print and read integers. */
module Decimals {
  import opened Bytes
  import opened Model

  predicate IsInt64(n: int) {
    -TWO_63 <= n < TWO_63
  }

  predicate IsDigit(c: char) {
    '0' <= c <= '9'
  }

  function Digit(n: nat): (c: char)
    requires n < 10
    ensures IsDigit(c) && DigitValue(c) == n
  {
    (n + '0' as int) as char
  }

  function Digits(n: nat): (s: string)
    ensures s != "" && forall c :: c in s ==> IsDigit(c)
  {
    if n < 10 then [Digit(n)] else Digits(n / 10) + [Digit(n % 10)]
  }

  /** The %d of fmt. */
  function Decimal(n: int): string {
    if n < 0 then "-" + Digits(-n) else Digits(n)
  }

  function DigitValue(c: char): nat
    requires IsDigit(c)
  {
    c as int - '0' as int
  }

  function DigitsValue(s: string): nat
    requires forall c :: c in s ==> IsDigit(c)
  {
    if s == "" then 0 else 10 * DigitsValue(s[..|s| - 1]) + DigitValue(s[|s| - 1])
  }

  /** strconv.ParseInt with base 10 and 64 bits. */
  function ParseInt(s: string): Option<int> {
    var signed := s != "" && (s[0] == '-' || s[0] == '+');
    var digits := if signed then s[1..] else s;
    if digits == "" || exists c :: c in digits && !IsDigit(c) then None
    else
      var n: int := DigitsValue(digits);
      var v := if signed && s[0] == '-' then -n else n;
      if IsInt64(v) then Some(v) else None
  }

  lemma {:induction false} DigitsValueOfDigits(n: nat)
    ensures DigitsValue(Digits(n)) == n
  {
    var s := Digits(n);
    if n < 10 {
      assert s[..0] == "";
    } else {
      DigitsValueOfDigits(n / 10);
      assert s[..|s| - 1] == Digits(n / 10);
    }
  }

  lemma ParseIntOfDecimal(n: int)
    ensures ParseInt(Decimal(n)) == (if IsInt64(n) then Some(n) else None)
    ensures '|' !in Decimal(n)
  {
    var s := Digits(if n < 0 then -n else n);
    DigitsValueOfDigits(if n < 0 then -n else n);
    if n < 0 {
      assert Decimal(n)[1..] == s;
    } else {
      assert IsDigit(s[0]);
    }
  }
}
