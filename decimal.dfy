/** Decimal numbers on the wire. `write_decimal` renders a `u64` with
    `write!("{}", n)`; the frame reader turns a line back into a `u64` with the
    `atoi` crate, which reads the leading run of decimal digits and gives
    `None` when there is no digit or the value does not fit in 64 bits. */
module Decimal {
  import opened Wrappers
  import opened Bytes

  const U64_LIMIT: nat := 0x1_0000_0000_0000_0000

  type U64 = n: nat | n < U64_LIMIT

  function DigitByte(d: nat): (b: byte)
    requires d < 10
    ensures IsDigit(b)
  {
    ('0' as int + d) as byte
  }

  /** The value of a digit byte; other bytes never reach it. */
  function DigitValue(b: byte): nat {
    if IsDigit(b) then (b - '0' as byte) as nat else 0
  }

  predicate AllDigits(s: Bytes) {
    forall i :: 0 <= i < |s| ==> IsDigit(s[i])
  }

  /** The base-10 rendering of `n`: one digit at least, no leading zero. */
  function DigitsOf(n: nat): (r: Bytes)
    ensures |r| > 0 && AllDigits(r)
    ensures r[0] == '0' as byte ==> n == 0
    decreases n
  {
    if n < 10 then [DigitByte(n)] else DigitsOf(n / 10) + [DigitByte(n % 10)]
  }

  /** The number a run of digits denotes. */
  function ValueOf(d: Bytes): nat
    decreases |d|
  {
    if |d| == 0 then 0 else ValueOf(d[..|d| - 1]) * 10 + DigitValue(d[|d| - 1])
  }

  /** The leading run of digits of `s`. */
  function LeadingDigits(s: Bytes): Bytes
    decreases |s|
  {
    if |s| > 0 && IsDigit(s[0]) then [s[0]] + LeadingDigits(s[1..]) else []
  }

  /** `LeadingDigits` is the longest prefix of `s` made of digits. */
  lemma {:induction false} LeadingDigitsSpec(s: Bytes)
    ensures var r := LeadingDigits(s);
      |r| <= |s| && r == s[..|r|] && AllDigits(r) && (|r| == |s| || !IsDigit(s[|r|]))
    decreases |s|
  {
    if |s| > 0 && IsDigit(s[0]) {
      LeadingDigitsSpec(s[1..]);
    }
  }

  /** `atoi::<u64>`: the value of the leading digits, if there is at least one
      digit and the value fits in 64 bits. */
  function Atoi(s: Bytes): (r: Option<U64>)
    ensures |s| == 0 || !IsDigit(s[0]) ==> r.None?
    ensures r.Some? ==> r.value == ValueOf(LeadingDigits(s))
    ensures |LeadingDigits(s)| > 0 && ValueOf(LeadingDigits(s)) < U64_LIMIT ==> r.Some?
  {
    var d := LeadingDigits(s);
    if |d| == 0 then None
    else if ValueOf(d) < U64_LIMIT then Some(ValueOf(d))
    else None
  }

  lemma {:induction false} ValueOfDigitsOf(n: nat)
    ensures ValueOf(DigitsOf(n)) == n
    decreases n
  {
    if n >= 10 {
      var d := DigitsOf(n);
      assert d[..|d| - 1] == DigitsOf(n / 10);
      ValueOfDigitsOf(n / 10);
    }
  }

  lemma {:induction false} LeadingDigitsOfRun(d: Bytes, t: Bytes)
    requires AllDigits(d)
    requires |t| == 0 || !IsDigit(t[0])
    ensures LeadingDigits(d + t) == d
    decreases |d|
  {
    if |d| > 0 {
      assert (d + t)[1..] == d[1..] + t;
      LeadingDigitsOfRun(d[1..], t);
    } else {
      assert d + t == t;
    }
  }

  /** Reading back what `write_decimal` wrote gives the number again, whatever
      non-digit byte follows the digits. */
  lemma AtoiOfDigitsOf(n: U64, t: Bytes)
    requires |t| == 0 || !IsDigit(t[0])
    ensures Atoi(DigitsOf(n) + t) == Some(n)
  {
    LeadingDigitsOfRun(DigitsOf(n), t);
    ValueOfDigitsOf(n);
  }
}
