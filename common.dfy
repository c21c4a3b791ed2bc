// Shared vocabulary of the drivers: bytes, optional values, decimal digits
// and the fixed-width integer conversions C performs.

module Common {

  /**
   * An unsigned 8-bit value (uint8_t). Bytes are characters below 256, so the
   * drivers' ASCII literals are byte sequences as written.
   */
  type byte = c: char | c as int < 256

  datatype Option<T> = None | Some(value: T)

  /** errno values the drivers return negated. */
  const ENOENT: int := 2
  const ENOMEM: int := 12
  const ENODEV: int := 19
  const EINVAL: int := 22

  const U32_MODULUS: int := 0x1_0000_0000
  const INT32_MAX: int := 0x7FFF_FFFF

  /** Wrap-around of a uint32_t arithmetic result. */
  function Wrap32(x: int): (r: nat)
    ensures r < U32_MODULUS
    ensures (x - r) % U32_MODULUS == 0
  {
    x % U32_MODULUS
  }

  /** A uint32_t value read back as int32_t (two's complement). */
  function AsInt32(u: nat): (r: int)
    requires u < U32_MODULUS
    ensures -0x8000_0000 <= r <= INT32_MAX
    ensures Wrap32(r) == u
  {
    if u <= INT32_MAX then u else u - U32_MODULUS
  }

  /** strtol with a 32-bit long: a value beyond LONG_MAX comes back as LONG_MAX. */
  function SaturateLong(v: nat): nat
  {
    if v > INT32_MAX then INT32_MAX else v
  }

  predicate IsDigit(b: byte) { '0' <= b <= '9' }

  predicate AllDigits(s: seq<byte>) { forall i :: 0 <= i < |s| ==> IsDigit(s[i]) }

  function DigitByte(d: nat): (r: byte)
    requires d < 10
    ensures IsDigit(r)
  {
    ('0' as int + d) as char
  }

  /** Decimal representation of a natural number, most significant digit first. */
  function Digits(n: nat): (r: seq<byte>)
    ensures 1 <= |r|
    ensures AllDigits(r)
    decreases n
  {
    if n < 10 then [DigitByte(n)] else Digits(n / 10) + [DigitByte(n % 10)]
  }

  /** The value of a run of decimal digits (the conversion strtol performs). */
  function DigitsValue(s: seq<byte>): nat
    requires AllDigits(s)
  {
    if s == [] then 0
    else DigitsValue(s[..|s| - 1]) * 10 + (s[|s| - 1] as int - '0' as int)
  }

  lemma {:induction false} DigitsValueOfDigits(n: nat)
    ensures DigitsValue(Digits(n)) == n
    decreases n
  {
    if n >= 10 {
      var s := Digits(n);
      assert s[..|s| - 1] == Digits(n / 10);
      DigitsValueOfDigits(n / 10);
    }
  }

  /** Length of the longest prefix of s made of decimal digits. */
  function DigitRun(s: seq<byte>): (k: nat)
    ensures k <= |s|
    ensures AllDigits(s[..k])
    ensures k < |s| ==> !IsDigit(s[k])
  {
    if s == [] || !IsDigit(s[0]) then 0
    else
      var k := 1 + DigitRun(s[1..]);
      assert s[..k] == [s[0]] + s[1..][..k - 1];
      k
  }

  lemma {:induction false} DigitRunOfDigits(d: seq<byte>, rest: seq<byte>)
    requires AllDigits(d)
    requires rest == [] || !IsDigit(rest[0])
    ensures DigitRun(d + rest) == |d|
    decreases |d|
  {
    if d != [] {
      assert (d + rest)[1..] == d[1..] + rest;
      DigitRunOfDigits(d[1..], rest);
    }
  }

  function Pow10(k: nat): (r: nat)
    ensures r >= 1
  {
    if k == 0 then 1 else 10 * Pow10(k - 1)
  }

  /** A number below 10^k is written with at most k digits (k >= 1). */
  lemma {:induction false} DigitsLength(n: nat, k: nat)
    requires 1 <= k && n < Pow10(k)
    ensures |Digits(n)| <= k
    decreases k
  {
    if n >= 10 {
      DigitsLength(n / 10, k - 1);
    }
  }

  /** Regrouping a concatenation, for the proofs that build buffers piece by piece. */
  lemma AppendAssoc<T>(a: seq<T>, b: seq<T>, c: seq<T>)
    ensures (a + b) + c == a + (b + c)
  {
  }
}
