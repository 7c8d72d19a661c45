/** Big-endian 32-bit integers and decimal numerals. */
module Numbers {
  import opened Basics

  // ---- u32::to_be_bytes and from_be_bytes ----

  /** `(n as u32).to_be_bytes()`: the cast drops everything above 32 bits. */
  function BigEndian(n: nat): (b: bytes)
    ensures |b| == 4
  {
    [n / 0x100_0000 % 256, n / 0x1_0000 % 256, n / 0x100 % 256, n % 256]
  }

  function FromBigEndian(b: bytes): (n: nat)
    requires |b| == 4
    ensures n < U32_LIMIT
  {
    b[0] as int * 0x100_0000 + b[1] as int * 0x1_0000 + b[2] as int * 0x100 + b[3]
  }

  lemma BigEndianRoundTrip(n: nat)
    ensures FromBigEndian(BigEndian(n)) == n % U32_LIMIT
  {
    var q := n / U32_LIMIT;
    assert n / 0x100_0000 / 256 == q;
    assert n / 0x100_0000 == n / 0x1_0000 / 256;
    assert n / 0x1_0000 == n / 0x100 / 256;
  }

  /** The integer at position i of a buffer. */
  function U32At(b: bytes, i: nat): (n: nat)
    requires i + 4 <= |b|
    ensures n < U32_LIMIT
  {
    FromBigEndian(b[i..i + 4])
  }

  // ---- decimal numerals ----

  const ZERO: byte := 48
  const MINUS: byte := 45
  const PLUS: byte := 43

  predicate IsDigit(b: byte) { 48 <= b <= 57 }

  predicate AllDigits(s: bytes) { forall i | 0 <= i < |s| :: IsDigit(s[i]) }

  /** The number a digit string denotes. */
  function Numeral(s: bytes): nat
    requires AllDigits(s)
  {
    if s == [] then 0 else Numeral(s[..|s| - 1]) * 10 + (s[|s| - 1] - ZERO)
  }

  /** `format!("{}", n)` */
  function Decimal(n: nat): (s: bytes)
    ensures |s| >= 1 && AllDigits(s)
  {
    if n < 10 then [ZERO + n] else Decimal(n / 10) + [ZERO + n % 10]
  }

  lemma {:induction false} DecimalRoundTrip(n: nat)
    ensures Numeral(Decimal(n)) == n
    ensures Decimal(n)[0] == ZERO <==> n == 0
    ensures n == 0 ==> |Decimal(n)| == 1
  {
    if n < 10 {
      assert Decimal(n)[..0] == [];
    } else {
      DecimalRoundTrip(n / 10);
      assert Decimal(n)[..|Decimal(n)| - 1] == Decimal(n / 10);
    }
  }

  function PowerOfTen(k: nat): nat { if k == 0 then 1 else 10 * PowerOfTen(k - 1) }

  lemma {:induction false} DecimalLength(n: nat, k: nat)
    requires 1 <= k && n < PowerOfTen(k)
    ensures |Decimal(n)| <= k
  {
    if n >= 10 { DecimalLength(n / 10, k - 1); }
  }

  lemma {:induction false} DecimalAtLeast(n: nat, k: nat)
    requires PowerOfTen(k) <= n
    ensures |Decimal(n)| > k
  {
    if k > 0 {
      DecimalAtLeast(n / 10, k - 1);
      if n < 10 { assert false; }
    }
  }

  /** A 64-bit integer has at most 20 digits. */
  lemma ShortDecimal(n: nat)
    requires n < U64_LIMIT
    ensures |Decimal(n)| <= 20
  {
    assert PowerOfTen(5) == 100000 && PowerOfTen(10) == 100000 * PowerOfTen(5);
    assert PowerOfTen(15) == 100000 * PowerOfTen(10) && PowerOfTen(20) == 100000 * PowerOfTen(15);
    DecimalLength(n, 20);
  }

  /** The largest 64-bit integers have exactly 20. */
  lemma LongDecimal(n: nat)
    requires 10_000_000_000_000_000_000 <= n < U64_LIMIT
    ensures |Decimal(n)| == 20
  {
    assert PowerOfTen(5) == 100000 && PowerOfTen(10) == 100000 * PowerOfTen(5);
    assert PowerOfTen(15) == 100000 * PowerOfTen(10) && PowerOfTen(19) == 10000 * PowerOfTen(15);
    ShortDecimal(n);
    DecimalAtLeast(n, 19);
  }
}
