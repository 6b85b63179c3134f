/** Fixed-width arithmetic and decimal printing, as the Rust integer types do them. */
module Numbers {

  const U32_MAX: nat := 0xFFFF_FFFF
  const U64_MAX: nat := 0xFFFF_FFFF_FFFF_FFFF

  type u32 = n: nat | n <= 0xFFFF_FFFF

  function SatAdd32(a: u32, b: u32): u32 {
    Min(a + b, U32_MAX)
  }

  function Min(a: int, b: int): int {
    if a < b then a else b
  }

  function Max(a: int, b: int): int {
    if a < b then b else a
  }

  /** `saturating_sub` on an unsigned type. */
  function SatSub(a: nat, b: nat): nat {
    if a < b then 0 else a - b
  }

  /** Unchecked `u32` addition as a release build performs it. */
  function Wrap32(n: nat): u32 {
    n % (U32_MAX + 1)
  }

  /** Smallest integer that is at least `n / d`. */
  function DivCeil(n: nat, d: nat): nat
    requires d > 0
  {
    (n + d - 1) / d
  }

  function Digit(d: nat): char
    requires d < 10
  {
    "0123456789"[d]
  }

  /** The decimal text of a natural number, without leading zeros. */
  function Decimal(n: nat): (s: string)
    ensures s != []
  {
    if n < 10 then [Digit(n)] else Decimal(n / 10) + [Digit(n % 10)]
  }

  /** Two numbers that print alike are equal. */
  lemma {:induction false} DecimalInjective(a: nat, b: nat)
    requires Decimal(a) == Decimal(b)
    ensures a == b
  {
    var s, t := Decimal(a), Decimal(b);
    assert s[|s| - 1] == Digit(a % 10) && t[|t| - 1] == Digit(b % 10);
    assert a % 10 == b % 10;
    if a >= 10 && b >= 10 {
      assert s[..|s| - 1] == Decimal(a / 10) && t[..|t| - 1] == Decimal(b / 10);
      DecimalInjective(a / 10, b / 10);
    }
  }

  function DigitValue(c: char): nat {
    if '0' <= c <= '9' then (c - '0') as nat else 0
  }

  /** The number that decimal digits stand for. */
  function ReadDecimal(s: string): nat {
    if s == "" then 0 else 10 * ReadDecimal(s[..|s| - 1]) + DigitValue(s[|s| - 1])
  }

  /** A number prints as digits that read as itself and do not begin with a superfluous zero. */
  lemma {:induction false} DecimalReads(n: nat)
    ensures forall c :: c in Decimal(n) ==> '0' <= c <= '9'
    ensures ReadDecimal(Decimal(n)) == n
    ensures n > 0 ==> Decimal(n)[0] != '0'
  {
    var s := Decimal(n);
    assert '0' <= Digit(n % 10) <= '9' && DigitValue(Digit(n % 10)) == n % 10;
    if n >= 10 {
      DecimalReads(n / 10);
      assert s[..|s| - 1] == Decimal(n / 10);
    } else {
      assert s[..0] == "";
    }
  }

  lemma FloorTest(n: nat, d: nat, p: nat)
    requires d > 0
    ensures n / d >= p <==> n >= p * d
  {
    assert n == (n / d) * d + n % d;
    if n / d >= p {
      MulMonotone(p, n / d, d);
    } else {
      MulMonotone(n / d + 1, p, d);
      assert (n / d + 1) * d == (n / d) * d + d;
    }
  }

  lemma MulMonotone(a: nat, b: nat, d: nat)
    requires a <= b
    ensures a * d <= b * d
  {
    assert b * d == a * d + (b - a) * d;
  }

  lemma DivUnique(m: nat, d: nat, q: nat, r: nat)
    requires d > 0 && r < d && m == q * d + r
    ensures m / d == q
  {
    FloorTest(m, d, q);
    FloorTest(m, d, q + 1);
    assert (q + 1) * d == q * d + d;
  }

  lemma ModUnique(m: nat, d: nat, q: nat, r: nat)
    requires d > 0 && r < d && m == q * d + r
    ensures m % d == r
  {
    DivUnique(m, d, q, r);
  }

  /** Counting on from a remainder. */
  lemma ModNext(n: nat, d: nat)
    requires d > 0
    ensures (n % d + 1) % d == (n + 1) % d
  {
    var q, r := n / d, n % d;
    if r + 1 < d {
      ModUnique(n + 1, d, q, r + 1);
      ModUnique(r + 1, d, 0, r + 1);
    } else {
      assert (q + 1) * d == q * d + d;
      ModUnique(n + 1, d, q + 1, 0);
      ModUnique(r + 1, d, 1, 0);
    }
  }
}
