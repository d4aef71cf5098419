/** Decimal text, and the bound on its length that is computed from a bit count alone. */
module Decimals {
  import opened Limits
  import opened Wrappers

  const LOG10_2_UPPER_NUMERATOR: nat := 30_103
  const LOG10_2_UPPER_DENOMINATOR: nat := 100_000

  // ---- powers ----

  ghost function Pow(b: nat, e: nat): nat {
    if e == 0 then 1 else b * Pow(b, e - 1)
  }

  lemma {:induction false} PowAdd(b: nat, d: nat, e: nat)
    ensures Pow(b, d + e) == Pow(b, d) * Pow(b, e)
  {
    if d > 0 {
      PowAdd(b, d - 1, e);
      assert Pow(b, d + e) == b * (Pow(b, d - 1) * Pow(b, e));
    }
  }

  lemma {:induction false} PowTimes(b: nat, d: nat, e: nat)
    ensures Pow(b, d * e) == Pow(Pow(b, d), e)
  {
    if e > 0 {
      PowTimes(b, d, e - 1);
      assert d * e == d + d * (e - 1);
      PowAdd(b, d, d * (e - 1));
    }
  }

  lemma {:induction false} PowPositive(b: nat, e: nat)
    requires b > 0
    ensures Pow(b, e) > 0
  {
    if e > 0 {
      PowPositive(b, e - 1);
      assert b * Pow(b, e - 1) > 0;
    }
  }

  lemma TimesMonotone(a: nat, b: nat, c: nat, d: nat)
    requires a <= b && c <= d
    ensures a * c <= b * d
  {
    assert a * c <= b * c;
    assert b * c <= b * d;
  }

  lemma {:induction false} PowMonotone(a: nat, b: nat, e: nat)
    requires a <= b
    ensures Pow(a, e) <= Pow(b, e)
  {
    if e > 0 {
      PowMonotone(a, b, e - 1);
      TimesMonotone(a, b, Pow(a, e - 1), Pow(b, e - 1));
    }
  }

  lemma {:induction false} PowStrict(a: nat, b: nat, e: nat)
    requires a < b && e > 0
    ensures Pow(a, e) < Pow(b, e)
  {
    PowMonotone(a, b, e - 1);
    PowPositive(b, e - 1);
    TimesMonotone(a, a, Pow(a, e - 1), Pow(b, e - 1));
    assert a * Pow(b, e - 1) < b * Pow(b, e - 1);
  }

  lemma {:induction false} PowGrows(b: nat, d: nat, e: nat)
    requires b > 0 && d <= e
    ensures Pow(b, d) <= Pow(b, e)
  {
    PowAdd(b, d, e - d);
    PowPositive(b, e - d);
    TimesMonotone(Pow(b, d), Pow(b, d), 1, Pow(b, e - d));
  }

  // ---- 2^100000 < 10^30103 ----

  lemma PowSmall(odd: nat)
    requires odd <= 1
    ensures Pow(2, odd) == 1 + odd
  {
    if odd == 1 {
      assert Pow(2, 1) == 2 * Pow(2, 0);
    }
  }

  ghost predicate Below(k: nat, m: nat, e: nat) {
    Pow(2, k) <= m * Pow(10, e)
  }

  ghost predicate TenTo(shift: nat, scale: nat) {
    Pow(10, shift) == scale
  }

  /** One squaring of `2^k <= m * 10^e`, with an extra factor of two when `odd` is 1, rounded up. */
  lemma Double(k: nat, m: nat, e: nat, odd: nat, m': nat, shift: nat, scale: nat)
    requires Below(k, m, e) && TenTo(shift, scale) && odd <= 1
    requires (1 + odd) * (m * m) <= m' * scale
    ensures Below(2 * k + odd, m', 2 * e + shift)
  {
    var t, p := Pow(10, e), Pow(2, k);
    PowAdd(2, k, k);
    PowAdd(2, odd, k + k);
    PowSmall(odd);
    PowAdd(10, e, e);
    PowAdd(10, shift, e + e);
    assert shift + (e + e) == 2 * e + shift && odd + (k + k) == 2 * k + odd;
    hide Pow;
    Squared(p, m, t, odd, m', scale);
  }

  lemma Squared(p: nat, m: nat, t: nat, odd: nat, m': nat, q: nat)
    requires p <= m * t && (1 + odd) * (m * m) <= m' * q
    ensures (1 + odd) * (p * p) <= m' * (q * (t * t))
  {
    TimesMonotone(p, m * t, p, m * t);
    TimesMonotone(1 + odd, 1 + odd, p * p, (m * t) * (m * t));
    SquareOfProduct(m, t);
    Regroup(1 + odd, m * m, t * t);
    TimesMonotone((1 + odd) * (m * m), m' * q, t * t, t * t);
    Regroup(m', q, t * t);
  }

  lemma SquareOfProduct(m: nat, t: nat)
    ensures (m * t) * (m * t) == (m * m) * (t * t)
  {
    Regroup(m * t, m, t);
    Regroup(m, m, t);
    assert (m * t) * m == (m * m) * t;
    Regroup(m * m, t, t);
  }

  lemma Regroup(a: nat, b: nat, c: nat)
    ensures a * (b * c) == (a * b) * c
  {
  }

  lemma SmallPowers()
    ensures Below(24, 16777216, 0) && TenTo(2, 100)
    ensures TenTo(12, 1_000_000_000_000) && TenTo(13, 10_000_000_000_000)
  {
    assert Pow(10, 0) == 1;
    assert Pow(2, 6) == 64;
    PowAdd(2, 6, 6);
    PowAdd(2, 12, 12);
    assert Pow(10, 6) == 1_000_000;
    PowAdd(10, 6, 6);
    assert Pow(10, 13) == 10 * Pow(10, 12);
  }

  lemma TwoPowerChain()
    ensures Below(100_000, 9990020935522, 30_090)
  {
    hide Below, TenTo;
    SmallPowers();
    var trillion := 1_000_000_000_000;
    Double(24, 16777216, 0, 0, 2814749767107, 2, 100);
    Double(48, 2814749767107, 2, 1, 1584563250286, 13, 10 * trillion);
    Double(97, 1584563250286, 17, 1, 5021681388314, 12, trillion);
    Double(195, 5021681388314, 46, 0, 2521728396574, 13, 10 * trillion);
    Double(390, 2521728396574, 105, 1, 1271822821218, 13, 10 * trillion);
    Double(781, 1271822821218, 223, 0, 1617533288571, 12, trillion);
    Double(1562, 1617533288571, 458, 1, 5232827879271, 12, trillion);
    Double(3125, 5232827879271, 928, 0, 2738248761408, 13, 10 * trillion);
    Double(6250, 2738248761408, 1869, 0, 7498006279353, 12, trillion);
    Double(12500, 7498006279353, 3750, 0, 5622009816522, 13, 10 * trillion);
    Double(25000, 5622009816522, 7513, 0, 3160699437707, 13, 10 * trillion);
    Double(50000, 3160699437707, 15039, 0, 9990020935522, 12, trillion);
  }

  lemma TwoPowerBelowTenPower(two: nat, ten: nat)
    requires two == 100_000 && ten == 30_103
    ensures Pow(2, two) < Pow(10, ten)
  {
    TwoPowerChain();
    SmallPowers();
    var e := ten - 13;
    hide Pow;
    assert Below(two, 9990020935522, e) && TenTo(ten - e, 10_000_000_000_000);
    PowAdd(10, ten - e, e);
    PowPositive(10, e);
    var rest := Pow(10, e);
    assert 9990020935522 * rest < 10_000_000_000_000 * rest;
  }

  /** The quotient the code computes is an exponent of ten that is large enough for every bit count. */
  lemma TwoPowerFits(bits: nat, digits: nat)
    requires bits * LOG10_2_UPPER_NUMERATOR <= digits * LOG10_2_UPPER_DENOMINATOR
    ensures Pow(2, bits) <= Pow(10, digits)
  {
    var two, ten := LOG10_2_UPPER_DENOMINATOR, LOG10_2_UPPER_NUMERATOR;
    TwoPowerBelowTenPower(two, ten);
    PowersCompared(bits, digits, two, ten);
  }

  /** From `2^two < 10^ten`: `2^bits` exceeds no power of ten with at least `bits * ten / two` digits. */
  lemma PowersCompared(bits: nat, digits: nat, two: nat, ten: nat)
    requires Pow(2, two) < Pow(10, ten) && two > 0
    requires bits * ten <= digits * two
    ensures Pow(2, bits) <= Pow(10, digits)
  {
    hide Pow;
    if Pow(10, digits) < Pow(2, bits) {
      PowStrict(Pow(10, digits), Pow(2, bits), two);
      PowTimes(2, bits, two);
      PowTimes(2, two, bits);
      assert bits * two == two * bits && bits * ten == ten * bits;
      PowMonotone(Pow(2, two), Pow(10, ten), bits);
      PowTimes(10, ten, bits);
      PowTimes(10, digits, two);
      PowGrows(10, ten * bits, digits * two);
    }
  }

  // ---- decimal text ----

  function Digit(d: nat): char
    requires d < 10
  {
    "0123456789"[d]
  }

  function DecimalText(n: nat): (text: string)
    ensures text != []
  {
    if n < 10 then [Digit(n)] else DecimalText(n / 10) + [Digit(n % 10)]
  }

  function SignedText(n: int): string {
    if n < 0 then "-" + DecimalText(-n) else DecimalText(n)
  }

  /** A text of `d` digits is the text of a number below `10^d`, and of no smaller number than `10^(d-1)`. */
  lemma {:induction false} DecimalLength(n: nat)
    ensures n < Pow(10, |DecimalText(n)|)
    ensures n > 0 ==> Pow(10, |DecimalText(n)| - 1) <= n
  {
    if n >= 10 {
      DecimalLength(n / 10);
      var d := |DecimalText(n / 10)|;
      assert Pow(10, d + 1) == 10 * Pow(10, d);
      assert Pow(10, d) == 10 * Pow(10, d - 1);
    } else {
      assert Pow(10, 1) == 10 * Pow(10, 0);
    }
  }

  lemma DecimalFits(n: nat, digits: nat)
    requires n < Pow(10, digits) && digits > 0
    ensures |DecimalText(n)| <= digits
  {
    DecimalLength(n);
    if |DecimalText(n)| > digits {
      PowGrows(10, digits, |DecimalText(n)| - 1);
    }
  }

  function DigitValue(c: char): nat {
    if '0' <= c <= '9' then c as int - '0' as int else 0
  }

  function ValueOf(text: string): nat {
    if text == [] then 0 else 10 * ValueOf(text[..|text| - 1]) + DigitValue(text[|text| - 1])
  }

  /** Decimal text can be read back, so distinct numbers have distinct texts. */
  lemma {:induction false} DecimalReadsBack(n: nat)
    ensures ValueOf(DecimalText(n)) == n
    ensures forall c | c in DecimalText(n) :: '0' <= c <= '9'
  {
    if n >= 10 {
      DecimalReadsBack(n / 10);
      var text := DecimalText(n);
      assert text[..|text| - 1] == DecimalText(n / 10);
    } else {
      assert DecimalText(n)[..0] == [];
    }
  }

  // ---- what the driver computes ----

  /** `decimal_digits`. */
  method DecimalDigits(n: nat) returns (digits: nat)
    ensures digits == |DecimalText(n)|
  {
    if n == 0 {
      return 1;
    }
    var value := n;
    digits := 0;
    while value != 0
      invariant digits + (if value == 0 then 0 else |DecimalText(value)|) == |DecimalText(n)|
    {
      digits := digits + 1;
      value := value / 10;
    }
  }

  /** `signed_decimal_digits`. */
  method SignedDecimalDigits(n: int) returns (digits: nat)
    ensures digits == |SignedText(n)|
  {
    var magnitude: nat := if n < 0 then -n else n;
    digits := if n < 0 then 1 else 0;
    if magnitude == 0 {
      return 1;
    }
    while magnitude != 0
      invariant digits + (if magnitude == 0 then 0 else |DecimalText(magnitude)|) == |SignedText(n)|
    {
      digits := digits + 1;
      magnitude := magnitude / 10;
    }
  }

  /** The number of bits of a magnitude; 0 for zero. */
  function Bits(n: nat): nat {
    if n == 0 then 0 else 1 + Bits(n / 2)
  }

  lemma {:induction false} BitsMeaning(n: nat)
    ensures n < Pow(2, Bits(n))
    ensures n > 0 ==> Pow(2, Bits(n) - 1) <= n
  {
    if n > 0 {
      var half := n / 2;
      BitsMeaning(half);
      var b := Bits(half);
      assert Bits(n) == b + 1 && Pow(2, b + 1) == 2 * Pow(2, b);
      assert b > 0 ==> Pow(2, b) == 2 * Pow(2, b - 1);
      assert n == 1 ==> b == 0 && Pow(2, b) == 1;
    }
  }

  /** `decimal_string_upper_bound_from_bits`; `None` where the machine word overflows. */
  function UpperBoundFromBits(bits: nat): Option<nat> {
    if bits > USIZE_MAX then None
    else if bits == 0 then Some(2)
    else if bits * LOG10_2_UPPER_NUMERATOR > USIZE_MAX then None
    else if bits * LOG10_2_UPPER_NUMERATOR + (LOG10_2_UPPER_DENOMINATOR - 1) > USIZE_MAX then None
    else Some((bits * LOG10_2_UPPER_NUMERATOR + (LOG10_2_UPPER_DENOMINATOR - 1)) / LOG10_2_UPPER_DENOMINATOR + 1)
  }

  /**
   For every bit count and every number whose magnitude fits in it, the signed decimal text is no longer
   than the bound.
   */
  lemma UpperBoundHolds(n: int, bits: nat)
    requires (if n < 0 then -n else n) < Pow(2, bits) && UpperBoundFromBits(bits).Some?
    ensures |SignedText(n)| <= UpperBoundFromBits(bits).value
  {
    var magnitude: nat := if n < 0 then -n else n;
    if bits > 0 {
      var digits := UpperBoundFromBits(bits).value - 1;
      assert bits * LOG10_2_UPPER_NUMERATOR <= digits * LOG10_2_UPPER_DENOMINATOR;
      TwoPowerFits(bits, digits);
      DecimalFits(magnitude, digits);
    }
  }

  /** The bound: two for zero, and else one more than the bits times 30103/100000, rounded up. */
  lemma UpperBoundMeaning(bits: nat)
    requires UpperBoundFromBits(bits).Some?
    ensures var bound := UpperBoundFromBits(bits).value;
            if bits == 0 then bound == 2
            else bound >= 2 && (bound - 2) * 100_000 < bits * 30_103 <= (bound - 1) * 100_000
  {
  }

  /** The bound is missing exactly where its arithmetic leaves the machine word. */
  lemma UpperBoundExists(bits: nat)
    ensures UpperBoundFromBits(bits).Some? <==> bits * LOG10_2_UPPER_NUMERATOR + 99_999 <= USIZE_MAX
  {
  }
}
