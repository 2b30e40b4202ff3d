/** IEEE-754 binary64 patterns as far as the codecs look into them: which patterns are integers, which
    integer, and the conversion of an integer to the nearest pattern (ties to even). */
module Float64 {
  import opened Machine

  const P52: int := 0x10_0000_0000_0000
  const P63: int := 0x8000_0000_0000_0000
  const NEG_ZERO: U64 := 0x8000_0000_0000_0000
  const INFINITY: U64 := 0x7ff0_0000_0000_0000

  function Pow2(k: nat): (p: nat)
    ensures p > 0
  {
    if k == 0 then 1 else 2 * Pow2(k - 1)
  }

  function Log2(n: nat): (k: nat)
    requires n > 0
    ensures Pow2(k) <= n < 2 * Pow2(k)
  {
    if n < 2 then 0 else 1 + Log2(n / 2)
  }

  predicate Negative(bits: U64) {
    bits >= P63
  }

  function Exponent(bits: U64): (e: nat)
    ensures e < 0x800
  {
    bits % P63 / P52
  }

  function Fraction(bits: U64): (f: nat)
    ensures f < P52
  {
    bits % P52
  }

  /** JavaScript's Number.isInteger. */
  predicate IsInteger(bits: U64) {
    var e, m := Exponent(bits), P52 + Fraction(bits);
    if e == 0x7ff then false
    else if e == 0 then Fraction(bits) == 0
    else e >= 1075 || m % Pow2(1075 - e) == 0
  }

  function Magnitude(bits: U64): nat
    requires IsInteger(bits)
  {
    var e, m := Exponent(bits), P52 + Fraction(bits);
    if e == 0 then 0
    else if e >= 1075 then m * Pow2(e - 1075)
    else m / Pow2(1075 - e)
  }

  /** The value of an integer pattern: JavaScript's BigInt(x). */
  function IntOf(bits: U64): int
    requires IsInteger(bits)
  {
    var m: int := Magnitude(bits);
    if Negative(bits) then -m else m
  }

  /** Round a number to a multiple of 2^shift, nearest, ties to even, in units of 2^shift. */
  function RoundShift(n: nat, shift: nat): nat {
    if shift == 0 then n
    else
      QuotientNatural(n, Pow2(shift));
      var q, r, half := n / Pow2(shift), n % Pow2(shift), Pow2(shift - 1);
      if r > half || (r == half && q % 2 == 1) then q + 1 else q
  }

  lemma QuotientNatural(n: nat, p: nat)
    requires p > 0
    ensures n / p >= 0
  {
    NonzeroMultiple(p, n / p);
  }

  /** The pattern nearest to a natural number: Go's float64(uint64), JavaScript's Number(bigint). Too large
      a number becomes infinity. */
  function OfNat(n: nat): (bits: U64)
    ensures bits < P63
  {
    if n == 0 then 0
    else
      var k := Log2(n);
      if k <= 52 then
        ScaledBound(n);
        (k + 1023) * P52 + (n * Pow2(52 - k) - P52)
      else if k > 1023 then INFINITY
      else
        RoundedBound(n);
        (k + 1023) * P52 + (RoundShift(n, k - 52) - P52)
  }

  function OfInt(n: int): U64 {
    if n >= 0 then OfNat(n) else P63 + OfNat(-n)
  }

  lemma {:induction false} Pow2Monotone(i: nat, j: nat)
    requires i <= j
    ensures Pow2(i) <= Pow2(j)
  {
    if i < j {
      Pow2Monotone(i, j - 1);
    }
  }

  lemma {:induction false} Pow2Sum(i: nat, j: nat)
    ensures Pow2(i + j) == Pow2(i) * Pow2(j)
  {
    if i == 0 {
      PowZero();
    } else {
      Pow2Sum(i - 1, j);
      PowNext(i - 1);
      PowNext(i + j - 1);
      hide Pow2;
      Doubled(Pow2(i - 1), Pow2(j));
    }
  }

  lemma PowZero()
    ensures Pow2(0) == 1
  {
  }

  lemma PowNext(k: nat)
    ensures Pow2(k + 1) == 2 * Pow2(k)
  {
  }

  lemma Doubled(a: nat, b: nat)
    ensures 2 * (a * b) == (2 * a) * b
  {
  }

  lemma Pow2Values()
    ensures Pow2(11) == 2048 && Pow2(12) == 4096
    ensures Pow2(52) == P52 && Pow2(53) == 2 * P52 && Pow2(64) == TWO_64 && Pow2(65) == 2 * TWO_64
  {
    assert Pow2(8) == 0x100;
    assert Pow2(16) == 0x1_0000 by { Pow2Sum(8, 8); }
    assert Pow2(32) == 0x1_0000_0000 by { Pow2Sum(16, 16); }
    assert Pow2(48) == 0x1_0000_0000_0000 by { Pow2Sum(32, 16); }
    assert Pow2(64) == TWO_64 by { Pow2Sum(32, 32); }
  }

  lemma Pow2Gap(i: nat, j: nat)
    ensures i < j ==> 2 * Pow2(i) <= Pow2(j)
  {
    if i < j {
      Pow2Monotone(i + 1, j);
    }
  }

  /** Between two powers of two there is one logarithm. */
  lemma LogUnique(n: nat, k: nat)
    requires Pow2(k) <= n < 2 * Pow2(k)
    ensures n > 0 && Log2(n) == k
  {
    Pow2Gap(Log2(n), k);
    Pow2Gap(k, Log2(n));
  }

  lemma LogBound(n: nat)
    requires 0 < n <= TWO_64
    ensures Log2(n) <= 64 && (n < TWO_64 ==> Log2(n) <= 63)
  {
    Pow2Values();
    Pow2Monotone(65, if Log2(n) < 65 then 65 else Log2(n));
  }

  /** A number below 2^53 fits the significand after scaling. */
  lemma ScaledBound(n: nat)
    requires n > 0 && Log2(n) <= 52
    ensures P52 <= n * Pow2(52 - Log2(n)) < 2 * P52
  {
    var k := Log2(n);
    Pow2Sum(k, 52 - k);
    Pow2Values();
    hide *;
    Scale(n, Pow2(k), Pow2(52 - k));
  }

  lemma Scale(n: nat, p: nat, c: nat)
    requires p <= n < 2 * p && c > 0
    ensures p * c <= n * c < 2 * (p * c)
  {
    assert n * c == p * c + (n - p) * c;
    assert (2 * p) * c == 2 * (p * c);
    assert (2 * p) * c == n * c + (2 * p - n) * c;
  }

  lemma RoundedBound(n: nat)
    requires n > 0 && Log2(n) > 52
    ensures P52 <= RoundShift(n, Log2(n) - 52) <= 2 * P52
  {
    var shift := Log2(n) - 52;
    var p := Pow2(shift);
    var q, r := n / p, n % p;
    Pow2Sum(shift, 52);
    Pow2Values();
    QuotientBounds(n, p, P52);
  }

  lemma QuotientBounds(n: nat, p: nat, c: nat)
    requires p > 0 && p * c <= n < 2 * (p * c)
    ensures c <= n / p < 2 * c
  {
    var q := n / p;
    assert p * q <= n < p * q + p;
    MulOrder(p, q + 1, c);
    MulOrder(p, 2 * c, q);
    assert p * (2 * c) == 2 * (p * c);
    assert p * (q + 1) == p * q + p;
  }

  lemma MulOrder(p: nat, a: int, b: int)
    ensures a <= b ==> p * a <= p * b
  {
    Distribute(p, b, a);
  }

  /** The fields of a pattern assembled from them. */
  lemma Fields(e: nat, f: nat)
    requires e < 0x800 && f < P52
    ensures var bits := e * P52 + f; 0 <= bits < P63 && Exponent(bits) == e && Fraction(bits) == f
    ensures var bits := P63 + e * P52 + f; P63 <= bits < TWO_64 && Exponent(bits) == e && Fraction(bits) == f
  {
  }

  lemma Assembled(bits: U64)
    ensures bits == (if Negative(bits) then P63 else 0) + Exponent(bits) * P52 + Fraction(bits)
  {
  }

  lemma SignedFields(bits: U64)
    requires bits < P63
    ensures Exponent(P63 + bits) == Exponent(bits) && Fraction(P63 + bits) == Fraction(bits)
  {
  }

  /** Integers up to 2^53 convert without loss. */
  lemma OfNatExact(n: nat)
    requires n <= 2 * P52
    ensures IsInteger(OfNat(n)) && Magnitude(OfNat(n)) == n
  {
    if n > 0 {
      Pow2Values();
      if n < 2 * P52 {
        Pow2Monotone(53, if Log2(n) < 53 then 53 else Log2(n));
        OfNatScaled(n);
      } else {
        LogUnique(n, 53);
        OfNatTop();
      }
    }
  }

  lemma OfNatScaled(n: nat)
    requires n > 0 && Log2(n) <= 52
    ensures n <= TWO_64 && IsInteger(OfNat(n)) && Magnitude(OfNat(n)) == n
  {
    OfNatForm(n);
    ScaledBound(n);
    hide *;
    var k, c := Log2(n), Pow2(52 - Log2(n));
    ExactMultiple(n, c);
    FieldsOf(k + 1023, n * c - P52, OfNat(n));
    ReadScaled(OfNat(n), k, n, c);
  }

  lemma OfNatForm(n: nat)
    requires n > 0 && Log2(n) <= 52
    ensures n <= TWO_64 && OfNat(n) == (Log2(n) + 1023) * P52 + (n * Pow2(52 - Log2(n)) - P52)
  {
    Pow2Values();
    Pow2Gap(Log2(n), 53);
    hide Log2, Pow2;
  }

  lemma FieldsOf(e: nat, f: int, bits: U64)
    requires e < 0x800 && 0 <= f < P52 && bits == e * P52 + f
    ensures Exponent(bits) == e && P52 + Fraction(bits) == P52 + f
  {
    Fields(e, f);
  }

  lemma ReadScaled(bits: U64, k: nat, n: nat, c: nat)
    requires k <= 52 && c == Pow2(52 - k) && n * c % c == 0 && n * c / c == n
    requires Exponent(bits) == k + 1023 && P52 + Fraction(bits) == n * c
    ensures IsInteger(bits) && Magnitude(bits) == n
  {
    assert Pow2(0) == 1;
  }

  lemma OfNatTop()
    ensures OfNat(2 * P52) == 1076 * P52
    ensures IsInteger(1076 * P52) && Magnitude(1076 * P52) == 2 * P52
  {
    Pow2Values();
    LogUnique(2 * P52, 53);
    Fields(1076, 0);
    assert Pow2(1) == 2 && Pow2(0) == 1;
  }

  lemma ExactMultiple(n: nat, c: nat)
    requires c > 0
    ensures n * c % c == 0 && n * c / c == n
  {
    UniqueRemainder(n * c, c, n, 0);
  }

  /** Every converted integer is an integer pattern. */
  lemma OfNatIsInteger(n: nat)
    requires n <= TWO_64
    ensures IsInteger(OfNat(n))
  {
    if n > 0 {
      LogBound(n);
      hide *;
      if Log2(n) <= 52 {
        OfNatScaled(n);
      } else {
        OfNatMagnitude(n);
      }
    } else {
      ZeroIsInteger();
    }
  }

  lemma ZeroIsInteger()
    ensures IsInteger(OfNat(0))
  {
  }

  /** An integer pattern is recovered from its value. */
  lemma IntegerRecovered(bits: U64)
    requires bits < P63 && IsInteger(bits)
    ensures OfNat(Magnitude(bits)) == bits
  {
    Assembled(bits);
    var e, f := Exponent(bits), Fraction(bits);
    var m, n := P52 + f, Magnitude(bits);
    if e >= 1075 {
      RecoverLarge(e - 1075, m, n);
    } else if e > 0 {
      RecoverSmall(1075 - e, m, n);
    }
  }

  lemma RecoverLarge(shift: nat, m: nat, n: nat)
    requires P52 <= m < 2 * P52 && n == m * Pow2(shift) && shift <= 971
    ensures OfNat(n) == (shift + 1075) * P52 + (m - P52)
  {
    Pow2Values();
    Pow2Sum(52, shift);
    var p := Pow2(shift);
    ExactMultiple(m, p);
    hide Pow2, Log2, OfNat, RoundShift;
    Scale(m, P52, p);
    LogUnique(n, 52 + shift);
    NoRounding(n, shift, m);
    if shift == 0 {
      Unshifted(n);
    } else {
      Shifted(n, shift);
    }
  }

  lemma NoRounding(n: nat, shift: nat, m: nat)
    requires n % Pow2(shift) == 0 && n / Pow2(shift) == m
    ensures RoundShift(n, shift) == m
  {
    assert Pow2(0) == 1;
  }

  lemma Unshifted(n: nat)
    requires n > 0 && Log2(n) == 52
    ensures OfNat(n) == 1075 * P52 + (RoundShift(n, 0) - P52)
  {
    assert Pow2(0) == 1;
  }

  lemma Shifted(n: nat, shift: nat)
    requires n > 0 && Log2(n) == 52 + shift && 0 < shift <= 971
    ensures OfNat(n) == (shift + 1075) * P52 + (RoundShift(n, shift) - P52)
  {
    hide Log2, Pow2, RoundShift;
  }

  lemma RecoverSmall(shift: nat, m: nat, n: nat)
    requires 0 < shift < 1075 && P52 <= m < 2 * P52 && m % Pow2(shift) == 0 && n == m / Pow2(shift)
    ensures n <= TWO_64 && OfNat(n) == (1075 - shift) * P52 + (m - P52)
  {
    Pow2Values();
    ShiftSmall(shift, m);
    var k := 52 - shift;
    var p := Pow2(shift);
    Pow2Sum(shift, k);
    hide Pow2, Log2;
    QuotientBounds(m, p, Pow2(k));
    LogUnique(n, k);
    Product(m, p, n);
  }

  lemma Product(m: nat, p: nat, n: nat)
    requires p > 0 && m % p == 0 && n == m / p
    ensures n * p == m && n <= m
  {
    assert m == p * n;
    MulOrder(n, 1, p);
  }

  /** A significand is no multiple of 2^53 or more. */
  lemma ShiftSmall(shift: nat, m: nat)
    requires P52 <= m < 2 * P52 && m % Pow2(shift) == 0
    ensures shift <= 52
  {
    if shift > 52 {
      Pow2Values();
      Pow2Monotone(53, shift);
      hide Pow2;
      UniqueRemainder(m, Pow2(shift), 0, m);
    }
  }

  /** No number below 2^64 converts to a pattern of magnitude 2^64 or more, except by rounding up to 2^64. */
  lemma OfNatBound(n: nat)
    requires n < TWO_64
    ensures OfNat(n) <= 1087 * P52 && (n == 0 ==> OfNat(n) == 0)
  {
    if n > 0 {
      LogBound(n);
      if Log2(n) <= 52 {
        ScaledBound(n);
      } else {
        RoundedBound(n);
      }
    }
  }

  lemma MagnitudeBelow(bits: U64)
    requires IsInteger(bits) && Exponent(bits) < 1087
    ensures Magnitude(bits) < TWO_64
  {
    var e, m := Exponent(bits), P52 + Fraction(bits);
    if e >= 1075 {
      Pow2Values();
      Pow2Monotone(e - 1075, 11);
      hide Pow2;
      MulOrder(m, Pow2(e - 1075), 2048);
    } else if e > 0 {
      Product(m, Pow2(1075 - e), m / Pow2(1075 - e));
    }
  }

  /** An integer pattern of magnitude 2^64 or more has an exponent of at least 64, and 2^64 is one pattern. */
  lemma HugeExponent(bits: U64)
    requires bits < P63 && IsInteger(bits) && Magnitude(bits) >= TWO_64
    ensures bits >= 1087 * P52 && (bits == 1087 * P52 ==> Magnitude(bits) == TWO_64)
  {
    Assembled(bits);
    if Exponent(bits) < 1087 {
      MagnitudeBelow(bits);
    }
    if bits == 1087 * P52 {
      Pow2Values();
      Fields(1087, 0);
    }
  }

  /** Through an integer of at most 64 bits and back, a pattern survives exactly when its magnitude does. */
  lemma WrappedIntegerDiffers(bits: U64)
    requires bits < P63 && IsInteger(bits) && Magnitude(bits) >= TWO_64
    ensures OfNat(Magnitude(bits) % TWO_64) != bits
  {
    var n := Magnitude(bits) % TWO_64;
    OfNatBound(n);
    HugeExponent(bits);
  }

  // Signs and zeros.

  lemma SignOf(bits: U64)
    requires IsInteger(bits)
    ensures IntOf(bits) > 0 ==> bits < P63
    ensures IntOf(bits) < 0 ==> bits >= P63 && IsInteger(bits - P63) && Magnitude(bits - P63) == -IntOf(bits)
    ensures IntOf(bits) == 0 ==> bits == 0 || bits == NEG_ZERO
  {
    if bits >= P63 {
      SignedFields(bits - P63);
    }
    if IntOf(bits) == 0 {
      ZeroPattern(bits);
    }
  }

  lemma ZeroPattern(bits: U64)
    requires IsInteger(bits) && Magnitude(bits) == 0
    ensures bits == 0 || bits == NEG_ZERO
  {
    Assembled(bits);
    var e, m := Exponent(bits), P52 + Fraction(bits);
    if e >= 1075 {
      NonzeroMultiple(m, Pow2(e - 1075));
    } else if e > 0 {
      Product(m, Pow2(1075 - e), m / Pow2(1075 - e));
    }
  }

  lemma ZeroReads()
    ensures OfNat(0) == 0 && NEG_ZERO != 0
  {
  }

  lemma NotNegativeZero()
    ensures IsInteger(NEG_ZERO) && IntOf(NEG_ZERO) == 0 && IsInteger(0) && IntOf(0) == 0
  {
    Fields(0, 0);
  }

  /** A number that is an integer, of either sign, is recovered from its value unless it is negative zero. */
  lemma NumberBack(bits: U64)
    requires IsInteger(bits)
    ensures OfInt(IntOf(bits)) == bits <==> bits != NEG_ZERO
  {
    SignOf(bits);
    ZeroReads();
    hide IsInteger, OfNat;
    if bits < P63 {
      IntegerRecovered(bits);
    } else if IntOf(bits) != 0 {
      hide Magnitude;
      IntegerRecovered(bits - P63);
    }
  }

  // The conversion is to the nearest pattern.

  function Distance(a: int, b: int): nat {
    if a >= b then a - b else b - a
  }

  /** Rounding picks a nearest multiple, and the even one of two equally near. */
  lemma RoundNearest(n: nat, shift: nat, m: nat)
    ensures var p, q := Pow2(shift), RoundShift(n, shift);
            && Distance(q * p, n) <= Distance(m * p, n)
            && (Distance(q * p, n) == Distance(m * p, n) && m != q ==> q % 2 == 0)
  {
    hide *;
    if shift == 0 {
      Unrounded(n, m);
    } else {
      QuotientNatural(n, Pow2(shift));
      RoundedTo(n, shift);
      NearestMultiple(n, Pow2(shift), Pow2(shift - 1), n / Pow2(shift), m);
    }
  }

  lemma NearestMultiple(n: nat, p: nat, half: nat, q: nat, m: nat)
    requires p > 0 && p == 2 * half && q == n / p
    ensures var r := n % p;
            var c := if r > half || (r == half && q % 2 == 1) then q + 1 else q;
            && Distance(c * p, n) <= Distance(m * p, n)
            && (Distance(c * p, n) == Distance(m * p, n) && m != c ==> c % 2 == 0)
  {
    NearMultiples(n, p, q, m);
    Remainder(n, p);
    hide Distance;
    var r := n % p;
    if m != q && m != q + 1 {
      assert Distance(m * p, n) >= p;
    }
  }

  lemma Remainder(n: nat, p: nat)
    requires p > 0
    ensures 0 <= n % p < p
  {
  }

  lemma Unrounded(n: nat, m: nat)
    ensures RoundShift(n, 0) * Pow2(0) == n && Distance(n, n) == 0
    ensures m * Pow2(0) == m && (m != n ==> Distance(m, n) > 0)
  {
    assert Pow2(0) == 1;
  }

  lemma RoundedTo(n: nat, shift: nat)
    requires shift > 0
    ensures Pow2(shift) == 2 * Pow2(shift - 1)
    ensures var q, r, half := n / Pow2(shift), n % Pow2(shift), Pow2(shift - 1);
            RoundShift(n, shift) == if r > half || (r == half && q % 2 == 1) then q + 1 else q
  {
  }

  /** Distances to the multiples of p around n, and to the others. */
  lemma NearMultiples(n: nat, p: nat, q: nat, m: nat)
    requires p > 0 && q == n / p
    ensures Distance(q * p, n) == n % p && Distance((q + 1) * p, n) == p - n % p
    ensures m < q || m > q + 1 ==> Distance(m * p, n) >= p
  {
    assert n == q * p + n % p;
    assert (q + 1) * p == q * p + p;
    assert (q + 2) * p == q * p + 2 * p;
    assert (q - 1) * p == q * p - p;
    if m < q {
      MulOrder(p, m, q - 1);
    } else if m > q + 1 {
      MulOrder(p, q + 2, m);
    }
  }

  lemma RoundedForm(n: nat)
    requires n > 0 && 52 < Log2(n) <= 1023
    ensures OfNat(n) == (Log2(n) + 1023) * P52 + (RoundShift(n, Log2(n) - 52) - P52)
  {
    hide Log2, Pow2, RoundShift;
  }

  lemma LargeMagnitude(bits: U64, e: nat, m: nat)
    requires 1075 <= e < 0x7ff && P52 <= m < 2 * P52 && bits == e * P52 + (m - P52)
    ensures IsInteger(bits) && Magnitude(bits) == m * Pow2(e - 1075)
  {
    FieldsOf(e, m - P52, bits);
    hide Pow2;
  }

  lemma OfNatMagnitude(n: nat)
    requires n > 0 && 52 < Log2(n) <= 1022
    ensures IsInteger(OfNat(n))
    ensures Magnitude(OfNat(n)) == RoundShift(n, Log2(n) - 52) * Pow2(Log2(n) - 52)
  {
    var k := Log2(n);
    var q := RoundShift(n, k - 52);
    RoundedForm(n);
    RoundedBound(n);
    assert Pow2(k - 51) == 2 * Pow2(k - 52);
    hide Log2, Pow2, RoundShift, OfNat, Magnitude, IsInteger;
    if q < 2 * P52 {
      LargeMagnitude(OfNat(n), k + 1023, q);
    } else {
      LargeMagnitude(OfNat(n), k + 1024, P52);
    }
  }

  /** A pattern of magnitude 2^k or more is a multiple of 2^(k - 52). */
  lemma CoarseMagnitude(bits: U64, k: nat) returns (m: nat)
    requires bits < P63 && IsInteger(bits) && k >= 52 && Magnitude(bits) >= Pow2(k)
    ensures Magnitude(bits) == m * Pow2(k - 52)
  {
    hide *;
    Pow2Values();
    var e, c := Exponent(bits), P52 + Fraction(bits);
    if e < 1075 {
      SmallMagnitude(bits);
      if k > 52 {
        Pow2Monotone(53, k);
      }
      PowZero();
      m := Magnitude(bits);
    } else {
      ScaledMagnitude(bits);
      Pow2Sum(52, k - 52);
      if e - 1075 < k - 52 {
        Pow2Gap(e - 1075, k - 52);
        TooSmall(c, Pow2(e - 1075), Pow2(k - 52));
      }
      Pow2Sum(e - 1075 - (k - 52), k - 52);
      m := c * Pow2(e - 1075 - (k - 52));
      Regroup(c, Pow2(e - 1075 - (k - 52)), Pow2(k - 52));
    }
  }

  lemma ScaledMagnitude(bits: U64)
    requires IsInteger(bits) && Exponent(bits) >= 1075
    ensures Magnitude(bits) == (P52 + Fraction(bits)) * Pow2(Exponent(bits) - 1075)
    ensures P52 + Fraction(bits) < 2 * P52
  {
    hide Pow2;
  }

  lemma TooSmall(c: nat, small: nat, large: nat)
    requires c < 2 * P52 && 0 < small && 2 * small <= large
    ensures c * small < P52 * large
  {
    assert c * small < (2 * P52) * small by {
      Distribute(small, 2 * P52, c);
    }
    MulOrder(P52, 2 * small, large);
  }

  lemma Regroup(a: nat, b: nat, c: nat)
    ensures a * b * c == a * (b * c)
  {
  }

  lemma SmallMagnitude(bits: U64)
    requires IsInteger(bits) && Exponent(bits) < 1075
    ensures Magnitude(bits) < 2 * P52
  {
    var e, m := Exponent(bits), P52 + Fraction(bits);
    if e > 0 {
      Product(m, Pow2(1075 - e), m / Pow2(1075 - e));
    }
  }

  /** No integer pattern is nearer to a number below 2^1023 than the one it converts to. */
  lemma OfNatNearest(n: nat, bits: U64)
    requires n < Pow2(1023) && bits < P63 && IsInteger(bits)
    ensures IsInteger(OfNat(n)) && Distance(Magnitude(OfNat(n)), n) <= Distance(Magnitude(bits), n)
  {
    hide *;
    if n <= 2 * P52 {
      OfNatExact(n);
      DistanceZero(n);
    } else {
      LogRange(n);
      OfNatMagnitude(n);
      var shift := Log2(n) - 52;
      if Magnitude(bits) >= Pow2(Log2(n)) {
        var m := CoarseMagnitude(bits, Log2(n));
        RoundNearest(n, shift, m);
      } else {
        Pow2Sum(52, shift);
        Pow2Values();
        RoundNearest(n, shift, P52);
        DistanceBelow(Magnitude(bits), Pow2(Log2(n)), n);
      }
    }
  }

  lemma LogRange(n: nat)
    requires 2 * P52 < n < Pow2(1023)
    ensures 52 < Log2(n) <= 1022
  {
    Pow2Values();
    Pow2Gap(1022, Log2(n));
    Pow2Gap(Log2(n), 53);
  }

  lemma DistanceZero(n: nat)
    ensures Distance(n, n) == 0
  {
  }

  lemma DistanceBelow(a: int, b: int, n: int)
    requires a < b <= n
    ensures Distance(b, n) <= Distance(a, n)
  {
  }
}
