/** The numbers that binary64 patterns stand for, as section 3.4 of IEEE 754 defines them, and that being an
    integer pattern and its integer mean just that. */
module Reals {
  import opened Machine
  import opened Float64

  /** The number of a finite pattern. */
  function RealOf(bits: U64): real
    requires Exponent(bits) != 0x7ff
  {
    var m := if Exponent(bits) == 0 then Fraction(bits) else P52 + Fraction(bits);
    var e := if Exponent(bits) == 0 then 1 else Exponent(bits);
    var x := if e >= 1075 then m as real * Pow2(e - 1075) as real else m as real / Pow2(1075 - e) as real;
    if Negative(bits) then -x else x
  }

  /** A quotient of naturals is an integer exactly when it leaves no remainder. */
  lemma QuotientInteger(m: nat, p: nat, n: int)
    requires p > 0
    ensures m as real / p as real == n as real <==> m == n * p
  {
    var x := m as real / p as real;
    assert x * p as real == m as real;
    assert n as real * p as real == (n * p) as real;
    if m == n * p {
      assert x * p as real == n as real * p as real;
      Cancel(x, n as real, p as real);
    }
  }

  lemma Cancel(x: real, y: real, p: real)
    requires p > 0.0 && x * p == y * p
    ensures x == y
  {
    assert (x - y) * p == 0.0;
  }

  lemma NoRemainder(m: nat, p: nat, n: int)
    requires p > 0
    ensures m == n * p ==> m % p == 0 && m / p == n
    ensures m % p == 0 ==> m == (m / p) * p
  {
    if m == n * p {
      UniqueQuotient(m, p, n);
    }
  }

  lemma UniqueQuotient(m: nat, p: nat, n: int)
    requires p > 0 && m == n * p
    ensures m % p == 0 && m / p == n
  {
    if n < 0 {
      NegativeProduct(n, p);
    } else {
      ExactMultiple(n, p);
    }
  }

  lemma NegativeProduct(n: int, p: nat)
    requires n < 0 && p > 0
    ensures n * p < 0
  {
  }

  /** The size of a pattern, sign aside. */
  lemma SizeMeaning(bits: U64, n: int)
    requires bits < P63 && Exponent(bits) != 0x7ff
    ensures RealOf(bits) == n as real <==> IsInteger(bits) && Magnitude(bits) == n
  {
    var e, f := Exponent(bits), Fraction(bits);
    hide Exponent, Fraction;
    if e == 0 {
      Subnormal(f, n);
      hide Pow2;
    } else if e >= 1075 {
      var m, p := P52 + f, Pow2(e - 1075);
      assert m as real * p as real == (m * p) as real;
      hide Pow2;
    } else {
      var m, p := P52 + f, Pow2(1075 - e);
      QuotientInteger(m, p, n);
      NoRemainder(m, p, n);
      hide Pow2;
    }
  }

  lemma Subnormal(f: nat, n: int)
    requires f < P52
    ensures f as real / Pow2(1074) as real == n as real <==> f == 0 && n == 0
  {
    Pow2Values();
    Pow2Monotone(52, 1074);
    var p := Pow2(1074);
    hide Pow2;
    QuotientInteger(f, p, n);
    if f == n * p && n != 0 {
      SmallMultiple(f, p, n);
    }
  }

  lemma SmallMultiple(f: nat, p: nat, n: int)
    requires f < p && f == n * p
    ensures n == 0
  {
    if n > 0 {
      MulOrder(p, 1, n);
    } else if n < 0 {
      NegativeProduct(n, p);
    }
  }

  /** Patterns that differ in sign only. */
  predicate Opposite(a: U64, b: U64) {
    Negative(a) && !Negative(b) && Exponent(a) == Exponent(b) && Fraction(a) == Fraction(b)
  }

  lemma OppositeInteger(a: U64, b: U64)
    requires Opposite(a, b)
    ensures IsInteger(a) <==> IsInteger(b)
  {
    hide Exponent, Fraction, Negative, Pow2;
  }

  lemma OppositeValue(a: U64, b: U64)
    requires Opposite(a, b) && IsInteger(a) && IsInteger(b)
    ensures IntOf(a) + Magnitude(b) == 0
  {
    hide Exponent, Fraction, Pow2, IsInteger;
  }

  lemma OppositeReal(a: U64, b: U64)
    requires Opposite(a, b) && Exponent(a) != 0x7ff && Exponent(b) != 0x7ff
    ensures RealOf(a) == -RealOf(b)
  {
    hide Exponent, Fraction, Pow2, Negative;
  }

  /** A finite pattern stands for the integer `n` exactly when it is an integer pattern and its integer is `n`. */
  lemma IntegerMeaning(bits: U64, n: int)
    requires Exponent(bits) != 0x7ff
    ensures RealOf(bits) == n as real <==> IsInteger(bits) && IntOf(bits) == n
  {
    if bits < P63 {
      SizeMeaning(bits, n);
      hide RealOf, Magnitude, IsInteger, Exponent;
    } else {
      SignedFields(bits - P63);
      assert Opposite(bits, bits - P63);
      hide RealOf, Magnitude, IsInteger, Exponent, Fraction, Opposite, IntOf;
      OppositeInteger(bits, bits - P63);
      OppositeReal(bits, bits - P63);
      if IsInteger(bits) {
        OppositeValue(bits, bits - P63);
      }
      SizeMeaning(bits - P63, -n);
      assert -(n as real) == (-n) as real;
    }
  }
}
