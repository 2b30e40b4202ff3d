/** Machine-level vocabulary shared by both codecs: bytes, fixed-width integers,
    big-endian byte strings, errors, and the library services the codecs call. */
module Machine {

  type Byte = x: int | 0 <= x < 0x100
  type U32 = x: int | 0 <= x < 0x1_0000_0000
  type U64 = x: int | 0 <= x < 0x1_0000_0000_0000_0000
  type I64 = x: int | -0x8000_0000_0000_0000 <= x < 0x8000_0000_0000_0000

  const MAX_I64: int := 0x7FFF_FFFF_FFFF_FFFF
  const TWO_64: int := 0x1_0000_0000_0000_0000

  datatype Option<+T> = None | Some(value: T)

  /** Why a codec operation was refused. Wording is not modelled, only the kind. */
  datatype Error =
    | NestingLimit
    | UnexpectedEnd
    | TruncatedArgument
    | ReservedInfo
    | UnsupportedSimple
    | NegativeOutOfRange
    | TruncatedBytes
    | TruncatedText
    | InvalidUtf8
    | ArrayTooLong
    | MapTooLong
    | TrailingBytes
    | MissingField
    | WrongType
    | IntegerOverflow
    | NegativeUnsigned
    | NotInEnum
    | BadTimestamp

  datatype Result<+T> = Ok(value: T) | Err(error: Error) {
    predicate IsFailure() {
      Err?
    }

    function PropagateFailure<U>(): Result<U>
      requires Err?
    {
      Err(error)
    }

    function Extract(): T
      requires Ok?
    {
      value
    }
  }

  /** The library services the codecs call, kept arbitrary: UTF-8 validation, widening of a
      32-bit float pattern to a 64-bit one, and the text form of an instant. */
  datatype Runtime = Runtime(
    utf8: seq<Byte> -> bool,
    widen: U32 -> U64,
    formatTime: int -> seq<Byte>,
    parseTime: seq<Byte> -> Option<int>)

  function Pow256(w: nat): (p: nat)
    ensures p > 0
  {
    if w == 0 then 1 else 0x100 * Pow256(w - 1)
  }

  /** The low `w` bytes of `n`, most significant first. */
  function BigEndian(n: nat, w: nat): (s: seq<Byte>)
    ensures |s| == w
  {
    if w == 0 then [] else BigEndian(n / 0x100, w - 1) + [n % 0x100]
  }

  function FromBigEndian(s: seq<Byte>): nat
  {
    if s == [] then 0 else FromBigEndian(s[..|s| - 1]) * 0x100 + s[|s| - 1]
  }

  lemma {:induction false} BigEndianRoundTrip(n: nat, w: nat)
    requires n < Pow256(w)
    ensures FromBigEndian(BigEndian(n, w)) == n
  {
    if w > 0 {
      BigEndianRoundTrip(n / 0x100, w - 1);
      var s := BigEndian(n, w);
      assert s[..|s| - 1] == BigEndian(n / 0x100, w - 1);
    }
  }

  lemma {:induction false} FromBigEndianRoundTrip(s: seq<Byte>)
    ensures FromBigEndian(s) < Pow256(|s|)
    ensures BigEndian(FromBigEndian(s), |s|) == s
  {
    if s != [] {
      FromBigEndianRoundTrip(s[..|s| - 1]);
      var n := FromBigEndian(s);
      assert n / 0x100 == FromBigEndian(s[..|s| - 1]) && n % 0x100 == s[|s| - 1];
    }
  }

  /** Only the low `w` bytes of a number reach a `w`-byte field. */
  lemma {:induction false} BigEndianTruncates(n: nat, w: nat)
    ensures BigEndian(n, w) == BigEndian(n % Pow256(w), w)
  {
    if w > 0 {
      var p := Pow256(w - 1);
      SplitModulo(n, p);
      BigEndianTruncates(n / 0x100, w - 1);
    }
  }

  lemma SplitModulo(n: nat, p: nat)
    requires p > 0
    ensures n % (0x100 * p) / 0x100 == n / 0x100 % p
    ensures n % (0x100 * p) % 0x100 == n % 0x100
  {
    var h := n / 0x100;
    var q, r := h / p, h % p;
    assert n == (0x100 * p) * q + (0x100 * r + n % 0x100) by {
      assert h == p * q + r;
      assert (0x100 * p) * q == 0x100 * (p * q);
    }
    UniqueRemainder(n, 0x100 * p, q, 0x100 * r + n % 0x100);
  }

  lemma UniqueRemainder(n: nat, d: nat, q: nat, r: nat)
    requires r < d && n == d * q + r
    ensures n / d == q && n % d == r
  {
    var q', r' := n / d, n % d;
    assert n == d * q' + r';
    Distribute(d, q, q');
    NonzeroMultiple(d, q - q');
  }

  lemma Distribute(d: int, q: int, k: int)
    ensures d * q - d * k == d * (q - k)
  {
  }

  lemma NonzeroMultiple(d: int, k: int)
    requires d > 0
    ensures k >= 1 ==> d * k >= d
    ensures k <= -1 ==> d * k <= -d
  {
    assert d * k == d + d * (k - 1);
    assert d * k == d * (k + 1) - d;
  }

  /** The eight widths the codecs use, written out. */
  lemma Pow256Values()
    ensures Pow256(0) == 1 && Pow256(1) == 0x100 && Pow256(2) == 0x1_0000
    ensures Pow256(4) == 0x1_0000_0000 && Pow256(8) == TWO_64
  {
    assert Pow256(3) == 0x100_0000;
    assert Pow256(4) == 0x1_0000_0000;
    assert Pow256(5) == 0x100_0000_0000;
    assert Pow256(6) == 0x1_0000_0000_0000;
    assert Pow256(7) == 0x100_0000_0000_0000;
  }

  lemma ConcatAssociative(a: seq<Byte>, b: seq<Byte>, c: seq<Byte>)
    ensures (a + b) + c == a + (b + c)
  {
  }
}
