/** Orders on keys: bytewise order of encodings (section 4.2.1 of RFC 8949) and length-first order of
    texts (section 4.2.3). For the heads this encoder writes they are the same order. */
module KeyOrder {
  import opened Machine
  import opened CborTree
  import opened Encoder

  /** Bytewise lexicographic order, a proper prefix first. */
  predicate LexLess(a: seq<Byte>, b: seq<Byte>) {
    b != [] && (a == [] || a[0] < b[0] || (a[0] == b[0] && LexLess(a[1..], b[1..])))
  }

  /** Shorter first, equal lengths bytewise. */
  predicate LengthFirst(s: seq<Byte>, t: seq<Byte>) {
    |s| < |t| || (|s| == |t| && LexLess(s, t))
  }

  lemma {:induction false} LexPrefix(p: seq<Byte>, a: seq<Byte>, b: seq<Byte>)
    ensures LexLess(p + a, p + b) == LexLess(a, b)
  {
    if p == [] {
      assert p + a == a && p + b == b;
    } else {
      assert (p + a)[1..] == p[1..] + a && (p + b)[1..] == p[1..] + b;
      LexPrefix(p[1..], a, b);
    }
  }

  lemma {:induction false} LexAsymmetric(a: seq<Byte>, b: seq<Byte>)
    ensures !(LexLess(a, b) && LexLess(b, a))
    ensures a == b ==> !LexLess(a, b)
  {
    if a != [] && b != [] {
      LexAsymmetric(a[1..], b[1..]);
    }
  }

  lemma {:induction false} LexTotal(a: seq<Byte>, b: seq<Byte>)
    ensures a == b || LexLess(a, b) || LexLess(b, a)
  {
    if a != [] && b != [] {
      LexTotal(a[1..], b[1..]);
      assert a == [a[0]] + a[1..] && b == [b[0]] + b[1..];
    }
  }

  lemma {:induction false} LexTransitive(a: seq<Byte>, b: seq<Byte>, c: seq<Byte>)
    requires LexLess(a, b) && LexLess(b, c)
    ensures LexLess(a, c)
  {
    if a != [] && a[0] == b[0] == c[0] {
      LexTransitive(a[1..], b[1..], c[1..]);
    }
  }

  lemma LengthFirstTransitive(a: seq<Byte>, b: seq<Byte>, c: seq<Byte>)
    requires LengthFirst(a, b) && LengthFirst(b, c)
    ensures LengthFirst(a, c)
  {
    if |a| == |b| == |c| {
      LexTransitive(a, b, c);
    }
  }

  lemma LengthFirstIrreflexive(a: seq<Byte>)
    ensures !LengthFirst(a, a)
  {
    LexAsymmetric(a, a);
  }

  lemma FirstByteDecides(a: seq<Byte>, b: seq<Byte>)
    requires a != [] && b != [] && a[0] < b[0]
    ensures LexLess(a, b)
  {
  }

  /** Big-endian fields of one width order as the numbers they hold, whatever follows them. */
  lemma {:induction false} BigEndianOrder(m: nat, n: nat, w: nat, x: seq<Byte>, y: seq<Byte>)
    requires m < n < Pow256(w)
    ensures LexLess(BigEndian(m, w) + x, BigEndian(n, w) + y)
    decreases w
  {
    var a, b := BigEndian(m / 0x100, w - 1), BigEndian(n / 0x100, w - 1);
    ConcatAssociative(a, [m % 0x100], x);
    ConcatAssociative(b, [n % 0x100], y);
    if m / 0x100 < n / 0x100 {
      BigEndianOrder(m / 0x100, n / 0x100, w - 1, [m % 0x100] + x, [n % 0x100] + y);
    } else {
      FirstByteDecides([m % 0x100] + x, [n % 0x100] + y);
      LexPrefix(a, [m % 0x100] + x, [n % 0x100] + y);
    }
  }

  lemma FieldOrder(lead: Byte, m: nat, n: nat, w: nat, x: seq<Byte>, y: seq<Byte>)
    requires m < n < Pow256(w)
    ensures LexLess([lead] + BigEndian(m, w) + x, [lead] + BigEndian(n, w) + y)
  {
    ConcatAssociative([lead], BigEndian(m, w), x);
    ConcatAssociative([lead], BigEndian(n, w), y);
    BigEndianOrder(m, n, w, x, y);
    LexPrefix([lead], BigEndian(m, w) + x, BigEndian(n, w) + y);
  }

  /** Additional information in the lead byte of a head. */
  function Info(n: nat): nat {
    if n < 24 then n else if n < 0x100 then 24 else if n < 0x1_0000 then 25 else if n < 0x1_0000_0000 then 26 else 27
  }

  lemma LeadByte(major: Major, n: nat)
    ensures Head(major, n)[0] == 32 * major + Info(n)
  {
  }

  /** Heads of one major type order as their arguments, whatever follows them. */
  lemma HeadOrder(major: Major, m: nat, n: nat, x: seq<Byte>, y: seq<Byte>)
    requires m < n < TWO_64
    ensures LexLess(Head(major, m) + x, Head(major, n) + y)
  {
    LeadByte(major, m);
    LeadByte(major, n);
    if Info(m) < Info(n) {
      FirstByteDecides(Head(major, m) + x, Head(major, n) + y);
    } else {
      Pow256Values();
      hide LexLess, BigEndian, Pow256;
      var lead := 32 * major + Info(n);
      if n < 0x100 {
        FieldOrder(lead, m, n, 1, x, y);
      } else if n < 0x1_0000 {
        FieldOrder(lead, m, n, 2, x, y);
      } else if n < 0x1_0000_0000 {
        FieldOrder(lead, m, n, 4, x, y);
      } else {
        FieldOrder(lead, m, n, 8, x, y);
      }
    }
  }

  lemma EncText(s: seq<Byte>)
    ensures Enc(Text(s)) == Head(3, |s|) + s
  {
    assert EncAll([]) == [];
    hide Head;
  }

  lemma TextsInOrder(s: seq<Byte>, t: seq<Byte>)
    requires |t| < TWO_64 && LengthFirst(s, t)
    ensures LexLess(Enc(Text(s)), Enc(Text(t)))
  {
    hide Enc, Head, LexLess;
    EncText(s);
    EncText(t);
    if |s| < |t| {
      HeadOrder(3, |s|, |t|, s, t);
    } else {
      LexPrefix(Head(3, |s|), s, t);
    }
  }

  /** The two canonical key orders of RFC 8949 coincide on encoded texts. */
  lemma KeyOrdersCoincide(s: seq<Byte>, t: seq<Byte>)
    requires |s| < TWO_64 && |t| < TWO_64
    ensures LexLess(Enc(Text(s)), Enc(Text(t))) <==> LengthFirst(s, t)
  {
    hide Enc;
    if LengthFirst(s, t) {
      TextsInOrder(s, t);
    } else if s == t {
      LexAsymmetric(Enc(Text(s)), Enc(Text(t)));
    } else {
      LexTotal(s, t);
      TextsInOrder(t, s);
      LexAsymmetric(Enc(Text(s)), Enc(Text(t)));
    }
  }
}
