/** The wire format as a relation between trees and byte strings: definite-length items of
    section 3 of RFC 8949, with the simple values, float widths and integer range this codec
    takes. No algorithm here: a head may have any width that holds its argument. */
module Grammar {
  import opened Machine
  import opened CborTree
  import opened Encoder

  /** A head whose argument takes `w` extra bytes. */
  predicate HeadOfWidth(major: Major, n: nat, w: nat, info: nat, p: seq<Byte>)
    requires info < 32
  {
    n < Pow256(w) && p == [32 * major + info] + BigEndian(n, w)
  }

  predicate HeadForm(major: Major, n: nat, p: seq<Byte>) {
    || (n < 24 && p == [32 * major + n])
    || HeadOfWidth(major, n, 1, 24, p)
    || HeadOfWidth(major, n, 2, 25, p)
    || HeadOfWidth(major, n, 4, 26, p)
    || HeadOfWidth(major, n, 8, 27, p)
  }

  /** A string: its length in a head, then its bytes. */
  predicate StringForm(major: Major, s: seq<Byte>, p: seq<Byte>) {
    |s| <= |p| && HeadForm(major, |s|, p[..|p| - |s|]) && p[|p| - |s|..] == s
  }

  ghost predicate FloatForm(widen: U32 -> U64, bits: U64, p: seq<Byte>) {
    || p == [0xfb] + BigEndian(bits, 8)
    || exists x: U32 :: widen(x) == bits && p == [0xfa] + BigEndian(x, 4)
  }

  ghost predicate FrameForm(widen: U32 -> U64, f: Frame, p: seq<Byte>)
    requires Proper(f)
  {
    match f
    case Leaf(Uint(u)) => HeadForm(0, u, p)
    case Leaf(Int(i)) => i < 0 && HeadForm(1, -1 - i, p)
    case Leaf(Bool(b)) => p == [if b then 0xf5 else 0xf4]
    case Leaf(Null) => p == [0xf6] || p == [0xf7]
    case Leaf(Float(bits)) => FloatForm(widen, bits, p)
    case Leaf(Text(s)) => StringForm(3, s, p)
    case Leaf(Bytes(s)) => StringForm(2, s, p)
    case ArrayOf(n) => HeadForm(4, n, p)
    case MapOf(n) => HeadForm(5, n, p)
    case TagOf(num) => HeadForm(6, num, p)
  }

  /** `b` is a wire form of `v`. */
  ghost predicate Wire(widen: U32 -> U64, v: Value, b: seq<Byte>)
    decreases Size(v)
  {
    BuildKids(v);
    exists k | 0 <= k <= |b| :: FrameForm(widen, FrameOf(v), b[..k]) && WireAll(widen, Kids(v), b[k..])
  }

  ghost predicate WireAll(widen: U32 -> U64, vs: seq<Value>, b: seq<Byte>)
    decreases SizeAll(vs)
  {
    if vs == [] then b == []
    else exists k | 0 <= k <= |b| :: Wire(widen, vs[0], b[..k]) && WireAll(widen, vs[1..], b[k..])
  }

  lemma WireJoin(widen: U32 -> U64, v: Value, p: seq<Byte>, rest: seq<Byte>)
    requires Proper(FrameOf(v))
    requires FrameForm(widen, FrameOf(v), p) && WireAll(widen, Kids(v), rest)
    ensures Wire(widen, v, p + rest)
  {
    var b := p + rest;
    assert b[..|p|] == p && b[|p|..] == rest;
  }

  lemma WireAllJoin(widen: U32 -> U64, vs: seq<Value>, p: seq<Byte>, rest: seq<Byte>)
    requires vs != [] && Wire(widen, vs[0], p) && WireAll(widen, vs[1..], rest)
    ensures WireAll(widen, vs, p + rest)
  {
    var b := p + rest;
    assert b[..|p|] == p && b[|p|..] == rest;
  }

  lemma WireSplit(widen: U32 -> U64, v: Value, b: seq<Byte>) returns (p: seq<Byte>, rest: seq<Byte>)
    requires Wire(widen, v, b)
    ensures Proper(FrameOf(v))
    ensures b == p + rest && FrameForm(widen, FrameOf(v), p) && WireAll(widen, Kids(v), rest)
  {
    BuildKids(v);
    hide FrameForm, WireAll, FrameOf, Kids, Build;
    var k :| 0 <= k <= |b| && FrameForm(widen, FrameOf(v), b[..k]) && WireAll(widen, Kids(v), b[k..]);
    p, rest := b[..k], b[k..];
    assert b == b[..k] + b[k..];
  }

  lemma WireAllSplit(widen: U32 -> U64, vs: seq<Value>, b: seq<Byte>) returns (p: seq<Byte>, rest: seq<Byte>)
    requires vs != [] && WireAll(widen, vs, b)
    ensures b == p + rest && Wire(widen, vs[0], p) && WireAll(widen, vs[1..], rest)
  {
    hide Wire;
    var k :| 0 <= k <= |b| && Wire(widen, vs[0], b[..k]) && WireAll(widen, vs[1..], b[k..]);
    p, rest := b[..k], b[k..];
    assert b == b[..k] + b[k..];
  }

  lemma WireSingle(widen: U32 -> U64, v: Value, b: seq<Byte>)
    ensures WireAll(widen, [v], b) == Wire(widen, v, b)
  {
    assert [v][1..] == [];
    if Wire(widen, v, b) {
      assert b + [] == b;
      WireAllJoin(widen, [v], b, []);
    }
    if WireAll(widen, [v], b) {
      var p, rest := WireAllSplit(widen, [v], b);
      assert p == b;
    }
  }

  /** A head takes at least one byte, and one byte per item is the least a list can take. */
  lemma HeadFormNonempty(major: Major, n: nat, p: seq<Byte>)
    requires HeadForm(major, n, p)
    ensures 1 <= |p| <= 9 && p[0] / 32 == major && n < TWO_64
  {
    Pow256Values();
  }

  lemma FrameFormNonempty(widen: U32 -> U64, f: Frame, p: seq<Byte>)
    requires Proper(f) && FrameForm(widen, f, p)
    ensures |p| >= 1
  {
    match f
    case Leaf(Uint(u)) => HeadFormNonempty(0, u, p);
    case Leaf(Int(i)) => HeadFormNonempty(1, -1 - i, p);
    case Leaf(Text(s)) => HeadFormNonempty(3, |s|, p[..|p| - |s|]);
    case Leaf(Bytes(s)) => HeadFormNonempty(2, |s|, p[..|p| - |s|]);
    case ArrayOf(n) => HeadFormNonempty(4, n, p);
    case MapOf(n) => HeadFormNonempty(5, n, p);
    case TagOf(num) => HeadFormNonempty(6, num, p);
    case _ =>
  }

  lemma {:induction false} WireAllLength(widen: U32 -> U64, vs: seq<Value>, b: seq<Byte>)
    requires WireAll(widen, vs, b)
    ensures |vs| <= |b|
  {
    if vs != [] {
      var p, rest := WireAllSplit(widen, vs, b);
      var q, kids := WireSplit(widen, vs[0], p);
      FrameFormNonempty(widen, FrameOf(vs[0]), q);
      WireAllLength(widen, vs[1..], rest);
    }
  }

  /** Wire forms exist only for trees a decoder can return: normal, and with lengths a head can carry. */
  lemma {:induction false} WireAllNormal(widen: U32 -> U64, vs: seq<Value>, b: seq<Byte>)
    requires WireAll(widen, vs, b)
    ensures NormAll(vs) == vs && SizedAll(vs)
    decreases SizeAll(vs)
  {
    if vs != [] {
      var p, rest := WireAllSplit(widen, vs, b);
      var q, kids := WireSplit(widen, vs[0], p);
      WireAllNormal(widen, Kids(vs[0]), kids);
      WireAllNormal(widen, vs[1..], rest);
      FrameFormNormal(widen, vs[0], q);
    }
  }

  lemma FrameFormNormal(widen: U32 -> U64, v: Value, q: seq<Byte>)
    requires Proper(FrameOf(v)) && FrameForm(widen, FrameOf(v), q)
    requires NormAll(Kids(v)) == Kids(v) && SizedAll(Kids(v))
    ensures Norm(v) == v && Sized(v)
  {
    BuildKids(v);
    FrameFormLengths(widen, FrameOf(v), q);
    hide FrameForm, Kids, SizedAll, NormAll, Build;
  }

  lemma FrameFormLengths(widen: U32 -> U64, f: Frame, q: seq<Byte>)
    requires Proper(f) && FrameForm(widen, f, q)
    ensures f.Leaf? ==> NormLeaf(f.v) == f.v
    ensures f.Leaf? && f.v.Text? ==> |f.v.text| < TWO_64
    ensures f.Leaf? && f.v.Bytes? ==> |f.v.data| < TWO_64
    ensures f.ArrayOf? || f.MapOf? ==> f.n < TWO_64
  {
    hide HeadForm;
    match f
    case Leaf(Text(s)) => HeadFormNonempty(3, |s|, q[..|q| - |s|]);
    case Leaf(Bytes(s)) => HeadFormNonempty(2, |s|, q[..|q| - |s|]);
    case ArrayOf(n) => HeadFormNonempty(4, n, q);
    case MapOf(n) => HeadFormNonempty(5, n, q);
    case _ =>
  }

  /** Every encoding is a wire form of the normalised tree. */
  lemma HeadIsForm(major: Major, n: nat)
    requires n < TWO_64
    ensures HeadForm(major, n, Head(major, n))
  {
    Pow256Values();
  }

  lemma WideHead(major: Major, n: nat)
    requires n >= TWO_64
    ensures Head(major, n) == [32 * major + 27] + BigEndian(n, 8)
  {
  }

  /** The head of an argument of any size is a head of the argument's low 64 bits. */
  lemma HeadReads(major: Major, n: nat)
    ensures HeadForm(major, n % TWO_64, Head(major, n))
  {
    Pow256Values();
    hide BigEndian, Pow256, Head;
    if n >= TWO_64 {
      WideHead(major, n);
      BigEndianTruncates(n, 8);
      assert HeadOfWidth(major, n % TWO_64, 8, 27, Head(major, n));
    } else {
      HeadIsForm(major, n);
    }
  }

  lemma EncFrameIsForm(widen: U32 -> U64, v: Value)
    requires Sized(v)
    ensures Proper(FrameOf(v)) && Proper(NormFrame(FrameOf(v)))
    ensures FrameForm(widen, NormFrame(FrameOf(v)), EncFrame(FrameOf(v)))
  {
    match v
    case Uint(u) => HeadIsForm(0, u);
    case Int(i) => if i >= 0 { HeadIsForm(0, i); } else { HeadIsForm(1, -1 - i); }
    case Text(s) => StringIsForm(3, s);
    case Bytes(s) => StringIsForm(2, s);
    case Array(items) => HeadIsForm(4, |items|);
    case Map(entries) => HeadIsForm(5, |entries|);
    case Tag(num, _) => HeadIsForm(6, num);
    case _ =>
  }

  lemma StringIsForm(major: Major, s: seq<Byte>)
    requires |s| < TWO_64
    ensures StringForm(major, s, Head(major, |s|) + s)
  {
    HeadIsForm(major, |s|);
    var h := Head(major, |s|);
    assert (h + s)[..|h|] == h && (h + s)[|h|..] == s;
  }

  lemma {:induction false} EncAllIsWire(widen: U32 -> U64, vs: seq<Value>)
    requires SizedAll(vs)
    ensures WireAll(widen, NormAll(vs), EncAll(vs))
    decreases SizeAll(vs)
  {
    if vs != [] {
      var v := vs[0];
      NormView(v);
      EncAllIsWire(widen, Kids(v));
      EncFrameIsForm(widen, v);
      WireJoin(widen, Norm(v), EncFrame(FrameOf(v)), EncAll(Kids(v)));
      EncAllIsWire(widen, vs[1..]);
      assert NormAll(vs)[1..] == NormAll(vs[1..]);
      WireAllJoin(widen, NormAll(vs), Enc(v), EncAll(vs[1..]));
    }
  }
}
