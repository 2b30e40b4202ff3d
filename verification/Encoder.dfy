/** The Go encoder: what it writes for a tree, and the methods that append it to a buffer. */
module Encoder {
  import opened Machine
  import opened CborTree

  type Major = x: int | 0 <= x < 8

  /** A minimal-width head. An argument of 2^64 or more loses its high bits. */
  function Head(major: Major, n: nat): (s: seq<Byte>)
    ensures |s| >= 1
  {
    if n < 24 then [32 * major + n]
    else if n < 0x100 then [32 * major + 24] + BigEndian(n, 1)
    else if n < 0x1_0000 then [32 * major + 25] + BigEndian(n, 2)
    else if n < 0x1_0000_0000 then [32 * major + 26] + BigEndian(n, 4)
    else [32 * major + 27] + BigEndian(n, 8)
  }

  function EncFrame(f: Frame): (s: seq<Byte>)
    requires Proper(f)
    ensures |s| >= 1
  {
    match f
    case Leaf(Uint(u)) => Head(0, u)
    case Leaf(Int(i)) => if i >= 0 then Head(0, i) else Head(1, -1 - i)
    case Leaf(Bool(b)) => [if b then 0xf5 else 0xf4]
    case Leaf(Null) => [0xf6]
    case Leaf(Float(bits)) => [0xfb] + BigEndian(bits, 8)
    case Leaf(Text(s)) => Head(3, |s|) + s
    case Leaf(Bytes(s)) => Head(2, |s|) + s
    case ArrayOf(n) => Head(4, n)
    case MapOf(n) => Head(5, n)
    case TagOf(num) => Head(6, num)
  }

  /** The bytes of a tree. */
  function Enc(v: Value): seq<Byte>
    decreases Size(v)
  {
    BuildKids(v);
    EncFrame(FrameOf(v)) + EncAll(Kids(v))
  }

  function EncAll(vs: seq<Value>): seq<Byte>
    decreases SizeAll(vs)
  {
    if vs == [] then [] else Enc(vs[0]) + EncAll(vs[1..])
  }

  lemma {:induction false} EncAllAppend(vs: seq<Value>, ws: seq<Value>)
    ensures EncAll(vs + ws) == EncAll(vs) + EncAll(ws)
  {
    if vs == [] {
      assert vs + ws == ws;
    } else {
      assert (vs + ws)[1..] == vs[1..] + ws;
      EncAllAppend(vs[1..], ws);
    }
  }

  lemma EncAllSingle(v: Value)
    ensures EncAll([v]) == Enc(v)
  {
    assert [v][1..] == [];
  }

  lemma EncAllSnoc(vs: seq<Value>, i: nat)
    requires i < |vs|
    ensures EncAll(vs[..i + 1]) == EncAll(vs[..i]) + Enc(vs[i])
  {
    assert vs[..i + 1] == vs[..i] + [vs[i]];
    EncAllAppend(vs[..i], [vs[i]]);
    EncAllSingle(vs[i]);
  }

  /** A growing output list: Go's `out *[]byte`, TypeScript's `out: number[]`. */
  class Buffer {
    var data: seq<Byte>

    constructor ()
      ensures data == []
    {
      data := [];
    }
  }

  /** The byte left of `n` after `k` right shifts by 8: the Go conversion `byte(n >> 8*k)` and the
      TypeScript `Number((n >> 8k) & 0xff)`. */
  function ByteAt(n: nat, k: nat): Byte
  {
    if k == 0 then n % 0x100 else ByteAt(n / 0x100, k - 1)
  }

  lemma {:induction false} BigEndianBytes(n: nat, w: nat)
    ensures forall k | 0 <= k < w :: BigEndian(n, w)[k] == ByteAt(n, w - 1 - k)
  {
    if w > 0 {
      BigEndianBytes(n / 0x100, w - 1);
      forall k | 0 <= k < w
        ensures BigEndian(n, w)[k] == ByteAt(n, w - 1 - k)
      {
        if k < w - 1 {
          assert BigEndian(n, w)[k] == BigEndian(n / 0x100, w - 1)[k];
        }
      }
    }
  }

  /** A lead byte and the shifts the code writes out are a lead byte and a big-endian field. */
  lemma LeadByte1(lead: Byte, n: nat)
    ensures [lead] + BigEndian(n, 1) == [lead, ByteAt(n, 0)]
  {
    BigEndianBytes(n, 1);
  }

  lemma LeadByte2(lead: Byte, n: nat)
    ensures [lead] + BigEndian(n, 2) == [lead, ByteAt(n, 1), ByteAt(n, 0)]
  {
    BigEndianBytes(n, 2);
  }

  lemma LeadByte4(lead: Byte, n: nat)
    ensures [lead] + BigEndian(n, 4) == [lead, ByteAt(n, 3), ByteAt(n, 2), ByteAt(n, 1), ByteAt(n, 0)]
  {
    BigEndianBytes(n, 4);
  }

  lemma LeadByte8(lead: Byte, n: nat)
    ensures [lead] + BigEndian(n, 8) == [lead,
              ByteAt(n, 7), ByteAt(n, 6), ByteAt(n, 5), ByteAt(n, 4),
              ByteAt(n, 3), ByteAt(n, 2), ByteAt(n, 1), ByteAt(n, 0)]
  {
    BigEndianBytes(n, 8);
  }

  method CborHead(major: Major, n: U64, out: Buffer)
    modifies out
    ensures out.data == old(out.data) + Head(major, n)
  {
    hide BigEndian, ByteAt;
    var mt := 32 * major;
    if n < 24 {
      out.data := out.data + [mt + n];
    } else if n < 0x100 {
      LeadByte1(mt + 24, n);
      out.data := out.data + [mt + 24, ByteAt(n, 0)];
    } else if n < 0x1_0000 {
      LeadByte2(mt + 25, n);
      out.data := out.data + [mt + 25, ByteAt(n, 1), ByteAt(n, 0)];
    } else if n < 0x1_0000_0000 {
      LeadByte4(mt + 26, n);
      out.data := out.data + [mt + 26, ByteAt(n, 3), ByteAt(n, 2), ByteAt(n, 1), ByteAt(n, 0)];
    } else {
      LeadByte8(mt + 27, n);
      out.data := out.data + [mt + 27,
        ByteAt(n, 7), ByteAt(n, 6), ByteAt(n, 5), ByteAt(n, 4),
        ByteAt(n, 3), ByteAt(n, 2), ByteAt(n, 1), ByteAt(n, 0)];
    }
  }

  /** A leaf is its frame and nothing else; a container is its head and its items. */
  lemma EncArms(v: Value)
    ensures IsLeaf(v) ==> Enc(v) == EncFrame(Leaf(v))
    ensures v.Array? ==> Enc(v) == Head(4, |v.items|) + EncAll(v.items)
    ensures v.Map? ==> Enc(v) == Head(5, |v.entries|) + EncAll(Flatten(v.entries))
    ensures v.Tag? ==> Enc(v) == Head(6, v.num) + Enc(v.inner)
  {
    assert Enc(v) == EncFrame(FrameOf(v)) + EncAll(Kids(v));
    if v.Tag? {
      EncAllSingle(v.inner);
    }
  }

  /** What `Sized` says of each container. */
  lemma SizedArms(v: Value)
    requires Sized(v)
    ensures v.Array? ==> |v.items| < TWO_64 && SizedAll(v.items) && SizeAll(v.items) < Size(v)
    ensures v.Map? ==> |v.entries| < TWO_64 && SizedAll(Flatten(v.entries)) && SizeAll(Flatten(v.entries)) < Size(v)
    ensures v.Tag? ==> Sized(v.inner) && Size(v.inner) < Size(v)
  {
    if v.Map? {
      SizeFlatten(v.entries);
    } else if v.Tag? {
      SizedAt(Kids(v), 0);
    }
  }

  method CborEnc(v: Value, out: Buffer)
    requires Sized(v)
    modifies out
    ensures out.data == old(out.data) + Enc(v)
    decreases Size(v)
  {
    EncArms(v);
    SizedArms(v);
    ghost var before := out.data;
    hide Head, BigEndian, ByteAt;
    match v {
      case Uint(u) =>
        CborHead(0, u, out);
      case Int(i) =>
        if i >= 0 {
          CborHead(0, i, out);
        } else {
          // -(x + 1) stays inside int64 even for the least int64.
          var next: I64 := i + 1;
          var neg: I64 := -next;
          CborHead(1, neg, out);
        }
      case Bool(b) =>
        if b {
          out.data := out.data + [0xf5];
        } else {
          out.data := out.data + [0xf4];
        }
      case Null =>
        out.data := out.data + [0xf6];
      case Float(bits) =>
        LeadByte8(0xfb, bits);
        out.data := out.data + [0xfb,
          ByteAt(bits, 7), ByteAt(bits, 6), ByteAt(bits, 5), ByteAt(bits, 4),
          ByteAt(bits, 3), ByteAt(bits, 2), ByteAt(bits, 1), ByteAt(bits, 0)];
      case Text(s) =>
        CborHead(3, |s|, out);
        out.data := out.data + s;
        ConcatAssociative(before, Head(3, |s|), s);
      case Bytes(s) =>
        CborHead(2, |s|, out);
        out.data := out.data + s;
        ConcatAssociative(before, Head(2, |s|), s);
      case Array(items) =>
        CborHead(4, |items|, out);
        CborEncItems(items, out);
        ConcatAssociative(before, Head(4, |items|), EncAll(items));
      case Map(entries) =>
        CborHead(5, |entries|, out);
        CborEncEntries(entries, out);
        ConcatAssociative(before, Head(5, |entries|), EncAll(Flatten(entries)));
      case Tag(num, inner) =>
        CborHead(6, num, out);
        CborEnc(inner, out);
        ConcatAssociative(before, Head(6, num), Enc(inner));
    }
  }

  /** The array arm's loop. */
  method CborEncItems(items: seq<Value>, out: Buffer)
    requires SizedAll(items)
    modifies out
    ensures out.data == old(out.data) + EncAll(items)
    decreases SizeAll(items)
  {
    for k := 0 to |items|
      invariant out.data == old(out.data) + EncAll(items[..k])
    {
      SizedAt(items, k);
      EncAllSnoc(items, k);
      CborEnc(items[k], out);
      ConcatAssociative(old(out.data), EncAll(items[..k]), Enc(items[k]));
    }
    assert items[..|items|] == items;
  }

  /** The map arm's loop: each entry's key, then its value. */
  method CborEncEntries(entries: seq<Entry>, out: Buffer)
    requires SizedAll(Flatten(entries))
    modifies out
    ensures out.data == old(out.data) + EncAll(Flatten(entries))
    decreases SizeAll(Flatten(entries))
  {
    for k := 0 to |entries|
      invariant out.data == old(out.data) + EncAll(Flatten(entries[..k]))
    {
      EntryStep(entries, k);
      EntrySized(entries, k);
      ghost var done, e := EncAll(Flatten(entries[..k])), Enc(entries[k].key);
      CborEnc(entries[k].key, out);
      ConcatAssociative(old(out.data), done, e);
      CborEnc(entries[k].val, out);
      ConcatAssociative(old(out.data), done + e, Enc(entries[k].val));
    }
    assert entries[..|entries|] == entries;
  }

  lemma EntryStep(es: seq<Entry>, k: nat)
    requires k < |es|
    ensures EncAll(Flatten(es[..k + 1])) == EncAll(Flatten(es[..k])) + Enc(es[k].key) + Enc(es[k].val)
  {
    var key, val := es[k].key, es[k].val;
    assert es[..k + 1] == es[..k] + [es[k]];
    FlattenSnoc(es[..k], es[k]);
    EncAllAppend(Flatten(es[..k]), [key, val]);
    EncAllPair(key, val);
  }

  lemma EncAllPair(a: Value, b: Value)
    ensures EncAll([a, b]) == Enc(a) + Enc(b)
  {
    EncAllAppend([a], [b]);
    EncAllSingle(a);
    EncAllSingle(b);
    assert [a] + [b] == [a, b];
  }

  lemma {:induction false} EntrySized(es: seq<Entry>, k: nat)
    requires k < |es|
    ensures SizedAll(Flatten(es)) ==> Sized(es[k].key) && Sized(es[k].val)
    ensures Size(es[k].key) < SizeAll(Flatten(es)) && Size(es[k].val) < SizeAll(Flatten(es))
  {
    SizedAt(Flatten(es), 2 * k);
    SizedAt(Flatten(es), 2 * k + 1);
    FlattenAt(es, k);
  }

  method CborEncode(v: Value) returns (b: seq<Byte>)
    requires Sized(v)
    ensures b == Enc(v)
  {
    var out := new Buffer();
    CborEnc(v, out);
    b := out.data;
  }
}
