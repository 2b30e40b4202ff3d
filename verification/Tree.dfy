/** The value tree both ends of the Go codec work on, seen as a head (`Frame`) and a list of
    children. Every recursive definition and proof in the project follows that view, so a map
    is read as the list key, value, key, value, ... that the code walks. */
module CborTree {
  import opened Machine

  datatype Value =
    | Uint(u: U64)
    | Int(i: I64)
    | Bool(b: bool)
    | Float(bits: U64)
    | Null
    | Text(text: seq<Byte>)
    | Bytes(data: seq<Byte>)
    | Array(items: seq<Value>)
    | Map(entries: seq<Entry>)
    | Tag(num: U64, inner: Value)

  datatype Entry = Entry(key: Value, val: Value)

  /** What an item's head announces: a complete leaf, or a container and its count. */
  datatype Frame =
    | Leaf(v: Value)
    | ArrayOf(n: nat)
    | MapOf(n: nat)
    | TagOf(num: U64)

  predicate IsLeaf(v: Value) {
    !v.Array? && !v.Map? && !v.Tag?
  }

  function FrameOf(v: Value): Frame {
    match v
    case Array(items) => ArrayOf(|items|)
    case Map(entries) => MapOf(|entries|)
    case Tag(num, _) => TagOf(num)
    case _ => Leaf(v)
  }

  /** How many items follow the head. */
  function Arity(f: Frame): nat {
    match f
    case Leaf(_) => 0
    case ArrayOf(n) => n
    case MapOf(n) => 2 * n
    case TagOf(_) => 1
  }

  function Flatten(es: seq<Entry>): (vs: seq<Value>)
    ensures |vs| == 2 * |es|
  {
    if es == [] then [] else [es[0].key, es[0].val] + Flatten(es[1..])
  }

  function Pair(vs: seq<Value>): (es: seq<Entry>)
    ensures |es| == |vs| / 2
  {
    if |vs| < 2 then [] else [Entry(vs[0], vs[1])] + Pair(vs[2..])
  }

  function Build(f: Frame, kids: seq<Value>): Value
    requires |kids| == Arity(f)
  {
    match f
    case Leaf(v) => v
    case ArrayOf(_) => Array(kids)
    case MapOf(_) => Map(Pair(kids))
    case TagOf(num) => Tag(num, kids[0])
  }

  function Size(v: Value): nat
  {
    match v
    case Array(items) => 1 + SizeAll(items)
    case Map(entries) => 1 + SizeEntries(entries)
    case Tag(_, inner) => 2 + Size(inner)
    case _ => 1
  }

  function SizeAll(vs: seq<Value>): nat
  {
    if vs == [] then 0 else 1 + Size(vs[0]) + SizeAll(vs[1..])
  }

  function SizeEntries(es: seq<Entry>): nat
  {
    if es == [] then 0 else SizeEntry(es[0]) + SizeEntries(es[1..])
  }

  function SizeEntry(e: Entry): nat
  {
    2 + Size(e.key) + Size(e.val)
  }

  lemma {:induction false} FlattenSnoc(es: seq<Entry>, e: Entry)
    ensures Flatten(es + [e]) == Flatten(es) + [e.key, e.val]
  {
    if es != [] {
      assert (es + [e])[1..] == es[1..] + [e];
      FlattenSnoc(es[1..], e);
    }
  }

  lemma {:induction false} FlattenAt(es: seq<Entry>, k: nat)
    requires k < |es|
    ensures Flatten(es)[2 * k] == es[k].key && Flatten(es)[2 * k + 1] == es[k].val
  {
    if k > 0 {
      FlattenAt(es[1..], k - 1);
    }
  }

  lemma {:induction false} SizeFlatten(es: seq<Entry>)
    ensures SizeAll(Flatten(es)) == SizeEntries(es)
  {
    if es != [] {
      SizeFlatten(es[1..]);
      var vs := Flatten(es);
      assert vs[1..][1..] == Flatten(es[1..]);
    }
  }

  /** The items that follow the head, in wire order. */
  function Kids(v: Value): (ks: seq<Value>)
    ensures SizeAll(ks) < Size(v)
    ensures |ks| == Arity(FrameOf(v))
  {
    match v
    case Array(items) => items
    case Map(entries) => SizeFlatten(entries); Flatten(entries)
    case Tag(_, inner) => assert [inner][1..] == []; [inner]
    case _ => []
  }

  lemma {:induction false} PairFlatten(es: seq<Entry>)
    ensures Pair(Flatten(es)) == es
  {
    if es != [] {
      PairFlatten(es[1..]);
      assert Flatten(es)[2..] == Flatten(es[1..]);
    }
  }

  lemma {:induction false} FlattenPair(vs: seq<Value>)
    requires |vs| % 2 == 0
    ensures Flatten(Pair(vs)) == vs
  {
    if vs != [] {
      FlattenPair(vs[2..]);
      assert Pair(vs)[1..] == Pair(vs[2..]);
    }
  }

  /** A frame a value can have: a leaf frame carries a leaf. */
  predicate Proper(f: Frame) {
    f.Leaf? ==> IsLeaf(f.v)
  }

  /** Head and children determine the value, and every proper head with the right number of
      children is some value's. */
  lemma BuildKids(v: Value)
    ensures Proper(FrameOf(v)) && Build(FrameOf(v), Kids(v)) == v
  {
    if v.Map? {
      PairFlatten(v.entries);
    }
  }

  lemma KidsBuild(f: Frame, kids: seq<Value>)
    requires Proper(f) && |kids| == Arity(f)
    ensures FrameOf(Build(f, kids)) == f && Kids(Build(f, kids)) == kids
  {
    if f.MapOf? {
      FlattenPair(kids);
    }
  }

  /** Nesting height: leaves and empty containers are 0, a map counts its keys too. */
  function Height(v: Value): nat
    decreases Size(v)
  {
    var ks := Kids(v);
    if ks == [] then 0 else 1 + HeightAll(ks)
  }

  function HeightAll(vs: seq<Value>): nat
    decreases SizeAll(vs)
  {
    if vs == [] then 0
    else
      var h, t := Height(vs[0]), HeightAll(vs[1..]);
      if h > t then h else t
  }

  /** Every text in the tree passes the platform's UTF-8 check. */
  predicate TextOk(rt: Runtime, v: Value)
    decreases Size(v)
  {
    (v.Text? ==> rt.utf8(v.text)) && TextOkAll(rt, Kids(v))
  }

  predicate TextOkAll(rt: Runtime, vs: seq<Value>)
    decreases SizeAll(vs)
  {
    vs == [] || (TextOk(rt, vs[0]) && TextOkAll(rt, vs[1..]))
  }

  /** Every length fits the 64-bit argument of a head. (A Go length is an int, so below 2^63.) */
  predicate Sized(v: Value)
    decreases Size(v)
  {
    && (v.Text? ==> |v.text| < TWO_64)
    && (v.Bytes? ==> |v.data| < TWO_64)
    && (v.Array? ==> |v.items| < TWO_64)
    && (v.Map? ==> |v.entries| < TWO_64)
    && SizedAll(Kids(v))
  }

  predicate SizedAll(vs: seq<Value>)
    decreases SizeAll(vs)
  {
    vs == [] || (Sized(vs[0]) && SizedAll(vs[1..]))
  }

  lemma {:induction false} SizedAt(vs: seq<Value>, k: nat)
    requires k < |vs|
    ensures SizedAll(vs) ==> Sized(vs[k])
    ensures Size(vs[k]) < SizeAll(vs)
  {
    if k > 0 {
      SizedAt(vs[1..], k - 1);
    }
  }

  function NormLeaf(v: Value): Value {
    if v.Int? && v.i >= 0 then Uint(v.i) else v
  }

  function NormFrame(f: Frame): (g: Frame)
    ensures Arity(g) == Arity(f)
  {
    if f.Leaf? then Leaf(NormLeaf(f.v)) else f
  }

  /** The tree a decoder can return for this one: a non-negative `Int` is a `Uint`, everywhere. */
  function Norm(v: Value): Value
    decreases Size(v)
  {
    Build(NormFrame(FrameOf(v)), NormAll(Kids(v)))
  }

  function NormAll(vs: seq<Value>): (ws: seq<Value>)
    ensures |ws| == |vs|
    decreases SizeAll(vs)
  {
    if vs == [] then [] else [Norm(vs[0])] + NormAll(vs[1..])
  }

  lemma NormView(v: Value)
    ensures FrameOf(Norm(v)) == NormFrame(FrameOf(v)) && Kids(Norm(v)) == NormAll(Kids(v))
  {
    BuildKids(v);
    KidsBuild(NormFrame(FrameOf(v)), NormAll(Kids(v)));
  }

  /** Normalising changes neither height, text validity nor lengths, and repeating it does nothing. */
  lemma {:induction false} NormAllKeeps(rt: Runtime, vs: seq<Value>)
    ensures HeightAll(NormAll(vs)) == HeightAll(vs)
    ensures TextOkAll(rt, NormAll(vs)) == TextOkAll(rt, vs)
    ensures SizedAll(NormAll(vs)) == SizedAll(vs)
    decreases SizeAll(vs)
  {
    if vs != [] {
      var v, w := vs[0], Norm(vs[0]);
      NormView(v);
      NormAllKeeps(rt, Kids(v));
      NormAllKeeps(rt, vs[1..]);
      NormSameLengths(v);
      assert NormAll(vs) == [w] + NormAll(vs[1..]);
    }
  }

  lemma {:induction false} NormTwiceAll(vs: seq<Value>)
    ensures NormAll(NormAll(vs)) == NormAll(vs)
    decreases SizeAll(vs)
  {
    if vs != [] {
      NormTwice(vs[0]);
      NormTwiceAll(vs[1..]);
      hide Norm;
      assert NormAll(vs) == [Norm(vs[0])] + NormAll(vs[1..]);
    }
  }

  lemma {:induction false} NormTwice(v: Value)
    ensures Norm(Norm(v)) == Norm(v)
    decreases Size(v)
  {
    NormTwiceAll(Kids(v));
    NormView(v);
    NormView(Norm(v));
    BuildKids(Norm(v));
    BuildKids(Norm(Norm(v)));
  }

  lemma NormSameLengths(v: Value)
    ensures Norm(v).Text? == v.Text? && (v.Text? ==> Norm(v) == v)
    ensures Norm(v).Bytes? == v.Bytes? && (v.Bytes? ==> Norm(v) == v)
    ensures Norm(v).Array? == v.Array? && (v.Array? ==> |Norm(v).items| == |v.items|)
    ensures Norm(v).Map? == v.Map? && (v.Map? ==> |Norm(v).entries| == |v.entries|)
  {
  }

  /** Facts about one-item lists, to read a list lemma at a single value. */
  lemma Single(rt: Runtime, v: Value)
    ensures HeightAll([v]) == Height(v)
    ensures TextOkAll(rt, [v]) == TextOk(rt, v)
    ensures SizedAll([v]) == Sized(v)
    ensures NormAll([v]) == [Norm(v)]
  {
    assert [v][1..] == [];
  }

  lemma NormKeeps(rt: Runtime, v: Value)
    ensures Height(Norm(v)) == Height(v)
    ensures TextOk(rt, Norm(v)) == TextOk(rt, v)
    ensures Sized(Norm(v)) == Sized(v)
    ensures Norm(Norm(v)) == Norm(v)
  {
    NormAllKeeps(rt, [v]);
    Single(rt, v);
    Single(rt, Norm(v));
    NormTwice(v);
  }
}
