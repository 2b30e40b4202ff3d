/** The Go decoder as a function of the bytes from the cursor on: the value read and the number of
    bytes it took, or why it was refused. Soundness and completeness against the grammar. */
module Parser {
  import opened Machine
  import opened CborTree
  import opened Encoder
  import opened Grammar

  const DEPTH_LIMIT: int := 64

  /** The argument announced by the low five bits of the lead byte, and the length of the head. */
  function ReadArg(s: seq<Byte>, low: nat): (r: Result<(U64, nat)>)
    requires s != [] && low < 32
    ensures r.Ok? ==> 1 <= r.value.1 <= |s|
    ensures r.Ok? && low <= 26 ==> r.value.0 < 0x1_0000_0000
  {
    if low < 24 then Ok((low, 1))
    else if low > 27 then Err(ReservedInfo)
    else
      var w := if low == 24 then 1 else if low == 25 then 2 else if low == 26 then 4 else 8;
      if |s| < 1 + w then Err(TruncatedArgument)
      else
        FieldBound(s[1..1 + w]);
        Ok((FromBigEndian(s[1..1 + w]), 1 + w))
  }

  lemma FieldBound(s: seq<Byte>)
    ensures FromBigEndian(s) < Pow256(|s|)
    ensures |s| == 1 ==> FromBigEndian(s) < 0x100
    ensures |s| == 2 ==> FromBigEndian(s) < 0x1_0000
    ensures |s| == 4 ==> FromBigEndian(s) < 0x1_0000_0000
    ensures |s| == 8 ==> FromBigEndian(s) < TWO_64
  {
    FromBigEndianRoundTrip(s);
    Pow256Values();
  }

  /** The part of an item before its children: head, and for strings the contents. */
  function ParseFrame(rt: Runtime, s: seq<Byte>): (r: Result<(Frame, nat)>)
    ensures r.Ok? ==> 1 <= r.value.1 <= |s| && Proper(r.value.0)
  {
    if s == [] then Err(UnexpectedEnd)
    else
      var major, low := s[0] / 32, s[0] % 32;
      if major == 7 then
        if low == 20 then Ok((Leaf(Bool(false)), 1))
        else if low == 21 then Ok((Leaf(Bool(true)), 1))
        else if low == 22 || low == 23 then Ok((Leaf(Null), 1))
        else if low == 26 then
          var (bits, k) :- ReadArg(s, low);
          Ok((Leaf(Float(rt.widen(bits))), k))
        else if low == 27 then
          var (bits, k) :- ReadArg(s, low);
          Ok((Leaf(Float(bits)), k))
        else Err(UnsupportedSimple)
      else
        var (arg, k) :- ReadArg(s, low);
        ParseBody(rt, major, arg, s, k)
  }

  function ParseBody(rt: Runtime, major: Major, arg: U64, s: seq<Byte>, k: nat): (r: Result<(Frame, nat)>)
    requires major != 7 && 1 <= k <= |s|
    ensures r.Ok? ==> k <= r.value.1 <= |s| && Proper(r.value.0)
  {
    var left := |s| - k;
    if major == 0 then Ok((Leaf(Uint(arg)), k))
    else if major == 1 then
      if arg > MAX_I64 then Err(NegativeOutOfRange) else Ok((Leaf(Int(-1 - arg)), k))
    else if major == 2 then
      if arg > left then Err(TruncatedBytes) else Ok((Leaf(Bytes(s[k..k + arg])), k + arg))
    else if major == 3 then
      if arg > left then Err(TruncatedText)
      else if !rt.utf8(s[k..k + arg]) then Err(InvalidUtf8)
      else Ok((Leaf(Text(s[k..k + arg])), k + arg))
    else if major == 4 then
      if arg > left then Err(ArrayTooLong) else Ok((ArrayOf(arg), k))
    else if major == 5 then
      if arg > left then Err(MapTooLong) else Ok((MapOf(arg), k))
    else Ok((TagOf(arg), k))
  }

  /** One item at nesting depth `depth`. */
  function Parse(rt: Runtime, s: seq<Byte>, depth: int): (r: Result<(Value, nat)>)
    ensures r.Ok? ==> 1 <= r.value.1 <= |s|
    decreases |s|, 0, 0
  {
    if depth > DEPTH_LIMIT then Err(NestingLimit)
    else
      var (f, k) :- ParseFrame(rt, s);
      var (kids, m) :- ParseAll(rt, s[k..], depth + 1, Arity(f));
      Ok((Build(f, kids), k + m))
  }

  /** `count` items in a row. */
  function ParseAll(rt: Runtime, s: seq<Byte>, depth: int, count: nat): (r: Result<(seq<Value>, nat)>)
    ensures r.Ok? ==> |r.value.0| == count && r.value.1 <= |s|
    decreases |s|, 1, count
  {
    if count == 0 then Ok(([], 0))
    else
      var (v, n) :- Parse(rt, s, depth);
      var (vs, m) :- ParseAll(rt, s[n..], depth, count - 1);
      Ok(([v] + vs, n + m))
  }

  /** A whole payload: one item and nothing after it. */
  function Decode(rt: Runtime, b: seq<Byte>): Result<Value>
  {
    var (v, n) :- Parse(rt, b, 0);
    if n != |b| then Err(TrailingBytes) else Ok(v)
  }

  // Soundness: what is accepted is in the grammar.

  lemma ReadArgSound(major: Major, s: seq<Byte>)
    requires s != [] && s[0] / 32 == major && ReadArg(s, s[0] % 32).Ok?
    ensures var (n, k) := ReadArg(s, s[0] % 32).value; HeadForm(major, n, s[..k])
  {
    var low := s[0] % 32;
    if low < 24 {
      assert s[..1] == [32 * major + low];
    } else {
      var w := if low == 24 then 1 else if low == 25 then 2 else if low == 26 then 4 else 8;
      var field := s[1..1 + w];
      FromBigEndianRoundTrip(field);
      assert s[..1 + w] == [32 * major + low] + field;
      assert HeadOfWidth(major, FromBigEndian(field), w, low, s[..1 + w]);
    }
  }

  lemma StringSound(major: Major, s: seq<Byte>, k: nat, arg: nat)
    requires k + arg <= |s| && HeadForm(major, arg, s[..k])
    ensures StringForm(major, s[k..k + arg], s[..k + arg])
  {
    var p := s[..k + arg];
    assert p[..k] == s[..k] && p[k..] == s[k..k + arg];
  }

  lemma ParseBodySound(rt: Runtime, major: Major, arg: U64, s: seq<Byte>, k: nat)
    requires major != 7 && 1 <= k <= |s| && HeadForm(major, arg, s[..k])
    requires ParseBody(rt, major, arg, s, k).Ok?
    ensures var (f, n) := ParseBody(rt, major, arg, s, k).value;
            && FrameForm(rt.widen, f, s[..n])
            && (f.Leaf? && f.v.Text? ==> rt.utf8(f.v.text))
  {
    hide HeadForm, StringForm;
    if (major == 2 || major == 3) {
      StringSound(major, s, k, arg);
    }
  }

  lemma ParseFrameSound(rt: Runtime, s: seq<Byte>)
    requires ParseFrame(rt, s).Ok?
    ensures var (f, k) := ParseFrame(rt, s).value;
            && FrameForm(rt.widen, f, s[..k])
            && (f.Leaf? && f.v.Text? ==> rt.utf8(f.v.text))
  {
    hide HeadForm, StringForm, ReadArg, ParseBody, FloatForm;
    if s[0] / 32 == 7 {
      assert s[..1] == [s[0]];
      if s[0] == 0xfa || s[0] == 0xfb {
        FloatSound(rt, s);
      }
    } else {
      ReadArgSound(s[0] / 32, s);
      var (arg, k) := ReadArg(s, s[0] % 32).value;
      ParseBodySound(rt, s[0] / 32, arg, s, k);
    }
  }

  lemma FloatSound(rt: Runtime, s: seq<Byte>)
    requires s != [] && (s[0] == 0xfa || s[0] == 0xfb) && ReadArg(s, s[0] % 32).Ok?
    ensures var (n, k) := ReadArg(s, s[0] % 32).value;
            FloatForm(rt.widen, if s[0] == 0xfa then rt.widen(n) else n, s[..k])
  {
    var w := if s[0] == 0xfa then 4 else 8;
    var field := s[1..1 + w];
    FromBigEndianRoundTrip(field);
    assert s[..1 + w] == [s[0]] + field;
  }

  /** What a successful step of the item parser was made of. */
  lemma ParseStep(rt: Runtime, s: seq<Byte>, depth: int)
    returns (f: Frame, k: nat, kids: seq<Value>, m: nat)
    requires Parse(rt, s, depth).Ok?
    ensures depth <= DEPTH_LIMIT
    ensures ParseFrame(rt, s) == Ok((f, k)) && k <= |s| && Proper(f)
    ensures ParseAll(rt, s[k..], depth + 1, Arity(f)) == Ok((kids, m)) && m <= |s| - k && |kids| == Arity(f)
    ensures Parse(rt, s, depth) == Ok((Build(f, kids), k + m))
  {
    hide ParseFrame, ParseAll, Build, Arity;
    f, k := ParseFrame(rt, s).value.0, ParseFrame(rt, s).value.1;
    var r := ParseAll(rt, s[k..], depth + 1, Arity(f));
    kids, m := r.value.0, r.value.1;
  }

  /** What a successful step of the list parser was made of. */
  lemma ParseAllStep(rt: Runtime, s: seq<Byte>, depth: int, count: nat)
    returns (v: Value, n: nat, vs: seq<Value>, m: nat)
    requires count > 0 && ParseAll(rt, s, depth, count).Ok?
    ensures Parse(rt, s, depth) == Ok((v, n)) && 1 <= n <= |s|
    ensures ParseAll(rt, s[n..], depth, count - 1) == Ok((vs, m)) && m <= |s| - n && |vs| == count - 1
    ensures ParseAll(rt, s, depth, count) == Ok(([v] + vs, n + m))
  {
    hide Parse;
    v, n := Parse(rt, s, depth).value.0, Parse(rt, s, depth).value.1;
    var r := ParseAll(rt, s[n..], depth, count - 1);
    vs, m := r.value.0, r.value.1;
  }

  lemma SliceJoin(s: seq<Byte>, n: nat, m: nat)
    requires n + m <= |s|
    ensures s[..n] + s[n..][..m] == s[..n + m]
  {
  }

  lemma {:induction false} ParseSound(rt: Runtime, s: seq<Byte>, depth: int)
    requires Parse(rt, s, depth).Ok?
    ensures var (v, n) := Parse(rt, s, depth).value;
            && Wire(rt.widen, v, s[..n])
            && TextOk(rt, v)
            && depth + Height(v) <= DEPTH_LIMIT
    decreases |s|, 0, 0
  {
    hide *;
    var f, k, kids, m := ParseStep(rt, s, depth);
    ParseFrameSound(rt, s);
    ParseAllSound(rt, s[k..], depth + 1, Arity(f));
    ItemSoundStep(rt, f, kids, s[..k], s[k..][..m]);
    SliceJoin(s, k, m);
  }

  lemma ItemSoundStep(rt: Runtime, f: Frame, kids: seq<Value>, p: seq<Byte>, rest: seq<Byte>)
    requires Proper(f) && |kids| == Arity(f)
    requires FrameForm(rt.widen, f, p) && WireAll(rt.widen, kids, rest)
    ensures Wire(rt.widen, Build(f, kids), p + rest)
    ensures TextOk(rt, Build(f, kids)) == ((f.Leaf? && f.v.Text? ==> rt.utf8(f.v.text)) && TextOkAll(rt, kids))
    ensures Height(Build(f, kids)) == if Arity(f) == 0 then 0 else 1 + HeightAll(kids)
  {
    KidsBuild(f, kids);
    WireJoin(rt.widen, Build(f, kids), p, rest);
  }

  lemma {:induction false} ParseAllSound(rt: Runtime, s: seq<Byte>, depth: int, count: nat)
    requires ParseAll(rt, s, depth, count).Ok?
    ensures var (vs, n) := ParseAll(rt, s, depth, count).value;
            && |vs| == count
            && WireAll(rt.widen, vs, s[..n])
            && TextOkAll(rt, vs)
            && (count > 0 ==> depth + HeightAll(vs) <= DEPTH_LIMIT)
    decreases |s|, 1, count
  {
    hide *;
    if count == 0 {
      EmptyList(rt, s, depth);
    } else {
      var v, n, vs, m := ParseAllStep(rt, s, depth, count);
      ParseSound(rt, s, depth);
      ParseAllSound(rt, s[n..], depth, count - 1);
      EmptyList(rt, s, depth);
      assert count == 1 ==> vs == [];
      ListSoundStep(rt, v, vs, s[..n], s[n..][..m]);
      SliceJoin(s, n, m);
    }
  }

  /** A list of no items takes no bytes, in the parser and in the grammar. */
  lemma EmptyList(rt: Runtime, s: seq<Byte>, depth: int)
    ensures ParseAll(rt, s, depth, 0) == Ok(([], 0)) && s[..0] == []
    ensures WireAll(rt.widen, [], []) && TextOkAll(rt, []) && HeightAll([]) == 0
    ensures forall b | WireAll(rt.widen, [], b) :: b == []
  {
  }

  lemma ListSoundStep(rt: Runtime, v: Value, vs: seq<Value>, p: seq<Byte>, rest: seq<Byte>)
    requires Wire(rt.widen, v, p) && WireAll(rt.widen, vs, rest)
    ensures WireAll(rt.widen, [v] + vs, p + rest)
    ensures TextOkAll(rt, [v] + vs) == (TextOk(rt, v) && TextOkAll(rt, vs))
    ensures HeightAll([v] + vs) == if Height(v) > HeightAll(vs) then Height(v) else HeightAll(vs)
  {
    var ws := [v] + vs;
    assert ws[1..] == vs;
    hide Wire, TextOk, Height;
    WireAllJoin(rt.widen, ws, p, rest);
  }

  // Completeness: everything in the grammar is accepted, whatever follows it.

  lemma FieldRead(major: Major, n: nat, w: nat, info: nat, p: seq<Byte>, t: seq<Byte>)
    requires (info == 24 && w == 1) || (info == 25 && w == 2) || (info == 26 && w == 4) || (info == 27 && w == 8)
    requires HeadOfWidth(major, n, w, info, p)
    ensures p != [] && p[0] == 32 * major + info && |p| == 1 + w
    ensures ReadArg(p + t, info) == Ok((n, 1 + w))
  {
    BigEndianRoundTrip(n, w);
    assert (p + t)[1..1 + w] == BigEndian(n, w);
  }

  lemma ReadArgComplete(major: Major, n: nat, p: seq<Byte>, t: seq<Byte>)
    requires HeadForm(major, n, p)
    ensures p != [] && p[0] / 32 == major && n < TWO_64
    ensures ReadArg(p + t, p[0] % 32) == Ok((n, |p|))
  {
    HeadFormNonempty(major, n, p);
    if !(n < 24 && p == [32 * major + n]) {
      if HeadOfWidth(major, n, 1, 24, p) {
        FieldRead(major, n, 1, 24, p, t);
      } else if HeadOfWidth(major, n, 2, 25, p) {
        FieldRead(major, n, 2, 25, p, t);
      } else if HeadOfWidth(major, n, 4, 26, p) {
        FieldRead(major, n, 4, 26, p, t);
      } else {
        FieldRead(major, n, 8, 27, p, t);
      }
    }
  }

  lemma HeadParses(rt: Runtime, major: Major, n: nat, p: seq<Byte>, t: seq<Byte>)
    requires major != 7 && HeadForm(major, n, p)
    ensures n < TWO_64 && |p| >= 1
    ensures ParseFrame(rt, p + t) == ParseBody(rt, major, n, p + t, |p|)
  {
    ReadArgComplete(major, n, p, t);
    assert (p + t)[0] == p[0];
  }

  lemma StringParses(rt: Runtime, major: Major, x: seq<Byte>, p: seq<Byte>, t: seq<Byte>)
    requires (major == 2 || (major == 3 && rt.utf8(x))) && StringForm(major, x, p)
    ensures ParseFrame(rt, p + t) == Ok((Leaf(if major == 2 then Bytes(x) else Text(x)), |p|))
  {
    var h := p[..|p| - |x|];
    assert p == h + x && p + t == h + (x + t);
    hide ParseFrame, ReadArg, HeadForm, ParseBody;
    HeadParses(rt, major, |x|, h, x + t);
    StringBody(rt, major, x, h, t);
  }

  lemma StringBody(rt: Runtime, major: Major, x: seq<Byte>, h: seq<Byte>, t: seq<Byte>)
    requires (major == 2 || (major == 3 && rt.utf8(x))) && h != [] && |x| < TWO_64
    ensures ParseBody(rt, major, |x|, h + (x + t), |h|)
         == Ok((Leaf(if major == 2 then Bytes(x) else Text(x)), |h| + |x|))
  {
    assert (h + (x + t))[|h|..|h| + |x|] == x;
  }

  lemma FloatParses(rt: Runtime, bits: U64, p: seq<Byte>, t: seq<Byte>)
    requires FloatForm(rt.widen, bits, p)
    ensures ParseFrame(rt, p + t) == Ok((Leaf(Float(bits)), |p|))
  {
    Pow256Values();
    if p == [0xfb] + BigEndian(bits, 8) {
      FieldRead(7, bits, 8, 27, p, t);
    } else {
      var x: U32 :| rt.widen(x) == bits && p == [0xfa] + BigEndian(x, 4);
      FieldRead(7, x, 4, 26, p, t);
    }
    assert (p + t)[0] == p[0];
  }

  lemma PrefixByte(p: seq<Byte>, t: seq<Byte>)
    ensures p != [] ==> (p + t)[0] == p[0]
  {
  }

  /** A frame in the grammar is read back, provided as many bytes follow as a container announces items. */
  lemma ParseFrameComplete(rt: Runtime, f: Frame, p: seq<Byte>, t: seq<Byte>)
    requires Proper(f) && FrameForm(rt.widen, f, p)
    requires f.Leaf? && f.v.Text? ==> rt.utf8(f.v.text)
    requires Arity(f) <= |t|
    ensures ParseFrame(rt, p + t) == Ok((f, |p|))
  {
    match f
    case Leaf(Uint(u)) => HeadParses(rt, 0, u, p, t);
    case Leaf(Int(i)) => HeadParses(rt, 1, -1 - i, p, t);
    case Leaf(Float(bits)) => FloatParses(rt, bits, p, t);
    case Leaf(Text(x)) => StringParses(rt, 3, x, p, t);
    case Leaf(Bytes(x)) => StringParses(rt, 2, x, p, t);
    case ArrayOf(n) => HeadParses(rt, 4, n, p, t);
    case MapOf(n) => HeadParses(rt, 5, n, p, t);
    case TagOf(num) => HeadParses(rt, 6, num, p, t);
    case Leaf(v) => PrefixByte(p, t);
  }

  lemma ParseOf(rt: Runtime, s: seq<Byte>, depth: int, f: Frame, k: nat, kids: seq<Value>, m: nat)
    requires depth <= DEPTH_LIMIT && ParseFrame(rt, s) == Ok((f, k)) && k <= |s|
    requires ParseAll(rt, s[k..], depth + 1, Arity(f)) == Ok((kids, m)) && |kids| == Arity(f)
    ensures Parse(rt, s, depth) == Ok((Build(f, kids), k + m))
  {
    hide ParseFrame, ParseAll, Build, Arity;
  }

  lemma ParseAllOf(rt: Runtime, s: seq<Byte>, depth: int, v: Value, n: nat, vs: seq<Value>, m: nat)
    requires Parse(rt, s, depth) == Ok((v, n)) && n <= |s|
    requires ParseAll(rt, s[n..], depth, |vs|) == Ok((vs, m))
    ensures ParseAll(rt, s, depth, 1 + |vs|) == Ok(([v] + vs, n + m))
  {
    hide Parse;
  }

  lemma Regroup(p: seq<Byte>, q: seq<Byte>, t: seq<Byte>)
    ensures (p + q) + t == p + (q + t)
    ensures (p + (q + t))[|p|..] == q + t
  {
  }

  lemma ItemParts(rt: Runtime, v: Value)
    ensures Proper(FrameOf(v)) && Build(FrameOf(v), Kids(v)) == v
    ensures SizeAll(Kids(v)) < Size(v) && |Kids(v)| == Arity(FrameOf(v))
    ensures TextOk(rt, v) ==> TextOkAll(rt, Kids(v))
    ensures TextOk(rt, v) && FrameOf(v).Leaf? && FrameOf(v).v.Text? ==> rt.utf8(FrameOf(v).v.text)
    ensures Kids(v) != [] ==> Height(v) == 1 + HeightAll(Kids(v))
  {
    BuildKids(v);
  }

  lemma ListParts(rt: Runtime, vs: seq<Value>)
    requires vs != []
    ensures vs == [vs[0]] + vs[1..]
    ensures Size(vs[0]) < SizeAll(vs) && SizeAll(vs[1..]) < SizeAll(vs)
    ensures TextOkAll(rt, vs) ==> TextOk(rt, vs[0]) && TextOkAll(rt, vs[1..])
    ensures HeightAll(vs) >= Height(vs[0]) && HeightAll(vs) >= HeightAll(vs[1..])
  {
  }

  lemma {:induction false} ParseComplete(rt: Runtime, v: Value, b: seq<Byte>, t: seq<Byte>, depth: int)
    requires Wire(rt.widen, v, b) && TextOk(rt, v) && depth + Height(v) <= DEPTH_LIMIT
    ensures Parse(rt, b + t, depth) == Ok((v, |b|))
    decreases Size(v)
  {
    hide *;
    ItemParts(rt, v);
    var f, kids := FrameOf(v), Kids(v);
    var p, inner := WireSplit(rt.widen, v, b);
    WireAllLength(rt.widen, kids, inner);
    ParseFrameComplete(rt, f, p, inner + t);
    ParseAllComplete(rt, kids, inner, t, depth + 1);
    Regroup(p, inner, t);
    ParseOf(rt, b + t, depth, f, |p|, kids, |inner|);
  }

  lemma {:induction false} ParseAllComplete(rt: Runtime, vs: seq<Value>, b: seq<Byte>, t: seq<Byte>, depth: int)
    requires WireAll(rt.widen, vs, b) && TextOkAll(rt, vs)
    requires vs != [] ==> depth + HeightAll(vs) <= DEPTH_LIMIT
    ensures ParseAll(rt, b + t, depth, |vs|) == Ok((vs, |b|))
    decreases SizeAll(vs)
  {
    hide *;
    if vs == [] {
      EmptyList(rt, b + t, depth);
    } else {
      ListParts(rt, vs);
      var v, ws := vs[0], vs[1..];
      var p, rest := WireAllSplit(rt.widen, vs, b);
      ParseComplete(rt, v, p, rest + t, depth);
      ParseAllComplete(rt, ws, rest, t, depth);
      Regroup(p, rest, t);
      ParseAllOf(rt, b + t, depth, v, |p|, ws, |rest|);
    }
  }
}
