/** The TypeScript value tree and codec as functions: JavaScript numbers are binary64 patterns, strings
    are their UTF-8 bytes, and a Map is an ordered list with at most one entry per key. */
module TsTree {
  import opened Machine
  import opened Encoder
  import opened Float64

  datatype TsValue =
    | Number(bits: U64)
    | BigInt(n: int)
    | Boolean(b: bool)
    | JsNull
    | Str(text: seq<Byte>)
    | Blob(data: seq<Byte>)
    | List(items: seq<TsValue>)
    | Dict(entries: seq<TsEntry>)
    | Tagged(tag: nat, value: TsValue)

  datatype TsEntry = TsEntry(key: TsValue, val: TsValue)

  const MAX_SAFE: int := 0x1F_FFFF_FFFF_FFFF

  // The tree as a lead and a list of children.

  function TsFlatten(es: seq<TsEntry>): (ts: seq<TsValue>)
    ensures |ts| == 2 * |es|
  {
    if es == [] then [] else [es[0].key, es[0].val] + TsFlatten(es[1..])
  }

  function TsSize(t: TsValue): nat {
    match t
    case List(items) => 1 + TsSizeAll(items)
    case Dict(entries) => 1 + TsSizeEntries(entries)
    case Tagged(_, value) => 2 + TsSize(value)
    case _ => 1
  }

  function TsSizeAll(ts: seq<TsValue>): nat {
    if ts == [] then 0 else 1 + TsSize(ts[0]) + TsSizeAll(ts[1..])
  }

  function TsSizeEntries(es: seq<TsEntry>): nat {
    if es == [] then 0 else TsSizeEntry(es[0]) + TsSizeEntries(es[1..])
  }

  function TsSizeEntry(e: TsEntry): nat {
    2 + TsSize(e.key) + TsSize(e.val)
  }

  lemma {:induction false} TsSizeFlatten(es: seq<TsEntry>)
    ensures TsSizeAll(TsFlatten(es)) == TsSizeEntries(es)
  {
    if es != [] {
      TsSizeFlatten(es[1..]);
      assert TsFlatten(es)[1..][1..] == TsFlatten(es[1..]);
    }
  }

  function TsKids(t: TsValue): (ks: seq<TsValue>)
    ensures TsSizeAll(ks) < TsSize(t)
  {
    match t
    case List(items) => items
    case Dict(entries) => TsSizeFlatten(entries); TsFlatten(entries)
    case Tagged(_, value) => assert [value][1..] == []; [value]
    case _ => []
  }

  // Encoding.

  /** The argument that reaches the wire for an integer of any size: its low 64 bits. */
  function WireArg(n: int): U64 {
    (if n >= 0 then n else -1 - n) % TWO_64
  }

  function IntHead(n: int): seq<Byte> {
    if n >= 0 then Head(0, n) else Head(1, -1 - n)
  }

  /** What encInto pushes before it recurses. */
  function TsLead(t: TsValue): seq<Byte> {
    match t
    case Number(bits) => if IsInteger(bits) then IntHead(IntOf(bits)) else [0xfb] + BigEndian(bits, 8)
    case BigInt(n) => IntHead(n)
    case Boolean(b) => [if b then 0xf5 else 0xf4]
    case JsNull => [0xf6]
    case Str(s) => Head(3, |s|) + s
    case Blob(d) => Head(2, |d|) + d
    case List(items) => Head(4, |items|)
    case Dict(entries) => Head(5, |entries|)
    case Tagged(tag, _) => Head(6, tag)
  }

  function TsEnc(t: TsValue): seq<Byte>
    decreases TsSize(t)
  {
    TsLead(t) + TsEncAll(TsKids(t))
  }

  function TsEncAll(ts: seq<TsValue>): seq<Byte>
    decreases TsSizeAll(ts)
  {
    if ts == [] then [] else TsEnc(ts[0]) + TsEncAll(ts[1..])
  }

  // JavaScript's Map.

  predicate IsNaN(bits: U64) {
    Exponent(bits) == 0x7ff && Fraction(bits) != 0
  }

  /** SameValueZero. Strings, numbers, booleans and null compare by value; two byte strings, arrays, maps
      or tags read from the wire are never the same object. */
  predicate SameKey(a: TsValue, b: TsValue) {
    match (a, b)
    case (Number(x), Number(y)) => x == y || (IsNaN(x) && IsNaN(y)) || (x % P63 == 0 && y % P63 == 0)
    case (BigInt(x), BigInt(y)) => x == y
    case (Boolean(x), Boolean(y)) => x == y
    case (JsNull, JsNull) => true
    case (Str(x), Str(y)) => x == y
    case _ => false
  }

  /** The key as a Map stores it: negative zero becomes zero. */
  function StoredKey(k: TsValue): TsValue {
    if k == Number(NEG_ZERO) then Number(0) else k
  }

  /** Map.set: replace in place, or append. */
  function MapSet(es: seq<TsEntry>, k: TsValue, v: TsValue): (r: seq<TsEntry>)
    ensures |es| <= |r| <= |es| + 1
  {
    if es == [] then [TsEntry(StoredKey(k), v)]
    else if SameKey(es[0].key, k) then [TsEntry(es[0].key, v)] + es[1..]
    else [es[0]] + MapSet(es[1..], k, v)
  }

  /** Setting a flat list of keys and values, from the left. */
  function SetAll(es: seq<TsEntry>, kvs: seq<TsValue>): seq<TsEntry>
    decreases |kvs|
  {
    if |kvs| < 2 then es else SetAll(MapSet(es, kvs[0], kvs[1]), kvs[2..])
  }

  /** Map.get with a string key. */
  function DictGet(es: seq<TsEntry>, key: seq<Byte>): Option<TsValue> {
    if es == [] then None
    else if es[0].key == Str(key) then Some(es[0].val)
    else DictGet(es[1..], key)
  }

  function TsMapGet(t: TsValue, key: seq<Byte>): Option<TsValue> {
    if t.Dict? then DictGet(t.entries, key) else None
  }

  // Decoding.

  datatype TsFrame =
    | TsLeaf(t: TsValue)
    | TsList(n: nat)
    | TsDict(n: nat)
    | TsTag(num: nat)

  function TsArity(f: TsFrame): nat {
    match f
    case TsLeaf(_) => 0
    case TsList(n) => n
    case TsDict(n) => 2 * n
    case TsTag(_) => 1
  }

  function TsBuild(f: TsFrame, kids: seq<TsValue>): TsValue
    requires |kids| == TsArity(f)
  {
    match f
    case TsLeaf(t) => t
    case TsList(_) => List(kids)
    case TsDict(_) => Dict(SetAll([], kids))
    case TsTag(num) => Tagged(num, kids[0])
  }

  function SmallInt(arg: U64): TsValue {
    if arg <= MAX_SAFE then Number(OfNat(arg)) else BigInt(arg)
  }

  function NegativeInt(arg: U64): TsValue {
    var n := -1 - arg;
    if n >= -MAX_SAFE then Number(OfInt(n)) else BigInt(n)
  }

  /** Number(arg): the nearest JavaScript number. */
  function NearestNumber(arg: U64): nat {
    OfNatIsInteger(arg);
    Magnitude(OfNat(arg))
  }

  /** A TextDecoder drops one leading byte-order mark. */
  function StripBom(s: seq<Byte>): seq<Byte> {
    if |s| >= 3 && s[..3] == [0xef, 0xbb, 0xbf] then s[3..] else s
  }

  function TsReadArg(s: seq<Byte>, low: nat): (r: Result<(U64, nat)>)
    requires low < 32 && (low < 24 ==> s != [])
    ensures r.Ok? ==> 1 <= r.value.1 <= |s|
    ensures r.Ok? && low <= 26 ==> r.value.0 < 0x1_0000_0000
  {
    if low < 24 then Ok((low, 1))
    else
      var width := if low == 24 then 1 else if low == 25 then 2 else if low == 26 then 4
          else if low == 27 then 8 else 0;
      if width == 0 || s == [] || |s| - 1 < width then Err(TruncatedArgument)
      else
        FromBigEndianRoundTrip(s[1..1 + width]);
        Pow256Values();
        Ok((FromBigEndian(s[1..1 + width]), 1 + width))
  }

  function TsParseFrame(rt: Runtime, s: seq<Byte>): (r: Result<(TsFrame, nat)>)
    ensures r.Ok? ==> 1 <= r.value.1 <= |s|
  {
    if s == [] then Err(UnexpectedEnd)
    else
      var major, low := s[0] / 32, s[0] % 32;
      if major == 7 then
        if low == 20 then Ok((TsLeaf(Boolean(false)), 1))
        else if low == 21 then Ok((TsLeaf(Boolean(true)), 1))
        else if low == 22 || low == 23 then Ok((TsLeaf(JsNull), 1))
        else if low == 26 || low == 27 then
          var (bits, k) :- TsReadArg(s, low);
          Ok((TsLeaf(Number(if low == 26 then rt.widen(bits) else bits)), k))
        else Err(UnsupportedSimple)
      else
        var (arg, k) :- TsReadArg(s, low);
        TsParseBody(rt, major, arg, s, k)
  }

  function TsParseBody(rt: Runtime, major: Major, arg: U64, s: seq<Byte>, k: nat): (r: Result<(TsFrame, nat)>)
    requires major != 7 && 1 <= k <= |s|
    ensures r.Ok? ==> k <= r.value.1 <= |s|
  {
    var left := |s| - k;
    if major == 0 then Ok((TsLeaf(SmallInt(arg)), k))
    else if major == 1 then Ok((TsLeaf(NegativeInt(arg)), k))
    else if major == 2 then
      if arg > left then Err(TruncatedBytes) else Ok((TsLeaf(Blob(s[k..k + arg])), k + arg))
    else if major == 3 then
      if arg > left then Err(TruncatedText)
      else if !rt.utf8(s[k..k + arg]) then Err(InvalidUtf8)
      else Ok((TsLeaf(Str(StripBom(s[k..k + arg]))), k + arg))
    else if major == 4 then
      if arg > left then Err(ArrayTooLong) else Ok((TsList(arg), k))
    else if major == 5 then
      if arg > left then Err(MapTooLong) else Ok((TsDict(arg), k))
    else Ok((TsTag(NearestNumber(arg)), k))
  }

  function TsParse(rt: Runtime, s: seq<Byte>, depth: int): (r: Result<(TsValue, nat)>)
    ensures r.Ok? ==> 1 <= r.value.1 <= |s|
    decreases |s|, 0, 0
  {
    if depth > 64 then Err(NestingLimit)
    else
      var (f, k) :- TsParseFrame(rt, s);
      var (kids, m) :- TsParseAll(rt, s[k..], depth + 1, TsArity(f));
      Ok((TsBuild(f, kids), k + m))
  }

  function TsParseAll(rt: Runtime, s: seq<Byte>, depth: int, count: nat): (r: Result<(seq<TsValue>, nat)>)
    ensures r.Ok? ==> |r.value.0| == count && r.value.1 <= |s|
    decreases |s|, 1, count
  {
    if count == 0 then Ok(([], 0))
    else
      var (t, n) :- TsParse(rt, s, depth);
      var (ts, m) :- TsParseAll(rt, s[n..], depth, count - 1);
      Ok(([t] + ts, n + m))
  }

  function TsDecode(rt: Runtime, b: seq<Byte>): Result<TsValue> {
    var (t, n) :- TsParse(rt, b, 0);
    if n != |b| then Err(TrailingBytes) else Ok(t)
  }
}
