/** The two decoders against each other, step by step on the same bytes. */
module Simulation {
  import opened Machine
  import opened CborTree
  import opened Parser
  import opened TsTree

  /** What TypeScript holds where Go holds this leaf. */
  function ToTsLeaf(v: Value): TsValue {
    match v
    case Uint(u) => SmallInt(u)
    case Int(i) => if i >= 0 then SmallInt(i) else NegativeInt(-1 - i)
    case Bool(b) => Boolean(b)
    case Float(bits) => Number(bits)
    case Text(s) => Str(StripBom(s))
    case Bytes(d) => Blob(d)
    case _ => JsNull
  }

  function ToTsFrame(f: Frame): (g: TsFrame)
    ensures TsArity(g) == Arity(f)
  {
    match f
    case Leaf(v) => TsLeaf(ToTsLeaf(v))
    case ArrayOf(n) => TsList(n)
    case MapOf(n) => TsDict(n)
    case TagOf(num) => TsTag(NearestNumber(num))
  }

  /** The TypeScript reading of a Go tree. */
  function ToTs(v: Value): TsValue
    decreases Size(v)
  {
    TsBuild(ToTsFrame(FrameOf(v)), ToTsAll(Kids(v)))
  }

  function ToTsAll(vs: seq<Value>): (ts: seq<TsValue>)
    ensures |ts| == |vs|
    decreases SizeAll(vs)
  {
    if vs == [] then [] else [ToTs(vs[0])] + ToTsAll(vs[1..])
  }

  lemma ToTsShape(v: Value)
    ensures v.Array? ==> ToTs(v) == List(ToTsAll(Kids(v))) && |Kids(v)| == |v.items|
    ensures v.Map? ==> ToTs(v) == Dict(SetAll([], ToTsAll(Kids(v)))) && |Kids(v)| == 2 * |v.entries|
    ensures v.Tag? ==> |Kids(v)| == 1 && ToTs(v) == Tagged(NearestNumber(v.num), ToTsAll(Kids(v))[0])
    ensures IsLeaf(v) ==> ToTs(v) == ToTsLeaf(v) && Kids(v) == [] && ToTsAll(Kids(v)) == []
  {
    hide NearestNumber, SetAll, ToTsLeaf;
  }

  /** A negative integer below the least int64, which only TypeScript accepts. */
  predicate WideFrame(s: seq<Byte>) {
    s != [] && s[0] / 32 == 1 && TsReadArg(s, s[0] % 32).Ok? && TsReadArg(s, s[0] % 32).value.0 > MAX_I64
  }

  /** Whether the TypeScript decoder comes across such an integer. */
  predicate Wide(rt: Runtime, s: seq<Byte>, depth: int)
    decreases |s|, 0, 0
  {
    && depth <= 64
    && TsParseFrame(rt, s).Ok?
    && (WideFrame(s) || (var (f, k) := TsParseFrame(rt, s).value; WideAll(rt, s[k..], depth + 1, TsArity(f))))
  }

  predicate WideAll(rt: Runtime, s: seq<Byte>, depth: int, count: nat)
    decreases |s|, 1, count
  {
    && count > 0
    && (|| Wide(rt, s, depth)
        || (TsParse(rt, s, depth).Ok? && WideAll(rt, s[TsParse(rt, s, depth).value.1..], depth, count - 1)))
  }

  lemma SameReadArg(s: seq<Byte>, low: nat)
    requires low < 32 && s != []
    ensures ReadArg(s, low).Ok? <==> TsReadArg(s, low).Ok?
    ensures ReadArg(s, low).Ok? ==> TsReadArg(s, low) == ReadArg(s, low)
  {
  }

  lemma FrameSimulation(rt: Runtime, s: seq<Byte>)
    ensures ParseFrame(rt, s).Ok? <==> TsParseFrame(rt, s).Ok? && !WideFrame(s)
    ensures ParseFrame(rt, s).Ok? ==>
      var (f, k) := ParseFrame(rt, s).value;
      TsParseFrame(rt, s) == Ok((ToTsFrame(f), k))
  {
    if s != [] {
      SameReadArg(s, s[0] % 32);
      hide ReadArg, TsReadArg, SmallInt, NegativeInt, NearestNumber, StripBom;
    }
  }

  /** The head of an integer only TypeScript accepts. */
  lemma WideLead(rt: Runtime, arg: U64, s: seq<Byte>, k: nat)
    requires s != [] && s[0] / 32 == 1 && ReadArg(s, s[0] % 32) == Ok((arg, k)) && arg > MAX_I64
    ensures TsParseFrame(rt, s) == Ok((TsLeaf(NegativeInt(arg)), k)) && WideFrame(s)
    ensures NegativeInt(arg) == BigInt(-1 - arg)
  {
    SameReadArg(s, s[0] % 32);
    hide ReadArg, TsReadArg;
  }

  lemma ToTsBuild(f: Frame, kids: seq<Value>)
    requires Proper(f) && |kids| == Arity(f)
    ensures ToTs(Build(f, kids)) == TsBuild(ToTsFrame(f), ToTsAll(kids))
  {
    KidsBuild(f, kids);
  }

  lemma TsParseOf(rt: Runtime, s: seq<Byte>, depth: int, f: TsFrame, k: nat)
    requires depth <= 64 && TsParseFrame(rt, s) == Ok((f, k)) && k <= |s|
    ensures match TsParseAll(rt, s[k..], depth + 1, TsArity(f))
            case Ok((kids, m)) => TsParse(rt, s, depth) == Ok((TsBuild(f, kids), k + m))
            case Err(e) => TsParse(rt, s, depth) == Err(e)
    ensures Wide(rt, s, depth) == (WideFrame(s) || WideAll(rt, s[k..], depth + 1, TsArity(f)))
  {
    hide TsParseFrame, TsParseAll, WideFrame, WideAll, TsBuild, TsArity;
  }

  lemma ParseRefused(rt: Runtime, s: seq<Byte>, depth: int)
    requires depth > 64 || TsParseFrame(rt, s).Err?
    ensures TsParse(rt, s, depth).Err? && !Wide(rt, s, depth)
    ensures depth > 64 || ParseFrame(rt, s).Err? ==> Parse(rt, s, depth).Err?
  {
    hide TsParseFrame, ParseFrame;
  }

  lemma GoRefusesFrame(rt: Runtime, s: seq<Byte>, depth: int)
    requires ParseFrame(rt, s).Err?
    ensures Parse(rt, s, depth).Err?
  {
    hide ParseFrame;
  }

  lemma GoParse(rt: Runtime, s: seq<Byte>, depth: int, f: Frame, k: nat)
    requires depth <= 64 && ParseFrame(rt, s) == Ok((f, k)) && k <= |s|
    ensures match ParseAll(rt, s[k..], depth + 1, Arity(f))
            case Ok((kids, m)) => Parse(rt, s, depth) == Ok((Build(f, kids), k + m))
            case Err(e) => Parse(rt, s, depth) == Err(e)
  {
    hide ParseFrame, ParseAll, Build, Arity;
  }

  /** On any bytes and at any depth, Go accepts exactly when TypeScript does and no integer is too
      negative for int64; then both stop at the same byte with corresponding values. */
  lemma {:induction false} ParseSimulation(rt: Runtime, s: seq<Byte>, depth: int)
    ensures Parse(rt, s, depth).Ok? <==> TsParse(rt, s, depth).Ok? && !Wide(rt, s, depth)
    ensures Parse(rt, s, depth).Ok? ==>
      var (v, n) := Parse(rt, s, depth).value;
      TsParse(rt, s, depth) == Ok((ToTs(v), n))
    decreases |s|, 0, 0
  {
    hide *;
    FrameSimulation(rt, s);
    if depth > 64 || TsParseFrame(rt, s).Err? {
      ParseRefused(rt, s, depth);
    } else {
      var (g, k) := TsParseFrame(rt, s).value;
      TsParseOf(rt, s, depth, g, k);
      if WideFrame(s) {
        GoRefusesFrame(rt, s, depth);
      } else {
        var f := ParseFrame(rt, s).value.0;
        GoParse(rt, s, depth, f, k);
        ParseAllSimulation(rt, s[k..], depth + 1, Arity(f));
        if ParseAll(rt, s[k..], depth + 1, Arity(f)).Ok? {
          ToTsBuild(f, ParseAll(rt, s[k..], depth + 1, Arity(f)).value.0);
        }
      }
    }
  }

  lemma TsParseAllStep(rt: Runtime, s: seq<Byte>, depth: int, count: nat)
    ensures TsParseAll(rt, s, depth, 0) == Ok(([], 0)) && !WideAll(rt, s, depth, 0) && ToTsAll([]) == []
    ensures count > 0 && TsParse(rt, s, depth).Err? ==>
      TsParseAll(rt, s, depth, count).Err? && WideAll(rt, s, depth, count) == Wide(rt, s, depth)
    ensures count > 0 && TsParse(rt, s, depth).Ok? ==>
      var (t, n) := TsParse(rt, s, depth).value;
      var rest := TsParseAll(rt, s[n..], depth, count - 1);
      && WideAll(rt, s, depth, count) == (Wide(rt, s, depth) || WideAll(rt, s[n..], depth, count - 1))
      && (rest.Ok? ==> TsParseAll(rt, s, depth, count) == Ok(([t] + rest.value.0, n + rest.value.1)))
      && (rest.Err? ==> TsParseAll(rt, s, depth, count).Err?)
  {
    hide TsParse, Wide;
  }

  lemma GoParseAll(rt: Runtime, s: seq<Byte>, depth: int, count: nat)
    requires count > 0
    ensures Parse(rt, s, depth).Err? ==> ParseAll(rt, s, depth, count).Err?
    ensures Parse(rt, s, depth).Ok? ==>
      var (v, n) := Parse(rt, s, depth).value;
      var rest := ParseAll(rt, s[n..], depth, count - 1);
      && (rest.Ok? ==> ParseAll(rt, s, depth, count) == Ok(([v] + rest.value.0, n + rest.value.1)))
      && (rest.Err? ==> ParseAll(rt, s, depth, count).Err?)
  {
    hide Parse;
  }

  lemma ToTsCons(v: Value, vs: seq<Value>)
    ensures ToTsAll([v] + vs) == [ToTs(v)] + ToTsAll(vs)
  {
    hide ToTs;
    assert ([v] + vs)[1..] == vs;
  }

  lemma {:induction false} ParseAllSimulation(rt: Runtime, s: seq<Byte>, depth: int, count: nat)
    ensures ParseAll(rt, s, depth, count).Ok?
        <==> TsParseAll(rt, s, depth, count).Ok? && !WideAll(rt, s, depth, count)
    ensures ParseAll(rt, s, depth, count).Ok? ==>
      var (vs, n) := ParseAll(rt, s, depth, count).value;
      TsParseAll(rt, s, depth, count) == Ok((ToTsAll(vs), n))
    decreases |s|, 1, count
  {
    hide *;
    TsParseAllStep(rt, s, depth, count);
    if count == 0 {
      EmptyList(rt, s, depth);
    } else {
      GoParseAll(rt, s, depth, count);
      ParseSimulation(rt, s, depth);
      if TsParse(rt, s, depth).Ok? {
        var n := TsParse(rt, s, depth).value.1;
        ParseAllSimulation(rt, s[n..], depth, count - 1);
        if ParseAll(rt, s, depth, count).Ok? {
          ToTsCons(Parse(rt, s, depth).value.0, ParseAll(rt, s[n..], depth, count - 1).value.0);
        }
      }
    }
  }

  /** The payload form: on every byte string the two decoders agree, up to int64's lower bound. */
  lemma DecodersAgree(rt: Runtime, b: seq<Byte>)
    ensures Decode(rt, b).Ok? <==> TsDecode(rt, b).Ok? && !Wide(rt, b, 0)
    ensures Decode(rt, b).Ok? ==> TsDecode(rt, b) == Ok(ToTs(Decode(rt, b).value))
  {
    hide Parse, TsParse, Wide, ToTs;
    ParseSimulation(rt, b, 0);
  }
}
