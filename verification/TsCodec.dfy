/** The TypeScript codec as the code runs it: a growing number list, shift loops for heads, a mutable
    cursor, and a Map filled by `set`. Proved against the functions of `TsTree`. */
module TsCodec {
  import opened Machine
  import opened Encoder
  import opened Float64
  import opened TsTree
  import Parser

  /** TypeScript's head. Any non-negative bigint is accepted; 64 bits of it are written. */
  method TsHead(major: Major, n: nat, out: Buffer)
    modifies out
    ensures out.data == old(out.data) + Head(major, n)
  {
    var mt := 32 * major;
    hide BigEndian, ByteAt;
    if n < 24 {
      out.data := out.data + [mt + n];
    } else if n < 0x100 {
      LeadByte1(mt + 24, n);
      SmallByte(n);
      out.data := out.data + [mt + 24, n];
    } else if n < 0x1_0000 {
      LeadByte2(mt + 25, n);
      out.data := out.data + [mt + 25, ByteAt(n, 1), ByteAt(n, 0)];
    } else if n < 0x1_0000_0000 {
      PushShifts(mt + 26, n, 4, out);
    } else {
      PushShifts(mt + 27, n, 8, out);
    }
  }

  lemma SmallByte(n: nat)
    requires n < 0x100
    ensures ByteAt(n, 0) == n
  {
  }

  /** The lead byte, then the loop `for (s = 8w - 8; s >= 0; s -= 8) push((big >> s) & 0xff)`. */
  method PushShifts(lead: Byte, n: nat, w: nat, out: Buffer)
    modifies out
    ensures out.data == old(out.data) + ([lead] + BigEndian(n, w))
  {
    ghost var field := BigEndian(n, w);
    BigEndianBytes(n, w);
    out.data := out.data + [lead];
    var k := w;
    assert field[..0] == [];
    while k > 0
      invariant 0 <= k <= w
      invariant out.data == old(out.data) + [lead] + field[..w - k]
    {
      k := k - 1;
      assert field[..w - k] == field[..w - k - 1] + [ByteAt(n, k)];
      ConcatAssociative(old(out.data) + [lead], field[..w - k - 1], [ByteAt(n, k)]);
      out.data := out.data + [ByteAt(n, k)];
    }
    assert field[..w] == field;
    ConcatAssociative(old(out.data), [lead], field);
  }

  method EncInt(n: int, out: Buffer)
    modifies out
    ensures out.data == old(out.data) + IntHead(n)
  {
    if n >= 0 {
      TsHead(0, n, out);
    } else {
      TsHead(1, -1 - n, out);
    }
  }

  lemma TsEncArms(t: TsValue)
    ensures TsEnc(t) == TsLead(t) + TsEncAll(TsKids(t))
    ensures !t.List? && !t.Dict? && !t.Tagged? ==> TsEnc(t) == TsLead(t)
    ensures t.List? ==> TsSizeAll(t.items) < TsSize(t)
    ensures t.Dict? ==> TsSizeAll(TsFlatten(t.entries)) < TsSize(t)
    ensures t.Tagged? ==> TsEncAll(TsKids(t)) == TsEnc(t.value) && TsSize(t.value) < TsSize(t)
  {
    if t.Dict? {
      TsSizeFlatten(t.entries);
    }
    if t.Tagged? {
      assert [t.value][1..] == [];
    }
  }

  method EncInto(t: TsValue, out: Buffer)
    modifies out
    ensures out.data == old(out.data) + TsEnc(t)
    decreases TsSize(t)
  {
    ghost var before := out.data;
    TsEncArms(t);
    hide Head, BigEndian, IsInteger, IntOf, TsEnc, TsEncAll, TsFlatten, TsSize, TsSizeAll;
    match t {
      case Number(bits) =>
        if IsInteger(bits) {
          EncInt(IntOf(bits), out);
        } else {
          PushShifts(0xfb, bits, 8, out);
        }
      case BigInt(n) =>
        EncInt(n, out);
      case Boolean(b) =>
        out.data := out.data + [if b then 0xf5 else 0xf4];
      case JsNull =>
        out.data := out.data + [0xf6];
      case Str(s) =>
        TsHead(3, |s|, out);
        out.data := out.data + s;
        ConcatAssociative(before, Head(3, |s|), s);
      case Blob(d) =>
        TsHead(2, |d|, out);
        out.data := out.data + d;
        ConcatAssociative(before, Head(2, |d|), d);
      case List(items) =>
        TsHead(4, |items|, out);
        EncItems(items, out);
        ConcatAssociative(before, Head(4, |items|), TsEncAll(items));
      case Dict(entries) =>
        TsHead(5, |entries|, out);
        EncEntries(entries, out);
        ConcatAssociative(before, Head(5, |entries|), TsEncAll(TsFlatten(entries)));
      case Tagged(tag, value) =>
        TsHead(6, tag, out);
        EncInto(value, out);
        ConcatAssociative(before, Head(6, tag), TsEnc(value));
    }
  }

  lemma TsEncSplit(ts: seq<TsValue>)
    ensures TsEncAll([]) == []
    ensures ts != [] ==> TsEncAll(ts) == TsEnc(ts[0]) + TsEncAll(ts[1..])
    ensures ts != [] ==> TsSize(ts[0]) < TsSizeAll(ts) && TsSizeAll(ts[1..]) < TsSizeAll(ts)
  {
    hide TsEnc, TsSize;
  }

  lemma TsTail(ts: seq<TsValue>, k: nat)
    requires k < |ts|
    ensures ts[k..][0] == ts[k] && ts[k..][1..] == ts[k + 1..]
  {
  }

  /** The array arm's loop. */
  method EncItems(items: seq<TsValue>, out: Buffer)
    modifies out
    ensures out.data == old(out.data) + TsEncAll(items)
    decreases TsSizeAll(items)
  {
    hide *;
    assert items[0..] == items;
    for k := 0 to |items|
      invariant out.data + TsEncAll(items[k..]) == old(out.data) + TsEncAll(items)
      invariant TsSizeAll(items[k..]) <= TsSizeAll(items)
    {
      TsTail(items, k);
      TsEncSplit(items[k..]);
      ConcatAssociative(out.data, TsEnc(items[k]), TsEncAll(items[k + 1..]));
      EncInto(items[k], out);
    }
    TsEncSplit(items[|items|..]);
    assert out.data + [] == out.data;
  }

  lemma TsFlattenTail(es: seq<TsEntry>, k: nat)
    requires k < |es|
    ensures TsEncAll(TsFlatten(es[k..])) == TsEnc(es[k].key) + (TsEnc(es[k].val) + TsEncAll(TsFlatten(es[k + 1..])))
    ensures TsSize(es[k].key) < TsSizeAll(TsFlatten(es[k..])) && TsSize(es[k].val) < TsSizeAll(TsFlatten(es[k..]))
    ensures TsSizeAll(TsFlatten(es[k + 1..])) < TsSizeAll(TsFlatten(es[k..]))
  {
    var ts := TsFlatten(es[k..]);
    assert es[k..][1..] == es[k + 1..];
    assert ts[0] == es[k].key && ts[1..][0] == es[k].val && ts[1..][1..] == TsFlatten(es[k + 1..]);
    hide *;
    TsEncSplit(ts);
    TsEncSplit(ts[1..]);
  }

  lemma TsNothing()
    ensures TsEncAll(TsFlatten([])) == []
  {
  }

  /** The map arm's loop: each entry's key, then its value. */
  method EncEntries(es: seq<TsEntry>, out: Buffer)
    modifies out
    ensures out.data == old(out.data) + TsEncAll(TsFlatten(es))
    decreases TsSizeAll(TsFlatten(es))
  {
    hide *;
    assert es[0..] == es;
    for k := 0 to |es|
      invariant out.data + TsEncAll(TsFlatten(es[k..])) == old(out.data) + TsEncAll(TsFlatten(es))
      invariant TsSizeAll(TsFlatten(es[k..])) <= TsSizeAll(TsFlatten(es))
    {
      TsFlattenTail(es, k);
      ghost var key, val, rest := TsEnc(es[k].key), TsEnc(es[k].val), TsEncAll(TsFlatten(es[k + 1..]));
      ConcatAssociative(out.data, key, val + rest);
      ConcatAssociative(out.data + key, val, rest);
      EncInto(es[k].key, out);
      EncInto(es[k].val, out);
    }
    assert es[|es|..] == [];
    TsNothing();
    assert out.data + [] == out.data;
  }

  method EncodeValue(t: TsValue) returns (b: seq<Byte>)
    ensures b == TsEnc(t)
  {
    var out := new Buffer();
    EncInto(t, out);
    b := out.data;
  }

  // Decoding.

  class TsCursor {
    const b: seq<Byte>
    var pos: nat

    constructor (bytes: seq<Byte>)
      ensures b == bytes && pos == 0
    {
      b, pos := bytes, 0;
    }
  }

  lemma TsSlice(b: seq<Byte>, pos: nat, i: nat, j: nat)
    requires pos <= |b| && i <= j && pos + j <= |b|
    ensures b[pos..][i..j] == b[pos + i..pos + j]
    ensures b[pos..][i..] == b[pos + i..]
  {
  }

  method ReadArg(st: TsCursor, low: nat) returns (r: Result<U64>)
    requires st.pos < |st.b| && low < 32
    modifies st`pos
    ensures match TsReadArg(st.b[old(st.pos)..], low)
            case Ok((n, k)) => r == Ok(n) && st.pos == old(st.pos) + k
            case Err(e) => r == Err(e) && st.pos == old(st.pos)
  {
    if low < 24 {
      st.pos := st.pos + 1;
      return Ok(low);
    }
    var width := if low == 24 then 1 else if low == 25 then 2 else if low == 26 then 4
        else if low == 27 then 8 else 0;
    if width == 0 || st.pos >= |st.b| || |st.b| - st.pos - 1 < width {
      return Err(TruncatedArgument);
    }
    TsSlice(st.b, st.pos, 1, 1 + width);
    var v := ReadBig(st.b, st.pos + 1, width);
    Parser.FieldBound(st.b[st.pos + 1..st.pos + 1 + width]);
    st.pos := st.pos + width + 1;
    r := Ok(v);
  }

  /** The loop `v = (v << 8n) | BigInt(b[i])`, on an unbounded integer. */
  method ReadBig(b: seq<Byte>, from: nat, w: nat) returns (v: nat)
    requires from + w <= |b|
    ensures v == FromBigEndian(b[from..from + w])
  {
    v := 0;
    for i := 0 to w
      invariant v == FromBigEndian(b[from..from + i])
    {
      assert b[from..from + i + 1] == b[from..from + i] + [b[from + i]];
      v := v * 0x100 + b[from + i];
    }
  }

  // One step of the specification, arm by arm.

  function TsLevels(depth: int): nat {
    if depth > 64 then 0 else 65 - depth
  }

  lemma TsLevelStep(depth: int)
    requires depth <= 64
    ensures TsLevels(depth + 1) < TsLevels(depth)
  {
  }

  lemma TsRefused(rt: Runtime, s: seq<Byte>, depth: int)
    ensures depth > 64 ==> TsParse(rt, s, depth) == Err(NestingLimit)
    ensures depth <= 64 && TsParseFrame(rt, s).Err? ==> TsParse(rt, s, depth) == Err(TsParseFrame(rt, s).error)
  {
    hide TsParseFrame;
  }

  lemma TsLeafRead(rt: Runtime, s: seq<Byte>, depth: int, t: TsValue, k: nat)
    requires depth <= 64 && TsParseFrame(rt, s) == Ok((TsLeaf(t), k))
    ensures TsParse(rt, s, depth) == Ok((t, k))
  {
    hide TsParseFrame;
  }

  lemma TsContainerRead(rt: Runtime, s: seq<Byte>, depth: int, f: TsFrame, k: nat)
    requires depth <= 64 && TsParseFrame(rt, s) == Ok((f, k)) && k <= |s|
    ensures match TsParseAll(rt, s[k..], depth + 1, TsArity(f))
            case Ok((kids, m)) => TsParse(rt, s, depth) == Ok((TsBuild(f, kids), k + m))
            case Err(e) => TsParse(rt, s, depth) == Err(e)
  {
    hide TsParseFrame, TsParseAll, TsBuild, TsArity;
  }

  /** A run of the list parser, resumed after `done` items and `off` bytes. */
  function TsResume(done: seq<TsValue>, off: nat, rest: Result<(seq<TsValue>, nat)>): Result<(seq<TsValue>, nat)> {
    match rest
    case Ok((ts, m)) => Ok((done + ts, off + m))
    case Err(e) => Err(e)
  }

  lemma TsResumeStep(rt: Runtime, s: seq<Byte>, depth: int, count: nat, done: seq<TsValue>, off: nat)
    requires count > 0
    ensures match TsParse(rt, s, depth)
            case Ok((t, n)) =>
              TsResume(done, off, TsParseAll(rt, s, depth, count))
              == TsResume(done + [t], off + n, TsParseAll(rt, s[n..], depth, count - 1))
            case Err(e) =>
              TsResume(done, off, TsParseAll(rt, s, depth, count)) == Err(e)
  {
    hide TsParse;
    if TsParse(rt, s, depth).Ok? {
      var (t, n) := TsParse(rt, s, depth).value;
      var rest := TsParseAll(rt, s[n..], depth, count - 1);
      if rest.Ok? {
        assert done + ([t] + rest.value.0) == done + [t] + rest.value.0;
      }
    }
  }

  lemma TsResumeEnds(rt: Runtime, s: seq<Byte>, depth: int, done: seq<TsValue>, off: nat)
    ensures TsResume(done, off, TsParseAll(rt, s, depth, 0)) == Ok((done, off))
  {
    assert done + [] == done;
  }

  lemma TsResumeStarts(r: Result<(seq<TsValue>, nat)>)
    ensures TsResume([], 0, r) == r
  {
    if r.Ok? {
      assert [] + r.value.0 == r.value.0;
    }
  }

  method ReadFloat(rt: Runtime, st: TsCursor, low: nat) returns (r: Result<U64>)
    requires st.pos < |st.b| && (low == 26 || low == 27)
    modifies st`pos
    ensures old(st.pos) <= st.pos <= |st.b|
    ensures match TsReadArg(st.b[old(st.pos)..], low)
            case Ok((n, k)) => r == Ok(if low == 26 then rt.widen(n) else n) && st.pos == old(st.pos) + k
            case Err(e) => r == Err(e)
  {
    var bits := ReadArg(st, low);
    if bits.Err? {
      return bits;
    }
    if low == 26 {
      r := Ok(rt.widen(bits.value));
    } else {
      r := bits;
    }
  }

  method DecInto(rt: Runtime, st: TsCursor, depth: int) returns (r: Result<TsValue>)
    requires st.pos <= |st.b|
    modifies st`pos
    ensures old(st.pos) <= st.pos <= |st.b|
    ensures match TsParse(rt, st.b[old(st.pos)..], depth)
            case Ok((t, n)) => r == Ok(t) && st.pos == old(st.pos) + n
            case Err(e) => r == Err(e)
    decreases TsLevels(depth), 1
  {
    ghost var s, start := st.b[st.pos..], st.pos;
    TsRefused(rt, s, depth);
    if depth > 64 {
      return Err(NestingLimit);
    }
    if st.pos >= |st.b| {
      return Err(UnexpectedEnd);
    }
    var ib := st.b[st.pos];
    var major, low := ib / 32, ib % 32;
    if major == 7 {
      r := DecSimple(rt, st, low);
      if r.Ok? {
        TsLeafRead(rt, s, depth, r.value, st.pos - start);
      }
      return;
    }
    var head := ReadArg(st, low);
    if head.Err? {
      return Err(head.error);
    }
    assert TsParseFrame(rt, s) == TsParseBody(rt, major, head.value, s, st.pos - start);
    r := DecBody(rt, st, depth, major, head.value, start);
  }

  /** The arms of major type 7. */
  method DecSimple(rt: Runtime, st: TsCursor, low: nat) returns (r: Result<TsValue>)
    requires st.pos < |st.b| && st.b[st.pos] / 32 == 7 && st.b[st.pos] % 32 == low
    modifies st`pos
    ensures old(st.pos) <= st.pos <= |st.b|
    ensures match TsParseFrame(rt, st.b[old(st.pos)..])
            case Ok((f, k)) => r.Ok? && f == TsLeaf(r.value) && st.pos == old(st.pos) + k
            case Err(e) => r == Err(e)
  {
    hide TsReadArg;
    if low == 20 {
      st.pos := st.pos + 1;
      return Ok(Boolean(false));
    }
    if low == 21 {
      st.pos := st.pos + 1;
      return Ok(Boolean(true));
    }
    if low == 22 || low == 23 {
      st.pos := st.pos + 1;
      return Ok(JsNull);
    }
    if low == 26 || low == 27 {
      var bits := ReadFloat(rt, st, low);
      if bits.Err? {
        return Err(bits.error);
      }
      return Ok(Number(bits.value));
    }
    r := Err(UnsupportedSimple);
  }

  /** The switch on the other major types, entered with the cursor behind the head that began at `start`. */
  method DecBody(rt: Runtime, st: TsCursor, depth: int, major: Major, arg: U64, ghost start: nat)
    returns (r: Result<TsValue>)
    requires major != 7 && depth <= 64 && start < st.pos <= |st.b|
    requires TsParseFrame(rt, st.b[start..]) == TsParseBody(rt, major, arg, st.b[start..], st.pos - start)
    modifies st`pos
    ensures old(st.pos) <= st.pos <= |st.b|
    ensures match TsParse(rt, st.b[start..], depth)
            case Ok((t, n)) => r == Ok(t) && st.pos == start + n
            case Err(e) => r == Err(e)
    decreases TsLevels(depth), 0
  {
    hide TsParseFrame, TsParse, TsParseAll, TsLevels, SmallInt, NegativeInt, StripBom, NearestNumber, SetAll;
    ghost var s, k := st.b[start..], st.pos - start;
    var left := |st.b| - st.pos;
    TsRefused(rt, s, depth);
    TsLevelStep(depth);
    TsSlice(st.b, start, k, k);
    match major {
      case 0 =>
        r := Ok(SmallInt(arg));
        TsLeafRead(rt, s, depth, SmallInt(arg), k);
      case 1 =>
        r := Ok(NegativeInt(arg));
        TsLeafRead(rt, s, depth, NegativeInt(arg), k);
      case 2 =>
        if arg > left {
          return Err(TruncatedBytes);
        }
        TsSlice(st.b, start, k, k + arg);
        var slice := st.b[st.pos..st.pos + arg];
        st.pos := st.pos + arg;
        r := Ok(Blob(slice));
        TsLeafRead(rt, s, depth, Blob(slice), k + arg);
      case 3 =>
        if arg > left {
          return Err(TruncatedText);
        }
        TsSlice(st.b, start, k, k + arg);
        var text := st.b[st.pos..st.pos + arg];
        if !rt.utf8(text) {
          return Err(InvalidUtf8);
        }
        st.pos := st.pos + arg;
        r := Ok(Str(StripBom(text)));
        TsLeafRead(rt, s, depth, Str(StripBom(text)), k + arg);
      case 4 =>
        if arg > left {
          return Err(ArrayTooLong);
        }
        TsContainerRead(rt, s, depth, TsList(arg), k);
        var arr := DecItems(rt, st, depth + 1, arg);
        if arr.Err? {
          return Err(arr.error);
        }
        r := Ok(List(arr.value));
      case 5 =>
        if arg > left {
          return Err(MapTooLong);
        }
        TsContainerRead(rt, s, depth, TsDict(arg), k);
        var m := DecEntries(rt, st, depth + 1, arg);
        if m.Err? {
          return Err(m.error);
        }
        r := Ok(Dict(m.value));
      case 6 =>
        TsContainerRead(rt, s, depth, TsTag(NearestNumber(arg)), k);
        var inner := DecItems(rt, st, depth + 1, 1);
        if inner.Err? {
          return Err(inner.error);
        }
        r := Ok(Tagged(NearestNumber(arg), inner.value[0]));
    }
  }

  /** The array arm's loop. */
  method DecItems(rt: Runtime, st: TsCursor, depth: int, n: nat) returns (r: Result<seq<TsValue>>)
    requires st.pos <= |st.b|
    modifies st`pos
    ensures old(st.pos) <= st.pos <= |st.b|
    ensures match TsParseAll(rt, st.b[old(st.pos)..], depth, n)
            case Ok((ts, m)) => r == Ok(ts) && st.pos == old(st.pos) + m
            case Err(e) => r == Err(e)
    decreases TsLevels(depth), 2
  {
    hide *;
    ghost var start, spec := st.pos, TsParseAll(rt, st.b[st.pos..], depth, n);
    var arr := [];
    TsResumeStarts(spec);
    for i := 0 to n
      invariant start <= st.pos <= |st.b|
      invariant spec == TsResume(arr, st.pos - start, TsParseAll(rt, st.b[st.pos..], depth, n - i))
    {
      ghost var from := st.pos;
      TsResumeStep(rt, st.b[from..], depth, n - i, arr, from - start);
      var item := DecInto(rt, st, depth);
      if item.Err? {
        return Err(item.error);
      }
      TsSlice(st.b, from, st.pos - from, st.pos - from);
      arr := arr + [item.value];
    }
    TsResumeEnds(rt, st.b[st.pos..], depth, arr, st.pos - start);
    r := Ok(arr);
  }

  lemma SetAllSnoc(es: seq<TsEntry>, kvs: seq<TsValue>, k: TsValue, v: TsValue)
    requires |kvs| % 2 == 0
    ensures SetAll(es, kvs + [k] + [v]) == MapSet(SetAll(es, kvs), k, v)
    decreases |kvs|
  {
    hide MapSet;
    if kvs == [] {
      assert (kvs + [k] + [v])[2..] == [];
    } else {
      assert (kvs + [k] + [v])[2..] == kvs[2..] + [k] + [v];
      SetAllSnoc(MapSet(es, kvs[0], kvs[1]), kvs[2..], k, v);
    }
  }

  lemma SetAllNothing()
    ensures SetAll([], []) == []
  {
  }

  /** The map arm's loop: a key, its value, then `m.set`. */
  method DecEntries(rt: Runtime, st: TsCursor, depth: int, n: nat) returns (r: Result<seq<TsEntry>>)
    requires st.pos <= |st.b|
    modifies st`pos
    ensures old(st.pos) <= st.pos <= |st.b|
    ensures match TsParseAll(rt, st.b[old(st.pos)..], depth, 2 * n)
            case Ok((ts, m)) => r == Ok(SetAll([], ts)) && st.pos == old(st.pos) + m
            case Err(e) => r == Err(e)
    decreases TsLevels(depth), 2
  {
    hide *;
    ghost var start, spec := st.pos, TsParseAll(rt, st.b[st.pos..], depth, 2 * n);
    ghost var read := [];
    var m := [];
    TsResumeStarts(spec);
    SetAllNothing();
    for i := 0 to n
      invariant start <= st.pos <= |st.b|
      invariant |read| == 2 * i && m == SetAll([], read)
      invariant spec == TsResume(read, st.pos - start, TsParseAll(rt, st.b[st.pos..], depth, 2 * (n - i)))
    {
      ghost var from, todo := st.pos, 2 * (n - i);
      TsResumeStep(rt, st.b[from..], depth, todo, read, from - start);
      var k := DecInto(rt, st, depth);
      if k.Err? {
        return Err(k.error);
      }
      TsSlice(st.b, from, st.pos - from, st.pos - from);
      ghost var mid := st.pos;
      TsResumeStep(rt, st.b[mid..], depth, todo - 1, read + [k.value], mid - start);
      var val := DecInto(rt, st, depth);
      if val.Err? {
        return Err(val.error);
      }
      TsSlice(st.b, mid, st.pos - mid, st.pos - mid);
      SetAllSnoc([], read, k.value, val.value);
      m := MapSet(m, k.value, val.value);
      read := read + [k.value] + [val.value];
    }
    TsResumeEnds(rt, st.b[st.pos..], depth, read, st.pos - start);
    r := Ok(m);
  }

  method DecodeValue(rt: Runtime, bytes: seq<Byte>) returns (r: Result<TsValue>)
    ensures r == TsDecode(rt, bytes)
  {
    var st := new TsCursor(bytes);
    hide TsParse;
    assert bytes[0..] == bytes;
    r := DecInto(rt, st, 0);
    if r.Ok? && st.pos != |bytes| {
      r := Err(TrailingBytes);
    }
  }
}
