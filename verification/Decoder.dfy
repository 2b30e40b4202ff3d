/** The Go decoder as the code runs it: a cursor advanced over a byte slice, with loops that fill
    arrays and maps. Proved to compute `Parser.Parse` and to reserve what `Costs.Reserve` counts. */
module Decoder {
  import opened Machine
  import opened CborTree
  import opened Encoder
  import opened Parser
  import opened Costs

  /** Go's `pos *int`, with a ghost meter of everything `make`, `copy` and `string` allocate. */
  class Cursor {
    var pos: nat
    ghost var reserved: nat

    constructor ()
      ensures pos == 0 && reserved == 0
    {
      pos, reserved := 0, 0;
    }
  }

  lemma SuffixSlice(b: seq<Byte>, pos: nat, i: nat, j: nat)
    requires pos <= |b| && i <= j && pos + j <= |b|
    ensures b[pos..][i..j] == b[pos + i..pos + j]
    ensures b[pos..][i..] == b[pos + i..]
    ensures i < |b[pos..]| ==> b[pos..][i] == b[pos + i]
  {
  }

  /** The loop `v = v<<8 | b[pos+i]` on a 64-bit word: no bit is ever shifted out. */
  method ReadField(b: seq<Byte>, from: nat, w: nat) returns (v: U64)
    requires from + w <= |b| && w <= 8
    ensures v == FromBigEndian(b[from..from + w])
  {
    v := 0;
    for i := 0 to w
      invariant v == FromBigEndian(b[from..from + i])
    {
      assert b[from..from + i + 1] == b[from..from + i] + [b[from + i]];
      ShortField(b[from..from + i]);
      v := v * 0x100 % TWO_64 + b[from + i];
    }
  }

  lemma ShortField(s: seq<Byte>)
    requires |s| < 8
    ensures FromBigEndian(s) * 0x100 + 0xff < TWO_64
  {
    FromBigEndianRoundTrip(s);
    Pow256Values();
    Pow256Monotone(|s|, 7);
  }

  lemma {:induction false} Pow256Monotone(i: nat, j: nat)
    requires i <= j
    ensures Pow256(i) <= Pow256(j)
  {
    if i < j {
      Pow256Monotone(i, j - 1);
    }
  }

  method CborReadArg(b: seq<Byte>, cur: Cursor, low: nat) returns (r: Result<U64>)
    requires cur.pos < |b| && low < 32
    modifies cur`pos
    ensures match ReadArg(b[old(cur.pos)..], low)
            case Ok((n, k)) => r == Ok(n) && cur.pos == old(cur.pos) + k
            case Err(e) => r == Err(e) && cur.pos == old(cur.pos)
  {
    ghost var s := b[cur.pos..];
    if low < 24 {
      cur.pos := cur.pos + 1;
      return Ok(low);
    }
    match low {
      case 24 =>
        if |b| - cur.pos < 2 {
          return Err(TruncatedArgument);
        }
        SuffixSlice(b, cur.pos, 1, 2);
        OneByte(s[1..2]);
        r := Ok(b[cur.pos + 1]);
        cur.pos := cur.pos + 2;
      case 25 =>
        if |b| - cur.pos < 3 {
          return Err(TruncatedArgument);
        }
        SuffixSlice(b, cur.pos, 1, 3);
        TwoBytes(s[1..3]);
        var hi: int, lo: int := b[cur.pos + 1], b[cur.pos + 2];
        r := Ok(hi * 0x100 + lo);
        cur.pos := cur.pos + 3;
      case 26 =>
        if |b| - cur.pos < 5 {
          return Err(TruncatedArgument);
        }
        SuffixSlice(b, cur.pos, 1, 5);
        var v := ReadField(b, cur.pos + 1, 4);
        r := Ok(v);
        cur.pos := cur.pos + 5;
      case 27 =>
        if |b| - cur.pos < 9 {
          return Err(TruncatedArgument);
        }
        SuffixSlice(b, cur.pos, 1, 9);
        var v := ReadField(b, cur.pos + 1, 8);
        r := Ok(v);
        cur.pos := cur.pos + 9;
      case _ =>
        return Err(ReservedInfo);
    }
  }

  lemma OneByte(s: seq<Byte>)
    requires |s| == 1
    ensures FromBigEndian(s) == s[0]
  {
    assert s[..0] == [];
  }

  lemma TwoBytes(s: seq<Byte>)
    requires |s| == 2
    ensures FromBigEndian(s) == 0x100 * (s[0] as int) + s[1]
  {
    OneByte(s[..1]);
  }

  // One step of the specification, arm by arm.

  lemma FrameRefused(rt: Runtime, s: seq<Byte>, depth: int)
    ensures depth > DEPTH_LIMIT ==> Parse(rt, s, depth) == Err(NestingLimit) && Reserve(rt, s, depth) == 0
    ensures depth <= DEPTH_LIMIT && ParseFrame(rt, s).Err? ==>
              Parse(rt, s, depth) == Err(ParseFrame(rt, s).error) && Reserve(rt, s, depth) == 0
  {
    hide ParseFrame;
  }

  lemma LeafRead(rt: Runtime, s: seq<Byte>, depth: int, v: Value, k: nat)
    requires depth <= DEPTH_LIMIT && ParseFrame(rt, s) == Ok((Leaf(v), k))
    ensures Parse(rt, s, depth) == Ok((v, k)) && Reserve(rt, s, depth) == Slots(Leaf(v))
  {
    hide ParseFrame;
  }

  lemma ContainerRead(rt: Runtime, s: seq<Byte>, depth: int, f: Frame, k: nat)
    requires depth <= DEPTH_LIMIT && ParseFrame(rt, s) == Ok((f, k))
    ensures Reserve(rt, s, depth) == Slots(f) + ReserveAll(rt, s[k..], depth + 1, Arity(f))
    ensures match ParseAll(rt, s[k..], depth + 1, Arity(f))
            case Ok((kids, m)) => Parse(rt, s, depth) == Ok((Build(f, kids), k + m))
            case Err(e) => Parse(rt, s, depth) == Err(e)
  {
    hide ParseFrame, ParseAll, ReserveAll, Build, Arity, Slots;
  }

  /** A run of the list parser, resumed after `done` items and `off` bytes. */
  function Resume(done: seq<Value>, off: nat, rest: Result<(seq<Value>, nat)>): Result<(seq<Value>, nat)> {
    match rest
    case Ok((vs, m)) => Ok((done + vs, off + m))
    case Err(e) => Err(e)
  }

  lemma ResumeStep(rt: Runtime, s: seq<Byte>, depth: int, count: nat, done: seq<Value>, off: nat)
    requires count > 0
    ensures match Parse(rt, s, depth)
            case Ok((v, n)) =>
              && Resume(done, off, ParseAll(rt, s, depth, count))
                 == Resume(done + [v], off + n, ParseAll(rt, s[n..], depth, count - 1))
              && ReserveAll(rt, s, depth, count)
                 == Reserve(rt, s, depth) + ReserveAll(rt, s[n..], depth, count - 1)
            case Err(e) =>
              && Resume(done, off, ParseAll(rt, s, depth, count)) == Err(e)
              && ReserveAll(rt, s, depth, count) == Reserve(rt, s, depth)
  {
    hide Parse, Reserve;
    if Parse(rt, s, depth).Ok? {
      var (v, n) := Parse(rt, s, depth).value;
      var rest := ParseAll(rt, s[n..], depth, count - 1);
      if rest.Ok? {
        assert done + ([v] + rest.value.0) == done + [v] + rest.value.0;
      }
    }
  }

  lemma ResumeEnds(rt: Runtime, s: seq<Byte>, depth: int, done: seq<Value>, off: nat)
    ensures Resume(done, off, ParseAll(rt, s, depth, 0)) == Ok((done, off))
    ensures ReserveAll(rt, s, depth, 0) == 0
  {
    assert done + [] == done;
  }

  lemma ResumeStarts(r: Result<(seq<Value>, nat)>)
    ensures Resume([], 0, r) == r
  {
    if r.Ok? {
      assert [] + r.value.0 == r.value.0;
    }
  }

  method CborDec(rt: Runtime, b: seq<Byte>, cur: Cursor, depth: int) returns (r: Result<Value>)
    requires cur.pos <= |b|
    modifies cur
    ensures old(cur.pos) <= cur.pos <= |b|
    ensures cur.reserved == old(cur.reserved) + Reserve(rt, b[old(cur.pos)..], depth)
    ensures match Parse(rt, b[old(cur.pos)..], depth)
            case Ok((v, n)) => r == Ok(v) && cur.pos == old(cur.pos) + n
            case Err(e) => r == Err(e)
    decreases Levels(depth), 1
  {
    ghost var s, start := b[cur.pos..], cur.pos;
    FrameRefused(rt, s, depth);
    if depth > DEPTH_LIMIT {
      return Err(NestingLimit);
    }
    if cur.pos >= |b| {
      return Err(UnexpectedEnd);
    }
    var ib := b[cur.pos];
    var major, low := ib / 32, ib % 32;
    if major == 7 {
      r := CborDecSimple(rt, b, cur, low);
      if r.Ok? {
        LeafRead(rt, s, depth, r.value, cur.pos - start);
      }
      return;
    }
    var head := CborReadArg(b, cur, low);
    if head.Err? {
      return Err(head.error);
    }
    var arg := head.value;
    ghost var k := cur.pos - start;
    SuffixSlice(b, start, k, k);
    assert ParseFrame(rt, s) == ParseBody(rt, major, arg, s, k);
    r := CborDecBody(rt, b, cur, depth, major, arg, start);
  }

  /** The arms of major type 7. */
  method CborDecSimple(rt: Runtime, b: seq<Byte>, cur: Cursor, low: nat) returns (r: Result<Value>)
    requires cur.pos < |b| && b[cur.pos] / 32 == 7 && b[cur.pos] % 32 == low
    modifies cur`pos
    ensures old(cur.pos) <= cur.pos <= |b|
    ensures match ParseFrame(rt, b[old(cur.pos)..])
            case Ok((f, k)) => r.Ok? && f == Leaf(r.value) && Slots(f) == 0 && cur.pos == old(cur.pos) + k
            case Err(e) => r == Err(e)
  {
    hide ReadArg;
    match low {
      case 20 =>
        cur.pos := cur.pos + 1;
        r := Ok(Bool(false));
      case 21 =>
        cur.pos := cur.pos + 1;
        r := Ok(Bool(true));
      case 22 | 23 =>
        cur.pos := cur.pos + 1;
        r := Ok(Null);
      case 26 =>
        var bits := CborReadArg(b, cur, low);
        if bits.Err? {
          return Err(bits.error);
        }
        r := Ok(Float(rt.widen(bits.value)));
      case 27 =>
        var bits := CborReadArg(b, cur, low);
        if bits.Err? {
          return Err(bits.error);
        }
        r := Ok(Float(bits.value));
      case _ =>
        r := Err(UnsupportedSimple);
    }
  }

  lemma ItemLevels(depth: int)
    requires depth <= DEPTH_LIMIT
    ensures Levels(depth + 1) < Levels(depth)
  {
  }

  /** The container arms of the switch, entered with the cursor behind the head that began at `start`. */
  method CborDecBody(rt: Runtime, b: seq<Byte>, cur: Cursor, depth: int, major: Major, arg: U64, ghost start: nat)
    returns (r: Result<Value>)
    requires major != 7 && depth <= DEPTH_LIMIT && start < cur.pos <= |b|
    requires ParseFrame(rt, b[start..]) == ParseBody(rt, major, arg, b[start..], cur.pos - start)
    modifies cur
    ensures old(cur.pos) <= cur.pos <= |b|
    ensures cur.reserved == old(cur.reserved) + Reserve(rt, b[start..], depth)
    ensures match Parse(rt, b[start..], depth)
            case Ok((v, n)) => r == Ok(v) && cur.pos == start + n
            case Err(e) => r == Err(e)
    decreases Levels(depth), 0
  {
    hide ParseFrame, Parse, ParseAll, Reserve, ReserveAll, Levels;
    ghost var s, k := b[start..], cur.pos - start;
    FrameRefused(rt, s, depth);
    ItemLevels(depth);
    SuffixSlice(b, start, k, k);
    match major {
      case 4 =>
        if arg > |b| - cur.pos {
          return Err(ArrayTooLong);
        }
        ContainerRead(rt, s, depth, ArrayOf(arg), k);
        cur.reserved := cur.reserved + arg;
        var items := CborDecItems(rt, b, cur, depth + 1, arg);
        if items.Err? {
          return Err(items.error);
        }
        r := Ok(Array(items.value));
      case 5 =>
        if arg > |b| - cur.pos {
          return Err(MapTooLong);
        }
        ContainerRead(rt, s, depth, MapOf(arg), k);
        cur.reserved := cur.reserved + arg;
        var entries := CborDecEntries(rt, b, cur, depth + 1, arg);
        if entries.Err? {
          return Err(entries.error);
        }
        r := Ok(Map(entries.value));
      case 6 =>
        ContainerRead(rt, s, depth, TagOf(arg), k);
        OneItem(rt, b[cur.pos..], depth + 1);
        var inner := CborDec(rt, b, cur, depth + 1);
        if inner.Err? {
          return Err(inner.error);
        }
        r := Ok(Tag(arg, inner.value));
      case _ =>
        r := CborDecString(rt, b, cur, depth, major, arg, start);
    }
  }

  lemma OneItem(rt: Runtime, s: seq<Byte>, depth: int)
    ensures match Parse(rt, s, depth)
            case Ok((v, n)) => ParseAll(rt, s, depth, 1) == Ok(([v], n))
            case Err(e) => ParseAll(rt, s, depth, 1) == Err(e)
    ensures ReserveAll(rt, s, depth, 1) == Reserve(rt, s, depth)
  {
    hide Parse, Reserve;
    ReserveAllStep(rt, s, depth, 1);
    if Parse(rt, s, depth).Ok? {
      var (v, n) := Parse(rt, s, depth).value;
      EmptyList(rt, s[n..], depth);
      ReserveAllStep(rt, s[n..], depth, 0);
      ParseAllOf(rt, s, depth, v, n, [], 0);
      assert [v] + [] == [v];
    }
  }

  /** The integer and string arms. */
  method CborDecString(rt: Runtime, b: seq<Byte>, cur: Cursor, ghost depth: int, major: Major, arg: U64,
      ghost start: nat)
    returns (r: Result<Value>)
    requires major <= 3 && depth <= DEPTH_LIMIT && start < cur.pos <= |b|
    requires ParseFrame(rt, b[start..]) == ParseBody(rt, major, arg, b[start..], cur.pos - start)
    modifies cur
    ensures old(cur.pos) <= cur.pos <= |b|
    ensures cur.reserved == old(cur.reserved) + Reserve(rt, b[start..], depth)
    ensures match Parse(rt, b[start..], depth)
            case Ok((v, n)) => r == Ok(v) && cur.pos == start + n
            case Err(e) => r == Err(e)
  {
    hide ParseFrame, Parse, ParseAll, Reserve, ReserveAll;
    ghost var s, k := b[start..], cur.pos - start;
    FrameRefused(rt, s, depth);
    match major {
      case 0 =>
        r := Ok(Uint(arg));
        LeafRead(rt, s, depth, Uint(arg), k);
      case 1 =>
        if arg > MAX_I64 {
          return Err(NegativeOutOfRange);
        }
        var i: I64 := -1 - arg;
        r := Ok(Int(i));
        LeafRead(rt, s, depth, Int(i), k);
      case 2 =>
        if arg > |b| - cur.pos {
          return Err(TruncatedBytes);
        }
        var data := b[cur.pos..cur.pos + arg];
        SuffixSlice(b, start, k, k + arg);
        cur.pos, cur.reserved := cur.pos + arg, cur.reserved + arg;
        r := Ok(Bytes(data));
        LeafRead(rt, s, depth, Bytes(data), k + arg);
      case 3 =>
        if arg > |b| - cur.pos {
          return Err(TruncatedText);
        }
        var text := b[cur.pos..cur.pos + arg];
        SuffixSlice(b, start, k, k + arg);
        if !rt.utf8(text) {
          return Err(InvalidUtf8);
        }
        cur.pos, cur.reserved := cur.pos + arg, cur.reserved + arg;
        r := Ok(Text(text));
        LeafRead(rt, s, depth, Text(text), k + arg);
    }
  }

  /** The array arm's loop. */
  method CborDecItems(rt: Runtime, b: seq<Byte>, cur: Cursor, depth: int, n: nat) returns (r: Result<seq<Value>>)
    requires cur.pos <= |b|
    modifies cur
    ensures old(cur.pos) <= cur.pos <= |b|
    ensures cur.reserved == old(cur.reserved) + ReserveAll(rt, b[old(cur.pos)..], depth, n)
    ensures match ParseAll(rt, b[old(cur.pos)..], depth, n)
            case Ok((vs, m)) => r == Ok(vs) && cur.pos == old(cur.pos) + m
            case Err(e) => r == Err(e)
    decreases Levels(depth), 2
  {
    hide *;
    ghost var start, spec := cur.pos, ParseAll(rt, b[cur.pos..], depth, n);
    var items := [];
    ResumeStarts(spec);
    for i := 0 to n
      invariant start <= cur.pos <= |b|
      invariant spec == Resume(items, cur.pos - start, ParseAll(rt, b[cur.pos..], depth, n - i))
      invariant old(cur.reserved) + ReserveAll(rt, b[start..], depth, n)
             == cur.reserved + ReserveAll(rt, b[cur.pos..], depth, n - i)
    {
      ghost var from := cur.pos;
      ResumeStep(rt, b[from..], depth, n - i, items, from - start);
      var item := CborDec(rt, b, cur, depth);
      if item.Err? {
        return Err(item.error);
      }
      SuffixSlice(b, from, cur.pos - from, cur.pos - from);
      items := items + [item.value];
    }
    ResumeEnds(rt, b[cur.pos..], depth, items, cur.pos - start);
    r := Ok(items);
  }

  /** Two items at once: the list parser on two items is two item reads. */
  lemma TwoItems(rt: Runtime, s: seq<Byte>, depth: int)
    ensures Parse(rt, s, depth).Err? ==>
      && ReserveAll(rt, s, depth, 2) == Reserve(rt, s, depth)
      && ParseAll(rt, s, depth, 2) == Err(Parse(rt, s, depth).error)
    ensures Parse(rt, s, depth).Ok? ==>
      var (k, n) := Parse(rt, s, depth).value;
      var second := Parse(rt, s[n..], depth);
      && ReserveAll(rt, s, depth, 2) == Reserve(rt, s, depth) + Reserve(rt, s[n..], depth)
      && (second.Ok? ==> ParseAll(rt, s, depth, 2) == Ok(([k, second.value.0], n + second.value.1)))
      && (second.Err? ==> ParseAll(rt, s, depth, 2) == Err(second.error))
  {
    hide Parse, Reserve, ReserveAll;
    ReserveAllStep(rt, s, depth, 2);
    if Parse(rt, s, depth).Ok? {
      var (k, n) := Parse(rt, s, depth).value;
      OneItem(rt, s[n..], depth);
      if Parse(rt, s[n..], depth).Ok? {
        var (v, m) := Parse(rt, s[n..], depth).value;
        ParseAllOf(rt, s, depth, k, n, [v], m);
        assert [k] + [v] == [k, v];
      }
    }
  }

  /** Resuming after two items. */
  lemma ResumePair(rt: Runtime, s: seq<Byte>, depth: int, count: nat, es: seq<Entry>, off: nat)
    requires count > 0
    ensures match ParseAll(rt, s, depth, 2)
            case Ok((vs, n)) =>
              && Resume(Flatten(es), off, ParseAll(rt, s, depth, 2 * count))
                 == Resume(Flatten(es + [Entry(vs[0], vs[1])]), off + n, ParseAll(rt, s[n..], depth, 2 * (count - 1)))
              && ReserveAll(rt, s, depth, 2 * count)
                 == ReserveAll(rt, s, depth, 2) + ReserveAll(rt, s[n..], depth, 2 * (count - 1))
            case Err(e) =>
              && Resume(Flatten(es), off, ParseAll(rt, s, depth, 2 * count)) == Err(e)
              && ReserveAll(rt, s, depth, 2 * count) == ReserveAll(rt, s, depth, 2)
  {
    hide *;
    TwoItems(rt, s, depth);
    ResumeStep(rt, s, depth, 2 * count, Flatten(es), off);
    if Parse(rt, s, depth).Ok? {
      var (k, n) := Parse(rt, s, depth).value;
      ResumeStep(rt, s[n..], depth, 2 * count - 1, Flatten(es) + [k], off + n);
      if Parse(rt, s[n..], depth).Ok? {
        var (v, m) := Parse(rt, s[n..], depth).value;
        FlattenSnoc(es, Entry(k, v));
        TwoMore(Flatten(es), k, v);
        SuffixSlice(s, n, m, m);
      }
    }
  }

  /** The body of the map arm's loop: a key, then its value. */
  method CborDecEntry(rt: Runtime, b: seq<Byte>, cur: Cursor, depth: int) returns (r: Result<Entry>)
    requires cur.pos <= |b|
    modifies cur
    ensures old(cur.pos) <= cur.pos <= |b|
    ensures cur.reserved == old(cur.reserved) + ReserveAll(rt, b[old(cur.pos)..], depth, 2)
    ensures match ParseAll(rt, b[old(cur.pos)..], depth, 2)
            case Ok((vs, n)) => r == Ok(Entry(vs[0], vs[1])) && cur.pos == old(cur.pos) + n
            case Err(e) => r == Err(e)
    decreases Levels(depth), 2
  {
    hide *;
    ghost var from := cur.pos;
    TwoItems(rt, b[from..], depth);
    var key := CborDec(rt, b, cur, depth);
    if key.Err? {
      return Err(key.error);
    }
    SuffixSlice(b, from, cur.pos - from, cur.pos - from);
    var val := CborDec(rt, b, cur, depth);
    if val.Err? {
      return Err(val.error);
    }
    r := Ok(Entry(key.value, val.value));
  }

  /** The map arm's loop. */
  method CborDecEntries(rt: Runtime, b: seq<Byte>, cur: Cursor, depth: int, n: nat) returns (r: Result<seq<Entry>>)
    requires cur.pos <= |b|
    modifies cur
    ensures old(cur.pos) <= cur.pos <= |b|
    ensures cur.reserved == old(cur.reserved) + ReserveAll(rt, b[old(cur.pos)..], depth, 2 * n)
    ensures match ParseAll(rt, b[old(cur.pos)..], depth, 2 * n)
            case Ok((vs, m)) => r == Ok(Pair(vs)) && cur.pos == old(cur.pos) + m
            case Err(e) => r == Err(e)
    decreases Levels(depth), 3
  {
    hide *;
    ghost var start, spec := cur.pos, ParseAll(rt, b[cur.pos..], depth, 2 * n);
    var entries := [];
    FlattenNothing();
    ResumeStarts(spec);
    for i := 0 to n
      invariant start <= cur.pos <= |b|
      invariant spec == Resume(Flatten(entries), cur.pos - start, ParseAll(rt, b[cur.pos..], depth, 2 * (n - i)))
      invariant old(cur.reserved) + ReserveAll(rt, b[start..], depth, 2 * n)
             == cur.reserved + ReserveAll(rt, b[cur.pos..], depth, 2 * (n - i))
    {
      ghost var from := cur.pos;
      ResumePair(rt, b[from..], depth, n - i, entries, from - start);
      var e := CborDecEntry(rt, b, cur, depth);
      if e.Err? {
        return Err(e.error);
      }
      SuffixSlice(b, from, cur.pos - from, cur.pos - from);
      entries := entries + [e.value];
    }
    ResumeEnds(rt, b[cur.pos..], depth, Flatten(entries), cur.pos - start);
    PairFlatten(entries);
    r := Ok(entries);
  }

  lemma TwoMore(vs: seq<Value>, a: Value, b: Value)
    ensures vs + [a] + [b] == vs + [a, b]
  {
  }

  lemma FlattenNothing()
    ensures Flatten([]) == []
  {
  }

  /** A full payload: one item, and an error when bytes are left over. */
  method CborDecode(rt: Runtime, b: seq<Byte>) returns (r: Result<Value>)
    ensures r == Decode(rt, b)
  {
    var cur := new Cursor();
    assert b[0..] == b;
    hide Parse, Reserve;
    r := CborDec(rt, b, cur, 0);
    if r.Ok? && cur.pos != |b| {
      r := Err(TrailingBytes);
    }
  }
}
