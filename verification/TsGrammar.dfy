/** What TypeScript's decoder accepts: Go's grammar and the integers down to -2^64, read with JavaScript's
    numbers, strings and Maps. Its payloads are self-delimiting too. */
module TsGrammar {
  import opened Machine
  import opened CborTree
  import opened Grammar
  import opened Parser
  import opened TsTree
  import opened Simulation

  /** `p` is a head of the grammar, which TypeScript reads as `g`. */
  ghost predicate ReadsHead(rt: Runtime, g: TsFrame, p: seq<Byte>) {
    || (exists f: Frame :: Proper(f) && FrameForm(rt.widen, f, p) && ValidLeaf(rt, f) && g == ToTsFrame(f))
    || (exists arg: U64 :: HeadForm(1, arg, p) && arg > MAX_I64 && g == TsLeaf(BigInt(-1 - arg)))
  }

  predicate ValidLeaf(rt: Runtime, f: Frame) {
    f.Leaf? && f.v.Text? ==> rt.utf8(f.v.text)
  }

  /** `b` is an item of the grammar, at nesting depth `depth`, which TypeScript reads as `t`: a head, and as
      many items as it announces. What a Map then keeps of its items is `TsBuild`'s. */
  ghost predicate Reads(rt: Runtime, t: TsValue, b: seq<Byte>, depth: int)
    decreases |b|, 0, 0
  {
    && depth <= DEPTH_LIMIT
    && exists g: TsFrame, k: nat, kids: seq<TsValue> ::
         0 < k <= |b| && |kids| == TsArity(g) && Opens(rt, t, b, g, k, kids)
         && ReadsAll(rt, kids, b[k..], depth + 1)
  }

  ghost predicate Opens(rt: Runtime, t: TsValue, b: seq<Byte>, g: TsFrame, k: nat, kids: seq<TsValue>)
    requires k <= |b| && |kids| == TsArity(g)
  {
    ReadsHead(rt, g, b[..k]) && t == TsBuild(g, kids)
  }

  ghost predicate ReadsAll(rt: Runtime, ts: seq<TsValue>, b: seq<Byte>, depth: int)
    decreases |b|, 1, |ts|
  {
    if ts == [] then b == []
    else exists k: nat | 0 < k <= |b| :: Reads(rt, ts[0], b[..k], depth) && ReadsAll(rt, ts[1..], b[k..], depth)
  }

  // Heads.

  lemma HeadSound(rt: Runtime, s: seq<Byte>)
    requires TsParseFrame(rt, s).Ok?
    ensures var (g, k) := TsParseFrame(rt, s).value; ReadsHead(rt, g, s[..k])
  {
    FrameSimulation(rt, s);
    if ParseFrame(rt, s).Ok? {
      ParseFrameSound(rt, s);
      ParseFrameProper(rt, s);
    } else {
      WideSound(rt, s);
    }
    hide TsParseFrame, ParseFrame, FrameForm, ToTsFrame, HeadForm, WideFrame;
  }

  lemma ParseFrameProper(rt: Runtime, s: seq<Byte>)
    requires ParseFrame(rt, s).Ok?
    ensures Proper(ParseFrame(rt, s).value.0)
  {
    hide ReadArg;
  }

  lemma WideSound(rt: Runtime, s: seq<Byte>)
    requires WideFrame(s)
    ensures exists arg: U64, k: nat ::
              && TsParseFrame(rt, s) == Ok((TsLeaf(BigInt(-1 - arg)), k)) && k <= |s|
              && HeadForm(1, arg, s[..k]) && arg > MAX_I64
  {
    SameReadArg(s, s[0] % 32);
    ReadArgSound(1, s);
    var (arg, k) := ReadArg(s, s[0] % 32).value;
    hide ReadArg, TsReadArg, HeadForm, TsParseFrame;
    WideLead(rt, arg, s, k);
  }

  lemma HeadComplete(rt: Runtime, g: TsFrame, p: seq<Byte>, rest: seq<Byte>)
    requires ReadsHead(rt, g, p) && TsArity(g) <= |rest|
    ensures TsParseFrame(rt, p + rest) == Ok((g, |p|))
  {
    hide FrameForm, HeadForm, ToTsFrame, TsParseFrame, ParseFrame, ReadArg;
    if f: Frame :| Proper(f) && FrameForm(rt.widen, f, p) && ValidLeaf(rt, f) && g == ToTsFrame(f) {
      ParseFrameComplete(rt, f, p, rest);
      FrameSimulation(rt, p + rest);
    } else {
      var arg: U64 :| HeadForm(1, arg, p) && arg > MAX_I64 && g == TsLeaf(BigInt(-1 - arg));
      ReadArgComplete(1, arg, p, rest);
      assert (p + rest)[0] == p[0];
      WideLead(rt, arg, p + rest, |p|);
    }
  }

  // Items.

  lemma ReadsJoin(rt: Runtime, g: TsFrame, kids: seq<TsValue>, p: seq<Byte>, rest: seq<Byte>, depth: int)
    requires depth <= DEPTH_LIMIT && p != [] && |kids| == TsArity(g)
    requires ReadsHead(rt, g, p) && ReadsAll(rt, kids, rest, depth + 1)
    ensures Reads(rt, TsBuild(g, kids), p + rest, depth)
  {
    hide ReadsHead, ReadsAll, TsBuild;
    var b := p + rest;
    assert b[..|p|] == p && b[|p|..] == rest;
    assert Opens(rt, TsBuild(g, kids), b, g, |p|, kids);
  }

  lemma ReadsAllJoin(rt: Runtime, t: TsValue, ts: seq<TsValue>, p: seq<Byte>, rest: seq<Byte>, depth: int)
    requires p != [] && Reads(rt, t, p, depth) && ReadsAll(rt, ts, rest, depth)
    ensures ReadsAll(rt, [t] + ts, p + rest, depth)
  {
    hide Reads;
    var b, us := p + rest, [t] + ts;
    assert b[..|p|] == p && b[|p|..] == rest && us[1..] == ts;
  }

  lemma TsStep(rt: Runtime, s: seq<Byte>, depth: int)
    returns (g: TsFrame, k: nat, kids: seq<TsValue>, m: nat)
    requires TsParse(rt, s, depth).Ok?
    ensures depth <= DEPTH_LIMIT && TsParseFrame(rt, s) == Ok((g, k)) && 1 <= k <= |s|
    ensures TsParseAll(rt, s[k..], depth + 1, TsArity(g)) == Ok((kids, m)) && m <= |s| - k && |kids| == TsArity(g)
    ensures TsParse(rt, s, depth) == Ok((TsBuild(g, kids), k + m))
  {
    hide TsParseFrame, TsParseAll, TsBuild, TsArity;
    g, k := TsParseFrame(rt, s).value.0, TsParseFrame(rt, s).value.1;
    var r := TsParseAll(rt, s[k..], depth + 1, TsArity(g));
    kids, m := r.value.0, r.value.1;
  }

  lemma TsListStep(rt: Runtime, s: seq<Byte>, depth: int, count: nat)
    returns (t: TsValue, n: nat, ts: seq<TsValue>, m: nat)
    requires count > 0 && TsParseAll(rt, s, depth, count).Ok?
    ensures TsParse(rt, s, depth) == Ok((t, n)) && 1 <= n <= |s|
    ensures TsParseAll(rt, s[n..], depth, count - 1) == Ok((ts, m)) && m <= |s| - n && |ts| == count - 1
    ensures TsParseAll(rt, s, depth, count) == Ok(([t] + ts, n + m))
  {
    hide TsParse;
    t, n := TsParse(rt, s, depth).value.0, TsParse(rt, s, depth).value.1;
    var r := TsParseAll(rt, s[n..], depth, count - 1);
    ts, m := r.value.0, r.value.1;
  }

  /** What TypeScript reads, the grammar derives. */
  lemma {:induction false} ReadSound(rt: Runtime, s: seq<Byte>, depth: int)
    requires TsParse(rt, s, depth).Ok?
    ensures var (t, n) := TsParse(rt, s, depth).value; Reads(rt, t, s[..n], depth)
    decreases |s|, 0, 0
  {
    hide *;
    var g, k, kids, m := TsStep(rt, s, depth);
    HeadSound(rt, s);
    ReadAllSound(rt, s[k..], depth + 1, TsArity(g));
    ReadsJoin(rt, g, kids, s[..k], s[k..][..m], depth);
    SliceJoin(s, k, m);
  }

  lemma {:induction false} ReadAllSound(rt: Runtime, s: seq<Byte>, depth: int, count: nat)
    requires TsParseAll(rt, s, depth, count).Ok?
    ensures var (ts, n) := TsParseAll(rt, s, depth, count).value; |ts| == count && ReadsAll(rt, ts, s[..n], depth)
    decreases |s|, 1, count
  {
    hide *;
    if count == 0 {
      NoneRead(rt, s, depth);
    } else {
      var t, n, ts, m := TsListStep(rt, s, depth, count);
      ReadSound(rt, s, depth);
      ReadAllSound(rt, s[n..], depth, count - 1);
      ReadsAllJoin(rt, t, ts, s[..n], s[n..][..m], depth);
      SliceJoin(s, n, m);
    }
  }

  lemma NoneRead(rt: Runtime, s: seq<Byte>, depth: int)
    ensures TsParseAll(rt, s, depth, 0) == Ok(([], 0)) && s[..0] == [] && ReadsAll(rt, [], [], depth)
    ensures forall b | ReadsAll(rt, [], b, depth) :: b == []
  {
  }

  lemma ReadsSplit(rt: Runtime, t: TsValue, b: seq<Byte>, depth: int)
    returns (g: TsFrame, p: seq<Byte>, kids: seq<TsValue>, rest: seq<Byte>)
    requires Reads(rt, t, b, depth)
    ensures depth <= DEPTH_LIMIT && b == p + rest && |rest| < |b| && |kids| == TsArity(g)
    ensures ReadsHead(rt, g, p) && t == TsBuild(g, kids) && ReadsAll(rt, kids, rest, depth + 1)
  {
    hide ReadsHead, ReadsAll, TsBuild;
    var f, k: nat, ts :| 0 < k <= |b| && |ts| == TsArity(f) && Opens(rt, t, b, f, k, ts)
      && ReadsAll(rt, ts, b[k..], depth + 1);
    g, p, kids, rest := f, b[..k], ts, b[k..];
    assert b == b[..k] + b[k..];
  }

  lemma ReadsAllSplit(rt: Runtime, ts: seq<TsValue>, b: seq<Byte>, depth: int)
    returns (p: seq<Byte>, rest: seq<Byte>)
    requires ts != [] && ReadsAll(rt, ts, b, depth)
    ensures b == p + rest && p != [] && Reads(rt, ts[0], p, depth) && ReadsAll(rt, ts[1..], rest, depth)
  {
    hide Reads;
    var k: nat :| 0 < k <= |b| && Reads(rt, ts[0], b[..k], depth) && ReadsAll(rt, ts[1..], b[k..], depth);
    p, rest := b[..k], b[k..];
    assert b == b[..k] + b[k..];
  }

  lemma {:induction false} ReadsAllLength(rt: Runtime, ts: seq<TsValue>, b: seq<Byte>, depth: int)
    requires ReadsAll(rt, ts, b, depth)
    ensures |b| >= |ts|
    decreases |ts|
  {
    if ts != [] {
      var p, rest := ReadsAllSplit(rt, ts, b, depth);
      hide ReadsAll, Reads;
      ReadsAllLength(rt, ts[1..], rest, depth);
    }
  }

  /** What the grammar derives, TypeScript reads, whatever follows it. */
  lemma {:induction false} ReadComplete(rt: Runtime, t: TsValue, b: seq<Byte>, tail: seq<Byte>, depth: int)
    requires Reads(rt, t, b, depth)
    ensures TsParse(rt, b + tail, depth) == Ok((t, |b|))
    decreases |b|, 0, 0
  {
    hide *;
    SameLimit();
    var g, p, kids, rest := ReadsSplit(rt, t, b, depth);
    ReadsAllLength(rt, kids, rest, depth + 1);
    HeadComplete(rt, g, p, rest + tail);
    ReadAllComplete(rt, kids, rest, tail, depth + 1);
    Parser.Regroup(p, rest, tail);
    TsParseOf(rt, b + tail, depth, g, |p|);
  }

  lemma SameLimit()
    ensures DEPTH_LIMIT == 64
  {
  }

  lemma {:induction false} ReadAllComplete(rt: Runtime, ts: seq<TsValue>, b: seq<Byte>, tail: seq<Byte>, depth: int)
    requires ReadsAll(rt, ts, b, depth)
    ensures TsParseAll(rt, b + tail, depth, |ts|) == Ok((ts, |b|))
    decreases |b|, 1, |ts|
  {
    hide *;
    NoneRead(rt, b + tail, depth);
    if ts != [] {
      var p, rest := ReadsAllSplit(rt, ts, b, depth);
      ReadComplete(rt, ts[0], p, rest + tail, depth);
      ReadAllComplete(rt, ts[1..], rest, tail, depth);
      Parser.Regroup(p, rest, tail);
      TsParseAllStep(rt, b + tail, depth, |ts|);
      assert [ts[0]] + ts[1..] == ts;
    }
  }

  /** TypeScript's decoder accepts exactly the grammar. */
  lemma TsDecodeIsGrammar(rt: Runtime, b: seq<Byte>, t: TsValue)
    ensures TsDecode(rt, b) == Ok(t) <==> Reads(rt, t, b, 0)
  {
    hide TsParse, Reads;
    if TsDecode(rt, b) == Ok(t) {
      ReadSound(rt, b, 0);
      assert b[..|b|] == b;
    }
    if Reads(rt, t, b, 0) {
      ReadComplete(rt, t, b, [], 0);
      assert b + [] == b;
    }
  }

  /** A successful read does not look past the item. */
  lemma TsSuffixIrrelevant(rt: Runtime, s: seq<Byte>, tail: seq<Byte>, depth: int)
    requires TsParse(rt, s, depth).Ok?
    ensures TsParse(rt, s + tail, depth) == TsParse(rt, s, depth)
  {
    hide *;
    var (t, n) := TsParse(rt, s, depth).value;
    ReadSound(rt, s, depth);
    ReadComplete(rt, t, s[..n], s[n..] + tail, depth);
    assert s[..n] + (s[n..] + tail) == s + tail;
  }

  /** No payload TypeScript accepts is a proper prefix of another. */
  lemma TsPrefixFree(rt: Runtime, b: seq<Byte>, tail: seq<Byte>)
    requires tail != []
    ensures !(TsDecode(rt, b).Ok? && TsDecode(rt, b + tail).Ok?)
  {
    hide TsParse;
    if TsDecode(rt, b).Ok? {
      TsSuffixIrrelevant(rt, b, tail, 0);
    }
  }
}
