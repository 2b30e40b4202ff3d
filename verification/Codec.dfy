/** What the Go codec guarantees for whole payloads: it accepts exactly the grammar, decoding undoes
    encoding wherever the item sits, encodings are unambiguous, and payloads are self-delimiting. */
module Codec {
  import opened Machine
  import opened CborTree
  import opened Encoder
  import opened Grammar
  import opened Parser

  /** The decoder at a position of a buffer: the value and the position it stops at. */
  function DecodeAt(rt: Runtime, b: seq<Byte>, pos: nat, depth: int): (r: Result<(Value, nat)>)
    requires pos <= |b|
    ensures r.Ok? ==> pos < r.value.1 <= |b|
  {
    var (v, n) :- Parse(rt, b[pos..], depth);
    Ok((v, pos + n))
  }

  /** The decoder accepts exactly the grammar, with valid text and height at most 64. */
  lemma DecodeIsGrammar(rt: Runtime, b: seq<Byte>, v: Value)
    ensures Decode(rt, b) == Ok(v) <==> Wire(rt.widen, v, b) && TextOk(rt, v) && Height(v) <= DEPTH_LIMIT
  {
    hide Parse, Wire, TextOk, Height;
    if Decode(rt, b) == Ok(v) {
      ParseSound(rt, b, 0);
      assert b[..|b|] == b;
    }
    if Wire(rt.widen, v, b) && TextOk(rt, v) && Height(v) <= DEPTH_LIMIT {
      ParseComplete(rt, v, b, [], 0);
      assert b + [] == b;
    }
  }

  function Permissive(rt: Runtime): Runtime {
    rt.(utf8 := (s: seq<Byte>) => true)
  }

  lemma {:induction false} PermissiveText(rt: Runtime, vs: seq<Value>)
    ensures TextOkAll(Permissive(rt), vs)
    decreases SizeAll(vs)
  {
    if vs != [] {
      PermissiveText(rt, Kids(vs[0]));
      PermissiveText(rt, vs[1..]);
    }
  }

  /** A byte string begins with at most one item, whatever its text or nesting. */
  lemma Unambiguous(rt: Runtime, v: Value, w: Value, a: seq<Byte>, b: seq<Byte>, s: seq<Byte>, t: seq<Byte>)
    requires Wire(rt.widen, v, a) && Wire(rt.widen, w, b) && a + s == b + t
    ensures v == w && a == b
  {
    hide *;
    var free, depth := Permissive(rt), DEPTH_LIMIT - Height(v) - Height(w);
    PermissiveKeeps(rt, v);
    PermissiveKeeps(rt, w);
    ParseComplete(free, v, a, s, depth);
    ParseComplete(free, w, b, t, depth);
    assert a == (a + s)[..|a|] == (b + t)[..|b|] == b;
  }

  lemma PermissiveKeeps(rt: Runtime, v: Value)
    ensures Permissive(rt).widen == rt.widen && TextOk(Permissive(rt), v)
  {
    PermissiveText(rt, Kids(v));
  }

  lemma EncIsWire(widen: U32 -> U64, v: Value)
    requires Sized(v)
    ensures Wire(widen, Norm(v), Enc(v))
  {
    hide Wire, WireAll, Enc, Norm;
    assert SizedAll([v]) && NormAll([v]) == [Norm(v)] by {
      assert [v][1..] == [];
    }
    EncAllIsWire(widen, [v]);
    EncAllSingle(v);
    WireSingle(widen, Norm(v), Enc(v));
  }

  /** Decoding an encoding, with any bytes before and after it and at any depth that leaves room. */
  lemma RoundTripInContext(rt: Runtime, v: Value, p: seq<Byte>, s: seq<Byte>, depth: int)
    requires Sized(v) && TextOk(rt, v) && depth + Height(v) <= DEPTH_LIMIT
    ensures DecodeAt(rt, p + Enc(v) + s, |p|, depth) == Ok((Norm(v), |p| + |Enc(v)|))
  {
    hide Parse, Wire, TextOk, Height, Enc, Norm, Sized;
    EncIsWire(rt.widen, v);
    NormKeeps(rt, v);
    ParseComplete(rt, Norm(v), Enc(v), s, depth);
    assert (p + Enc(v) + s)[|p|..] == Enc(v) + s;
  }

  /** Exactly which encodings the decoder takes back, and that it returns the normalised tree. */
  lemma RoundTrip(rt: Runtime, v: Value)
    requires Sized(v)
    ensures Decode(rt, Enc(v)).Ok? <==> TextOk(rt, v) && Height(v) <= DEPTH_LIMIT
    ensures Decode(rt, Enc(v)).Ok? ==> Decode(rt, Enc(v)).value == Norm(v)
  {
    hide *;
    EncIsWire(rt.widen, v);
    NormKeeps(rt, v);
    DecodeIsGrammar(rt, Enc(v), Norm(v));
    if Decode(rt, Enc(v)).Ok? {
      var w := Decode(rt, Enc(v)).value;
      DecodeIsGrammar(rt, Enc(v), w);
      Unambiguous(rt, w, Norm(v), Enc(v), Enc(v), [], []);
    }
  }

  lemma {:induction false} EncNormAll(vs: seq<Value>)
    ensures EncAll(NormAll(vs)) == EncAll(vs)
    decreases SizeAll(vs)
  {
    if vs != [] {
      var v := vs[0];
      NormView(v);
      EncNormAll(Kids(v));
      EncNormAll(vs[1..]);
      BuildKids(v);
      assert EncFrame(NormFrame(FrameOf(v))) == EncFrame(FrameOf(v));
      assert NormAll(vs)[1..] == NormAll(vs[1..]);
    }
  }

  /** Two trees are written the same way exactly when they normalise to the same tree. */
  lemma EncodingInjective(rt: Runtime, v: Value, w: Value)
    requires Sized(v) && Sized(w)
    ensures Enc(v) == Enc(w) <==> Norm(v) == Norm(w)
  {
    hide *;
    if Enc(v) == Enc(w) {
      EncIsWire(rt.widen, v);
      EncIsWire(rt.widen, w);
      Unambiguous(rt, Norm(v), Norm(w), Enc(v), Enc(w), [], []);
    }
    EncNorm(v);
    EncNorm(w);
  }

  lemma EncNorm(v: Value)
    ensures Enc(Norm(v)) == Enc(v)
  {
    EncNormAll([v]);
    EncAllSingle(v);
    assert [v][1..] == [];
    EncAllSingle(Norm(v));
  }

  /** What was decoded once decodes to itself after re-encoding. */
  lemma Canonicalisation(rt: Runtime, b: seq<Byte>, v: Value)
    requires Decode(rt, b) == Ok(v)
    ensures Norm(v) == v && Sized(v)
    ensures Decode(rt, Enc(v)) == Ok(v)
  {
    hide *;
    DecodeIsGrammar(rt, b, v);
    WireNormal(rt.widen, v, b);
    RoundTrip(rt, v);
  }

  lemma WireNormal(widen: U32 -> U64, v: Value, b: seq<Byte>)
    requires Wire(widen, v, b)
    ensures Norm(v) == v && Sized(v)
  {
    hide Wire, WireAll, Norm, Sized;
    WireSingle(widen, v, b);
    WireAllNormal(widen, [v], b);
    assert NormAll([v])[0] == Norm(v);
  }

  /** A successful read does not look past the item. */
  lemma SuffixIrrelevant(rt: Runtime, s: seq<Byte>, t: seq<Byte>, depth: int)
    requires Parse(rt, s, depth).Ok?
    ensures Parse(rt, s + t, depth) == Parse(rt, s, depth)
  {
    hide *;
    var (v, n) := Parse(rt, s, depth).value;
    ParseSound(rt, s, depth);
    ParseComplete(rt, v, s[..n], s[n..] + t, depth);
    assert s[..n] + (s[n..] + t) == s + t;
  }

  /** No accepted payload is a proper prefix of another accepted payload. */
  lemma PrefixFree(rt: Runtime, b: seq<Byte>, t: seq<Byte>)
    requires t != []
    ensures !(Decode(rt, b).Ok? && Decode(rt, b + t).Ok?)
  {
    hide *;
    if Decode(rt, b).Ok? && Decode(rt, b + t).Ok? {
      var v, w := Decode(rt, b).value, Decode(rt, b + t).value;
      DecodeIsGrammar(rt, b, v);
      DecodeIsGrammar(rt, b + t, w);
      Unambiguous(rt, v, w, b, b + t, t, []);
    }
  }
}
