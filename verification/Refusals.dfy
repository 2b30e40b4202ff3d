/** The errors of the Go decoder, each from the bytes that cause it. */
module Refusals {
  import opened Machine
  import opened CborTree
  import opened Encoder
  import opened Grammar
  import opened Parser
  import Codec

  /** Faults before an argument is read. */
  lemma LeadRefusals(rt: Runtime, s: seq<Byte>)
    ensures s == [] ==> ParseFrame(rt, s) == Err(UnexpectedEnd)
    ensures s != [] && 0xe0 <= s[0] && s[0] !in {0xf4, 0xf5, 0xf6, 0xf7, 0xfa, 0xfb} ==>
      ParseFrame(rt, s) == Err(UnsupportedSimple)
    ensures s != [] && s[0] < 0xe0 && s[0] % 32 >= 28 ==> ParseFrame(rt, s) == Err(ReservedInfo)
  {
  }

  /** An argument cut short: one, two, four or eight bytes are announced and fewer follow. */
  lemma ShortArgument(rt: Runtime, s: seq<Byte>)
    requires s != [] && (s[0] < 0xe0 || s[0] == 0xfa || s[0] == 0xfb)
    requires || (s[0] % 32 == 24 && |s| < 2) || (s[0] % 32 == 25 && |s| < 3)
             || (s[0] % 32 == 26 && |s| < 5) || (s[0] % 32 == 27 && |s| < 9)
    ensures ParseFrame(rt, s) == Err(TruncatedArgument)
  {
  }

  /** Faults behind a head: a negative integer below the least int64, and lengths beyond the rest of the input. */
  lemma BodyRefusals(rt: Runtime, n: nat, p: seq<Byte>, rest: seq<Byte>)
    ensures HeadForm(1, n, p) && n > 0x7fff_ffff_ffff_ffff ==> ParseFrame(rt, p + rest) == Err(NegativeOutOfRange)
    ensures HeadForm(2, n, p) && n > |rest| ==> ParseFrame(rt, p + rest) == Err(TruncatedBytes)
    ensures HeadForm(3, n, p) && n > |rest| ==> ParseFrame(rt, p + rest) == Err(TruncatedText)
    ensures HeadForm(3, n, p) && n <= |rest| && !rt.utf8(rest[..n]) ==> ParseFrame(rt, p + rest) == Err(InvalidUtf8)
    ensures HeadForm(4, n, p) && n > |rest| ==> ParseFrame(rt, p + rest) == Err(ArrayTooLong)
    ensures HeadForm(5, n, p) && n > |rest| ==> ParseFrame(rt, p + rest) == Err(MapTooLong)
  {
    hide HeadForm, ParseFrame;
    forall major: Major | 1 <= major <= 5 && HeadForm(major, n, p)
      ensures n < TWO_64 && |p| >= 1 && ParseFrame(rt, p + rest) == ParseBody(rt, major, n, p + rest, |p|)
    {
      HeadParses(rt, major, n, p, rest);
    }
    if n <= |rest| {
      assert (p + rest)[|p|..|p| + n] == rest[..n];
    }
  }

  /** The item: too deep, or refused at its head. */
  lemma ItemRefusals(rt: Runtime, s: seq<Byte>, depth: int)
    ensures depth > 64 ==> Parse(rt, s, depth) == Err(NestingLimit)
    ensures depth <= 64 && ParseFrame(rt, s).Err? ==> Parse(rt, s, depth) == Err(ParseFrame(rt, s).error)
  {
    hide ParseFrame;
  }

  /** A container whose first items read: the next one's fault is its own. */
  lemma InnerRefusal(rt: Runtime, s: seq<Byte>, depth: int, f: Frame, k: nat, j: nat)
    requires depth <= 64 && ParseFrame(rt, s) == Ok((f, k)) && k <= |s| && j < Arity(f)
    requires ParseAll(rt, s[k..], depth + 1, j).Ok?
    requires Parse(rt, s[k..][ParseAll(rt, s[k..], depth + 1, j).value.1..], depth + 1).Err?
    ensures Parse(rt, s, depth)
         == Err(Parse(rt, s[k..][ParseAll(rt, s[k..], depth + 1, j).value.1..], depth + 1).error)
  {
    hide ParseFrame, ParseAll, Arity;
    ListRefusal(rt, s[k..], depth + 1, Arity(f), j);
  }

  lemma {:induction false} ListRefusal(rt: Runtime, s: seq<Byte>, depth: int, count: nat, j: nat)
    requires j < count && ParseAll(rt, s, depth, j).Ok?
    requires Parse(rt, s[ParseAll(rt, s, depth, j).value.1..], depth).Err?
    ensures ParseAll(rt, s, depth, count) == Err(Parse(rt, s[ParseAll(rt, s, depth, j).value.1..], depth).error)
    decreases j
  {
    hide *;
    if j == 0 {
      EmptyList(rt, s, depth);
      assert s[0..] == s;
      ListStep(rt, s, depth, count);
    } else {
      var v, n, vs, m := ParseAllStep(rt, s, depth, j);
      assert s[n..][m..] == s[n + m..];
      ListRefusal(rt, s[n..], depth, count - 1, j - 1);
      ListStep(rt, s, depth, count);
    }
  }

  lemma ListStep(rt: Runtime, s: seq<Byte>, depth: int, count: nat)
    requires count > 0
    ensures Parse(rt, s, depth).Err? ==> ParseAll(rt, s, depth, count) == Err(Parse(rt, s, depth).error)
    ensures Parse(rt, s, depth).Ok? ==>
      var n := Parse(rt, s, depth).value.1;
      ParseAll(rt, s[n..], depth, count - 1).Err? ==>
        ParseAll(rt, s, depth, count) == Err(ParseAll(rt, s[n..], depth, count - 1).error)
  {
    hide Parse;
  }

  /** The payload: the error of its item, or bytes left over, which happens exactly when a proper prefix is one. */
  lemma PayloadRefusals(rt: Runtime, b: seq<Byte>)
    ensures Parse(rt, b, 0).Err? ==> Decode(rt, b) == Err(Parse(rt, b, 0).error)
    ensures (exists n: nat :: n < |b| && Decode(rt, b[..n]).Ok?) <==> Parse(rt, b, 0).Ok? && Decode(rt, b).Err?
    ensures Parse(rt, b, 0).Ok? && Decode(rt, b).Err? ==> Decode(rt, b) == Err(TrailingBytes)
  {
    hide Parse;
    if n: nat :| n < |b| && Decode(rt, b[..n]).Ok? {
      Codec.SuffixIrrelevant(rt, b[..n], b[n..], 0);
      assert b[..n] + b[n..] == b;
    }
    if Parse(rt, b, 0).Ok? && Decode(rt, b).Err? {
      var (v, n) := Parse(rt, b, 0).value;
      ParseSound(rt, b, 0);
      ParseComplete(rt, v, b[..n], [], 0);
      assert b[..n] + [] == b[..n];
      assert Decode(rt, b[..n]).Ok?;
    }
  }
}
