/** The generic list and map helpers of the record layer: loops over typed slices and maps with a
    writer and a reader per element. */
module Collections {
  import opened Machine
  import opened CborTree
  import opened Fields

  // Lists.

  function WriteAll<E>(xs: seq<E>, f: E -> Value): (vs: seq<Value>)
    ensures |vs| == |xs|
  {
    if xs == [] then [] else WriteAll(xs[..|xs| - 1], f) + [f(xs[|xs| - 1])]
  }

  function ReadAll<E>(vs: seq<Value>, g: Value -> Result<E>): (r: Result<seq<E>>)
    ensures r.Ok? ==> |r.value| == |vs|
  {
    if vs == [] then Ok([])
    else
      var xs :- ReadAll(vs[..|vs| - 1], g);
      var x :- g(vs[|vs| - 1]);
      Ok(xs + [x])
  }

  function DecArray<E>(v: Value, g: Value -> Result<E>): Result<seq<E>> {
    var vs :- AsArray(v);
    ReadAll(vs, g)
  }

  method CborEncArray<E>(xs: seq<E>, f: E -> Value) returns (v: Value)
    ensures v == Array(WriteAll(xs, f))
  {
    var items := [];
    for i := 0 to |xs|
      invariant items == WriteAll(xs[..i], f)
    {
      assert xs[..i + 1][..i] == xs[..i];
      items := items + [f(xs[i])];
    }
    assert xs[..|xs|] == xs;
    v := Array(items);
  }

  /** A list that failed to read up to some point fails as a whole, with the same error. */
  lemma {:induction false} ReadFailsEarly<E>(vs: seq<Value>, g: Value -> Result<E>, i: nat)
    requires i <= |vs| && ReadAll(vs[..i], g).Err?
    ensures ReadAll(vs, g) == ReadAll(vs[..i], g)
  {
    if i < |vs| {
      assert vs[..|vs| - 1][..i] == vs[..i];
      ReadFailsEarly(vs[..|vs| - 1], g, i);
    } else {
      assert vs[..i] == vs;
    }
  }

  /** A value reads as a list exactly when it is an array of as many items, each read as the list's own. */
  lemma DecArrayExact<E>(v: Value, g: Value -> Result<E>, xs: seq<E>)
    ensures DecArray(v, g) == Ok(xs)
        <==> v.Array? && |v.items| == |xs| && forall i | 0 <= i < |xs| :: g(v.items[i]) == Ok(xs[i])
  {
    if v.Array? {
      ReadAllExact(v.items, g, xs);
    }
  }

  lemma {:induction false} ReadAllExact<E>(vs: seq<Value>, g: Value -> Result<E>, xs: seq<E>)
    ensures ReadAll(vs, g) == Ok(xs) <==> |vs| == |xs| && forall i | 0 <= i < |xs| :: g(vs[i]) == Ok(xs[i])
  {
    if vs == [] {
    } else if xs == [] {
    } else {
      var n := |xs| - 1;
      ReadAllExact(vs[..|vs| - 1], g, xs[..n]);
      if ReadAll(vs, g) == Ok(xs) {
        assert xs[..n] == ReadAll(vs[..|vs| - 1], g).value;
      }
      if |vs| == |xs| && forall i | 0 <= i < |xs| :: g(vs[i]) == Ok(xs[i]) {
        assert xs == xs[..n] + [xs[n]];
      }
    }
  }

  method CborDecArray<E>(v: Value, g: Value -> Result<E>) returns (r: Result<seq<E>>)
    ensures r == DecArray(v, g)
  {
    var arr := AsArray(v);
    if arr.Err? {
      return Err(arr.error);
    }
    var vs, out := arr.value, [];
    for i := 0 to |vs|
      invariant ReadAll(vs[..i], g) == Ok(out)
    {
      assert vs[..i + 1][..i] == vs[..i];
      var x := g(vs[i]);
      if x.Err? {
        ReadFailsEarly(vs, g, i + 1);
        return Err(x.error);
      }
      out := out + [x.value];
    }
    assert vs[..|vs|] == vs;
    r := Ok(out);
  }

  lemma {:induction false} NormAt(vs: seq<Value>, i: nat)
    requires i < |vs|
    ensures NormAll(vs)[i] == Norm(vs[i])
  {
    if i > 0 {
      hide Norm;
      NormAt(vs[1..], i - 1);
    }
  }

  lemma {:induction false} WriteAt<E>(xs: seq<E>, f: E -> Value, i: nat)
    requires i < |xs|
    ensures |WriteAll(xs, f)| == |xs| && WriteAll(xs, f)[i] == f(xs[i])
  {
    if i < |xs| - 1 {
      WriteAt(xs[..|xs| - 1], f, i);
    }
  }

  lemma NormWritten<E>(xs: seq<E>, f: E -> Value, g: Value -> Result<E>)
    requires forall x | x in xs :: g(Norm(f(x))) == Ok(x)
    ensures ReadAll(NormAll(WriteAll(xs, f)), g) == Ok(xs)
  {
    hide Norm, NormAll, WriteAll, ReadAll;
    var vs := WriteAll(xs, f);
    forall i | 0 <= i < |xs|
      ensures g(NormAll(vs)[i]) == Ok(xs[i])
    {
      WriteAt(xs, f, i);
      NormAt(vs, i);
    }
    ReadAllExact(NormAll(vs), g, xs);
  }

  /** A list of any length is read back, element by element, if each element is. */
  lemma ListRoundTrip<E>(xs: seq<E>, f: E -> Value, g: Value -> Result<E>)
    requires forall x | x in xs :: g(Norm(f(x))) == Ok(x)
    ensures DecArray(Norm(Array(WriteAll(xs, f))), g) == Ok(xs)
  {
    NormWritten(xs, f, g);
    NormView(Array(WriteAll(xs, f)));
    hide NormAll, WriteAll;
  }

  lemma {:induction false} ReadAllError<E>(vs: seq<Value>, g: Value -> Result<E>, e: Error, k: nat)
    requires forall i | 0 <= i < |vs| :: g(vs[i]).Ok? || g(vs[i]) == Err(e)
    requires k < |vs| && g(vs[k]).Err?
    ensures ReadAll(vs, g) == Err(e)
  {
    var front := vs[..|vs| - 1];
    if k < |vs| - 1 {
      ReadAllError(front, g, e, k);
    } else if ReadAll(front, g).Err? {
      var j := FirstUnread(front, g);
      ReadAllError(front, g, e, j);
    }
  }

  lemma {:induction false} FirstUnread<E>(vs: seq<Value>, g: Value -> Result<E>) returns (j: nat)
    requires ReadAll(vs, g).Err?
    ensures j < |vs| && g(vs[j]).Err?
  {
    if ReadAll(vs[..|vs| - 1], g).Err? {
      j := FirstUnread(vs[..|vs| - 1], g);
    } else {
      j := |vs| - 1;
    }
  }

  lemma WrittenItem<E>(xs: seq<E>, f: E -> Value, i: nat)
    requires i < |xs|
    ensures |NormAll(WriteAll(xs, f))| == |xs| && NormAll(WriteAll(xs, f))[i] == Norm(f(xs[i]))
  {
    WrittenLength(xs, f);
    hide Norm, NormAll, WriteAll;
    WriteAt(xs, f, i);
    NormAt(WriteAll(xs, f), i);
  }

  lemma WrittenArray(vs: seq<Value>)
    ensures Norm(Array(vs)) == Array(NormAll(vs))
  {
    NormView(Array(vs));
    hide NormAll;
  }

  /** A list some of whose elements are refused, all with one error, is refused with it; otherwise it is read back. */
  lemma ListVerdict<E>(xs: seq<E>, f: E -> Value, g: Value -> Result<E>, ok: E -> bool, e: Error)
    requires forall x | x in xs :: g(Norm(f(x))) == if ok(x) then Ok(x) else Err(e)
    ensures DecArray(Norm(Array(WriteAll(xs, f))), g) == if forall x | x in xs :: ok(x) then Ok(xs) else Err(e)
  {
    hide Norm, NormAll, WriteAll, ReadAll;
    if forall x | x in xs :: ok(x) {
      ListRoundTrip(xs, f, g);
    } else {
      var x :| x in xs && !ok(x);
      var k :| 0 <= k < |xs| && xs[k] == x;
      var vs := NormAll(WriteAll(xs, f));
      WrittenArray(WriteAll(xs, f));
      WrittenLength(xs, f);
      forall i | 0 <= i < |vs|
        ensures g(vs[i]).Ok? || g(vs[i]) == Err(e)
      {
        WrittenItem(xs, f, i);
        assert xs[i] in xs;
      }
      WrittenItem(xs, f, k);
      ReadAllError(vs, g, e, k);
    }
  }

  lemma WrittenLength<E>(xs: seq<E>, f: E -> Value)
    ensures |NormAll(WriteAll(xs, f))| == |xs|
  {
  }

  lemma {:induction false} WrittenSendable<E>(rt: Runtime, xs: seq<E>, f: E -> Value, h: nat)
    requires forall x | x in xs :: Sendable(rt, f(x), h)
    ensures AllSendable(rt, WriteAll(xs, f), h)
  {
    if xs != [] {
      var front, last := xs[..|xs| - 1], xs[|xs| - 1];
      assert last in xs;
      WrittenSendable(rt, front, f, h);
      hide Sendable;
    }
  }

  // Maps.

  /** One visit of every key. */
  ghost predicate Visits<K(!new)>(order: seq<K>, keys: set<K>) {
    && (forall k :: k in order <==> k in keys)
    && (forall i, j | 0 <= i < j < |order| :: order[i] != order[j])
  }

  function WriteEntries<K, V>(m: map<K, V>, order: seq<K>, kf: K -> Value, vf: V -> Value): seq<Entry>
    requires forall k | k in order :: k in m
  {
    if order == [] then []
    else WriteEntries(m, order[..|order| - 1], kf, vf) + [Entry(kf(order[|order| - 1]), vf(m[order[|order| - 1]]))]
  }

  function ReadEntries<K, V>(es: seq<Entry>, kg: Value -> Result<K>, vg: Value -> Result<V>): Result<map<K, V>> {
    if es == [] then Ok(map[])
    else
      var out :- ReadEntries(es[..|es| - 1], kg, vg);
      var k :- kg(es[|es| - 1].key);
      var v :- vg(es[|es| - 1].val);
      Ok(out[k := v])
  }

  function DecMap<K, V>(v: Value, kg: Value -> Result<K>, vg: Value -> Result<V>): Result<map<K, V>> {
    var es :- AsMap(v);
    ReadEntries(es, kg, vg)
  }

  /** Go visits a map in no particular order: each step takes any key not yet taken. */
  method CborEncMap<K(!new), V>(m: map<K, V>, kf: K -> Value, vf: V -> Value) returns (v: Value)
    ensures exists order :: Visits(order, m.Keys) && v == Map(WriteEntries(m, order, kf, vf))
  {
    var entries, left := [], m.Keys;
    ghost var order := [];
    while left != {}
      invariant left <= m.Keys && Visits(order, m.Keys - left)
      invariant entries == WriteEntries(m, order, kf, vf)
      decreases left
    {
      var k :| k in left;
      assert (order + [k])[..|order|] == order;
      entries := entries + [Entry(kf(k), vf(m[k]))];
      left := left - {k};
      order := order + [k];
    }
    v := Map(entries);
  }

  lemma {:induction false} ReadEntriesFailsEarly<K, V>(es: seq<Entry>, kg: Value -> Result<K>,
      vg: Value -> Result<V>, i: nat)
    requires i <= |es| && ReadEntries(es[..i], kg, vg).Err?
    ensures ReadEntries(es, kg, vg) == ReadEntries(es[..i], kg, vg)
  {
    if i < |es| {
      assert es[..|es| - 1][..i] == es[..i];
      ReadEntriesFailsEarly(es[..|es| - 1], kg, vg, i);
    } else {
      assert es[..i] == es;
    }
  }

  /** The last entry read under its key. */
  ghost predicate LastUnder<K, V>(es: seq<Entry>, kg: Value -> Result<K>, i: int) {
    0 <= i < |es| && forall j | i < j < |es| :: kg(es[j].key) != kg(es[i].key)
  }

  /** What a list of entries reads as: every entry reads, and each key has the value of its last entry. */
  ghost predicate ReadsAsMap<K, V>(es: seq<Entry>, kg: Value -> Result<K>, vg: Value -> Result<V>, m: map<K, V>) {
    && (forall i | 0 <= i < |es| :: kg(es[i].key).Ok? && vg(es[i].val).Ok?)
    && (forall i | 0 <= i < |es| :: kg(es[i].key).value in m)
    && (forall k | k in m :: exists i | 0 <= i < |es| :: kg(es[i].key) == Ok(k))
    && (forall i | LastUnder<K, V>(es, kg, i) :: vg(es[i].val) == Ok(m[kg(es[i].key).value]))
  }

  lemma {:induction false} ReadsSound<K, V>(es: seq<Entry>, kg: Value -> Result<K>, vg: Value -> Result<V>)
    requires ReadEntries(es, kg, vg).Ok?
    ensures ReadsAsMap(es, kg, vg, ReadEntries(es, kg, vg).value)
  {
    if es != [] {
      var n := |es| - 1;
      var front := es[..n];
      ReadsSound(front, kg, vg);
      ReadsGrow(es, kg, vg, ReadEntries(front, kg, vg).value);
    }
  }

  lemma ReadsGrow<K, V>(es: seq<Entry>, kg: Value -> Result<K>, vg: Value -> Result<V>, out: map<K, V>)
    requires es != [] && ReadsAsMap(es[..|es| - 1], kg, vg, out)
    requires kg(es[|es| - 1].key).Ok? && vg(es[|es| - 1].val).Ok?
    ensures ReadsAsMap(es, kg, vg, out[kg(es[|es| - 1].key).value := vg(es[|es| - 1].val).value])
  {
    var n := |es| - 1;
    var front, k := es[..n], kg(es[n].key).value;
    var m := out[k := vg(es[n].val).value];
    forall i | 0 <= i < |es|
      ensures kg(es[i].key).Ok? && vg(es[i].val).Ok? && kg(es[i].key).value in m
    {
      assert i < n ==> front[i] == es[i];
    }
    forall x | x in m
      ensures exists i | 0 <= i < |es| :: kg(es[i].key) == Ok(x)
    {
      if x == k {
        assert kg(es[n].key) == Ok(x);
      } else {
        var i :| 0 <= i < |front| && kg(front[i].key) == Ok(x);
        assert kg(es[i].key) == Ok(x);
      }
    }
    forall i | LastUnder<K, V>(es, kg, i)
      ensures vg(es[i].val) == Ok(m[kg(es[i].key).value])
    {
      if i < n {
        assert kg(es[n].key) != kg(es[i].key);
        assert LastUnder<K, V>(front, kg, i) && front[i] == es[i];
      }
    }
  }

  lemma {:induction false} AllRead<K, V>(es: seq<Entry>, kg: Value -> Result<K>, vg: Value -> Result<V>)
    requires forall i | 0 <= i < |es| :: kg(es[i].key).Ok? && vg(es[i].val).Ok?
    ensures ReadEntries(es, kg, vg).Ok?
  {
    if es != [] {
      AllRead(es[..|es| - 1], kg, vg);
    }
  }

  lemma FindLastUnder<K, V>(es: seq<Entry>, kg: Value -> Result<K>, i: nat) returns (j: int)
    requires i < |es|
    ensures LastUnder<K, V>(es, kg, j) && kg(es[j].key) == kg(es[i].key)
  {
    j := |es| - 1;
    while kg(es[j].key) != kg(es[i].key)
      invariant i <= j < |es|
      invariant forall k | j < k < |es| :: kg(es[k].key) != kg(es[i].key)
      decreases j
    {
      j := j - 1;
    }
  }

  lemma OneMap<K, V>(es: seq<Entry>, kg: Value -> Result<K>, vg: Value -> Result<V>, m: map<K, V>, w: map<K, V>)
    requires ReadsAsMap(es, kg, vg, m) && ReadsAsMap(es, kg, vg, w)
    ensures m == w
  {
    forall k | k in m || k in w
      ensures k in m && k in w && m[k] == w[k]
    {
      var i :| 0 <= i < |es| && kg(es[i].key) == Ok(k);
      var j := FindLastUnder<K, V>(es, kg, i);
    }
  }

  /** A value reads as a map exactly when it is one, every entry reads, its keys are those read, and each has the
      value of the last entry read under it. */
  lemma DecMapExact<K, V>(v: Value, kg: Value -> Result<K>, vg: Value -> Result<V>, m: map<K, V>)
    ensures DecMap(v, kg, vg) == Ok(m) <==> v.Map? && ReadsAsMap(v.entries, kg, vg, m)
  {
    if v.Map? {
      var es := v.entries;
      if ReadEntries(es, kg, vg).Ok? {
        ReadsSound(es, kg, vg);
      }
      if ReadsAsMap(es, kg, vg, m) {
        AllRead(es, kg, vg);
        ReadsSound(es, kg, vg);
        OneMap(es, kg, vg, m, ReadEntries(es, kg, vg).value);
      }
    }
  }

  method CborDecMap<K, V>(v: Value, kg: Value -> Result<K>, vg: Value -> Result<V>) returns (r: Result<map<K, V>>)
    ensures r == DecMap(v, kg, vg)
    ensures forall m :: r == Ok(m) <==> v.Map? && ReadsAsMap(v.entries, kg, vg, m)
  {
    forall m
      ensures DecMap(v, kg, vg) == Ok(m) <==> v.Map? && ReadsAsMap(v.entries, kg, vg, m)
    {
      DecMapExact(v, kg, vg, m);
    }
    hide ReadsAsMap;
    var entries := AsMap(v);
    if entries.Err? {
      return Err(entries.error);
    }
    var es, out := entries.value, map[];
    for i := 0 to |es|
      invariant ReadEntries(es[..i], kg, vg) == Ok(out)
    {
      assert es[..i + 1][..i] == es[..i];
      var k := kg(es[i].key);
      if k.Err? {
        ReadEntriesFailsEarly(es, kg, vg, i + 1);
        return Err(k.error);
      }
      var val := vg(es[i].val);
      if val.Err? {
        ReadEntriesFailsEarly(es, kg, vg, i + 1);
        return Err(val.error);
      }
      out := out[k.value := val.value];
    }
    assert es[..|es|] == es;
    r := Ok(out);
  }

  /** The part of a map under the first keys of a visit. */
  function Restrict<K, V>(m: map<K, V>, order: seq<K>): map<K, V> {
    map k | k in m && k in order :: m[k]
  }

  lemma {:induction false} NormEntriesSnoc(es: seq<Entry>, e: Entry)
    ensures NormEntries(es + [e]) == NormEntries(es) + [Entry(Norm(e.key), Norm(e.val))]
  {
    if es == [] {
      assert es + [e] == [e] && [e][1..] == [];
    } else {
      hide Norm;
      assert (es + [e])[1..] == es[1..] + [e];
      NormEntriesSnoc(es[1..], e);
    }
  }

  lemma RestrictSnoc<K, V>(m: map<K, V>, order: seq<K>)
    requires order != [] && order[|order| - 1] in m
    ensures Restrict(m, order) == Restrict(m, order[..|order| - 1])[order[|order| - 1] := m[order[|order| - 1]]]
  {
    var front, k := order[..|order| - 1], order[|order| - 1];
    assert order == front + [k];
  }

  lemma ReadEntriesSnoc<K, V>(es: seq<Entry>, e: Entry, out: map<K, V>, k: K, v: V,
                              kg: Value -> Result<K>, vg: Value -> Result<V>)
    requires ReadEntries(es, kg, vg) == Ok(out) && kg(e.key) == Ok(k) && vg(e.val) == Ok(v)
    ensures ReadEntries(es + [e], kg, vg) == Ok(out[k := v])
  {
    assert (es + [e])[..|es|] == es;
  }

  lemma {:induction false} ReadWrittenEntries<K, V>(m: map<K, V>, order: seq<K>, kf: K -> Value, vf: V -> Value,
                                                    kg: Value -> Result<K>, vg: Value -> Result<V>)
    requires forall k | k in order :: k in m && kg(Norm(kf(k))) == Ok(k) && vg(Norm(vf(m[k]))) == Ok(m[k])
    ensures ReadEntries(NormEntries(WriteEntries(m, order, kf, vf)), kg, vg) == Ok(Restrict(m, order))
  {
    if order == [] {
      assert Restrict(m, order) == map[];
    } else {
      var front, k := order[..|order| - 1], order[|order| - 1];
      assert k in order;
      hide Norm, NormEntries, Restrict, ReadEntries;
      ReadWrittenEntries(m, front, kf, vf, kg, vg);
      var es, e := WriteEntries(m, front, kf, vf), Entry(kf(k), vf(m[k]));
      NormEntriesSnoc(es, e);
      ReadEntriesSnoc(NormEntries(es), Entry(Norm(e.key), Norm(e.val)), Restrict(m, front), k, m[k], kg, vg);
      RestrictSnoc(m, order);
    }
  }

  /** Whatever order the writer visited the map in, the reader gets the map. */
  lemma MapOrderIrrelevant<K(!new), V>(m: map<K, V>, order: seq<K>, kf: K -> Value, vf: V -> Value,
                                       kg: Value -> Result<K>, vg: Value -> Result<V>)
    requires Visits(order, m.Keys)
    requires forall k | k in m :: kg(Norm(kf(k))) == Ok(k) && vg(Norm(vf(m[k]))) == Ok(m[k])
    ensures DecMap(Norm(Map(WriteEntries(m, order, kf, vf))), kg, vg) == Ok(m)
  {
    var es := WriteEntries(m, order, kf, vf);
    ReadWrittenEntries(m, order, kf, vf, kg, vg);
    hide Norm, NormEntries, WriteEntries, ReadEntries;
    NormOfMap(es);
    Everything(m, order);
  }

  lemma Everything<K(!new), V>(m: map<K, V>, order: seq<K>)
    requires Visits(order, m.Keys)
    ensures Restrict(m, order) == m
  {
  }
}
