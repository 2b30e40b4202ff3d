/** What is wrong with a map that is read as a record: a schema lists the fields in the order they are read, and
    says of each its name, whether it must be there, and the form its value takes. */
module Schema {
  import opened Machine
  import opened CborTree
  import opened Fields
  import opened Collections
  import Float64

  datatype Form =
    | UintForm
    | IntForm
    | FloatForm
    | BoolForm
    | TextForm
    | BytesForm
    | WordForm(words: set<seq<Byte>>)
    | TimeForm(parse: seq<Byte> -> Option<int>)
    | ListForm(item: Form)
    | RecordForm(demands: seq<Demand>)

  datatype Demand = Demand(name: seq<Byte>, required: bool, form: Form)

  /** `x` is the value of the first entry with this name. */
  ghost predicate Finds(root: Value, name: seq<Byte>, x: Value) {
    root.Map? && exists i :: FirstMatch(root.entries, name, i) && x == root.entries[i].val
  }

  ghost predicate Missing(root: Value, name: seq<Byte>) {
    root.Map? ==> forall i :: !FirstMatch(root.entries, name, i)
  }

  /** The value is at fault with this error. */
  ghost predicate Fault(form: Form, v: Value, e: Error)
    decreases form, 2
  {
    match form
    case UintForm => if v.Int? then v.i < 0 && e == NegativeUnsigned else !v.Uint? && e == WrongType
    case IntForm => if v.Uint? then v.u > 0x7fff_ffff_ffff_ffff && e == IntegerOverflow else !v.Int? && e == WrongType
    case FloatForm => !v.Float? && !v.Uint? && !v.Int? && e == WrongType
    case BoolForm => !v.Bool? && e == WrongType
    case TextForm => !v.Text? && e == WrongType
    case BytesForm => !v.Bytes? && e == WrongType
    case WordForm(words) => if v.Text? then v.text !in words && e == NotInEnum else e == WrongType
    case TimeForm(parse) =>
      if v.Tag? && v.num == 0 && v.inner.Text? then parse(v.inner.text).None? && e == BadTimestamp else e == WrongType
    case ListForm(item) =>
      if !v.Array? then e == WrongType
      else exists k | 0 <= k < |v.items| :: Fault(item, v.items[k], e) && ItemsFit(form, k, v.items)
    case RecordForm(demands) =>
      exists k | 0 <= k < |demands| :: FieldFault(demands[k], v, e) && FieldsFit(form, k, v)
  }

  /** The first `n` fields of a record are not at fault. */
  ghost predicate FieldsFit(form: Form, n: nat, v: Value)
    requires form.RecordForm? && n <= |form.demands|
    decreases form, 1
  {
    forall j | 0 <= j < n :: FieldFits(form.demands[j], v)
  }

  /** Nor the first `n` items of a list. */
  ghost predicate ItemsFit(form: Form, n: nat, vs: seq<Value>)
    requires form.ListForm? && n <= |vs|
    decreases form, 1
  {
    forall j | 0 <= j < n :: Fits(form.item, vs[j])
  }

  ghost predicate Fits(form: Form, v: Value)
    decreases form, 3
  {
    forall e :: !Fault(form, v, e)
  }

  /** The field is missing where it must be there, or there and at fault. */
  ghost predicate FieldFault(d: Demand, root: Value, e: Error)
    decreases d, 0
  {
    || (d.required && Missing(root, d.name) && e == MissingField)
    || exists x :: Finds(root, d.name, x) && Fault(d.form, x, e)
  }

  ghost predicate FieldFits(d: Demand, root: Value)
    decreases d, 1
  {
    forall e :: !FieldFault(d, root, e)
  }

  // Readers and schemas.

  lemma Lookup(root: Value, name: seq<Byte>)
    ensures MapGet(root, name).None? <==> Missing(root, name)
    ensures forall x :: Finds(root, name, x) <==> MapGet(root, name) == Some(x)
  {
    if root.Map? {
      var es := root.entries;
      if Get(es, name).Some? {
        var i := FirstAt(es, name);
      } else {
        GetAbsent(es, name);
        forall i
          ensures !FirstMatch(es, name, i)
        {
          if 0 <= i < |es| {
            assert es[i] in es;
          }
        }
      }
      forall i | FirstMatch(es, name, i)
        ensures Get(es, name) == Some(es[i].val)
      {
        GetFirst(es, name, i);
      }
    }
  }

  lemma {:induction false} FirstAt(es: seq<Entry>, name: seq<Byte>) returns (i: nat)
    requires Get(es, name).Some?
    ensures FirstMatch(es, name, i) && Get(es, name) == Some(es[i].val)
  {
    if es[0].key == Text(name) {
      i := 0;
    } else {
      var j := FirstAt(es[1..], name);
      i := j + 1;
      assert forall k | 1 <= k < i :: es[k] == es[1..][k - 1];
    }
  }

  /** The reader refuses exactly the values at fault, with their error. */
  ghost predicate Judges<T(!new)>(form: Form, read: Value -> Result<T>) {
    forall v, e :: read(v) == Err(e) <==> Fault(form, v, e)
  }

  function RequiredRead<T>(root: Value, name: seq<Byte>, read: Value -> Result<T>): Result<T> {
    var x :- Require(root, name);
    read(x)
  }

  /** Why a read was refused, if it was. */
  function Why<T>(r: Result<T>): Option<Error> {
    if r.Err? then Some(r.error) else None
  }

  /** A read of the field refuses exactly as the field is at fault. */
  ghost predicate Settles(d: Demand, root: Value, w: Option<Error>) {
    forall e :: FieldFault(d, root, e) <==> w == Some(e)
  }

  lemma RequiredFault<T(!new)>(name: seq<Byte>, form: Form, root: Value, read: Value -> Result<T>)
    requires Judges(form, read)
    ensures Settles(Demand(name, true, form), root, Why(RequiredRead(root, name, read)))
  {
    var d, r := Demand(name, true, form), RequiredRead(root, name, read);
    Lookup(root, name);
    forall e
      ensures FieldFault(d, root, e) <==> r == Err(e)
    {
      hide MapGet, Finds, Missing, Fault;
    }
    hide FieldFault, RequiredRead, Judges;
  }

  lemma OptionalFault<T(!new)>(name: seq<Byte>, form: Form, root: Value, read: Value -> Result<T>)
    requires Judges(form, read)
    ensures Settles(Demand(name, false, form), root, Why(Optional(MapGet(root, name), read)))
  {
    var d, r := Demand(name, false, form), Optional(MapGet(root, name), read);
    Lookup(root, name);
    forall e
      ensures FieldFault(d, root, e) <==> r == Err(e)
    {
      hide MapGet, Finds, Missing, Fault;
    }
    hide FieldFault, Optional, MapGet, Judges;
  }

  /** The first refusal among several reads. */
  function FirstOf(ws: seq<Option<Error>>): Option<Error> {
    if ws == [] then None
    else if ws[0].Some? then ws[0]
    else FirstOf(ws[1..])
  }

  /** Among the first `n` fields. */
  ghost predicate FieldsFault(form: Form, n: nat, root: Value, e: Error)
    requires form.RecordForm? && n <= |form.demands|
  {
    exists k | 0 <= k < n :: FieldFault(form.demands[k], root, e) && FieldsFit(form, k, root)
  }

  lemma NextField(form: Form, n: nat, root: Value, e: Error)
    requires form.RecordForm? && n < |form.demands|
    ensures FieldsFault(form, n + 1, root, e)
        <==> FieldsFault(form, n, root, e) || (FieldsFit(form, n, root) && FieldFault(form.demands[n], root, e))
    ensures FieldsFit(form, n + 1, root) <==> FieldsFit(form, n, root) && FieldFits(form.demands[n], root)
  {
    hide FieldFault, FieldFits;
  }

  lemma NoField(form: Form, root: Value, e: Error)
    requires form.RecordForm?
    ensures !FieldsFault(form, 0, root, e) && FieldsFit(form, 0, root)
  {
  }

  lemma SettledFits(d: Demand, root: Value, w: Option<Error>, e: Error)
    requires Settles(d, root, w)
    ensures FieldFits(d, root) <==> w.None?
    ensures FieldFault(d, root, e) <==> w == Some(e)
  {
    hide FieldFault;
    if w.Some? {
      assert FieldFault(d, root, w.value);
    }
  }

  lemma FirstNext(ws: seq<Option<Error>>, n: nat)
    requires n < |ws|
    ensures FirstOf(ws[..n + 1]) == if FirstOf(ws[..n]).Some? then FirstOf(ws[..n]) else ws[n]
    ensures FirstOf(ws[..0]) == None
  {
    hide FirstOf;
    FirstConcat(ws[..n], [ws[n]]);
    assert ws[..n] + [ws[n]] == ws[..n + 1];
    FirstCons(ws[n], []);
    assert [ws[n]] + [] == [ws[n]];
    FirstNone();
  }

  lemma {:induction false} RefusalUpTo(form: Form, ws: seq<Option<Error>>, n: nat, root: Value, e: Error)
    requires form.RecordForm? && |form.demands| == |ws| && n <= |ws|
    requires forall k | 0 <= k < |ws| :: Settles(form.demands[k], root, ws[k])
    ensures FieldsFault(form, n, root, e) <==> FirstOf(ws[..n]) == Some(e)
    ensures FieldsFit(form, n, root) <==> FirstOf(ws[..n]).None?
  {
    hide *;
    NoField(form, root, e);
    if n > 0 {
      RefusalUpTo(form, ws, n - 1, root, e);
      NextField(form, n - 1, root, e);
      SettledFits(form.demands[n - 1], root, ws[n - 1], e);
      FirstNext(ws, n - 1);
    } else {
      FirstNone();
    }
  }

  lemma WholeFault(form: Form, root: Value, e: Error)
    requires form.RecordForm?
    ensures Fault(form, root, e) <==> FieldsFault(form, |form.demands|, root, e)
  {
    hide FieldFault, FieldsFit;
  }

  /** A record is at fault with the first refusal among the reads of its fields. */
  lemma Refusal(form: Form, ws: seq<Option<Error>>, root: Value, e: Error)
    requires form.RecordForm? && AllSettle(form.demands, root, ws)
    ensures Fault(form, root, e) <==> FirstOf(ws) == Some(e)
  {
    assert forall k | 0 <= k < |ws| :: Settles(form.demands[k], root, ws[k]);
    hide *;
    WholeFault(form, root, e);
    RefusalUpTo(form, ws, |ws|, root, e);
    assert ws[..|ws|] == ws;
  }

  lemma FirstCons(w: Option<Error>, ws: seq<Option<Error>>)
    ensures FirstOf([w] + ws) == if w.Some? then w else FirstOf(ws)
  {
    assert ([w] + ws)[1..] == ws;
  }

  lemma {:induction false} FirstConcat(a: seq<Option<Error>>, b: seq<Option<Error>>)
    ensures FirstOf(a + b) == if FirstOf(a).Some? then FirstOf(a) else FirstOf(b)
  {
    if a == [] {
      assert a + b == b;
    } else {
      assert (a + b)[1..] == a[1..] + b;
      FirstConcat(a[1..], b);
    }
  }

  lemma First2(w0: Option<Error>, w1: Option<Error>)
    ensures FirstOf([w0, w1])
         == if w0.Some? then w0
            else w1
  {
    hide FirstOf;
    FirstCons(w0, [w1]);
    assert [w0] + [w1] == [w0, w1];
    FirstCons(w1, []);
    assert [w1] + [] == [w1];
    FirstNone();
  }

  lemma First3(w0: Option<Error>, w1: Option<Error>, w2: Option<Error>)
    ensures FirstOf([w0, w1, w2])
         == if w0.Some? then w0
            else if w1.Some? then w1
            else w2
  {
    hide FirstOf;
    FirstCons(w0, [w1, w2]);
    assert [w0] + [w1, w2] == [w0, w1, w2];
    FirstCons(w1, [w2]);
    assert [w1] + [w2] == [w1, w2];
    FirstCons(w2, []);
    assert [w2] + [] == [w2];
    FirstNone();
  }

  lemma First4(w0: Option<Error>, w1: Option<Error>, w2: Option<Error>, w3: Option<Error>)
    ensures FirstOf([w0, w1, w2, w3])
         == if w0.Some? then w0
            else if w1.Some? then w1
            else if w2.Some? then w2
            else w3
  {
    hide FirstOf;
    FirstCons(w0, [w1, w2, w3]);
    assert [w0] + [w1, w2, w3] == [w0, w1, w2, w3];
    FirstCons(w1, [w2, w3]);
    assert [w1] + [w2, w3] == [w1, w2, w3];
    FirstCons(w2, [w3]);
    assert [w2] + [w3] == [w2, w3];
    FirstCons(w3, []);
    assert [w3] + [] == [w3];
    FirstNone();
  }

  lemma First5(w0: Option<Error>, w1: Option<Error>, w2: Option<Error>, w3: Option<Error>, w4: Option<Error>)
    ensures FirstOf([w0, w1, w2, w3, w4])
         == if w0.Some? then w0
            else if w1.Some? then w1
            else if w2.Some? then w2
            else if w3.Some? then w3
            else w4
  {
    hide FirstOf;
    FirstCons(w0, [w1, w2, w3, w4]);
    assert [w0] + [w1, w2, w3, w4] == [w0, w1, w2, w3, w4];
    FirstCons(w1, [w2, w3, w4]);
    assert [w1] + [w2, w3, w4] == [w1, w2, w3, w4];
    FirstCons(w2, [w3, w4]);
    assert [w2] + [w3, w4] == [w2, w3, w4];
    FirstCons(w3, [w4]);
    assert [w3] + [w4] == [w3, w4];
    FirstCons(w4, []);
    assert [w4] + [] == [w4];
    FirstNone();
  }

  lemma First6(w0: Option<Error>, w1: Option<Error>, w2: Option<Error>,
               w3: Option<Error>, w4: Option<Error>, w5: Option<Error>)
    ensures FirstOf([w0, w1, w2, w3, w4, w5])
         == if w0.Some? then w0
            else if w1.Some? then w1
            else if w2.Some? then w2
            else if w3.Some? then w3
            else if w4.Some? then w4
            else w5
  {
    hide FirstOf;
    First3(w0, w1, w2);
    First3(w3, w4, w5);
    FirstConcat([w0, w1, w2], [w3, w4, w5]);
    assert [w0, w1, w2] + [w3, w4, w5] == [w0, w1, w2, w3, w4, w5];
  }

  lemma First8(w0: Option<Error>, w1: Option<Error>, w2: Option<Error>, w3: Option<Error>,
               w4: Option<Error>, w5: Option<Error>, w6: Option<Error>, w7: Option<Error>)
    ensures FirstOf([w0, w1, w2, w3, w4, w5, w6, w7])
         == if w0.Some? then w0
            else if w1.Some? then w1
            else if w2.Some? then w2
            else if w3.Some? then w3
            else if w4.Some? then w4
            else if w5.Some? then w5
            else if w6.Some? then w6
            else w7
  {
    hide FirstOf;
    First4(w0, w1, w2, w3);
    First4(w4, w5, w6, w7);
    FirstConcat([w0, w1, w2, w3], [w4, w5, w6, w7]);
    assert [w0, w1, w2, w3] + [w4, w5, w6, w7] == [w0, w1, w2, w3, w4, w5, w6, w7];
  }

  lemma First9(w0: Option<Error>, w1: Option<Error>, w2: Option<Error>, w3: Option<Error>, w4: Option<Error>,
               w5: Option<Error>, w6: Option<Error>, w7: Option<Error>, w8: Option<Error>)
    ensures FirstOf([w0, w1, w2, w3, w4, w5, w6, w7, w8])
         == if w0.Some? then w0
            else if w1.Some? then w1
            else if w2.Some? then w2
            else if w3.Some? then w3
            else if w4.Some? then w4
            else if w5.Some? then w5
            else if w6.Some? then w6
            else if w7.Some? then w7
            else w8
  {
    hide FirstOf;
    First4(w0, w1, w2, w3);
    First5(w4, w5, w6, w7, w8);
    FirstConcat([w0, w1, w2, w3], [w4, w5, w6, w7, w8]);
    assert [w0, w1, w2, w3] + [w4, w5, w6, w7, w8] == [w0, w1, w2, w3, w4, w5, w6, w7, w8];
  }

  /** Field by field, each read refuses as its field is at fault. */
  ghost predicate AllSettle(ds: seq<Demand>, root: Value, ws: seq<Option<Error>>) {
    |ds| == |ws| && forall k | 0 <= k < |ws| :: Settles(ds[k], root, ws[k])
  }

  lemma SettleConcat(a: seq<Demand>, b: seq<Demand>, root: Value, us: seq<Option<Error>>, ws: seq<Option<Error>>)
    requires AllSettle(a, root, us) && AllSettle(b, root, ws)
    ensures AllSettle(a + b, root, us + ws)
  {
    hide Settles;
  }

  lemma FirstNone()
    ensures FirstOf([]) == None
  {
  }

  lemma ScalarsJudge()
    ensures Judges(UintForm, AsU64) && Judges(IntForm, AsI64) && Judges(FloatForm, AsF64)
    ensures Judges(BoolForm, AsBool) && Judges(TextForm, AsText) && Judges(BytesForm, AsBytes)
  {
    hide Float64.OfNat, Float64.OfInt;
  }

  lemma WordsJudge(words: set<seq<Byte>>, read: Value -> Result<seq<Byte>>)
    requires forall v :: read(v) == AsMember(v, words)
    ensures Judges(WordForm(words), read)
  {
  }

  lemma TimesJudge(rt: Runtime, read: Value -> Result<int>)
    requires forall v :: read(v) == AsTimestamp(rt, v)
    ensures Judges(TimeForm(rt.parseTime), read)
  {
  }

  /** A list is at fault with the error of its first item at fault. */
  lemma ListsJudge<E(!new)>(item: Form, read: Value -> Result<E>, all: Value -> Result<seq<E>>)
    requires Judges(item, read) && forall v :: all(v) == DecArray(v, read)
    ensures Judges(ListForm(item), all)
  {
    forall v, e
      ensures all(v) == Err(e) <==> Fault(ListForm(item), v, e)
    {
      if v.Array? {
        ItemsJudged(ListForm(item), read, v.items, |v.items|, e);
        NoItem(ListForm(item), v.items, e);
        WholeList(ListForm(item), v, e);
      }
      hide ReadAll, ItemsFit;
    }
  }

  /** Among the first `n` items. */
  ghost predicate ItemFault(form: Form, vs: seq<Value>, n: nat, e: Error)
    requires form.ListForm? && n <= |vs|
  {
    exists k | 0 <= k < n :: Fault(form.item, vs[k], e) && ItemsFit(form, k, vs)
  }

  lemma WholeList(form: Form, v: Value, e: Error)
    requires form.ListForm? && v.Array?
    ensures Fault(form, v, e) <==> ItemFault(form, v.items, |v.items|, e)
  {
    hide ItemsFit;
  }

  lemma NextItem(form: Form, vs: seq<Value>, n: nat, e: Error)
    requires form.ListForm? && n < |vs|
    ensures ItemFault(form, vs, n + 1, e)
        <==> ItemFault(form, vs, n, e) || (ItemsFit(form, n, vs) && Fault(form.item, vs[n], e))
    ensures ItemsFit(form, n + 1, vs) <==> ItemsFit(form, n, vs) && Fits(form.item, vs[n])
  {
    hide Fault, Fits;
  }

  lemma NoItem(form: Form, vs: seq<Value>, e: Error)
    requires form.ListForm?
    ensures !ItemFault(form, vs, 0, e) && ItemsFit(form, 0, vs) && vs[..0] == [] && vs[..|vs|] == vs
  {
  }

  lemma ReadNone<E>(read: Value -> Result<E>)
    ensures ReadAll([], read) == Ok([])
  {
  }

  lemma ReadNext<E>(vs: seq<Value>, n: nat, read: Value -> Result<E>)
    requires n < |vs|
    ensures ReadAll(vs[..n], read).Err? ==> ReadAll(vs[..n + 1], read) == ReadAll(vs[..n], read)
    ensures ReadAll(vs[..n], read).Ok? && read(vs[n]).Err? ==> ReadAll(vs[..n + 1], read) == Err(read(vs[n]).error)
    ensures ReadAll(vs[..n], read).Ok? && read(vs[n]).Ok? ==> ReadAll(vs[..n + 1], read).Ok?
  {
    assert vs[..n + 1][..n] == vs[..n];
  }

  lemma {:induction false} ItemsJudged<E(!new)>(form: Form, read: Value -> Result<E>, vs: seq<Value>, n: nat, e: Error)
    requires form.ListForm? && n <= |vs| && Judges(form.item, read)
    ensures ReadAll(vs[..n], read) == Err(e) <==> ItemFault(form, vs, n, e)
    ensures ReadAll(vs[..n], read).Ok? <==> ItemsFit(form, n, vs)
  {
    hide *;
    NoItem(form, vs, e);
    ReadNone(read);
    if n > 0 {
      ItemsJudged(form, read, vs, n - 1, e);
      LastFits(form.item, read, vs[n - 1]);
      NextItem(form, vs, n - 1, e);
      ReadNext(vs, n - 1, read);
    }
  }

  lemma LastFits<E(!new)>(item: Form, read: Value -> Result<E>, v: Value)
    requires Judges(item, read)
    ensures Fits(item, v) <==> read(v).Ok?
    ensures forall e :: Fault(item, v, e) <==> read(v) == Err(e)
  {
    hide Fault;
    if read(v).Err? {
      assert Fault(item, v, read(v).error);
    }
  }
}
