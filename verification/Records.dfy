/** CBOR maps with a fixed key order, as every signed object of the protocol is: one reading
    and writing discipline, its laws proved once for any record.

    A record type `R` has fields `F`; a schema says how a field is named, written, read into a
    partly filled record, and compared. */
module Records {
  import opened Wrappers
  import opened Bytes
  import opened Cbor

  datatype Schema<!F(!new), !R(!new)> = Schema(
    name: F -> Text,
    value: (R, F) -> seq<byte>,
    read: (F, R, seq<byte>) -> Result<(R, seq<byte>)>,
    same: (F, R, R) -> bool)

  function Entries<F(!new), R(!new)>(c: Schema<F, R>, r: R, fs: seq<F>): (es: seq<MapEntry>)
    ensures |es| == |fs|
    ensures forall i :: 0 <= i < |fs| ==> es[i] == MapEntry(TextString(c.name(fs[i])), c.value(r, fs[i]))
  {
    if fs == [] then []
    else [MapEntry(TextString(c.name(fs[0])), c.value(r, fs[0]))] + Entries(c, r, fs[1..])
  }

  /** Length first, then bytes: the canonical order of text keys. */
  predicate KeyPrecedes(a: Text, b: Text) {
    |a| < |b| || (|a| == |b| && Below(a, b))
  }

  lemma PrecedesBelow(a: Text, b: Text)
    ensures KeyPrecedes(a, b) <==> Below(TextString(a), TextString(b))
  {
    TextOrder(a, b);
  }

  ghost predicate KeysAscend<F(!new), R(!new)>(c: Schema<F, R>, fs: seq<F>) {
    forall i :: 0 < i < |fs| ==> KeyPrecedes(c.name(fs[i - 1]), c.name(fs[i]))
  }

  lemma EntriesSorted<F(!new), R(!new)>(c: Schema<F, R>, r: R, fs: seq<F>)
    requires KeysAscend(c, fs)
    ensures IsSortedByKey(Entries(c, r, fs))
  {
    forall i | 0 < i < |fs| ensures Below(Entries(c, r, fs)[i - 1].key, Entries(c, r, fs)[i].key) {
      PrecedesBelow(c.name(fs[i - 1]), c.name(fs[i]));
    }
  }

  /** Read the fields `fs`, each under its expected key, into `r`. */
  function ReadFields<F(!new), R(!new)>(c: Schema<F, R>, fs: seq<F>, r: R, s: seq<byte>)
    : Result<(R, seq<byte>)>
  {
    if fs == [] then Ok((r, s)) else
    var (k, s1) :- ReadText(s);
    if k != c.name(fs[0]) then Err(CborNotCanonical) else
    var (r', s2) :- c.read(fs[0], r, s1);
    ReadFields(c, fs[1..], r', s2)
  }

  /** Read a whole record of `n` keys. */
  function ReadRecord<F(!new), R(!new)>(c: Schema<F, R>, fs: seq<F>, blank: R, s: seq<byte>)
    : Result<(R, seq<byte>)>
  {
    var (n, t) :- ReadCount(MAP, MAX_CBOR_ENTRIES, s);
    if n != |fs| then Err(CborDecode) else ReadFields(c, fs, blank, t)
  }

  // ---------------------------------------------------------------------
  // Laws of one field, owed by each schema
  // ---------------------------------------------------------------------

  /** The read result `x` holds `v`'s field `f`, `r`'s other fields, and leaves `t`. */
  ghost predicate Stores<F(!new), R(!new)>(
    c: Schema<F, R>, f: F, r: R, v: R, t: seq<byte>, x: Result<(R, seq<byte>)>)
  {
    x.Ok? && x.value.1 == t && c.same(f, x.value.0, v) && forall g :: g != f ==> c.same(g, x.value.0, r)
  }

  /** Reading a written field stores it and nothing else. */
  ghost predicate FieldsInvert<F(!new), R(!new)>(c: Schema<F, R>, ok: R -> bool) {
    forall f, r, v, t :: ok(v) ==> Stores(c, f, r, v, t, c.read(f, r, c.value(v, f) + t))
  }

  /** The field read `x` from `s` consumed exactly the encoding of what it stored. */
  ghost predicate Consumes<F(!new), R(!new)>(
    c: Schema<F, R>, f: F, r: R, s: seq<byte>, x: Result<(R, seq<byte>)>)
  {
    x.Ok? ==>
      s == c.value(x.value.0, f) + x.value.1 && forall g :: g != f ==> c.same(g, x.value.0, r)
  }

  ghost predicate FieldsStrict<F(!new), R(!new)>(c: Schema<F, R>) {
    forall f, r, s :: Consumes(c, f, r, s, c.read(f, r, s))
  }

  /** Agreement is an equivalence and equal fields are written alike. */
  ghost predicate SameIsEquality<F(!new), R(!new)>(c: Schema<F, R>) {
    && (forall f, a :: c.same(f, a, a))
    && (forall f, a, b :: c.same(f, a, b) ==> c.value(a, f) == c.value(b, f))
    && (forall f, a, b, d :: c.same(f, a, b) && c.same(f, b, d) ==> c.same(f, a, d))
  }

  // ---------------------------------------------------------------------
  // Laws of all fields
  // ---------------------------------------------------------------------

  lemma {:induction false} FieldsRoundTrip<F(!new), R(!new)>(
    c: Schema<F, R>, ok: R -> bool, fs: seq<F>, r: R, v: R, t: seq<byte>)
    requires FieldsInvert(c, ok) && SameIsEquality(c) && ok(v)
    ensures ReadFields(c, fs, r, EntryBytes(Entries(c, v, fs)) + t).Ok?
    ensures var (r', rest) := ReadFields(c, fs, r, EntryBytes(Entries(c, v, fs)) + t).value;
            rest == t && forall g :: c.same(g, r', if g in fs then v else r)
    decreases |fs|
  {
    hide TextString, ReadText;
    if fs == [] {
      assert EntryBytes(Entries(c, v, fs)) + t == t;
    } else {
      var f := fs[0];
      var rest := EntryBytes(Entries(c, v, fs[1..])) + t;
      assert Entries(c, v, fs)[1..] == Entries(c, v, fs[1..]);
      assert EntryBytes(Entries(c, v, fs)) + t == TextString(c.name(f)) + (c.value(v, f) + rest);
      TextRoundTrip(c.name(f), c.value(v, f) + rest);
      var x := c.read(f, r, c.value(v, f) + rest);
      assert Stores(c, f, r, v, rest, x);
      FieldsRoundTrip(c, ok, fs[1..], x.value.0, v, t);
      var r' := ReadFields(c, fs[1..], x.value.0, rest).value.0;
      forall g ensures c.same(g, r', if g in fs then v else r) {
        assert g in fs <==> g == f || g in fs[1..];
        assert c.same(g, r', if g in fs[1..] then v else x.value.0);
        assert g !in fs[1..] ==> c.same(g, x.value.0, if g == f then v else r);
      }
    }
  }

  predicate Distinct<F(==)>(fs: seq<F>) {
    forall i, j :: 0 <= i < j < |fs| ==> fs[i] != fs[j]
  }

  lemma {:induction false} FieldsCanonical<F(!new), R(!new)>(c: Schema<F, R>, fs: seq<F>, r: R, s: seq<byte>)
    requires FieldsStrict(c) && SameIsEquality(c) && Distinct(fs) && ReadFields(c, fs, r, s).Ok?
    ensures var (r', t) := ReadFields(c, fs, r, s).value;
            s == EntryBytes(Entries(c, r', fs)) + t && forall g :: g !in fs ==> c.same(g, r', r)
    decreases |fs|
  {
    hide TextString, ReadText;
    if fs != [] {
      var f := fs[0];
      TextCanonical(s);
      var (k, s1) := ReadText(s).value;
      assert Consumes(c, f, r, s1, c.read(f, r, s1));
      var (r1, s2) := c.read(f, r, s1).value;
      FieldsCanonical(c, fs[1..], r1, s2);
      var (r', t) := ReadFields(c, fs[1..], r1, s2).value;
      assert c.value(r', f) == c.value(r1, f);
      assert Entries(c, r', fs)[1..] == Entries(c, r', fs[1..]);
      assert s == TextString(k) + (c.value(r', f) + (EntryBytes(Entries(c, r', fs[1..])) + t));
      assert s == EntryBytes(Entries(c, r', fs)) + t;
      forall g | g !in fs ensures c.same(g, r', r) {
        assert c.same(g, r', r1) && c.same(g, r1, r);
      }
    } else {
      assert EntryBytes(Entries(c, r, fs)) + s == s;
    }
  }

  /** A written record is read back before any suffix. */
  lemma RecordRoundTrip<F(!new), R(!new)>(
    c: Schema<F, R>, ok: R -> bool, fs: seq<F>, blank: R, v: R, t: seq<byte>)
    requires FieldsInvert(c, ok) && SameIsEquality(c) && ok(v)
    requires KeysAscend(c, fs) && |fs| <= MAX_CBOR_ENTRIES && IsSortedByKey(Entries(c, v, fs))
    ensures ReadRecord(c, fs, blank, EncodeMap(Entries(c, v, fs)) + t).Ok?
    ensures var (r', rest) := ReadRecord(c, fs, blank, EncodeMap(Entries(c, v, fs)) + t).value;
            rest == t && forall g :: c.same(g, r', if g in fs then v else blank)
  {
    var body := EntryBytes(Entries(c, v, fs));
    CountRoundTrip(MAP, MAX_CBOR_ENTRIES, |fs|, body + t);
    assert EncodeMap(Entries(c, v, fs)) + t == Head(MAP, |fs|) + (body + t);
    FieldsRoundTrip(c, ok, fs, blank, v, t);
  }

  /** Whatever was read re-encodes to exactly the bytes consumed. */
  lemma RecordCanonical<F(!new), R(!new)>(c: Schema<F, R>, fs: seq<F>, blank: R, s: seq<byte>)
    requires FieldsStrict(c) && SameIsEquality(c) && Distinct(fs) && KeysAscend(c, fs)
    requires |fs| <= MAX_CBOR_ENTRIES && ReadRecord(c, fs, blank, s).Ok?
    ensures var (r', t) := ReadRecord(c, fs, blank, s).value;
            IsSortedByKey(Entries(c, r', fs)) && s == EncodeMap(Entries(c, r', fs)) + t
  {
    CountCanonical(MAP, MAX_CBOR_ENTRIES, s);
    var (n, s1) := ReadCount(MAP, MAX_CBOR_ENTRIES, s).value;
    FieldsCanonical(c, fs, blank, s1);
    var (r', t) := ReadRecord(c, fs, blank, s).value;
    EntriesSorted(c, r', fs);
    assert Head(MAP, n) + (EntryBytes(Entries(c, r', fs)) + t) == EncodeMap(Entries(c, r', fs)) + t;
  }

  /** Equal written records agree on every field written. */
  lemma RecordInjective<F(!new), R(!new)>(
    c: Schema<F, R>, ok: R -> bool, fs: seq<F>, blank: R, a: R, b: R) returns (r: R)
    requires FieldsInvert(c, ok) && SameIsEquality(c) && ok(a) && ok(b)
    requires KeysAscend(c, fs) && |fs| <= MAX_CBOR_ENTRIES
    requires IsSortedByKey(Entries(c, a, fs)) && IsSortedByKey(Entries(c, b, fs))
    requires EncodeMap(Entries(c, a, fs)) == EncodeMap(Entries(c, b, fs))
    ensures forall g :: g in fs ==> c.same(g, r, a) && c.same(g, r, b)
  {
    RecordRoundTrip(c, ok, fs, blank, a, []);
    RecordRoundTrip(c, ok, fs, blank, b, []);
    r := ReadRecord(c, fs, blank, EncodeMap(Entries(c, a, fs)) + []).value.0;
  }

  /** What every field read establishes of its field holds of every field of the record read. */
  lemma {:induction false} FieldsFit<F(!new), R(!new)>(
    c: Schema<F, R>, fit: (F, R) -> bool, fs: seq<F>, r: R, s: seq<byte>)
    requires FieldsStrict(c) && SameIsEquality(c) && Distinct(fs) && ReadFields(c, fs, r, s).Ok?
    requires forall f, x, b :: c.read(f, x, b).Ok? ==> fit(f, c.read(f, x, b).value.0)
    requires forall f, a, b :: c.same(f, a, b) && fit(f, b) ==> fit(f, a)
    ensures forall g :: g in fs ==> fit(g, ReadFields(c, fs, r, s).value.0)
    decreases |fs|
  {
    hide TextString, ReadText;
    if fs != [] {
      var s1 := ReadText(s).value.1;
      var (r1, s2) := c.read(fs[0], r, s1).value;
      FieldsFit(c, fit, fs[1..], r1, s2);
      FieldsCanonical(c, fs[1..], r1, s2);
      var r' := ReadFields(c, fs[1..], r1, s2).value.0;
      assert c.same(fs[0], r', r1);
      assert forall g :: g in fs <==> g == fs[0] || g in fs[1..];
    }
  }
}
