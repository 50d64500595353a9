/** The signed verse contract (crates/sidevers-core/src/verse.rs): field specs, policy clauses
    with their sorted parameter map, and the twelve-key contract object. */
module Contracts {
  import opened Wrappers
  import opened Bytes
  import opened Cbor
  import opened Records
  import opened Keys
  import opened ContractTypes

  // =====================================================================
  // Field specs
  // =====================================================================

  datatype SpecField = KindS | LabelS | ValidatorS | DescriptionS

  const SPEC: seq<SpecField> := [KindS, LabelS, ValidatorS, DescriptionS]

  const BLANK_SPEC := FieldSpec([], [], None, None)

  function SpecName(f: SpecField): Text {
    match f
    case KindS => Ascii("kind")
    case LabelS => Ascii("label")
    case ValidatorS => Ascii("validator")
    case DescriptionS => Ascii("description")
  }

  function SpecValue(x: FieldSpec, f: SpecField): seq<byte> {
    match f
    case KindS => TextString(x.kind)
    case LabelS => TextString(x.caption)
    case ValidatorS => NullableText(x.validator)
    case DescriptionS => NullableText(x.description)
  }

  function ReadSpecField(f: SpecField, x: FieldSpec, s: seq<byte>): Result<(FieldSpec, seq<byte>)> {
    match f
    case KindS => var (b, t) :- ReadText(s); Ok((x.(kind := b), t))
    case LabelS => var (b, t) :- ReadText(s); Ok((x.(caption := b), t))
    case ValidatorS => var (b, t) :- ReadOptionalText(s); Ok((x.(validator := b), t))
    case DescriptionS => var (b, t) :- ReadOptionalText(s); Ok((x.(description := b), t))
  }

  predicate SameSpec(f: SpecField, a: FieldSpec, b: FieldSpec) {
    match f
    case KindS => a.kind == b.kind
    case LabelS => a.caption == b.caption
    case ValidatorS => a.validator == b.validator
    case DescriptionS => a.description == b.description
  }

  predicate AnySpec(x: FieldSpec) {
    true
  }

  const SPEC_SCHEMA: Schema<SpecField, FieldSpec> := Schema(SpecName, SpecValue, ReadSpecField, SameSpec)

  lemma SpecFieldLaws(f: SpecField, x: FieldSpec, v: FieldSpec, t: seq<byte>, s: seq<byte>)
    ensures Stores(SPEC_SCHEMA, f, x, v, t, ReadSpecField(f, x, SpecValue(v, f) + t))
    ensures Consumes(SPEC_SCHEMA, f, x, s, ReadSpecField(f, x, s))
    ensures SameSpec(f, x, v) ==> SpecValue(x, f) == SpecValue(v, f)
  {
    hide TextString, ReadText, NullableText, ReadOptionalText;
    match f
    case KindS => TextRoundTrip(v.kind, t); if ReadText(s).Ok? { TextCanonical(s); }
    case LabelS => TextRoundTrip(v.caption, t); if ReadText(s).Ok? { TextCanonical(s); }
    case ValidatorS => NullableTextRoundTrip(v.validator, t); if ReadOptionalText(s).Ok? { NullableTextCanonical(s); }
    case DescriptionS =>
      NullableTextRoundTrip(v.description, t);
      if ReadOptionalText(s).Ok? { NullableTextCanonical(s); }
  }

  lemma SpecKeyOrder()
    ensures KeysAscend(SPEC_SCHEMA, SPEC)
  {
    forall i | 0 < i < |SPEC| ensures KeyPrecedes(SpecName(SPEC[i - 1]), SpecName(SPEC[i])) {}
  }

  lemma SpecLaws()
    ensures FieldsInvert(SPEC_SCHEMA, AnySpec) && FieldsStrict(SPEC_SCHEMA) && SameIsEquality(SPEC_SCHEMA)
    ensures KeysAscend(SPEC_SCHEMA, SPEC) && Distinct(SPEC)
  {
    hide SpecValue, ReadSpecField, SpecName;
    forall f, x, v, t ensures Stores(SPEC_SCHEMA, f, x, v, t, SPEC_SCHEMA.read(f, x, SPEC_SCHEMA.value(v, f) + t)) {
      SpecFieldLaws(f, x, v, t, t);
    }
    forall f, x, s ensures Consumes(SPEC_SCHEMA, f, x, s, SPEC_SCHEMA.read(f, x, s)) {
      SpecFieldLaws(f, x, x, s, s);
    }
    forall f, a, b | SameSpec(f, a, b) ensures SpecValue(a, f) == SpecValue(b, f) {
      SpecFieldLaws(f, a, b, [], []);
    }
    SpecKeyOrder();
  }

  function EncodeSpec(x: FieldSpec): seq<byte> {
    SpecKeyOrder();
    EntriesSorted(SPEC_SCHEMA, x, SPEC);
    EncodeMap(Entries(SPEC_SCHEMA, x, SPEC))
  }

  function ReadSpec(s: seq<byte>): Result<(FieldSpec, seq<byte>)> {
    ReadRecord(SPEC_SCHEMA, SPEC, BLANK_SPEC, s)
  }

  lemma SpecRoundTrip(x: FieldSpec, t: seq<byte>)
    ensures ReadSpec(EncodeSpec(x) + t) == Ok((x, t))
  {
    hide SpecValue, ReadSpecField, SpecName, EncodeMap, ReadRecord, FieldsInvert, FieldsStrict, SameIsEquality, KeysAscend;
    SpecLaws();
    EntriesSorted(SPEC_SCHEMA, x, SPEC);
    RecordRoundTrip(SPEC_SCHEMA, AnySpec, SPEC, BLANK_SPEC, x, t);
    var x' := ReadSpec(EncodeSpec(x) + t).value.0;
    assert SPEC[0] == KindS && SPEC[1] == LabelS && SPEC[2] == ValidatorS && SPEC[3] == DescriptionS;
    assert forall g :: SPEC_SCHEMA.same(g, x', if g in SPEC then x else BLANK_SPEC);
    forall f ensures SameSpec(f, x', x) {
      assert f in SPEC;
      assert SPEC_SCHEMA.same(f, x', x);
    }
    assert SameSpec(KindS, x', x) && SameSpec(LabelS, x', x);
    assert SameSpec(ValidatorS, x', x) && SameSpec(DescriptionS, x', x);
  }

  lemma SpecCanonical(s: seq<byte>)
    requires ReadSpec(s).Ok?
    ensures s == EncodeSpec(ReadSpec(s).value.0) + ReadSpec(s).value.1
  {
    hide SpecValue, ReadSpecField, SpecName, EncodeMap, ReadRecord, FieldsInvert, FieldsStrict, SameIsEquality, KeysAscend;
    SpecLaws();
    RecordCanonical(SPEC_SCHEMA, SPEC, BLANK_SPEC, s);
  }

  // =====================================================================
  // Policy parameters: a map written in canonical key order
  // =====================================================================

  type Pair = (Text, Text)

  /** KeyPrecedes is a strict total order. */
  lemma PrecedesOrder(a: Text, b: Text, c: Text)
    ensures KeyPrecedes(a, b) || a == b || KeyPrecedes(b, a)
    ensures !(KeyPrecedes(a, b) && (a == b || KeyPrecedes(b, a)))
    ensures KeyPrecedes(a, b) && KeyPrecedes(b, c) ==> KeyPrecedes(a, c)
  {
    BelowTrichotomy(a, b);
    if Below(a, b) && Below(b, c) {
      BelowTransitive(a, b, c);
    }
  }

  predicate Leads(k: Text, ks: set<Text>) {
    k in ks && forall x :: x in ks && x != k ==> KeyPrecedes(k, x)
  }

  lemma LeadsMore(k: Text, least: Text, ks: set<Text>)
    requires k in ks && Leads(least, ks - {k})
    ensures Leads(if KeyPrecedes(least, k) then least else k, ks)
  {
    hide KeyPrecedes, IsUtf8;
    PrecedesOrder(k, least, k);
    if !KeyPrecedes(least, k) {
      forall x | x in ks && x != k ensures KeyPrecedes(k, x) {
        PrecedesOrder(k, least, x);
      }
    }
  }

  lemma {:induction false} LeastOf(ks: set<Text>) returns (k: Text)
    requires ks != {}
    ensures Leads(k, ks)
  {
    hide KeyPrecedes, IsUtf8;
    k :| k in ks;
    if ks != {k} {
      var least := LeastOf(ks - {k});
      LeadsMore(k, least, ks);
      k := if KeyPrecedes(least, k) then least else k;
    }
  }

  lemma LeastExists(ks: set<Text>)
    requires ks != {}
    ensures exists k :: Leads(k, ks)
  {
    var k := LeastOf(ks);
  }

  lemma LeadsOnce(ks: set<Text>)
    ensures forall a, b :: Leads(a, ks) && Leads(b, ks) ==> a == b
  {
    hide KeyPrecedes, IsUtf8;
    forall a, b | Leads(a, ks) && Leads(b, ks) ensures a == b {
      PrecedesOrder(a, b, a);
    }
  }

  function Least(ks: set<Text>): (k: Text)
    requires ks != {}
    ensures Leads(k, ks)
  {
    LeastExists(ks);
    LeadsOnce(ks);
    var k :| Leads(k, ks);
    k
  }

  /** The parameters in the order they are written. */
  function SortedPairs(m: map<Text, Text>): (ps: seq<Pair>)
    ensures |ps| == |m|
    decreases |m|
  {
    if |m| == 0 then [] else
    var k := Least(m.Keys);
    [(k, m[k])] + SortedPairs(m - {k})
  }

  /** Strictly ascending keys. */
  predicate Ascending(ps: seq<Pair>) {
    forall i, j :: 0 <= i < j < |ps| ==> KeyPrecedes(ps[i].0, ps[j].0)
  }

  /** The map a decoder builds by inserting the pairs in order. */
  function PairsMap(ps: seq<Pair>): (m: map<Text, Text>)
    ensures forall k :: k in m <==> exists i :: 0 <= i < |ps| && ps[i].0 == k
  {
    if ps == [] then map[] else map[ps[0].0 := ps[0].1] + PairsMap(ps[1..])
  }

  lemma {:induction false} PairsMapSize(ps: seq<Pair>)
    ensures |PairsMap(ps)| <= |ps|
  {
    if ps != [] {
      PairsMapSize(ps[1..]);
      AddOne(PairsMap(ps[1..]), ps[0].0, ps[0].1);
    }
  }

  lemma AddOne<K, V>(m: map<K, V>, k: K, v: V)
    ensures |map[k := v] + m| <= |m| + 1
  {
    if k in m {
      assert map[k := v] + m == m;
    } else {
      TakeFirst(m, k, v);
    }
  }

  lemma PutFirst<K, V>(m: map<K, V>, k: K)
    requires k in m
    ensures map[k := m[k]] + (m - {k}) == m
  {
    var n := map[k := m[k]] + (m - {k});
    assert n.Keys == m.Keys;
    assert forall x :: x in m ==> n[x] == m[x];
  }

  lemma TakeFirst<K, V>(m: map<K, V>, k: K, v: V)
    requires k !in m
    ensures (map[k := v] + m) - {k} == m && |map[k := v] + m| == |m| + 1
    ensures (map[k := v] + m)[k] == v
  {
    var n := map[k := v] + m;
    assert n.Keys == m.Keys + {k};
    assert (n - {k}).Keys == m.Keys;
    assert forall x :: x in m ==> (n - {k})[x] == m[x];
  }

  lemma LeastPrecedes(m: map<Text, Text>, rest: seq<Pair>)
    requires m != map[] && PairsMap(rest) == m - {Least(m.Keys)}
    ensures forall j :: 0 <= j < |rest| ==> KeyPrecedes(Least(m.Keys), rest[j].0)
  {
    hide KeyPrecedes, IsUtf8, Least;
    forall j | 0 <= j < |rest| ensures KeyPrecedes(Least(m.Keys), rest[j].0) {
      assert rest[j].0 in PairsMap(rest);
    }
  }

  lemma AscendingFront(p: Pair, rest: seq<Pair>)
    requires Ascending(rest) && forall j :: 0 <= j < |rest| ==> KeyPrecedes(p.0, rest[j].0)
    ensures Ascending([p] + rest) && PairsMap([p] + rest) == map[p.0 := p.1] + PairsMap(rest)
  {
    hide KeyPrecedes, IsUtf8;
    assert ([p] + rest)[1..] == rest;
  }

  /** Sorting loses nothing and sorts. */
  lemma {:induction false} SortedPairsLaws(m: map<Text, Text>)
    ensures Ascending(SortedPairs(m)) && PairsMap(SortedPairs(m)) == m
    decreases |m|
  {
    if |m| > 0 {
      hide KeyPrecedes, IsUtf8, Least, Ascending, PairsMap;
      var k := Least(m.Keys);
      var rest := SortedPairs(m - {k});
      SortedPairsLaws(m - {k});
      LeastPrecedes(m, rest);
      AscendingFront((k, m[k]), rest);
      PutFirst(m, k);
    }
  }

  lemma HeadIsLeast(ps: seq<Pair>)
    requires Ascending(ps) && ps != []
    ensures ps[0].0 !in PairsMap(ps[1..]) && Least(PairsMap(ps).Keys) == ps[0].0
  {
    hide KeyPrecedes, IsUtf8;
    var m, k, rest := PairsMap(ps), ps[0].0, ps[1..];
    forall x | x in PairsMap(rest) ensures KeyPrecedes(k, x) {
      var i :| 0 <= i < |rest| && rest[i].0 == x;
      assert ps[i + 1].0 == x;
    }
    PrecedesOrder(k, k, k);
    PrecedesOrder(k, Least(m.Keys), k);
  }

  lemma SortedPairsStep(m: map<Text, Text>, k: Text, v: Text)
    requires k !in m && Least((map[k := v] + m).Keys) == k
    ensures SortedPairs(map[k := v] + m) == [(k, v)] + SortedPairs(m)
  {
    hide KeyPrecedes, IsUtf8, Least;
    TakeFirst(m, k, v);
  }

  /** A strictly ascending list is the sorted form of the map it builds. */
  lemma {:induction false} AscendingIsSorted(ps: seq<Pair>)
    requires Ascending(ps)
    ensures SortedPairs(PairsMap(ps)) == ps && |PairsMap(ps)| == |ps|
  {
    hide KeyPrecedes, IsUtf8, Least, SortedPairs;
    if ps != [] {
      HeadIsLeast(ps);
      TakeFirst(PairsMap(ps[1..]), ps[0].0, ps[0].1);
      AscendingIsSorted(ps[1..]);
      SortedPairsStep(PairsMap(ps[1..]), ps[0].0, ps[0].1);
      assert ps == [ps[0]] + ps[1..];
    }
  }

  function PairEntries(ps: seq<Pair>): (es: seq<MapEntry>)
    ensures |es| == |ps|
    ensures forall i :: 0 <= i < |ps| ==> es[i] == MapEntry(TextString(ps[i].0), TextString(ps[i].1))
  {
    if ps == [] then [] else [MapEntry(TextString(ps[0].0), TextString(ps[0].1))] + PairEntries(ps[1..])
  }

  lemma PairEntriesSorted(ps: seq<Pair>)
    requires Ascending(ps)
    ensures IsSortedByKey(PairEntries(ps))
  {
    forall i | 0 < i < |ps| ensures Below(PairEntries(ps)[i - 1].key, PairEntries(ps)[i].key) {
      PrecedesBelow(ps[i - 1].0, ps[i].0);
    }
  }

  function EncodeParams(m: Params): seq<byte> {
    SortedPairsLaws(m);
    PairEntriesSorted(SortedPairs(m));
    EncodeMap(PairEntries(SortedPairs(m)))
  }

  /** Read `n` pairs whose encoded keys strictly ascend from `last`. */
  function ReadPairs(n: nat, last: Option<seq<byte>>, s: seq<byte>): (r: Result<(seq<Pair>, seq<byte>)>)
    ensures r.Ok? ==> |r.value.0| == n
  {
    if n == 0 then Ok(([], s)) else
    var (k, s1) :- ReadText(s);
    var kbytes := s[..if |s1| <= |s| then |s| - |s1| else 0];
    if last.Some? && !Below(last.value, kbytes) then Err(CborNotCanonical) else
    var (v, s2) :- ReadText(s1);
    var (ps, t) :- ReadPairs(n - 1, Some(kbytes), s2);
    Ok(([(k, v)] + ps, t))
  }

  function ReadParams(cap: nat, s: seq<byte>): Result<(Params, seq<byte>)> {
    var (n, s1) :- ReadCount(MAP, cap, s);
    var (ps, t) :- ReadPairs(n, None, s1);
    PairsMapSize(ps);
    Ok((PairsMap(ps), t))
  }

  /** The bytes a successful key read consumed are the key's encoding. */
  lemma KeyBytes(s: seq<byte>)
    requires ReadText(s).Ok?
    ensures |ReadText(s).value.1| <= |s|
    ensures s[..|s| - |ReadText(s).value.1|] == TextString(ReadText(s).value.0)
  {
    hide TextString, ReadText;
    TextCanonical(s);
    var (k, t) := ReadText(s).value;
    assert (TextString(k) + t)[..|TextString(k)|] == TextString(k);
  }

  predicate StartsAfter(last: Option<seq<byte>>, ps: seq<Pair>) {
    last.None? || ps == [] || Below(last.value, TextString(ps[0].0))
  }

  lemma FirstPairBytes(ps: seq<Pair>)
    requires ps != []
    ensures EntryBytes(PairEntries(ps))
         == TextString(ps[0].0) + TextString(ps[0].1) + EntryBytes(PairEntries(ps[1..]))
  {
    hide TextString, IsUtf8;
    assert PairEntries(ps)[1..] == PairEntries(ps[1..]);
  }

  lemma PairsSplit(ps: seq<Pair>, t: seq<byte>)
    requires ps != []
    ensures EntryBytes(PairEntries(ps)) + t
         == TextString(ps[0].0) + (TextString(ps[0].1) + (EntryBytes(PairEntries(ps[1..])) + t))
  {
    hide TextString, IsUtf8, EntryBytes, PairEntries;
    FirstPairBytes(ps);
    var k, v, rest := TextString(ps[0].0), TextString(ps[0].1), EntryBytes(PairEntries(ps[1..]));
    Assoc(k + v, rest, t);
    Assoc(k, v, rest + t);
  }

  lemma AscendingTail(ps: seq<Pair>)
    requires Ascending(ps) && ps != []
    ensures Ascending(ps[1..]) && StartsAfter(Some(TextString(ps[0].0)), ps[1..])
  {
    hide TextString, KeyPrecedes, Below, IsUtf8;
    if |ps| > 1 {
      PrecedesBelow(ps[0].0, ps[1].0);
    }
  }

  /** Reading one pair, its key after `last`, and then the others. */
  lemma ReadPairsStep(k: Text, v: Text, last: Option<seq<byte>>, rest: seq<byte>, n: nat)
    requires last.None? || Below(last.value, TextString(k))
    requires ReadPairs(n, Some(TextString(k)), rest).Ok?
    ensures var (ps, t) := ReadPairs(n, Some(TextString(k)), rest).value;
            ReadPairs(n + 1, last, TextString(k) + (TextString(v) + rest)) == Ok(([(k, v)] + ps, t))
  {
    hide TextString, ReadText, Below, IsUtf8;
    var s := TextString(k) + (TextString(v) + rest);
    TextRoundTrip(k, TextString(v) + rest);
    TextRoundTrip(v, rest);
    KeyBytes(s);
  }

  lemma PairsRoundTripStep(ps: seq<Pair>, last: Option<seq<byte>>, t: seq<byte>)
    requires ps != [] && StartsAfter(last, ps)
    requires ReadPairs(|ps| - 1, Some(TextString(ps[0].0)), EntryBytes(PairEntries(ps[1..])) + t) == Ok((ps[1..], t))
    ensures ReadPairs(|ps|, last, EntryBytes(PairEntries(ps)) + t) == Ok((ps, t))
  {
    hide TextString, ReadText, KeyPrecedes, Below, IsUtf8, EntryBytes, PairEntries, ReadPairs;
    PairsSplit(ps, t);
    ReadPairsStep(ps[0].0, ps[0].1, last, EntryBytes(PairEntries(ps[1..])) + t, |ps| - 1);
    assert ps == [(ps[0].0, ps[0].1)] + ps[1..];
  }

  lemma {:induction false} PairsRoundTrip(ps: seq<Pair>, last: Option<seq<byte>>, t: seq<byte>)
    requires Ascending(ps) && StartsAfter(last, ps)
    ensures ReadPairs(|ps|, last, EntryBytes(PairEntries(ps)) + t) == Ok((ps, t))
    decreases |ps|
  {
    hide TextString, ReadText, KeyPrecedes, Below, IsUtf8, Ascending, StartsAfter;
    if ps == [] {
      assert EntryBytes(PairEntries(ps)) + t == t;
    } else {
      hide ReadPairs, EntryBytes, PairEntries;
      AscendingTail(ps);
      PairsRoundTrip(ps[1..], Some(TextString(ps[0].0)), t);
      PairsRoundTripStep(ps, last, t);
    }
  }

  lemma {:induction false} PairsCanonical(n: nat, last: Option<seq<byte>>, s: seq<byte>)
    requires ReadPairs(n, last, s).Ok?
    ensures var (ps, t) := ReadPairs(n, last, s).value;
            s == EntryBytes(PairEntries(ps)) + t && Ascending(ps) && StartsAfter(last, ps)
    decreases n
  {
    hide TextString, ReadText, KeyPrecedes, Below, IsUtf8;
    var (ps, t) := ReadPairs(n, last, s).value;
    if n == 0 {
      assert EntryBytes(PairEntries(ps)) + t == t;
    } else {
      var (k, s1) := ReadText(s).value;
      var (v, s2) := ReadText(s1).value;
      KeyBytes(s);
      TextCanonical(s);
      TextCanonical(s1);
      PairsCanonical(n - 1, Some(TextString(k)), s2);
      var rest := ps[1..];
      assert rest == ReadPairs(n - 1, Some(TextString(k)), s2).value.0;
      assert PairEntries(ps)[1..] == PairEntries(rest);
      assert s == TextString(k) + (TextString(v) + (EntryBytes(PairEntries(rest)) + t));
      if rest != [] {
        PrecedesBelow(k, rest[0].0);
        forall j | 0 <= j < |rest| ensures KeyPrecedes(k, rest[j].0) {
          if j > 0 {
            PrecedesOrder(k, rest[0].0, rest[j].0);
          }
        }
      }
    }
  }

  /** Every parameter map survives, whatever order its keys were inserted in. */
  lemma ParamsRoundTrip(cap: nat, m: Params, t: seq<byte>)
    requires |m| <= cap
    ensures ReadParams(cap, EncodeParams(m) + t) == Ok((m, t))
  {
    hide TextString, ReadText, Head, ReadHead, KeyPrecedes, Below, IsUtf8;
    var ps := SortedPairs(m);
    SortedPairsLaws(m);
    PairEntriesSorted(ps);
    CountRoundTrip(MAP, cap, |ps|, EntryBytes(PairEntries(ps)) + t);
    Assoc(Head(MAP, |ps|), EntryBytes(PairEntries(ps)), t);
    PairsRoundTrip(ps, None, t);
    hide SortedPairs, PairsMap, EntryBytes, PairEntries;
  }

  /** The strictly-ascending test accepts nothing but the canonical order. */
  lemma ParamsCanonical(cap: nat, s: seq<byte>)
    requires ReadParams(cap, s).Ok?
    ensures s == EncodeParams(ReadParams(cap, s).value.0) + ReadParams(cap, s).value.1
    ensures |ReadParams(cap, s).value.0| <= cap
  {
    hide TextString, ReadText, Head, ReadHead, KeyPrecedes, Below, IsUtf8;
    CountCanonical(MAP, cap, s);
    var (n, s1) := ReadCount(MAP, cap, s).value;
    PairsCanonical(n, None, s1);
    var (ps, t) := ReadPairs(n, None, s1).value;
    AscendingIsSorted(ps);
    PairEntriesSorted(ps);
    Assoc(Head(MAP, n), EntryBytes(PairEntries(ps)), t);
  }

  // =====================================================================
  // Policy clauses
  // =====================================================================

  datatype PolicyField = KindP | ParamsP

  const POLICY: seq<PolicyField> := [KindP, ParamsP]

  const BLANK_POLICY := PolicyClause([], map[])

  function PolicyName(f: PolicyField): Text {
    match f
    case KindP => Ascii("kind")
    case ParamsP => Ascii("params")
  }

  function PolicyValue(p: PolicyClause, f: PolicyField): seq<byte> {
    match f
    case KindP => TextString(p.kind)
    case ParamsP => EncodeParams(p.params)
  }

  function ReadPolicyField(cap: nat, f: PolicyField, p: PolicyClause, s: seq<byte>): Result<(PolicyClause, seq<byte>)> {
    match f
    case KindP => var (b, t) :- ReadText(s); Ok((p.(kind := b), t))
    case ParamsP => var (m, t) :- ReadParams(cap, s); Ok((p.(params := m), t))
  }

  predicate SamePolicy(f: PolicyField, a: PolicyClause, b: PolicyClause) {
    match f
    case KindP => a.kind == b.kind
    case ParamsP => a.params == b.params
  }

  function PolicySchema(cap: nat): Schema<PolicyField, PolicyClause> {
    Schema(PolicyName, PolicyValue, (f, p, s) => ReadPolicyField(cap, f, p, s), SamePolicy)
  }

  /** Clauses a reader with this cap accepts. */
  function PolicyFits(cap: nat): PolicyClause -> bool {
    (p: PolicyClause) => |p.params| <= cap
  }

  lemma PolicyFieldLaws(cap: nat, f: PolicyField, x: PolicyClause, v: PolicyClause, t: seq<byte>, s: seq<byte>)
    ensures |v.params| <= cap ==>
              Stores(PolicySchema(cap), f, x, v, t, ReadPolicyField(cap, f, x, PolicyValue(v, f) + t))
    ensures Consumes(PolicySchema(cap), f, x, s, ReadPolicyField(cap, f, x, s))
    ensures SamePolicy(f, x, v) ==> PolicyValue(x, f) == PolicyValue(v, f)
  {
    hide TextString, ReadText, EncodeParams, ReadParams;
    match f
    case KindP => TextRoundTrip(v.kind, t); if ReadText(s).Ok? { TextCanonical(s); }
    case ParamsP =>
      if |v.params| <= cap { ParamsRoundTrip(cap, v.params, t); }
      if ReadParams(cap, s).Ok? { ParamsCanonical(cap, s); }
  }

  lemma PolicyKeyOrder(cap: nat)
    ensures KeysAscend(PolicySchema(cap), POLICY)
  {
  }

  lemma PolicyLaws(cap: nat)
    ensures FieldsInvert(PolicySchema(cap), PolicyFits(cap)) && FieldsStrict(PolicySchema(cap))
    ensures SameIsEquality(PolicySchema(cap))
    ensures KeysAscend(PolicySchema(cap), POLICY) && Distinct(POLICY)
  {
    hide PolicyValue, ReadPolicyField, PolicyName;
    var c := PolicySchema(cap);
    forall f, x, v, t | PolicyFits(cap)(v) ensures Stores(c, f, x, v, t, c.read(f, x, c.value(v, f) + t)) {
      PolicyFieldLaws(cap, f, x, v, t, t);
    }
    forall f, x, s ensures Consumes(c, f, x, s, c.read(f, x, s)) {
      PolicyFieldLaws(cap, f, x, x, s, s);
    }
    forall f, a, b | SamePolicy(f, a, b) ensures PolicyValue(a, f) == PolicyValue(b, f) {
      PolicyFieldLaws(cap, f, a, b, [], []);
    }
    PolicyKeyOrder(cap);
  }

  function EncodePolicy(p: PolicyClause): seq<byte> {
    var c := PolicySchema(MAX_CBOR_ENTRIES);
    PolicyKeyOrder(MAX_CBOR_ENTRIES);
    EntriesSorted(c, p, POLICY);
    EncodeMap(Entries(c, p, POLICY))
  }

  function ReadPolicy(cap: nat, s: seq<byte>): Result<(PolicyClause, seq<byte>)> {
    ReadRecord(PolicySchema(cap), POLICY, BLANK_POLICY, s)
  }

  /** Entries depend on the cap only through reading. */
  lemma {:induction false} PolicyEntriesSame(cap: nat, p: PolicyClause, fs: seq<PolicyField>)
    ensures Entries(PolicySchema(cap), p, fs) == Entries(PolicySchema(MAX_CBOR_ENTRIES), p, fs)
  {
    hide PolicyValue, PolicyName, TextString;
    if fs != [] {
      PolicyEntriesSame(cap, p, fs[1..]);
    }
  }

  lemma PolicyRoundTrip(cap: nat, p: PolicyClause, t: seq<byte>)
    requires |p.params| <= cap
    ensures ReadPolicy(cap, EncodePolicy(p) + t) == Ok((p, t))
  {
    hide PolicyValue, ReadPolicyField, PolicyName, EncodeMap, ReadRecord, FieldsInvert, FieldsStrict, SameIsEquality, KeysAscend;
    var c := PolicySchema(cap);
    PolicyLaws(cap);
    PolicyEntriesSame(cap, p, POLICY);
    EntriesSorted(c, p, POLICY);
    RecordRoundTrip(c, PolicyFits(cap), POLICY, BLANK_POLICY, p, t);
    var p' := ReadPolicy(cap, EncodePolicy(p) + t).value.0;
    assert POLICY[0] == KindP && POLICY[1] == ParamsP;
    assert forall g :: c.same(g, p', if g in POLICY then p else BLANK_POLICY);
    forall f ensures SamePolicy(f, p', p) {
      assert f in POLICY;
      assert c.same(f, p', p);
    }
    assert SamePolicy(KindP, p', p) && SamePolicy(ParamsP, p', p);
  }

  lemma PolicyCanonical(cap: nat, s: seq<byte>)
    requires ReadPolicy(cap, s).Ok?
    ensures s == EncodePolicy(ReadPolicy(cap, s).value.0) + ReadPolicy(cap, s).value.1
  {
    hide PolicyValue, ReadPolicyField, PolicyName, EncodeMap, ReadRecord, FieldsInvert, FieldsStrict, SameIsEquality, KeysAscend;
    PolicyLaws(cap);
    RecordCanonical(PolicySchema(cap), POLICY, BLANK_POLICY, s);
    PolicyEntriesSame(cap, ReadPolicy(cap, s).value.0, POLICY);
  }

  // =====================================================================
  // The contract object
  // =====================================================================

  datatype Field = TitleF | VerseF | ScopedF | VersionF | OptionalF | PoliciesF | RequiredF
                 | ForbiddenF | IssuedAtF | SignatureF | ModeratorsF | DescriptionF

  const WIRE: seq<Field> :=
    [TitleF, VerseF, ScopedF, VersionF, OptionalF, PoliciesF, RequiredF,
     ForbiddenF, IssuedAtF, SignatureF, ModeratorsF, DescriptionF]

  const UNSIGNED: seq<Field> :=
    [TitleF, VerseF, ScopedF, VersionF, OptionalF, PoliciesF, RequiredF,
     ForbiddenF, IssuedAtF, ModeratorsF, DescriptionF]

  /** The record a decoder starts from; every field is overwritten before it is used. */
  const BLANK := Contract(Zeros(32), 0, [], [], [], [], [], [], [], [], 0, Zeros(64))

  function Name(f: Field): Text {
    match f
    case TitleF => Ascii("title")
    case VerseF => Ascii("verse")
    case ScopedF => Ascii("scoped")
    case VersionF => Ascii("version")
    case OptionalF => Ascii("optional")
    case PoliciesF => Ascii("policies")
    case RequiredF => Ascii("required")
    case ForbiddenF => Ascii("forbidden")
    case IssuedAtF => Ascii("issued_at")
    case SignatureF => Ascii("signature")
    case ModeratorsF => Ascii("moderators")
    case DescriptionF => Ascii("description")
  }

  function EncodeKey(k: PublicKey): seq<byte> {
    ByteString(k)
  }

  function ReadKey(s: seq<byte>): Result<(PublicKey, seq<byte>)> {
    var (b, t) :- ReadFixed(PUBLIC_KEY_LEN, s);
    Ok((b, t))
  }

  function PolicyReader(cap: nat): Reader<PolicyClause> {
    s => ReadPolicy(cap, s)
  }

  function EncodeKinds(xs: Arr<FieldKind>): seq<byte> {
    ArrayOf(TextString, xs)
  }

  function EncodeSpecs(xs: Arr<FieldSpec>): seq<byte> {
    ArrayOf(EncodeSpec, xs)
  }

  function EncodePolicies(xs: Arr<PolicyClause>): seq<byte> {
    ArrayOf(EncodePolicy, xs)
  }

  function EncodeModerators(xs: Arr<PublicKey>): seq<byte> {
    ArrayOf(EncodeKey, xs)
  }

  function ReadKinds(cap: nat, s: seq<byte>): Result<(Arr<FieldKind>, seq<byte>)> {
    ReadArray(ReadText, cap, s)
  }

  function ReadSpecs(cap: nat, s: seq<byte>): Result<(Arr<FieldSpec>, seq<byte>)> {
    ReadArray(ReadSpec, cap, s)
  }

  function ReadPolicies(cap: nat, s: seq<byte>): Result<(Arr<PolicyClause>, seq<byte>)> {
    ReadArray(PolicyReader(cap), cap, s)
  }

  function ReadModerators(cap: nat, s: seq<byte>): Result<(Arr<PublicKey>, seq<byte>)> {
    ReadArray(ReadKey, cap, s)
  }

  function Value(c: Contract, f: Field): seq<byte> {
    match f
    case TitleF => TextString(c.title)
    case VerseF => ByteString(c.verse)
    case ScopedF => EncodeKinds(c.scoped)
    case VersionF => Uint(c.version)
    case OptionalF => EncodeSpecs(c.optional)
    case PoliciesF => EncodePolicies(c.policies)
    case RequiredF => EncodeSpecs(c.required)
    case ForbiddenF => EncodeKinds(c.forbidden)
    case IssuedAtF => Uint(c.issuedAt)
    case SignatureF => ByteString(c.signature)
    case ModeratorsF => EncodeModerators(c.moderators)
    case DescriptionF => TextString(c.description)
  }

  function ReadField(cap: nat, f: Field, c: Contract, s: seq<byte>): Result<(Contract, seq<byte>)> {
    match f
    case TitleF => var (b, t) :- ReadText(s); Ok((c.(title := b), t))
    case VerseF => var (b, t) :- ReadFixed(PUBLIC_KEY_LEN, s); Ok((c.(verse := b), t))
    case ScopedF => var (xs, t) :- ReadKinds(cap, s); Ok((c.(scoped := xs), t))
    case VersionF => var (n, t) :- ReadU64(s); Ok((c.(version := n), t))
    case OptionalF => var (xs, t) :- ReadSpecs(cap, s); Ok((c.(optional := xs), t))
    case PoliciesF => var (xs, t) :- ReadPolicies(cap, s); Ok((c.(policies := xs), t))
    case RequiredF => var (xs, t) :- ReadSpecs(cap, s); Ok((c.(required := xs), t))
    case ForbiddenF => var (xs, t) :- ReadKinds(cap, s); Ok((c.(forbidden := xs), t))
    case IssuedAtF => var (n, t) :- ReadU64(s); Ok((c.(issuedAt := n), t))
    case SignatureF => var (b, t) :- ReadFixed(SIGNATURE_LEN, s); Ok((c.(signature := b), t))
    case ModeratorsF => var (xs, t) :- ReadModerators(cap, s); Ok((c.(moderators := xs), t))
    case DescriptionF => var (b, t) :- ReadText(s); Ok((c.(description := b), t))
  }

  predicate Same(f: Field, a: Contract, b: Contract) {
    match f
    case TitleF => a.title == b.title
    case VerseF => a.verse == b.verse
    case ScopedF => a.scoped == b.scoped
    case VersionF => a.version == b.version
    case OptionalF => a.optional == b.optional
    case PoliciesF => a.policies == b.policies
    case RequiredF => a.required == b.required
    case ForbiddenF => a.forbidden == b.forbidden
    case IssuedAtF => a.issuedAt == b.issuedAt
    case SignatureF => a.signature == b.signature
    case ModeratorsF => a.moderators == b.moderators
    case DescriptionF => a.description == b.description
  }

  function ContractSchema(cap: nat): Schema<Field, Contract> {
    Schema(Name, Value, (f, c, s) => ReadField(cap, f, c, s), Same)
  }

  /** Every array and every parameter map has at most `cap` entries. */
  predicate WithinCap(cap: nat, c: Contract) {
    && |c.required| <= cap && |c.optional| <= cap && |c.forbidden| <= cap && |c.scoped| <= cap
    && |c.policies| <= cap && |c.moderators| <= cap
    && forall p :: p in c.policies ==> |p.params| <= cap
  }

  function Fits(cap: nat): Contract -> bool {
    (c: Contract) => WithinCap(cap, c)
  }

  // ---------------------------------------------------------------------
  // Element codecs
  // ---------------------------------------------------------------------

  predicate AnyText(t: Text) {
    true
  }

  predicate AnyKey(k: PublicKey) {
    true
  }

  lemma ElementLaws(cap: nat)
    ensures Inverts(TextString, ReadText, AnyText) && Strict(TextString, ReadText)
    ensures Inverts(EncodeSpec, ReadSpec, AnySpec) && Strict(EncodeSpec, ReadSpec)
    ensures Inverts(EncodePolicy, PolicyReader(cap), PolicyFits(cap)) && Strict(EncodePolicy, PolicyReader(cap))
    ensures Inverts(EncodeKey, ReadKey, AnyKey) && Strict(EncodeKey, ReadKey)
  {
    hide TextString, ReadText, EncodeSpec, ReadSpec, EncodePolicy, ReadPolicy, ByteString, ReadBytes;
    forall x: Text, t ensures ReadText(TextString(x) + t) == Ok((x, t)) { TextRoundTrip(x, t); }
    forall s | ReadText(s).Ok? ensures s == TextString(ReadText(s).value.0) + ReadText(s).value.1 { TextCanonical(s); }
    forall x, t ensures ReadSpec(EncodeSpec(x) + t) == Ok((x, t)) { SpecRoundTrip(x, t); }
    forall s | ReadSpec(s).Ok? ensures s == EncodeSpec(ReadSpec(s).value.0) + ReadSpec(s).value.1 { SpecCanonical(s); }
    forall p, t | PolicyFits(cap)(p) ensures PolicyReader(cap)(EncodePolicy(p) + t) == Ok((p, t)) {
      PolicyRoundTrip(cap, p, t);
    }
    forall s | PolicyReader(cap)(s).Ok?
      ensures s == EncodePolicy(PolicyReader(cap)(s).value.0) + PolicyReader(cap)(s).value.1
    {
      PolicyCanonical(cap, s);
    }
    forall k: PublicKey, t ensures ReadKey(EncodeKey(k) + t) == Ok((k, t)) { BytesRoundTrip(k, t); }
    forall s | ReadKey(s).Ok? ensures s == EncodeKey(ReadKey(s).value.0) + ReadKey(s).value.1 { BytesCanonical(s); }
  }

  lemma FieldRoundTrip(cap: nat, f: Field, c: Contract, v: Contract, t: seq<byte>)
    requires WithinCap(cap, v)
    ensures Stores(ContractSchema(cap), f, c, v, t, ReadField(cap, f, c, Value(v, f) + t))
  {
    hide TextString, ReadText, ByteString, ReadBytes, Uint, ReadU64, ArrayOf, ReadArray, Inverts, Strict;
    ElementLaws(cap);
    match f
    case TitleF => TextRoundTrip(v.title, t);
    case VerseF => BytesRoundTrip(v.verse, t);
    case ScopedF => ArrayRoundTrip(TextString, ReadText, AnyText, cap, v.scoped, t);
    case VersionF => UintRoundTrip(v.version, t);
    case OptionalF => ArrayRoundTrip(EncodeSpec, ReadSpec, AnySpec, cap, v.optional, t);
    case PoliciesF => ArrayRoundTrip(EncodePolicy, PolicyReader(cap), PolicyFits(cap), cap, v.policies, t);
    case RequiredF => ArrayRoundTrip(EncodeSpec, ReadSpec, AnySpec, cap, v.required, t);
    case ForbiddenF => ArrayRoundTrip(TextString, ReadText, AnyText, cap, v.forbidden, t);
    case IssuedAtF => UintRoundTrip(v.issuedAt, t);
    case SignatureF => BytesRoundTrip(v.signature, t);
    case ModeratorsF => ArrayRoundTrip(EncodeKey, ReadKey, AnyKey, cap, v.moderators, t);
    case DescriptionF => TextRoundTrip(v.description, t);
  }

  lemma FieldCanonical(cap: nat, f: Field, c: Contract, s: seq<byte>)
    ensures Consumes(ContractSchema(cap), f, c, s, ReadField(cap, f, c, s))
  {
    hide TextString, ReadText, ByteString, ReadBytes, Uint, ReadU64, ArrayOf, ReadArray, Inverts, Strict;
    ElementLaws(cap);
    if ReadField(cap, f, c, s).Ok? {
      match f
      case TitleF => TextCanonical(s);
      case VerseF => BytesCanonical(s);
      case ScopedF => ArrayCanonical(TextString, ReadText, cap, s);
      case VersionF => UintCanonical(s);
      case OptionalF => ArrayCanonical(EncodeSpec, ReadSpec, cap, s);
      case PoliciesF => ArrayCanonical(EncodePolicy, PolicyReader(cap), cap, s);
      case RequiredF => ArrayCanonical(EncodeSpec, ReadSpec, cap, s);
      case ForbiddenF => ArrayCanonical(TextString, ReadText, cap, s);
      case IssuedAtF => UintCanonical(s);
      case SignatureF => BytesCanonical(s);
      case ModeratorsF => ArrayCanonical(EncodeKey, ReadKey, cap, s);
      case DescriptionF => TextCanonical(s);
    }
  }

  lemma ValueOfSame(f: Field, a: Contract, b: Contract)
    requires Same(f, a, b)
    ensures Value(a, f) == Value(b, f)
  {
    hide TextString, ByteString, Uint, EncodeKinds, EncodeSpecs, EncodePolicies, EncodeModerators;
  }

  predicate Follows(f: Field, g: Field) {
    KeyPrecedes(Name(f), Name(g))
  }

  lemma NameOrder()
    ensures Follows(TitleF, VerseF) && Follows(VerseF, ScopedF) && Follows(ScopedF, VersionF)
    ensures Follows(VersionF, OptionalF) && Follows(OptionalF, PoliciesF) && Follows(PoliciesF, RequiredF)
    ensures Follows(RequiredF, ForbiddenF) && Follows(ForbiddenF, IssuedAtF) && Follows(IssuedAtF, SignatureF)
    ensures Follows(SignatureF, ModeratorsF) && Follows(IssuedAtF, ModeratorsF) && Follows(ModeratorsF, DescriptionF)
  {
    hide IsUtf8;
  }

  /** The key orders written out in the source are canonical. */
  lemma KeyOrder(cap: nat)
    ensures KeysAscend(ContractSchema(cap), WIRE) && KeysAscend(ContractSchema(cap), UNSIGNED)
  {
    hide Name, Value, ReadField, IsUtf8, KeyPrecedes;
    NameOrder();
    forall i | 0 < i < |WIRE| ensures KeyPrecedes(Name(WIRE[i - 1]), Name(WIRE[i])) {
      assert Follows(WIRE[i - 1], WIRE[i]);
    }
    forall i | 0 < i < |UNSIGNED| ensures KeyPrecedes(Name(UNSIGNED[i - 1]), Name(UNSIGNED[i])) {
      assert Follows(UNSIGNED[i - 1], UNSIGNED[i]);
    }
  }

  lemma Laws(cap: nat)
    ensures FieldsInvert(ContractSchema(cap), Fits(cap)) && FieldsStrict(ContractSchema(cap))
    ensures SameIsEquality(ContractSchema(cap))
    ensures KeysAscend(ContractSchema(cap), WIRE) && KeysAscend(ContractSchema(cap), UNSIGNED)
    ensures Distinct(WIRE)
  {
    hide Value, ReadField, Name, WithinCap;
    var d := ContractSchema(cap);
    forall f, c, v, t | Fits(cap)(v) ensures Stores(d, f, c, v, t, d.read(f, c, d.value(v, f) + t)) {
      FieldRoundTrip(cap, f, c, v, t);
    }
    forall f, c, s ensures Consumes(d, f, c, s, d.read(f, c, s)) {
      FieldCanonical(cap, f, c, s);
    }
    forall f, a, b | Same(f, a, b) ensures Value(a, f) == Value(b, f) {
      ValueOfSame(f, a, b);
    }
    KeyOrder(cap);
  }

  lemma SameEuclidean(f: Field, r: Contract, a: Contract, b: Contract)
    requires Same(f, r, a) && Same(f, r, b)
    ensures Same(f, a, b)
  {
  }

  lemma OnTheWire(f: Field)
    ensures f in WIRE && (f != SignatureF ==> f in UNSIGNED)
  {
    match f
    case TitleF => assert WIRE[0] == UNSIGNED[0] == f;
    case VerseF => assert WIRE[1] == UNSIGNED[1] == f;
    case ScopedF => assert WIRE[2] == UNSIGNED[2] == f;
    case VersionF => assert WIRE[3] == UNSIGNED[3] == f;
    case OptionalF => assert WIRE[4] == UNSIGNED[4] == f;
    case PoliciesF => assert WIRE[5] == UNSIGNED[5] == f;
    case RequiredF => assert WIRE[6] == UNSIGNED[6] == f;
    case ForbiddenF => assert WIRE[7] == UNSIGNED[7] == f;
    case IssuedAtF => assert WIRE[8] == UNSIGNED[8] == f;
    case SignatureF => assert WIRE[9] == f;
    case ModeratorsF => assert WIRE[10] == UNSIGNED[9] == f;
    case DescriptionF => assert WIRE[11] == UNSIGNED[10] == f;
  }

  lemma SameEverywhere(a: Contract, b: Contract)
    requires forall f :: Same(f, a, b)
    ensures a == b
  {
    assert Same(TitleF, a, b) && Same(VerseF, a, b) && Same(ScopedF, a, b) && Same(VersionF, a, b);
    assert Same(OptionalF, a, b) && Same(PoliciesF, a, b) && Same(RequiredF, a, b) && Same(ForbiddenF, a, b);
    assert Same(IssuedAtF, a, b) && Same(SignatureF, a, b) && Same(ModeratorsF, a, b) && Same(DescriptionF, a, b);
  }

  /** Contracts that agree on the signed fields differ at most in the signature. */
  lemma SameSigned(a: Contract, b: Contract)
    requires forall f :: f in UNSIGNED ==> Same(f, a, b)
    ensures a == b.(signature := a.signature)
  {
    var c := b.(signature := a.signature);
    forall f ensures Same(f, a, c) {
      OnTheWire(f);
    }
    SameEverywhere(a, c);
  }

  /** A record read with every field of `c` is `c`. */
  lemma WireDetermines(cap: nat, a: Contract, c: Contract)
    requires forall g :: ContractSchema(cap).same(g, a, if g in WIRE then c else BLANK)
    ensures a == c
  {
    forall f ensures Same(f, a, c) {
      OnTheWire(f);
      assert ContractSchema(cap).same(f, a, if f in WIRE then c else BLANK);
    }
    SameEverywhere(a, c);
  }

  /** Entries depend on the cap only through reading. */
  lemma {:induction false} EntriesSame(cap: nat, c: Contract, fs: seq<Field>)
    ensures Entries(ContractSchema(cap), c, fs) == Entries(ContractSchema(MAX_CBOR_ENTRIES), c, fs)
  {
    hide Value, Name, TextString;
    if fs != [] {
      EntriesSame(cap, c, fs[1..]);
    }
  }

  // ---------------------------------------------------------------------
  // Encoding and decoding
  // ---------------------------------------------------------------------

  /** The bytes that are hashed and signed. */
  function EncodeUnsigned(c: Contract): seq<byte> {
    KeyOrder(MAX_CBOR_ENTRIES);
    EntriesSorted(ContractSchema(MAX_CBOR_ENTRIES), c, UNSIGNED);
    EncodeMap(Entries(ContractSchema(MAX_CBOR_ENTRIES), c, UNSIGNED))
  }

  function ToWireBytes(c: Contract): seq<byte> {
    KeyOrder(MAX_CBOR_ENTRIES);
    EntriesSorted(ContractSchema(MAX_CBOR_ENTRIES), c, WIRE);
    EncodeMap(Entries(ContractSchema(MAX_CBOR_ENTRIES), c, WIRE))
  }

  /** The content address of a contract. */
  function ContractHash(cr: Crypto, c: Contract): seq<byte> {
    cr.hash(ToWireBytes(c))
  }

  /** All field reads of the decoder. */
  function ReadContract(cap: nat, s: seq<byte>): Result<(Contract, seq<byte>)> {
    ReadRecord(ContractSchema(cap), WIRE, BLANK, s)
  }

  predicate Authentic(cr: Crypto, c: Contract) {
    cr.validKey(c.verse) && cr.verify(c.verse, cr.hash(EncodeUnsigned(c)), c.signature)
  }

  /** The decoder's tests after the field reads. There is no end-of-input test here: the
      re-encode comparison is what a longer input meets. */
  function Accept(cr: Crypto, bytes: seq<byte>, c: Contract): Result<Contract> {
    if !cr.validKey(c.verse) then Err(BadPublicKey)
    else if !cr.verify(c.verse, cr.hash(EncodeUnsigned(c)), c.signature) then Err(BadSignature)
    else if ToWireBytes(c) != bytes then Err(CborNotCanonical)
    else Ok(c)
  }

  function FromWireBytes(cr: Crypto, bytes: seq<byte>): Result<Contract> {
    var (c, _) :- ReadContract(MAX_CBOR_ENTRIES, bytes);
    Accept(cr, bytes, c)
  }

  // ---------------------------------------------------------------------
  // Main results
  // ---------------------------------------------------------------------

  lemma ContractRoundTrip(cap: nat, c: Contract, t: seq<byte>)
    requires WithinCap(cap, c)
    ensures ReadContract(cap, ToWireBytes(c) + t) == Ok((c, t))
  {
    hide Value, ReadField, Name, Same, EncodeMap, ReadRecord, FieldsInvert, FieldsStrict, SameIsEquality, KeysAscend,
      WithinCap;
    var d := ContractSchema(cap);
    Laws(cap);
    EntriesSame(cap, c, WIRE);
    EntriesSorted(d, c, WIRE);
    RecordRoundTrip(d, Fits(cap), WIRE, BLANK, c, t);
    WireDetermines(cap, ReadContract(cap, ToWireBytes(c) + t).value.0, c);
  }

  /** The strict reader alone forces canonicity: whatever it read re-encodes to exactly the
      bytes consumed. */
  lemma ContractCanonical(cap: nat, s: seq<byte>)
    requires ReadContract(cap, s).Ok?
    ensures s == ToWireBytes(ReadContract(cap, s).value.0) + ReadContract(cap, s).value.1
  {
    hide Value, ReadField, Name, EncodeMap, ReadRecord, FieldsInvert, FieldsStrict, SameIsEquality, KeysAscend;
    Laws(cap);
    RecordCanonical(ContractSchema(cap), WIRE, BLANK, s);
    EntriesSame(cap, ReadContract(cap, s).value.0, WIRE);
  }

  // ---------------------------------------------------------------------
  // The entry caps
  // ---------------------------------------------------------------------

  predicate PolicyFieldFits(cap: nat, f: PolicyField, p: PolicyClause) {
    f.ParamsP? ==> |p.params| <= cap
  }

  lemma PolicyReadFits(cap: nat, s: seq<byte>)
    requires ReadPolicy(cap, s).Ok?
    ensures |ReadPolicy(cap, s).value.0.params| <= cap
  {
    hide PolicyValue, PolicyName, ReadText, FieldsInvert, FieldsStrict, SameIsEquality, ReadFields;
    var c := PolicySchema(cap);
    PolicyLaws(cap);
    forall f, p, x | c.read(f, p, x).Ok? ensures PolicyFieldFits(cap, f, c.read(f, p, x).value.0) {
      if f.ParamsP? {
        ParamsCanonical(cap, x);
      }
    }
    var fit := (f, p) => PolicyFieldFits(cap, f, p);
    FieldsFit(c, fit, POLICY, BLANK_POLICY, ReadCount(MAP, MAX_CBOR_ENTRIES, s).value.1);
    assert POLICY[1] == ParamsP;
    assert fit(ParamsP, ReadPolicy(cap, s).value.0);
  }

  predicate FieldFits(cap: nat, f: Field, c: Contract) {
    match f
    case ScopedF => |c.scoped| <= cap
    case OptionalF => |c.optional| <= cap
    case PoliciesF => |c.policies| <= cap && forall p :: p in c.policies ==> |p.params| <= cap
    case RequiredF => |c.required| <= cap
    case ForbiddenF => |c.forbidden| <= cap
    case ModeratorsF => |c.moderators| <= cap
    case _ => true
  }

  lemma FieldReadFits(cap: nat, f: Field, c: Contract, s: seq<byte>)
    requires ReadField(cap, f, c, s).Ok?
    ensures FieldFits(cap, f, ReadField(cap, f, c, s).value.0)
  {
    hide TextString, ReadText, ReadBytes, ReadU64, ArrayOf, ReadArray, Inverts, Strict;
    ElementLaws(cap);
    match f
    case ScopedF => ArrayCanonical(TextString, ReadText, cap, s);
    case OptionalF => ArrayCanonical(EncodeSpec, ReadSpec, cap, s);
    case RequiredF => ArrayCanonical(EncodeSpec, ReadSpec, cap, s);
    case ForbiddenF => ArrayCanonical(TextString, ReadText, cap, s);
    case ModeratorsF => ArrayCanonical(EncodeKey, ReadKey, cap, s);
    case PoliciesF =>
      ArrayCanonical(EncodePolicy, PolicyReader(cap), cap, s);
      forall x | PolicyReader(cap)(x).Ok? ensures PolicyFits(cap)(PolicyReader(cap)(x).value.0) {
        PolicyReadFits(cap, x);
      }
      ArrayAll(PolicyReader(cap), PolicyFits(cap), cap, s);
      var xs := ReadField(cap, f, c, s).value.0.policies;
      forall p | p in xs ensures |p.params| <= cap {
        assert PolicyFits(cap)(p);
      }
    case _ =>
  }

  lemma FitsOfSame(cap: nat, f: Field, a: Contract, b: Contract)
    requires Same(f, a, b) && FieldFits(cap, f, b)
    ensures FieldFits(cap, f, a)
  {
  }

  lemma ReadWithinCap(cap: nat, s: seq<byte>)
    requires ReadContract(cap, s).Ok?
    ensures WithinCap(cap, ReadContract(cap, s).value.0)
  {
    hide Value, ReadField, Name, FieldsInvert, FieldsStrict, SameIsEquality, ReadFields, WithinCap;
    var d := ContractSchema(cap);
    Laws(cap);
    forall f, a, b | Same(f, a, b) && FieldFits(cap, f, b) ensures FieldFits(cap, f, a) {
      FitsOfSame(cap, f, a, b);
    }
    hide Same, FieldFits;
    forall f, c, x | d.read(f, c, x).Ok? ensures FieldFits(cap, f, d.read(f, c, x).value.0) {
      FieldReadFits(cap, f, c, x);
    }
    var fit := (f, c) => FieldFits(cap, f, c);
    FieldsFit(d, fit, WIRE, BLANK, ReadCount(MAP, MAX_CBOR_ENTRIES, s).value.1);
    var c := ReadContract(cap, s).value.0;
    forall f | f in WIRE ensures FieldFits(cap, f, c) {
      assert fit(f, c);
    }
    AllFit(cap, c);
  }

  lemma AllFit(cap: nat, c: Contract)
    requires forall f :: f in WIRE ==> FieldFits(cap, f, c)
    ensures WithinCap(cap, c)
  {
    assert ScopedF in WIRE && OptionalF in WIRE && PoliciesF in WIRE;
    assert RequiredF in WIRE && ForbiddenF in WIRE && ModeratorsF in WIRE;
    assert FieldFits(cap, ScopedF, c) && FieldFits(cap, OptionalF, c) && FieldFits(cap, PoliciesF, c);
    assert FieldFits(cap, RequiredF, c) && FieldFits(cap, ForbiddenF, c) && FieldFits(cap, ModeratorsF, c);
  }

  // ---------------------------------------------------------------------
  // What decoding accepts, and why it rejects
  // ---------------------------------------------------------------------

  /** Decoding accepts exactly the wire forms of authentic contracts within the entry caps,
      each as itself: both directions of the round trip. */
  lemma DecodesExactly(cr: Crypto, bytes: seq<byte>, c: Contract)
    ensures FromWireBytes(cr, bytes) == Ok(c) <==>
            bytes == ToWireBytes(c) && WithinCap(MAX_CBOR_ENTRIES, c) && Authentic(cr, c)
  {
    hide ReadContract, ToWireBytes, EncodeUnsigned, WithinCap;
    if ReadContract(MAX_CBOR_ENTRIES, bytes).Ok? {
      ReadWithinCap(MAX_CBOR_ENTRIES, bytes);
    }
    if WithinCap(MAX_CBOR_ENTRIES, c) {
      ContractRoundTrip(MAX_CBOR_ENTRIES, c, []);
      assert ToWireBytes(c) + [] == ToWireBytes(c);
    }
  }

  /** Once the fields read and the signature verifies, the final re-encode comparison rejects
      exactly the inputs with bytes left over; it never catches a non-canonical encoding. */
  lemma ReencodeRejectsExactlyTrailing(cr: Crypto, bytes: seq<byte>)
    requires ReadContract(MAX_CBOR_ENTRIES, bytes).Ok?
    requires Authentic(cr, ReadContract(MAX_CBOR_ENTRIES, bytes).value.0)
    ensures var (c, rest) := ReadContract(MAX_CBOR_ENTRIES, bytes).value;
            FromWireBytes(cr, bytes) == if rest == [] then Ok(c) else Err(CborNotCanonical)
  {
    hide ReadContract, ToWireBytes, EncodeUnsigned;
    ContractCanonical(MAX_CBOR_ENTRIES, bytes);
    var (c, rest) := ReadContract(MAX_CBOR_ENTRIES, bytes).value;
    assert |ToWireBytes(c) + rest| == |ToWireBytes(c)| + |rest|;
  }

  /** Such an input exists for every authentic contract: one byte more, and all field reads
      still succeed, but the comparison rejects. So the comparison is not redundant here. */
  lemma TrailingByteReachesReencode(cr: Crypto, c: Contract, extra: byte)
    requires WithinCap(MAX_CBOR_ENTRIES, c) && Authentic(cr, c)
    ensures ReadContract(MAX_CBOR_ENTRIES, ToWireBytes(c) + [extra]) == Ok((c, [extra]))
    ensures FromWireBytes(cr, ToWireBytes(c) + [extra]) == Err(CborNotCanonical)
  {
    hide ReadContract, ToWireBytes, EncodeUnsigned, WithinCap;
    ContractRoundTrip(MAX_CBOR_ENTRIES, c, [extra]);
    ReencodeRejectsExactlyTrailing(cr, ToWireBytes(c) + [extra]);
  }

  /** The signed bytes determine all eleven fields they cover, for contracts of any size. */
  lemma UnsignedInjective(a: Contract, b: Contract)
    requires EncodeUnsigned(a) == EncodeUnsigned(b)
    ensures a == b.(signature := a.signature)
  {
    hide Value, ReadField, Name, Same, EncodeMap, FieldsInvert, FieldsStrict, SameIsEquality, KeysAscend;
    var d := ContractSchema(U64_LIMIT);
    Laws(U64_LIMIT);
    EntriesSame(U64_LIMIT, a, UNSIGNED);
    EntriesSame(U64_LIMIT, b, UNSIGNED);
    EntriesSorted(d, a, UNSIGNED);
    EntriesSorted(d, b, UNSIGNED);
    var r := RecordInjective(d, Fits(U64_LIMIT), UNSIGNED, BLANK, a, b);
    forall f | f in UNSIGNED ensures Same(f, a, b) {
      assert d.same(f, r, a) && d.same(f, r, b);
      SameEuclidean(f, r, a, b);
    }
    SameSigned(a, b);
  }

  /** The wire form determines the contract, for contracts of any size: unless the hash
      collides on these two inputs, a content address names one contract. */
  lemma HashNamesContract(cr: Crypto, a: Contract, b: Contract)
    requires ContractHash(cr, a) == ContractHash(cr, b)
    ensures a == b || (ToWireBytes(a) != ToWireBytes(b) && cr.hash(ToWireBytes(a)) == cr.hash(ToWireBytes(b)))
  {
    hide ReadContract, ToWireBytes;
    if ToWireBytes(a) == ToWireBytes(b) {
      ContractRoundTrip(U64_LIMIT, a, []);
      ContractRoundTrip(U64_LIMIT, b, []);
    }
  }
}
