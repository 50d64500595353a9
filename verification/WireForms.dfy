/** The wire forms byte by byte, against the numbers of section 3 of RFC 8949 and the key names of
    the protocol: a reference that shares nothing with the writer but its input. */
module WireForms {
  import opened Wrappers
  import opened Bytes
  import opened Cbor
  import opened Records
  import opened Keys
  import opened ContractTypes
  import E = Envelopes
  import V = Contracts

  // ---------------------------------------------------------------------
  // Items
  // ---------------------------------------------------------------------

  /** A head: major type in the top three bits, then the argument in the fewest bytes. */
  function H(major: nat, n: u64): seq<byte>
    requires major < 8
  {
    if n < 24 then [32 * major + n]
    else if n < 0x100 then [32 * major + 24, n]
    else if n < 0x1_0000 then [32 * major + 25, n / 0x100, n % 0x100]
    else if n < 0x1_0000_0000 then
      [32 * major + 26, n / 0x100_0000, n / 0x1_0000 % 0x100, n / 0x100 % 0x100, n % 0x100]
    else
      [32 * major + 27, n / 0x100_0000_0000_0000, n / 0x1_0000_0000_0000 % 0x100, n / 0x100_0000_0000 % 0x100,
       n / 0x1_0000_0000 % 0x100, n / 0x100_0000 % 0x100, n / 0x1_0000 % 0x100, n / 0x100 % 0x100, n % 0x100]
  }

  /** Unsigned integers are major type 0, byte strings 2, texts 3, arrays 4 and maps 5; an absent
      optional is the simple value null. */
  function U(n: u64): seq<byte> {
    H(0, n)
  }

  function B(b: Blob): seq<byte> {
    H(2, |b|) + b
  }

  function T(t: Text): seq<byte> {
    H(3, |t|) + t
  }

  function N(t: Option<Text>): seq<byte> {
    if t.None? then [0xF6] else T(t.value)
  }

  function A<X>(enc: X -> seq<byte>, xs: Arr<X>): seq<byte> {
    H(4, |xs|) + Items(enc, xs)
  }

  lemma TwoBytes(n: nat)
    requires n < 0x1_0000
    ensures n < Pow256(2) && ToBigEndian(n, 2) == [n / 0x100, n % 0x100]
  {
    Pow256Values();
    assert ToBigEndian(n / 0x100, 1) == ToBigEndian(0, 0) + [n / 0x100];
  }

  lemma FourBytes(n: nat)
    requires n < 0x1_0000_0000
    ensures n < Pow256(4)
    ensures ToBigEndian(n, 4) == [n / 0x100_0000, n / 0x1_0000 % 0x100, n / 0x100 % 0x100, n % 0x100]
  {
    Pow256Values();
    TwoBytes(n / 0x1_0000);
    assert n / 0x100 / 0x100 == n / 0x1_0000;
    assert ToBigEndian(n / 0x100, 3) == ToBigEndian(n / 0x1_0000, 2) + [n / 0x100 % 0x100];
  }

  lemma EightBytes(n: nat)
    requires n < U64_LIMIT
    ensures n < Pow256(8)
    ensures ToBigEndian(n, 8)
         == [n / 0x100_0000_0000_0000, n / 0x1_0000_0000_0000 % 0x100, n / 0x100_0000_0000 % 0x100,
             n / 0x1_0000_0000 % 0x100, n / 0x100_0000 % 0x100, n / 0x1_0000 % 0x100, n / 0x100 % 0x100, n % 0x100]
  {
    Pow256Values();
    var high := n / 0x1_0000_0000;
    FourBytes(high);
    assert high / 0x100_0000 == n / 0x100_0000_0000_0000;
    assert high / 0x1_0000 == n / 0x1_0000_0000_0000 && high / 0x100 == n / 0x100_0000_0000;
    var a, b, c := n / 0x100, n / 0x1_0000, n / 0x100_0000;
    assert a / 0x100 == b && b / 0x100 == c && c / 0x100 == high;
    assert ToBigEndian(c, 5) == ToBigEndian(high, 4) + [c % 0x100];
    assert ToBigEndian(b, 6) == ToBigEndian(c, 5) + [b % 0x100];
    assert ToBigEndian(a, 7) == ToBigEndian(b, 6) + [a % 0x100];
  }

  /** The shortest head is the head of the standard, for every major type and argument. */
  lemma HeadForm(major: nat, n: u64)
    requires major < 8
    ensures Head(major, n) == H(major, n)
  {
    Pow256Values();
    if n < 24 {
    } else if n < 0x100 {
      assert ToBigEndian(n, 1) == ToBigEndian(0, 0) + [n];
    } else if n < 0x1_0000 {
      TwoBytes(n);
    } else if n < 0x1_0000_0000 {
      FourBytes(n);
    } else {
      EightBytes(n);
    }
  }

  /** Every item has its major type's number. */
  lemma ItemForms(n: u64, b: Blob, t: Text, key: PublicKey, sig: Signature, nonce: E.Nonce)
    ensures Uint(n) == U(n) && ByteString(b) == B(b) && TextString(t) == T(t)
    ensures NullableBytes(None) == [0xF6] && NullableText(None) == [0xF6]
    ensures NullableBytes(Some(b)) == B(b) && NullableText(Some(t)) == T(t)
    ensures ByteString(key) == [0x58, 0x20] + key && ByteString(sig) == [0x58, 0x40] + sig
    ensures ByteString(nonce) == [0x50] + nonce
  {
    HeadForm(0, n);
    HeadForm(2, |b|);
    HeadForm(3, |t|);
    HeadForm(2, 32);
    HeadForm(2, 64);
    HeadForm(2, 16);
  }

  lemma ArrayForm<X>(enc: X -> seq<byte>, xs: Arr<X>)
    ensures ArrayOf(enc, xs) == A(enc, xs)
  {
    HeadForm(4, |xs|);
  }

  lemma MapForm(es: Arr<MapEntry>)
    requires IsSortedByKey(es)
    ensures EncodeMap(es) == H(5, |es|) + EntryBytes(es)
  {
    HeadForm(5, |es|);
  }

  /** The first byte tells the type: its top three bits are the standard's number. */
  lemma FirstBytes<X>(n: u64, b: Blob, t: Text, enc: X -> seq<byte>, xs: Arr<X>, es: Arr<MapEntry>)
    requires IsSortedByKey(es)
    ensures n <= 23 ==> Uint(n) == [n]
    ensures Uint(n) != [] && Uint(n)[0] / 0x20 == 0
    ensures ByteString(b) != [] && ByteString(b)[0] / 0x20 == 2
    ensures TextString(t) != [] && TextString(t)[0] / 0x20 == 3
    ensures ArrayOf(enc, xs) != [] && ArrayOf(enc, xs)[0] / 0x20 == 4
    ensures EncodeMap(es) != [] && EncodeMap(es)[0] / 0x20 == 5
  {
    ItemForms(n, b, t, Zeros(32), Zeros(64), Zeros(16));
    ArrayForm(enc, xs);
    MapForm(es);
    HeadStarts(0, n);
    HeadStarts(2, |b|);
    HeadStarts(3, |t|);
    HeadStarts(4, |xs|);
    HeadStarts(5, |es|);
    hide H, Head, EncodeMap, ArrayOf, Uint, ByteString, TextString, IsUtf8;
  }

  lemma HeadStarts(major: nat, n: u64)
    requires major < 8
    ensures H(major, n) != [] && H(major, n)[0] / 0x20 == major
    ensures major == 0 && n <= 23 ==> H(major, n) == [n]
  {
  }

  /** A text of fewer than 24 bytes starts with 0x60 plus its length. */
  lemma KeyForm(t: Text)
    requires |t| < 24
    ensures TextString(t) == [0x60 + |t|] + t
  {
    HeadForm(3, |t|);
  }

  /** Keys and values, one pair after another. */
  function Pairs<F, R>(key: F -> seq<byte>, value: (R, F) -> seq<byte>, r: R, fs: seq<F>): seq<byte> {
    if fs == [] then [] else key(fs[0]) + value(r, fs[0]) + Pairs(key, value, r, fs[1..])
  }

  lemma {:induction false} PairsForm<F(!new), R(!new)>(
    c: Schema<F, R>, key: F -> seq<byte>, value: (R, F) -> seq<byte>, r: R, fs: seq<F>)
    requires forall f :: TextString(c.name(f)) == key(f) && c.value(r, f) == value(r, f)
    ensures EntryBytes(Entries(c, r, fs)) == Pairs(key, value, r, fs)
  {
    hide TextString;
    if fs != [] {
      PairsForm(c, key, value, r, fs[1..]);
      assert Entries(c, r, fs)[1..] == Entries(c, r, fs[1..]);
      assert TextString(c.name(fs[0])) == key(fs[0]);
    }
  }

  // ---------------------------------------------------------------------
  // The envelope
  // ---------------------------------------------------------------------

  function EnvelopeKey(f: E.Field): seq<byte> {
    match f
    case MessageTypeF => [0x61, 0x74]
    case VersionF => [0x61, 0x76]
    case ToF => [0x62, 0x74, 0x6F]
    case TimestampF => [0x62, 0x74, 0x73]
    case SigF => [0x63, 0x73, 0x69, 0x67]
    case FromF => [0x64, 0x66, 0x72, 0x6F, 0x6D]
    case NonceF => [0x65, 0x6E, 0x6F, 0x6E, 0x63, 0x65]
    case PayloadF => [0x67, 0x70, 0x61, 0x79, 0x6C, 0x6F, 0x61, 0x64]
  }

  function EnvelopeValue(e: E.Envelope, f: E.Field): seq<byte> {
    match f
    case MessageTypeF => U(e.messageType)
    case VersionF => U(e.version)
    case ToF => if e.to.None? then [0xF6] else [0x58, 0x20] + e.to.value
    case TimestampF => U(e.timestamp)
    case SigF => [0x58, 0x40] + e.sig
    case FromF => [0x58, 0x20] + e.from
    case NonceF => [0x50] + e.nonce
    case PayloadF => B(e.payload)
  }

  lemma EnvelopeKeyForm(f: E.Field)
    ensures TextString(E.Name(f)) == EnvelopeKey(f)
  {
    KeyForm(E.Name(f));
    hide TextString, IsUtf8;
  }

  lemma EnvelopeValueForm(e: E.Envelope, f: E.Field)
    ensures E.Value(e, f) == EnvelopeValue(e, f)
  {
    hide TextString, ByteString, Uint, NullableText, NullableBytes, U, B, T, N, A;
    match f
    case MessageTypeF => ItemForms(e.messageType, [], [], e.from, e.sig, e.nonce);
    case VersionF => ItemForms(e.version, [], [], e.from, e.sig, e.nonce);
    case ToF => ItemForms(0, [], [], if e.to.Some? then e.to.value else e.from, e.sig, e.nonce); AddresseeForm(e);
    case TimestampF => ItemForms(e.timestamp, [], [], e.from, e.sig, e.nonce);
    case PayloadF => ItemForms(0, e.payload, [], e.from, e.sig, e.nonce);
    case _ => ItemForms(0, [], [], e.from, e.sig, e.nonce);
  }

  lemma EnvelopeFieldForm(e: E.Envelope, f: E.Field)
    ensures TextString(E.Name(f)) == EnvelopeKey(f) && E.Value(e, f) == EnvelopeValue(e, f)
  {
    hide TextString, E.Name, E.Value, EnvelopeKey, EnvelopeValue;
    EnvelopeKeyForm(f);
    EnvelopeValueForm(e, f);
  }

  lemma AddresseeForm(e: E.Envelope)
    ensures NullableBytes(E.AsBlob(e.to)) == if e.to.None? then [0xF6] else ByteString(e.to.value)
  {
    hide ByteString;
  }

  /** The envelope as eight pairs in key order. */
  function EnvelopeForm(e: E.Envelope): seq<byte> {
    [0xA8] + Pairs(EnvelopeKey, EnvelopeValue, e,
      [E.Field.MessageTypeF, E.Field.VersionF, E.Field.ToF, E.Field.TimestampF, E.Field.SigF, E.Field.FromF,
       E.Field.NonceF, E.Field.PayloadF])
  }

  lemma EnvelopeBytes(e: E.Envelope)
    ensures E.ToWireBytes(e) == EnvelopeForm(e)
  {
    hide TextString, EnvelopeKey, EnvelopeValue, Pairs;
    E.KeyOrder();
    EntriesSorted(E.SCHEMA, e, E.WIRE);
    forall f ensures TextString(E.SCHEMA.name(f)) == EnvelopeKey(f) && E.SCHEMA.value(e, f) == EnvelopeValue(e, f) {
      EnvelopeFieldForm(e, f);
    }
    PairsForm(E.SCHEMA, EnvelopeKey, EnvelopeValue, e, E.WIRE);
    MapForm(Entries(E.SCHEMA, e, E.WIRE));
  }

  /** So every envelope starts with a map of eight pairs and the key "t", and its message type. */
  lemma EnvelopeStarts(e: E.Envelope)
    ensures |E.ToWireBytes(e)| > 4 && E.ToWireBytes(e)[..3] == [0xA8, 0x61, 0x74]
    ensures e.messageType <= 23 ==> E.ToWireBytes(e)[3] == e.messageType
    ensures e.messageType > 23 ==> E.ToWireBytes(e)[3] == 0x18 && E.ToWireBytes(e)[4] == e.messageType
  {
    EnvelopeBytes(e);
    hide E.ToWireBytes, B;
    var rest := [E.Field.VersionF, E.Field.ToF, E.Field.TimestampF, E.Field.SigF, E.Field.FromF, E.Field.NonceF,
                 E.Field.PayloadF];
    var all := [E.Field.MessageTypeF] + rest;
    assert all[1..] == rest && rest[0] == E.Field.VersionF;
    assert Pairs(EnvelopeKey, EnvelopeValue, e, all)
        == [0x61, 0x74] + U(e.messageType) + Pairs(EnvelopeKey, EnvelopeValue, e, rest);
    assert Pairs(EnvelopeKey, EnvelopeValue, e, rest)
        == [0x61, 0x76] + U(e.version) + Pairs(EnvelopeKey, EnvelopeValue, e, rest[1..]);
  }

  /** A handshake's transcript is its two wire forms, the hello first. */
  lemma TranscriptBytes(hello: E.Envelope, helloback: E.Envelope)
    ensures E.Transcript(hello, helloback) == EnvelopeForm(hello) + EnvelopeForm(helloback)
  {
    hide EnvelopeForm;
    EnvelopeBytes(hello);
    EnvelopeBytes(helloback);
  }

  /** What is hashed and signed: the seven pairs without the signature. */
  function UnsignedEnvelopeForm(e: E.Envelope): seq<byte> {
    [0xA7] + Pairs(EnvelopeKey, EnvelopeValue, e,
      [E.Field.MessageTypeF, E.Field.VersionF, E.Field.ToF, E.Field.TimestampF, E.Field.FromF,
       E.Field.NonceF, E.Field.PayloadF])
  }

  lemma UnsignedEnvelopeBytes(e: E.Envelope)
    ensures E.EncodeUnsigned(e) == UnsignedEnvelopeForm(e)
  {
    hide TextString, EnvelopeKey, EnvelopeValue, Pairs;
    E.KeyOrder();
    EntriesSorted(E.SCHEMA, e, E.UNSIGNED);
    forall f ensures TextString(E.SCHEMA.name(f)) == EnvelopeKey(f) && E.SCHEMA.value(e, f) == EnvelopeValue(e, f) {
      EnvelopeFieldForm(e, f);
    }
    PairsForm(E.SCHEMA, EnvelopeKey, EnvelopeValue, e, E.UNSIGNED);
    MapForm(Entries(E.SCHEMA, e, E.UNSIGNED));
  }

  // ---------------------------------------------------------------------
  // The contract
  // ---------------------------------------------------------------------

  function SpecKey(f: V.SpecField): seq<byte> {
    match f
    case KindS => [0x64, 0x6B, 0x69, 0x6E, 0x64]
    case LabelS => [0x65, 0x6C, 0x61, 0x62, 0x65, 0x6C]
    case ValidatorS => [0x69, 0x76, 0x61, 0x6C, 0x69, 0x64, 0x61, 0x74, 0x6F, 0x72]
    case DescriptionS => [0x6B, 0x64, 0x65, 0x73, 0x63, 0x72, 0x69, 0x70, 0x74, 0x69, 0x6F, 0x6E]
  }

  function SpecValue(x: FieldSpec, f: V.SpecField): seq<byte> {
    match f
    case KindS => T(x.kind)
    case LabelS => T(x.caption)
    case ValidatorS => N(x.validator)
    case DescriptionS => N(x.description)
  }

  lemma SpecKeyForm(f: V.SpecField)
    ensures TextString(V.SpecName(f)) == SpecKey(f)
  {
    KeyForm(V.SpecName(f));
    hide TextString, IsUtf8;
  }

  lemma SpecValueForm(x: FieldSpec, f: V.SpecField)
    ensures V.SpecValue(x, f) == SpecValue(x, f)
  {
    hide TextString, ByteString, Uint, NullableText, NullableBytes, U, B, T, A;
    match f
    case KindS => ItemForms(0, [], x.kind, Zeros(32), Zeros(64), Zeros(16));
    case LabelS => ItemForms(0, [], x.caption, Zeros(32), Zeros(64), Zeros(16));
    case ValidatorS => ItemForms(0, [], if x.validator.Some? then x.validator.value else [], Zeros(32), Zeros(64), Zeros(16));
    case DescriptionS => ItemForms(0, [], if x.description.Some? then x.description.value else [], Zeros(32), Zeros(64), Zeros(16));
  }

  lemma SpecFieldForm(x: FieldSpec, f: V.SpecField)
    ensures TextString(V.SpecName(f)) == SpecKey(f) && V.SpecValue(x, f) == SpecValue(x, f)
  {
    hide TextString, V.SpecName, V.SpecValue, SpecKey, SpecValue;
    SpecKeyForm(f);
    SpecValueForm(x, f);
  }

  /** A field spec as four pairs. */
  function SpecForm(x: FieldSpec): seq<byte> {
    [0xA4] + Pairs(SpecKey, SpecValue, x,
      [V.SpecField.KindS, V.SpecField.LabelS, V.SpecField.ValidatorS, V.SpecField.DescriptionS])
  }

  lemma SpecBytes(x: FieldSpec)
    ensures V.EncodeSpec(x) == SpecForm(x)
  {
    hide TextString, SpecKey, SpecValue, Pairs;
    V.SpecKeyOrder();
    EntriesSorted(V.SPEC_SCHEMA, x, V.SPEC);
    forall f ensures TextString(V.SPEC_SCHEMA.name(f)) == SpecKey(f) && V.SPEC_SCHEMA.value(x, f) == SpecValue(x, f) {
      SpecFieldForm(x, f);
    }
    PairsForm(V.SPEC_SCHEMA, SpecKey, SpecValue, x, V.SPEC);
    MapForm(Entries(V.SPEC_SCHEMA, x, V.SPEC));
  }

  function PolicyKey(f: V.PolicyField): seq<byte> {
    match f
    case KindP => [0x64, 0x6B, 0x69, 0x6E, 0x64]
    case ParamsP => [0x66, 0x70, 0x61, 0x72, 0x61, 0x6D, 0x73]
  }

  function PolicyValue(p: PolicyClause, f: V.PolicyField): seq<byte> {
    match f
    case KindP => T(p.kind)
    case ParamsP => V.EncodeParams(p.params)
  }

  lemma PolicyKeyForm(f: V.PolicyField)
    ensures TextString(V.PolicyName(f)) == PolicyKey(f)
  {
    KeyForm(V.PolicyName(f));
    hide TextString, IsUtf8;
  }

  lemma PolicyValueForm(p: PolicyClause, f: V.PolicyField)
    ensures V.PolicyValue(p, f) == PolicyValue(p, f)
  {
    hide TextString, ByteString, Uint, NullableText, NullableBytes, U, B, T, N, A, V.EncodeParams;
    ItemForms(0, [], p.kind, Zeros(32), Zeros(64), Zeros(16));
  }

  lemma PolicyFieldForm(p: PolicyClause, f: V.PolicyField)
    ensures TextString(V.PolicyName(f)) == PolicyKey(f) && V.PolicyValue(p, f) == PolicyValue(p, f)
  {
    hide TextString, V.PolicyName, V.PolicyValue, PolicyKey, PolicyValue;
    PolicyKeyForm(f);
    PolicyValueForm(p, f);
  }

  /** A policy clause as two pairs. */
  function PolicyForm(p: PolicyClause): seq<byte> {
    [0xA2] + Pairs(PolicyKey, PolicyValue, p,
      [V.PolicyField.KindP, V.PolicyField.ParamsP])
  }

  lemma PolicyBytes(p: PolicyClause)
    ensures V.EncodePolicy(p) == PolicyForm(p)
  {
    hide TextString, PolicyKey, PolicyValue, Pairs;
    V.PolicyKeyOrder(MAX_CBOR_ENTRIES);
    EntriesSorted(V.PolicySchema(MAX_CBOR_ENTRIES), p, V.POLICY);
    forall f ensures TextString(V.PolicySchema(MAX_CBOR_ENTRIES).name(f)) == PolicyKey(f) && V.PolicySchema(MAX_CBOR_ENTRIES).value(p, f) == PolicyValue(p, f) {
      PolicyFieldForm(p, f);
    }
    PairsForm(V.PolicySchema(MAX_CBOR_ENTRIES), PolicyKey, PolicyValue, p, V.POLICY);
    MapForm(Entries(V.PolicySchema(MAX_CBOR_ENTRIES), p, V.POLICY));
  }

  /** The parameters as pairs of texts in key order. */
  lemma ParamsBytes(m: Params)
    ensures V.EncodeParams(m) == H(5, |m|) + EntryBytes(V.PairEntries(V.SortedPairs(m)))
  {
    V.SortedPairsLaws(m);
    V.PairEntriesSorted(V.SortedPairs(m));
    MapForm(V.PairEntries(V.SortedPairs(m)));
  }

  function ContractKey(f: V.Field): seq<byte> {
    match f
    case TitleF => [0x65, 0x74, 0x69, 0x74, 0x6C, 0x65]
    case VerseF => [0x65, 0x76, 0x65, 0x72, 0x73, 0x65]
    case ScopedF => [0x66, 0x73, 0x63, 0x6F, 0x70, 0x65, 0x64]
    case VersionF => [0x67, 0x76, 0x65, 0x72, 0x73, 0x69, 0x6F, 0x6E]
    case OptionalF => [0x68, 0x6F, 0x70, 0x74, 0x69, 0x6F, 0x6E, 0x61, 0x6C]
    case PoliciesF => [0x68, 0x70, 0x6F, 0x6C, 0x69, 0x63, 0x69, 0x65, 0x73]
    case RequiredF => [0x68, 0x72, 0x65, 0x71, 0x75, 0x69, 0x72, 0x65, 0x64]
    case ForbiddenF => [0x69, 0x66, 0x6F, 0x72, 0x62, 0x69, 0x64, 0x64, 0x65, 0x6E]
    case IssuedAtF => [0x69, 0x69, 0x73, 0x73, 0x75, 0x65, 0x64, 0x5F, 0x61, 0x74]
    case SignatureF => [0x69, 0x73, 0x69, 0x67, 0x6E, 0x61, 0x74, 0x75, 0x72, 0x65]
    case ModeratorsF => [0x6A, 0x6D, 0x6F, 0x64, 0x65, 0x72, 0x61, 0x74, 0x6F, 0x72, 0x73]
    case DescriptionF => [0x6B, 0x64, 0x65, 0x73, 0x63, 0x72, 0x69, 0x70, 0x74, 0x69, 0x6F, 0x6E]
  }

  function ContractValue(c: Contract, f: V.Field): seq<byte> {
    match f
    case TitleF => T(c.title)
    case VerseF => [0x58, 0x20] + c.verse
    case ScopedF => A(TextString, c.scoped)
    case VersionF => U(c.version)
    case OptionalF => A(V.EncodeSpec, c.optional)
    case PoliciesF => A(V.EncodePolicy, c.policies)
    case RequiredF => A(V.EncodeSpec, c.required)
    case ForbiddenF => A(TextString, c.forbidden)
    case IssuedAtF => U(c.issuedAt)
    case SignatureF => [0x58, 0x40] + c.signature
    case ModeratorsF => A(V.EncodeKey, c.moderators)
    case DescriptionF => T(c.description)
  }

  /** A key name and its bytes. */
  lemma NameForm(t: Text, key: seq<byte>)
    requires |t| < 24 && |key| == |t| + 1 && key[0] == 0x60 + |t| && key[1..] == t
    ensures TextString(t) == key
  {
    hide TextString, IsUtf8;
    KeyForm(t);
    assert key == [key[0]] + key[1..];
  }

  lemma ShortNames(f: V.Field)
    requires f.TitleF? || f.VerseF? || f.ScopedF? || f.VersionF? || f.OptionalF? || f.PoliciesF?
    ensures V.Name(f) == ContractKey(f)[1..] && ContractKey(f)[0] == 0x60 + |V.Name(f)|
  {
    hide IsUtf8;
  }

  lemma LongNames(f: V.Field)
    requires f.RequiredF? || f.ForbiddenF? || f.IssuedAtF? || f.SignatureF? || f.ModeratorsF? || f.DescriptionF?
    ensures V.Name(f) == ContractKey(f)[1..] && ContractKey(f)[0] == 0x60 + |V.Name(f)|
  {
    hide IsUtf8;
  }

  lemma ContractKeyForm(f: V.Field)
    ensures TextString(V.Name(f)) == ContractKey(f)
  {
    assert |ContractKey(f)| <= 12;
    if f.TitleF? || f.VerseF? || f.ScopedF? || f.VersionF? || f.OptionalF? || f.PoliciesF? {
      ShortNames(f);
    } else {
      LongNames(f);
    }
    hide V.Name, ContractKey, IsUtf8, TextString;
    NameForm(V.Name(f), ContractKey(f));
  }

  lemma ContractValueForm(c: Contract, f: V.Field)
    ensures V.Value(c, f) == ContractValue(c, f)
  {
    hide TextString, ByteString, Uint, NullableText, NullableBytes, U, B, T, N, A, V.EncodeSpec, V.EncodePolicy, V.EncodeKey, ArrayOf;
    match f
    case TitleF => ItemForms(0, [], c.title, Zeros(32), Zeros(64), Zeros(16));
    case DescriptionF => ItemForms(0, [], c.description, Zeros(32), Zeros(64), Zeros(16));
    case VerseF => ItemForms(0, [], [], c.verse, Zeros(64), Zeros(16));
    case SignatureF => ItemForms(0, [], [], Zeros(32), c.signature, Zeros(16));
    case VersionF => ItemForms(c.version, [], [], Zeros(32), Zeros(64), Zeros(16));
    case IssuedAtF => ItemForms(c.issuedAt, [], [], Zeros(32), Zeros(64), Zeros(16));
    case ScopedF => ArrayForm(TextString, c.scoped);
    case ForbiddenF => ArrayForm(TextString, c.forbidden);
    case OptionalF => ArrayForm(V.EncodeSpec, c.optional);
    case RequiredF => ArrayForm(V.EncodeSpec, c.required);
    case PoliciesF => ArrayForm(V.EncodePolicy, c.policies);
    case ModeratorsF => ArrayForm(V.EncodeKey, c.moderators);
  }

  lemma ContractFieldForm(c: Contract, f: V.Field)
    ensures TextString(V.Name(f)) == ContractKey(f) && V.Value(c, f) == ContractValue(c, f)
  {
    hide TextString, V.Name, V.Value, ContractKey, ContractValue;
    ContractKeyForm(f);
    ContractValueForm(c, f);
  }

  /** The contract as twelve pairs in key order. */
  function ContractForm(c: Contract): seq<byte> {
    [0xAC] + Pairs(ContractKey, ContractValue, c,
      [V.Field.TitleF, V.Field.VerseF, V.Field.ScopedF, V.Field.VersionF, V.Field.OptionalF,
       V.Field.PoliciesF, V.Field.RequiredF, V.Field.ForbiddenF, V.Field.IssuedAtF, V.Field.SignatureF,
       V.Field.ModeratorsF, V.Field.DescriptionF])
  }

  lemma ContractBytes(c: Contract)
    ensures V.ToWireBytes(c) == ContractForm(c)
  {
    hide TextString, ContractKey, ContractValue, Pairs;
    V.KeyOrder(MAX_CBOR_ENTRIES);
    EntriesSorted(V.ContractSchema(MAX_CBOR_ENTRIES), c, V.WIRE);
    forall f ensures TextString(V.ContractSchema(MAX_CBOR_ENTRIES).name(f)) == ContractKey(f) && V.ContractSchema(MAX_CBOR_ENTRIES).value(c, f) == ContractValue(c, f) {
      ContractFieldForm(c, f);
    }
    PairsForm(V.ContractSchema(MAX_CBOR_ENTRIES), ContractKey, ContractValue, c, V.WIRE);
    MapForm(Entries(V.ContractSchema(MAX_CBOR_ENTRIES), c, V.WIRE));
  }

  /** A contract's address is the hash of its whole wire form. */
  lemma AddressForm(cr: Crypto, c: Contract)
    ensures V.ContractHash(cr, c) == cr.hash(ContractForm(c))
  {
    hide ContractForm, V.ToWireBytes;
    ContractBytes(c);
  }

  /** What is hashed and signed: the eleven pairs without the signature. */
  function UnsignedContractForm(c: Contract): seq<byte> {
    [0xAB] + Pairs(ContractKey, ContractValue, c,
      [V.Field.TitleF, V.Field.VerseF, V.Field.ScopedF, V.Field.VersionF, V.Field.OptionalF,
       V.Field.PoliciesF, V.Field.RequiredF, V.Field.ForbiddenF, V.Field.IssuedAtF, V.Field.ModeratorsF,
       V.Field.DescriptionF])
  }

  lemma UnsignedContractBytes(c: Contract)
    ensures V.EncodeUnsigned(c) == UnsignedContractForm(c)
  {
    hide TextString, ContractKey, ContractValue, Pairs;
    V.KeyOrder(MAX_CBOR_ENTRIES);
    EntriesSorted(V.ContractSchema(MAX_CBOR_ENTRIES), c, V.UNSIGNED);
    forall f ensures TextString(V.ContractSchema(MAX_CBOR_ENTRIES).name(f)) == ContractKey(f) && V.ContractSchema(MAX_CBOR_ENTRIES).value(c, f) == ContractValue(c, f) {
      ContractFieldForm(c, f);
    }
    PairsForm(V.ContractSchema(MAX_CBOR_ENTRIES), ContractKey, ContractValue, c, V.UNSIGNED);
    MapForm(Entries(V.ContractSchema(MAX_CBOR_ENTRIES), c, V.UNSIGNED));
  }

  // ---------------------------------------------------------------------
  // What the decoders answer
  // ---------------------------------------------------------------------

  /** An envelope is accepted exactly on its wire form, at version 1, under a valid key whose
      signature covers the hash of the seven pairs. */
  lemma EnvelopeAccepted(cr: Crypto, bytes: seq<byte>, e: E.Envelope)
    ensures E.FromWireBytes(cr, bytes) == Ok(e) <==>
            && bytes == EnvelopeForm(e) && e.version == 1
            && cr.validKey(e.from) && cr.verify(e.from, cr.hash(UnsignedEnvelopeForm(e)), e.sig)
  {
    hide E.FromWireBytes, E.ToWireBytes, E.EncodeUnsigned, EnvelopeForm, UnsignedEnvelopeForm;
    E.DecodesExactly(cr, bytes, e);
    EnvelopeBytes(e);
    UnsignedEnvelopeBytes(e);
  }

  /** Once the fields read, the first of four tests that fails names the error. */
  lemma EnvelopeVerdict(cr: Crypto, bytes: seq<byte>)
    requires E.ReadEnvelope(bytes).Ok?
    ensures var (e, rest) := E.ReadEnvelope(bytes).value;
            E.FromWireBytes(cr, bytes)
            == if rest != [] then Err(CborDecode)
               else if e.version != 1 then Err(UnsupportedVersion)
               else if !cr.validKey(e.from) then Err(BadPublicKey)
               else if !cr.verify(e.from, cr.hash(UnsignedEnvelopeForm(e)), e.sig) then Err(BadSignature)
               else Ok(e)
  {
    hide E.ReadEnvelope, E.ToWireBytes, E.EncodeUnsigned, UnsignedEnvelopeForm;
    E.ReencodeCheckIsRedundant(cr, bytes);
    UnsignedEnvelopeBytes(E.ReadEnvelope(bytes).value.0);
  }

  /** The limit on entries is 2 to the 20, for every array and every parameter map. */
  predicate WithinLimit(c: Contract) {
    && |c.required| <= 1_048_576 && |c.optional| <= 1_048_576 && |c.forbidden| <= 1_048_576
    && |c.scoped| <= 1_048_576 && |c.policies| <= 1_048_576 && |c.moderators| <= 1_048_576
    && forall p :: p in c.policies ==> |p.params| <= 1_048_576
  }

  /** A contract is accepted exactly on its wire form, within the limit, under a valid verse key
      whose signature covers the hash of the eleven pairs. */
  lemma ContractAccepted(cr: Crypto, bytes: seq<byte>, c: Contract)
    ensures V.FromWireBytes(cr, bytes) == Ok(c) <==>
            && bytes == ContractForm(c) && WithinLimit(c)
            && cr.validKey(c.verse) && cr.verify(c.verse, cr.hash(UnsignedContractForm(c)), c.signature)
  {
    hide V.FromWireBytes, V.ToWireBytes, V.EncodeUnsigned, ContractForm, UnsignedContractForm;
    V.DecodesExactly(cr, bytes, c);
    ContractBytes(c);
    UnsignedContractBytes(c);
  }

  /** Once the fields read, the key, the signature and what is left are tested in that order. */
  lemma ContractVerdict(cr: Crypto, bytes: seq<byte>)
    requires V.ReadContract(MAX_CBOR_ENTRIES, bytes).Ok?
    ensures var (c, rest) := V.ReadContract(MAX_CBOR_ENTRIES, bytes).value;
            V.FromWireBytes(cr, bytes)
            == if !cr.validKey(c.verse) then Err(BadPublicKey)
               else if !cr.verify(c.verse, cr.hash(UnsignedContractForm(c)), c.signature) then Err(BadSignature)
               else if rest != [] then Err(CborNotCanonical)
               else Ok(c)
  {
    hide V.ReadContract, V.ToWireBytes, V.EncodeUnsigned, UnsignedContractForm;
    var (c, rest) := V.ReadContract(MAX_CBOR_ENTRIES, bytes).value;
    UnsignedContractBytes(c);
    V.ContractCanonical(MAX_CBOR_ENTRIES, bytes);
    assert |V.ToWireBytes(c) + rest| == |V.ToWireBytes(c)| + |rest|;
  }

  /** A head is refused when it breaks off, is reserved, has an indefinite length, or is longer
      than its argument needs. */
  lemma HeadRefusals(s: seq<byte>)
    ensures s == [] ==> ReadHead(s) == Err(CborDecode)
    ensures s != [] && 28 <= s[0] % 32 <= 30 ==> ReadHead(s) == Err(CborDecode)
    ensures s != [] && s[0] % 32 == 31 ==> ReadHead(s) == Err(CborNotCanonical)
    ensures s != [] && s[0] % 32 == 24 ==>
              (|s| < 2 ==> ReadHead(s) == Err(CborDecode))
              && (|s| >= 2 && s[1] < 24 ==> ReadHead(s) == Err(CborNotCanonical))
    ensures s != [] && s[0] % 32 == 25 ==>
              (|s| < 3 ==> ReadHead(s) == Err(CborDecode))
              && (|s| >= 3 && s[1] == 0 ==> ReadHead(s) == Err(CborNotCanonical))
    ensures s != [] && s[0] % 32 == 26 ==>
              (|s| < 5 ==> ReadHead(s) == Err(CborDecode))
              && (|s| >= 5 && s[1] == s[2] == 0 ==> ReadHead(s) == Err(CborNotCanonical))
    ensures s != [] && s[0] % 32 == 27 ==>
              (|s| < 9 ==> ReadHead(s) == Err(CborDecode))
              && (|s| >= 9 && s[1] == s[2] == s[3] == s[4] == 0 ==> ReadHead(s) == Err(CborNotCanonical))
  {
    if s != [] && s[0] % 32 == 24 && |s| >= 2 {
      LeadingZeros(s[1..][..1], 0);
    } else if s != [] && s[0] % 32 == 25 && |s| >= 3 && s[1] == 0 {
      LeadingZeros(s[1..][..2], 1);
    } else if s != [] && s[0] % 32 == 26 && |s| >= 5 && s[1] == s[2] == 0 {
      LeadingZeros(s[1..][..4], 2);
    } else if s != [] && s[0] % 32 == 27 && |s| >= 9 && s[1] == s[2] == s[3] == s[4] == 0 {
      LeadingZeros(s[1..][..8], 4);
    }
    Pow256Values();
  }

  /** Leading zeros leave the number to the bytes after them. */
  lemma {:induction false} LeadingZeros(s: seq<byte>, n: nat)
    requires n <= |s| && forall i :: 0 <= i < n ==> s[i] == 0
    ensures FromBigEndian(s) == FromBigEndian(s[n..]) && (|s| == 1 ==> FromBigEndian(s) == s[0])
  {
    if |s| > n {
      LeadingZeros(s[..|s| - 1], n);
      assert s[n..][..|s[n..]| - 1] == s[..|s| - 1][n..];
      assert |s| == 1 ==> s[..0] == [];
    } else {
      ZerosAreNothing(s);
    }
  }

  lemma {:induction false} ZerosAreNothing(s: seq<byte>)
    requires forall i :: 0 <= i < |s| ==> s[i] == 0
    ensures FromBigEndian(s) == 0
  {
    if s != [] {
      ZerosAreNothing(s[..|s| - 1]);
    }
  }

  /** Another major type, content that breaks off, text that is not UTF-8, and a count over the
      limit are all the same decoding error. */
  lemma ItemRefusals(major: nat, n: u64, t: seq<byte>)
    requires major < 8
    ensures major != 0 ==> ReadU64(H(major, n) + t) == Err(CborDecode)
    ensures major != 2 || n > |t| ==> ReadBytes(H(major, n) + t) == Err(CborDecode)
    ensures major != 3 || n > |t| ==> ReadText(H(major, n) + t) == Err(CborDecode)
    ensures major == 3 && n <= |t| && !IsUtf8(t[..n]) ==> ReadText(H(major, n) + t) == Err(CborDecode)
    ensures forall want | want in {4, 5} && (major != want || n > 1_048_576) ::
              ReadCount(want, MAX_CBOR_ENTRIES, H(major, n) + t) == Err(CborDecode)
  {
    hide Head, ReadHead, H, IsUtf8;
    HeadForm(major, n);
    HeadRoundTrip(major, n, t);
  }

  /** A byte string of another length than the field's is its own error. */
  lemma LengthRefusals(b: Blob, t: seq<byte>, e: E.Envelope, c: Contract)
    ensures |b| != 64 ==> E.ReadField(E.SigF, e, B(b) + t) == Err(BadFieldLength)
    ensures |b| != 32 ==> E.ReadField(E.FromF, e, B(b) + t) == Err(BadFieldLength)
    ensures |b| != 32 ==> E.ReadField(E.ToF, e, B(b) + t) == Err(BadFieldLength)
    ensures |b| != 16 ==> E.ReadField(E.NonceF, e, B(b) + t) == Err(BadFieldLength)
    ensures |b| != 64 ==> V.ReadField(MAX_CBOR_ENTRIES, V.SignatureF, c, B(b) + t) == Err(BadFieldLength)
    ensures |b| != 32 ==> V.ReadField(MAX_CBOR_ENTRIES, V.VerseF, c, B(b) + t) == Err(BadFieldLength)
    ensures |b| != 32 ==> V.ReadKey(B(b) + t) == Err(BadFieldLength)
  {
    HeadForm(2, |b|);
    hide Head, ReadHead, H, ReadBytes;
    assert ByteString(b) == B(b);
    BytesRoundTrip(b, t);
    NullableBytesRoundTrip(Some(b), t);
  }

  /** Any unsigned integer over a byte is no message type. */
  lemma MessageTypeRefusal(n: u64, t: seq<byte>, e: E.Envelope)
    ensures n > 255 ==> E.ReadField(E.MessageTypeF, e, U(n) + t) == Err(CborDecode)
    ensures n <= 255 ==> E.ReadField(E.MessageTypeF, e, U(n) + t) == Ok((e.(messageType := n), t))
  {
    HeadForm(0, n);
    hide Head, ReadHead, H;
    UintRoundTrip(n, t);
  }

  /** A record with another number of keys is a decoding error; a key out of its place, missing or
      unknown is not canonical. */
  lemma KeyRefusals<F(!new), R(!new)>(c: Schema<F, R>, fs: seq<F>, blank: R, n: u64, k: Text, t: seq<byte>)
    requires fs != [] && |fs| <= 1_048_576
    ensures n != |fs| ==> ReadRecord(c, fs, blank, H(5, n) + t) == Err(CborDecode)
    ensures n == |fs| && k != c.name(fs[0]) ==>
              ReadRecord(c, fs, blank, H(5, n) + (T(k) + t)) == Err(CborNotCanonical)
    ensures k != c.name(fs[0]) ==> ReadFields(c, fs, blank, T(k) + t) == Err(CborNotCanonical)
  {
    HeadForm(3, |k|);
    HeadForm(5, n);
    hide Head, ReadHead, H, ReadText;
    assert TextString(k) == T(k);
    TextRoundTrip(k, t);
    CountRoundTrip(5, MAX_CBOR_ENTRIES, n, t);
    CountRoundTrip(5, MAX_CBOR_ENTRIES, n, T(k) + t);
  }

  /** A parameter key not above the one before it is not canonical. */
  lemma ParamRefusal(last: Text, k: Text, t: seq<byte>, n: nat)
    requires n > 0 && !Below(T(last), T(k))
    ensures V.ReadPairs(n, Some(T(last)), T(k) + t) == Err(CborNotCanonical)
  {
    HeadForm(3, |k|);
    hide Head, ReadHead, H, ReadText, Below;
    assert TextString(k) == T(k);
    TextRoundTrip(k, t);
    V.KeyBytes(T(k) + t);
  }
}
