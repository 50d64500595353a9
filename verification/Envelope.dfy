/** The signed envelope (crates/sidevers-core/src/envelope.rs) and the handshake transcript
    built from two of them (crates/sidevers-net/src/handshake.rs). */
module Envelopes {
  import opened Wrappers
  import opened Bytes
  import opened Keys
  import opened Cbor
  import opened Records

  const PROTOCOL_VERSION: u64 := 1
  const NONCE_LEN := 16

  type Nonce = s: seq<byte> | |s| == 16 witness Zeros(16)

  datatype Envelope = Envelope(
    version: u64,
    messageType: byte,
    from: PublicKey,
    to: Option<PublicKey>,
    timestamp: u64,
    nonce: Nonce,
    payload: Blob,
    sig: Signature)

  /** The record a decoder starts from; every field is overwritten before it is used. */
  const BLANK := Envelope(0, 0, Zeros(32), None, 0, Zeros(16), [], Zeros(64))

  // ---------------------------------------------------------------------
  // Fields
  // ---------------------------------------------------------------------

  datatype Field = MessageTypeF | VersionF | ToF | TimestampF | SigF | FromF | NonceF | PayloadF

  const WIRE: seq<Field> := [MessageTypeF, VersionF, ToF, TimestampF, SigF, FromF, NonceF, PayloadF]
  const UNSIGNED: seq<Field> := [MessageTypeF, VersionF, ToF, TimestampF, FromF, NonceF, PayloadF]

  function Name(f: Field): Text {
    match f
    case MessageTypeF => Ascii("t")
    case VersionF => Ascii("v")
    case ToF => Ascii("to")
    case TimestampF => Ascii("ts")
    case SigF => Ascii("sig")
    case FromF => Ascii("from")
    case NonceF => Ascii("nonce")
    case PayloadF => Ascii("payload")
  }

  function AsBlob(k: Option<PublicKey>): Option<Blob> {
    if k.None? then None else Some(k.value)
  }

  function Value(e: Envelope, f: Field): seq<byte> {
    match f
    case MessageTypeF => Uint(e.messageType)
    case VersionF => Uint(e.version)
    case ToF => NullableBytes(AsBlob(e.to))
    case TimestampF => Uint(e.timestamp)
    case SigF => ByteString(e.sig)
    case FromF => ByteString(e.from)
    case NonceF => ByteString(e.nonce)
    case PayloadF => ByteString(e.payload)
  }

  function ReadField(f: Field, e: Envelope, s: seq<byte>): Result<(Envelope, seq<byte>)> {
    match f
    case MessageTypeF =>
      var (n, t) :- ReadU64(s);
      if n > 0xFF then Err(CborDecode) else Ok((e.(messageType := n), t))
    case VersionF => var (n, t) :- ReadU64(s); Ok((e.(version := n), t))
    case ToF =>
      var (b, t) :- ReadBytesOrNull(s);
      if b.None? then Ok((e.(to := None), t))
      else if |b.value| != PUBLIC_KEY_LEN then Err(BadFieldLength)
      else Ok((e.(to := Some(b.value)), t))
    case TimestampF => var (n, t) :- ReadU64(s); Ok((e.(timestamp := n), t))
    case SigF => var (b, t) :- ReadFixed(SIGNATURE_LEN, s); Ok((e.(sig := b), t))
    case FromF => var (b, t) :- ReadFixed(PUBLIC_KEY_LEN, s); Ok((e.(from := b), t))
    case NonceF => var (b, t) :- ReadFixed(NONCE_LEN, s); Ok((e.(nonce := b), t))
    case PayloadF => var (b, t) :- ReadBytes(s); Ok((e.(payload := b), t))
  }

  predicate Same(f: Field, a: Envelope, b: Envelope) {
    match f
    case MessageTypeF => a.messageType == b.messageType
    case VersionF => a.version == b.version
    case ToF => a.to == b.to
    case TimestampF => a.timestamp == b.timestamp
    case SigF => a.sig == b.sig
    case FromF => a.from == b.from
    case NonceF => a.nonce == b.nonce
    case PayloadF => a.payload == b.payload
  }

  /** Every envelope can be written and read back. */
  predicate Anything(e: Envelope) {
    true
  }

  const SCHEMA: Schema<Field, Envelope> := Schema(Name, Value, ReadField, Same)

  lemma FieldRoundTrip(f: Field, e: Envelope, v: Envelope, t: seq<byte>)
    ensures Stores(SCHEMA, f, e, v, t, ReadField(f, e, Value(v, f) + t))
  {
    hide Head, ReadHead;
    match f
    case MessageTypeF => UintRoundTrip(v.messageType, t);
    case VersionF => UintRoundTrip(v.version, t);
    case ToF => NullableBytesRoundTrip(AsBlob(v.to), t);
    case TimestampF => UintRoundTrip(v.timestamp, t);
    case SigF => BytesRoundTrip(v.sig, t);
    case FromF => BytesRoundTrip(v.from, t);
    case NonceF => BytesRoundTrip(v.nonce, t);
    case PayloadF => BytesRoundTrip(v.payload, t);
  }

  lemma FieldCanonical(f: Field, e: Envelope, s: seq<byte>)
    ensures Consumes(SCHEMA, f, e, s, ReadField(f, e, s))
  {
    hide Head, ReadHead;
    if ReadField(f, e, s).Ok? {
      match f
      case MessageTypeF => UintCanonical(s);
      case VersionF => UintCanonical(s);
      case ToF => NullableBytesCanonical(s);
      case TimestampF => UintCanonical(s);
      case SigF => BytesCanonical(s);
      case FromF => BytesCanonical(s);
      case NonceF => BytesCanonical(s);
      case PayloadF => BytesCanonical(s);
    }
  }

  predicate Follows(f: Field, g: Field) {
    KeyPrecedes(Name(f), Name(g))
  }

  lemma NameOrder()
    ensures Follows(MessageTypeF, VersionF) && Follows(VersionF, ToF) && Follows(ToF, TimestampF)
    ensures Follows(TimestampF, SigF) && Follows(SigF, FromF) && Follows(TimestampF, FromF)
    ensures Follows(FromF, NonceF) && Follows(NonceF, PayloadF)
  {
    hide IsUtf8;
    assert Below(Name(ToF)[1..], Name(TimestampF)[1..]);
  }

  /** The key orders written out in the source are canonical. */
  lemma KeyOrder()
    ensures KeysAscend(SCHEMA, WIRE) && KeysAscend(SCHEMA, UNSIGNED)
  {
    hide Name, Value, ReadField, IsUtf8, KeyPrecedes;
    NameOrder();
    forall i | 0 < i < |WIRE| ensures KeyPrecedes(Name(WIRE[i - 1]), Name(WIRE[i])) {
      assert Follows(WIRE[i - 1], WIRE[i]);
    }
    forall i | 0 < i < |UNSIGNED| ensures KeyPrecedes(Name(UNSIGNED[i - 1]), Name(UNSIGNED[i])) {
      assert Follows(UNSIGNED[i - 1], UNSIGNED[i]);
    }
  }

  lemma Laws()
    ensures FieldsInvert(SCHEMA, Anything) && FieldsStrict(SCHEMA) && SameIsEquality(SCHEMA)
    ensures KeysAscend(SCHEMA, WIRE) && KeysAscend(SCHEMA, UNSIGNED)
    ensures Distinct(WIRE)
  {
    hide Value, ReadField, Name;
    forall f, e, v, t ensures Stores(SCHEMA, f, e, v, t, SCHEMA.read(f, e, SCHEMA.value(v, f) + t)) {
      FieldRoundTrip(f, e, v, t);
    }
    forall f, e, s ensures Consumes(SCHEMA, f, e, s, SCHEMA.read(f, e, s)) {
      FieldCanonical(f, e, s);
    }
    forall f, a, b | Same(f, a, b) ensures Value(a, f) == Value(b, f) {
      ValueOfSame(f, a, b);
    }
    KeyOrder();
  }

  lemma ValueOfSame(f: Field, a: Envelope, b: Envelope)
    requires Same(f, a, b)
    ensures Value(a, f) == Value(b, f)
  {
    hide Head;
  }

  lemma SameEuclidean(f: Field, r: Envelope, a: Envelope, b: Envelope)
    requires Same(f, r, a) && Same(f, r, b)
    ensures Same(f, a, b)
  {
  }

  lemma OnTheWire(f: Field)
    ensures f in WIRE && (f != SigF ==> f in UNSIGNED)
  {
    match f
    case MessageTypeF => assert WIRE[0] == UNSIGNED[0] == f;
    case VersionF => assert WIRE[1] == UNSIGNED[1] == f;
    case ToF => assert WIRE[2] == UNSIGNED[2] == f;
    case TimestampF => assert WIRE[3] == UNSIGNED[3] == f;
    case SigF => assert WIRE[4] == f;
    case FromF => assert WIRE[5] == UNSIGNED[4] == f;
    case NonceF => assert WIRE[6] == UNSIGNED[5] == f;
    case PayloadF => assert WIRE[7] == UNSIGNED[6] == f;
  }

  lemma SameEverywhere(a: Envelope, b: Envelope)
    requires forall f :: Same(f, a, b)
    ensures a == b
  {
    assert Same(MessageTypeF, a, b) && Same(VersionF, a, b) && Same(ToF, a, b) && Same(TimestampF, a, b);
    assert Same(SigF, a, b) && Same(FromF, a, b) && Same(NonceF, a, b) && Same(PayloadF, a, b);
  }

  /** Envelopes that agree on the signed fields differ at most in the signature. */
  lemma SameSigned(a: Envelope, b: Envelope)
    requires forall f :: f in UNSIGNED ==> Same(f, a, b)
    ensures a == b.(sig := a.sig)
  {
    var c := b.(sig := a.sig);
    forall f ensures Same(f, a, c) {
      OnTheWire(f);
    }
    SameEverywhere(a, c);
  }

  /** A record read with every field of `e` is `e`. */
  lemma WireDetermines(a: Envelope, e: Envelope)
    requires forall g :: SCHEMA.same(g, a, if g in WIRE then e else BLANK)
    ensures a == e
  {
    forall f ensures Same(f, a, e) {
      OnTheWire(f);
      assert SCHEMA.same(f, a, if f in WIRE then e else BLANK);
    }
    SameEverywhere(a, e);
  }

  // ---------------------------------------------------------------------
  // Encoding
  // ---------------------------------------------------------------------

  /** The bytes that are hashed and signed. */
  function EncodeUnsigned(e: Envelope): seq<byte> {
    KeyOrder();
    EntriesSorted(SCHEMA, e, UNSIGNED);
    EncodeMap(Entries(SCHEMA, e, UNSIGNED))
  }

  function ToWireBytes(e: Envelope): seq<byte> {
    KeyOrder();
    EntriesSorted(SCHEMA, e, WIRE);
    EncodeMap(Entries(SCHEMA, e, WIRE))
  }

  // ---------------------------------------------------------------------
  // Decoding
  // ---------------------------------------------------------------------

  /** All field reads of the decoder, up to the end-of-input test. */
  function ReadEnvelope(s: seq<byte>): Result<(Envelope, seq<byte>)> {
    ReadRecord(SCHEMA, WIRE, BLANK, s)
  }

  predicate Authentic(cr: Crypto, e: Envelope) {
    cr.validKey(e.from) && cr.verify(e.from, cr.hash(EncodeUnsigned(e)), e.sig)
  }

  /** The decoder's tests after the field reads, in the source's order. */
  function Accept(cr: Crypto, bytes: seq<byte>, e: Envelope, rest: seq<byte>): Result<Envelope> {
    if rest != [] then Err(CborDecode)
    else if e.version != PROTOCOL_VERSION then Err(UnsupportedVersion)
    else if !cr.validKey(e.from) then Err(BadPublicKey)
    else if !cr.verify(e.from, cr.hash(EncodeUnsigned(e)), e.sig) then Err(BadSignature)
    else if ToWireBytes(e) != bytes then Err(CborNotCanonical)
    else Ok(e)
  }

  function FromWireBytes(cr: Crypto, bytes: seq<byte>): Result<Envelope> {
    var (e, rest) :- ReadEnvelope(bytes);
    Accept(cr, bytes, e, rest)
  }

  /** One turn of the decoder's loop after the key was checked. */
  method TakeField(reader: CborReader, f: Field, e: Envelope) returns (r: Result<Envelope>)
    requires reader.Valid()
    modifies reader
    ensures reader.Reads(ReadField(f, e, old(reader.Remaining())), r)
  {
    match f {
      case MessageTypeF =>
        var v :- reader.TakeU64();
        if v > 0xFF {
          return Err(CborDecode);
        }
        return Ok(e.(messageType := v));
      case VersionF =>
        var v :- reader.TakeU64();
        return Ok(e.(version := v));
      case ToF =>
        var b :- reader.TakeBytesOrNull();
        if b.None? {
          return Ok(e.(to := None));
        }
        if |b.value| != PUBLIC_KEY_LEN {
          return Err(BadFieldLength);
        }
        return Ok(e.(to := Some(b.value)));
      case TimestampF =>
        var v :- reader.TakeU64();
        return Ok(e.(timestamp := v));
      case SigF =>
        var b :- reader.TakeFixed(SIGNATURE_LEN);
        return Ok(e.(sig := b));
      case FromF =>
        var b :- reader.TakeFixed(PUBLIC_KEY_LEN);
        return Ok(e.(from := b));
      case NonceF =>
        var b :- reader.TakeFixed(NONCE_LEN);
        return Ok(e.(nonce := b));
      case PayloadF =>
        var b :- reader.TakeBytes();
        return Ok(e.(payload := b));
    }
  }

  method Decode(cr: Crypto, bytes: Blob) returns (r: Result<Envelope>)
    ensures r == FromWireBytes(cr, bytes)
  {
    hide ReadText, ReadField, Name, Value;
    var reader := new CborReader(bytes);
    var n :- reader.TakeMapHeader();
    if n != |WIRE| {
      return Err(CborDecode);
    }
    var e := BLANK;
    ghost var start := reader.Remaining();
    assert WIRE[0..] == WIRE;
    for i := 0 to |WIRE|
      invariant reader.Valid() && reader.buf == bytes
      invariant ReadFields(SCHEMA, WIRE, BLANK, start) == ReadFields(SCHEMA, WIRE[i..], e, reader.Remaining())
    {
      assert WIRE[i..][0] == WIRE[i] && WIRE[i..][1..] == WIRE[i + 1..];
      var k :- reader.TakeText();
      if k != Name(WIRE[i]) {
        return Err(CborNotCanonical);
      }
      e :- TakeField(reader, WIRE[i], e);
    }
    r := Accept(cr, bytes, e, reader.Remaining());
  }

  // ---------------------------------------------------------------------
  // Main results
  // ---------------------------------------------------------------------

  /** An envelope's wire form is self-delimiting: all field reads succeed on it before any
      suffix and give the envelope back. */
  lemma EnvelopeRoundTrip(e: Envelope, t: seq<byte>)
    ensures ReadEnvelope(ToWireBytes(e) + t) == Ok((e, t))
  {
    hide Value, ReadField, Name, Same, EncodeMap, ReadRecord, FieldsInvert, FieldsStrict, SameIsEquality, KeysAscend;
    Laws();
    EntriesSorted(SCHEMA, e, WIRE);
    RecordRoundTrip(SCHEMA, Anything, WIRE, BLANK, e, t);
    WireDetermines(ReadEnvelope(ToWireBytes(e) + t).value.0, e);
  }

  /** The strict reader alone forces canonicity: whatever it read re-encodes to exactly the
      bytes consumed. */
  lemma EnvelopeCanonical(s: seq<byte>)
    requires ReadEnvelope(s).Ok?
    ensures s == ToWireBytes(ReadEnvelope(s).value.0) + ReadEnvelope(s).value.1
  {
    hide Value, ReadField, Name, EncodeMap, ReadRecord, FieldsInvert, FieldsStrict, SameIsEquality, KeysAscend;
    Laws();
    RecordCanonical(SCHEMA, WIRE, BLANK, s);
  }

  /** So the final re-encode comparison never rejects: dropping it changes no result. */
  lemma ReencodeCheckIsRedundant(cr: Crypto, bytes: seq<byte>)
    ensures FromWireBytes(cr, bytes) ==
            match ReadEnvelope(bytes)
            case Err(x) => Err(x)
            case Ok((e, rest)) =>
              if rest != [] then Err(CborDecode)
              else if e.version != PROTOCOL_VERSION then Err(UnsupportedVersion)
              else if !cr.validKey(e.from) then Err(BadPublicKey)
              else if !Authentic(cr, e) then Err(BadSignature)
              else Ok(e)
  {
    hide ReadEnvelope, ToWireBytes, EncodeUnsigned;
    if ReadEnvelope(bytes).Ok? {
      EnvelopeCanonical(bytes);
    }
  }

  /** Decoding accepts exactly the wire forms of authentic version-1 envelopes, each as itself. */
  lemma DecodesExactly(cr: Crypto, bytes: seq<byte>, e: Envelope)
    ensures FromWireBytes(cr, bytes) == Ok(e) <==>
            bytes == ToWireBytes(e) && e.version == PROTOCOL_VERSION && Authentic(cr, e)
  {
    hide ReadEnvelope, ToWireBytes, EncodeUnsigned;
    EnvelopeRoundTrip(e, []);
    assert ToWireBytes(e) + [] == ToWireBytes(e);
    if ReadEnvelope(bytes).Ok? {
      EnvelopeCanonical(bytes);
    }
  }

  /** The signed bytes determine all seven fields they cover. */
  lemma UnsignedInjective(a: Envelope, b: Envelope)
    requires EncodeUnsigned(a) == EncodeUnsigned(b)
    ensures a == b.(sig := a.sig)
  {
    hide Value, ReadField, Name, Same, EncodeMap, FieldsInvert, FieldsStrict, SameIsEquality, KeysAscend;
    Laws();
    EntriesSorted(SCHEMA, a, UNSIGNED);
    EntriesSorted(SCHEMA, b, UNSIGNED);
    var c := RecordInjective(SCHEMA, Anything, UNSIGNED, BLANK, a, b);
    forall f | f in UNSIGNED ensures Same(f, a, b) {
      assert SCHEMA.same(f, c, a) && SCHEMA.same(f, c, b);
      SameEuclidean(f, c, a, b);
    }
    SameSigned(a, b);
  }

  // ---------------------------------------------------------------------
  // Handshake transcript
  // ---------------------------------------------------------------------

  /** The two wire forms, with nothing between them. */
  function Transcript(hello: Envelope, helloback: Envelope): seq<byte> {
    ToWireBytes(hello) + ToWireBytes(helloback)
  }

  /** What both ends build from the bytes they sent and received: whoever reads an envelope from
      its start gets the hello back, and is left with the answer. */
  method BuildTranscript(hello: seq<byte>, helloback: seq<byte>) returns (transcript: seq<byte>)
    ensures forall h :: hello == ToWireBytes(h) ==> ReadEnvelope(transcript) == Ok((h, helloback))
    ensures forall h, b :: hello == ToWireBytes(h) && helloback == ToWireBytes(b) ==> transcript == Transcript(h, b)
  {
    hide ReadEnvelope, ToWireBytes;
    transcript := [];
    transcript := transcript + hello;
    transcript := transcript + helloback;
    forall h | hello == ToWireBytes(h) ensures ReadEnvelope(transcript) == Ok((h, helloback)) {
      EnvelopeRoundTrip(h, helloback);
      assert transcript == ToWireBytes(h) + helloback;
    }
  }

  /** The salt of the session key's derivation. */
  method SessionSalt(cr: Crypto, hello: Envelope, helloback: Envelope) returns (salt: seq<byte>)
    ensures salt == cr.hash(Transcript(hello, helloback))
  {
    hide ReadEnvelope, ToWireBytes;
    var transcript := BuildTranscript(ToWireBytes(hello), ToWireBytes(helloback));
    salt := cr.hash(transcript);
  }

  /** The tag that confirms the handshake. */
  method TranscriptMac(cr: Crypto, sessionKey: seq<byte>, hello: Envelope, helloback: Envelope) returns (mac: seq<byte>)
    ensures mac == cr.keyedHash(sessionKey, Transcript(hello, helloback))
  {
    hide ReadEnvelope, ToWireBytes;
    var transcript := BuildTranscript(ToWireBytes(hello), ToWireBytes(helloback));
    mac := cr.keyedHash(sessionKey, transcript);
  }

  /** Although nothing separates the two envelopes, the transcript determines both. */
  lemma TranscriptInjective(hello: Envelope, helloback: Envelope, hello': Envelope, helloback': Envelope)
    requires Transcript(hello, helloback) == Transcript(hello', helloback')
    ensures hello == hello' && helloback == helloback'
  {
    hide ReadEnvelope, ToWireBytes;
    EnvelopeRoundTrip(hello, ToWireBytes(helloback));
    EnvelopeRoundTrip(hello', ToWireBytes(helloback'));
    EnvelopeRoundTrip(helloback, []);
    EnvelopeRoundTrip(helloback', []);
    assert ToWireBytes(helloback) + [] == ToWireBytes(helloback') + [];
  }

  /** Unless the hash collides, handshakes with one salt are one handshake. */
  lemma SaltNamesHandshake(cr: Crypto, a: Envelope, b: Envelope, a': Envelope, b': Envelope)
    requires cr.hash(Transcript(a, b)) == cr.hash(Transcript(a', b'))
    ensures || (a == a' && b == b')
            || (Transcript(a, b) != Transcript(a', b') && cr.hash(Transcript(a, b)) == cr.hash(Transcript(a', b')))
  {
    hide Transcript;
    if Transcript(a, b) == Transcript(a', b') {
      TranscriptInjective(a, b, a', b');
    }
  }

  /** Unless the keyed hash collides, one tag confirms one pair of envelopes under one key. */
  lemma MacNamesHandshake(cr: Crypto, key: seq<byte>, a: Envelope, b: Envelope, key': seq<byte>, a': Envelope, b': Envelope)
    requires cr.keyedHash(key, Transcript(a, b)) == cr.keyedHash(key', Transcript(a', b'))
    ensures || (key == key' && a == a' && b == b')
            || ((key, Transcript(a, b)) != (key', Transcript(a', b'))
                && cr.keyedHash(key, Transcript(a, b)) == cr.keyedHash(key', Transcript(a', b')))
  {
    hide Transcript;
    if Transcript(a, b) == Transcript(a', b') {
      TranscriptInjective(a, b, a', b');
    }
  }
}
