/** The contract decoder as it runs: loops over a cursor, filling vectors, a parameter map and
    the record, each proved to compute its reader function. */
module ContractDecoder {
  import opened Wrappers
  import opened Bytes
  import opened Keys
  import opened Cbor
  import opened Records
  import opened ContractTypes
  import opened Contracts

  /** `out` holds the first items read from `start`; `n` more remain to be read from `rest`. */
  ghost predicate Continues<T>(dec: Reader<T>, total: nat, start: seq<byte>, out: seq<T>, n: nat, rest: seq<byte>) {
    ReadItems(dec, total, start) ==
    match ReadItems(dec, n, rest)
    case Ok((xs, t)) => Ok((out + xs, t))
    case Err(e) => Err(e)
  }

  /** Nothing read yet, and everything read. */
  lemma ContinuesEnds<T>(dec: Reader<T>, total: nat, start: seq<byte>)
    ensures Continues(dec, total, start, [], total, start)
    ensures forall out, rest :: Continues(dec, total, start, out, 0, rest) ==>
              ReadItems(dec, total, start) == Ok((out, rest))
  {
    match ReadItems(dec, total, start) {
      case Ok((xs, _)) => assert [] + xs == xs;
      case Err(_) =>
    }
    forall out: seq<T>, rest | Continues(dec, total, start, out, 0, rest)
      ensures ReadItems(dec, total, start) == Ok((out, rest))
    {
      assert out + [] == out;
    }
  }

  /** One more item: a failed read fails the whole, a successful one joins those read. */
  lemma ContinuesStep<T>(dec: Reader<T>, total: nat, start: seq<byte>, out: seq<T>, n: nat, rest: seq<byte>)
    requires n > 0 && Continues(dec, total, start, out, n, rest)
    ensures match dec(rest)
            case Err(e) => ReadItems(dec, total, start) == Err(e)
            case Ok((x, rest')) => Continues(dec, total, start, out + [x], n - 1, rest')
  {
    if dec(rest).Ok? {
      var (x, rest') := dec(rest).value;
      match ReadItems(dec, n - 1, rest') {
        case Ok((xs, t)) => assert out + ([x] + xs) == out + [x] + xs;
        case Err(_) =>
      }
    }
  }

  method DecodeKinds(r: CborReader) returns (res: Result<Arr<FieldKind>>)
    requires r.Valid()
    modifies r
    ensures r.Reads(ReadKinds(MAX_CBOR_ENTRIES, old(r.Remaining())), res)
  {
    hide ReadText, ReadItems, Continues;
    var n :- r.TakeArrayHeader();
    ghost var start := r.Remaining();
    ContinuesEnds<FieldKind>(ReadText, n, start);
    var out: seq<FieldKind> := [];
    for i := 0 to n
      invariant r.Valid() && |out| == i
      invariant Continues<FieldKind>(ReadText, n, start, out, n - i, r.Remaining())
    {
      ContinuesStep<FieldKind>(ReadText, n, start, out, n - i, r.Remaining());
      var x :- r.TakeText();
      out := out + [x];
    }
    return Ok(out);
  }

  method DecodeModerators(r: CborReader) returns (res: Result<Arr<PublicKey>>)
    requires r.Valid()
    modifies r
    ensures r.Reads(ReadModerators(MAX_CBOR_ENTRIES, old(r.Remaining())), res)
  {
    hide ReadBytes, ReadItems, Continues;
    var n :- r.TakeArrayHeader();
    ghost var start := r.Remaining();
    ContinuesEnds<PublicKey>(ReadKey, n, start);
    var out: seq<PublicKey> := [];
    for i := 0 to n
      invariant r.Valid() && |out| == i
      invariant Continues<PublicKey>(ReadKey, n, start, out, n - i, r.Remaining())
    {
      ContinuesStep<PublicKey>(ReadKey, n, start, out, n - i, r.Remaining());
      var b :- r.TakeBytes();
      if |b| != PUBLIC_KEY_LEN {
        return Err(BadFieldLength);
      }
      out := out + [b];
    }
    return Ok(out);
  }

  method TakeSpecField(r: CborReader, f: SpecField, x: FieldSpec) returns (res: Result<FieldSpec>)
    requires r.Valid()
    modifies r
    ensures r.Reads(ReadSpecField(f, x, old(r.Remaining())), res)
  {
    hide ReadText, ReadOptionalText;
    match f {
      case KindS => var b :- r.TakeText(); return Ok(x.(kind := b));
      case LabelS => var b :- r.TakeText(); return Ok(x.(caption := b));
      case ValidatorS => var b :- r.TakeOptionalText(); return Ok(x.(validator := b));
      case DescriptionS => var b :- r.TakeOptionalText(); return Ok(x.(description := b));
    }
  }

  method DecodeSpec(r: CborReader) returns (res: Result<FieldSpec>)
    requires r.Valid()
    modifies r
    ensures r.Reads(ReadSpec(old(r.Remaining())), res)
  {
    hide ReadText, ReadSpecField, SpecName, SpecValue;
    var n :- r.TakeMapHeader();
    if n != |SPEC| {
      return Err(CborDecode);
    }
    var x := BLANK_SPEC;
    ghost var start := r.Remaining();
    assert SPEC[0..] == SPEC;
    for i := 0 to |SPEC|
      invariant r.Valid()
      invariant ReadFields(SPEC_SCHEMA, SPEC, BLANK_SPEC, start) == ReadFields(SPEC_SCHEMA, SPEC[i..], x, r.Remaining())
    {
      assert SPEC[i..][0] == SPEC[i] && SPEC[i..][1..] == SPEC[i + 1..];
      var k :- r.TakeText();
      if k != SpecName(SPEC[i]) {
        return Err(CborNotCanonical);
      }
      x :- TakeSpecField(r, SPEC[i], x);
    }
    return Ok(x);
  }

  method DecodeSpecs(r: CborReader) returns (res: Result<Arr<FieldSpec>>)
    requires r.Valid()
    modifies r
    ensures r.Reads(ReadSpecs(MAX_CBOR_ENTRIES, old(r.Remaining())), res)
  {
    hide ReadSpec, ReadItems, Continues;
    var n :- r.TakeArrayHeader();
    ghost var start := r.Remaining();
    ContinuesEnds(ReadSpec, n, start);
    var out: seq<FieldSpec> := [];
    for i := 0 to n
      invariant r.Valid() && |out| == i
      invariant Continues(ReadSpec, n, start, out, n - i, r.Remaining())
    {
      ContinuesStep(ReadSpec, n, start, out, n - i, r.Remaining());
      var x :- DecodeSpec(r);
      out := out + [x];
    }
    return Ok(out);
  }

  /** As `Continues`, for the pairs of a parameter map. */
  ghost predicate PairsContinue(
    total: nat, start: seq<byte>, done: seq<Pair>, n: nat, last: Option<seq<byte>>, rest: seq<byte>)
  {
    ReadPairs(total, None, start) ==
    match ReadPairs(n, last, rest)
    case Ok((ps, t)) => Ok((done + ps, t))
    case Err(e) => Err(e)
  }

  lemma PlusUpdate<K, V>(a: map<K, V>, b: map<K, V>, k: K, v: V)
    ensures (a + b)[k := v] == a + b[k := v]
  {
  }

  lemma {:induction false} PairsMapAppend(ps: seq<Pair>, p: Pair)
    ensures PairsMap(ps + [p]) == PairsMap(ps)[p.0 := p.1]
  {
    hide IsUtf8;
    if ps == [] {
      assert (ps + [p])[1..] == [];
    } else {
      PairsMapAppend(ps[1..], p);
      assert (ps + [p])[1..] == ps[1..] + [p];
      PlusUpdate(map[ps[0].0 := ps[0].1], PairsMap(ps[1..]), p.0, p.1);
    }
  }

  lemma PairsContinueEnds(total: nat, start: seq<byte>)
    ensures PairsContinue(total, start, [], total, None, start)
    ensures forall done, last, rest :: PairsContinue(total, start, done, 0, last, rest) ==>
              ReadPairs(total, None, start) == Ok((done, rest))
  {
    match ReadPairs(total, None, start) {
      case Ok((ps, _)) => assert [] + ps == ps;
      case Err(_) =>
    }
    forall done: seq<Pair>, last, rest | PairsContinue(total, start, done, 0, last, rest)
      ensures ReadPairs(total, None, start) == Ok((done, rest))
    {
      assert done + [] == done;
    }
  }

  /** One more pair: its key may fail the order test, otherwise it joins those read. */
  lemma PairsContinueStep(
    total: nat, start: seq<byte>, done: seq<Pair>, n: nat, last: Option<seq<byte>>, s: seq<byte>)
    requires n > 0 && PairsContinue(total, start, done, n, last, s)
    ensures ReadText(s).Err? ==> ReadPairs(total, None, start) == Err(ReadText(s).error)
    ensures ReadText(s).Ok? ==>
            var (k, s1) := ReadText(s).value;
            var ordered := last.None? || Below(last.value, TextString(k));
            && (!ordered ==> ReadPairs(total, None, start) == Err(CborNotCanonical))
            && (ordered && ReadText(s1).Err? ==> ReadPairs(total, None, start) == Err(ReadText(s1).error))
            && (ordered && ReadText(s1).Ok? ==>
                  var (v, s2) := ReadText(s1).value;
                  PairsContinue(total, start, done + [(k, v)], n - 1, Some(TextString(k)), s2))
  {
    hide ReadText, Below, IsUtf8, TextString;
    if ReadText(s).Ok? {
      KeyBytes(s);
      var (k, s1) := ReadText(s).value;
      if (last.None? || Below(last.value, TextString(k))) && ReadText(s1).Ok? {
        var (v, s2) := ReadText(s1).value;
        match ReadPairs(n - 1, Some(TextString(k)), s2) {
          case Ok((ps, t)) => assert done + ([(k, v)] + ps) == done + [(k, v)] + ps;
          case Err(_) =>
        }
      }
    }
  }

  /** Read a key together with the bytes it was read from. */
  method TakeKey(r: CborReader) returns (res: Result<(Text, seq<byte>)>)
    requires r.Valid()
    modifies r
    ensures r.Valid()
    ensures match ReadText(old(r.Remaining()))
            case Ok((k, t)) => res == Ok((k, TextString(k))) && r.Remaining() == t
            case Err(e) => res == Err(e)
  {
    hide ReadText, IsUtf8, TextString;
    ghost var rest := r.Remaining();
    var kstart := r.pos;
    var k :- r.TakeText();
    KeyBytes(rest);
    assert |rest| == |r.buf| - kstart && |r.Remaining()| == |r.buf| - r.pos;
    var kbytes := r.buf[kstart..r.pos];
    assert kbytes == rest[..|rest| - |r.Remaining()|];
    return Ok((k, kbytes));
  }

  /** Insert the pairs one at a time, holding each encoded key against the one before. */
  method DecodeParams(r: CborReader) returns (res: Result<Params>)
    requires r.Valid()
    modifies r
    ensures r.Reads(ReadParams(MAX_CBOR_ENTRIES, old(r.Remaining())), res)
  {
    hide ReadText, Below, IsUtf8, ReadPairs, PairsContinue, TextString, ReadCount;
    var n :- r.TakeMapHeader();
    ghost var start := r.Remaining();
    ghost var done: seq<Pair> := [];
    var params: map<Text, Text> := map[];
    var last: Option<seq<byte>> := None;
    PairsContinueEnds(n, start);
    for i := 0 to n
      invariant r.Valid() && |done| == i
      invariant params == PairsMap(done)
      invariant PairsContinue(n, start, done, n - i, last, r.Remaining())
    {
      PairsContinueStep(n, start, done, n - i, last, r.Remaining());
      var key :- TakeKey(r);
      var (k, kbytes) := key;
      if last.Some? && !Below(last.value, kbytes) {
        return Err(CborNotCanonical);
      }
      last := Some(kbytes);
      var v :- r.TakeText();
      params := params[k := v];
      PairsMapAppend(done, (k, v));
      done := done + [(k, v)];
    }
    PairsMapSize(done);
    return Ok(params);
  }

  method DecodePolicy(r: CborReader) returns (res: Result<PolicyClause>)
    requires r.Valid()
    modifies r
    ensures r.Reads(ReadPolicy(MAX_CBOR_ENTRIES, old(r.Remaining())), res)
  {
    hide ReadText, ReadParams;
    var n :- r.TakeMapHeader();
    if n != 2 {
      return Err(CborDecode);
    }
    PolicyFieldsUnrolled(r.Remaining());
    var k1 :- r.TakeText();
    if k1 != PolicyName(KindP) {
      return Err(CborNotCanonical);
    }
    var kind :- r.TakeText();
    var k2 :- r.TakeText();
    if k2 != PolicyName(ParamsP) {
      return Err(CborNotCanonical);
    }
    var params :- DecodeParams(r);
    return Ok(PolicyClause(kind, params));
  }

  lemma PolicyFieldsUnrolled(s: seq<byte>)
    ensures ReadFields(PolicySchema(MAX_CBOR_ENTRIES), POLICY, BLANK_POLICY, s) ==
            match ReadText(s)
            case Err(e) => Err(e)
            case Ok((k1, s1)) =>
              if k1 != PolicyName(KindP) then Err(CborNotCanonical) else
              match ReadText(s1)
              case Err(e) => Err(e)
              case Ok((kind, s2)) =>
                match ReadText(s2)
                case Err(e) => Err(e)
                case Ok((k2, s3)) =>
                  if k2 != PolicyName(ParamsP) then Err(CborNotCanonical) else
                  match ReadParams(MAX_CBOR_ENTRIES, s3)
                  case Err(e) => Err(e)
                  case Ok((params, t)) => Ok((PolicyClause(kind, params), t))
  {
    hide ReadText, ReadParams, PolicyName, PolicyValue;
    var c := PolicySchema(MAX_CBOR_ENTRIES);
    assert POLICY[1..] == [ParamsP] && POLICY[1..][1..] == [];
    if ReadText(s).Ok? && ReadText(s).value.0 == PolicyName(KindP) {
      var s1 := ReadText(s).value.1;
      if ReadText(s1).Ok? {
        var (kind, s2) := ReadText(s1).value;
        var p := BLANK_POLICY.(kind := kind);
        assert c.read(KindP, BLANK_POLICY, s1) == Ok((p, s2));
        if ReadText(s2).Ok? && ReadText(s2).value.0 == PolicyName(ParamsP) {
          var s3 := ReadText(s2).value.1;
          assert ReadFields(c, POLICY[1..], p, s2) ==
            match ReadParams(MAX_CBOR_ENTRIES, s3)
            case Err(e) => Err(e)
            case Ok((params, t)) => Ok((PolicyClause(kind, params), t));
        }
      }
    }
  }

  method DecodePolicies(r: CborReader) returns (res: Result<Arr<PolicyClause>>)
    requires r.Valid()
    modifies r
    ensures r.Reads(ReadPolicies(MAX_CBOR_ENTRIES, old(r.Remaining())), res)
  {
    hide ReadPolicy, ReadItems, Continues;
    ghost var dec := PolicyReader(MAX_CBOR_ENTRIES);
    var n :- r.TakeArrayHeader();
    ghost var start := r.Remaining();
    ContinuesEnds(dec, n, start);
    var out: seq<PolicyClause> := [];
    for i := 0 to n
      invariant r.Valid() && |out| == i
      invariant Continues(dec, n, start, out, n - i, r.Remaining())
    {
      ContinuesStep(dec, n, start, out, n - i, r.Remaining());
      var x :- DecodePolicy(r);
      out := out + [x];
    }
    return Ok(out);
  }

  /** One turn of the contract decoder's loop after the key was checked. */
  method TakeField(r: CborReader, f: Field, c: Contract) returns (res: Result<Contract>)
    requires r.Valid()
    modifies r
    ensures r.Reads(ReadField(MAX_CBOR_ENTRIES, f, c, old(r.Remaining())), res)
  {
    hide ReadText, ReadBytes, ReadU64, ReadKinds, ReadSpecs, ReadPolicies, ReadModerators;
    match f {
      case TitleF => var b :- r.TakeText(); return Ok(c.(title := b));
      case VerseF => var b :- r.TakeFixed(PUBLIC_KEY_LEN); return Ok(c.(verse := b));
      case ScopedF => var xs :- DecodeKinds(r); return Ok(c.(scoped := xs));
      case VersionF => var n :- r.TakeU64(); return Ok(c.(version := n));
      case OptionalF => var xs :- DecodeSpecs(r); return Ok(c.(optional := xs));
      case PoliciesF => var xs :- DecodePolicies(r); return Ok(c.(policies := xs));
      case RequiredF => var xs :- DecodeSpecs(r); return Ok(c.(required := xs));
      case ForbiddenF => var xs :- DecodeKinds(r); return Ok(c.(forbidden := xs));
      case IssuedAtF => var n :- r.TakeU64(); return Ok(c.(issuedAt := n));
      case SignatureF => var b :- r.TakeFixed(SIGNATURE_LEN); return Ok(c.(signature := b));
      case ModeratorsF => var xs :- DecodeModerators(r); return Ok(c.(moderators := xs));
      case DescriptionF => var b :- r.TakeText(); return Ok(c.(description := b));
    }
  }

  method Decode(cr: Crypto, bytes: Blob) returns (res: Result<Contract>)
    ensures res == FromWireBytes(cr, bytes)
  {
    hide ReadText, ReadField, Name, Value;
    ghost var d := ContractSchema(MAX_CBOR_ENTRIES);
    var r := new CborReader(bytes);
    var n :- r.TakeMapHeader();
    if n != |WIRE| {
      return Err(CborDecode);
    }
    var c := BLANK;
    ghost var start := r.Remaining();
    assert WIRE[0..] == WIRE;
    for i := 0 to |WIRE|
      invariant r.Valid() && r.buf == bytes
      invariant ReadFields(d, WIRE, BLANK, start) == ReadFields(d, WIRE[i..], c, r.Remaining())
    {
      assert WIRE[i..][0] == WIRE[i] && WIRE[i..][1..] == WIRE[i + 1..];
      var k :- r.TakeText();
      if k != Name(WIRE[i]) {
        return Err(CborNotCanonical);
      }
      c :- TakeField(r, WIRE[i], c);
    }
    res := Accept(cr, bytes, c);
  }
}
