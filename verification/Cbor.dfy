/** Deterministic CBOR (sections 3 and 4.2.1 of RFC 8949): the wire grammar as functions,
    the laws that tie reading to writing, and the mutable writer and reader proved against them.

    A reader function takes the bytes still unread and returns a value and what is left. */
module Cbor {
  import opened Wrappers
  import opened Bytes

  const MAX_CBOR_ENTRIES: int := 0x10_0000

  const UINT := 0
  const BYTES := 2
  const TEXT := 3
  const ARRAY := 4
  const MAP := 5

  const SIMPLE_NULL: byte := 0xF6

  type Reader<T> = seq<byte> -> Result<(T, seq<byte>)>

  // ---------------------------------------------------------------------
  // Heads
  // ---------------------------------------------------------------------

  /** The shortest head for a major type and its argument. */
  function Head(major: nat, n: u64): (s: seq<byte>)
    requires major < 8
    ensures s != [] && s[0] / 0x20 == major
  {
    Pow256Values();
    if n <= 23 then [0x20 * major + n]
    else if n <= 0xFF then [0x20 * major + 24] + ToBigEndian(n, 1)
    else if n <= 0xFFFF then [0x20 * major + 25] + ToBigEndian(n, 2)
    else if n <= 0xFFFF_FFFF then [0x20 * major + 26] + ToBigEndian(n, 4)
    else [0x20 * major + 27] + ToBigEndian(n, 8)
  }

  /** An argument in `k` following bytes, which must not fit a shorter form. */
  function ReadArgument(major: nat, k: nat, least: nat, s: seq<byte>): Result<(nat, u64, seq<byte>)>
    requires k in {1, 2, 4, 8}
  {
    Pow256Values();
    if |s| < k then Err(CborDecode)
    else
      var v := FromBigEndian(s[..k]);
      if v < least then Err(CborNotCanonical) else Ok((major, v, s[k..]))
  }

  function ReadHead(s: seq<byte>): (r: Result<(nat, u64, seq<byte>)>)
    ensures r.Ok? ==> r.value.0 < 8
  {
    if s == [] then Err(CborDecode) else
    var major, info := s[0] / 0x20, s[0] % 0x20;
    if info <= 23 then Ok((major, info, s[1..]))
    else if info == 24 then ReadArgument(major, 1, 24, s[1..])
    else if info == 25 then ReadArgument(major, 2, 0x100, s[1..])
    else if info == 26 then ReadArgument(major, 4, 0x1_0000, s[1..])
    else if info == 27 then ReadArgument(major, 8, 0x1_0000_0000, s[1..])
    else if info == 31 then Err(CborNotCanonical)
    else Err(CborDecode)
  }

  lemma ArgumentRoundTrip(major: nat, k: nat, least: nat, n: u64, t: seq<byte>)
    requires k in {1, 2, 4, 8} && least <= n < Pow256(k)
    ensures ReadArgument(major, k, least, ToBigEndian(n, k) + t) == Ok((major, n, t))
  {
    BigEndianRoundTrip(n, k);
    var s := ToBigEndian(n, k) + t;
    assert s[..k] == ToBigEndian(n, k);
    assert s[k..] == t;
  }

  /** Reading inverts writing before any suffix; in particular no head is a prefix of another. */
  lemma HeadRoundTrip(major: nat, n: u64, t: seq<byte>)
    requires major < 8
    ensures ReadHead(Head(major, n) + t) == Ok((major, n, t))
  {
    Pow256Values();
    hide ReadArgument, Pow256;
    var s := Head(major, n) + t;
    if n > 23 {
      var k := if n <= 0xFF then 1 else if n <= 0xFFFF then 2 else if n <= 0xFFFF_FFFF then 4 else 8;
      var least := if n <= 0xFF then 24 else if n <= 0xFFFF then 0x100 else if n <= 0xFFFF_FFFF then 0x1_0000 else 0x1_0000_0000;
      ArgumentRoundTrip(major, k, least, n, t);
      assert s[1..] == ToBigEndian(n, k) + t;
    } else {
      assert s[1..] == t;
    }
  }

  /** The strict reader accepts only what the writer emits. */
  lemma HeadCanonical(s: seq<byte>)
    requires ReadHead(s).Ok?
    ensures var (major, n, t) := ReadHead(s).value; s == Head(major, n) + t
  {
    Pow256Values();
    var (major, n, t) := ReadHead(s).value;
    var info := s[0] % 0x20;
    if info > 23 {
      var k := if info == 24 then 1 else if info == 25 then 2 else if info == 26 then 4 else 8;
      BigEndianCanonical(s[1..][..k]);
      assert FromBigEndian(s[1..][..k]) == n;
      assert s == [s[0]] + (s[1..][..k] + s[1..][k..]);
    } else {
      assert s == [s[0]] + s[1..];
    }
  }

  lemma HeadAscends(major: nat, n: u64, m: u64, x: seq<byte>, y: seq<byte>)
    requires major < 8 && n < m
    ensures Below(Head(major, n) + x, Head(major, m) + y)
  {
    Pow256Values();
    var a, b := Head(major, n), Head(major, m);
    if a[0] == b[0] {
      var k := |a| - 1;
      BigEndianOrder(n, m, k);
      BelowSameLength(ToBigEndian(n, k), ToBigEndian(m, k), x, y);
      assert (a + x)[1..] == ToBigEndian(n, k) + x && (b + y)[1..] == ToBigEndian(m, k) + y;
    }
  }

  /** Numeric order of arguments is the bytewise order of their heads, whatever follows. */
  lemma HeadOrder(major: nat, n: u64, m: u64, x: seq<byte>, y: seq<byte>)
    requires major < 8
    ensures Below(Head(major, n) + x, Head(major, m) + y) <==> n < m || (n == m && Below(x, y))
  {
    var a, b := Head(major, n) + x, Head(major, m) + y;
    BelowTrichotomy(a, b);
    if n < m {
      HeadAscends(major, n, m, x, y);
    } else if m < n {
      HeadAscends(major, m, n, y, x);
    } else {
      BelowCommonPrefix(Head(major, n), x, y);
    }
  }

  // ---------------------------------------------------------------------
  // Items
  // ---------------------------------------------------------------------

  function Uint(n: u64): seq<byte> {
    Head(UINT, n)
  }

  function ByteString(b: Blob): seq<byte> {
    Head(BYTES, |b|) + b
  }

  function TextString(t: Text): seq<byte> {
    Head(TEXT, |t|) + t
  }

  function NullableBytes(b: Option<Blob>): seq<byte> {
    if b.None? then [SIMPLE_NULL] else ByteString(b.value)
  }

  function NullableText(t: Option<Text>): seq<byte> {
    if t.None? then [SIMPLE_NULL] else TextString(t.value)
  }

  function ReadU64(s: seq<byte>): Result<(u64, seq<byte>)> {
    var (major, n, t) :- ReadHead(s);
    if major != UINT then Err(CborDecode) else Ok((n, t))
  }

  function ReadN(n: u64, s: seq<byte>): Result<(Blob, seq<byte>)> {
    if n > |s| then Err(CborDecode) else Ok((s[..n], s[n..]))
  }

  function ReadBytes(s: seq<byte>): Result<(Blob, seq<byte>)> {
    var (major, n, t) :- ReadHead(s);
    if major != BYTES then Err(CborDecode) else ReadN(n, t)
  }

  function ReadText(s: seq<byte>): Result<(Text, seq<byte>)> {
    var (major, n, t) :- ReadHead(s);
    if major != TEXT then Err(CborDecode) else
    var (b, rest) :- ReadN(n, t);
    if IsUtf8(b) then Ok((b, rest)) else Err(CborDecode)
  }

  function ReadBytesOrNull(s: seq<byte>): Result<(Option<Blob>, seq<byte>)> {
    if s == [] then Err(CborDecode)
    else if s[0] == SIMPLE_NULL then Ok((None, s[1..]))
    else
      var (b, t) :- ReadBytes(s);
      Ok((Some(b), t))
  }

  function ReadOptionalText(s: seq<byte>): Result<(Option<Text>, seq<byte>)> {
    if s == [] then Err(CborDecode)
    else if s[0] == SIMPLE_NULL then
      var (_, t) :- ReadBytesOrNull(s);
      Ok((None, t))
    else
      var (b, t) :- ReadText(s);
      Ok((Some(b), t))
  }

  /** A byte string of exactly `n` bytes. */
  function ReadFixed(n: nat, s: seq<byte>): (r: Result<(Blob, seq<byte>)>)
    ensures r.Ok? ==> |r.value.0| == n
  {
    var (b, t) :- ReadBytes(s);
    if |b| != n then Err(BadFieldLength) else Ok((b, t))
  }

  /** An array or map header with at most `cap` entries; the readers fix `cap` to
      MAX_CBOR_ENTRIES. */
  function ReadCount(major: nat, cap: nat, s: seq<byte>): Result<(u64, seq<byte>)> {
    var (m, n, t) :- ReadHead(s);
    if m != major then Err(CborDecode)
    else if n > cap then Err(CborDecode)
    else Ok((n, t))
  }

  lemma UintRoundTrip(n: u64, t: seq<byte>)
    ensures ReadU64(Uint(n) + t) == Ok((n, t))
  {
    HeadRoundTrip(UINT, n, t);
  }

  lemma UintCanonical(s: seq<byte>)
    requires ReadU64(s).Ok?
    ensures s == Uint(ReadU64(s).value.0) + ReadU64(s).value.1
  {
    HeadCanonical(s);
  }

  lemma BytesRoundTrip(b: Blob, t: seq<byte>)
    ensures ReadBytes(ByteString(b) + t) == Ok((b, t))
  {
    HeadRoundTrip(BYTES, |b|, b + t);
    assert ByteString(b) + t == Head(BYTES, |b|) + (b + t);
  }

  lemma BytesCanonical(s: seq<byte>)
    requires ReadBytes(s).Ok?
    ensures s == ByteString(ReadBytes(s).value.0) + ReadBytes(s).value.1
  {
    HeadCanonical(s);
  }

  lemma TextRoundTrip(b: Text, t: seq<byte>)
    ensures ReadText(TextString(b) + t) == Ok((b, t))
  {
    HeadRoundTrip(TEXT, |b|, b + t);
    assert TextString(b) + t == Head(TEXT, |b|) + (b + t);
  }

  lemma TextCanonical(s: seq<byte>)
    requires ReadText(s).Ok?
    ensures s == TextString(ReadText(s).value.0) + ReadText(s).value.1
  {
    HeadCanonical(s);
  }

  lemma NullableBytesRoundTrip(b: Option<Blob>, t: seq<byte>)
    ensures ReadBytesOrNull(NullableBytes(b) + t) == Ok((b, t))
  {
    if b.Some? {
      BytesRoundTrip(b.value, t);
    }
  }

  lemma NullableBytesCanonical(s: seq<byte>)
    requires ReadBytesOrNull(s).Ok?
    ensures s == NullableBytes(ReadBytesOrNull(s).value.0) + ReadBytesOrNull(s).value.1
  {
    if s[0] == SIMPLE_NULL {
      assert s == [s[0]] + s[1..];
    } else {
      BytesCanonical(s);
    }
  }

  lemma NullableTextRoundTrip(b: Option<Text>, t: seq<byte>)
    ensures ReadOptionalText(NullableText(b) + t) == Ok((b, t))
  {
    if b.Some? {
      TextRoundTrip(b.value, t);
    }
  }

  lemma NullableTextCanonical(s: seq<byte>)
    requires ReadOptionalText(s).Ok?
    ensures s == NullableText(ReadOptionalText(s).value.0) + ReadOptionalText(s).value.1
  {
    if s[0] == SIMPLE_NULL {
      assert s == [s[0]] + s[1..];
    } else {
      TextCanonical(s);
    }
  }

  lemma CountRoundTrip(major: nat, cap: nat, n: u64, t: seq<byte>)
    requires major < 8
    ensures ReadCount(major, cap, Head(major, n) + t) == if n <= cap then Ok((n, t)) else Err(CborDecode)
  {
    HeadRoundTrip(major, n, t);
  }

  lemma CountCanonical(major: nat, cap: nat, s: seq<byte>)
    requires major < 8 && ReadCount(major, cap, s).Ok?
    ensures s == Head(major, ReadCount(major, cap, s).value.0) + ReadCount(major, cap, s).value.1
  {
    HeadCanonical(s);
  }

  /** Encoded text keys sort by length first and bytes second. */
  lemma TextOrder(a: Text, b: Text)
    ensures Below(TextString(a), TextString(b)) <==> |a| < |b| || (|a| == |b| && Below(a, b))
  {
    HeadOrder(TEXT, |a|, |b|, a, b);
  }

  // ---------------------------------------------------------------------
  // Arrays
  // ---------------------------------------------------------------------

  function Items<T>(enc: T -> seq<byte>, xs: seq<T>): seq<byte> {
    if xs == [] then [] else enc(xs[0]) + Items(enc, xs[1..])
  }

  function ArrayOf<T>(enc: T -> seq<byte>, xs: Arr<T>): seq<byte> {
    Head(ARRAY, |xs|) + Items(enc, xs)
  }

  function ReadItems<T>(dec: Reader<T>, n: nat, s: seq<byte>): (r: Result<(seq<T>, seq<byte>)>)
    ensures r.Ok? ==> |r.value.0| == n
  {
    if n == 0 then Ok(([], s)) else
    var (x, t) :- dec(s);
    var (xs, rest) :- ReadItems(dec, n - 1, t);
    Ok(([x] + xs, rest))
  }

  function ReadArray<T>(dec: Reader<T>, cap: nat, s: seq<byte>): Result<(Arr<T>, seq<byte>)> {
    var (n, t) :- ReadCount(ARRAY, cap, s);
    ReadItems(dec, n, t)
  }

  /** `dec` reads back what `enc` wrote, for the values `ok` admits. */
  ghost predicate Inverts<T(!new)>(enc: T -> seq<byte>, dec: Reader<T>, ok: T -> bool) {
    forall x, t :: ok(x) ==> dec(enc(x) + t) == Ok((x, t))
  }

  /** `dec` accepts only what `enc` writes. */
  ghost predicate Strict<T(!new)>(enc: T -> seq<byte>, dec: Reader<T>) {
    forall s :: dec(s).Ok? ==> s == enc(dec(s).value.0) + dec(s).value.1
  }

  lemma {:induction false} ItemsRoundTrip<T(!new)>(
    enc: T -> seq<byte>, dec: Reader<T>, ok: T -> bool, xs: seq<T>, t: seq<byte>)
    requires Inverts(enc, dec, ok) && forall x :: x in xs ==> ok(x)
    ensures ReadItems(dec, |xs|, Items(enc, xs) + t) == Ok((xs, t))
  {
    if xs == [] {
      assert Items(enc, xs) + t == t;
    } else {
      var rest := Items(enc, xs[1..]) + t;
      assert Items(enc, xs) + t == enc(xs[0]) + rest;
      assert dec(enc(xs[0]) + rest) == Ok((xs[0], rest));
      ItemsRoundTrip(enc, dec, ok, xs[1..], t);
      assert xs == [xs[0]] + xs[1..];
    }
  }

  lemma {:induction false} ItemsCanonical<T(!new)>(enc: T -> seq<byte>, dec: Reader<T>, n: nat, s: seq<byte>)
    requires Strict(enc, dec) && ReadItems(dec, n, s).Ok?
    ensures s == Items(enc, ReadItems(dec, n, s).value.0) + ReadItems(dec, n, s).value.1
  {
    if n > 0 {
      var (x, t) := dec(s).value;
      var (xs, rest) := ReadItems(dec, n - 1, t).value;
      ItemsCanonical(enc, dec, n - 1, t);
      assert s == enc(x) + t;
      assert ([x] + xs)[1..] == xs;
      assert enc(x) + (Items(enc, xs) + rest) == (enc(x) + Items(enc, xs)) + rest;
    }
  }

  lemma ArrayRoundTrip<T(!new)>(
    enc: T -> seq<byte>, dec: Reader<T>, ok: T -> bool, cap: nat, xs: Arr<T>, t: seq<byte>)
    requires Inverts(enc, dec, ok) && |xs| <= cap && forall x :: x in xs ==> ok(x)
    ensures ReadArray(dec, cap, ArrayOf(enc, xs) + t) == Ok((xs, t))
  {
    CountRoundTrip(ARRAY, cap, |xs|, Items(enc, xs) + t);
    assert ArrayOf(enc, xs) + t == Head(ARRAY, |xs|) + (Items(enc, xs) + t);
    ItemsRoundTrip(enc, dec, ok, xs, t);
  }

  lemma ArrayCanonical<T(!new)>(enc: T -> seq<byte>, dec: Reader<T>, cap: nat, s: seq<byte>)
    requires Strict(enc, dec) && ReadArray(dec, cap, s).Ok?
    ensures s == ArrayOf(enc, ReadArray(dec, cap, s).value.0) + ReadArray(dec, cap, s).value.1
    ensures |ReadArray(dec, cap, s).value.0| <= cap
  {
    hide Head, ReadHead;
    CountCanonical(ARRAY, cap, s);
    var (n, t) := ReadCount(ARRAY, cap, s).value;
    ItemsCanonical(enc, dec, n, t);
    var (xs, rest) := ReadItems(dec, n, t).value;
    Assoc(Head(ARRAY, n), Items(enc, xs), rest);
  }

  lemma {:induction false} ItemsAll<T(!new)>(dec: Reader<T>, ok: T -> bool, n: nat, s: seq<byte>)
    requires ReadItems(dec, n, s).Ok? && forall x :: dec(x).Ok? ==> ok(dec(x).value.0)
    ensures forall y :: y in ReadItems(dec, n, s).value.0 ==> ok(y)
  {
    if n > 0 {
      ItemsAll(dec, ok, n - 1, dec(s).value.1);
    }
  }

  /** What every item read establishes holds of every item of an array read. */
  lemma ArrayAll<T(!new)>(dec: Reader<T>, ok: T -> bool, cap: nat, s: seq<byte>)
    requires ReadArray(dec, cap, s).Ok? && forall x :: dec(x).Ok? ==> ok(dec(x).value.0)
    ensures forall y :: y in ReadArray(dec, cap, s).value.0 ==> ok(y)
  {
    var (n, t) := ReadCount(ARRAY, cap, s).value;
    ItemsAll(dec, ok, n, t);
  }

  // ---------------------------------------------------------------------
  // Maps
  // ---------------------------------------------------------------------

  /** One map entry: key and value, each already encoded. */
  datatype MapEntry = MapEntry(key: seq<byte>, value: seq<byte>)

  predicate IsSortedByKey(es: seq<MapEntry>) {
    forall i :: 0 < i < |es| ==> Below(es[i - 1].key, es[i].key)
  }

  function EntryBytes(es: seq<MapEntry>): seq<byte> {
    if es == [] then [] else es[0].key + es[0].value + EntryBytes(es[1..])
  }

  /** Callers owe the canonical key order; the source asserts it in debug builds. */
  function EncodeMap(es: Arr<MapEntry>): seq<byte>
    requires IsSortedByKey(es)
  {
    Head(MAP, |es|) + EntryBytes(es)
  }

  lemma {:induction false} EntryBytesAppend(es: seq<MapEntry>, e: MapEntry)
    ensures EntryBytes(es + [e]) == EntryBytes(es) + e.key + e.value
  {
    if es == [] {
      assert (es + [e])[1..] == [];
      assert e.key + e.value + [] == [] + e.key + e.value;
    } else {
      EntryBytesAppend(es[1..], e);
      assert (es + [e])[1..] == es[1..] + [e];
      assert EntryBytes(es + [e]) == es[0].key + es[0].value + (EntryBytes(es[1..]) + e.key + e.value);
    }
  }

  // ---------------------------------------------------------------------
  // The writer
  // ---------------------------------------------------------------------

  class CborWriter {
    var buf: seq<byte>

    constructor ()
      ensures buf == []
    {
      buf := [];
    }

    method WriteHead(major: nat, value: u64)
      requires major < 8
      modifies this
      ensures buf == old(buf) + Head(major, value)
    {
      Pow256Values();
      if value <= 23 {
        buf := buf + [0x20 * major + value];
      } else if value <= 0xFF {
        buf := buf + [0x20 * major + 24];
        buf := buf + ToBigEndian(value, 1);
      } else if value <= 0xFFFF {
        buf := buf + [0x20 * major + 25];
        buf := buf + ToBigEndian(value, 2);
      } else if value <= 0xFFFF_FFFF {
        buf := buf + [0x20 * major + 26];
        buf := buf + ToBigEndian(value, 4);
      } else {
        buf := buf + [0x20 * major + 27];
        buf := buf + ToBigEndian(value, 8);
      }
    }

    method WriteBytes(b: Blob)
      modifies this
      ensures buf == old(buf) + ByteString(b)
    {
      WriteHead(BYTES, |b|);
      buf := buf + b;
    }

    method WriteText(t: Text)
      modifies this
      ensures buf == old(buf) + TextString(t)
    {
      WriteHead(TEXT, |t|);
      buf := buf + t;
    }

    method WriteMap(es: Arr<MapEntry>)
      requires IsSortedByKey(es)
      modifies this
      ensures buf == old(buf) + EncodeMap(es)
    {
      WriteHead(MAP, |es|);
      ghost var start := buf;
      for i := 0 to |es|
        invariant buf == start + EntryBytes(es[..i])
      {
        buf := buf + es[i].key;
        buf := buf + es[i].value;
        EntryBytesAppend(es[..i], es[i]);
        assert es[..i + 1] == es[..i] + [es[i]];
      }
      assert es[..|es|] == es;
    }
  }

  // ---------------------------------------------------------------------
  // The reader
  // ---------------------------------------------------------------------

  /** A cursor over borrowed bytes. A failed read leaves the cursor somewhere in bounds;
      every caller gives up on the first failure. */
  class CborReader {
    const buf: Blob
    var pos: nat

    predicate Valid()
      reads this
    {
      pos <= |buf|
    }

    function Remaining(): seq<byte>
      requires Valid()
      reads this
    {
      buf[pos..]
    }

    /** Reading at the cursor agrees with a reader function on the unread bytes. */
    ghost predicate Reads<T>(spec: Result<(T, seq<byte>)>, r: Result<T>)
      reads this
    {
      && Valid()
      && match spec
         case Ok((v, t)) => r == Ok(v) && Remaining() == t
         case Err(e) => r == Err(e)
    }

    constructor (bytes: Blob)
      ensures Valid() && buf == bytes && pos == 0 && Remaining() == bytes
    {
      buf := bytes;
      pos := 0;
    }

    method ReadByte() returns (r: Result<byte>)
      requires Valid()
      modifies this
      ensures Valid()
      ensures old(pos) == |buf| ==> r == Err(CborDecode)
      ensures old(pos) < |buf| ==> r == Ok(buf[old(pos)]) && pos == old(pos) + 1
    {
      if pos >= |buf| {
        return Err(CborDecode);
      }
      r := Ok(buf[pos]);
      pos := pos + 1;
    }

    method TakeN(n: u64) returns (r: Result<Blob>)
      requires Valid()
      modifies this
      ensures Reads(ReadN(n, old(Remaining())), r)
      ensures r.Ok? ==> pos == old(pos) + n
    {
      // The 64-bit sum `pos + n` overflows only where the read is out of bounds anyway.
      if pos + n >= U64_LIMIT || pos + n > |buf| {
        return Err(CborDecode);
      }
      assert buf[pos..pos + n] == Remaining()[..n];
      r := Ok(buf[pos..pos + n]);
      pos := pos + n;
    }

    method TakeHead() returns (r: Result<(nat, u64)>)
      requires Valid()
      modifies this
      ensures Valid()
      ensures match ReadHead(old(Remaining()))
              case Ok((major, n, t)) => r == Ok((major, n)) && Remaining() == t
              case Err(e) => r == Err(e)
    {
      Pow256Values();
      var ib :- ReadByte();
      var major, info := ib / 0x20, ib % 0x20;
      if info <= 23 {
        return Ok((major, info));
      } else if info == 24 {
        ghost var rest := Remaining();
        var b :- ReadByte();
        assert rest[..1] == [b] && FromBigEndian([]) == 0;
        assert FromBigEndian([b]) == b;
        if b < 24 {
          return Err(CborNotCanonical);
        }
        return Ok((major, b));
      } else if info == 25 {
        var bs :- TakeN(2);
        var v := FromBigEndian(bs);
        if v <= 0xFF {
          return Err(CborNotCanonical);
        }
        return Ok((major, v));
      } else if info == 26 {
        var bs :- TakeN(4);
        var v := FromBigEndian(bs);
        if v <= 0xFFFF {
          return Err(CborNotCanonical);
        }
        return Ok((major, v));
      } else if info == 27 {
        var bs :- TakeN(8);
        var v := FromBigEndian(bs);
        if v <= 0xFFFF_FFFF {
          return Err(CborNotCanonical);
        }
        return Ok((major, v));
      } else if info == 31 {
        return Err(CborNotCanonical);
      }
      return Err(CborDecode);
    }

    method TakeU64() returns (r: Result<u64>)
      requires Valid()
      modifies this
      ensures Reads(ReadU64(old(Remaining())), r)
    {
      var head :- TakeHead();
      if head.0 != UINT {
        return Err(CborDecode);
      }
      return Ok(head.1);
    }

    method TakeBytes() returns (r: Result<Blob>)
      requires Valid()
      modifies this
      ensures Reads(ReadBytes(old(Remaining())), r)
    {
      var head :- TakeHead();
      if head.0 != BYTES {
        return Err(CborDecode);
      }
      r := TakeN(head.1);
    }

    method TakeText() returns (r: Result<Text>)
      requires Valid()
      modifies this
      ensures Reads(ReadText(old(Remaining())), r)
    {
      var head :- TakeHead();
      if head.0 != TEXT {
        return Err(CborDecode);
      }
      var b :- TakeN(head.1);
      if !IsUtf8(b) {
        return Err(CborDecode);
      }
      return Ok(b);
    }

    method TakeBytesOrNull() returns (r: Result<Option<Blob>>)
      requires Valid()
      modifies this
      ensures Reads(ReadBytesOrNull(old(Remaining())), r)
    {
      if pos >= |buf| {
        return Err(CborDecode);
      }
      if buf[pos] == SIMPLE_NULL {
        pos := pos + 1;
        return Ok(None);
      }
      var b :- TakeBytes();
      return Ok(Some(b));
    }

    method TakeOptionalText() returns (r: Result<Option<Text>>)
      requires Valid()
      modifies this
      ensures Reads(ReadOptionalText(old(Remaining())), r)
    {
      if pos >= |buf| {
        return Err(CborDecode);
      }
      if buf[pos] == SIMPLE_NULL {
        var _ :- TakeBytesOrNull();
        return Ok(None);
      }
      var t :- TakeText();
      return Ok(Some(t));
    }

    method TakeFixed(n: nat) returns (r: Result<Blob>)
      requires Valid()
      modifies this
      ensures Reads(ReadFixed(n, old(Remaining())), r)
    {
      var b :- TakeBytes();
      if |b| != n {
        return Err(BadFieldLength);
      }
      return Ok(b);
    }

    method TakeMapHeader() returns (r: Result<u64>)
      requires Valid()
      modifies this
      ensures Reads(ReadCount(MAP, MAX_CBOR_ENTRIES, old(Remaining())), r)
    {
      var head :- TakeHead();
      if head.0 != MAP {
        return Err(CborDecode);
      }
      if head.1 > MAX_CBOR_ENTRIES {
        return Err(CborDecode);
      }
      return Ok(head.1);
    }

    method TakeArrayHeader() returns (r: Result<u64>)
      requires Valid()
      modifies this
      ensures Reads(ReadCount(ARRAY, MAX_CBOR_ENTRIES, old(Remaining())), r)
    {
      var head :- TakeHead();
      if head.0 != ARRAY {
        return Err(CborDecode);
      }
      if head.1 > MAX_CBOR_ENTRIES {
        return Err(CborDecode);
      }
      return Ok(head.1);
    }
  }
}
