/** What `IsUtf8` accepts, against the encoding of Unicode scalar values (RFC 3629, section 3). */
module Utf8 {
  import opened Bytes

  /** A code point that is not a surrogate. */
  predicate IsScalar(c: nat) {
    c < 0xD800 || 0xE000 <= c < 0x11_0000
  }

  function Encoding(c: nat): (s: seq<byte>)
    requires IsScalar(c)
    ensures s != []
  {
    if c < 0x80 then [c]
    else if c < 0x800 then [0xC0 + c / 0x40, 0x80 + c % 0x40]
    else if c < 0x1_0000 then [0xE0 + c / 0x1000, 0x80 + c / 0x40 % 0x40, 0x80 + c % 0x40]
    else [0xF0 + c / 0x4_0000, 0x80 + c / 0x1000 % 0x40, 0x80 + c / 0x40 % 0x40, 0x80 + c % 0x40]
  }

  ghost predicate Scalars(cs: seq<nat>) {
    forall c :: c in cs ==> IsScalar(c)
  }

  function Encodings(cs: seq<nat>): seq<byte>
    requires Scalars(cs)
  {
    if cs == [] then [] else Encoding(cs[0]) + Encodings(cs[1..])
  }

  /** What a byte adds to its mark. */
  function Over(b: byte, mark: int): int {
    b - mark
  }

  /** The scalar value a well-formed character stands for. */
  function Decoding(s: seq<byte>): nat
    requires CharLength(s) > 0
  {
    var n := CharLength(s);
    if n == 1 then s[0]
    else if n == 2 then Over(s[0], 0xC0) * 0x40 + Over(s[1], 0x80)
    else if n == 3 then Over(s[0], 0xE0) * 0x1000 + Over(s[1], 0x80) * 0x40 + Over(s[2], 0x80)
    else Over(s[0], 0xF0) * 0x4_0000 + Over(s[1], 0x80) * 0x1000 + Over(s[2], 0x80) * 0x40 + Over(s[3], 0x80)
  }

  lemma Sextet(c: nat, high: nat, low: nat)
    requires c == high * 0x40 + low && low < 0x40
    ensures c / 0x40 == high && c % 0x40 == low
  {
  }

  lemma Sextets(c: nat)
    ensures c / 0x1000 == c / 0x40 / 0x40 && c / 0x4_0000 == c / 0x40 / 0x40 / 0x40
  {
  }

  lemma LongDecodingEncodes(s: seq<byte>)
    requires CharLength(s) == 4
    ensures IsScalar(Decoding(s)) && Encoding(Decoding(s)) == s[..4]
  {
    var c := Decoding(s);
    Sextets(c);
    var top := Over(s[0], 0xF0) * 0x40 + Over(s[1], 0x80);
    var high := top * 0x40 + Over(s[2], 0x80);
    Sextet(c, high, Over(s[3], 0x80));
    Sextet(high, top, Over(s[2], 0x80));
    Sextet(top, Over(s[0], 0xF0), Over(s[1], 0x80));
  }

  lemma DecodingEncodes(s: seq<byte>)
    requires CharLength(s) > 0
    ensures IsScalar(Decoding(s)) && Encoding(Decoding(s)) == s[..CharLength(s)]
  {
    var c, n := Decoding(s), CharLength(s);
    if n == 2 {
      Sextet(c, Over(s[0], 0xC0), Over(s[1], 0x80));
    } else if n == 3 {
      Sextets(c);
      var high := Over(s[0], 0xE0) * 0x40 + Over(s[1], 0x80);
      Sextet(c, high, Over(s[2], 0x80));
      Sextet(high, Over(s[0], 0xE0), Over(s[1], 0x80));
    } else if n == 4 {
      LongDecodingEncodes(s);
    }
  }

  lemma EncodingIsChar(c: nat, t: seq<byte>)
    requires IsScalar(c)
    ensures CharLength(Encoding(c) + t) == |Encoding(c)|
  {
    var s := Encoding(c) + t;
    if 0x800 <= c < 0x1_0000 {
      assert s[..3] == Encoding(c);
      assert c / 0x1000 == c / 0x40 / 0x40;
    } else if c >= 0x1_0000 {
      assert s[..4] == Encoding(c);
      assert c / 0x1000 == c / 0x40 / 0x40 && c / 0x4_0000 == c / 0x1000 / 0x40;
    }
  }

  lemma {:induction false} EncodingsAreUtf8(cs: seq<nat>)
    requires Scalars(cs)
    ensures IsUtf8(Encodings(cs))
  {
    hide CharLength, Encoding;
    if cs != [] {
      var t := Encodings(cs[1..]);
      EncodingIsChar(cs[0], t);
      EncodingsAreUtf8(cs[1..]);
      assert (Encoding(cs[0]) + t)[|Encoding(cs[0])|..] == t;
    }
  }

  lemma {:induction false} Utf8Encodes(s: seq<byte>) returns (cs: seq<nat>)
    requires IsUtf8(s)
    ensures Scalars(cs) && Encodings(cs) == s
  {
    hide CharLength, Encoding, Decoding, IsScalar;
    if s == [] {
      cs := [];
    } else {
      var n := CharLength(s);
      DecodingEncodes(s);
      var rest := Utf8Encodes(s[n..]);
      cs := [Decoding(s)] + rest;
      assert cs[1..] == rest;
      assert s == s[..n] + s[n..];
    }
  }

  /** A text is accepted exactly when it encodes some scalar values, one after another. */
  lemma Utf8Exactly(s: seq<byte>)
    ensures IsUtf8(s) <==> exists cs :: Scalars(cs) && Encodings(cs) == s
  {
    hide Encodings, Scalars;
    if IsUtf8(s) {
      var cs := Utf8Encodes(s);
    }
    forall cs | Scalars(cs) && Encodings(cs) == s ensures IsUtf8(s) {
      EncodingsAreUtf8(cs);
    }
  }
}
