/** Byte strings: big-endian integers, bytewise order, UTF-8 text. */
module Bytes {

  type byte = b: int | 0 <= b < 0x100

  const U64_LIMIT: int := 0x1_0000_0000_0000_0000

  type u64 = n: int | 0 <= n < U64_LIMIT

  const U32_MAX := 0xFFFF_FFFF

  type u32 = n: nat | n <= U32_MAX

  function SaturatingIncrement(n: u32): u32 {
    if n == U32_MAX then n else n + 1
  }

  /** Anything whose length is a 64-bit usize. */
  type Arr<T> = s: seq<T> | |s| < U64_LIMIT

  type Blob = Arr<byte>

  /** A zeroed fixed-size array. */
  function Zeros(n: nat): (s: seq<byte>)
    ensures |s| == n
  {
    if n == 0 then [] else [0] + Zeros(n - 1)
  }

  // ---------------------------------------------------------------------
  // Big-endian integers
  // ---------------------------------------------------------------------

  function Pow256(k: nat): (p: nat)
    ensures p > 0
  {
    if k == 0 then 1 else 0x100 * Pow256(k - 1)
  }

  lemma Pow256Values()
    ensures Pow256(1) == 0x100
    ensures Pow256(2) == 0x1_0000
    ensures Pow256(4) == 0x1_0000_0000
    ensures Pow256(8) == U64_LIMIT
  {
    assert Pow256(1) == 0x100 * Pow256(0);
    assert Pow256(2) == 0x100 * Pow256(1);
    assert Pow256(3) == 0x100 * Pow256(2);
    assert Pow256(4) == 0x100 * Pow256(3);
    assert Pow256(5) == 0x100 * Pow256(4);
    assert Pow256(6) == 0x100 * Pow256(5);
    assert Pow256(7) == 0x100 * Pow256(6);
    assert Pow256(8) == 0x100 * Pow256(7);
  }

  function ToBigEndian(n: nat, k: nat): (s: seq<byte>)
    requires n < Pow256(k)
    ensures |s| == k
  {
    if k == 0 then [] else ToBigEndian(n / 0x100, k - 1) + [n % 0x100]
  }

  function FromBigEndian(s: seq<byte>): (n: nat)
    ensures n < Pow256(|s|)
  {
    if s == [] then 0 else 0x100 * FromBigEndian(s[..|s| - 1]) + s[|s| - 1]
  }

  lemma {:induction false} BigEndianRoundTrip(n: nat, k: nat)
    requires n < Pow256(k)
    ensures FromBigEndian(ToBigEndian(n, k)) == n
  {
    if k > 0 {
      var high := ToBigEndian(n / 0x100, k - 1);
      assert ToBigEndian(n, k)[..k - 1] == high;
      BigEndianRoundTrip(n / 0x100, k - 1);
    }
  }

  lemma {:induction false} BigEndianCanonical(s: seq<byte>)
    ensures ToBigEndian(FromBigEndian(s), |s|) == s
  {
    if s != [] {
      BigEndianCanonical(s[..|s| - 1]);
      assert s == s[..|s| - 1] + [s[|s| - 1]];
    }
  }

  lemma Assoc<T>(a: seq<T>, b: seq<T>, c: seq<T>)
    ensures (a + b) + c == a + (b + c)
  {
  }

  lemma SubsetSize<T>(a: set<T>, b: set<T>)
    requires a <= b
    ensures |a| <= |b|
  {
    assert b == a + (b - a);
  }

  lemma SameSize<T>(a: set<T>, b: set<T>)
    requires a <= b && |a| == |b|
    ensures a == b
  {
    assert b == a + (b - a);
  }

  // ---------------------------------------------------------------------
  // Bytewise lexicographic order (the order of Rust's `[u8]`)
  // ---------------------------------------------------------------------

  predicate Below(a: seq<byte>, b: seq<byte>) {
    if b == [] then false
    else if a == [] then true
    else a[0] < b[0] || (a[0] == b[0] && Below(a[1..], b[1..]))
  }

  lemma {:induction false} BelowTransitive(a: seq<byte>, b: seq<byte>, c: seq<byte>)
    requires Below(a, b) && Below(b, c)
    ensures Below(a, c)
  {
    if a != [] && a[0] == b[0] == c[0] {
      BelowTransitive(a[1..], b[1..], c[1..]);
    }
  }

  /** Exactly one of a < b, a == b, b < a holds. */
  lemma {:induction false} BelowTrichotomy(a: seq<byte>, b: seq<byte>)
    ensures Below(a, b) || a == b || Below(b, a)
    ensures !(Below(a, b) && a == b)
    ensures !(Below(a, b) && Below(b, a))
  {
    if a != [] && b != [] {
      BelowTrichotomy(a[1..], b[1..]);
      assert a == [a[0]] + a[1..] && b == [b[0]] + b[1..];
    }
  }

  lemma {:induction false} BelowCommonPrefix(p: seq<byte>, a: seq<byte>, b: seq<byte>)
    ensures Below(p + a, p + b) <==> Below(a, b)
  {
    if p == [] {
      assert p + a == a && p + b == b;
    } else {
      assert (p + a)[1..] == p[1..] + a && (p + b)[1..] == p[1..] + b;
      BelowCommonPrefix(p[1..], a, b);
    }
  }

  /** Between strings of one length the order is decided before anything appended. */
  lemma {:induction false} BelowSameLength(a: seq<byte>, b: seq<byte>, x: seq<byte>, y: seq<byte>)
    requires |a| == |b| && Below(a, b)
    ensures Below(a + x, b + y)
  {
    assert (a + x)[1..] == a[1..] + x && (b + y)[1..] == b[1..] + y;
    if a[0] == b[0] {
      BelowSameLength(a[1..], b[1..], x, y);
    }
  }

  lemma {:induction false} BigEndianOrder(n: nat, m: nat, k: nat)
    requires n < m < Pow256(k)
    ensures Below(ToBigEndian(n, k), ToBigEndian(m, k))
  {
    var a, b := ToBigEndian(n / 0x100, k - 1), ToBigEndian(m / 0x100, k - 1);
    if n / 0x100 == m / 0x100 {
      BelowCommonPrefix(a, [n % 0x100], [m % 0x100]);
    } else {
      BigEndianOrder(n / 0x100, m / 0x100, k - 1);
      BelowSameLength(a, b, [n % 0x100], [m % 0x100]);
    }
  }

  // ---------------------------------------------------------------------
  // UTF-8 (RFC 3629, section 4), as `core::str::from_utf8` accepts it
  // ---------------------------------------------------------------------

  predicate Tail(b: byte) {
    0x80 <= b <= 0xBF
  }

  /** Length of the well-formed character at the head of `s`, 0 if there is none. */
  function CharLength(s: seq<byte>): (n: nat)
    ensures n <= |s|
  {
    if |s| >= 1 && s[0] <= 0x7F then 1
    else if |s| >= 2 && 0xC2 <= s[0] <= 0xDF && Tail(s[1]) then 2
    else if |s| >= 3 && Tail(s[2])
      && ((s[0] == 0xE0 && 0xA0 <= s[1] <= 0xBF)
          || (0xE1 <= s[0] <= 0xEC && Tail(s[1]))
          || (s[0] == 0xED && 0x80 <= s[1] <= 0x9F)
          || (0xEE <= s[0] <= 0xEF && Tail(s[1]))) then 3
    else if |s| >= 4 && Tail(s[2]) && Tail(s[3])
      && ((s[0] == 0xF0 && 0x90 <= s[1] <= 0xBF)
          || (0xF1 <= s[0] <= 0xF3 && Tail(s[1]))
          || (s[0] == 0xF4 && 0x80 <= s[1] <= 0x8F)) then 4
    else 0
  }

  predicate IsUtf8(s: seq<byte>) {
    s == [] || (CharLength(s) > 0 && IsUtf8(s[CharLength(s)..]))
  }

  /** The contents of a Rust `String`. */
  type Text = s: seq<byte> | |s| < U64_LIMIT && IsUtf8(s)

  lemma {:induction false} AsciiIsUtf8(s: seq<byte>)
    requires forall i :: 0 <= i < |s| ==> s[i] <= 0x7F
    ensures IsUtf8(s)
  {
    if s != [] {
      AsciiIsUtf8(s[1..]);
    }
  }

  /** The bytes of an ASCII literal. */
  function Ascii(s: string): (t: Text)
    requires |s| < 0x100 && forall i :: 0 <= i < |s| ==> s[i] as int <= 0x7F
    ensures |t| == |s| && forall i :: 0 <= i < |s| ==> t[i] == s[i] as int
  {
    var bytes := seq(|s|, i requires 0 <= i < |s| => s[i] as int);
    AsciiIsUtf8(bytes);
    bytes
  }
}
