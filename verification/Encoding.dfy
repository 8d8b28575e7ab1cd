/** Bytes, text, and the encodings that are authenticated: the input of an
    application's challenge proof (app/identity.rs) and the message of an
    application signature (app/services.rs). */
module Encoding {
  import opened Basics

  newtype byte = x: int | 0 <= x < 256
  type Bytes = seq<byte>

  /** Little-endian bytes of the low `width` bytes of `v` (Rust's `to_le_bytes`
      after an `as` cast, which truncates). */
  function LittleEndian(v: nat, width: nat): (r: Bytes)
    ensures |r| == width
  {
    if width == 0 then [] else [(v % 256) as byte] + LittleEndian(v / 256, width - 1)
  }

  function Pow256(width: nat): nat {
    if width == 0 then 1 else 256 * Pow256(width - 1)
  }

  lemma {:induction false} LittleEndianInjective(a: nat, b: nat, width: nat)
    requires a < Pow256(width) && b < Pow256(width)
    requires LittleEndian(a, width) == LittleEndian(b, width)
    ensures a == b
  {
    if width > 0 {
      assert LittleEndian(a, width)[0] == LittleEndian(b, width)[0];
      assert LittleEndian(a, width)[1..] == LittleEndian(a / 256, width - 1);
      assert LittleEndian(b, width)[1..] == LittleEndian(b / 256, width - 1);
      LittleEndianInjective(a / 256, b / 256, width - 1);
    }
  }

  lemma Widths()
    ensures Pow256(4) == U32_MAX + 1
    ensures Pow256(8) == U64_MAX + 1
  {
    assert Pow256(1) == 256;
    assert Pow256(2) == 0x1_0000;
    assert Pow256(3) == 0x100_0000;
    assert Pow256(5) == 0x100_0000_0000;
    assert Pow256(6) == 0x1_0000_0000_0000;
    assert Pow256(7) == 0x100_0000_0000_0000;
  }

  lemma Fixed4(a: nat, b: nat)
    requires a <= U32_MAX && b <= U32_MAX && LittleEndian(a, 4) == LittleEndian(b, 4)
    ensures a == b
  {
    Widths();
    LittleEndianInjective(a, b, 4);
  }

  lemma Fixed8(a: nat, b: nat)
    requires a <= U64_MAX && b <= U64_MAX && LittleEndian(a, 8) == LittleEndian(b, 8)
    ensures a == b
  {
    Widths();
    LittleEndianInjective(a, b, 8);
  }

  /** Equal concatenations with first parts of one length have equal parts. */
  lemma SplitAt(a: Bytes, s: Bytes, b: Bytes, t: Bytes)
    requires a + s == b + t && |a| == |b|
    ensures a == b && s == t
  {
    assert a == (a + s)[..|a|] && b == (b + t)[..|b|];
    assert s == (a + s)[|a|..] && t == (b + t)[|b|..];
  }

  /** A field preceded by its 32-bit length can be read back. */
  lemma SplitPrefixed(a: Bytes, s: Bytes, b: Bytes, t: Bytes)
    requires |a| <= U32_MAX && |b| <= U32_MAX
    requires LittleEndian(|a|, 4) + (a + s) == LittleEndian(|b|, 4) + (b + t)
    ensures a == b && s == t
  {
    SplitAt(LittleEndian(|a|, 4), a + s, LittleEndian(|b|, 4), b + t);
    Fixed4(|a|, |b|);
    SplitAt(a, s, b, t);
  }

  // ---- zero-terminated lists ----

  function Terminated(names: seq<Bytes>): Bytes {
    if names == [] then [] else names[0] + [0] + Terminated(names[1..])
  }

  lemma {:induction false} TerminatedInjective(a: seq<Bytes>, b: seq<Bytes>)
    requires forall n: Bytes :: n in a || n in b ==> 0 !in n
    requires Terminated(a) == Terminated(b)
    ensures a == b
  {
    if a == [] || b == [] {
      assert |Terminated(a)| == 0 <==> a == [];
      assert |Terminated(b)| == 0 <==> b == [];
    } else {
      SplitAtMark(0, a[0], Terminated(a[1..]), b[0], Terminated(b[1..]));
      TerminatedInjective(a[1..], b[1..]);
      assert a == [a[0]] + a[1..] && b == [b[0]] + b[1..];
    }
  }

  lemma {:induction false} TerminatedAppend(names: seq<Bytes>, n: Bytes)
    ensures Terminated(names + [n]) == Terminated(names) + (n + [0])
  {
    if names == [] {
      assert [n][1..] == [] && [] + [n] == [n];
    } else {
      TerminatedAppend(names[1..], n);
      assert (names + [n])[1..] == names[1..] + [n];
    }
  }

  // ---- concatenation ----

  function Join(pieces: seq<Bytes>): Bytes {
    if pieces == [] then [] else pieces[0] + Join(pieces[1..])
  }

  lemma {:induction false} JoinAppend(pieces: seq<Bytes>, piece: Bytes)
    ensures Join(pieces + [piece]) == Join(pieces) + piece
  {
    if pieces == [] {
      assert [] + [piece] == [piece] && [piece][1..] == [];
    } else {
      JoinAppend(pieces[1..], piece);
      assert (pieces + [piece])[1..] == pieces[1..] + [piece];
    }
  }

  // ---- text ----

  /** Unicode's White_Space characters. */
  predicate IsSpace(c: char) {
    var n := c as int;
    || 0x09 <= n <= 0x0D || n == 0x20 || n == 0x85 || n == 0xA0 || n == 0x1680 || 0x2000 <= n <= 0x200A
    || n == 0x2028 || n == 0x2029 || n == 0x202F || n == 0x205F || n == 0x3000
  }

  /** The UTF-8 form of one character. */
  function Utf8Char(c: char): Bytes {
    var n := c as int;
    if n < 0x80 then [n as byte]
    else if n < 0x800 then [(0xC0 + n / 64) as byte, (0x80 + n % 64) as byte]
    else if n < 0x1_0000 then [(0xE0 + n / 4096) as byte, (0x80 + n / 64 % 64) as byte, (0x80 + n % 64) as byte]
    else [(0xF0 + n / 262_144) as byte, (0x80 + n / 4096 % 64) as byte, (0x80 + n / 64 % 64) as byte,
          (0x80 + n % 64) as byte]
  }

  function Utf8(s: string): Bytes {
    if s == "" then [] else Utf8Char(s[0]) + Utf8(s[1..])
  }
}
