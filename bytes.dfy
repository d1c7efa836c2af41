/** The byte-level encodings that java.io.DataOutputStream performs: fixed-width
    big-endian integers (writeByte, writeShort, writeLong) and the length-prefixed
    "modified UTF-8" form of a Java string (writeUTF), each paired with a decoder
    that inverts it. */
module Bytes {
  import opened Wrappers

  newtype byte = x: int | 0 <= x < 256

  /** A UTF-16 code unit, the element type of a Java string. */
  type CodeUnit = x: int | 0 <= x < 0x1_0000

  function Pow256(n: nat): (p: nat)
    ensures p > 0
  {
    if n == 0 then 1 else 256 * Pow256(n - 1)
  }

  // ---------------------------------------------------------------------------
  // Big-endian integers

  /** The n bytes that DataOutputStream emits for v, most significant first:
      the low 8n bits of v in two's complement, so negative values and values
      too wide for the slot are truncated exactly as a Java cast would. */
  function BigEndian(v: int, n: nat): (r: seq<byte>)
    ensures |r| == n
    decreases n
  {
    if n == 0 then [] else BigEndian(v / 256, n - 1) + [(v % 256) as byte]
  }

  /** Reads a big-endian unsigned number back. */
  function Unsigned(bs: seq<byte>): (u: nat)
    ensures u < Pow256(|bs|)
  {
    if bs == [] then 0
    else
      var u := Unsigned(bs[..|bs| - 1]);
      assert u * 256 <= (Pow256(|bs| - 1) - 1) * 256;
      u * 256 + bs[|bs| - 1] as int
  }

  /** Reads eight big-endian bytes back as a Java long (two's complement). */
  function SignedLong(bs: seq<byte>): int
    requires |bs| == 8
  {
    var u := Unsigned(bs);
    if u >= 0x8000_0000_0000_0000 then u - 0x1_0000_0000_0000_0000 else u
  }

  lemma DivModUnique(v: int, m: int, a: int, x: int)
    requires m > 0 && v == m * a + x && 0 <= x < m
    ensures v / m == a && v % m == x
  {
    var a', x' := v / m, v % m;
    assert m * (a - a') == x' - x;
    SmallMultipleIsZero(m, a - a');
  }

  lemma SmallMultipleIsZero(m: int, k: int)
    requires m > 0 && -m < m * k < m
    ensures k == 0
  {
    if k > 0 {
      MultipleAtLeast(m, k);
    } else if k < 0 {
      MultipleAtLeast(m, -k);
    }
  }

  lemma MultipleAtLeast(m: int, k: int)
    requires m > 0 && k > 0
    ensures m * k >= m
  {
    assert m * k == m * (k - 1) + m;
  }

  lemma ModSplit(v: int, p: nat)
    requires p > 0
    ensures ((v / 256) % p) * 256 + v % 256 == v % (256 * p)
  {
    var q, r := v / 256, v % 256;
    var a, b := q / p, q % p;
    assert v == (256 * p) * a + (256 * b + r);
    DivModUnique(v, 256 * p, a, 256 * b + r);
  }

  /** Decoding the big-endian bytes of v gives v modulo 256^n. */
  lemma {:induction false} UnsignedBigEndian(v: int, n: nat)
    ensures Unsigned(BigEndian(v, n)) == v % Pow256(n)
    decreases n
  {
    if n == 0 {
    } else {
      var bs := BigEndian(v, n);
      assert bs[..n - 1] == BigEndian(v / 256, n - 1);
      UnsignedBigEndian(v / 256, n - 1);
      ModSplit(v, Pow256(n - 1));
    }
  }

  lemma Pow256Values()
    ensures Pow256(1) == 0x100 && Pow256(2) == 0x1_0000 && Pow256(8) == 0x1_0000_0000_0000_0000
  {
    assert Pow256(4) == 0x1_0000_0000;
  }

  /** writeShort followed by an unsigned read gives back any value that fits
      in sixteen unsigned bits. */
  lemma ShortRoundTrip(v: int)
    requires 0 <= v < 0x1_0000
    ensures Unsigned(BigEndian(v, 2)) == v
  {
    UnsignedBigEndian(v, 2);
    Pow256Values();
  }

  /** writeLong followed by readLong gives back every Java long. */
  lemma LongRoundTrip(v: int)
    requires -0x8000_0000_0000_0000 <= v < 0x8000_0000_0000_0000
    ensures SignedLong(BigEndian(v, 8)) == v
  {
    UnsignedBigEndian(v, 8);
    Pow256Values();
    if v < 0 {
      DivModUnique(v, 0x1_0000_0000_0000_0000, -1, v + 0x1_0000_0000_0000_0000);
    } else {
      DivModUnique(v, 0x1_0000_0000_0000_0000, 0, v);
    }
  }

  // ---------------------------------------------------------------------------
  // Java strings as UTF-16 code units

  function CodeUnitsOf(c: char): (r: seq<CodeUnit>)
    ensures 1 <= |r| <= 2
  {
    var x := c as int;
    if x < 0x1_0000 then [x]
    else [0xD800 + (x - 0x1_0000) / 0x400, 0xDC00 + (x - 0x1_0000) % 0x400]
  }

  /** The UTF-16 form in which the JVM holds a string: one code unit per
      character of the basic plane, a surrogate pair for every other one. */
  function Utf16(s: string): (r: seq<CodeUnit>)
    ensures |s| <= |r| <= 2 * |s|
  {
    if s == [] then [] else CodeUnitsOf(s[0]) + Utf16(s[1..])
  }

  predicate IsHighSurrogate(u: int) { 0xD800 <= u <= 0xDBFF }
  predicate IsLowSurrogate(u: int) { 0xDC00 <= u <= 0xDFFF }

  /** Reassembles characters from UTF-16; None for a lone surrogate, which no
      Dafny string can hold. */
  function FromUtf16(us: seq<CodeUnit>): Option<string>
  {
    if us == [] then Some([])
    else if IsHighSurrogate(us[0]) then
      if |us| >= 2 && IsLowSurrogate(us[1]) then
        match FromUtf16(us[2..])
        case None => None
        case Some(rest) =>
          Some([(0x1_0000 + (us[0] as int - 0xD800) * 0x400 + (us[1] as int - 0xDC00)) as char] + rest)
      else None
    else if IsLowSurrogate(us[0]) then None
    else
      match FromUtf16(us[1..])
      case None => None
      case Some(rest) => Some([us[0] as char] + rest)
  }

  lemma {:induction false} Utf16RoundTrip(s: string)
    ensures FromUtf16(Utf16(s)) == Some(s)
  {
    if s != [] {
      var x := s[0] as int;
      var us := Utf16(s);
      Utf16RoundTrip(s[1..]);
      if x < 0x1_0000 {
        assert !IsHighSurrogate(x) && !IsLowSurrogate(x);
        assert us[1..] == Utf16(s[1..]);
        assert us[0] as char == s[0];
        assert FromUtf16(us) == Some([s[0]] + s[1..]);
        assert [s[0]] + s[1..] == s;
      } else {
        var hi, lo := (x - 0x1_0000) / 0x400, (x - 0x1_0000) % 0x400;
        assert us[2..] == Utf16(s[1..]);
        assert 0x1_0000 + hi * 0x400 + lo == x;
        assert [s[0]] + s[1..] == s;
      }
    }
  }

  // ---------------------------------------------------------------------------
  // Modified UTF-8 (DataOutputStream.writeUTF without its length prefix)

  /** One code unit in modified UTF-8: 1 to 0x7F as itself, 0 and up to 0x7FF
      in two bytes, the rest of the plane in three. */
  function UnitBytes(u: CodeUnit): (r: seq<byte>)
    ensures 1 <= |r| <= 3
  {
    if 0x01 <= u <= 0x7F then [u as byte]
    else if u <= 0x7FF then [(0xC0 + u / 64) as byte, (0x80 + u % 64) as byte]
    else [(0xE0 + u / 4096) as byte, (0x80 + (u / 64) % 64) as byte, (0x80 + u % 64) as byte]
  }

  function ModifiedUtf8(us: seq<CodeUnit>): (r: seq<byte>)
    ensures |us| <= |r| <= 3 * |us|
  {
    if us == [] then [] else UnitBytes(us[0]) + ModifiedUtf8(us[1..])
  }

  predicate IsContinuation(b: byte) { 0x80 <= b <= 0xBF }

  /** Decodes modified UTF-8 (the reading half, as DataInputStream.readUTF
      does it once the length is known). */
  function FromModifiedUtf8(bs: seq<byte>): Option<seq<CodeUnit>>
  {
    if bs == [] then Some([])
    else if 0x01 <= bs[0] <= 0x7F then
      match FromModifiedUtf8(bs[1..])
      case None => None
      case Some(rest) => Some([bs[0] as int] + rest)
    else if 0xC0 <= bs[0] <= 0xDF && |bs| >= 2 && IsContinuation(bs[1]) then
      match FromModifiedUtf8(bs[2..])
      case None => None
      case Some(rest) => Some([(bs[0] as int - 0xC0) * 64 + (bs[1] as int - 0x80)] + rest)
    else if 0xE0 <= bs[0] <= 0xEF && |bs| >= 3 && IsContinuation(bs[1]) && IsContinuation(bs[2]) then
      match FromModifiedUtf8(bs[3..])
      case None => None
      case Some(rest) =>
        Some([(bs[0] as int - 0xE0) * 4096 + (bs[1] as int - 0x80) * 64 + (bs[2] as int - 0x80)] + rest)
    else None
  }

  lemma UnitBytesDecode(u: CodeUnit, rest: seq<byte>, tail: seq<CodeUnit>)
    requires FromModifiedUtf8(rest) == Some(tail)
    ensures FromModifiedUtf8(UnitBytes(u) + rest) == Some([u] + tail)
  {
    var bs := UnitBytes(u) + rest;
    if 0x01 <= u <= 0x7F {
      assert bs[1..] == rest;
    } else if u <= 0x7FF {
      assert bs[2..] == rest;
      assert (u / 64) * 64 + u % 64 == u;
    } else {
      assert bs[3..] == rest;
      assert (u / 4096) * 4096 + ((u / 64) % 64) * 64 + u % 64 == u;
    }
  }

  lemma {:induction false} ModifiedUtf8RoundTrip(us: seq<CodeUnit>)
    ensures FromModifiedUtf8(ModifiedUtf8(us)) == Some(us)
  {
    if us != [] {
      ModifiedUtf8RoundTrip(us[1..]);
      UnitBytesDecode(us[0], ModifiedUtf8(us[1..]), us[1..]);
      assert [us[0]] + us[1..] == us;
    }
  }

  /** The modified UTF-8 bytes of a Java string. */
  function Utf(s: string): seq<byte>
  {
    ModifiedUtf8(Utf16(s))
  }

  /** A string is recovered from its modified UTF-8 bytes. */
  lemma UtfRoundTrip(s: string)
    ensures (match FromModifiedUtf8(Utf(s)) case None => None case Some(us) => FromUtf16(us)) == Some(s)
  {
    ModifiedUtf8RoundTrip(Utf16(s));
    Utf16RoundTrip(s);
  }

  predicate IsAscii(s: string)
  {
    forall i | 0 <= i < |s| :: 0x01 <= s[i] as int <= 0x7F
  }

  /** A name of plain ASCII characters takes one byte per character. */
  lemma {:induction false} AsciiUtfLength(s: string)
    requires IsAscii(s)
    ensures |Utf(s)| == |s|
  {
    if s != [] {
      assert IsAscii(s[1..]) by {
        forall i | 0 <= i < |s[1..]| ensures 0x01 <= s[1..][i] as int <= 0x7F {
          assert s[1..][i] == s[i + 1];
        }
      }
      AsciiUtfLength(s[1..]);
      assert Utf16(s) == [s[0] as int] + Utf16(s[1..]);
      assert Utf16(s)[1..] == Utf16(s[1..]);
    }
  }
}
