/** Bytes, fixed-width integers and the two encodings the frame format needs: big-endian integers
    and UTF-8 text. Rust's integer types are ranges of `int`, so every wrap-around is written out. */
module Bytes {
  type byte = x: int | 0 <= x < 0x100
  type bytes = seq<byte>

  type uint16 = x: int | 0 <= x < 0x1_0000
  type uint32 = x: int | 0 <= x < 0x1_0000_0000
  type int8 = x: int | -0x80 <= x < 0x80
  type int16 = x: int | -0x8000 <= x < 0x8000
  type int32 = x: int | -0x8000_0000 <= x < 0x8000_0000
  type int64 = x: int | -0x8000_0000_0000_0000 <= x < 0x8000_0000_0000_0000

  datatype Option<+T> = None | Some(value: T)
  datatype Result<+T, +E> = Ok(value: T) | Err(error: E)

  // Two's complement, `modulus` being two to the width.

  function Unsigned(x: int, modulus: int): (u: int)
    requires modulus > 0 && -modulus <= 2 * x < modulus
    ensures 0 <= u < modulus && (u == x || u == x + modulus)
  {
    if x < 0 then x + modulus else x
  }

  function Signed(u: int, modulus: int): (x: int)
    requires modulus > 0 && 0 <= u < modulus
    ensures -modulus <= 2 * x < modulus && (x == u || x == u - modulus)
  {
    if 2 * u < modulus then u else u - modulus
  }

  /** The value of type `i32` congruent to x modulo 2^32: what wrapping arithmetic leaves. */
  function Wrap32(x: int): (w: int32)
    ensures (w - x) % 0x1_0000_0000 == 0
  {
    Signed(x % 0x1_0000_0000, 0x1_0000_0000)
  }

  lemma Wrap32Unique(x: int, w: int32)
    requires (w - x) % 0x1_0000_0000 == 0
    ensures w == Wrap32(x)
  {
    var q, q' := (w - x) / 0x1_0000_0000, (Wrap32(x) - x) / 0x1_0000_0000;
    assert w - Wrap32(x) == 0x1_0000_0000 * (q - q');
  }

  // Big-endian integers.

  function Be16(n: uint16): (b: bytes)
    ensures |b| == 2
  {
    [n / 0x100, n % 0x100]
  }

  function ReadBe16(b: bytes): uint16
    requires |b| >= 2
  {
    (b[0] as int) * 0x100 + b[1]
  }

  function Be32(n: uint32): (b: bytes)
    ensures |b| == 4
  {
    Be16(n / 0x1_0000) + Be16(n % 0x1_0000)
  }

  function ReadBe32(b: bytes): uint32
    requires |b| >= 4
  {
    0x1_0000 * ReadBe16(b) + ReadBe16(b[2..])
  }

  function Be64(n: int): (b: bytes)
    requires 0 <= n < 0x1_0000_0000_0000_0000
    ensures |b| == 8
  {
    Be32(n / 0x1_0000_0000) + Be32(n % 0x1_0000_0000)
  }

  function ReadBe64(b: bytes): (n: int)
    requires |b| >= 8
    ensures 0 <= n < 0x1_0000_0000_0000_0000
  {
    0x1_0000_0000 * ReadBe32(b) + ReadBe32(b[4..])
  }

  lemma Be16RoundTrip(n: uint16, t: bytes)
    ensures ReadBe16(Be16(n) + t) == n
  {
  }

  /** Most significant byte first. */
  lemma ReadBe32Bytes(b: bytes)
    requires |b| >= 4
    ensures ReadBe32(b) ==
            0x100_0000 * (b[0] as int) + 0x1_0000 * (b[1] as int) + 0x100 * (b[2] as int) + b[3]
  {
  }

  /** All eight bytes, most significant first. */
  lemma ReadBe64Bytes(b: bytes)
    requires |b| >= 8
    ensures ReadBe64(b) ==
            0x100_0000_0000_0000 * (b[0] as int) + 0x1_0000_0000_0000 * (b[1] as int)
            + 0x100_0000_0000 * (b[2] as int) + 0x1_0000_0000 * (b[3] as int)
            + 0x100_0000 * (b[4] as int) + 0x1_0000 * (b[5] as int) + 0x100 * (b[6] as int) + b[7]
  {
    hide ReadBe32;
    ReadBe32Bytes(b);
    ReadBe32Bytes(b[4..]);
  }

  lemma Be32RoundTrip(n: uint32, t: bytes)
    ensures ReadBe32(Be32(n) + t) == n
  {
    var hi, lo := n / 0x1_0000, n % 0x1_0000;
    assert Be32(n) + t == Be16(hi) + (Be16(lo) + t);
    assert (Be16(hi) + (Be16(lo) + t))[2..] == Be16(lo) + t;
    Be16RoundTrip(hi, Be16(lo) + t);
    Be16RoundTrip(lo, t);
  }

  lemma Be64RoundTrip(n: int, t: bytes)
    requires 0 <= n < 0x1_0000_0000_0000_0000
    ensures ReadBe64(Be64(n) + t) == n
  {
    var hi, lo := n / 0x1_0000_0000, n % 0x1_0000_0000;
    assert Be64(n) + t == Be32(hi) + (Be32(lo) + t);
    assert (Be32(hi) + (Be32(lo) + t))[4..] == Be32(lo) + t;
    Be32RoundTrip(hi, Be32(lo) + t);
    Be32RoundTrip(lo, t);
  }

  lemma Be16Inverse(b: bytes)
    requires |b| >= 2
    ensures Be16(ReadBe16(b)) == b[..2]
  {
  }

  lemma Be32Inverse(b: bytes)
    requires |b| >= 4
    ensures Be32(ReadBe32(b)) == b[..4]
  {
    hide Be16, ReadBe16;
    Be16Inverse(b);
    Be16Inverse(b[2..]);
    assert b[..4] == b[..2] + b[2..][..2];
  }

  lemma Be64Inverse(b: bytes)
    requires |b| >= 8
    ensures Be64(ReadBe64(b)) == b[..8]
  {
    hide Be32, ReadBe32;
    Be32Inverse(b);
    Be32Inverse(b[4..]);
    assert b[..8] == b[..4] + b[4..][..4];
  }

  // Text.

  /** The bytes of a string of ASCII characters. */
  function Ascii(s: string): (b: bytes)
    ensures |b| == |s|
  {
    seq(|s|, i requires 0 <= i < |s| => s[i] as int % 0x80)
  }

  /** The bytes b are the characters of s. */
  predicate Spells(b: bytes, s: string) {
    |b| == |s| && forall i | 0 <= i < |s| :: b[i] == s[i] as int
  }

  /** ASCII characters are their own bytes, so a text is spelled by no other bytes. */
  lemma AsciiSpells(s: string, b: bytes)
    requires forall i | 0 <= i < |s| :: s[i] as int < 0x80
    ensures Spells(b, s) <==> b == Ascii(s)
  {
  }

  predicate Continues(b: bytes, n: nat)
    requires n <= |b|
  {
    forall i | 0 <= i < n :: 0x80 <= b[i] < 0xC0
  }

  /** The length of the well-formed UTF-8 sequence that opens a non-empty b, or 0. */
  function LeadingChar(b: bytes): (n: nat)
    requires |b| > 0
    ensures n <= |b|
  {
    if b[0] < 0x80 then 1
    else if 0xC2 <= b[0] < 0xE0 && |b| >= 2 && Continues(b[1..], 1) then 2
    else if 0xE0 <= b[0] < 0xF0 && |b| >= 3 && Continues(b[1..], 2)
            && (b[0] == 0xE0 ==> b[1] >= 0xA0) && (b[0] == 0xED ==> b[1] < 0xA0) then 3
    else if 0xF0 <= b[0] < 0xF5 && |b| >= 4 && Continues(b[1..], 3)
            && (b[0] == 0xF0 ==> b[1] >= 0x90) && (b[0] == 0xF4 ==> b[1] < 0x90) then 4
    else 0
  }

  predicate IsUtf8(b: bytes)
    decreases |b|
  {
    b == [] || (LeadingChar(b) > 0 && IsUtf8(b[LeadingChar(b)..]))
  }

  /** A Unicode scalar value. */
  type scalar = c: int | 0 <= c < 0xD800 || 0xE000 <= c < 0x11_0000

  /** The UTF-8 encoding of one character, as the Unicode standard has it. */
  function Utf8(c: scalar): (b: bytes)
    ensures 1 <= |b| <= 4
  {
    if c < 0x80 then [c]
    else if c < 0x800 then [0xC0 + c / 0x40, 0x80 + c % 0x40]
    else if c < 0x1_0000 then [0xE0 + c / 0x1000, 0x80 + c / 0x40 % 0x40, 0x80 + c % 0x40]
    else [0xF0 + c / 0x4_0000, 0x80 + c / 0x1000 % 0x40, 0x80 + c / 0x40 % 0x40, 0x80 + c % 0x40]
  }

  function Utf8All(cs: seq<scalar>): bytes {
    if cs == [] then [] else Utf8(cs[0]) + Utf8All(cs[1..])
  }

  lemma LeadingCharOfEncoded(c: scalar, t: bytes)
    ensures LeadingChar(Utf8(c) + t) == |Utf8(c)|
  {
    var u, b := Utf8(c), Utf8(c) + t;
    assert forall i | 0 <= i < |u| :: b[i] == u[i];
    assert forall i | 0 <= i < |u| - 1 :: b[1..][i] == u[i + 1];
  }

  lemma SixBits(q: nat, r: nat)
    requires r < 0x40
    ensures (0x40 * q + r) / 0x40 == q && (0x40 * q + r) % 0x40 == r
  {
  }

  lemma Utf8OfTwo(x: nat, y: nat)
    requires 2 <= x < 0x20 && y < 0x40
    ensures 0x40 * x + y < 0x800 && Utf8(0x40 * x + y) == [0xC0 + x, 0x80 + y]
  {
    SixBits(x, y);
  }

  lemma Utf8OfThree(x: nat, y: nat, z: nat)
    requires x < 0x10 && y < 0x40 && z < 0x40 && (x == 0 ==> y >= 0x20) && (x == 0xD ==> y < 0x20)
    ensures var c := 0x1000 * x + 0x40 * y + z;
            (c < 0xD800 || 0xE000 <= c < 0x1_0000) && Utf8(c) == [0xE0 + x, 0x80 + y, 0x80 + z]
  {
    var c := 0x1000 * x + 0x40 * y + z;
    assert c == 0x40 * (0x40 * x + y) + z;
    SixBits(0x40 * x + y, z);
    SixBits(x, y);
    assert c / 0x1000 == x;
  }

  lemma Utf8OfFour(w: nat, x: nat, y: nat, z: nat)
    requires w < 5 && x < 0x40 && y < 0x40 && z < 0x40 && (w == 0 ==> x >= 0x10) && (w == 4 ==> x < 0x10)
    ensures var c := 0x4_0000 * w + 0x1000 * x + 0x40 * y + z;
            0x1_0000 <= c < 0x11_0000 && Utf8(c) == [0xF0 + w, 0x80 + x, 0x80 + y, 0x80 + z]
  {
    var c := 0x4_0000 * w + 0x1000 * x + 0x40 * y + z;
    assert c == 0x40 * (0x40 * (0x40 * w + x) + y) + z;
    SixBits(0x40 * (0x40 * w + x) + y, z);
    SixBits(0x40 * w + x, y);
    SixBits(w, x);
    assert c / 0x1000 == 0x40 * w + x;
    assert c / 0x4_0000 == w;
  }

  lemma LeadingCharDecodes(b: bytes) returns (c: scalar)
    requires b != [] && LeadingChar(b) > 0
    ensures Utf8(c) == b[..LeadingChar(b)]
  {
    hide Utf8;
    var n, lead: int := LeadingChar(b), b[0];
    assert forall i | 1 <= i < n :: b[1..][i - 1] == b[i];
    if n == 1 {
      c := lead;
      assert Utf8(c) == [lead] by { Utf8OfOne(lead); }
    } else if n == 2 {
      var x, y := lead - 0xC0, b[1] as int - 0x80;
      Utf8OfTwo(x, y);
      c := 0x40 * x + y;
    } else if n == 3 {
      var x, y, z := lead - 0xE0, b[1] as int - 0x80, b[2] as int - 0x80;
      Utf8OfThree(x, y, z);
      c := 0x1000 * x + 0x40 * y + z;
    } else {
      var w, x, y, z := lead - 0xF0, b[1] as int - 0x80, b[2] as int - 0x80, b[3] as int - 0x80;
      Utf8OfFour(w, x, y, z);
      c := 0x4_0000 * w + 0x1000 * x + 0x40 * y + z;
    }
  }

  lemma Utf8OfOne(x: nat)
    requires x < 0x80
    ensures Utf8(x) == [x]
  {
  }

  /** The check accepts exactly the encodings of sequences of characters. */
  lemma Utf8ExactlyWhen(b: bytes)
    ensures IsUtf8(b) <==> exists cs :: Utf8All(cs) == b
  {
    if IsUtf8(b) {
      var cs := Utf8Decodes(b);
    }
    forall cs | Utf8All(cs) == b
      ensures IsUtf8(b)
    {
      Utf8Accepts(cs);
    }
  }

  lemma {:induction false} Utf8Decodes(b: bytes) returns (cs: seq<scalar>)
    requires IsUtf8(b)
    ensures Utf8All(cs) == b
    decreases |b|
  {
    hide LeadingChar, Utf8;
    if b == [] {
      cs := [];
    } else {
      var c := LeadingCharDecodes(b);
      var rest := Utf8Decodes(b[LeadingChar(b)..]);
      cs := [c] + rest;
      assert cs[1..] == rest;
    }
  }

  lemma {:induction false} Utf8Accepts(cs: seq<scalar>)
    ensures IsUtf8(Utf8All(cs))
  {
    hide LeadingChar, Utf8;
    if cs != [] {
      var u, t := Utf8(cs[0]), Utf8All(cs[1..]);
      Utf8Accepts(cs[1..]);
      LeadingCharOfEncoded(cs[0], t);
      assert (u + t)[|u|..] == t;
    }
  }

  lemma {:induction false} AsciiIsUtf8(b: bytes)
    requires forall i | 0 <= i < |b| :: b[i] < 0x80
    ensures IsUtf8(b)
    decreases |b|
  {
    if b != [] {
      AsciiIsUtf8(b[1..]);
    }
  }

  // CRC-32 as zlib computes it: reflected, polynomial 0xEDB88320, complemented at both ends.

  function CrcBits(crc: bv32, n: nat): bv32
    decreases n
  {
    if n == 0 then crc
    else CrcBits(if crc & 1 == 1 then (crc >> 1) ^ 0xEDB8_8320 else crc >> 1, n - 1)
  }

  function CrcBytes(crc: bv32, b: bytes): bv32
    decreases |b|
  {
    if b == [] then crc else CrcBytes(CrcBits(crc ^ (b[0] as bv32), 8), b[1..])
  }

  function Crc32(b: bytes): uint32 {
    (CrcBytes(0xFFFF_FFFF, b) ^ 0xFFFF_FFFF) as int
  }

  lemma CrcStep(crc: bv32, d: byte, t: bytes)
    ensures CrcBytes(crc, [d] + t) == CrcBytes(CrcBits(crc ^ (d as bv32), 8), t)
  {
    hide CrcBits;
    assert ([d] + t)[1..] == t;
  }

  /** The published check value of this CRC: what it makes of the digits from 1 to 9. */
  lemma CrcCheckValue(b: bytes)
    requires Spells(b, "123456789")
    ensures Crc32(b) == 0xCBF4_3926
  {
    hide CrcBits, CrcBytes;
    assert b[0..] == [0x31] + ([0x32] + ([0x33] + b[3..]));
    assert b[3..] == [0x34] + ([0x35] + ([0x36] + b[6..]));
    assert b[6..] == [0x37] + ([0x38] + ([0x39] + b[9..]));
    assert b[0..] == b && b[9..] == [];
    CrcFromOne(b[3..]);
    CrcFromFour(b[6..]);
    CrcFromSeven(b[9..]);
    CrcOfNothing(0x340B_C6D9);
  }

  lemma CrcOfNothing(crc: bv32)
    ensures CrcBytes(crc, []) == crc
  {
  }

  lemma CrcFromOne(t: bytes)
    ensures CrcBytes(0xFFFF_FFFF, [0x31] + ([0x32] + ([0x33] + t))) == CrcBytes(0x77B7_9C2D, t)
  {
    hide CrcBytes, CrcBits;
    ShiftsFromOne();
    CrcStep(0xFFFF_FFFF, 0x31, [0x32] + ([0x33] + t));
    CrcStep(0x7C23_1048, 0x32, [0x33] + t);
    CrcStep(0xB0AC_BB32, 0x33, t);
  }

  lemma ShiftsFromOne()
    ensures CrcBits(0xFFFF_FFFF ^ (0x31 as bv32), 8) == 0x7C23_1048
    ensures CrcBits(0x7C23_1048 ^ (0x32 as bv32), 8) == 0xB0AC_BB32
    ensures CrcBits(0xB0AC_BB32 ^ (0x33 as bv32), 8) == 0x77B7_9C2D
  {
  }

  lemma CrcFromFour(t: bytes)
    ensures CrcBytes(0x77B7_9C2D, [0x34] + ([0x35] + ([0x36] + t))) == CrcBytes(0xF68D_2C9E, t)
  {
    hide CrcBytes, CrcBits;
    ShiftsFromFour();
    CrcStep(0x77B7_9C2D, 0x34, [0x35] + ([0x36] + t));
    CrcStep(0x641C_1F5C, 0x35, [0x36] + t);
    CrcStep(0x340A_C5E3, 0x36, t);
  }

  lemma ShiftsFromFour()
    ensures CrcBits(0x77B7_9C2D ^ (0x34 as bv32), 8) == 0x641C_1F5C
    ensures CrcBits(0x641C_1F5C ^ (0x35 as bv32), 8) == 0x340A_C5E3
    ensures CrcBits(0x340A_C5E3 ^ (0x36 as bv32), 8) == 0xF68D_2C9E
  {
  }

  lemma CrcFromSeven(t: bytes)
    ensures CrcBytes(0xF68D_2C9E, [0x37] + ([0x38] + ([0x39] + t))) == CrcBytes(0x340B_C6D9, t)
  {
    hide CrcBytes, CrcBits;
    ShiftsFromSeven();
    CrcStep(0xF68D_2C9E, 0x37, [0x38] + ([0x39] + t));
    CrcStep(0xAFFC_9660, 0x38, [0x39] + t);
    CrcStep(0x651F_2550, 0x39, t);
  }

  lemma ShiftsFromSeven()
    ensures CrcBits(0xF68D_2C9E ^ (0x37 as bv32), 8) == 0xAFFC_9660
    ensures CrcBits(0xAFFC_9660 ^ (0x38 as bv32), 8) == 0x651F_2550
    ensures CrcBits(0x651F_2550 ^ (0x39 as bv32), 8) == 0x340B_C6D9
  {
  }
}
