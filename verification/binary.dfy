/** Fixed-width integers, little-endian byte layouts and the ASCII codec the
    format uses (`BinaryReader`/`BinaryWriter` with `Encoding.ASCII`). */
module Binary {

  type byte = x: int | 0 <= x < 0x100
  type u16 = x: int | 0 <= x < 0x1_0000
  type u32 = x: int | 0 <= x < 0x1_0000_0000
  type i32 = x: int | -0x8000_0000 <= x < 0x8000_0000

  /** An IEEE-754 single, kept as its bit pattern: equality is bit equality and
      no arithmetic is ever done on it. */
  type f32 = u32

  const U32_MODULUS: int := 0x1_0000_0000

  /** The exceptions the modelled code can raise, plus the format-level
      rejections it signals by throwing. */
  datatype Error =
    | EndOfStream                           // EndOfStreamException from BinaryReader
    | NegativeCount                         // ArgumentOutOfRangeException from ReadBytes(n < 0)
    | InvalidMagic(magic: string)           // BMOD header magic is neither "OMOD" nor "BMOD"
    | UnsupportedVersion(major: int, minor: int)
    | InvalidMatMagic(word: int)            // MAT header magic is not 0xFFFFA5AD
    | ShortFourCC(tag: string)              // BinaryWriter.Write(bytes, 0, 4) with fewer than 4 bytes
    | FileTooSmall                          // compiled vertex shader shorter than 4 bytes
    | NoAnimationData                       // BVH export of a file without BONE chunks
    | CyclicHierarchy                       // the bone walk would recurse without end

  /** C#'s unchecked conversion of an integer result to `uint`. */
  function WrapU32(x: int): (r: u32)
    ensures 0 <= x < U32_MODULUS ==> r == x
    ensures -U32_MODULUS <= x < 0 ==> r == x + U32_MODULUS
  {
    x % U32_MODULUS
  }

  /** The C# cast `(int)` applied to a `uint`: values from 2^31 up turn negative. */
  function ToInt32(x: u32): (r: i32)
    ensures r < 0 <==> x >= 0x8000_0000
    ensures WrapU32(r) == x
  {
    if x < 0x8000_0000 then x else x - U32_MODULUS
  }

  lemma ToInt32Injective(x: u32, y: u32)
    requires ToInt32(x) == ToInt32(y)
    ensures x == y
  {
    assert WrapU32(ToInt32(x)) == x;
  }

  function U16Of(b0: byte, b1: byte): u16 {
    b0 + 256 * b1
  }

  function U32Of(b0: byte, b1: byte, b2: byte, b3: byte): u32 {
    var hi := b2 + 256 * b3;
    assert hi < 0x1_0000;
    var mid := b1 + 256 * hi;
    assert mid < 0x100_0000;
    b0 + 256 * mid
  }

  /** Little-endian layout of a 16-bit value, as `BinaryWriter.Write(ushort)`. */
  function LE16(x: u16): (r: seq<byte>)
    ensures |r| == 2
    ensures U16Of(r[0], r[1]) == x
  {
    [x % 256, x / 256]
  }

  /** Little-endian layout of a 32-bit value, as `BinaryWriter.Write(uint)`. */
  function LE32(x: u32): (r: seq<byte>)
    ensures |r| == 4
    ensures U32Of(r[0], r[1], r[2], r[3]) == x
  {
    var r: seq<byte> := [x % 256, (x / 256) % 256, (x / 0x1_0000) % 256, x / 0x100_0000];
    assert (x / 0x1_0000) % 256 + 256 * (x / 0x100_0000) == x / 0x1_0000;
    assert (x / 256) % 256 + 256 * (x / 0x1_0000) == x / 256;
    r
  }

  /** `Encoding.ASCII.GetString` of one byte: bytes from 0x80 up decode to '?'. */
  function AsciiChar(b: byte): char {
    if b < 0x80 then b as char else '?'
  }

  /** `Encoding.ASCII.GetBytes` of one character: non-ASCII characters encode as '?'. */
  function AsciiByte(c: char): byte {
    if (c as int) < 0x80 then c as int else 0x3F
  }

  function AsciiDecode(bs: seq<byte>): (s: string)
    ensures |s| == |bs|
    ensures forall i :: 0 <= i < |bs| ==> s[i] == AsciiChar(bs[i])
  {
    seq(|bs|, i requires 0 <= i < |bs| => AsciiChar(bs[i]))
  }

  function AsciiEncode(s: string): (bs: seq<byte>)
    ensures |bs| == |s|
    ensures forall i :: 0 <= i < |s| ==> bs[i] == AsciiByte(s[i])
  {
    seq(|s|, i requires 0 <= i < |s| => AsciiByte(s[i]))
  }

  predicate IsAscii(s: string) {
    forall i :: 0 <= i < |s| ==> (s[i] as int) < 0x80
  }

  /** Decoding what was encoded gives the text back exactly when it is pure ASCII. */
  lemma AsciiRoundTrip(s: string)
    ensures AsciiDecode(AsciiEncode(s)) == s <==> IsAscii(s)
  {
    if !IsAscii(s) {
      var i :| 0 <= i < |s| && (s[i] as int) >= 0x80;
      assert AsciiDecode(AsciiEncode(s))[i] == '?';
      assert s[i] != '?';
    }
  }

  /** `string.TrimEnd('\0')`: drops every trailing NUL character. */
  function TrimTrailingNul(s: string): (r: string)
    ensures |r| <= |s| && r == s[..|r|]
    ensures r == [] || r[|r| - 1] != '\0'
    ensures forall i :: |r| <= i < |s| ==> s[i] == '\0'
    decreases |s|
  {
    if |s| > 0 && s[|s| - 1] == '\0' then TrimTrailingNul(s[..|s| - 1]) else s
  }

  /** Text that already has no trailing NUL is left unchanged, and a run of NULs
      appended to any text is removed again. */
  lemma {:induction false} TrimPaddedText(s: string, pad: nat)
    requires s == [] || s[|s| - 1] != '\0'
    ensures TrimTrailingNul(s + seq(pad, _ => '\0')) == s
    decreases pad
  {
    var t := s + seq(pad, _ => '\0');
    if pad > 0 {
      assert t[..|t| - 1] == s + seq(pad - 1, _ => '\0');
      TrimPaddedText(s, pad - 1);
    } else {
      assert t == s;
    }
  }
}
