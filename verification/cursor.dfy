/** `System.IO.BinaryReader` over an immutable byte buffer with an explicit
    position. The position is a plain natural number and may lie beyond the end
    of the buffer, as `Stream.Position` may be set past `Length`. */
module Cursor {
  import opened Wrappers
  import opened Binary

  /** A value read and the stream position just after it. */
  datatype Got<+T> = Got(value: T, next: nat)

  /** Bytes left between `pos` and the end of the buffer (zero past the end). */
  function Avail(data: seq<byte>, pos: nat): nat {
    if pos <= |data| then |data| - pos else 0
  }

  function U16At(data: seq<byte>, p: nat): u16
    requires p + 2 <= |data|
  {
    U16Of(data[p], data[p + 1])
  }

  function U32At(data: seq<byte>, p: nat): u32
    requires p + 4 <= |data|
  {
    U32Of(data[p], data[p + 1], data[p + 2], data[p + 3])
  }

  /** `ReadBytes(n)`: a negative count throws; otherwise as many of the next `n`
      bytes as the buffer still holds, never an end-of-stream error. */
  function ReadBytes(data: seq<byte>, pos: nat, n: int): (r: Result<Got<seq<byte>>, Error>)
    ensures r.Failure? <==> n < 0
    ensures r.Failure? ==> r.error == NegativeCount
    ensures r.Success? ==> |r.value.value| == Min(n, Avail(data, pos))
    ensures r.Success? ==> r.value.next == pos + |r.value.value|
    ensures r.Success? && pos <= |data| ==> r.value.value == data[pos..r.value.next]
  {
    if n < 0 then Failure(NegativeCount)
    else if pos >= |data| then Success(Got([], pos))
    else
      var end := Min(pos + n, |data|);
      Success(Got(data[pos..end], end))
  }

  /** `ReadBytes(n)` for a count known to be non-negative, which cannot fail. */
  function Skip(data: seq<byte>, pos: nat, n: nat): (g: Got<seq<byte>>)
    ensures ReadBytes(data, pos, n) == Success(g)
  {
    ReadBytes(data, pos, n).value
  }

  /** `ReadUInt16`: fails only when fewer than two bytes are left in the whole buffer. */
  function ReadU16(data: seq<byte>, pos: nat): (r: Result<Got<u16>, Error>)
    ensures r.Success? <==> pos + 2 <= |data|
    ensures r.Failure? ==> r.error == EndOfStream
    ensures r.Success? ==> r.value.next == pos + 2 && r.value.value == U16At(data, pos)
  {
    if pos + 2 > |data| then Failure(EndOfStream) else Success(Got(U16At(data, pos), pos + 2))
  }

  /** `ReadUInt32`: fails only when fewer than four bytes are left in the whole buffer. */
  function ReadU32(data: seq<byte>, pos: nat): (r: Result<Got<u32>, Error>)
    ensures r.Success? <==> pos + 4 <= |data|
    ensures r.Failure? ==> r.error == EndOfStream
    ensures r.Success? ==> r.value.next == pos + 4 && r.value.value == U32At(data, pos)
  {
    if pos + 4 > |data| then Failure(EndOfStream) else Success(Got(U32At(data, pos), pos + 4))
  }

  /** `ReadInt32`: the same four bytes read as two's complement. */
  function ReadI32(data: seq<byte>, pos: nat): (r: Result<Got<i32>, Error>)
    ensures r.Success? <==> pos + 4 <= |data|
    ensures r.Success? ==> r.value.next == pos + 4 && WrapU32(r.value.value) == U32At(data, pos)
  {
    var w :- ReadU32(data, pos);
    Success(Got(ToInt32(w.value), w.next))
  }

  /** `ReadSingle`, keeping the bit pattern. */
  function ReadF32(data: seq<byte>, pos: nat): (r: Result<Got<f32>, Error>)
    ensures r.Success? <==> pos + 4 <= |data|
    ensures r.Success? ==> r.value.next == pos + 4 && r.value.value == U32At(data, pos)
  {
    ReadU32(data, pos)
  }

  /** The `m` bytes from `pos` decoded as ASCII, indexed in place. */
  function AsciiAt(data: seq<byte>, pos: nat, m: nat): (s: string)
    requires m <= Avail(data, pos)
    ensures |s| == m
    ensures forall i :: 0 <= i < m ==> s[i] == AsciiChar(data[pos + i])
  {
    seq(m, i requires 0 <= i < m => AsciiChar(data[pos + i]))
  }

  /** Decoding in place is decoding the bytes `ReadBytes` returns. */
  lemma AsciiAtDecodes(data: seq<byte>, pos: nat, m: nat)
    requires m <= Avail(data, pos)
    ensures Skip(data, pos, m).value == (if m == 0 then [] else data[pos..pos + m])
    ensures AsciiAt(data, pos, m) == AsciiDecode(Skip(data, pos, m).value)
  {
  }

  /** `ReadFourCC`: four bytes (fewer at the end of the buffer) decoded as ASCII. */
  function ReadFourCC(data: seq<byte>, pos: nat): (g: Got<string>)
    ensures |g.value| == Min(4, Avail(data, pos))
    ensures g.next == pos + |g.value|
    ensures forall i :: 0 <= i < |g.value| ==> g.value[i] == AsciiChar(data[pos + i])
  {
    var m := Min(4, Avail(data, pos));
    Got(AsciiAt(data, pos, m), pos + m)
  }

  /** The tag is the four bytes `ReadBytes(4)` returns, decoded as ASCII. */
  lemma FourCCDecoded(data: seq<byte>, pos: nat)
    ensures ReadFourCC(data, pos).value == AsciiDecode(Skip(data, pos, 4).value)
    ensures pos + 4 <= |data| ==> ReadFourCC(data, pos).value == AsciiDecode(data[pos..pos + 4])
  {
    AsciiAtDecodes(data, pos, Min(4, Avail(data, pos)));
  }

  /** `ReadString(n)` for a count known to be non-negative: up to `n` bytes,
      decoded as ASCII, with trailing NULs trimmed. */
  function ReadText(data: seq<byte>, pos: nat, n: nat): (g: Got<string>)
    ensures g.next == pos + Min(n, Avail(data, pos))
    ensures |g.value| <= n
    ensures g.value == [] || g.value[|g.value| - 1] != '\0'
    ensures g.value == TrimTrailingNul(AsciiAt(data, pos, Min(n, Avail(data, pos))))
  {
    var m := Min(n, Avail(data, pos));
    Got(TrimTrailingNul(AsciiAt(data, pos, m)), pos + m)
  }

  /** The text is the bytes `ReadBytes(n)` returns, decoded as ASCII with
      trailing NULs trimmed; past the end of the buffer it is empty. */
  lemma ReadTextDecodes(data: seq<byte>, pos: nat, n: nat)
    ensures ReadText(data, pos, n).value == TrimTrailingNul(AsciiDecode(Skip(data, pos, n).value))
    ensures pos <= |data| ==>
              ReadText(data, pos, n).value == TrimTrailingNul(AsciiDecode(data[pos..pos + Min(n, Avail(data, pos))]))
    ensures pos > |data| ==> ReadText(data, pos, n).value == []
  {
    AsciiAtDecodes(data, pos, Min(n, Avail(data, pos)));
  }

  /** `ReadString(n)`: throws for a negative count, as `ReadBytes` does. */
  function ReadString(data: seq<byte>, pos: nat, n: int): (r: Result<Got<string>, Error>)
    ensures r.Success? <==> n >= 0
    ensures r.Success? ==> r == Success(ReadText(data, pos, n))
  {
    if n < 0 then Failure(NegativeCount) else Success(ReadText(data, pos, n))
  }

  // ---------------------------------------------------------------------------
  // Reading back what BinaryWriter wrote
  // ---------------------------------------------------------------------------

  lemma ReadU16OfLE(data: seq<byte>, pos: nat, x: u16)
    requires pos + 2 <= |data| && data[pos..pos + 2] == LE16(x)
    ensures ReadU16(data, pos) == Success(Got(x, pos + 2))
  {
    assert data[pos] == LE16(x)[0] && data[pos + 1] == LE16(x)[1];
  }

  lemma ReadU32OfLE(data: seq<byte>, pos: nat, x: u32)
    requires pos + 4 <= |data| && data[pos..pos + 4] == LE32(x)
    ensures ReadU32(data, pos) == Success(Got(x, pos + 4))
  {
    var w := LE32(x);
    assert data[pos] == w[0] && data[pos + 1] == w[1] && data[pos + 2] == w[2] && data[pos + 3] == w[3];
  }

  /** A window of a buffer that equals `a + b` holds `b` right after `a`. */
  lemma WindowSplit(data: seq<byte>, pos: nat, a: seq<byte>, b: seq<byte>)
    requires pos + |a| + |b| <= |data| && data[pos..pos + |a| + |b|] == a + b
    ensures data[pos..pos + |a|] == a
    ensures data[pos + |a|..pos + |a| + |b|] == b
  {
    assert data[pos..pos + |a|] == data[pos..pos + |a| + |b|][..|a|];
    assert data[pos + |a|..pos + |a| + |b|] == data[pos..pos + |a| + |b|][|a|..];
  }
}
