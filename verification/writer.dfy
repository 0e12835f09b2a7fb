/** `BmodWriter`: the header, then every chunk as its tag, its size word
    verbatim and the payload of the few classes the writer serializes.
    The round trip through `Reader.Parse` is proved for every file the
    writer serializes completely. */
module Writer {
  import opened Wrappers
  import opened Binary
  import opened Cursor
  import opened Structures
  import opened Layout
  import opened Flat
  import opened Reader

  /** `WriteFourCC`: the ASCII bytes of the tag, of which exactly four are
      written; a tag shorter than four characters makes `Write(bytes, 0, 4)`
      throw. */
  function WriteFourCC(tag: string): (r: Result<seq<byte>, Error>)
    ensures r.Success? <==> |tag| >= 4
    ensures r.Failure? ==> r.error == ShortFourCC(tag)
    ensures r.Success? ==> |r.value| == 4 && (IsAscii(tag[..4]) ==> AsciiDecode(r.value) == tag[..4])
  {
    if |tag| < 4 then Failure(ShortFourCC(tag))
    else
      var bytes := AsciiEncode(tag[..4]);
      AsciiRoundTrip(tag[..4]);
      Success(bytes)
  }

  /** `WriteString(s, n)`: the ASCII bytes of `s` cut or zero-padded to `n`. */
  function WriteFixed(s: string, n: nat): (r: seq<byte>)
    ensures |r| == n
    ensures forall i :: 0 <= i < n ==> r[i] == (if i < |s| then AsciiByte(s[i]) else 0)
  {
    if |s| >= n then AsciiEncode(s[..n]) else AsciiEncode(s) + seq(n - |s|, _ => 0)
  }

  function Vec3Bytes(v: Vec3): (r: seq<byte>)
    ensures |r| == 12
  {
    LE32(v.x) + LE32(v.y) + LE32(v.z)
  }

  /** The payload `WriteChunk` emits after the size word: the two vectors of
      MBOX and OBOX, TEXT's null word, length and path, TIME's 24-byte field,
      the raw bytes of the chunks that keep them, and nothing for any other
      class. */
  function Payload(b: Body): seq<byte> {
    match b
    case Mbox(lo, hi) => Vec3Bytes(lo) + Vec3Bytes(hi)
    case Obox(center, normal) => Vec3Bytes(center) + Vec3Bytes(normal)
    case Text(nullWord, path) => LE32(nullWord) + LE32(WrapU32(|path|)) + AsciiEncode(path)
    case Time(timestamp) => WriteFixed(timestamp, 24)
    case Clou(raw) => raw
    case Omni(raw) => raw
    case Flar(raw) => raw
    case Raw(raw) => raw
    case _ => []
  }

  function WriteHeader(h: Header): (r: Result<seq<byte>, Error>)
    ensures r.Success? <==> |h.magic| >= 4
    ensures r.Success? ==> |r.value| == HEADER_SIZE
  {
    var magic :- WriteFourCC(h.magic);
    Success(magic + LE32(h.fileSize) + LE16(h.versionMinor) + LE16(h.versionMajor))
  }

  function WriteChunk(c: Chunk): (r: Result<seq<byte>, Error>)
    ensures r.Success? <==> |c.id| >= 4
    ensures r.Failure? ==> r.error == ShortFourCC(c.id)
    ensures r.Success? ==> |r.value| == CHUNK_HEADER_SIZE + |Payload(c.body)|
  {
    var tag :- WriteFourCC(c.id);
    Success(tag + LE32(c.size) + Payload(c.body))
  }

  /** The chunks in order; the first chunk with a short tag stops the write. */
  function WriteChunks(cs: seq<Chunk>): (r: Result<seq<byte>, Error>)
    ensures r.Success? <==> forall i :: 0 <= i < |cs| ==> |cs[i].id| >= 4
    ensures r.Failure? ==> exists i :: 0 <= i < |cs| && r.error == ShortFourCC(cs[i].id)
    decreases |cs|
  {
    if cs == [] then Success([])
    else
      var head :- WriteChunk(cs[0]);
      var rest :- WriteChunks(cs[1..]);
      assert forall i :: 1 <= i < |cs| ==> cs[i] == cs[1..][i - 1];
      Success(head + rest)
  }

  /** `Write`: the header, then the chunks. */
  function Write(f: BmodFile): (r: Result<seq<byte>, Error>)
    ensures r.Success? <==> |f.header.magic| >= 4 && forall i :: 0 <= i < |f.chunks| ==> |f.chunks[i].id| >= 4
    ensures r.Failure? ==> r.error == ShortFourCC(f.header.magic) ||
                           exists i :: 0 <= i < |f.chunks| && r.error == ShortFourCC(f.chunks[i].id)
  {
    var header :- WriteHeader(f.header);
    var chunks :- WriteChunks(f.chunks);
    Success(header + chunks)
  }

  // ---------------------------------------------------------------------------
  // What the writer serializes completely
  // ---------------------------------------------------------------------------

  predicate NoTrailingNul(s: string) {
    s == [] || s[|s| - 1] != '\0'
  }

  /** The bodies whose whole content the writer emits, with text the reader
      gives back unchanged: ASCII, no trailing NUL, and for TEXT a length the
      reader's `int` cast accepts. */
  predicate WritableBody(b: Body) {
    match b
    case Mbox(_, _) => true
    case Obox(_, _) => true
    case Text(_, path) => IsAscii(path) && NoTrailingNul(path) && |path| < 0x8000_0000
    case Time(timestamp) => IsAscii(timestamp) && NoTrailingNul(timestamp) && |timestamp| <= 24
    case Clou(raw) => |raw| < 0x8000_0000
    case Omni(raw) => |raw| < 0x8000_0000
    case Flar(raw) => |raw| < 0x8000_0000
    case Raw(raw) => |raw| < 0x8000_0000
    case _ => false
  }

  /** A chunk the writer serializes completely at `pos`: a four-character
      ASCII tag that selects the class of its body, a size word counting the
      header and the payload, and the payload offset right after the header. */
  predicate WritableChunk(c: Chunk, pos: nat) {
    && |c.id| == 4 && IsAscii(c.id)
    && HasKind(c.body, KindOfTag(c.id))
    && WritableBody(c.body)
    && c.size == CHUNK_HEADER_SIZE + |Payload(c.body)|
    && c.dataStart == pos + CHUNK_HEADER_SIZE
  }

  predicate WritableChunks(cs: seq<Chunk>, pos: nat)
    decreases |cs|
  {
    cs == [] ||
    (WritableChunk(cs[0], pos) && WritableChunks(cs[1..], ChunkEnd(cs[0])))
  }

  predicate Writable(f: BmodFile) {
    SupportedMagic(f.header.magic) && SupportedVersion(f.header) && WritableChunks(f.chunks, HEADER_SIZE)
  }

  // ---------------------------------------------------------------------------
  // Reading back what was written
  // ---------------------------------------------------------------------------

  lemma U32OfLE(data: seq<byte>, pos: nat, x: u32)
    requires pos + 4 <= |data| && data[pos..pos + 4] == LE32(x)
    ensures U32At(data, pos) == x
  {
    ReadU32OfLE(data, pos, x);
  }

  lemma Vec3OfBytes(data: seq<byte>, pos: nat, v: Vec3)
    requires pos + 12 <= |data| && data[pos..pos + 12] == Vec3Bytes(v)
    ensures Vec3At(data, pos) == v
  {
    WindowSplit(data, pos, LE32(v.x) + LE32(v.y), LE32(v.z));
    WindowSplit(data, pos, LE32(v.x), LE32(v.y));
    U32OfLE(data, pos, v.x);
    U32OfLE(data, pos + 4, v.y);
    U32OfLE(data, pos + 8, v.z);
  }

  /** Two vectors written one after the other read back as they were. */
  lemma VecPairOfBytes(data: seq<byte>, p: nat, a: Vec3, b: Vec3)
    requires p + 24 <= |data| && data[p..p + 24] == Vec3Bytes(a) + Vec3Bytes(b)
    ensures Vec3At(data, p) == a && Vec3At(data, p + 12) == b
  {
    WindowSplit(data, p, Vec3Bytes(a), Vec3Bytes(b));
    Vec3OfBytes(data, p, a);
    Vec3OfBytes(data, p + 12, b);
  }

  /** ASCII text without trailing NULs, padded with any number of zero
      bytes, decodes and trims back to itself. */
  lemma PaddedTextReadsBack(s: string, pad: nat)
    requires IsAscii(s) && NoTrailingNul(s)
    ensures TrimTrailingNul(AsciiDecode(AsciiEncode(s) + seq(pad, _ => 0))) == s
  {
    var bytes := AsciiEncode(s) + seq(pad, _ => 0);
    AsciiRoundTrip(s);
    assert AsciiDecode(bytes) == s + seq(pad, _ => '\0') by {
      assert forall i :: 0 <= i < |s| ==> AsciiDecode(bytes)[i] == AsciiDecode(AsciiEncode(s))[i];
    }
    TrimPaddedText(s, pad);
  }

  /** `WriteString(s, 24)` read back by `ReadString(24)` is `s` again. */
  lemma FixedFieldReadsBack(data: seq<byte>, p: nat, s: string)
    requires IsAscii(s) && NoTrailingNul(s) && |s| <= 24
    requires p + 24 <= |data| && data[p..p + 24] == WriteFixed(s, 24)
    ensures ReadText(data, p, 24).value == s
  {
    ReadTextDecodes(data, p, 24);
    assert WriteFixed(s, 24) == AsciiEncode(s) + seq(24 - |s|, _ => 0) by {
      if |s| == 24 {
        assert s[..24] == s;
        assert AsciiEncode(s) + seq(0, _ => 0) == AsciiEncode(s);
      }
    }
    PaddedTextReadsBack(s, 24 - |s|);
  }

  /** Text written without a fixed length reads back by a `ReadString`
      of its own length. */
  lemma TextFieldReadsBack(data: seq<byte>, p: nat, s: string)
    requires IsAscii(s) && NoTrailingNul(s)
    requires p + |s| <= |data| && data[p..p + |s|] == AsciiEncode(s)
    ensures ReadText(data, p, |s|).value == s
  {
    assert Skip(data, p, |s|).value == AsciiEncode(s);
    PaddedTextReadsBack(s, 0);
    assert AsciiEncode(s) + seq(0, _ => 0) == AsciiEncode(s);
  }

  /** The two words in front of a TEXT path. */
  lemma TextWordsReadBack(data: seq<byte>, p: nat, nullWord: u32, path: string)
    requires |path| < 0x8000_0000
    requires p + 8 + |path| <= |data| &&
             data[p..p + 8 + |path|] == LE32(nullWord) + LE32(WrapU32(|path|)) + AsciiEncode(path)
    ensures U32At(data, p) == nullWord && U32At(data, p + 4) == |path|
    ensures data[p + 8..p + 8 + |path|] == AsciiEncode(path)
  {
    var len := WrapU32(|path|);
    WindowSplit(data, p, LE32(nullWord) + LE32(len), AsciiEncode(path));
    WindowSplit(data, p, LE32(nullWord), LE32(len));
    U32OfLE(data, p, nullWord);
    U32OfLE(data, p + 4, len);
  }

  lemma TextReadsBack(data: seq<byte>, at: nat, nullWord: u32, path: string)
    requires IsAscii(path) && NoTrailingNul(path) && |path| < 0x8000_0000
    requires var p := at + CHUNK_HEADER_SIZE;
             && p + 8 + |path| <= |data|
             && U32At(data, p) == nullWord && U32At(data, p + 4) == |path|
             && data[p + 8..p + 8 + |path|] == AsciiEncode(path)
    ensures DecodeText(data, at) == Success(Text(nullWord, path))
  {
    TextFieldReadsBack(data, at + CHUNK_HEADER_SIZE + 8, path);
  }

  lemma TextBodyReadsBack(data: seq<byte>, at: nat, size: u32, nullWord: u32, path: string)
    requires IsAscii(path) && NoTrailingNul(path) && |path| < 0x8000_0000
    requires var p := at + CHUNK_HEADER_SIZE;
             p + 8 + |path| <= |data| &&
             data[p..p + 8 + |path|] == LE32(nullWord) + LE32(WrapU32(|path|)) + AsciiEncode(path)
    ensures DecodeBody(data, at, TextKind, size) == Success(Text(nullWord, path))
  {
    TextWordsReadBack(data, at + CHUNK_HEADER_SIZE, nullWord, path);
    TextReadsBack(data, at, nullWord, path);
    TextKindDecodesText(data, at, size);
  }

  lemma TextKindDecodesText(data: seq<byte>, at: nat, size: u32)
    ensures DecodeBody(data, at, TextKind, size) == DecodeText(data, at)
  {
    assert DecodeBody(data, at, TextKind, size) == DecodeLeaf(data, at, TextKind, size);
  }

  /** The header of a serialized chunk frames it. */
  lemma FramedReadsBack(data: seq<byte>, pos: nat, c: Chunk)
    requires |c.id| == 4 && IsAscii(c.id) && c.dataStart == pos + CHUNK_HEADER_SIZE
    requires pos + CHUNK_HEADER_SIZE + |Payload(c.body)| <= |data|
    requires data[pos..pos + CHUNK_HEADER_SIZE + |Payload(c.body)|] == WriteChunk(c).value
    ensures Framed(data, pos, c)
    ensures data[c.dataStart..c.dataStart + |Payload(c.body)|] == Payload(c.body)
  {
    var tag := WriteFourCC(c.id).value;
    assert c.id[..4] == c.id;
    WindowSplit(data, pos, tag + LE32(c.size), Payload(c.body));
    WindowSplit(data, pos, tag, LE32(c.size));
    U32OfLE(data, pos + 4, c.size);
  }

  /** The bytes after a size word counting them are what `ReadRaw` copies. */
  lemma RawReadsBack(data: seq<byte>, at: nat, size: u32, raw: seq<byte>)
    requires |raw| < 0x8000_0000 && size == CHUNK_HEADER_SIZE + |raw|
    requires at + CHUNK_HEADER_SIZE + |raw| <= |data|
    requires data[at + CHUNK_HEADER_SIZE..at + CHUNK_HEADER_SIZE + |raw|] == raw
    ensures ReadRaw(data, at, size) == Success(raw)
  {
  }

  lemma MboxReadsBack(data: seq<byte>, at: nat, size: u32, lo: Vec3, hi: Vec3)
    requires var p := at + CHUNK_HEADER_SIZE;
             p + 24 <= |data| && data[p..p + 24] == Vec3Bytes(lo) + Vec3Bytes(hi)
    ensures DecodeBody(data, at, MboxKind, size) == Success(Mbox(lo, hi))
  {
    VecPairOfBytes(data, at + CHUNK_HEADER_SIZE, lo, hi);
  }

  lemma OboxReadsBack(data: seq<byte>, at: nat, size: u32, center: Vec3, normal: Vec3)
    requires var p := at + CHUNK_HEADER_SIZE;
             p + 24 <= |data| && data[p..p + 24] == Vec3Bytes(center) + Vec3Bytes(normal)
    ensures DecodeBody(data, at, OboxKind, size) == Success(Obox(center, normal))
  {
    VecPairOfBytes(data, at + CHUNK_HEADER_SIZE, center, normal);
  }

  lemma TimeReadsBack(data: seq<byte>, at: nat, size: u32, timestamp: string)
    requires IsAscii(timestamp) && NoTrailingNul(timestamp) && |timestamp| <= 24
    requires var p := at + CHUNK_HEADER_SIZE;
             p + 24 <= |data| && data[p..p + 24] == WriteFixed(timestamp, 24)
    ensures DecodeBody(data, at, TimeKind, size) == Success(Time(timestamp))
  {
    FixedFieldReadsBack(data, at + CHUNK_HEADER_SIZE, timestamp);
  }

  lemma RawKindReadsBack(data: seq<byte>, at: nat, size: u32, k: Kind, raw: seq<byte>)
    requires k == ClouKind || k == OmniKind || k == FlarKind || k == BaseKind
    requires |raw| < 0x8000_0000 && size == CHUNK_HEADER_SIZE + |raw|
    requires at + CHUNK_HEADER_SIZE + |raw| <= |data|
    requires data[at + CHUNK_HEADER_SIZE..at + CHUNK_HEADER_SIZE + |raw|] == raw
    ensures DecodeBody(data, at, k, size) == Success(match k
                                                    case ClouKind => Clou(raw)
                                                    case OmniKind => Omni(raw)
                                                    case FlarKind => Flar(raw)
                                                    case _ => Raw(raw))
  {
    RawReadsBack(data, at, size, raw);
    assert DecodeBody(data, at, k, size) == DecodeRawClass(data, at, k, size);
  }

  /** The payload of a serialized body decodes to that body under the class
      its tag selects. */
  lemma BodyReadsBack(data: seq<byte>, at: nat, b: Body, k: Kind, size: u32)
    requires HasKind(b, k) && WritableBody(b) && size == CHUNK_HEADER_SIZE + |Payload(b)|
    requires at + CHUNK_HEADER_SIZE + |Payload(b)| <= |data|
    requires data[at + CHUNK_HEADER_SIZE..at + CHUNK_HEADER_SIZE + |Payload(b)|] == Payload(b)
    ensures DecodeBody(data, at, k, size) == Success(b)
  {
    if b.Mbox? || b.Obox? {
      BoxBodyReadsBack(data, at, b, k, size);
    } else if b.Text? || b.Time? {
      StringBodyReadsBack(data, at, b, k, size);
    } else {
      RawKindReadsBack(data, at, size, k, b.raw);
    }
  }

  lemma BoxBodyReadsBack(data: seq<byte>, at: nat, b: Body, k: Kind, size: u32)
    requires b.Mbox? || b.Obox?
    requires HasKind(b, k) && size == CHUNK_HEADER_SIZE + |Payload(b)|
    requires at + CHUNK_HEADER_SIZE + |Payload(b)| <= |data|
    requires data[at + CHUNK_HEADER_SIZE..at + CHUNK_HEADER_SIZE + |Payload(b)|] == Payload(b)
    ensures DecodeBody(data, at, k, size) == Success(b)
  {
    if b.Mbox? {
      assert k == MboxKind && Payload(b) == Vec3Bytes(b.min) + Vec3Bytes(b.max);
      MboxReadsBack(data, at, size, b.min, b.max);
    } else {
      assert k == OboxKind && Payload(b) == Vec3Bytes(b.center) + Vec3Bytes(b.normal);
      OboxReadsBack(data, at, size, b.center, b.normal);
    }
  }

  lemma StringBodyReadsBack(data: seq<byte>, at: nat, b: Body, k: Kind, size: u32)
    requires b.Text? || b.Time?
    requires HasKind(b, k) && WritableBody(b) && size == CHUNK_HEADER_SIZE + |Payload(b)|
    requires at + CHUNK_HEADER_SIZE + |Payload(b)| <= |data|
    requires data[at + CHUNK_HEADER_SIZE..at + CHUNK_HEADER_SIZE + |Payload(b)|] == Payload(b)
    ensures DecodeBody(data, at, k, size) == Success(b)
  {
    if b.Text? {
      assert k == TextKind;
      TextBodyReadsBack(data, at, size, b.nullWord, b.texturePath);
    } else {
      assert k == TimeKind;
      TimeReadsBack(data, at, size, b.timestamp);
    }
  }

  /** One serialized chunk, found in a buffer at `pos`, decodes to the chunk
      it came from and ends where its bytes end. */
  lemma ChunkReadsBack(data: seq<byte>, pos: nat, c: Chunk)
    requires WritableChunk(c, pos)
    requires pos + CHUNK_HEADER_SIZE + |Payload(c.body)| <= |data|
    requires data[pos..pos + CHUNK_HEADER_SIZE + |Payload(c.body)|] == WriteChunk(c).value
    ensures ChunkAt(data, pos, c)
    ensures ChunkEnd(c) == pos + CHUNK_HEADER_SIZE + |Payload(c.body)|
  {
    FramedReadsBack(data, pos, c);
    BodyReadsBack(data, pos, c.body, KindOfTag(c.id), c.size);
  }

  // ---------------------------------------------------------------------------
  // The round trip
  // ---------------------------------------------------------------------------

  lemma {:induction false} WritableChunksWrite(cs: seq<Chunk>, pos: nat)
    requires WritableChunks(cs, pos)
    ensures WriteChunks(cs).Success?
    decreases |cs|
  {
    if cs != [] {
      assert |cs[0].id| == 4;
      WritableChunksWrite(cs[1..], pos + CHUNK_HEADER_SIZE + |Payload(cs[0].body)|);
      assert WriteChunk(cs[0]).Success?;
    }
  }

  lemma WriteChunksCons(cs: seq<Chunk>)
    requires cs != [] && WriteChunks(cs).Success?
    ensures WriteChunk(cs[0]).Success? && WriteChunks(cs[1..]).Success?
    ensures WriteChunks(cs).value == WriteChunk(cs[0]).value + WriteChunks(cs[1..]).value
  {
  }

  /** A buffer tail that equals `a + b` holds `a` and then the tail `b`. */
  lemma TailSplit(data: seq<byte>, pos: nat, a: seq<byte>, b: seq<byte>)
    requires pos <= |data| && data[pos..] == a + b
    ensures pos + |a| + |b| == |data|
    ensures data[pos..pos + |a|] == a && data[pos + |a|..] == b
  {
    assert data[pos..pos + |a|] == data[pos..][..|a|];
    assert data[pos + |a|..] == data[pos..][|a|..];
  }

  /** The first of the serialized chunks that fill a buffer from `pos`
      reads back, and the rest fill it from where that chunk ends. */
  lemma FirstChunkReadsBack(data: seq<byte>, pos: nat, cs: seq<Chunk>)
    requires cs != [] && WritableChunks(cs, pos) && WriteChunks(cs).Success?
    requires pos <= |data| && data[pos..] == WriteChunks(cs).value
    ensures pos < |data| && ChunkAt(data, pos, cs[0])
    ensures WritableChunks(cs[1..], ChunkEnd(cs[0])) && WriteChunks(cs[1..]).Success?
    ensures ChunkEnd(cs[0]) <= |data| && data[ChunkEnd(cs[0])..] == WriteChunks(cs[1..]).value
  {
    WriteChunksCons(cs);
    var c := cs[0];
    var head := WriteChunk(c).value;
    var rest := WriteChunks(cs[1..]).value;
    TailSplit(data, pos, head, rest);
    FirstChunkAt(data, pos, c, head);
  }

  lemma FirstChunkAt(data: seq<byte>, pos: nat, c: Chunk, head: seq<byte>)
    requires WritableChunk(c, pos) && WriteChunk(c).Success? && head == WriteChunk(c).value
    requires pos + |head| <= |data| && data[pos..pos + |head|] == head
    ensures pos < |data| && ChunkAt(data, pos, c) && ChunkEnd(c) == pos + |head|
  {
    ChunkReadsBack(data, pos, c);
  }

  /** Serialized chunks that fill a buffer from `pos` to its end tile it
      with exactly those chunks. */
  lemma {:induction false} ChunksTile(data: seq<byte>, pos: nat, cs: seq<Chunk>)
    requires WritableChunks(cs, pos) && WriteChunks(cs).Success?
    requires pos <= |data| && data[pos..] == WriteChunks(cs).value
    ensures Tiled(data, cs, pos)
    decreases |cs|
  {
    if cs != [] {
      FirstChunkReadsBack(data, pos, cs);
      ChunksTile(data, ChunkEnd(cs[0]), cs[1..]);
      TiledCons(data, pos, cs[0], cs[1..]);
      assert [cs[0]] + cs[1..] == cs;
    }
  }

  /** A written header reads back as the header it came from. */
  lemma HeaderReadsBack(data: seq<byte>, h: Header)
    requires |h.magic| == 4 && IsAscii(h.magic)
    requires HEADER_SIZE <= |data| && data[..HEADER_SIZE] == WriteHeader(h).value
    ensures HeaderAt(data) == h
  {
    var magic := WriteFourCC(h.magic).value;
    assert h.magic[..4] == h.magic;
    assert data[0..HEADER_SIZE] == magic + LE32(h.fileSize) + LE16(h.versionMinor) + LE16(h.versionMajor);
    WindowSplit(data, 0, magic + LE32(h.fileSize) + LE16(h.versionMinor), LE16(h.versionMajor));
    WindowSplit(data, 0, magic + LE32(h.fileSize), LE16(h.versionMinor));
    WindowSplit(data, 0, magic, LE32(h.fileSize));
    U32OfLE(data, 4, h.fileSize);
    ReadU16OfLE(data, 8, h.versionMinor);
    ReadU16OfLE(data, 10, h.versionMajor);
  }

  /** The header of a written file, then its chunks. */
  lemma WriteSplits(f: BmodFile)
    requires |f.header.magic| >= 4 && WriteChunks(f.chunks).Success?
    ensures Write(f).Success?
    ensures Write(f).value[..HEADER_SIZE] == WriteHeader(f.header).value
    ensures Write(f).value[HEADER_SIZE..] == WriteChunks(f.chunks).value
  {
    var head := WriteHeader(f.header).value;
    assert Write(f).value == head + WriteChunks(f.chunks).value;
  }

  /** A written file holds its header and then a tiling by its chunks. */
  lemma WrittenFileTiles(f: BmodFile)
    requires Writable(f)
    ensures Write(f).Success? && HEADER_SIZE <= |Write(f).value|
    ensures HeaderAt(Write(f).value) == f.header
    ensures Tiled(Write(f).value, f.chunks, HEADER_SIZE)
  {
    WritableChunksWrite(f.chunks, HEADER_SIZE);
    WrittenHeader(f);
    ChunksTile(Write(f).value, HEADER_SIZE, f.chunks);
  }

  lemma WrittenHeader(f: BmodFile)
    requires SupportedMagic(f.header.magic) && WriteChunks(f.chunks).Success?
    ensures Write(f).Success? && HEADER_SIZE <= |Write(f).value|
    ensures HeaderAt(Write(f).value) == f.header
    ensures Write(f).value[HEADER_SIZE..] == WriteChunks(f.chunks).value
  {
    assert IsAscii(f.header.magic) && |f.header.magic| == 4;
    WriteSplits(f);
    HeaderReadsBack(Write(f).value, f.header);
  }

  /** Reading a written file gives the file back, for every file whose
      content the writer serializes completely. */
  lemma WriteReadsBack(f: BmodFile)
    requires Writable(f)
    ensures Write(f).Success?
    ensures Parse(Write(f).value) == Success(f)
  {
    WrittenFileTiles(f);
    ParseExactly(Write(f).value, f);
  }

  /** The writer emits only the header of a BLST or ASEC chunk, so one
      written at the end of a buffer does not read back: the reader looks
      for its null word past the end. */
  lemma NullWordIsDropped(data: seq<byte>, pos: nat, c: Chunk)
    requires c.body.Blst? || c.body.Asec?
    requires WriteChunk(c).Success? && pos <= |data| && data[pos..] == WriteChunk(c).value
    ensures !ChunkAt(data, pos, c)
  {
    assert |data| == pos + CHUNK_HEADER_SIZE;
  }
}
