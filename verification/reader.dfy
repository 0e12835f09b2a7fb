/** `BmodParser`: the file header, the top-level chunk loop, chunk framing,
    the dispatch from a tag to its decoder, and the OBST decoder, which
    re-enters framing for its sub-chunks. */
module Reader {
  import opened Wrappers
  import opened Binary
  import opened Cursor
  import opened Structures
  import opened Layout
  import opened Geometry
  import opened Flat

  // ---------------------------------------------------------------------------
  // Header
  // ---------------------------------------------------------------------------

  /** The header fields by offset: magic at 0, file size at 4, minor version
      at 8, major version at 10. */
  function HeaderAt(data: seq<byte>): Header
    requires HEADER_SIZE <= |data|
  {
    Header(AsciiDecode(data[0..4]), U32At(data, 4), U16At(data, 8), U16At(data, 10))
  }

  /** `ReadHeader`: magic, file size, minor, major, in that order. */
  function ReadHeader(data: seq<byte>): (r: Result<Got<Header>, Error>)
    ensures r.Success? <==> HEADER_SIZE <= |data|
    ensures r.Failure? ==> r.error == EndOfStream
    ensures r.Success? ==> r.value == Got(HeaderAt(data), HEADER_SIZE)
  {
    FourCCDecoded(data, 0);
    var magic := ReadFourCC(data, 0);
    var fileSize :- ReadU32(data, magic.next);
    var minor :- ReadU16(data, fileSize.next);
    var major :- ReadU16(data, minor.next);
    Success(Got(Header(magic.value, fileSize.value, minor.value, major.value), major.next))
  }

  predicate SupportedMagic(magic: string) {
    magic == "OMOD" || magic == "BMOD"
  }

  predicate SupportedVersion(h: Header) {
    h.versionMajor == 1 && 10 <= h.versionMinor <= 13
  }

  // ---------------------------------------------------------------------------
  // Tags and the classes they select
  // ---------------------------------------------------------------------------

  /** The class the dispatch in `ReadChunk` picks for a tag; every tag it
      does not list gets the plain chunk. MEMS, a mirrored mesh, shares the
      mesh decoder. */
  function KindOfTag(id: string): Kind {
    if id == "MBOX" then MboxKind
    else if id == "OBOX" then OboxKind
    else if id == "MESH" || id == "MEMS" then MeshKind
    else if id == "OBMO" then ObmoKind
    else if id == "OBSK" then ObskKind
    else if id == "BONE" then BoneKind
    else if id == "TEXT" then TextKind
    else if id == "MATE" then MateKind
    else if id == "BLST" then BlstKind
    else if id == "CLOU" then ClouKind
    else if id == "OMNI" then OmniKind
    else if id == "FLAR" then FlarKind
    else if id == "ASEL" then AselKind
    else if id == "ASEC" then AsecKind
    else if id == "OBST" then ObstKind
    else if id == "DUMY" then DumyKind
    else if id == "TIME" then TimeKind
    else BaseKind
  }

  /** The classes whose decoder catches its own errors or cannot raise at all. */
  predicate Tolerant(k: Kind) {
    k == MeshKind || k == ObmoKind || k == MateKind || k == ObstKind || k == TimeKind
  }

  // ---------------------------------------------------------------------------
  // Chunk framing
  // ---------------------------------------------------------------------------

  /** What one call of `ReadChunk` yields: a chunk (none at the end of the
      buffer) and the position framing moves the stream to. */
  datatype Step = Step(chunk: Option<Chunk>, next: nat)

  /** Where framing leaves the stream after a chunk: its payload start plus
      its payload length, whatever the decoder consumed. */
  function ChunkEnd(c: Chunk): nat {
    c.dataStart + ChunkDataSize(c.size)
  }

  /** `c` carries the header found at `pos`: the tag, the size word and the
      payload offset right after them. */
  predicate Framed(data: seq<byte>, pos: nat, c: Chunk) {
    && pos + CHUNK_HEADER_SIZE <= |data|
    && c.id == AsciiDecode(data[pos..pos + 4])
    && c.size == U32At(data, pos + 4)
    && c.dataStart == pos + CHUNK_HEADER_SIZE
  }

  /** `ReadChunk`: nothing at or past the end of the buffer; otherwise the
      header, the tag's decoder (whose raise is not caught here), and the
      stream forced to the end of the payload. */
  function ReadChunk(data: seq<byte>, pos: nat): (r: Result<Step, Error>)
    ensures pos >= |data| ==> r == Success(Step(None, pos))
    ensures pos < |data| < pos + CHUNK_HEADER_SIZE ==> r == Failure(EndOfStream)
    ensures pos < |data| && r.Success? ==>
              && r.value.chunk.Some?
              && Framed(data, pos, r.value.chunk.value)
              && r.value.next == ChunkEnd(r.value.chunk.value)
    decreases |data| - pos, 3, 0, 0
  {
    if pos >= |data| then Success(Step(None, pos))
    else
      FourCCDecoded(data, pos);
      var id := ReadFourCC(data, pos);
      var size :- ReadU32(data, id.next);
      var body :- DecodeBody(data, pos, KindOfTag(id.value), size.value);
      var c := Chunk(id.value, size.value, size.next, body);
      Success(Step(Some(c), c.dataStart + ChunkDataSize(c.size)))
  }

  /** A chunk read at `pos` carries the body its tag's decoder produces, and
      past a complete header only that decoder's raise makes the read fail. */
  lemma ReadChunkDecodes(data: seq<byte>, pos: nat)
    ensures var r := ReadChunk(data, pos);
            pos < |data| && r.Success? ==>
              DecodeBody(data, pos, KindOfTag(r.value.chunk.value.id), r.value.chunk.value.size) == Success(r.value.chunk.value.body)
    ensures pos + CHUNK_HEADER_SIZE <= |data| && ReadChunk(data, pos).Failure? ==>
              DecodeBody(data, pos, KindOfTag(AsciiDecode(data[pos..pos + 4])), U32At(data, pos + 4)).Failure?
  {
    FourCCDecoded(data, pos);
  }

  /** What every class decoder promises: a body of the class it decodes;
      no failure for the classes that catch their own raises; and for the
      plain chunk, failure exactly when the payload length is negative as an
      `int`, otherwise the payload bytes cut short at the end of the buffer. */
  predicate DecodedAsClass(data: seq<byte>, at: nat, k: Kind, size: u32, r: Result<Body, Error>) {
    && (r.Success? ==> HasKind(r.value, k))
    && (Tolerant(k) ==> r.Success?)
    && (k == BaseKind ==> (r.Success? <==> ChunkDataSize(size) < 0x8000_0000))
    && (k == BaseKind && r.Success? ==>
          && r.value.Raw?
          && |r.value.raw| == Min(ChunkDataSize(size), Avail(data, at + CHUNK_HEADER_SIZE))
          && (at + CHUNK_HEADER_SIZE <= |data| ==>
                r.value.raw == data[at + CHUNK_HEADER_SIZE..at + CHUNK_HEADER_SIZE + |r.value.raw|]))
  }

  /** The per-class decoders of `ReadChunk`, for the class `KindOfTag`
      picks; `at` is the position of the chunk header. Only OBST re-enters
      `ReadChunk`; every other class decodes without recursion. */
  function DecodeBody(data: seq<byte>, at: nat, k: Kind, size: u32): (r: Result<Body, Error>)
    ensures DecodedAsClass(data, at, k, size, r)
    decreases |data| - at, 2, 0, 0
  {
    if k == ObstKind then Success(DecodeObst(data, at, size)) else DecodeLeaf(data, at, k, size)
  }

  /** The decoders of every class but OBST. */
  function DecodeLeaf(data: seq<byte>, at: nat, k: Kind, size: u32): (r: Result<Body, Error>)
    requires k != ObstKind
    ensures DecodedAsClass(data, at, k, size, r)
  {
    match k
    case MboxKind => DecodeMbox(data, at)
    case OboxKind => DecodeObox(data, at)
    case MeshKind => Success(DecodeMesh(data, at, size))
    case ObmoKind => Success(DecodeObmo(data, at, size))
    case ObskKind => DecodeObsk(data, at)
    case BoneKind => DecodeBone(data, at)
    case TextKind => DecodeText(data, at)
    case AselKind => DecodeAsel(data, at)
    case DumyKind => DecodeDumy(data, at)
    case MateKind => DecodeSimple(data, at, k, size)
    case BlstKind => DecodeSimple(data, at, k, size)
    case ClouKind => DecodeRawClass(data, at, k, size)
    case OmniKind => DecodeRawClass(data, at, k, size)
    case FlarKind => DecodeRawClass(data, at, k, size)
    case AsecKind => DecodeSimple(data, at, k, size)
    case TimeKind => DecodeSimple(data, at, k, size)
    case BaseKind => DecodeRawClass(data, at, k, size)
  }

  /** The classes decoded by at most one fixed read: the material, null-word
      and timestamp chunks. */
  function DecodeSimple(data: seq<byte>, at: nat, k: Kind, size: u32): (r: Result<Body, Error>)
    requires k == MateKind || k == BlstKind || k == AsecKind || k == TimeKind
    ensures DecodedAsClass(data, at, k, size, r)
  {
    match k
    case MateKind => Success(DecodeMate(data, at))
    case BlstKind =>
      var w :- ReadNullWord(data, at);
      Success(Blst(w))
    case AsecKind =>
      var w :- ReadNullWord(data, at);
      Success(Asec(w))
    case TimeKind => Success(DecodeTime(data, at))
  }

  /** The classes whose body is kept as raw bytes. */
  function DecodeRawClass(data: seq<byte>, at: nat, k: Kind, size: u32): (r: Result<Body, Error>)
    requires k == ClouKind || k == OmniKind || k == FlarKind || k == BaseKind
    ensures DecodedAsClass(data, at, k, size, r)
  {
    var raw :- ReadRaw(data, at, size);
    Success(match k
            case ClouKind => Clou(raw)
            case OmniKind => Omni(raw)
            case FlarKind => Flar(raw)
            case _ => Raw(raw))
  }

  // ---------------------------------------------------------------------------
  // OBST
  // ---------------------------------------------------------------------------

  /** A run of sub-chunks laid end to end from `pos`, each with a size of at
      least 8 and ending inside the parent (at or before `end`). */
  predicate SubTiled(data: seq<byte>, cs: seq<Chunk>, pos: nat, end: int)
    decreases |cs|
  {
    cs == [] ||
    (&& Framed(data, pos, cs[0])
     && CHUNK_HEADER_SIZE <= cs[0].size
     && ChunkEnd(cs[0]) <= end
     && SubTiled(data, cs[1..], ChunkEnd(cs[0]), end))
  }

  /** The end of the last chunk of a run that starts at `pos`. */
  function TilesEnd(cs: seq<Chunk>, pos: nat): nat {
    if cs == [] then pos else ChunkEnd(cs[|cs| - 1])
  }

  /** Every chunk of a run starts after the run's first header and ends by `end`. */
  lemma {:induction false} SubTiledBounds(data: seq<byte>, cs: seq<Chunk>, pos: nat, end: int)
    requires SubTiled(data, cs, pos, end)
    ensures forall i :: 0 <= i < |cs| ==> pos + CHUNK_HEADER_SIZE <= cs[i].dataStart && ChunkEnd(cs[i]) <= end
    decreases |cs|
  {
    if cs != [] {
      SubTiledBounds(data, cs[1..], ChunkEnd(cs[0]), end);
      assert forall i :: 1 <= i < |cs| ==> cs[i] == cs[1..][i - 1];
    }
  }

  /** The sub-chunks an OBST scan read, where it stopped and why. */
  datatype ObstScanned = ObstScanned(subs: seq<Chunk>, pos: nat, stop: Stop)

  /** One turn of the OBST sub-chunk loop at `pos`. */
  datatype ObstTurn = Next(c: Chunk, next: nat) | Halt(pos: nat, stop: Stop)

  /** The body of the OBST sub-chunk loop at `pos`, with `end` the end of the
      OBST payload. Fewer than 8 bytes left stops the loop; so does a header
      whose size is 0, below 8 or beyond what is left, with the stream put
      back on that header. A sound header is read again, in full, by
      `ReadChunk`; a raise anywhere is caught and seeks to `end`. `at` is the
      OBST's own header position, below every sub-chunk. */
  function ObstStep(data: seq<byte>, at: nat, end: int, pos: nat): (t: ObstTurn)
    requires at < pos < end
    ensures t.Next? ==>
              && Framed(data, pos, t.c) && CHUNK_HEADER_SIZE <= t.c.size
              && t.next == ChunkEnd(t.c) <= end && pos < t.next
    ensures t.Halt? && t.stop == ShortTail ==> t.pos == pos && end < pos + CHUNK_HEADER_SIZE
    ensures t.Halt? && t.stop == BadHeader ==>
              t.pos == pos && pos + CHUNK_HEADER_SIZE <= end && pos + CHUNK_HEADER_SIZE <= |data| &&
              BadSubSize(U32At(data, pos + 4), end - pos)
    ensures t.Halt? ==> t.stop != Exhausted && (t.stop == Aborted ==> t.pos == end)
    decreases |data| - at, 0, end - pos, 0
  {
    if end - pos < CHUNK_HEADER_SIZE then Halt(pos, ShortTail)
    else if pos + CHUNK_HEADER_SIZE > |data| then Halt(end, Aborted)
    else if BadSubSize(U32At(data, pos + 4), end - pos) then Halt(pos, BadHeader)
    else
      match ReadChunk(data, pos)
      case Failure(_) => Halt(end, Aborted)
      case Success(step) => Next(step.chunk.value, step.next)
  }

  /** The OBST sub-chunk loop: turns from `pos` while the stream is before `end`. */
  function ObstScan(data: seq<byte>, at: nat, end: int, pos: nat): (r: ObstScanned)
    requires at < pos
    ensures SubTiled(data, r.subs, pos, end)
    ensures r.stop != Aborted ==> r.pos == TilesEnd(r.subs, pos)
    ensures r.stop == Exhausted ==> end <= r.pos
    ensures r.stop == ShortTail ==> r.pos < end < r.pos + CHUNK_HEADER_SIZE
    ensures r.stop == BadHeader ==>
              r.pos + CHUNK_HEADER_SIZE <= end && r.pos + CHUNK_HEADER_SIZE <= |data| &&
              BadSubSize(U32At(data, r.pos + 4), end - r.pos)
    ensures r.stop == Aborted ==> r.pos == end
    decreases |data| - at, 0, end - pos, 1
  {
    if pos >= end then ObstScanned([], pos, Exhausted)
    else
      match ObstStep(data, at, end, pos)
      case Halt(p, stop) => ObstScanned([], p, stop)
      case Next(c, next) =>
        var rest := ObstScan(data, at, end, next);
        var subs := [c] + rest.subs;
        assert subs[0] == c && subs[1..] == rest.subs;
        assert rest.subs != [] ==> subs[|subs| - 1] == rest.subs[|rest.subs| - 1];
        ObstScanned(subs, rest.pos, rest.stop)
  }

  /** The three sub-chunk slots of an OBST. */
  datatype Slots = Slots(mesh: Option<Chunk>, mbox: Option<Chunk>, obox: Option<Chunk>)

  datatype SlotKind = MeshSlot | MboxSlot | OboxSlot

  const NO_SLOTS := Slots(None, None, None)

  function Slot(s: Slots, k: SlotKind): Option<Chunk> {
    match k
    case MeshSlot => s.mesh
    case MboxSlot => s.mbox
    case OboxSlot => s.obox
  }

  /** The slot a sub-chunk goes to: a mesh-class body (MESH or MEMS), an MBOX, an OBOX. */
  predicate Fits(k: SlotKind, c: Chunk) {
    match k
    case MeshSlot => c.body.Mesh?
    case MboxSlot => c.body.Mbox?
    case OboxSlot => c.body.Obox?
  }

  /** `c` is the last chunk of `cs` that fits slot `k`. */
  predicate IsLastFit(k: SlotKind, cs: seq<Chunk>, i: int)
    requires 0 <= i < |cs|
  {
    Fits(k, cs[i]) && forall j :: i < j < |cs| ==> !Fits(k, cs[j])
  }

  /** Storing one sub-chunk: it replaces the slot of its kind, if any. */
  function Keep(s: Slots, c: Chunk): Slots {
    if c.body.Mesh? then s.(mesh := Some(c))
    else if c.body.Mbox? then s.(mbox := Some(c))
    else if c.body.Obox? then s.(obox := Some(c))
    else s
  }

  /** Storing a run of sub-chunks in order: each slot ends up with the last
      sub-chunk that fits it, or keeps what it had when none fits. */
  function KeepAll(s: Slots, cs: seq<Chunk>): (r: Slots)
    ensures forall k :: Slot(r, k) == Slot(s, k) || (Slot(r, k).Some? && Slot(r, k).value in cs && Fits(k, Slot(r, k).value))
    ensures forall k :: (forall i :: 0 <= i < |cs| ==> !Fits(k, cs[i])) ==> Slot(r, k) == Slot(s, k)
    ensures forall k, i :: 0 <= i < |cs| && IsLastFit(k, cs, i) ==> Slot(r, k) == Some(cs[i])
    decreases |cs|
  {
    if cs == [] then s
    else
      var r := KeepAll(Keep(s, cs[0]), cs[1..]);
      assert forall i :: 0 < i < |cs| ==> cs[i] == cs[1..][i - 1];
      r
  }

  /** Whether a stored sub-chunk begins at or after `from`'s header and ends by `end`. */
  predicate InsideRun(s: Option<Chunk>, from: nat, end: int) {
    s.Some? ==> from + CHUNK_HEADER_SIZE <= s.value.dataStart && ChunkEnd(s.value) <= end
  }

  /** The slots an OBST fills from its sub-chunk scan: the last mesh-class,
      MBOX and OBOX sub-chunk, each inside the scanned run. */
  function ObstSlots(data: seq<byte>, at: nat, end: int, pos: nat): (s: Slots)
    requires at < pos
    ensures s.mesh.Some? ==> s.mesh.value.body.Mesh?
    ensures s.mbox.Some? ==> s.mbox.value.body.Mbox?
    ensures s.obox.Some? ==> s.obox.value.body.Obox?
    ensures InsideRun(s.mesh, pos, end) && InsideRun(s.mbox, pos, end) && InsideRun(s.obox, pos, end)
    decreases |data| - at, 1, 0, 0
  {
    var scanned := ObstScan(data, at, end, pos);
    SubTiledBounds(data, scanned.subs, pos, end);
    var s := KeepAll(NO_SLOTS, scanned.subs);
    assert Slot(s, MeshSlot) == s.mesh && Slot(s, MboxSlot) == s.mbox && Slot(s, OboxSlot) == s.obox;
    s
  }

  /** `ReadObstChunk`: object number, a guarded name, up to 68 unknown bytes,
      then the sub-chunk scan. Every raise is caught, so an OBST always
      decodes, keeping whatever was assigned before the raise. */
  function DecodeObst(data: seq<byte>, at: nat, size: u32): (b: Body)
    ensures b.Obst? && ObstSlotsWellKinded(b)
    ensures b.objectNumber == U32OrZero(data, at + CHUNK_HEADER_SIZE)
    ensures var p := at + CHUNK_HEADER_SIZE;
            b.name == (if p + 8 <= |data| then ReadGuardedName(data, p + 8, U32At(data, p + 4)).value else "")
    ensures |b.unknownData| <= 68
    ensures var from := at + 2 * CHUNK_HEADER_SIZE;
            InsideRun(b.mesh, from, at + size) && InsideRun(b.mbox, from, at + size) && InsideRun(b.obox, from, at + size)
    decreases |data| - at, 1, 1, 0
  {
    var p := at + CHUNK_HEADER_SIZE;
    match ReadU32(data, p)
    case Failure(_) => Obst(0, "", [], None, None, None)
    case Success(number) =>
      match ReadU32(data, number.next)
      case Failure(_) => Obst(number.value, "", [], None, None, None)
      case Success(len) =>
        var name := ReadGuardedName(data, len.next, len.value);
        var unknown := Skip(data, name.next, 68);
        var slots := ObstSlots(data, at, p + size - CHUNK_HEADER_SIZE, unknown.next);
        Obst(number.value, name.value, unknown.value, slots.mesh, slots.mbox, slots.obox)
  }

  // ---------------------------------------------------------------------------
  // The top-level loop and Parse
  // ---------------------------------------------------------------------------

  /** The chunk `ReadChunk` yields at `pos`: the header found there and the
      body the tag's decoder produces for it. */
  predicate ChunkAt(data: seq<byte>, pos: nat, c: Chunk) {
    Framed(data, pos, c) && DecodeBody(data, pos, KindOfTag(c.id), c.size) == Success(c.body)
  }

  /** The chunks lie end to end from `pos`: each starts where framing left
      the previous one, and the run ends at or past the end of the buffer. */
  predicate Tiled(data: seq<byte>, cs: seq<Chunk>, pos: nat)
    decreases |cs|
  {
    if cs == [] then |data| <= pos
    else pos < |data| && ChunkAt(data, pos, cs[0]) && Tiled(data, cs[1..], ChunkEnd(cs[0]))
  }

  /** The loop of `Parse`: read chunks while the stream is before the end. */
  function ReadChunks(data: seq<byte>, pos: nat): (r: Result<seq<Chunk>, Error>)
    ensures r.Success? ==> Tiled(data, r.value, pos)
    decreases Avail(data, pos)
  {
    if pos >= |data| then Success([])
    else
      ReadChunkDecodes(data, pos);
      var step :- ReadChunk(data, pos);
      var c := step.chunk.value;
      var rest :- ReadChunks(data, step.next);
      Success([c] + rest)
  }

  /** `ReadChunk` yields exactly the chunk a tiling puts at `pos`. */
  lemma ReadChunkAt(data: seq<byte>, pos: nat, c: Chunk)
    requires pos < |data| && ChunkAt(data, pos, c)
    ensures ReadChunk(data, pos) == Success(Step(Some(c), ChunkEnd(c)))
  {
    assert ReadFourCC(data, pos).value == c.id;
  }

  lemma TiledCons(data: seq<byte>, pos: nat, c: Chunk, rest: seq<Chunk>)
    requires pos < |data| && ChunkAt(data, pos, c) && Tiled(data, rest, ChunkEnd(c))
    ensures Tiled(data, [c] + rest, pos)
  {
    assert ([c] + rest)[0] == c && ([c] + rest)[1..] == rest;
  }

  /** One turn of the loop: a chunk read at `pos`, then the rest. */
  lemma ReadChunksStep(data: seq<byte>, pos: nat, c: Chunk, rest: seq<Chunk>)
    requires pos < |data| && ReadChunk(data, pos) == Success(Step(Some(c), ChunkEnd(c)))
    requires ReadChunks(data, ChunkEnd(c)) == Success(rest)
    ensures ReadChunks(data, pos) == Success([c] + rest)
  {
  }

  /** The loop reads back any run of chunks that tiles the buffer from `pos`. */
  lemma {:induction false} TiledReadsBack(data: seq<byte>, pos: nat, cs: seq<Chunk>)
    requires Tiled(data, cs, pos)
    ensures ReadChunks(data, pos) == Success(cs)
    decreases |cs|
  {
    if cs != [] {
      ReadChunkAt(data, pos, cs[0]);
      TiledReadsBack(data, ChunkEnd(cs[0]), cs[1..]);
      ReadChunksStep(data, pos, cs[0], cs[1..]);
      assert [cs[0]] + cs[1..] == cs;
    }
  }

  /** The tiling is unique: the loop yields a run of chunks exactly when
      that run tiles the buffer from `pos`. */
  lemma ReadChunksExactly(data: seq<byte>, pos: nat, cs: seq<Chunk>)
    ensures ReadChunks(data, pos) == Success(cs) <==> Tiled(data, cs, pos)
  {
    if Tiled(data, cs, pos) {
      TiledReadsBack(data, pos, cs);
    }
  }

  /** `Parse`: the header, then the magic check, then the version check,
      then the chunk loop. */
  function Parse(data: seq<byte>): (r: Result<BmodFile, Error>)
    ensures |data| < HEADER_SIZE ==> r == Failure(EndOfStream)
    ensures HEADER_SIZE <= |data| && !SupportedMagic(HeaderAt(data).magic) ==>
              r == Failure(InvalidMagic(HeaderAt(data).magic))
    ensures HEADER_SIZE <= |data| && SupportedMagic(HeaderAt(data).magic) && !SupportedVersion(HeaderAt(data)) ==>
              r == Failure(UnsupportedVersion(HeaderAt(data).versionMajor, HeaderAt(data).versionMinor))
    ensures r.Success? ==>
              && HEADER_SIZE <= |data|
              && r.value.header == HeaderAt(data)
              && SupportedMagic(r.value.header.magic) && SupportedVersion(r.value.header)
              && Tiled(data, r.value.chunks, HEADER_SIZE)
  {
    var header :- ReadHeader(data);
    var h := header.value;
    if !SupportedMagic(h.magic) then Failure(InvalidMagic(h.magic))
    else if !SupportedVersion(h) then Failure(UnsupportedVersion(h.versionMajor, h.versionMinor))
    else
      var chunks :- ReadChunks(data, header.next);
      Success(BmodFile(h, chunks))
  }

  /** A buffer parses to `f` exactly when it holds `f`'s header, the header
      passes both checks, and `f`'s chunks tile the rest of the buffer. */
  lemma ParseExactly(data: seq<byte>, f: BmodFile)
    ensures Parse(data) == Success(f) <==>
              && HEADER_SIZE <= |data|
              && f.header == HeaderAt(data)
              && SupportedMagic(f.header.magic) && SupportedVersion(f.header)
              && Tiled(data, f.chunks, HEADER_SIZE)
  {
    ReadChunksExactly(data, HEADER_SIZE, f.chunks);
  }

  /** A decoded OBST is well kinded wherever it sits in a tiling. */
  lemma {:induction false} TiledObstsWellKinded(data: seq<byte>, cs: seq<Chunk>, pos: nat)
    requires Tiled(data, cs, pos)
    ensures ObstsWellKinded(cs)
    decreases |cs|
  {
    if cs != [] {
      TiledObstsWellKinded(data, cs[1..], ChunkEnd(cs[0]));
      if cs[0].body.Obst? {
        ObstAtWellKinded(data, pos, cs[0]);
      }
      forall i | 1 <= i < |cs| && cs[i].body.Obst? ensures ObstSlotsWellKinded(cs[i].body) {
        assert cs[i] == cs[1..][i - 1];
      }
    }
  }

  /** An OBST read anywhere keeps only sub-chunks of the right kinds. */
  lemma ObstAtWellKinded(data: seq<byte>, pos: nat, c: Chunk)
    requires ChunkAt(data, pos, c) && c.body.Obst?
    ensures ObstSlotsWellKinded(c.body)
  {
    assert KindOfTag(c.id) == ObstKind;
  }
}
