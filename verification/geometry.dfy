/** Decoders of the geometry chunks and their nested sub-chunks: the vertex
    block with its tangent heuristic, the index block, the FACE/LODP block,
    and the MESH and OBMO sub-chunk scanners. None of these can fail as a
    whole: each sits inside a try/catch that keeps what was assigned before
    the exception. */
module Geometry {
  import opened Wrappers
  import opened Binary
  import opened Cursor
  import opened Structures
  import opened Layout
  import opened Records

  // ---------------------------------------------------------------------------
  // VERT
  // ---------------------------------------------------------------------------

  /** The leftover the tangent heuristic computes: payload length minus the
      12-byte sub-header and the vertex records, each term in `uint`
      arithmetic as written, the difference taken as a `long`. */
  function TangentLeftover(size: u32, n: u32): int {
    ChunkDataSize(size) - WrapU32(12 + WrapU32(n * VERTEX_SIZE))
  }

  /** The heuristic's test: something is left over, and it is no more than
      100 bytes short of 24 bytes per vertex. There is no upper bound. */
  predicate TangentsExpected(size: u32, n: u32) {
    var r := TangentLeftover(size, n);
    r > 0 && r >= WrapU32(n * TANGENT_SIZE) - 100
  }

  /** How many tangent pairs the heuristic asks for: the leftover's whole
      24-byte units, at most one per vertex. */
  function TangentBudget(size: u32, n: u32): (k: nat)
    ensures k <= n
    ensures !TangentsExpected(size, n) ==> k == 0
    ensures TangentsExpected(size, n) ==> k * TANGENT_SIZE <= TangentLeftover(size, n)
  {
    if TangentsExpected(size, n) then Min(TangentLeftover(size, n) / TANGENT_SIZE, n) else 0
  }

  /** A vertex block whose payload holds exactly the sub-header and the
      vertex records leaves nothing over, so no vertex gets a tangent. */
  lemma NoTangentsWithoutLeftover(size: u32, n: u32)
    requires size >= CHUNK_HEADER_SIZE && 12 + n * VERTEX_SIZE < U32_MODULUS
    requires size == CHUNK_HEADER_SIZE + 12 + n * VERTEX_SIZE
    ensures TangentBudget(size, n) == 0
  {
    assert TangentLeftover(size, n) == 0;
  }

  /** A vertex block laid out as records plus a full 24-byte extension per
      vertex asks for exactly one tangent pair per vertex. */
  lemma FullExtensionBudget(size: u32, n: u32)
    requires n > 0 && 12 + n * (VERTEX_SIZE + TANGENT_SIZE) < U32_MODULUS
    requires size == CHUNK_HEADER_SIZE + 12 + n * (VERTEX_SIZE + TANGENT_SIZE)
    ensures TangentBudget(size, n) == n
  {
    assert TangentLeftover(size, n) == n * TANGENT_SIZE;
  }

  /** Vertices 0..|ts|-1 receive the tangent pairs in order; the rest keep theirs. */
  function AttachTangents(vs: seq<Vertex>, ts: seq<TangentFrame>): (r: seq<Vertex>)
    requires |ts| <= |vs|
    ensures |r| == |vs|
    ensures forall i :: 0 <= i < |ts| ==> r[i] == vs[i].(tangent := Some(ts[i]))
    ensures forall i :: |ts| <= i < |vs| ==> r[i] == vs[i]
    decreases |ts|
  {
    if |ts| == 0 then vs
    else [vs[0].(tangent := Some(ts[0]))] + AttachTangents(vs[1..], ts[1..])
  }

  /** A vertex with its tangent extension removed, for comparing against the
      record layout. */
  function WithoutTangent(v: Vertex): Vertex {
    v.(tangent := None)
  }

  /** How many tangent pairs end up stored for a run of `n` vertex records
      starting at `p`: none unless every vertex was read; otherwise the
      budget, cut short where the buffer ends. */
  function TangentsStored(data: seq<byte>, p: nat, size: u32, n: u32): nat {
    if p + VERTEX_STRIDE * n <= |data|
    then Min(TangentBudget(size, n), Avail(data, p + VERTEX_STRIDE * n) / TANGENT_SIZE)
    else 0
  }

  /** Record `i` of `r`, tangent aside, is the vertex read at `p + 36 i`. */
  predicate RecordsMatch(data: seq<byte>, p: nat, r: seq<Vertex>) {
    forall i :: 0 <= i < |r| ==>
      p + VERTEX_STRIDE * (i + 1) <= |data| && WithoutTangent(r[i]) == VertexAt(data, p + VERTEX_STRIDE * i)
  }

  /** Exactly vertices 0..k-1 carry a tangent pair, and pair `i` is the
      tangent record `i` from `base`. */
  predicate TangentsMatch(data: seq<byte>, base: nat, k: nat, r: seq<Vertex>) {
    && (forall i :: 0 <= i < |r| ==> (r[i].tangent.Some? <==> i < k))
    && (forall i :: 0 <= i < |r| && i < k ==>
          base + TANGENT_SIZE * (i + 1) <= |data| &&
          r[i].tangent == Some(TangentAt(data, base + TANGENT_SIZE * i)))
  }

  /** The tangent pass: read up to `budget` pairs from `base` and attach them
      to the vertices in order. */
  function WithTangents(data: seq<byte>, base: nat, budget: nat, vs: seq<Vertex>): (r: seq<Vertex>)
    requires budget <= |vs|
    requires forall i :: 0 <= i < |vs| ==> vs[i].tangent.None?
    ensures |r| == |vs|
    ensures forall i :: 0 <= i < |vs| ==> WithoutTangent(r[i]) == WithoutTangent(vs[i])
    ensures TangentsMatch(data, base, Min(budget, Avail(data, base) / TANGENT_SIZE), r)
  {
    AttachTangents(vs, ReadTangents(data, base, budget))
  }

  /** The vertex reads from `p`, 36 bytes apart, with the tangent heuristic
      applied (see `VertexRunLayout`). */
  function VertexRun(data: seq<byte>, p: nat, size: u32, n: u32): seq<Vertex>
    requires p <= |data|
  {
    var vs := ReadVertices(data, p, n);
    if !vs.complete then vs.vertices
    else WithTangents(data, p + VERTEX_STRIDE * n, TangentBudget(size, n), vs.vertices)
  }

  /** The run holds `n` vertices (fewer only where the buffer ends), vertex
      `i` is the record at `p + 36 i`, and the tangent reads start where the
      last vertex read stopped, `p + 36 n`, although the budget counts 40
      bytes per vertex. */
  lemma VertexRunLayout(data: seq<byte>, p: nat, size: u32, n: u32)
    requires p <= |data|
    ensures var r := VertexRun(data, p, size, n);
            && |r| == Min(n, Avail(data, p) / VERTEX_STRIDE)
            && RecordsMatch(data, p, r)
            && TangentsMatch(data, p + VERTEX_STRIDE * n, TangentsStored(data, p, size, n), r)
  {
    var vs := ReadVertices(data, p, n);
    assert RecordsMatch(data, p, vs.vertices);
    if !vs.complete {
      assert p + VERTEX_STRIDE * n > |data|;
      assert TangentsStored(data, p, size, n) == 0;
    } else {
      assert n > 0 ==> p + VERTEX_STRIDE * ((n - 1) + 1) <= |data|;
      var base := p + VERTEX_STRIDE * n;
      assert TangentsStored(data, p, size, n) == Min(TangentBudget(size, n), Avail(data, base) / TANGENT_SIZE);
    }
  }

  /** `ReadVertChunkInMesh` for a VERT header at `at` inside a geometry chunk
      declaring `n` vertices: the 12-byte sub-header is skipped uninterpreted,
      exactly `n` vertices are read 36 bytes apart from `at + 20` (fewer only
      where the buffer ends), and the tangent heuristic fills vertices 0.. in order. */
  function ReadVert(data: seq<byte>, at: nat, size: u32, n: u32): (r: VertChunk)
    ensures r.size == size && r.dataStart == at + CHUNK_HEADER_SIZE
    ensures var p := at + CHUNK_HEADER_SIZE + 12;
            && (p <= |data| ==> r.vertices == VertexRun(data, p, size, n))
            && (p > |data| ==> r.vertices == [])
  {
    var dataStart := at + CHUNK_HEADER_SIZE;
    if dataStart + 12 > |data| then VertChunk(size, dataStart, [])
    else VertChunk(size, dataStart, VertexRun(data, dataStart + 12, size, n))
  }

  // ---------------------------------------------------------------------------
  // ISTR
  // ---------------------------------------------------------------------------

  /** `ReadIstrChunk`: a count then that many 16-bit indices. An index list
      the buffer cannot hold raises, and the chunk is not stored. */
  function ReadIstr(data: seq<byte>, at: nat, size: u32): (r: Result<Got<IstrChunk>, Error>)
    ensures var p := at + CHUNK_HEADER_SIZE;
            r.Success? <==> p + 4 <= |data| && (U32At(data, p) == 0 || p + 4 + 2 * U32At(data, p) <= |data|)
    ensures r.Success? ==> var p := at + CHUNK_HEADER_SIZE;
            var c := r.value.value;
            && c.size == size && c.dataStart == p
            && c.indexCount == U32At(data, p)
            && |c.indices| == c.indexCount
            && r.value.next == p + 4 + 2 * c.indexCount
            && (forall i :: 0 <= i < |c.indices| ==> c.indices[i] == U16At(data, p + 4 + 2 * i))
  {
    var dataStart := at + CHUNK_HEADER_SIZE;
    var count :- ReadU32(data, dataStart);
    var indices :- ReadU16s(data, count.next, count.value);
    Success(Got(IstrChunk(size, dataStart, count.value, indices.value), indices.next))
  }

  // ---------------------------------------------------------------------------
  // FACE / LODP
  // ---------------------------------------------------------------------------

  /** `ReadLodpChunk`: five header words, then `KeyframeCount` keyframes of
      eleven words each. */
  function ReadLodp(data: seq<byte>, at: nat, size: u32): (r: Result<LodpChunk, Error>)
    ensures r.Success? ==> var p := at + CHUNK_HEADER_SIZE;
            && p + 20 <= |data|
            && r.value.size == size && r.value.dataStart == p
            && r.value.keyframeCount == U32At(data, p)
            && |r.value.keyframes| == r.value.keyframeCount
            && (forall i :: 0 <= i < |r.value.keyframes| ==>
                  p + 20 + LODP_KEYFRAME_STRIDE * (i + 1) <= |data| &&
                  r.value.keyframes[i] == LodpKeyframeAt(data, p + 20 + LODP_KEYFRAME_STRIDE * i))
  {
    var p := at + CHUNK_HEADER_SIZE;
    if p + 20 > |data| then Failure(EndOfStream)
    else
      var keys :- ReadLodpKeyframes(data, p + 20, U32At(data, p));
      Success(LodpChunk(size, p, U32At(data, p), U32At(data, p + 4), U32At(data, p + 8),
                        U32At(data, p + 12), U32At(data, p + 16), keys.value))
  }

  /** `l` is the LODP sub-chunk whose header sits 8 bytes before its data. */
  predicate LodpAt(data: seq<byte>, l: LodpChunk) {
    && CHUNK_HEADER_SIZE <= l.dataStart <= |data|
    && ReadFourCC(data, l.dataStart - CHUNK_HEADER_SIZE).value == "LODP"
    && l.size == U32At(data, l.dataStart - 4)
    && ReadLodp(data, l.dataStart - CHUNK_HEADER_SIZE, l.size) == Success(l)
  }

  /** ... and that header is at or after `lo`. */
  predicate LodpFrom(data: seq<byte>, lo: nat, l: LodpChunk) {
    lo + CHUNK_HEADER_SIZE <= l.dataStart && LodpAt(data, l)
  }

  /** Every block of `ls` is a LODP sub-chunk at or after `lo`. */
  predicate LodpsFrom(data: seq<byte>, lo: nat, ls: seq<LodpChunk>) {
    forall i :: 0 <= i < |ls| ==> LodpFrom(data, lo, ls[i])
  }

  /** A block at `lo` followed by blocks from a later `lo'` are all from `lo`. */
  lemma LodpsFromCons(data: seq<byte>, lo: nat, lo': nat, hd: Option<LodpChunk>, rest: seq<LodpChunk>)
    requires lo <= lo' && LodpsFrom(data, lo', rest) && (hd.Some? ==> LodpFrom(data, lo, hd.value))
    ensures LodpsFrom(data, lo, (if hd.Some? then [hd.value] else []) + rest)
  {
    var ls := (if hd.Some? then [hd.value] else []) + rest;
    forall i | 0 <= i < |ls| ensures LodpFrom(data, lo, ls[i]) {
      if hd.Some? && i == 0 {
      } else {
        var j := if hd.Some? then i - 1 else i;
        assert ls[i] == rest[j] && LodpFrom(data, lo', rest[j]);
      }
    }
  }

  /** One FACE sub-chunk read at `pos`: the LODP block when the tag says
      so, and where the loop goes on. */
  datatype FaceItem = FaceItem(lodp: Option<LodpChunk>, next: nat)

  /** The FACE loop body: the header is not size-checked, and the next
      position adds the payload length in `uint` arithmetic. */
  function FaceStep(data: seq<byte>, pos: nat): (r: Result<FaceItem, Error>)
    ensures r.Success? ==> pos + CHUNK_HEADER_SIZE <= |data|
    ensures r.Success? ==> r.value.next == pos + CHUNK_HEADER_SIZE + ChunkDataSize(U32At(data, pos + 4))
    ensures r.Success? ==> (r.value.lodp.Some? <==> ReadFourCC(data, pos).value == "LODP")
  {
    var tag := ReadFourCC(data, pos);
    var size :- ReadU32(data, tag.next);
    assert tag.next == pos + 4;
    var next := size.next + ChunkDataSize(size.value);
    if tag.value == "LODP" then
      var lodp :- ReadLodp(data, pos, size.value);
      Success(FaceItem(Some(lodp), next))
    else
      Success(FaceItem(None, next))
  }

  /** A block the FACE loop body decodes is the LODP sub-chunk at `pos`. */
  lemma FaceStepFrom(data: seq<byte>, pos: nat)
    requires FaceStep(data, pos).Success? && FaceStep(data, pos).value.lodp.Some?
    ensures LodpFrom(data, pos, FaceStep(data, pos).value.lodp.value)
  {
    var tag := ReadFourCC(data, pos);
    assert tag.next == pos + 4;
  }

  /** The FACE sub-chunk loop from `pos`: LODP entries are decoded and all
      others skipped; a raise fails the whole FACE, so the blocks found from
      `pos` on are kept only when the loop reaches `end`. */
  function FaceScan(data: seq<byte>, end: int, pos: nat): (r: Result<seq<LodpChunk>, Error>)
    decreases |data| - pos
  {
    if pos >= end then Success([])
    else
      var item :- FaceStep(data, pos);
      var rest :- FaceScan(data, end, item.next);
      match item.lodp
      case Some(lodp) => Success([lodp] + rest)
      case None => Success(rest)
  }

  /** Every block the FACE loop collects is the LODP sub-chunk at one of the
      headers it meets. */
  lemma {:induction false} FaceScanFrom(data: seq<byte>, end: int, pos: nat)
    requires FaceScan(data, end, pos).Success?
    ensures LodpsFrom(data, pos, FaceScan(data, end, pos).value)
    decreases |data| - pos
  {
    if pos < end {
      var item := FaceStep(data, pos).value;
      FaceScanFrom(data, end, item.next);
      if item.lodp.Some? {
        FaceStepFrom(data, pos);
      }
      assert FaceScan(data, end, pos).value ==
             (if item.lodp.Some? then [item.lodp.value] else []) + FaceScan(data, end, item.next).value;
      LodpsFromCons(data, pos, item.next, item.lodp, FaceScan(data, end, item.next).value);
    }
  }

  /** `ReadFaceChunk` for a FACE header at `at`. */
  function ReadFace(data: seq<byte>, at: nat, size: u32): (r: Result<FaceChunk, Error>)
    ensures r.Success? ==> var p := at + CHUNK_HEADER_SIZE;
            p + 4 <= |data| && r.value == FaceChunk(size, p, U32At(data, p), r.value.lodps)
  {
    var dataStart := at + CHUNK_HEADER_SIZE;
    var count :- ReadU32(data, dataStart);
    var lodps :- FaceScan(data, dataStart + ChunkDataSize(size), count.next);
    Success(FaceChunk(size, dataStart, count.value, lodps))
  }

  /** Every LODP block a FACE holds is the LODP sub-chunk at one of the
      headers after its count word. */
  lemma ReadFaceLodps(data: seq<byte>, at: nat, size: u32)
    requires ReadFace(data, at, size).Success?
    ensures LodpsFrom(data, at + CHUNK_HEADER_SIZE + 4, ReadFace(data, at, size).value.lodps)
  {
    var p := at + CHUNK_HEADER_SIZE;
    var end := p + ChunkDataSize(size);
    assert ReadU32(data, p).value.next == p + 4;
    assert ReadFace(data, at, size).value.lodps == FaceScan(data, end, p + 4).value;
    FaceScanFrom(data, end, p + 4);
  }

  // ---------------------------------------------------------------------------
  // Sub-chunk scans
  // ---------------------------------------------------------------------------

  /** Why a sub-chunk scan ended. */
  datatype Stop =
    | Exhausted   // the cursor reached the end of the parent payload
    | ShortTail   // fewer than 8 bytes were left for another header
    | BadHeader   // a header's size was below 8 or beyond the parent payload
    | Aborted     // a read raised; the catch block took over

  /** The size test the MESH and OBST scans apply to a sub-chunk header. */
  predicate BadSubSize(size: u32, remaining: int) {
    size == 0 || size < CHUNK_HEADER_SIZE || size > remaining
  }

  datatype MeshScanned = MeshScanned(vert: Option<VertChunk>, istr: Option<IstrChunk>, pos: nat, stop: Stop)

  /** One pass of the MESH loop body: either the scan goes on from `next`
      with the parts updated, or it stops with its final state. */
  datatype MeshStep =
    | MeshGoOn(vert: Option<VertChunk>, istr: Option<IstrChunk>, next: nat)
    | MeshHalt(scanned: MeshScanned)

  /** What a later part of a scan keeps, the scan as a whole keeps. */
  lemma VertKeptTrans(data: seq<byte>, lo: nat, lo': nat, end: int, n: u32, v: Option<VertChunk>, v1: Option<VertChunk>, v0: Option<VertChunk>)
    requires lo <= lo' && VertKept(data, lo', end, n, v, v1) && VertKept(data, lo, end, n, v1, v0)
    ensures VertKept(data, lo, end, n, v, v0)
  {
    if v != v1 {
      var w := v.value;
      assert HeaderAt(data, lo', end, Sub(w.dataStart - CHUNK_HEADER_SIZE, "VERT", w.size));
    }
  }

  lemma IstrKeptTrans(data: seq<byte>, lo: nat, lo': nat, end: int, c: Option<IstrChunk>, c1: Option<IstrChunk>, c0: Option<IstrChunk>)
    requires lo <= lo' && IstrKept(data, lo', end, c, c1) && IstrKept(data, lo, end, c1, c0)
    ensures IstrKept(data, lo, end, c, c0)
  {
    if c != c1 {
      var w := c.value;
      assert HeaderAt(data, lo', end, Sub(w.dataStart - CHUNK_HEADER_SIZE, "ISTR", w.size));
    }
  }

  lemma FaceKeptTrans(data: seq<byte>, lo: nat, lo': nat, end: int, f: Option<FaceChunk>, f1: Option<FaceChunk>, f0: Option<FaceChunk>)
    requires lo <= lo' && FaceKept(data, lo', end, f, f1) && FaceKept(data, lo, end, f1, f0)
    ensures FaceKept(data, lo, end, f, f0)
  {
    if f != f1 {
      var w := f.value;
      assert HeaderAt(data, lo', end, Sub(w.dataStart - CHUNK_HEADER_SIZE, "FACE", w.size));
    }
  }

  /** A sub-chunk header as a scan meets it: where it sits, its tag and its size. */
  datatype Sub = Sub(at: nat, tag: string, size: u32)

  /** The header `s` is in the buffer, at or after `lo`, with a size the
      scans accept: at least 8 and ending inside the parent payload, which
      ends at `end`. */
  predicate HeaderAt(data: seq<byte>, lo: nat, end: int, s: Sub) {
    && lo <= s.at && s.at + CHUNK_HEADER_SIZE <= |data|
    && s.tag == ReadFourCC(data, s.at).value && s.size == U32At(data, s.at + 4)
    && CHUNK_HEADER_SIZE <= s.size && s.at + s.size <= end
  }

  /** `v` is the VERT sub-chunk whose header sits 8 bytes before its data,
      decoded with the parent's vertex count `n`. */
  predicate VertFrom(data: seq<byte>, lo: nat, end: int, n: u32, v: VertChunk) {
    && v.dataStart >= CHUNK_HEADER_SIZE
    && HeaderAt(data, lo, end, Sub(v.dataStart - CHUNK_HEADER_SIZE, "VERT", v.size))
    && v == ReadVert(data, v.dataStart - CHUNK_HEADER_SIZE, v.size, n)
  }

  /** `c` is the ISTR sub-chunk whose header sits 8 bytes before its data. */
  predicate IstrFrom(data: seq<byte>, lo: nat, end: int, c: IstrChunk) {
    && c.dataStart >= CHUNK_HEADER_SIZE
    && HeaderAt(data, lo, end, Sub(c.dataStart - CHUNK_HEADER_SIZE, "ISTR", c.size))
    && ReadIstr(data, c.dataStart - CHUNK_HEADER_SIZE, c.size).Success?
    && ReadIstr(data, c.dataStart - CHUNK_HEADER_SIZE, c.size).value.value == c
  }

  /** `f` is the FACE sub-chunk whose header sits 8 bytes before its data. */
  predicate FaceFrom(data: seq<byte>, lo: nat, end: int, f: FaceChunk) {
    && f.dataStart >= CHUNK_HEADER_SIZE
    && HeaderAt(data, lo, end, Sub(f.dataStart - CHUNK_HEADER_SIZE, "FACE", f.size))
    && ReadFace(data, f.dataStart - CHUNK_HEADER_SIZE, f.size) == Success(f)
  }

  /** A stored part is either the one the scan started with or one decoded
      from a sub-chunk header the scan met. */
  predicate VertKept(data: seq<byte>, lo: nat, end: int, n: u32, v: Option<VertChunk>, v0: Option<VertChunk>) {
    v == v0 || (v.Some? && VertFrom(data, lo, end, n, v.value))
  }

  predicate IstrKept(data: seq<byte>, lo: nat, end: int, c: Option<IstrChunk>, c0: Option<IstrChunk>) {
    c == c0 || (c.Some? && IstrFrom(data, lo, end, c.value))
  }

  predicate FaceKept(data: seq<byte>, lo: nat, end: int, f: Option<FaceChunk>, f0: Option<FaceChunk>) {
    f == f0 || (f.Some? && FaceFrom(data, lo, end, f.value))
  }

  function StepMesh(data: seq<byte>, end: int, n: u32, pos: nat,
                    vert: Option<VertChunk>, istr: Option<IstrChunk>): (t: MeshStep)
    requires pos < end
    ensures t.MeshGoOn? ==> pos < t.next
    ensures t.MeshHalt? ==> t.scanned.vert == vert && t.scanned.istr == istr
    ensures t.MeshHalt? && t.scanned.stop == ShortTail ==> t.scanned.pos == pos && end < pos + CHUNK_HEADER_SIZE
    ensures t.MeshHalt? && t.scanned.stop == BadHeader ==>
              t.scanned.pos == pos && pos + CHUNK_HEADER_SIZE <= |data| && BadSubSize(U32At(data, pos + 4), end - pos)
    ensures t.MeshHalt? ==> t.scanned.stop == Aborted ==> t.scanned.pos == end
    ensures t.MeshHalt? ==> t.scanned.stop != Exhausted
  {
    if end - pos < CHUNK_HEADER_SIZE then MeshHalt(MeshScanned(vert, istr, pos, ShortTail))
    else
      var tag := ReadFourCC(data, pos);
      match ReadU32(data, tag.next)
      case Failure(_) => MeshHalt(MeshScanned(vert, istr, end, Aborted))
      case Success(size) =>
        if BadSubSize(size.value, end - pos) then MeshHalt(MeshScanned(vert, istr, pos, BadHeader))
        else if tag.value == "VERT" then
          assert tag.next == pos + 4;
          MeshGoOn(Some(ReadVert(data, pos, size.value, n)), istr, pos + size.value)
        else if tag.value == "ISTR" then
          match ReadIstr(data, pos, size.value)
          case Failure(_) => MeshHalt(MeshScanned(vert, istr, end, Aborted))
          case Success(got) =>
            assert tag.next == pos + 4;
            MeshGoOn(vert, Some(got.value), got.next)
        else
          MeshGoOn(vert, istr, pos + size.value)
  }

  /** A part one pass of the MESH loop stores is the one it had or the one
      decoded at `pos`, VERT with the parent's vertex count `n`. */
  lemma StepMeshKeeps(data: seq<byte>, end: int, n: u32, pos: nat,
                      vert: Option<VertChunk>, istr: Option<IstrChunk>)
    requires pos < end && StepMesh(data, end, n, pos, vert, istr).MeshGoOn?
    ensures var t := StepMesh(data, end, n, pos, vert, istr);
            VertKept(data, pos, end, n, t.vert, vert) && IstrKept(data, pos, end, t.istr, istr)
  {
    var tag := ReadFourCC(data, pos);
    assert tag.next == pos + 4;
  }

  /** The MESH sub-chunk loop from `pos` up to `end`. VERT and ISTR are
      decoded (the last of each wins), FACE and unknown tags are skipped.
      After ISTR the cursor is not re-seated: it stays just past the indices.
      A bad header leaves the cursor at that header's start; a raise moves
      it to `end`. */
  function MeshScan(data: seq<byte>, end: int, n: u32, pos: nat,
                    vert: Option<VertChunk>, istr: Option<IstrChunk>): (s: MeshScanned)
    ensures s.pos >= pos
    ensures s.stop == Exhausted ==> end <= s.pos
    ensures s.stop == ShortTail ==> s.pos < end < s.pos + CHUNK_HEADER_SIZE
    ensures s.stop == BadHeader ==>
              s.pos < end && s.pos + CHUNK_HEADER_SIZE <= |data| && BadSubSize(U32At(data, s.pos + 4), end - s.pos)
    ensures s.stop == Aborted ==> s.pos == end
    decreases end - pos
  {
    if pos >= end then MeshScanned(vert, istr, pos, Exhausted)
    else
      var t := StepMesh(data, end, n, pos, vert, istr);
      if t.MeshHalt? then t.scanned
      else MeshScan(data, end, n, t.next, t.vert, t.istr)
  }

  /** Each part the MESH loop stores is the one it started with or one
      decoded from a sub-chunk header it met, VERT with the count `n`. */
  lemma {:induction false} MeshScanKeeps(data: seq<byte>, end: int, n: u32, pos: nat,
                                         vert: Option<VertChunk>, istr: Option<IstrChunk>)
    ensures var s := MeshScan(data, end, n, pos, vert, istr);
            VertKept(data, pos, end, n, s.vert, vert) && IstrKept(data, pos, end, s.istr, istr)
    decreases end - pos
  {
    if pos < end {
      var t := StepMesh(data, end, n, pos, vert, istr);
      if t.MeshGoOn? {
        var s := MeshScan(data, end, n, t.next, t.vert, t.istr);
        StepMeshKeeps(data, end, n, pos, vert, istr);
        MeshScanKeeps(data, end, n, t.next, t.vert, t.istr);
        VertKeptTrans(data, pos, t.next, end, n, s.vert, t.vert, vert);
        IstrKeptTrans(data, pos, t.next, end, s.istr, t.istr, istr);
      }
    }
  }

  /** `ReadMeshChunk` (also used for MEMS) for a chunk header at `at`. The
      three header words are kept as far as they could be read (zero
      otherwise); the scan covers `dataStart + size - 8` in signed 64-bit
      arithmetic, so a size below 8 scans nothing. FACE is never stored. */
  function DecodeMesh(data: seq<byte>, at: nat, size: u32): (b: Body)
    ensures b.Mesh?
    ensures var p := at + CHUNK_HEADER_SIZE;
            b.unknown == U32OrZero(data, p) && b.vertexCount == U32OrZero(data, p + 4) && b.faceCount == U32OrZero(data, p + 8)
    ensures size < CHUNK_HEADER_SIZE + 12 ==> b.vert.None? && b.istr.None?
  {
    var p := at + CHUNK_HEADER_SIZE;
    if p + 12 > |data| then
      Mesh(U32OrZero(data, p), U32OrZero(data, p + 4), U32OrZero(data, p + 8), None, None)
    else
      var n := U32At(data, p + 4);
      var s := MeshScan(data, p + size - CHUNK_HEADER_SIZE, n, p + 12, None, None);
      Mesh(U32At(data, p), n, U32At(data, p + 8), s.vert, s.istr)
  }

  /** A stored VERT is the VERT sub-chunk at a header after the three MESH
      words and inside the payload, read with the declared vertex count;
      a stored ISTR is the ISTR sub-chunk at such a header. */
  lemma DecodeMeshKeeps(data: seq<byte>, at: nat, size: u32)
    ensures var b := DecodeMesh(data, at, size);
            var p := at + CHUNK_HEADER_SIZE;
            && VertKept(data, p + 12, at + size, b.vertexCount, b.vert, None)
            && IstrKept(data, p + 12, at + size, b.istr, None)
  {
    var p := at + CHUNK_HEADER_SIZE;
    if p + 12 <= |data| {
      var end := at + size;
      assert end == p + size - CHUNK_HEADER_SIZE;
      var s := MeshScan(data, end, U32At(data, p + 4), p + 12, None, None);
      assert DecodeMesh(data, at, size) == Mesh(U32At(data, p), U32At(data, p + 4), U32At(data, p + 8), s.vert, s.istr);
      MeshScanKeeps(data, end, U32At(data, p + 4), p + 12, None, None);
    }
  }

  datatype ObmoParts = ObmoParts(vert: Option<VertChunk>, istr: Option<IstrChunk>, face: Option<FaceChunk>)

  /** Each part of `r` is the one in `parts` or one decoded from a sub-chunk
      header at or after `lo`, VERT with the count `n`. */
  predicate PartsKept(data: seq<byte>, lo: nat, end: int, n: u32, r: ObmoParts, parts: ObmoParts) {
    && VertKept(data, lo, end, n, r.vert, parts.vert)
    && IstrKept(data, lo, end, r.istr, parts.istr)
    && FaceKept(data, lo, end, r.face, parts.face)
  }

  lemma PartsKeptTrans(data: seq<byte>, lo: nat, lo': nat, end: int, n: u32, r: ObmoParts, r1: ObmoParts, r0: ObmoParts)
    requires lo <= lo' && PartsKept(data, lo', end, n, r, r1) && PartsKept(data, lo, end, n, r1, r0)
    ensures PartsKept(data, lo, end, n, r, r0)
  {
    VertKeptTrans(data, lo, lo', end, n, r.vert, r1.vert, r0.vert);
    IstrKeptTrans(data, lo, lo', end, r.istr, r1.istr, r0.istr);
    FaceKeptTrans(data, lo, lo', end, r.face, r1.face, r0.face);
  }

  /** One sub-chunk of the OBMO loop, whose header at `pos` has passed the
      size test: VERT, ISTR and FACE are decoded into `parts`, anything else
      is skipped; `None` when ISTR or FACE raises. */
  function ObmoStep(data: seq<byte>, end: int, n: u32, pos: nat, tag: string, size: u32, parts: ObmoParts): (r: Option<ObmoParts>)
    requires HeaderAt(data, pos, end, Sub(pos, tag, size))
  {
    if tag == "VERT" then Some(parts.(vert := Some(ReadVert(data, pos, size, n))))
    else if tag == "ISTR" then
      match ReadIstr(data, pos, size)
      case Failure(_) => None
      case Success(got) => Some(parts.(istr := Some(got.value)))
    else if tag == "FACE" then
      match ReadFace(data, pos, size)
      case Failure(_) => None
      case Success(face) => Some(parts.(face := Some(face)))
    else Some(parts)
  }

  /** A part one OBMO step stores is the one it had or the one decoded at
      `pos`, VERT with the count `n`. */
  lemma ObmoStepKeeps(data: seq<byte>, end: int, n: u32, pos: nat, tag: string, size: u32, parts: ObmoParts)
    requires HeaderAt(data, pos, end, Sub(pos, tag, size))
    ensures var r := ObmoStep(data, end, n, pos, tag, size, parts);
            r.Some? ==> PartsKept(data, pos, end, n, r.value, parts)
  {
    if tag == "VERT" {
      assert ReadVert(data, pos, size, n).dataStart - CHUNK_HEADER_SIZE == pos;
    }
  }

  /** The OBMO sub-chunk loop. A header whose size is below 8 or beyond the
      payload ends the scan (the cursor is not reset); VERT, ISTR and FACE are
      decoded, and after every decoded or skipped sub-chunk the cursor is
      re-seated at its end. A raise inside ISTR or FACE ends the scan with
      the parts stored so far. */
  function ObmoScan(data: seq<byte>, end: int, n: u32, pos: nat, parts: ObmoParts): (r: ObmoParts)
    decreases end - pos
  {
    if pos >= end || end - pos < CHUNK_HEADER_SIZE then parts
    else
      var tag := ReadFourCC(data, pos);
      match ReadU32(data, tag.next)
      case Failure(_) => parts
      case Success(size) =>
        if size.value < CHUNK_HEADER_SIZE || size.value > end - pos then parts
        else
          assert tag.next == pos + 4;
          match ObmoStep(data, end, n, pos, tag.value, size.value, parts)
          case None => parts
          case Some(parts') => ObmoScan(data, end, n, pos + size.value, parts')
  }

  /** Each part the OBMO loop stores is the one it started with or one
      decoded from a sub-chunk header it met, VERT with the count `n`. */
  lemma {:induction false} ObmoScanKeeps(data: seq<byte>, end: int, n: u32, pos: nat, parts: ObmoParts)
    ensures PartsKept(data, pos, end, n, ObmoScan(data, end, n, pos, parts), parts)
    decreases end - pos
  {
    if pos < end && end - pos >= CHUNK_HEADER_SIZE {
      var tag := ReadFourCC(data, pos);
      if ReadU32(data, tag.next).Success? {
        var size := ReadU32(data, tag.next).value.value;
        if CHUNK_HEADER_SIZE <= size <= end - pos {
          assert tag.next == pos + 4;
          var step := ObmoStep(data, end, n, pos, tag.value, size, parts);
          if step.Some? {
            var r := ObmoScan(data, end, n, pos + size, step.value);
            assert ObmoScan(data, end, n, pos, parts) == r;
            ObmoStepKeeps(data, end, n, pos, tag.value, size, parts);
            ObmoScanKeeps(data, end, n, pos + size, step.value);
            PartsKeptTrans(data, pos, pos + size, end, n, r, step.value, parts);
          }
        }
      }
    }
  }

  /** What follows the OBMO name at `q`: three words, the second of them the
      vertex count VERT uses, then the sub-chunk loop up to `end`. When the
      words are cut off, nothing is stored. */
  function ObmoAfterName(data: seq<byte>, end: int, q: nat): ObmoParts {
    if q + 12 > |data| then ObmoParts(None, None, None)
    else ObmoScan(data, end, U32At(data, q + 4), q + 12, ObmoParts(None, None, None))
  }

  /** `ReadObmoChunk` for a chunk header at `at`. The name is read with the
      unchecked `(int)` length cast and no length guard: a length from 2^31
      up raises before the name is assigned, leaving it unset and nothing
      else stored. None of the three words after the name is stored. */
  function DecodeObmo(data: seq<byte>, at: nat, size: u32): (b: Body)
    ensures b.Obmo?
    ensures b.objectName.Some? <==>
              at + CHUNK_HEADER_SIZE + 4 <= |data| && U32At(data, at + CHUNK_HEADER_SIZE) < 0x8000_0000
    ensures b.objectName.Some? ==>
              b.objectName.value == ReadText(data, at + CHUNK_HEADER_SIZE + 4, U32At(data, at + CHUNK_HEADER_SIZE)).value
    ensures b.objectName.None? ==> b.vert.None? && b.istr.None? && b.face.None?
    ensures b.objectName.Some? ==>
              ObmoParts(b.vert, b.istr, b.face) ==
              ObmoAfterName(data, at + CHUNK_HEADER_SIZE + ChunkDataSize(size), NameEnd(data, at + CHUNK_HEADER_SIZE))
  {
    var p := at + CHUNK_HEADER_SIZE;
    match ReadU32(data, p)
    case Failure(_) => Obmo(None, None, None, None)
    case Success(len) =>
      match ReadString(data, len.next, ToInt32(len.value))
      case Failure(_) => Obmo(None, None, None, None)
      case Success(name) =>
        var parts := ObmoAfterName(data, p + ChunkDataSize(size), NameEnd(data, p));
        Obmo(Some(name.value), parts.vert, parts.istr, parts.face)
  }

  /** What follows the name keeps only parts decoded after the three words. */
  lemma ObmoAfterNameKeeps(data: seq<byte>, end: int, q: nat)
    ensures var r := ObmoAfterName(data, end, q);
            r != ObmoParts(None, None, None) ==>
              && q + 12 <= |data|
              && PartsKept(data, q + 12, end, U32At(data, q + 4), r, ObmoParts(None, None, None))
  {
    if q + 12 <= |data| {
      ObmoScanKeeps(data, end, U32At(data, q + 4), q + 12, ObmoParts(None, None, None));
    }
  }

  // ---------------------------------------------------------------------------
  // Well-formed payloads
  // ---------------------------------------------------------------------------


  /** `subs` tile the payload from `pos` to `end`: each header sits where the
      previous sub-chunk ends and has a size the scans accept. */
  predicate SubsTiled(data: seq<byte>, pos: nat, end: int, subs: seq<Sub>)
    decreases |subs|
  {
    if subs == [] then pos == end
    else subs[0].at == pos && HeaderAt(data, pos, end, subs[0]) && SubsTiled(data, pos + subs[0].size, end, subs[1..])
  }

  /** The last sub-chunk of `subs` carrying `tag`, if any. */
  function LastTagged(subs: seq<Sub>, tag: string): (r: Option<Sub>)
    ensures r.Some? ==> r.value in subs && r.value.tag == tag
    ensures r.None? ==> forall i :: 0 <= i < |subs| ==> subs[i].tag != tag
    decreases |subs|
  {
    if subs == [] then None
    else if subs[|subs| - 1].tag == tag then Some(subs[|subs| - 1])
    else LastTagged(subs[..|subs| - 1], tag)
  }

  /** Putting a sub-chunk in front changes the last one only when the rest
      has none of that tag. */
  lemma {:induction false} LastTaggedCons(h: Sub, t: seq<Sub>, tag: string)
    ensures LastTagged([h] + t, tag) ==
              if LastTagged(t, tag).Some? then LastTagged(t, tag)
              else if h.tag == tag then Some(h) else None
    decreases |t|
  {
    var s := [h] + t;
    if t != [] {
      assert s[|s| - 1] == t[|t| - 1];
      assert s[..|s| - 1] == [h] + t[..|t| - 1];
      LastTaggedCons(h, t[..|t| - 1], tag);
    } else {
      assert s[..|s| - 1] == [];
    }
  }

  /** The sub-chunk `s` if it carries `tag`. */
  function Tagged(s: Sub, tag: string): Option<Sub> {
    if s.tag == tag then Some(s) else None
  }

  /** The VERT a scan holds after meeting the sub-chunk `o`: `v0` when there
      is none, else the VERT decoded there with the count `n`. */
  function VertOf(data: seq<byte>, o: Option<Sub>, n: u32, v0: Option<VertChunk>): Option<VertChunk> {
    match o
    case None => v0
    case Some(s) => Some(ReadVert(data, s.at, s.size, n))
  }

  /** The ISTR a scan holds after meeting the sub-chunk `o`. */
  function IstrOf(data: seq<byte>, o: Option<Sub>, c0: Option<IstrChunk>): Option<IstrChunk> {
    match o
    case None => c0
    case Some(s) =>
      match ReadIstr(data, s.at, s.size)
      case Success(g) => Some(g.value)
      case Failure(_) => None
  }

  /** The FACE a scan holds after meeting the sub-chunk `o`. */
  function FaceOf(data: seq<byte>, o: Option<Sub>, f0: Option<FaceChunk>): Option<FaceChunk> {
    match o
    case None => f0
    case Some(s) =>
      match ReadFace(data, s.at, s.size)
      case Success(f) => Some(f)
      case Failure(_) => None
  }

  /** The VERT held after meeting `subs` in order: each VERT replaces the one before. */
  function FoldVert(data: seq<byte>, subs: seq<Sub>, n: u32, v0: Option<VertChunk>): Option<VertChunk>
    decreases |subs|
  {
    if subs == [] then v0 else FoldVert(data, subs[1..], n, VertOf(data, Tagged(subs[0], "VERT"), n, v0))
  }

  function FoldIstr(data: seq<byte>, subs: seq<Sub>, c0: Option<IstrChunk>): Option<IstrChunk>
    decreases |subs|
  {
    if subs == [] then c0 else FoldIstr(data, subs[1..], IstrOf(data, Tagged(subs[0], "ISTR"), c0))
  }

  function FoldFace(data: seq<byte>, subs: seq<Sub>, f0: Option<FaceChunk>): Option<FaceChunk>
    decreases |subs|
  {
    if subs == [] then f0 else FoldFace(data, subs[1..], FaceOf(data, Tagged(subs[0], "FACE"), f0))
  }

  /** Replacing part by part in order leaves the part of the last sub-chunk
      with the tag, or the starting one when there is none. */
  lemma {:induction false} FoldVertIsLast(data: seq<byte>, subs: seq<Sub>, n: u32, v0: Option<VertChunk>)
    ensures FoldVert(data, subs, n, v0) == VertOf(data, LastTagged(subs, "VERT"), n, v0)
    decreases |subs|
  {
    if subs != [] {
      var h, t := subs[0], subs[1..];
      assert subs == [h] + t;
      FoldVertIsLast(data, t, n, VertOf(data, Tagged(h, "VERT"), n, v0));
      LastTaggedCons(h, t, "VERT");
    }
  }

  lemma {:induction false} FoldIstrIsLast(data: seq<byte>, subs: seq<Sub>, c0: Option<IstrChunk>)
    ensures FoldIstr(data, subs, c0) == IstrOf(data, LastTagged(subs, "ISTR"), c0)
    decreases |subs|
  {
    if subs != [] {
      var h, t := subs[0], subs[1..];
      assert subs == [h] + t;
      FoldIstrIsLast(data, t, IstrOf(data, Tagged(h, "ISTR"), c0));
      LastTaggedCons(h, t, "ISTR");
    }
  }

  lemma {:induction false} FoldFaceIsLast(data: seq<byte>, subs: seq<Sub>, f0: Option<FaceChunk>)
    ensures FoldFace(data, subs, f0) == FaceOf(data, LastTagged(subs, "FACE"), f0)
    decreases |subs|
  {
    if subs != [] {
      var h, t := subs[0], subs[1..];
      assert subs == [h] + t;
      FoldFaceIsLast(data, t, FaceOf(data, Tagged(h, "FACE"), f0));
      LastTaggedCons(h, t, "FACE");
    }
  }

  // MESH

  /** An ISTR sub-chunk decodes and its indices end exactly where its size says. */
  predicate IstrFills(data: seq<byte>, s: Sub) {
    s.tag == "ISTR" ==>
      ReadIstr(data, s.at, s.size).Success? && ReadIstr(data, s.at, s.size).value.next == s.at + s.size
  }

  predicate IstrsFill(data: seq<byte>, subs: seq<Sub>) {
    forall i :: 0 <= i < |subs| ==> IstrFills(data, subs[i])
  }

  /** At a header the scans accept, one pass of the MESH loop stores the
      sub-chunk's part and moves to the sub-chunk's end. */
  lemma StepMeshAt(data: seq<byte>, end: int, n: u32, h: Sub, vert: Option<VertChunk>, istr: Option<IstrChunk>)
    requires HeaderAt(data, h.at, end, h) && IstrFills(data, h)
    ensures StepMesh(data, end, n, h.at, vert, istr) ==
              MeshGoOn(VertOf(data, Tagged(h, "VERT"), n, vert), IstrOf(data, Tagged(h, "ISTR"), istr), h.at + h.size)
  {
    var tag := ReadFourCC(data, h.at);
    assert tag.next == h.at + 4;
  }

  /** So the MESH loop from such a header is the loop from the sub-chunk's
      end with that part stored. */
  lemma StepMeshTiled(data: seq<byte>, end: int, n: u32, h: Sub, vert: Option<VertChunk>, istr: Option<IstrChunk>)
    requires HeaderAt(data, h.at, end, h) && IstrFills(data, h)
    ensures MeshScan(data, end, n, h.at, vert, istr) ==
              MeshScan(data, end, n, h.at + h.size, VertOf(data, Tagged(h, "VERT"), n, vert), IstrOf(data, Tagged(h, "ISTR"), istr))
  {
    StepMeshAt(data, end, n, h, vert, istr);
  }

  /** The first header of a tiled run sits at the run's start, and its
      index block, if any, fills it. */
  lemma TiledHead(data: seq<byte>, pos: nat, end: int, subs: seq<Sub>)
    requires subs != [] && SubsTiled(data, pos, end, subs) && IstrsFill(data, subs)
    ensures HeaderAt(data, subs[0].at, end, subs[0]) && IstrFills(data, subs[0]) && subs[0].at == pos
  {
  }

  /** A tiled run is its first header followed by a tiled run from that
      header's end. */
  lemma TiledTail(data: seq<byte>, pos: nat, end: int, subs: seq<Sub>)
    requires subs != [] && SubsTiled(data, pos, end, subs)
    ensures SubsTiled(data, pos + subs[0].size, end, subs[1..])
  {
  }

  lemma IstrsFillTail(data: seq<byte>, subs: seq<Sub>)
    requires subs != [] && IstrsFill(data, subs)
    ensures IstrsFill(data, subs[1..])
  {
    forall i | 0 <= i < |subs| - 1 ensures IstrFills(data, subs[1..][i]) {
      assert subs[1..][i] == subs[i + 1];
    }
  }

  /** The first sub-chunk of a run moves the MESH loop and both folds alike,
      to the parts `v` and `c`. */
  lemma MeshFoldStep(data: seq<byte>, end: int, n: u32, pos: nat, vert: Option<VertChunk>, istr: Option<IstrChunk>, subs: seq<Sub>)
    returns (v: Option<VertChunk>, c: Option<IstrChunk>)
    requires subs != [] && SubsTiled(data, pos, end, subs) && IstrsFill(data, subs)
    ensures MeshScan(data, end, n, pos, vert, istr) == MeshScan(data, end, n, pos + subs[0].size, v, c)
    ensures FoldVert(data, subs, n, vert) == FoldVert(data, subs[1..], n, v)
    ensures FoldIstr(data, subs, istr) == FoldIstr(data, subs[1..], c)
  {
    var h := subs[0];
    TiledHead(data, pos, end, subs);
    v, c := VertOf(data, Tagged(h, "VERT"), n, vert), IstrOf(data, Tagged(h, "ISTR"), istr);
    StepMeshTiled(data, end, n, h, vert, istr);
  }

  /** Over a tiled payload whose index blocks fill their sub-chunks, the MESH
      loop runs to the end and holds what replacing part by part gives. */
  lemma {:induction false} MeshScanFolds(data: seq<byte>, end: int, n: u32, pos: nat,
                                         vert: Option<VertChunk>, istr: Option<IstrChunk>, subs: seq<Sub>)
    requires SubsTiled(data, pos, end, subs) && IstrsFill(data, subs)
    ensures MeshScan(data, end, n, pos, vert, istr) ==
              MeshScanned(FoldVert(data, subs, n, vert), FoldIstr(data, subs, istr), end, Exhausted)
    decreases |subs|
  {
    if subs != [] {
      var v, c := MeshFoldStep(data, end, n, pos, vert, istr, subs);
      TiledTail(data, pos, end, subs);
      IstrsFillTail(data, subs);
      MeshScanFolds(data, end, n, pos + subs[0].size, v, c, subs[1..]);
    }
  }

  /** Over a tiled sub-chunk run whose index blocks fill their sub-chunks,
      the MESH loop keeps the last VERT, read with the count `n`, and the
      last ISTR. */
  lemma MeshScanLast(data: seq<byte>, end: int, n: u32, pos: nat, subs: seq<Sub>)
    requires SubsTiled(data, pos, end, subs) && IstrsFill(data, subs)
    ensures var s := MeshScan(data, end, n, pos, None, None);
            s.vert == VertOf(data, LastTagged(subs, "VERT"), n, None) &&
            s.istr == IstrOf(data, LastTagged(subs, "ISTR"), None)
  {
    MeshScanFolds(data, end, n, pos, None, None, subs);
    FoldVertIsLast(data, subs, n, None);
    FoldIstrIsLast(data, subs, None);
  }

  /** A MESH whose payload after its three header words is tiled, with index
      blocks that fill their sub-chunks, stores the last VERT read with the
      declared vertex count and the last ISTR. */
  lemma DecodeMeshTiled(data: seq<byte>, at: nat, size: u32, subs: seq<Sub>)
    requires at + CHUNK_HEADER_SIZE + 12 <= |data|
    requires SubsTiled(data, at + CHUNK_HEADER_SIZE + 12, at + size, subs) && IstrsFill(data, subs)
    ensures var b := DecodeMesh(data, at, size);
            b.vert == VertOf(data, LastTagged(subs, "VERT"), b.vertexCount, None) &&
            b.istr == IstrOf(data, LastTagged(subs, "ISTR"), None)
  {
    var p := at + CHUNK_HEADER_SIZE;
    MeshScanLast(data, p + size - CHUNK_HEADER_SIZE, U32At(data, p + 4), p + 12, subs);
  }

  // FACE

  /** A LODP sub-chunk decodes. */
  predicate LodpReads(data: seq<byte>, s: Sub) {
    s.tag == "LODP" ==> ReadLodp(data, s.at, s.size).Success?
  }

  predicate LodpsRead(data: seq<byte>, subs: seq<Sub>) {
    forall i :: 0 <= i < |subs| ==> LodpReads(data, subs[i])
  }

  /** The LODP blocks of `subs`, in order. */
  function Lodps(data: seq<byte>, subs: seq<Sub>): seq<LodpChunk>
    requires LodpsRead(data, subs)
    decreases |subs|
  {
    if subs == [] then []
    else
      assert LodpReads(data, subs[0]);
      assert forall i :: 0 <= i < |subs[1..]| ==> subs[1..][i] == subs[i + 1];
      if subs[0].tag == "LODP" then [ReadLodp(data, subs[0].at, subs[0].size).value] + Lodps(data, subs[1..])
      else Lodps(data, subs[1..])
  }

  /** At a header the scans accept, the FACE loop body decodes the LODP
      block (when it is one) and moves to the end of the sub-chunk. */
  lemma FaceItemTiled(data: seq<byte>, end: int, h: Sub) returns (item: FaceItem)
    requires HeaderAt(data, h.at, end, h) && LodpReads(data, h)
    ensures FaceStep(data, h.at) == Success(item)
    ensures item.next == h.at + h.size
    ensures item.lodp == if h.tag == "LODP" then Some(ReadLodp(data, h.at, h.size).value) else None
  {
    var tag := ReadFourCC(data, h.at);
    assert tag.next == h.at + 4;
    item := FaceStep(data, h.at).value;
  }

  /** Over a tiled FACE payload whose LODP blocks decode, the loop collects
      exactly those blocks, in order, and skips everything else. */
  lemma {:induction false} FaceScanTiled(data: seq<byte>, end: int, pos: nat, subs: seq<Sub>)
    requires SubsTiled(data, pos, end, subs) && LodpsRead(data, subs)
    ensures FaceScan(data, end, pos) == Success(Lodps(data, subs))
    decreases |subs|
  {
    if subs != [] {
      var h, t := subs[0], subs[1..];
      assert LodpReads(data, h);
      assert LodpsRead(data, t) by {
        forall i | 0 <= i < |t| ensures LodpReads(data, t[i]) {
          assert t[i] == subs[i + 1];
        }
      }
      var item := FaceItemTiled(data, end, h);
      FaceScanTiled(data, end, pos + h.size, t);
      assert FaceScan(data, end, pos) == if h.tag == "LODP" then Success([item.lodp.value] + Lodps(data, t)) else Success(Lodps(data, t));
    }
  }

  /** A FACE whose payload after its count word is tiled, with LODP blocks
      that decode, holds exactly those blocks in file order. */
  lemma ReadFaceTiled(data: seq<byte>, at: nat, size: u32, subs: seq<Sub>)
    requires at + CHUNK_HEADER_SIZE + 4 <= |data|
    requires SubsTiled(data, at + CHUNK_HEADER_SIZE + 4, at + CHUNK_HEADER_SIZE + ChunkDataSize(size), subs)
    requires LodpsRead(data, subs)
    ensures var p := at + CHUNK_HEADER_SIZE;
            ReadFace(data, at, size) == Success(FaceChunk(size, p, U32At(data, p), Lodps(data, subs)))
  {
    var p := at + CHUNK_HEADER_SIZE;
    assert ReadU32(data, p) == Success(Got(U32At(data, p), p + 4));
    FaceScanTiled(data, p + ChunkDataSize(size), p + 4, subs);
  }

  // OBMO

  /** An ISTR or FACE sub-chunk decodes. */
  predicate PartReads(data: seq<byte>, s: Sub) {
    && (s.tag == "ISTR" ==> ReadIstr(data, s.at, s.size).Success?)
    && (s.tag == "FACE" ==> ReadFace(data, s.at, s.size).Success?)
  }

  predicate PartsRead(data: seq<byte>, subs: seq<Sub>) {
    forall i :: 0 <= i < |subs| ==> PartReads(data, subs[i])
  }

  /** The parts after meeting `h`. */
  function PartsAfter(data: seq<byte>, h: Sub, n: u32, parts: ObmoParts): ObmoParts {
    ObmoParts(VertOf(data, Tagged(h, "VERT"), n, parts.vert),
              IstrOf(data, Tagged(h, "ISTR"), parts.istr),
              FaceOf(data, Tagged(h, "FACE"), parts.face))
  }

  /** At a header the scans accept, whose ISTR or FACE decodes, the OBMO
      loop stores the sub-chunk's part and goes on at the sub-chunk's end. */
  lemma ObmoStepTiled(data: seq<byte>, end: int, n: u32, h: Sub, parts: ObmoParts)
    requires HeaderAt(data, h.at, end, h) && PartReads(data, h)
    ensures ObmoScan(data, end, n, h.at, parts) == ObmoScan(data, end, n, h.at + h.size, PartsAfter(data, h, n, parts))
  {
    var tag := ReadFourCC(data, h.at);
    assert tag.next == h.at + 4;
    assert ObmoStep(data, end, n, h.at, h.tag, h.size, parts) == Some(PartsAfter(data, h, n, parts));
  }

  /** Over a tiled OBMO payload whose ISTR and FACE blocks decode, the loop
      holds what replacing part by part gives. */
  lemma {:induction false} ObmoScanFolds(data: seq<byte>, end: int, n: u32, pos: nat, parts: ObmoParts, subs: seq<Sub>)
    requires SubsTiled(data, pos, end, subs) && PartsRead(data, subs)
    ensures ObmoScan(data, end, n, pos, parts) ==
              ObmoParts(FoldVert(data, subs, n, parts.vert), FoldIstr(data, subs, parts.istr), FoldFace(data, subs, parts.face))
    decreases |subs|
  {
    if subs != [] {
      var h, t := subs[0], subs[1..];
      assert PartReads(data, h);
      assert PartsRead(data, t) by {
        forall i | 0 <= i < |t| ensures PartReads(data, t[i]) {
          assert t[i] == subs[i + 1];
        }
      }
      ObmoStepTiled(data, end, n, h, parts);
      ObmoScanFolds(data, end, n, pos + h.size, PartsAfter(data, h, n, parts), t);
    }
  }

  /** Over a tiled sub-chunk run after the name whose ISTR and FACE blocks
      decode, what follows the name keeps the last VERT, ISTR and FACE. */
  lemma ObmoAfterNameTiled(data: seq<byte>, end: int, q: nat, subs: seq<Sub>)
    requires q + 12 <= |data| && SubsTiled(data, q + 12, end, subs) && PartsRead(data, subs)
    ensures ObmoAfterName(data, end, q) ==
              ObmoParts(VertOf(data, LastTagged(subs, "VERT"), U32At(data, q + 4), None),
                        IstrOf(data, LastTagged(subs, "ISTR"), None),
                        FaceOf(data, LastTagged(subs, "FACE"), None))
  {
    var n := U32At(data, q + 4);
    ObmoScanFolds(data, end, n, q + 12, ObmoParts(None, None, None), subs);
    FoldVertIsLast(data, subs, n, None);
    FoldIstrIsLast(data, subs, None);
    FoldFaceIsLast(data, subs, None);
  }

  /** An OBMO whose name is readable and whose payload after the three words
      that follow the name is tiled, with ISTR and FACE blocks that decode,
      stores the last VERT read with the second of those words as its vertex
      count, the last ISTR and the last FACE. */
  lemma DecodeObmoTiled(data: seq<byte>, at: nat, size: u32, subs: seq<Sub>)
    requires var p := at + CHUNK_HEADER_SIZE;
             p + 4 <= |data| && U32At(data, p) < 0x8000_0000 && NameEnd(data, p) + 12 <= |data|
    requires var p := at + CHUNK_HEADER_SIZE;
             SubsTiled(data, NameEnd(data, p) + 12, p + ChunkDataSize(size), subs) && PartsRead(data, subs)
    ensures var b := DecodeObmo(data, at, size);
            var q := NameEnd(data, at + CHUNK_HEADER_SIZE);
            && b.vert == VertOf(data, LastTagged(subs, "VERT"), U32At(data, q + 4), None)
            && b.istr == IstrOf(data, LastTagged(subs, "ISTR"), None)
            && b.face == FaceOf(data, LastTagged(subs, "FACE"), None)
  {
    var p := at + CHUNK_HEADER_SIZE;
    var end, q := p + ChunkDataSize(size), NameEnd(data, p);
    ObmoAfterNameTiled(data, end, q, subs);
    var b := DecodeObmo(data, at, size);
    assert b.objectName.Some?;
    assert ObmoParts(b.vert, b.istr, b.face) == ObmoAfterName(data, end, q);
  }
}
