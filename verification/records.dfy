/** Sequential readers for the fixed-size records (`ReadVector2/3`,
    `ReadQuaternion`, the per-record read sequences inside the chunk
    decoders) and for runs of them. Each is proved to read exactly the bytes
    the corresponding `Layout` function describes. */
module Records {
  import opened Wrappers
  import opened Binary
  import opened Cursor
  import opened Structures
  import opened Layout

  function ReadVec2(data: seq<byte>, pos: nat): (r: Result<Got<Vec2>, Error>)
    ensures r.Success? <==> pos + 8 <= |data|
    ensures r.Success? ==> r.value.next == pos + 8 && r.value.value == Vec2At(data, pos)
  {
    var x :- ReadF32(data, pos);
    var y :- ReadF32(data, x.next);
    Success(Got(Vec2(x.value, y.value), y.next))
  }

  function ReadVec3(data: seq<byte>, pos: nat): (r: Result<Got<Vec3>, Error>)
    ensures r.Success? <==> pos + 12 <= |data|
    ensures r.Success? ==> r.value.next == pos + 12 && r.value.value == Vec3At(data, pos)
  {
    var x :- ReadF32(data, pos);
    var y :- ReadF32(data, x.next);
    var z :- ReadF32(data, y.next);
    Success(Got(Vec3(x.value, y.value, z.value), z.next))
  }

  function ReadQuat(data: seq<byte>, pos: nat): (r: Result<Got<Quat>, Error>)
    ensures r.Success? <==> pos + 16 <= |data|
    ensures r.Success? ==> r.value.next == pos + 16 && r.value.value == QuatAt(data, pos)
  {
    var x :- ReadF32(data, pos);
    var y :- ReadF32(data, x.next);
    var z :- ReadF32(data, y.next);
    var w :- ReadF32(data, z.next);
    Success(Got(Quat(x.value, y.value, z.value, w.value), w.next))
  }

  /** The vertex read as the source writes it: position, normal, colour and
      uv, which are nine words, 36 bytes, although the record size the
      decoder accounts for (and the declared size) is 40 bytes. */
  function ReadVertexAsWritten(data: seq<byte>, pos: nat): (r: Result<Got<Vertex>, Error>)
    ensures r.Success? <==> pos + VERTEX_STRIDE <= |data|
    ensures r.Success? ==> r.value.next == pos + VERTEX_STRIDE && r.value.value == VertexAt(data, pos)
  {
    var position :- ReadVec3(data, pos);
    var normal :- ReadVec3(data, position.next);
    var color :- ReadU32(data, normal.next);
    var uv :- ReadVec2(data, color.next);
    Success(Got(Vertex(position.value, normal.value, color.value, uv.value, None), uv.next))
  }

  /** The as-written reader advances four bytes short of the record size, so
      the second vertex of a run is read from inside the first record. */
  lemma VertexStrideMismatch(data: seq<byte>, pos: nat)
    requires pos + 2 * VERTEX_SIZE <= |data|
    ensures ReadVertexAsWritten(data, pos).Success?
    ensures ReadVertexAsWritten(data, pos).value.next + 4 == pos + VERTEX_SIZE
  {
  }

  /** A concrete buffer of two 40-byte records on which the as-written reader
      gets the second vertex wrong: its position starts at byte 36, inside the
      first record. */
  lemma SecondVertexMisread()
    ensures var data: seq<byte> := seq(80, i => if i == 36 then 1 else 0);
            var first := ReadVertexAsWritten(data, 0);
            first.Success? &&
            ReadVertexAsWritten(data, first.value.next).Success? &&
            ReadVertexAsWritten(data, first.value.next).value.value != VertexAt(data, VERTEX_SIZE)
  {
    var data: seq<byte> := seq(80, i => if i == 36 then 1 else 0);
    var second := ReadVertexAsWritten(data, 36);
    assert second.value.value.position.x == U32At(data, 36) == 1;
    assert VertexAt(data, VERTEX_SIZE).position.x == U32At(data, 40) == 0;
  }

  /** The corrected vertex read, as the declared 40-byte size describes it:
      the nine field words followed by one word the model does not
      interpret, so that consecutive reads land on consecutive records. The
      decoders keep the as-written read. */
  function ReadVertex(data: seq<byte>, pos: nat): (r: Result<Got<Vertex>, Error>)
    ensures r.Success? <==> pos + VERTEX_SIZE <= |data|
    ensures r.Success? ==> r.value.next == pos + VERTEX_SIZE && r.value.value == VertexAt(data, pos)
  {
    var v :- ReadVertexAsWritten(data, pos);
    var pad :- ReadU32(data, v.next);
    Success(Got(v.value, pad.next))
  }

  /** Tangent then bitangent: six words. */
  function ReadTangent(data: seq<byte>, pos: nat): (r: Result<Got<TangentFrame>, Error>)
    ensures r.Success? <==> pos + TANGENT_SIZE <= |data|
    ensures r.Success? ==> r.value.next == pos + TANGENT_SIZE && r.value.value == TangentAt(data, pos)
  {
    var t :- ReadVec3(data, pos);
    var b :- ReadVec3(data, t.next);
    Success(Got(TangentFrame(t.value, b.value), b.next))
  }

  /** Time, position, rotation, scale: eleven words. */
  function ReadBoneKeyframe(data: seq<byte>, pos: nat): (r: Result<Got<BoneKeyframe>, Error>)
    ensures r.Success? <==> pos + BONE_KEYFRAME_SIZE <= |data|
    ensures r.Success? ==> r.value.next == pos + BONE_KEYFRAME_SIZE && r.value.value == BoneKeyframeAt(data, pos)
  {
    var time :- ReadF32(data, pos);
    var position :- ReadVec3(data, time.next);
    var rotation :- ReadQuat(data, position.next);
    var scale :- ReadVec3(data, rotation.next);
    Success(Got(BoneKeyframe(time.value, position.value, rotation.value, scale.value), scale.next))
  }

  /** Time, rotation, position and three extra words: eleven words, although
      the structure declaration sizes a LODP keyframe at ten. */
  function ReadLodpKeyframe(data: seq<byte>, pos: nat): (r: Result<Got<LodpKeyframe>, Error>)
    ensures r.Success? <==> pos + LODP_KEYFRAME_STRIDE <= |data|
    ensures r.Success? ==> r.value.next == pos + LODP_KEYFRAME_STRIDE && r.value.value == LodpKeyframeAt(data, pos)
    ensures LODP_KEYFRAME_STRIDE == LODP_KEYFRAME_SIZE + 4
  {
    var time :- ReadF32(data, pos);
    var rotation :- ReadQuat(data, time.next);
    var position :- ReadVec3(data, rotation.next);
    var e0 :- ReadF32(data, position.next);
    var e1 :- ReadF32(data, e0.next);
    var e2 :- ReadF32(data, e1.next);
    Success(Got(LodpKeyframe(time.value, rotation.value, position.value, [e0.value, e1.value, e2.value]), e2.next))
  }

  // ---------------------------------------------------------------------------
  // Runs of records
  // ---------------------------------------------------------------------------

  /** How far a run of vertex reads got. The vertex loop sits inside a
      try/catch, so a short buffer keeps the vertices read so far. */
  datatype VertsRead = VertsRead(vertices: seq<Vertex>, next: nat, complete: bool)

  /** Up to `n` consecutive vertex reads as the loop performs them, 36 bytes
      apart, stopping at the first one the buffer cannot hold: the run keeps
      exactly the reads that fit and ends where the failing one would start. */
  function ReadVertices(data: seq<byte>, pos: nat, n: nat): (r: VertsRead)
    ensures |r.vertices| == Min(n, Avail(data, pos) / VERTEX_STRIDE)
    ensures r.complete <==> |r.vertices| == n
    ensures r.complete ==> r.next == pos + VERTEX_STRIDE * n
    ensures forall i :: 0 <= i < |r.vertices| ==>
              pos + VERTEX_STRIDE * (i + 1) <= |data| && r.vertices[i] == VertexAt(data, pos + VERTEX_STRIDE * i)
  {
    var k := Min(n, Avail(data, pos) / VERTEX_STRIDE);
    VertsRead(seq(k, i requires 0 <= i < k => ReadVertexAsWritten(data, pos + VERTEX_STRIDE * i).value.value),
              pos + VERTEX_STRIDE * k, k == n)
  }

  /** Up to `n` consecutive tangent records; the reads before a failing one
      have already been stored, so the run keeps exactly the records that fit. */
  function ReadTangents(data: seq<byte>, pos: nat, n: nat): (r: seq<TangentFrame>)
    ensures |r| == Min(n, Avail(data, pos) / TANGENT_SIZE)
    ensures forall i :: 0 <= i < |r| ==>
              pos + TANGENT_SIZE * (i + 1) <= |data| && r[i] == TangentAt(data, pos + TANGENT_SIZE * i)
  {
    var k := Min(n, Avail(data, pos) / TANGENT_SIZE);
    seq(k, i requires 0 <= i < k => ReadTangent(data, pos + TANGENT_SIZE * i).value.value)
  }

  /** `n` consecutive 16-bit indices; the first read past the buffer raises,
      so the run fails whenever the buffer ends first. */
  function ReadU16s(data: seq<byte>, pos: nat, n: nat): (r: Result<Got<seq<u16>>, Error>)
    ensures r.Success? <==> n == 0 || pos + 2 * n <= |data|
    ensures r.Failure? ==> r.error == EndOfStream
    ensures r.Success? ==> r.value.next == pos + 2 * n && |r.value.value| == n
    ensures r.Success? ==> forall i :: 0 <= i < n ==>
              pos + 2 * (i + 1) <= |data| && r.value.value[i] == U16At(data, pos + 2 * i)
  {
    if n > 0 && pos + 2 * n > |data| then Failure(EndOfStream)
    else Success(Got(seq(n, i requires 0 <= i < n => ReadU16(data, pos + 2 * i).value.value), pos + 2 * n))
  }

  /** `n` consecutive bone keyframes of 44 bytes each. */
  function {:induction false} ReadBoneKeyframes(data: seq<byte>, pos: nat, n: nat): (r: Result<Got<seq<BoneKeyframe>>, Error>)
    ensures r.Success? <==> n == 0 || pos + BONE_KEYFRAME_SIZE * n <= |data|
    ensures r.Success? ==> r.value.next == pos + BONE_KEYFRAME_SIZE * n && |r.value.value| == n
    ensures r.Success? ==> forall i :: 0 <= i < n ==>
              pos + BONE_KEYFRAME_SIZE * (i + 1) <= |data| && r.value.value[i] == BoneKeyframeAt(data, pos + BONE_KEYFRAME_SIZE * i)
    decreases n
  {
    if n == 0 then Success(Got([], pos))
    else
      match ReadBoneKeyframe(data, pos)
      case Failure(e) => Failure(e)
      case Success(k) =>
        match ReadBoneKeyframes(data, k.next, n - 1)
        case Failure(e) => Failure(e)
        case Success(rest) => Success(Got([k.value] + rest.value, rest.next))
  }

  /** `n` consecutive LODP keyframe reads, 44 bytes apart. The loop has no
      catch of its own: a read the buffer cannot satisfy raises and fails the
      whole run, so a run either holds all `n` keyframes or fails. */
  function ReadLodpKeyframes(data: seq<byte>, pos: nat, n: nat): (r: Result<Got<seq<LodpKeyframe>>, Error>)
    ensures r.Success? <==> n == 0 || pos + LODP_KEYFRAME_STRIDE * n <= |data|
    ensures r.Success? ==> r.value.next == pos + LODP_KEYFRAME_STRIDE * n && |r.value.value| == n
    ensures r.Success? ==> forall i :: 0 <= i < n ==>
              pos + LODP_KEYFRAME_STRIDE * (i + 1) <= |data| && r.value.value[i] == LodpKeyframeAt(data, pos + LODP_KEYFRAME_STRIDE * i)
  {
    if n > 0 && pos + LODP_KEYFRAME_STRIDE * n > |data| then Failure(EndOfStream)
    else
      Success(Got(seq(n, i requires 0 <= i < n => ReadLodpKeyframe(data, pos + LODP_KEYFRAME_STRIDE * i).value.value),
                  pos + LODP_KEYFRAME_STRIDE * n))
  }
}
