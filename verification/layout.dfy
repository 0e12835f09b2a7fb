/** Fixed record layouts: where each field of a fixed-size record sits,
    stated by byte offset. The sequential readers in `Reader` are proved to
    agree with these. */
module Layout {
  import opened Binary
  import opened Cursor
  import opened Structures

  function Vec2At(data: seq<byte>, p: nat): Vec2
    requires p + 8 <= |data|
  {
    Vec2(U32At(data, p), U32At(data, p + 4))
  }

  function Vec3At(data: seq<byte>, p: nat): Vec3
    requires p + 12 <= |data|
  {
    Vec3(U32At(data, p), U32At(data, p + 4), U32At(data, p + 8))
  }

  function QuatAt(data: seq<byte>, p: nat): Quat
    requires p + 16 <= |data|
  {
    Quat(U32At(data, p), U32At(data, p + 4), U32At(data, p + 8), U32At(data, p + 12))
  }

  /** The bytes the vertex loop consumes per vertex: position, normal,
      colour and uv, nine words. The declared record size is 40. */
  const VERTEX_STRIDE: nat := 36

  /** A vertex record: position at +0, normal at +12, colour at +24, uv at +28. */
  function VertexAt(data: seq<byte>, p: nat): Vertex
    requires p + VERTEX_STRIDE <= |data|
  {
    Vertex(Vec3At(data, p), Vec3At(data, p + 12), U32At(data, p + 24), Vec2At(data, p + 28), Wrappers.None)
  }

  /** A tangent extension record: tangent at +0, bitangent at +12. */
  function TangentAt(data: seq<byte>, p: nat): TangentFrame
    requires p + TANGENT_SIZE <= |data|
  {
    TangentFrame(Vec3At(data, p), Vec3At(data, p + 12))
  }

  /** A bone keyframe: time at +0, position at +4, rotation at +16, scale at +32. */
  function BoneKeyframeAt(data: seq<byte>, p: nat): BoneKeyframe
    requires p + BONE_KEYFRAME_SIZE <= |data|
  {
    BoneKeyframe(U32At(data, p), Vec3At(data, p + 4), QuatAt(data, p + 16), Vec3At(data, p + 32))
  }

  /** The bytes one LODP keyframe occupies as the reader consumes it: eleven words. */
  const LODP_KEYFRAME_STRIDE: nat := 44

  /** A LODP keyframe: time at +0, rotation at +4, position at +20, three extra words at +32. */
  function LodpKeyframeAt(data: seq<byte>, p: nat): LodpKeyframe
    requires p + LODP_KEYFRAME_STRIDE <= |data|
  {
    LodpKeyframe(U32At(data, p), QuatAt(data, p + 4), Vec3At(data, p + 20),
                 [U32At(data, p + 32), U32At(data, p + 36), U32At(data, p + 40)])
  }

  /** Where a length-prefixed name whose length word sits at `p` ends: the
      length, cut short where the buffer ends. */
  function NameEnd(data: seq<byte>, p: nat): nat
    requires p + 4 <= |data|
  {
    p + 4 + Wrappers.Min(U32At(data, p), Avail(data, p + 4))
  }

  /** A 32-bit field of a partially read header: zero when the read failed. */
  function U32OrZero(data: seq<byte>, p: nat): u32 {
    if p + 4 <= |data| then U32At(data, p) else 0
  }
}
