/** The in-memory scene model: file header, the chunk record shared by every
    chunk kind, and one body variant per chunk class the decoder produces. */
module Structures {
  import opened Wrappers
  import opened Binary
  import Text

  // ---------------------------------------------------------------------------
  // Header
  // ---------------------------------------------------------------------------

  datatype Header = Header(magic: string, fileSize: u32, versionMinor: u16, versionMajor: u16)

  /** Bytes of the file header: a 4-byte magic, the 32-bit file size and two 16-bit version words. */
  const HEADER_SIZE: nat := 12

  /** Bytes of a chunk header: 4-byte tag and 32-bit size. */
  const CHUNK_HEADER_SIZE: nat := 8

  /** Bytes of one vertex record: position, normal, packed colour, texture coordinate. */
  const VERTEX_SIZE: nat := 40

  /** Bytes of the optional tangent/bitangent extension of one vertex. */
  const TANGENT_SIZE: nat := 24

  /** Bytes of one bone keyframe: time, position, rotation, scale. */
  const BONE_KEYFRAME_SIZE: nat := 44

  /** The size the structure declarations give a LODP keyframe (ten floats). */
  const LODP_KEYFRAME_SIZE: nat := 40

  /** "v<major>.<minor>", the form error messages and exporters print a version in. */
  function VersionString(h: Header): (s: string)
    ensures |s| >= 4 && s[0] == 'v'
    ensures Text.DottedPair(s[1..], h.versionMajor, h.versionMinor)
  {
    var t := Text.Decimal(h.versionMajor) + "." + Text.Decimal(h.versionMinor);
    Text.DottedDecimals(h.versionMajor, h.versionMinor);
    assert ("v" + t)[1..] == t;
    "v" + t
  }

  /** The printed version identifies the version: two headers print the same
      string exactly when their major and minor numbers agree. */
  lemma VersionStringInjective(h1: Header, h2: Header)
    ensures VersionString(h1) == VersionString(h2)
        <==> h1.versionMajor == h2.versionMajor && h1.versionMinor == h2.versionMinor
  {
    if VersionString(h1) == VersionString(h2) {
      Text.DottedPairUnique(VersionString(h1)[1..], h1.versionMajor, h1.versionMinor, h2.versionMajor, h2.versionMinor);
    }
  }


  /** The payload length of a chunk: its size minus the 8-byte header, in
      unsigned 32-bit arithmetic, so a size below 8 wraps to nearly 4 GiB. */
  function ChunkDataSize(size: u32): (n: u32)
    ensures size >= CHUNK_HEADER_SIZE ==> n + CHUNK_HEADER_SIZE == size
    ensures size < CHUNK_HEADER_SIZE ==> n == size + U32_MODULUS - CHUNK_HEADER_SIZE
  {
    WrapU32(size - CHUNK_HEADER_SIZE)
  }

  // ---------------------------------------------------------------------------
  // Geometry values
  // ---------------------------------------------------------------------------

  datatype Vec2 = Vec2(x: f32, y: f32)
  datatype Vec3 = Vec3(x: f32, y: f32, z: f32)
  datatype Quat = Quat(x: f32, y: f32, z: f32, w: f32)
  datatype Color4 = Color4(r: f32, g: f32, b: f32, a: f32)

  datatype TangentFrame = TangentFrame(tangent: Vec3, bitangent: Vec3)

  /** A vertex record; `tangent` is present only when the tangent extension was read. */
  datatype Vertex = Vertex(position: Vec3, normal: Vec3, color: u32, uv: Vec2, tangent: Option<TangentFrame>)

  // ---------------------------------------------------------------------------
  // Sub-chunks of geometry chunks (tag implied by the field that holds them)
  // ---------------------------------------------------------------------------

  datatype VertChunk = VertChunk(size: u32, dataStart: nat, vertices: seq<Vertex>)

  datatype IstrChunk = IstrChunk(size: u32, dataStart: nat, indexCount: u32, indices: seq<u16>)

  datatype LodpKeyframe = LodpKeyframe(time: f32, rotation: Quat, position: Vec3, extra: seq<f32>)

  datatype LodpChunk = LodpChunk(size: u32, dataStart: nat, keyframeCount: u32,
                                 param1: u32, param2: u32, param3: u32, param4: u32,
                                 keyframes: seq<LodpKeyframe>)

  datatype FaceChunk = FaceChunk(size: u32, dataStart: nat, faceCount: u32, lodps: seq<LodpChunk>)

  // ---------------------------------------------------------------------------
  // Records of the flat chunk kinds
  // ---------------------------------------------------------------------------

  datatype BoneKeyframe = BoneKeyframe(time: f32, position: Vec3, rotation: Quat, scale: Vec3)

  datatype BoneAnimation = BoneAnimation(boneId: u32, parentId: i32, name: string, keyframes: seq<BoneKeyframe>)

  /** A parent id of -1 marks a root bone. */
  predicate IsRootBone(a: BoneAnimation) {
    a.parentId == -1
  }

  datatype ObskBone = ObskBone(boneId: u32, parentId: i32, name: string)

  datatype AssetString = AssetString(stringId: u32, unknown: u32, text: string)

  datatype MaterialProperty = MaterialProperty(name: string, textureValue: string)

  datatype MaterialEntry = MaterialEntry(typeName: string, properties: seq<MaterialProperty>)

  // ---------------------------------------------------------------------------
  // Chunks
  // ---------------------------------------------------------------------------

  /** A decoded chunk: its tag, its size including the 8-byte header, the
      absolute offset of its payload, and what the decoder for its tag produced. */
  datatype Chunk = Chunk(id: string, size: u32, dataStart: nat, body: Body)

  /** One variant per chunk class. `Raw` is the base chunk an unknown tag decodes to.
      A plain MESH never receives a FACE sub-chunk, so `Mesh` has no face field. */
  datatype Body =
    | Mbox(min: Vec3, max: Vec3)
    | Obox(center: Vec3, normal: Vec3)
    | Mesh(unknown: u32, vertexCount: u32, faceCount: u32, vert: Option<VertChunk>, istr: Option<IstrChunk>)
    | Obmo(objectName: Option<string>, vert: Option<VertChunk>, istr: Option<IstrChunk>, face: Option<FaceChunk>)
    | Obsk(boneCount: u32, bones: seq<ObskBone>)
    | Bone(boneCount: u32, keyframeCount: u32, animations: seq<BoneAnimation>)
    | Text(nullWord: u32, texturePath: string)
    | Mate(entries: seq<MaterialEntry>)
    | Blst(nullWord: u32)
    | Clou(raw: seq<byte>)
    | Omni(raw: seq<byte>)
    | Flar(raw: seq<byte>)
    | Asel(stringCount: u32, strings: seq<AssetString>)
    | Asec(nullWord: u32)
    | Obst(objectNumber: u32, name: string, unknownData: seq<byte>,
           mesh: Option<Chunk>, mbox: Option<Chunk>, obox: Option<Chunk>)
    | Dumy(objectNumber: u32, name: string, unknownData: seq<byte>)
    | Time(timestamp: string)
    | Raw(raw: seq<byte>)

  /** The class of the chunk object a body belongs to; `BaseKind` is the
      plain chunk an unknown tag decodes to. */
  datatype Kind =
    | MboxKind | OboxKind | MeshKind | ObmoKind | ObskKind | BoneKind | TextKind
    | MateKind | BlstKind | ClouKind | OmniKind | FlarKind | AselKind | AsecKind
    | ObstKind | DumyKind | TimeKind | BaseKind

  /** Whether a body is of class `k`. For `BaseKind` this is the plain
      unknown-tag chunk only, with no `GetChunks<T>` behind it: `chunk is
      BmodChunk` holds for every chunk, and that view is `Views.AnyChunk`. */
  predicate HasKind(b: Body, k: Kind) {
    match k
    case MboxKind => b.Mbox?
    case OboxKind => b.Obox?
    case MeshKind => b.Mesh?
    case ObmoKind => b.Obmo?
    case ObskKind => b.Obsk?
    case BoneKind => b.Bone?
    case TextKind => b.Text?
    case MateKind => b.Mate?
    case BlstKind => b.Blst?
    case ClouKind => b.Clou?
    case OmniKind => b.Omni?
    case FlarKind => b.Flar?
    case AselKind => b.Asel?
    case AsecKind => b.Asec?
    case ObstKind => b.Obst?
    case DumyKind => b.Dumy?
    case TimeKind => b.Time?
    case BaseKind => b.Raw?
  }

  /** An OBST keeps at most one sub-chunk per slot, and each slot holds the kind it is named for. */
  predicate ObstSlotsWellKinded(b: Body)
    requires b.Obst?
  {
    && (b.mesh.Some? ==> b.mesh.value.body.Mesh?)
    && (b.mbox.Some? ==> b.mbox.value.body.Mbox?)
    && (b.obox.Some? ==> b.obox.value.body.Obox?)
  }

  /** Every OBST among the chunks is well kinded. */
  predicate ObstsWellKinded(cs: seq<Chunk>) {
    forall i :: 0 <= i < |cs| && cs[i].body.Obst? ==> ObstSlotsWellKinded(cs[i].body)
  }

  datatype BmodFile = BmodFile(header: Header, chunks: seq<Chunk>)
}
