# Platoon BMOD parser tools, modelled in Dafny

This project models the parsing core of the Platoon BMOD toolkit:

- the chunked BMOD/OMOD model format: its 12-byte header, its 8-byte chunk framing, and one decoder per chunk class (bounding boxes, meshes and object meshes with their VERT, ISTR and FACE/LODP sub-chunks, skeletons, bone animations, texture references, materials, effect blobs, asset strings, object stations, dummies, timestamps);
- the writer for the same format, and the round trip from writer to reader;
- the typed chunk views of a parsed file (`GetChunks`, `GetChunk`);
- the BVH export of bone animations;
- the Wavefront OBJ/MTL export;
- the binary `.mat` material files;
- the `.vf`/`.vfd` vertex-format files;
- the vertex-shader source and compiled files.

A file is a `seq<byte>`, and each reader is a pure function from the buffer and a position to a `Result`. Positions are unbounded naturals and may lie past the end, as a .NET stream position may. A `BinaryReader` call that runs off the end becomes `Failure(EndOfStream)`. A `try`/`catch` in the source becomes an explicit tolerant path: the model keeps whatever partial state the source kept, and moves the cursor where the source moved it. Floats are kept as their 32-bit patterns.

Modules follow the source:

- `Binary`, `Cursor` and `Records`: the little-endian primitives and fixed records of `BinaryReader`.
- `Structures`: the data model of `BmodStructures.cs`.
- `Reader`, `Flat` and `Geometry`: `BmodParser`.
- `Views`: `BmodFile.GetChunks` and `GetChunk`.
- `Writer`: `BmodWriter`.
- `Animation`: `AnimationExporter`.
- `ObjExport` and `Paths`: `ObjExporter`, and the `System.IO.Path` calls it makes.
- `MatFile`: `MatFileReader`.
- `VertexFormat`, `VertexShader` and `Defines`: the two text-format readers.
- `Text` and `Wrappers`: shared helpers.

Where the source disagrees with itself, the model follows the code that runs:

- The vertex loop reads 36 bytes per vertex (position, normal, colour, uv), while the leftover computation before the tangent block counts 40 per vertex (BmodReader.cs:289). The model reads vertices 36 bytes apart, starts the tangent reads at 36n where the vertex loop stopped, and keeps the 40 in the tangent budget. The mismatch is reported under Findings.
- `LodpKeyframe.SizeInBytes` is 40 (BmodStructures.cs:177), but the keyframe loop reads eleven floats, that is 44 bytes (BmodReader.cs:404-419). The model reads 44, and `Records.ReadLodpKeyframe` states the stride.

## Model

| member | source | states |
|---|---|---|
| Binary.WrapU32 | BmodReader.cs:129 | reduction modulo 2^32, the unsigned arithmetic of `chunkSize - 8`: non-negative values below 2^32 are kept, negative ones are lifted by 2^32 |
| Binary.ToInt32 | AnimationExporter.cs:127 | the `(int)` cast of a bone id: negative exactly when the top bit is set, and wrapping it back gives the original word |
| Binary.ToInt32Injective | AnimationExporter.cs:127 | the `(int)` cast loses no information: two ids with the same cast value are equal |
| Binary.LE16 | BmodWriter.cs:30-31 | the little-endian encoding of a 16-bit field is two bytes that read back as the same value |
| Binary.LE32 | BmodWriter.cs:29 | the little-endian encoding of a 32-bit field is four bytes that read back as the same value |
| Binary.AsciiRoundTrip | BmodWriter.cs:87 | decoding the ASCII encoding of a string gives the string back exactly when every character is ASCII |
| Binary.TrimTrailingNul | BmodReader.cs:834 | `TrimEnd('\0')` keeps a prefix with no trailing NUL and removes only NULs |
| Binary.TrimPaddedText | BmodReader.cs:834 | trimming text padded with any number of NULs gives the text back when it did not itself end in NUL |
| Cursor.ReadBytes | BmodReader.cs:661 | `ReadBytes(n)` fails only for a negative count; otherwise it returns min(n, bytes left) bytes, taken from the buffer at the position |
| Cursor.ReadU16 | BmodReader.cs:116-117 | a 16-bit read succeeds exactly when two bytes remain, yields their little-endian value and advances by 2 |
| Cursor.ReadU32 | BmodReader.cs:115 | a 32-bit read succeeds exactly when four bytes remain, yields their little-endian value and advances by 4 |
| Cursor.ReadI32 | BmodReader.cs:534 | a signed read succeeds exactly when four bytes remain and yields the two's-complement reading of the word |
| Cursor.ReadF32 | BmodReader.cs:839 | a float read succeeds exactly when four bytes remain, advances by 4 and yields the 32-bit pattern of those bytes |
| Cursor.ReadFourCC | BmodReader.cs:825-829 | the tag read never fails: it has min(4, bytes left) characters, character i being the ASCII decoding of the byte i places on, and advances by its length |
| Cursor.FourCCDecoded | BmodReader.cs:825-829 | the tag is the ASCII decoding of the bytes `ReadBytes(4)` returns, so of the next four bytes when they exist |
| Cursor.ReadText | BmodReader.cs:831-835 | a length-prefixed string advances by min(n, bytes left) and is those bytes decoded as ASCII with trailing NULs trimmed, so it has at most n characters and never ends in NUL |
| Cursor.ReadTextDecodes | BmodReader.cs:831-835 | the text is the NUL-trimmed ASCII decoding of the bytes `ReadBytes(n)` returns: the slice from the position inside the buffer, and empty past its end |
| Cursor.ReadString | BmodReader.cs:831-835 | `ReadString` fails exactly for a negative length, and otherwise is the NUL-trimmed text |
| Cursor.ReadU16OfLE | BmodReader.cs:116 | reading two bytes written by the little-endian encoder gives the encoded value back |
| Cursor.ReadU32OfLE | BmodReader.cs:115 | reading four bytes written by the little-endian encoder gives the encoded value back |
| Structures.VersionString | BmodStructures.cs:34 | the version text is "v", the major number in decimal without leading zeros, a dot, and the minor number likewise |
| Structures.VersionStringInjective | BmodStructures.cs:34 | different (major, minor) pairs get different version texts |
| Structures.ChunkDataSize | BmodStructures.cs:48 | the data size plus the 8 header bytes is the chunk size, and a size below 8 wraps around to a size near 2^32 |
| Records.ReadVec2 | BmodReader.cs:837-840 | a 2-vector read needs 8 bytes, consumes exactly 8 and yields the two words at the position |
| Records.ReadVec3 | BmodReader.cs:842-845 | a 3-vector read needs 12 bytes, consumes exactly 12 and yields the three words at the position |
| Records.ReadQuat | BmodReader.cs:847-855 | a quaternion read needs 16 bytes, consumes exactly 16 and yields the four words at the position |
| Records.ReadVertexAsWritten | BmodReader.cs:275-284 | the vertex loop as written: needs 36 bytes and advances 36, which is 4 bytes short of the declared 40-byte record |
| Records.VertexStrideMismatch | BmodReader.cs:274-289 | for any buffer holding two declared records, the as-written read ends 4 bytes before the next record starts |
| Records.SecondVertexMisread | BmodReader.cs:274-289 | a concrete 80-byte buffer on which the second vertex read as written differs from the second declared record |
| Records.ReadVertex | BmodStructures.cs:82 | the corrected vertex read: needs 40 bytes, consumes exactly 40 and yields the declared record |
| Records.ReadTangent | BmodReader.cs:308-309 | a tangent/bitangent pair needs 24 bytes, consumes 24 and yields the two vectors at the position |
| Records.ReadBoneKeyframe | BmodStructures.cs:249 | a bone keyframe is a 44-byte record of time, position, rotation and scale |
| Records.ReadLodpKeyframe | BmodReader.cs:404-419 | a LODP keyframe occupies 44 bytes, four more than the declared 40 |
| Records.ReadVertices | BmodReader.cs:275-284 | the vertex loop as written reads min(n, bytes left / 36) vertices, vertex i being the 36-byte read at offset 36i; the run is complete exactly when all n were read, and then ends at 36n |
| Records.ReadTangents | BmodReader.cs:306-323 | reads min(n, bytes left / 24) pairs, each the pair at its offset |
| Records.ReadU16s | BmodReader.cs:358-361 | n 16-bit indices succeed exactly when 2n bytes remain, each the word at its offset |
| Records.ReadBoneKeyframes | BmodReader.cs:539-547 | n keyframes succeed exactly when 44n bytes remain, each the record at its offset |
| Records.ReadLodpKeyframes | BmodReader.cs:404-419 | n LODP keyframes succeed exactly when 44n bytes remain, each the record at its offset |
| Reader.ReadHeader | BmodReader.cs:111-119 | the header read succeeds exactly when 12 bytes exist, and yields magic, file size, minor and major from those bytes |
| Reader.ReadChunk | BmodReader.cs:121-158 | at or past the end there is no chunk; a partial 8-byte header is EndOfStream; a chunk read ends at its data start plus `ChunkDataSize`, whatever its decoder consumed |
| Reader.ReadChunkDecodes | BmodReader.cs:131-152 | a chunk read's body is the body its class decoder gives, and a failed read is a failed decoder |
| Reader.DecodeBody | BmodReader.cs:131-152 | a decoded body has the class its tag selects; the tolerant classes (mesh, object mesh, material, station, timestamp) never fail; an unknown tag keeps its payload, cut at the end of the buffer, and fails only when the data size does not fit an `int` |
| Reader.DecodeLeaf | BmodReader.cs:133-151 | the same class guarantee for every tag but OBST |
| Reader.DecodeSimple | BmodReader.cs:141-150 | the same class guarantee for the material, null-word and timestamp chunks |
| Reader.DecodeRawClass | BmodReader.cs:658-677 | the same class guarantee for the chunks kept as raw bytes |
| Reader.SubTiledBounds | BmodReader.cs:735-779 | every sub-chunk of a station starts after its own header and ends inside the station |
| Reader.ObstStep | BmodReader.cs:745-778 | one step of the station loop: either a sub-chunk that fits, or a stop when fewer than 8 bytes are left, or a bad size with the cursor back at the sub-header, or an aborted read |
| Reader.ObstScan | BmodReader.cs:735-779 | the station loop yields back-to-back sub-chunks from the start; it stops on exhaustion, on a short tail, on a bad sub-chunk size (cursor reset to that header) or on an aborted read (cursor at the end) |
| Reader.KeepAll | BmodReader.cs:766-778 | after the loop, each slot holds the last sub-chunk of its class, and a slot no sub-chunk fits is unchanged |
| Reader.ObstSlots | BmodReader.cs:766-778 | the mesh, box and oriented-box slots hold only chunks of their own class, stored inside the station |
| Reader.DecodeObst | BmodReader.cs:710-788 | a station never fails: it has its object number, a name read only when 0 < length < 1024, at most 68 unknown bytes, and well-kinded slots |
| Reader.ReadChunks | BmodReader.cs:101-106 | a successful chunk loop yields chunks that tile the buffer from the position to the end |
| Reader.ReadChunkAt | BmodReader.cs:121-158 | a chunk laid out at a position is read back by `ReadChunk`, which ends where that chunk ends |
| Reader.TiledCons | BmodReader.cs:101-106 | a chunk followed by a tiling of the rest is a tiling |
| Reader.ReadChunksStep | BmodReader.cs:101-106 | the chunk loop is one chunk read followed by the loop from its end |
| Reader.TiledReadsBack | BmodReader.cs:101-106 | any tiling of the buffer is what the chunk loop returns |
| Reader.ReadChunksExactly | BmodReader.cs:101-106 | the chunk loop returns a list exactly when that list tiles the buffer |
| Reader.Parse | BmodReader.cs:86-109 | fewer than 12 bytes is EndOfStream; a magic other than OMOD or BMOD is rejected; a version other than 1.10 to 1.13 is rejected; success means the header is the first 12 bytes and the chunks tile the rest |
| Reader.ParseExactly | BmodReader.cs:86-109 | a file is the parse of a buffer exactly when its header is the first 12 bytes, is supported, and its chunks tile the rest |
| Reader.TiledObstsWellKinded | BmodReader.cs:766-778 | in any parsed file, every station's slots hold chunks of their own class |
| Reader.ObstAtWellKinded | BmodReader.cs:766-778 | a station laid out in a buffer has well-kinded slots |
| Flat.DecodeMbox | BmodReader.cs:164-170 | a bounding box succeeds exactly when 24 payload bytes exist, and holds the two vectors there |
| Flat.DecodeObox | BmodReader.cs:172-178 | an oriented box succeeds exactly when 24 payload bytes exist, and holds centre and normal |
| Flat.ReadName | BmodReader.cs:431-432 | a length-prefixed name needs its length word, fails for a length that is negative as an `int`, and is the NUL-trimmed text after it |
| Flat.ReadObskBone | BmodReader.cs:507-514 | a bone record reads exactly when its three header words exist and the name length is below 2^31; id, signed parent id, the name's text and the end after the name |
| Flat.ReadObskBones | BmodReader.cs:505-515 | a successful skeleton read yields exactly the declared number of bones, laid out record after record |
| Flat.ReadObskBonesIffLaid | BmodReader.cs:505-515 | the bone loop returns a list exactly when that many bone records lie back to back in the buffer |
| Flat.DecodeObsk | BmodReader.cs:500-518 | a skeleton holds its bone count and exactly that many bones, laid out after the count |
| Flat.DecodeObskExactly | BmodReader.cs:500-518 | an OBSK payload decodes to a bone list exactly when the count word exists and that many records follow it back to back |
| Flat.ReadBoneAnimation | BmodReader.cs:532-549 | one animation succeeds exactly when its three header words exist, the name length is below 2^31 and k keyframes fit after the name; it has the id and signed parent id of its first two words, the NUL-trimmed name, and exactly k keyframes, each the 44-byte record at its place after the name |
| Flat.ReadBoneAnimations | BmodReader.cs:530-550 | a successful read yields the declared number of animations laid back to back from the position in file order, each with the shared keyframe count |
| Flat.ReadBoneAnimationsIffLaid | BmodReader.cs:530-550 | the animation loop returns a list exactly when that many animations lie back to back from the position, so it fails exactly when no such layout exists |
| Flat.DecodeBone | BmodReader.cs:524-553 | a bone chunk holds the bone count and keyframe count of its first two words, then that many animations laid back to back in file order, each with that many keyframes |
| Flat.DecodeBoneExactly | BmodReader.cs:524-553 | a bone chunk decodes to a list of animations exactly when its two count words exist and that list, of the declared length, lies back to back after them; otherwise the chunk fails |
| Flat.DecodeText | BmodReader.cs:559-568 | a texture reference succeeds exactly when its two words exist and the path length fits an `int`; it holds the null word and the NUL-trimmed path |
| Flat.ReadGuardedName | BmodReader.cs:581-584 | a material name is read only when 0 < length < 1024, and is empty otherwise |
| Flat.MateEntries | BmodReader.cs:589-600 | a material gets exactly one MATERIAL entry holding one TEXTURE property exactly when its texture name is non-empty |
| Flat.DecodeMate | BmodReader.cs:570-644 | a material never fails; without its two header words it has no entries |
| Flat.SkipEntries | BmodReader.cs:602-628 | the entry skip consumes min(count, bytes left / 20) entries of 20 bytes each |
| Flat.MateSkipLandsAtEnd | BmodReader.cs:602-628 | with at least 100 bytes left, the skip ends exactly at the payload end |
| Flat.MateSkipOvershoots | BmodReader.cs:602-628 | with fewer than 100 bytes left but some, the skip ends 4 bytes past the payload end |
| Flat.ReadNullWord | BmodReader.cs:651-656 | the BLST and ASEC word is read exactly when four payload bytes exist |
| Flat.ReadRaw | BmodReader.cs:658-677 | the raw payload read fails exactly when the data size does not fit an `int`, and otherwise is the payload cut at the end of the buffer |
| Flat.ReadAssetString | BmodReader.cs:690-697 | an asset string reads exactly when its three header words exist and the length is below 2^31; id, unknown word, the text and the end after it |
| Flat.ReadAssetStrings | BmodReader.cs:688-698 | a successful read yields exactly the declared number of strings, laid out record after record |
| Flat.ReadAssetStringsIffLaid | BmodReader.cs:688-698 | the string loop returns a list exactly when that many records lie back to back in the buffer |
| Flat.DecodeAsel | BmodReader.cs:683-701 | an asset list holds its count and exactly that many strings, laid out after the count |
| Flat.DecodeAselExactly | BmodReader.cs:683-701 | an ASEL payload decodes to a string list exactly when the count word exists and that many records follow it back to back |
| Flat.DecodeDumy | BmodReader.cs:790-801 | a dummy succeeds exactly when its two words exist and the name length fits an `int`; it holds the object number, the name and up to 68 following bytes |
| Flat.DecodeTime | BmodReader.cs:807-812 | a timestamp never fails and has at most 24 characters, none trailing NUL |
| Geometry.TangentBudget | BmodReader.cs:288-306 | the number of tangent pairs read is at most the vertex count, zero unless the leftover passes the 100-byte tolerance, and fits in the leftover |
| Geometry.NoTangentsWithoutLeftover | BmodReader.cs:289-293 | a VERT chunk holding exactly its header and records gets no tangents |
| Geometry.FullExtensionBudget | BmodReader.cs:289-306 | a VERT chunk with a full 24-byte extension per vertex gets one tangent pair per vertex |
| Geometry.AttachTangents | BmodReader.cs:306-316 | pair i goes to vertex i, and vertices past the pairs are unchanged |
| Geometry.WithTangents | BmodReader.cs:304-323 | attaching tangents changes nothing else about a vertex, and the attached pairs are the ones in the buffer |
| Geometry.VertexRunLayout | BmodReader.cs:274-323 | a VERT body yields n vertices (fewer only where the buffer ends), vertex i being the record 36i bytes on, with the tangent pairs read from 36n, where the vertex loop stopped, attached to vertices 0, 1, ... in order |
| Geometry.ReadVert | BmodReader.cs:260-351 | a VERT sub-chunk never fails; its vertices are the run read after the 12-byte sub-header with the vertex count it is given, and there are none when the sub-header is cut off |
| Geometry.ReadIstr | BmodReader.cs:245-258 | an ISTR sub-chunk succeeds exactly when its count word and 2n index bytes exist; it holds the count and n indices, each the word at its offset |
| Geometry.ReadLodp | BmodReader.cs:394-422 | a LODP holds its five header words and the keyframes after them |
| Geometry.FaceStepFrom | BmodReader.cs:374-381 | a block the FACE loop body decodes is the LODP sub-chunk at the header it has just read |
| Geometry.FaceScanFrom | BmodReader.cs:371-389 | every block the FACE loop collects is the LODP sub-chunk at one of the headers it meets |
| Geometry.FaceScanTiled | BmodReader.cs:371-389 | when sub-chunks tile the rest of the FACE and every LODP among them decodes, the FACE loop returns exactly those LODPs, in order |
| Geometry.ReadFace | BmodReader.cs:366-392 | a FACE needs its count word and holds its size, its data start and that count |
| Geometry.ReadFaceLodps | BmodReader.cs:366-392 | every LODP a FACE holds is the LODP sub-chunk decoded at one of the headers after its count word |
| Geometry.ReadFaceTiled | BmodReader.cs:366-392 | a FACE whose payload after the count is tiled by sub-chunks, each LODP among them decoding, holds exactly those LODPs in order |
| Geometry.StepMesh | BmodReader.cs:195-233 | one step of the mesh loop either moves forward or stops with the parts unchanged, for the same reasons as the station loop, each with its condition |
| Geometry.StepMeshKeeps | BmodReader.cs:214-223 | a step that goes on stores as VERT the previous one or the VERT sub-chunk at its header decoded with the mesh's vertex count, and as ISTR the previous one or the ISTR at its header |
| Geometry.StepMeshAt | BmodReader.cs:195-233 | at a header the loop accepts, whose ISTR fills its sub-chunk, one pass stores that sub-chunk's part and goes on at the sub-chunk's end |
| Geometry.StepMeshTiled | BmodReader.cs:195-233 | so the mesh loop from such a header is the loop from the sub-chunk's end with that part stored |
| Geometry.MeshScan | BmodReader.cs:193-234 | the mesh loop never moves back; it stops on exhaustion, a short tail, a bad size or an aborted read, each with its condition |
| Geometry.MeshScanKeeps | BmodReader.cs:193-234 | every part the mesh loop stores is the sub-chunk decoded at a header it met inside the mesh, the VERT with the mesh's vertex count |
| Geometry.MeshScanFolds | BmodReader.cs:193-234 | over sub-chunks that tile the payload, the mesh loop runs to the end, each VERT or ISTR replacing the one before |
| Geometry.MeshScanLast | BmodReader.cs:193-234 | over sub-chunks that tile the payload, the loop keeps the last VERT, decoded with the vertex count, and the last ISTR |
| Geometry.DecodeMesh | BmodReader.cs:180-243 | a mesh never fails, keeps its three header words (0 where the buffer ends), and stores no parts when the payload is shorter than its 12-byte header |
| Geometry.DecodeMeshKeeps | BmodReader.cs:180-243 | a mesh's stored VERT is the VERT sub-chunk at a header inside its payload, decoded with the mesh's own vertex-count word, and its ISTR is the ISTR at such a header |
| Geometry.DecodeMeshTiled | BmodReader.cs:180-243 | a mesh whose payload is tiled by sub-chunks stores the last VERT, decoded with its own vertex count, and the last ISTR |
| Geometry.ObmoStepKeeps | BmodReader.cs:454-488 | one pass of the object-mesh loop stores as each part the previous one or the sub-chunk decoded at its header, the VERT with the declared vertex count |
| Geometry.ObmoScanKeeps | BmodReader.cs:446-489 | every part the object-mesh loop stores is the sub-chunk decoded at a header it met, the VERT with the declared vertex count |
| Geometry.ObmoStepTiled | BmodReader.cs:446-489 | at a header the loop accepts, whose ISTR or FACE decodes, one pass stores that sub-chunk's part and the loop goes on at its end |
| Geometry.ObmoScanFolds | BmodReader.cs:446-489 | over sub-chunks that tile the payload, the object-mesh loop keeps, for each of VERT, ISTR and FACE, the one met last |
| Geometry.ObmoAfterNameKeeps | BmodReader.cs:436-489 | the parts stored after the name come from sub-chunk headers past the three words that follow it, the VERT decoded with the second of those words |
| Geometry.ObmoAfterNameTiled | BmodReader.cs:436-489 | with sub-chunks tiling the rest of the payload, the parts are the last VERT (with that vertex count), the last ISTR and the last FACE |
| Geometry.DecodeObmo | BmodReader.cs:424-498 | an object mesh never fails; it has a name exactly when the length word exists and fits an `int`, the name being the NUL-trimmed text after it; without a name nothing is stored, with one the parts are those of the loop after the three words that follow the name |
| Geometry.DecodeObmoTiled | BmodReader.cs:424-498 | an object mesh whose payload after the name and three words is tiled by sub-chunks stores the last VERT, decoded with its vertex-count word, the last ISTR and the last FACE |
| Views.TopLevel | BmodReader.cs:47-52 | the top-level chunks matching a type, and nothing else |
| Views.GetChunks | BmodReader.cs:23-44 | the view holds only matching chunks, each either top-level or a station's mesh, and holds every such chunk |
| Views.GetChunksAppend | BmodReader.cs:27-41 | the view of two chunk lists is the view of the first followed by the view of the second, so file order is kept |
| Views.GetChunksOfOtherKind | BmodReader.cs:35-40 | for every type other than mesh, the view is just the top-level chunks of that type |
| Views.GetChunk | BmodReader.cs:47-53 | `GetChunk` is null exactly when no top-level chunk matches, and otherwise is the first match |
| Views.GetChunkIsFirst | BmodReader.cs:47-53 | `GetChunk` is the head of the top-level view |
| Views.MeshViewsDisagree | BmodReader.cs:23-53 | for meshes the two views differ: a station's mesh is in `GetChunks` but is never what `GetChunk` returns |
| Writer.WriteFourCC | BmodWriter.cs:85-89 | a tag shorter than 4 characters is an error; otherwise four bytes that decode to its first four characters |
| Writer.WriteFixed | BmodWriter.cs:91-99 | a fixed-length string is its ASCII bytes, cut or NUL-padded to the length |
| Writer.Vec3Bytes | BmodWriter.cs:112-117 | a vector is written as 12 bytes |
| Writer.WriteHeader | BmodWriter.cs:26-32 | a header with a full tag is written as exactly 12 bytes |
| Writer.WriteChunk | BmodWriter.cs:34-59 | a chunk with a full tag is written as the 8-byte frame plus its payload |
| Writer.WriteChunks | BmodWriter.cs:20-23 | the chunk list is written exactly when every tag is full, and a failure names one of the short tags |
| Writer.Write | BmodWriter.cs:16-24 | a file is written exactly when the magic and every tag are full |
| Writer.PaddedTextReadsBack | BmodWriter.cs:91-99 | ASCII text without a trailing NUL survives NUL padding and trimming |
| Writer.FixedFieldReadsBack | BmodWriter.cs:80-83 | a 24-byte fixed field written by the writer reads back as the original text |
| Writer.TextFieldReadsBack | BmodWriter.cs:77 | an unpadded string written by the writer reads back as itself |
| Writer.TextWordsReadBack | BmodWriter.cs:75-77 | the TEXT null word and length word read back as written |
| Writer.TextReadsBack | BmodWriter.cs:73-78 | a written TEXT payload decodes to the same null word and path |
| Writer.TextBodyReadsBack | BmodWriter.cs:73-78 | a written TEXT payload decodes, through the chunk dispatch, to the same body |
| Writer.FramedReadsBack | BmodWriter.cs:36-37 | a written frame reads back as the same tag and size, with the payload after it |
| Writer.RawReadsBack | BmodWriter.cs:54-57 | raw bytes written under a matching size read back as the same bytes |
| Writer.MboxReadsBack | BmodWriter.cs:61-65 | a written bounding box decodes to the same two vectors |
| Writer.OboxReadsBack | BmodWriter.cs:67-71 | a written oriented box decodes to the same centre and normal |
| Writer.TimeReadsBack | BmodWriter.cs:80-83 | a written timestamp of at most 24 ASCII characters decodes to itself |
| Writer.RawKindReadsBack | BmodWriter.cs:54-57 | a written cloud, light, flare or unknown chunk decodes to the same raw bytes |
| Writer.BodyReadsBack | BmodWriter.cs:40-58 | every body the writer can write faithfully decodes back to itself |
| Writer.BoxBodyReadsBack | BmodWriter.cs:61-71 | box bodies decode back to themselves |
| Writer.StringBodyReadsBack | BmodWriter.cs:73-83 | TEXT and TIME bodies decode back to themselves |
| Writer.ChunkReadsBack | BmodWriter.cs:34-59 | a written chunk is laid out where it was written and ends after its payload |
| Writer.WritableChunksWrite | BmodWriter.cs:20-23 | a list of writable chunks is always written |
| Writer.FirstChunkReadsBack | BmodWriter.cs:20-23 | in a written chunk list, the first chunk reads back and the rest of the bytes are the rest of the list |
| Writer.ChunksTile | BmodWriter.cs:20-23 | a written chunk list tiles the bytes it was written to |
| Writer.HeaderReadsBack | BmodWriter.cs:26-32 | a written header reads back as the same header |
| Writer.WriteSplits | BmodWriter.cs:16-24 | the written file is the written header followed by the written chunks |
| Writer.WrittenFileTiles | BmodWriter.cs:16-24 | a written file has the same header, and its chunks tile it from byte 12 |
| Writer.WrittenHeader | BmodWriter.cs:26-32 | a written file starts with the same header, followed by the written chunks |
| Writer.WriteReadsBack | BmodWriter.cs:16-24 | parsing a written file gives the same file, for every file the writer represents faithfully |
| Writer.NullWordIsDropped | BmodWriter.cs:54-57 | a BLST or ASEC chunk is written without its null word and so does not read back as itself |
| Animation.HeadsAppend | AnimationExporter.cs:115-142 | the bone names heading the blocks of two line runs are those of the first run, then the second |
| Animation.HeadsOfDeeper | AnimationExporter.cs:118-121 | lines nested one level deeper contribute no block at this level |
| Animation.WithParent | AnimationExporter.cs:127 | `FindAll` keeps, in list order, exactly the animations whose parent is the target |
| Animation.Walk | AnimationExporter.cs:115-142 | the hierarchy walk either writes a block or reports a cycle, the one way the source fails to finish |
| Animation.WalkKids | AnimationExporter.cs:128-131 | walking a child list either writes it or reports a cycle |
| Animation.WalkShape | AnimationExporter.cs:115-142 | a written block opens with the bone, writes its children one level deeper, and closes |
| Animation.WalkKidsShape | AnimationExporter.cs:128-131 | the children's lines are nested one level deeper and are headed by the children's names in list order |
| Animation.BlockHeads | AnimationExporter.cs:120-141 | a bone's block is one block at its depth, headed by the bone's name |
| Animation.EndSiteIffLeaf | AnimationExporter.cs:133-139 | a bone gets an End Site exactly when it has no children |
| Animation.FrameSamples | AnimationExporter.cs:96-107 | a frame has one sample per animation with more than f keyframes: all of them when every animation is long enough, none when none is |
| Animation.FrameSamplesInOrder | AnimationExporter.cs:96-107 | the sample of each animation with more than f keyframes sits at the place counting the long animations before it, so samples follow list order |
| Animation.FrameSamplesFromLong | AnimationExporter.cs:96-107 | conversely every sample is that of an animation with more than f keyframes, at the place counting the long animations before it |
| Animation.MotionRows | AnimationExporter.cs:94-109 | the MOTION section has exactly one row per frame, each row the samples of that frame |
| Animation.ExportBone | AnimationExporter.cs:79-110 | a bone chunk's section is its roots' blocks, then MOTION, then the rows, or a cycle |
| Animation.ExportBoneShape | AnimationExporter.cs:82-87 | the roots' blocks come out at depth 0 in list order |
| Animation.ExportBones | AnimationExporter.cs:79-110 | the bone chunks' export succeeds exactly when every chunk's own section does, and is then those sections concatenated in file order; a failure is a cycle |
| Animation.ExportBonesSectionAt | AnimationExporter.cs:79-110 | each chunk's section stands in the export right after the sections of the chunks before it |
| Animation.ExportBvh | AnimationExporter.cs:68-113 | the export fails with "no animation data" exactly when there are no BONE chunks; it succeeds exactly when there are some and each one's section succeeds, and is then HIERARCHY followed by those sections in file order |
| Animation.ChildNotOnPath | AnimationExporter.cs:127 | with distinct ids none of which is all-ones, a child is never an ancestor on the current path |
| Animation.WalkSucceeds | AnimationExporter.cs:115-142 | with distinct ids none of which is all-ones, the hierarchy walk finishes |
| Animation.WalkKidsSucceeds | AnimationExporter.cs:128-131 | under the same condition, walking a child list finishes |
| Animation.ExportBoneTerminates | AnimationExporter.cs:82-87 | under the same condition, a bone chunk's export finishes |
| Animation.ChildListsDisjoint | AnimationExporter.cs:127 | under the same condition, no bone is the child of two bones or both a child and a root |
| Animation.AllOnesAdoptsRoots | AnimationExporter.cs:127 | a bone id 0xFFFFFFFF casts to -1, so that bone's children are all the roots |
| Animation.WalkKidsFailsOnPath | AnimationExporter.cs:128-131 | a child list containing an ancestor makes the walk report a cycle |
| Animation.AllOnesRootCycles | AnimationExporter.cs:127-131 | a root with id 0xFFFFFFFF is its own child, so its walk never finishes |
| Animation.DecodedRowsAreFull | AnimationExporter.cs:94-107 | when every animation has the chunk's keyframe count, every row carries one sample per animation |
| MatFile.ReadValue | MatFileReader.cs:133-186 | the type table: a texture factor of type 0x0E or 0x0104 is a 16-byte colour; 0x0101 and 0x0104 are floats; 0x000A and 0x0005 are blobs with a size prefix; 0x0000 is 0 and reads nothing; any other type reads a float, which fails only at the end of the buffer |
| MatFile.ReadProperty | MatFileReader.cs:125-189 | a property has the id and type of its first two words, and its value follows them |
| MatFile.ReadProperties | MatFileReader.cs:66-70 | a successful read yields exactly the declared number of properties |
| MatFile.ReadPropertiesIffLaid | MatFileReader.cs:66-70 | the property loop returns a list exactly when those properties lie back to back from the position |
| MatFile.ColorReadsBack | MatFileReader.cs:134-143 | an encoded colour reads back as itself |
| MatFile.BlobReadsBack | MatFileReader.cs:149-169 | a size-prefixed blob reads back as its size and bytes |
| MatFile.EmptyLayerReadsBack | MatFileReader.cs:149-162 | a layer with size 0 reads back as the empty layer |
| MatFile.WordReadsBack | MatFileReader.cs:144-148 | a word under a float or unknown type reads back as itself |
| MatFile.ValueReadsBack | MatFileReader.cs:133-186 | every well-typed value reads back as itself, ending after its encoding |
| MatFile.PropertyReadsBack | MatFileReader.cs:125-189 | every well-typed property reads back as itself |
| MatFile.PropertyName | MatFileReader.cs:191-228 | known ids take their table name; any other id gets "Property" followed by its `X2` text: exactly max(2, significant digits) upper-case hex digits whose value is the id |
| MatFile.FallbackNamesAreNew | MatFileReader.cs:191-228 | a fallback name never equals a table name |
| MatFile.FallbackNamesDistinct | MatFileReader.cs:227 | two unknown ids share a fallback name only if they are equal |
| MatFile.SharedNames | MatFileReader.cs:222-226 | the table gives the same name to two ids in three places (Filter, DestBlend, AlphaRef) |
| MatFile.ReadCString | MatFileReader.cs:114-123 | a C string succeeds exactly when a NUL follows the position, and ends just after the first one |
| MatFile.ReadNames | MatFileReader.cs:80-84 | a successful read yields exactly the declared number of names, none containing NUL |
| MatFile.ReadNameTable | MatFileReader.cs:77-84 | the name table needs its count word and has that many names |
| MatFile.FirstWins | MatFileReader.cs:87-94 | the dictionary keeps, for each non-empty name, the value of its first occurrence |
| MatFile.FirstWinsKeys | MatFileReader.cs:87-94 | the dictionary's keys are exactly the non-empty names that occur |
| MatFile.TablePairs | MatFileReader.cs:87-92 | names and properties are paired by position, as far as both lists go |
| MatFile.FallbackPairs | MatFileReader.cs:100-103 | without a table, each property is paired with its generated name |
| MatFile.Parse | MatFileReader.cs:42-112 | a file shorter than its header is EndOfStream; a wrong magic is rejected; success keeps the header words and exactly the declared number of properties |
| MatFile.ParsedLayout | MatFileReader.cs:63-95 | the properties of a parsed file lie back to back from the start of the property block |
| MatFile.NoTableNoNames | MatFileReader.cs:75 | with nothing left after the properties, the name dictionary is empty |
| MatFile.TableNames | MatFileReader.cs:86-94 | with a readable table, a name is a key exactly when it is a non-empty table name paired with a property, and keeps its first value |
| MatFile.FallbackNames | MatFileReader.cs:97-109 | with an unreadable table, every property is named by id, and the first property with a name gives that name's value |
| ObjExport.Triangles | ObjExporter.cs:84-93 | the face loop writes floor(n/3) faces, face k being indices 3k to 3k+2 shifted by the offset |
| ObjExport.FirstMaterial | ObjExporter.cs:256-257 | the first entry typed MATERIAL, or none exactly when no entry is |
| ObjExport.FirstTexture | ObjExporter.cs:262-263 | the first property named TEXTURE, or none exactly when no property is |
| ObjExport.TextureOfFirst | ObjExporter.cs:253-272 | a texture is found exactly when the first MATERIAL entry has a TEXTURE property, and is the first such property's value |
| ObjExport.DecodedMateTexture | ObjExporter.cs:253-272 | on the entries the material decoder builds, the texture is the material's texture name |
| ObjExport.SanitizedShape | ObjExporter.cs:274-282 | an empty name becomes "default"; otherwise the result has no separator, space or dot, and is the file stem with spaces and dots made underscores |
| ObjExport.SanitizePlain | ObjExporter.cs:274-282 | a non-empty name with no separator, space or dot is kept as it is |
| ObjExport.SanitizeIdempotent | ObjExporter.cs:274-282 | sanitizing a sanitized name changes nothing |
| ObjExport.MateMaterials | ObjExporter.cs:43-52 | one material per MATE chunk, in order |
| ObjExport.Placements | ObjExporter.cs:33-97 | one placement per written part |
| ObjExport.Objects | ObjExporter.cs:36-98 | one object per placement |
| ObjExport.EmitAllLayout | ObjExporter.cs:36-98 | an export loop appends one object per written part, and grows the offset by their vertex counts and the index by their number |
| ObjExport.PlacementsAppend | ObjExporter.cs:96-97 | the placements of two runs are the first run's, then the second's shifted by its vertices and count |
| ObjExport.PlacementAt | ObjExporter.cs:88-96 | the j-th part is placed at the offset grown by the vertices of the parts before it, with index j |
| ObjExport.ExportLayout | ObjExporter.cs:33-153 | the OBJ objects are the written MESHes, then the written OBMOs, laid out from offset 1 and index 0 |
| ObjExport.LaidOutAt | ObjExporter.cs:88-96 | the j-th object's faces are shifted by 1 plus the vertices of all objects before it |
| ObjExport.ExportedMembers | ObjExporter.cs:39-40 | every written part comes from a MESH or OBMO holding both a VERT and an ISTR, with exactly their vertices and indices |
| ObjExport.ExportedComplete | ObjExporter.cs:39-40 | conversely every MESH or OBMO holding both a VERT and an ISTR is written, in chunk order, after the parts of the chunks before it |
| ObjExport.UntexturedMeshesUseDefault | ObjExporter.cs:43-52 | with no MATE chunk carrying a texture, every mesh uses "default" |
| ObjExport.FirstHit | ObjExporter.cs:293-307 | the first key the cache holds, or none exactly when it holds none of them |
| ObjExport.ResolveTexturePath | ObjExporter.cs:284-310 | no cache gives no path; otherwise none exactly when no candidate name is in the cache |
| ObjExport.TexturePriority | ObjExporter.cs:289-298 | the .dds name wins over the name as given, which wins over the other extensions |
| ObjExport.FirstContaining | ObjExporter.cs:199-200 | the first TEXT path containing the stem, or none exactly when no path does |
| ObjExport.FirstOccurrences | ObjExporter.cs:184-188 | the duplicate check keeps, in order, exactly the positions whose name no earlier position has |
| ObjExport.MateNames | ObjExporter.cs:175-182 | one material name per MATE chunk, in order |
| ObjExport.ExportMtl | ObjExporter.cs:165-247 | the default material is written exactly when there are no MATE chunks, and is then the only entry; material names are distinct; the materials are exactly the first uses of each name, with their map lines, in MATE order |
| ObjExport.NamedMatesDefined | ObjExporter.cs:175-190 | every MATE chunk with a texture has its material written, by itself or by an earlier chunk with the same name |
| Paths.FileName | ObjExporter.cs:207 | `GetFileName` is the suffix after the last separator and has no separator |
| Paths.FileStem | ObjExporter.cs:280 | `GetFileNameWithoutExtension` is the file name up to its last dot |
| Paths.Extension | ObjExporter.cs:208 | `GetExtension` is empty, or a dot and the dot-free tail of the file name |
| Paths.ChangeExtension | ObjExporter.cs:212 | `ChangeExtension` keeps the directory and stem and appends the new extension |
| Paths.StemOfAppendedExtension | ObjExporter.cs:290-291 | appending an extension to a stem and taking the stem again gives the stem back |
| Text.Decimal | BmodStructures.cs:34 | the decimal text of a number is digits only, with no leading zero |
| Text.DottedDecimals | BmodStructures.cs:34 | two decimal texts joined by a dot form the dotted pair of the two numbers |
| Text.DottedPairUnique | BmodStructures.cs:34 | a dotted pair names its two numbers: the dot can sit in one place only |
| Text.DecimalRoundTrip | BmodStructures.cs:34 | the decimal text reads back as the number |
| Text.DecimalInjective | BmodStructures.cs:34 | two numbers have the same decimal text exactly when they are equal |
| Text.HexDigits | MatFileReader.cs:227 | the significant hex digits: at least one, upper-case, starting with 0 only for zero |
| Text.HexDigitsRoundTrip | MatFileReader.cs:227 | the significant hex digits read back as the number |
| Text.Hex | MatFileReader.cs:227 | the `X<width>` text: exactly max(width, significant digits) upper-case hex digits |
| Text.HexRoundTrip | MatFileReader.cs:227 | the padded hex text reads back as the number |
| Text.ReplaceChar | ObjExporter.cs:281 | `Replace` changes exactly the occurrences of one character |
| Text.Lower | ObjExporter.cs:208 | `ToLower` lower-cases each character and keeps the length |
| Defines.LastWinsStep | VertexFormatReader.cs:28 | storing one more definition keeps the table the last-wins table of the longer run |
| Defines.LastWinsUnique | VertexFormatReader.cs:28 | the last-wins table of a run of lines is unique |
| VertexFormat.LoadVf | VertexFormatReader.cs:14-33 | `LoadVF` holds exactly the names defined on unskipped lines, each with its last value |
| VertexFormat.TypeSize | VertexFormatReader.cs:84-98 | each element type is 4, 8, 12 or 16 bytes, and any type outside FLOAT2, FLOAT3, FLOAT4 and SHORT4 is 4 bytes |
| VertexFormat.ResetEnd | VertexFormatReader.cs:52-58 | the last selection of a stream other than 0 lies within the lines |
| VertexFormat.OffsetSinceReset | VertexFormatReader.cs:52-80 | the running offset is the size of the elements since the last selection of a stream other than 0 |
| VertexFormat.ElementsPacked | VertexFormatReader.cs:62-77 | each element starts where the one before it ends, or at 0 after a stream reset; the first starts at 0 |
| VertexFormat.LoadVfd | VertexFormatReader.cs:35-82 | `LoadVFD` lists the elements in order at their offsets, and its total size counts only the elements since the last selection of a stream other than 0 |
| VertexFormat.StreamExamples | VertexFormatReader.cs:52-58 | selecting stream 0 does not reset the offset, while selecting stream 1 does |
| VertexShader.LoadCompiled | VertexShaderReader.cs:77-93 | a compiled shader fails exactly when the file has fewer than 4 bytes, and its bytecode is all bytes after the first four |
| VertexShader.EncodeCompiled | VertexShaderReader.cs:86-90 | a compiled file is 4 header bytes followed by the bytecode |
| VertexShader.CompiledRoundTrip | VertexShaderReader.cs:77-93 | loading an encoded shader gives it back, whatever the two reserved bytes |
| VertexShader.CompiledSplit | VertexShaderReader.cs:86-90 | every file of at least 4 bytes is the encoding of what it loads to, with its own reserved bytes |
| VertexShader.ShaderVersionString | VertexShaderReader.cs:95 | the version text is "vs.", the high byte in decimal without leading zeros, a dot, and the low byte likewise |
| VertexShader.ShaderVersionStringInjective | VertexShaderReader.cs:95 | two versions have the same text exactly when they are equal |
| VertexShader.LastVersion | VertexShaderReader.cs:29-33 | the version is none exactly when no line is a version line, and otherwise the last one |
| VertexShader.LoadShader | VertexShaderReader.cs:16-59 | `Load` keeps the last version, every include in order, the last value of each define, and every instruction in order |
| VertexShader.InstructionsSound | VertexShaderReader.cs:52-55 | every instruction kept is a line classed as one, and is not a comment |
| VertexShader.InstructionsComplete | VertexShaderReader.cs:52-55 | every line classed as an instruction is kept |
| VertexShader.IncludesExact | VertexShaderReader.cs:36-41 | a path is included exactly when some line is an include of it |
| VertexShader.VersionLinesShadow | VertexShaderReader.cs:29-33 | a version line contributes no define, include or instruction, whatever else it contains |

## Left out

- Program.cs, TextureConverter.cs and PixelShaderReader.cs: the command line, the DDS conversion and the pixel-shader reader are not part of this model.
- File and console I/O, `File.ReadAllBytes`, `File.WriteAllText` and every `Console.WriteLine`: the readers take the file's bytes or lines as input, and the exporters return structured lines instead of text.
- Float formatting, the OBJ `v`/`vn`/`vt` text, the V flip `1 - v` and the quaternion-to-Euler conversion: floats are kept as 32-bit patterns and never computed with.
- The `ToString` summaries and the material display tables: they are formatting only.
- `ReadFixedString` (BmodReader.cs:857-868): nothing calls it.
- The regular expressions of the text readers: each line arrives trimmed, with what each search found in it. `IsNullOrWhiteSpace` of a trimmed line is modelled as the line being empty.
- `int.Parse` of the stream number: the stream number is an unbounded natural, so a number too large for `int` does not throw.
- The 32-bit `vertexOffset` and `meshIndex` counters of the OBJ export are unbounded, so they do not overflow.
- `ResolveTexturePath`'s cache is a map from lower-cased names. The `OrdinalIgnoreCase` comparer is modelled by ASCII lower-casing only.
- ObjExport.ExportMtl: when MATE chunks exist but none has a texture, no "default" material is written, although every mesh uses it. The model states this as the source does it.
- Reader.DecodeBody: the mesh, object-mesh, VERT, material and station readers catch their exceptions, and the model keeps what they kept. In every other reader an exception fails the chunk and the whole parse, as the uncaught exception does; the model does not say what a caller of `Parse` sees beyond the error.
- Flat.DecodeTime: states the shape of the timestamp. The exact text is stated by Writer.TimeReadsBack for written timestamps.
- Writer.Write: a short tag gives a failure with no bytes. The source writes into the caller's `BinaryWriter`, so when `Write(bytes, 0, 4)` raises on a short tag (BmodWriter.cs:88), the header and every earlier chunk are already in that stream. The model does not return this partial output.
- Writer.WriteChunk: strings are sequences of Unicode code points, so TEXT's length word counts code points. The source writes `TexturePath.Length` (BmodWriter.cs:76), which counts UTF-16 code units, so the two differ for a path holding a character outside the Basic Multilingual Plane. Every string the reader produces is ASCII, so only a hand-built file can hold one.
- Writer.Vec3Bytes: states only the length. The contents are stated by Writer.MboxReadsBack and Writer.OboxReadsBack.
- Writer.WriteHeader: states only the length. The contents are stated by Writer.HeaderReadsBack.
- VertexFormat.TypeSize: states the range and the default, not every table entry.
- Writer.WriteReadsBack: covers files whose bodies the writer represents faithfully (boxes, TEXT, TIME, raw payloads). Decoded-only classes are not re-encoded by the writer, and Writer.NullWordIsDropped shows one that is lost.
- Flat.SkipEntries, Flat.MateSkipLandsAtEnd and Flat.MateSkipOvershoots: they state where the material reader's entry skip leaves the cursor, which nothing can observe, since `ReadChunk` moves the cursor to the chunk's end afterwards (BmodReader.cs:155). Nor can a raise in it be seen: the material entry is added before the skip (BmodReader.cs:588-599) and the handler catches everything (BmodReader.cs:630-640). They describe the cursor arithmetic of that skip only, and no chunk contract depends on them.
- Paths.IsSeparator: only '/' and '\\' separate. The Windows volume separator ':' is not one, so `GetFileName("C:x.dds")` is "C:x.dds" here, where .NET on Windows gives "x.dds".
- Strings the source never assigns are null in .NET; the model uses the empty string for them. This covers the OBST name when its length guard fails or its header words are missing. The OBMO name is an `Option`, so there the difference is kept.

## Findings

| source | as written | input that shows it | evidently intended | confidence | as-written member | corrected member |
|---|---|---|---|---|---|---|
| BmodReader.cs:275-289 | each vertex reads 36 bytes (position, normal, colour, uv), but the loop's record size and the leftover computation use 40 | an 80-byte VERT body whose byte 36 is 1: the second vertex as written starts at byte 36 instead of 40, so its position differs from the second record | each vertex consumes the declared 40-byte record (`Vertex.SizeInBytes`), so records stay aligned and the tangent block starts at 12 + 40n | medium, not executed | Records.ReadVertexAsWritten | Records.ReadVertex |
