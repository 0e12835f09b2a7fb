/** The Wavefront OBJ/MTL export (`ObjExporter`): which meshes become
    objects, how face indices are shifted, which material each object uses,
    and how material textures are looked up. Number formatting and the text
    layout of the files are left to the writer of the lines. */
module ObjExport {
  import opened Wrappers
  import opened Binary
  import opened Structures
  import opened Views
  import opened Paths
  import opened Text

  // ---------------------------------------------------------------------------
  // Faces
  // ---------------------------------------------------------------------------

  /** One `f` line: three one-based vertex references. */
  datatype Face = Face(a: int, b: int, c: int)

  /** The triangles of an index list under a vertex offset. */
  function FaceList(indices: seq<u16>, offset: int): seq<Face> {
    seq(|indices| / 3, k requires 0 <= k < |indices| / 3 =>
      Face(indices[3 * k] + offset, indices[3 * k + 1] + offset, indices[3 * k + 2] + offset))
  }

  /** The face loop: `i` steps by three and stops before a group that is not
      complete, so one or two trailing indices are dropped. */
  method Triangles(indices: seq<u16>, offset: int) returns (faces: seq<Face>)
    ensures |faces| == |indices| / 3
    ensures forall k :: 0 <= k < |faces| ==>
              faces[k] == Face(indices[3 * k] + offset, indices[3 * k + 1] + offset, indices[3 * k + 2] + offset)
    ensures faces == FaceList(indices, offset)
  {
    faces := [];
    var i := 0;
    while i < |indices|
      invariant i % 3 == 0 && i / 3 <= |indices| / 3
      invariant |faces| == i / 3
      invariant forall k :: 0 <= k < |faces| ==>
                  faces[k] == Face(indices[3 * k] + offset, indices[3 * k + 1] + offset, indices[3 * k + 2] + offset)
      invariant i < |indices| || |faces| == |indices| / 3
      decreases |indices| - i
    {
      if i + 2 >= |indices| {
        break;
      }
      faces := faces + [Face(indices[i] + offset, indices[i + 1] + offset, indices[i + 2] + offset)];
      i := i + 3;
    }
  }

  // ---------------------------------------------------------------------------
  // Material names
  // ---------------------------------------------------------------------------

  /** Index of the first entry typed "MATERIAL". */
  function FirstMaterial(entries: seq<MaterialEntry>): (r: Option<nat>)
    ensures r.Some? ==> r.value < |entries| && entries[r.value].typeName == "MATERIAL" &&
                        forall j :: 0 <= j < r.value ==> entries[j].typeName != "MATERIAL"
    ensures r.None? <==> forall j :: 0 <= j < |entries| ==> entries[j].typeName != "MATERIAL"
    decreases |entries|
  {
    if entries == [] then None
    else if entries[0].typeName == "MATERIAL" then Some(0)
    else
      match FirstMaterial(entries[1..])
      case None => None
      case Some(i) => Some(i + 1)
  }

  /** Index of the first property named "TEXTURE". */
  function FirstTexture(props: seq<MaterialProperty>): (r: Option<nat>)
    ensures r.Some? ==> r.value < |props| && props[r.value].name == "TEXTURE" &&
                        forall j :: 0 <= j < r.value ==> props[j].name != "TEXTURE"
    ensures r.None? <==> forall j :: 0 <= j < |props| ==> props[j].name != "TEXTURE"
    decreases |props|
  {
    if props == [] then None
    else if props[0].name == "TEXTURE" then Some(0)
    else
      match FirstTexture(props[1..])
      case None => None
      case Some(i) => Some(i + 1)
  }

  /** `GetTextureFromMate`: the texture of the first TEXTURE property of the
      first MATERIAL entry; nothing when either is missing. */
  function TextureOf(entries: seq<MaterialEntry>): Option<string> {
    match FirstMaterial(entries)
    case None => None
    case Some(i) =>
      match FirstTexture(entries[i].properties)
      case None => None
      case Some(j) => Some(entries[i].properties[j].textureValue)
  }

  /** A texture is found exactly when the first MATERIAL entry has a TEXTURE
      property, and it is that entry's first one; a TEXTURE in a later
      MATERIAL entry is never looked at. */
  lemma TextureOfFirst(entries: seq<MaterialEntry>)
    ensures TextureOf(entries).Some? ==> exists i, j ::
              0 <= i < |entries| && entries[i].typeName == "MATERIAL" &&
              (forall i' :: 0 <= i' < i ==> entries[i'].typeName != "MATERIAL") &&
              0 <= j < |entries[i].properties| && entries[i].properties[j].name == "TEXTURE" &&
              (forall j' :: 0 <= j' < j ==> entries[i].properties[j'].name != "TEXTURE") &&
              TextureOf(entries).value == entries[i].properties[j].textureValue
    ensures TextureOf(entries).None? <==> forall i :: 0 <= i < |entries| && entries[i].typeName == "MATERIAL" ==>
              (exists i' :: 0 <= i' < i && entries[i'].typeName == "MATERIAL") ||
              forall j :: 0 <= j < |entries[i].properties| ==> entries[i].properties[j].name != "TEXTURE"
  {
  }

  /** The entries the MATE decoder builds: one MATERIAL entry holding one
      TEXTURE property, or none. Their texture is the one stored. */
  lemma DecodedMateTexture(name: string)
    ensures TextureOf([]) == None
    ensures TextureOf([MaterialEntry("MATERIAL", [MaterialProperty("TEXTURE", name)])]) == Some(name)
  {
  }

  function MateTexture(c: Chunk): Option<string> {
    if c.body.Mate? then TextureOf(c.body.entries) else None
  }

  /** `Replace(" ", "_").Replace(".", "_")`. */
  function Underscored(s: string): string {
    ReplaceChar(ReplaceChar(s, ' ', '_'), '.', '_')
  }

  /** `SanitizeMaterialName`: "default" for an empty name; otherwise the file
      name without directory or extension, with spaces and dots made '_'. */
  function SanitizeMaterialName(name: string): string {
    if name == "" then "default" else Underscored(FileStem(name))
  }

  /** A sanitized name holds no separator, space or dot, and keeps every
      other character of the stem in place. */
  lemma SanitizedShape(name: string)
    ensures name == "" ==> SanitizeMaterialName(name) == "default"
    ensures var r := SanitizeMaterialName(name);
            name != "" ==> |r| == |FileStem(name)| && HasNoSeparator(r) && HasNo(r, ' ') && HasNo(r, '.')
    ensures var r := SanitizeMaterialName(name);
            name != "" ==> forall i :: 0 <= i < |r| && FileStem(name)[i] != ' ' && FileStem(name)[i] != '.' ==>
              r[i] == FileStem(name)[i]
  {
  }

  /** A name without separators or dots is its own stem. */
  lemma PlainStem(s: string)
    requires HasNoSeparator(s) && HasNo(s, '.')
    ensures FileStem(s) == s
  {
    FileNameOfJoin([], s);
    assert [] + s == s;
  }

  /** A non-empty name without separators, spaces or dots sanitizes to
      itself. */
  lemma SanitizePlain(s: string)
    requires s != "" && HasNoSeparator(s) && HasNo(s, ' ') && HasNo(s, '.')
    ensures SanitizeMaterialName(s) == s
  {
    PlainStem(s);
    var u := Underscored(s);
    assert forall i :: 0 <= i < |s| ==> u[i] == s[i];
  }

  /** Sanitizing a sanitized name changes nothing. */
  lemma SanitizeIdempotent(name: string)
    requires SanitizeMaterialName(name) != ""
    ensures SanitizeMaterialName(SanitizeMaterialName(name)) == SanitizeMaterialName(name)
  {
    if name != "" {
      SanitizedShape(name);
      SanitizePlain(SanitizeMaterialName(name));
    } else {
      SanitizePlain("default");
    }
  }

  /** An object's `usemtl`: "default", or the material named after a
      texture. */
  datatype MaterialRef = DefaultRef | TextureRef(texture: string)

  /** The name the `usemtl` line writes. */
  function MaterialName(m: MaterialRef): string {
    match m
    case DefaultRef => "default"
    case TextureRef(t) => SanitizeMaterialName(t)
  }

  /** The material a MATE chunk gives the MESH at its position: its
      texture's when that is not empty. */
  function MateMaterial(c: Chunk): MaterialRef {
    match MateTexture(c)
    case Some(t) => if t != "" then TextureRef(t) else DefaultRef
    case None => DefaultRef
  }

  /** The material each MATE chunk gives, in order. */
  function MateMaterials(mates: seq<Chunk>): (r: seq<MaterialRef>)
    ensures |r| == |mates|
  {
    seq(|mates|, k requires 0 <= k < |mates| => MateMaterial(mates[k]))
  }

  /** The material of the k-th exported MESH: that of the k-th MATE chunk,
      when there is one. */
  function MeshMaterial(materials: seq<MaterialRef>, k: nat): MaterialRef {
    if k < |materials| then materials[k] else DefaultRef
  }

  // ---------------------------------------------------------------------------
  // Objects
  // ---------------------------------------------------------------------------

  /** The `o` name: "Mesh_k" for a MESH, the OBMO's name with spaces made
      '_', or "OBMO_k" for an OBMO without a name. */
  datatype Label = MeshLabel(index: nat) | ObmoLabel(index: nat) | NamedLabel(name: string)

  /** One object of the OBJ file: name, material, the vertices its `v`, `vn`
      and `vt` lines come from, and its faces. */
  datatype ObjObject = ObjObject(title: Label, material: MaterialRef, vertices: seq<Vertex>, faces: seq<Face>)

  /** What the export takes from a MESH or OBMO chunk. */
  datatype Part = Part(isMesh: bool, name: Option<string>, vertices: seq<Vertex>, indices: seq<u16>)

  /** A MESH or OBMO is written only when it has both a VERT and an ISTR. */
  function PartOf(c: Chunk): Option<Part> {
    if (c.body.Mesh? || c.body.Obmo?) && c.body.vert.Some? && c.body.istr.Some? then
      Some(Part(c.body.Mesh?, if c.body.Obmo? then c.body.objectName else None,
                c.body.vert.value.vertices, c.body.istr.value.indices))
    else None
  }

  /** The object written for `part` at vertex offset `offset` as the
      `index`-th object. */
  function ObjectOf(part: Part, materials: seq<MaterialRef>, offset: int, index: nat): ObjObject {
    var title :=
      if part.isMesh then MeshLabel(index)
      else match part.name
           case Some(n) => NamedLabel(ReplaceChar(n, ' ', '_'))
           case None => ObmoLabel(index);
    var material := if part.isMesh then MeshMaterial(materials, index) else DefaultRef;
    ObjObject(title, material, part.vertices, FaceList(part.indices, offset))
  }

  /** The loops' state: objects so far, `vertexOffset` and `meshIndex`. */
  datatype Progress = Progress(objects: seq<ObjObject>, offset: int, index: nat)

  /** One iteration of either export loop. */
  function Emit(c: Chunk, materials: seq<MaterialRef>, p: Progress): Progress {
    match PartOf(c)
    case None => p
    case Some(part) =>
      Progress(p.objects + [ObjectOf(part, materials, p.offset, p.index)], p.offset + |part.vertices|, p.index + 1)
  }

  function EmitAll(cs: seq<Chunk>, materials: seq<MaterialRef>, p: Progress): Progress
    decreases |cs|
  {
    if cs == [] then p else EmitAll(cs[1..], materials, Emit(cs[0], materials, p))
  }

  /** The parts that are written, in order. */
  function Exported(cs: seq<Chunk>): seq<Part>
    decreases |cs|
  {
    if cs == [] then []
    else
      match PartOf(cs[0])
      case None => Exported(cs[1..])
      case Some(part) => [part] + Exported(cs[1..])
  }

  /** Vertices of a run of parts. */
  function VertexSum(ps: seq<Part>): nat
    decreases |ps|
  {
    if ps == [] then 0 else |ps[0].vertices| + VertexSum(ps[1..])
  }

  /** Where an object goes: its part, vertex offset and index. */
  datatype Placement = Placement(part: Part, offset: int, index: nat)

  /** The placements of a run of parts, the first at `offset` and numbered
      `index`, each later one at the offset grown by the vertices before
      it. */
  function Placements(ex: seq<Part>, offset: int, index: nat): (r: seq<Placement>)
    ensures |r| == |ex|
    decreases |ex|
  {
    if ex == [] then []
    else [Placement(ex[0], offset, index)] + Placements(ex[1..], offset + |ex[0].vertices|, index + 1)
  }

  function Objects(ps: seq<Placement>, materials: seq<MaterialRef>): (r: seq<ObjObject>)
    ensures |r| == |ps|
    decreases |ps|
  {
    if ps == [] then []
    else [ObjectOf(ps[0].part, materials, ps[0].offset, ps[0].index)] + Objects(ps[1..], materials)
  }

  /** A loop over `cs` appends the objects of its written parts, and a
      skipped chunk moves neither the offset nor the index. */
  lemma {:induction false} EmitAllLayout(cs: seq<Chunk>, materials: seq<MaterialRef>, p: Progress)
    ensures var ex := Exported(cs);
            EmitAll(cs, materials, p) ==
              Progress(p.objects + Objects(Placements(ex, p.offset, p.index), materials), p.offset + VertexSum(ex), p.index + |ex|)
    decreases |cs|
  {
    if cs == [] {
      assert p.objects + [] == p.objects;
    } else {
      var q := Emit(cs[0], materials, p);
      var rest := Exported(cs[1..]);
      EmitAllLayout(cs[1..], materials, q);
      match PartOf(cs[0])
      case None =>
      case Some(part) =>
        var ex := [part] + rest;
        assert ex[1..] == rest;
        var tail := Placements(rest, q.offset, q.index);
        var ps := Placements(ex, p.offset, p.index);
        assert ps[1..] == tail;
        assert Objects(ps, materials) == [ObjectOf(part, materials, p.offset, p.index)] + Objects(tail, materials);
        assert q.objects + Objects(tail, materials) == p.objects + Objects(ps, materials);
    }
  }

  /** The placements of two runs are the first run's, then the second's
      continuing where the first stopped. */
  lemma {:induction false} PlacementsAppend(a: seq<Part>, b: seq<Part>, offset: int, index: nat)
    ensures Placements(a + b, offset, index) ==
            Placements(a, offset, index) + Placements(b, offset + VertexSum(a), index + |a|)
    decreases |a|
  {
    if a == [] {
      assert a + b == b;
    } else {
      assert (a + b)[1..] == a[1..] + b;
      PlacementsAppend(a[1..], b, offset + |a[0].vertices|, index + 1);
    }
  }

  lemma {:induction false} ObjectsAppend(a: seq<Placement>, b: seq<Placement>, materials: seq<MaterialRef>)
    ensures Objects(a + b, materials) == Objects(a, materials) + Objects(b, materials)
    decreases |a|
  {
    if a == [] {
      assert a + b == b;
    } else {
      assert (a + b)[1..] == a[1..] + b;
      ObjectsAppend(a[1..], b, materials);
    }
  }

  /** The j-th placement is the j-th part at the offset grown by the
      vertices of the parts before it. */
  lemma {:induction false} PlacementAt(ex: seq<Part>, offset: int, index: nat, j: nat)
    requires j < |ex|
    ensures Placements(ex, offset, index)[j] == Placement(ex[j], offset + VertexSum(ex[..j]), index + j)
    decreases j
  {
    if j == 0 {
      assert ex[..0] == [];
    } else {
      PlacementAt(ex[1..], offset + |ex[0].vertices|, index + 1, j - 1);
      assert ex[..j][1..] == ex[1..][..j - 1];
      assert ex[1..][j - 1] == ex[j];
    }
  }

  lemma {:induction false} ObjectAt(ps: seq<Placement>, materials: seq<MaterialRef>, j: nat)
    requires j < |ps|
    ensures Objects(ps, materials)[j] == ObjectOf(ps[j].part, materials, ps[j].offset, ps[j].index)
    decreases j
  {
    if j > 0 {
      ObjectAt(ps[1..], materials, j - 1);
    }
  }

  /** The export loops over the MESH and OBMO chunks: first every MESH, then
      every OBMO, sharing the vertex offset (starting at 1) and the object
      index. */
  function Export(meshes: seq<Chunk>, obmos: seq<Chunk>, materials: seq<MaterialRef>): seq<ObjObject> {
    EmitAll(obmos, materials, EmitAll(meshes, materials, Progress([], 1, 0))).objects
  }

  /** `Export` on a whole file's chunks. */
  function ExportObj(chunks: seq<Chunk>): seq<ObjObject> {
    Export(GetChunks(chunks, OfKind(MeshKind)), GetChunks(chunks, OfKind(ObmoKind)),
           MateMaterials(GetChunks(chunks, OfKind(MateKind))))
  }

  /** The OBJ file holds one object per written part, the MESHes first,
      placed from offset 1 and index 0. */
  lemma ExportLayout(meshes: seq<Chunk>, obmos: seq<Chunk>, materials: seq<MaterialRef>)
    ensures Export(meshes, obmos, materials) == Objects(Placements(Exported(meshes) + Exported(obmos), 1, 0), materials)
  {
    var em := Exported(meshes);
    var eo := Exported(obmos);
    var p := Progress([], 1, 0);
    var q := EmitAll(meshes, materials, p);
    EmitAllLayout(meshes, materials, p);
    EmitAllLayout(obmos, materials, q);
    PlacementsAppend(em, eo, 1, 0);
    ObjectsAppend(Placements(em, 1, 0), Placements(eo, q.offset, q.index), materials);
    assert [] + Objects(Placements(em, 1, 0), materials) == Objects(Placements(em, 1, 0), materials);
  }

  /** The j-th of the objects laid out from offset 1 is made from the j-th
      part, its faces shifted by one plus the vertices of all parts before
      it; with `ExportLayout` this is the j-th object of the OBJ file, the
      MESHes first, and a MESH among them takes the material of the MATE
      chunk at its own position. */
  lemma LaidOutAt(ex: seq<Part>, materials: seq<MaterialRef>, j: nat)
    requires j < |ex|
    ensures var objs := Objects(Placements(ex, 1, 0), materials);
            |objs| == |ex| && objs[j] == ObjectOf(ex[j], materials, 1 + VertexSum(ex[..j]), j)
  {
    PlacementAt(ex, 1, 0, j);
    ObjectAt(Placements(ex, 1, 0), materials, j);
  }

  /** A chunk is written exactly when it is a MESH or OBMO holding both a
      VERT and an ISTR, and then with exactly their vertices and indices. */
  lemma ExportedMembers(cs: seq<Chunk>)
    ensures forall part :: part in Exported(cs) ==>
              exists c :: c in cs && (c.body.Mesh? || c.body.Obmo?) && c.body.vert.Some? && c.body.istr.Some? &&
                          part.vertices == c.body.vert.value.vertices && part.indices == c.body.istr.value.indices &&
                          part.isMesh == c.body.Mesh?
  {
    if cs != [] {
      ExportedMembers(cs[1..]);
    }
  }

  /** Conversely, every MESH or OBMO chunk with both a VERT and an ISTR is
      exported, in chunk order: its part follows the parts of the chunks
      before it. */
  lemma {:induction false} ExportedComplete(cs: seq<Chunk>)
    ensures forall i :: 0 <= i < |cs| && PartOf(cs[i]).Some? ==>
              |Exported(cs[..i])| < |Exported(cs)| && Exported(cs)[|Exported(cs[..i])|] == PartOf(cs[i]).value
    decreases |cs|
  {
    if cs != [] {
      ExportedComplete(cs[1..]);
      forall i | 0 < i < |cs| && PartOf(cs[i]).Some?
        ensures |Exported(cs[..i])| < |Exported(cs)| && Exported(cs)[|Exported(cs[..i])|] == PartOf(cs[i]).value
      {
        assert cs[..i][1..] == cs[1..][..i - 1];
        assert cs[1..][i - 1] == cs[i];
      }
    }
  }

  /** With no MATE chunk carrying a non-empty texture every MESH uses
      "default"; the material library then defines "default" only when there
      are no MATE chunks at all. */
  lemma UntexturedMeshesUseDefault(mates: seq<Chunk>, k: nat)
    requires forall i :: 0 <= i < |mates| ==> MateMaterialName(mates[i]).None?
    ensures MeshMaterial(MateMaterials(mates), k) == DefaultRef
  {
    if k < |mates| {
      assert MateMaterialName(mates[k]).None?;
    }
  }

  // ---------------------------------------------------------------------------
  // Texture lookup
  // ---------------------------------------------------------------------------

  /** The texture cache: file names, lower-cased, to full paths. */
  type Cache = map<string, string>

  /** `TryGetValue` on a dictionary with the `OrdinalIgnoreCase` comparer. */
  function Lookup(cache: Cache, key: string): Option<string> {
    if Lower(key) in cache then Some(cache[Lower(key)]) else None
  }

  /** The names tried, in order: the stem with ".dds", the name as given, then
      the stem with ".tga", ".png", ".jpg" and ".bmp". */
  function Candidates(name: string): seq<string> {
    var stem := FileStem(name);
    [stem + ".dds", name, stem + ".tga", stem + ".png", stem + ".jpg", stem + ".bmp"]
  }

  /** The value of the first key the cache holds. */
  function FirstHit(cache: Cache, keys: seq<string>): (r: Option<string>)
    ensures r.None? <==> forall i :: 0 <= i < |keys| ==> Lookup(cache, keys[i]).None?
    ensures r.Some? ==> exists i :: 0 <= i < |keys| && Lookup(cache, keys[i]) == r &&
                                    forall j :: 0 <= j < i ==> Lookup(cache, keys[j]).None?
    decreases |keys|
  {
    if keys == [] then None
    else if Lookup(cache, keys[0]).Some? then Lookup(cache, keys[0])
    else
      var r := FirstHit(cache, keys[1..]);
      assert forall i :: 1 <= i < |keys| ==> keys[i] == keys[1..][i - 1];
      if r.Some? then
        var i :| 0 <= i < |keys[1..]| && Lookup(cache, keys[1..][i]) == r &&
                 forall j :: 0 <= j < i ==> Lookup(cache, keys[1..][j]).None?;
        assert Lookup(cache, keys[i + 1]) == r;
        r
      else r
  }

  /** `ResolveTexturePath`: no cache, no path; otherwise the first candidate
      name the cache holds. */
  function ResolveTexturePath(cache: Option<Cache>, name: string): (r: Option<string>)
    ensures cache.None? ==> r.None?
    ensures cache.Some? ==> (r.None? <==> forall key :: key in Candidates(name) ==> Lookup(cache.value, key).None?)
  {
    match cache
    case None => None
    case Some(c) => FirstHit(c, Candidates(name))
  }

  /** The ".dds" name wins over everything else, the name as given over the
      other extensions. */
  lemma TexturePriority(cache: Cache, name: string)
    ensures Lookup(cache, FileStem(name) + ".dds").Some? ==>
              ResolveTexturePath(Some(cache), name) == Lookup(cache, FileStem(name) + ".dds")
    ensures Lookup(cache, FileStem(name) + ".dds").None? && Lookup(cache, name).Some? ==>
              ResolveTexturePath(Some(cache), name) == Lookup(cache, name)
  {
    var ks := Candidates(name);
    if Lookup(cache, ks[0]).None? {
      assert FirstHit(cache, ks) == FirstHit(cache, ks[1..]);
      assert ks[1..][0] == name;
    }
  }

  // ---------------------------------------------------------------------------
  // The material library
  // ---------------------------------------------------------------------------

  /** What follows a material's colour lines. */
  datatype MapLine =
    | ConvertedDds(png: string, original: string)  // "# map_Kd X.png  # Convert DDS to PNG"
    | MapKd(fileName: string)                       // "map_Kd X"
    | Unresolved(texturePath: string)               // "# map_Kd P  # Texture not found"
    | NoTextChunk(textureName: string)              // "# Material file: T"

  /** A `newmtl` block: the material's name and the texture its map line is
      made from (`MapLineFor`), or the default material. */
  datatype MtlEntry = Material(name: string, texture: string) | DefaultMaterial

  /** The first TEXT path containing `stem` (`FirstOrDefault`). */
  function FirstContaining(paths: seq<string>, stem: string): (r: Option<string>)
    ensures r.Some? ==> Contains(r.value, stem) &&
                        exists i :: 0 <= i < |paths| && paths[i] == r.value &&
                                    forall j :: 0 <= j < i ==> !Contains(paths[j], stem)
    ensures r.None? <==> forall i :: 0 <= i < |paths| ==> !Contains(paths[i], stem)
    decreases |paths|
  {
    if paths == [] then None
    else if Contains(paths[0], stem) then Some(paths[0])
    else
      var r := FirstContaining(paths[1..], stem);
      assert forall i :: 1 <= i < |paths| ==> paths[i] == paths[1..][i - 1];
      r
  }

  /** The texture line for a material: from the first TEXT chunk whose path
      contains the texture's stem, resolved through the cache; a resolved
      ".dds" (in any case) is noted as a PNG to convert. */
  function MapLineFor(textureName: string, texts: seq<string>, cache: Option<Cache>): MapLine {
    match FirstContaining(texts, FileStem(textureName))
    case None => NoTextChunk(textureName)
    case Some(path) =>
      match ResolveTexturePath(cache, path)
      case None => Unresolved(path)
      case Some(resolved) =>
        var file := FileName(resolved);
        if Lower(Extension(file)) == ".dds" then ConvertedDds(ChangeExtension(file, ".png"), resolved)
        else MapKd(file)
  }

  /** The sanitized material name a MATE chunk contributes, if any. */
  function MateMaterialName(c: Chunk): Option<string> {
    match MateMaterial(c)
    case TextureRef(t) => Some(SanitizeMaterialName(t))
    case DefaultRef => None
  }

  /** Position `k` holds a key that no earlier position holds. */
  predicate IsFirst(keys: seq<Option<string>>, k: nat) {
    k < |keys| && keys[k].Some? && forall k' :: 0 <= k' < k ==> keys[k'] != keys[k]
  }

  /** The `processed` loop of `ExportMTL` over the material names: the
      positions where a name is used for the first time, in order; positions
      without a name are skipped. */
  method FirstOccurrences(keys: seq<Option<string>>) returns (firsts: seq<nat>)
    ensures forall i, j :: 0 <= i < j < |firsts| ==> firsts[i] < firsts[j]
    ensures forall i :: 0 <= i < |firsts| ==> IsFirst(keys, firsts[i])
    ensures forall k: nat :: IsFirst(keys, k) ==> k in firsts
    ensures |firsts| <= |keys|
  {
    firsts := [];
    var processed: set<string> := {};
    for k := 0 to |keys|
      invariant forall i, j :: 0 <= i < j < |firsts| ==> firsts[i] < firsts[j]
      invariant |firsts| <= k
      invariant forall i :: 0 <= i < |firsts| ==> firsts[i] < k && IsFirst(keys, firsts[i])
      invariant forall k': nat :: k' < k && IsFirst(keys, k') ==> k' in firsts
      invariant forall n :: n in processed <==> exists k' :: 0 <= k' < k && keys[k'] == Some(n)
    {
      if keys[k].None? {
        continue;
      }
      var name := keys[k].value;
      if name in processed {
        continue;
      }
      firsts := firsts + [k];
      processed := processed + {name};
    }
  }

  /** The material name of each MATE chunk, in order. */
  function MateNames(mates: seq<Chunk>): (r: seq<Option<string>>)
    ensures |r| == |mates|
  {
    seq(|mates|, k requires 0 <= k < |mates| => MateMaterialName(mates[k]))
  }

  /** The material the k-th MATE chunk defines: its name and the texture its
      map line is made from. */
  function MaterialFor(mates: seq<Chunk>, k: nat): MtlEntry
    requires IsFirst(MateNames(mates), k)
  {
    Material(MateNames(mates)[k].value, MateMaterial(mates[k]).texture)
  }

  /** The materials of the first uses listed in `firsts`, in that order. */
  function Materials(mates: seq<Chunk>, firsts: seq<nat>): (r: seq<MtlEntry>)
    requires forall i :: 0 <= i < |firsts| ==> IsFirst(MateNames(mates), firsts[i])
    ensures |r| == |firsts|
    ensures forall i :: 0 <= i < |firsts| ==> r[i] == MaterialFor(mates, firsts[i])
  {
    seq(|firsts|, i requires 0 <= i < |firsts| => MaterialFor(mates, firsts[i]))
  }

  /** Listed in ascending order, the first uses give distinct names, cover
      every first use, and keep that order. */
  lemma MaterialsFollowFirsts(mates: seq<Chunk>, firsts: seq<nat>)
    requires forall i :: 0 <= i < |firsts| ==> IsFirst(MateNames(mates), firsts[i])
    requires forall i, j :: 0 <= i < j < |firsts| ==> firsts[i] < firsts[j]
    requires forall k: nat :: IsFirst(MateNames(mates), k) ==> k in firsts
    ensures var r := Materials(mates, firsts);
            forall i, j :: 0 <= i < j < |r| ==> r[i].name != r[j].name
    ensures forall k: nat :: IsFirst(MateNames(mates), k) ==> MaterialFor(mates, k) in Materials(mates, firsts)
    ensures var r := Materials(mates, firsts);
            forall i, j, ki: nat, kj: nat ::
              (0 <= i < j < |r| && IsFirst(MateNames(mates), ki) && IsFirst(MateNames(mates), kj) &&
               r[i] == MaterialFor(mates, ki) && r[j] == MaterialFor(mates, kj)) ==> ki < kj
  {
    var keys := MateNames(mates);
    var r := Materials(mates, firsts);
    forall i, j | 0 <= i < j < |r| ensures r[i].name != r[j].name {
      assert IsFirst(keys, firsts[j]) && firsts[i] < firsts[j];
    }
    forall k: nat | IsFirst(keys, k) ensures MaterialFor(mates, k) in r {
      var i :| 0 <= i < |firsts| && firsts[i] == k;
      assert r[i] == MaterialFor(mates, k);
    }
    forall i, j, ki: nat, kj: nat |
      0 <= i < j < |r| && IsFirst(keys, ki) && IsFirst(keys, kj) &&
      r[i] == MaterialFor(mates, ki) && r[j] == MaterialFor(mates, kj)
      ensures ki < kj
    {
      FirstIsUnique(keys, ki, firsts[i]);
      FirstIsUnique(keys, kj, firsts[j]);
    }
  }

  /** Two first uses of the same name are the same position. */
  lemma FirstIsUnique(keys: seq<Option<string>>, a: nat, b: nat)
    requires IsFirst(keys, a) && IsFirst(keys, b) && keys[a] == keys[b]
    ensures a == b
  {
  }

  /** `ExportMTL`: one material per MATE chunk that is the first to use its
      sanitized texture name, in order, so no name is defined twice; then
      the default material, only when there are no MATE chunks at all. */
  method ExportMtl(mates: seq<Chunk>) returns (entries: seq<MtlEntry>)
    ensures DefaultMaterial in entries <==> |mates| == 0
    ensures |mates| == 0 ==> entries == [DefaultMaterial]
    ensures forall i, j :: 0 <= i < j < |entries| && entries[i].Material? && entries[j].Material? ==>
              entries[i].name != entries[j].name
    ensures forall i :: 0 <= i < |entries| && entries[i].Material? ==>
              exists k: nat :: IsFirst(MateNames(mates), k) && entries[i] == MaterialFor(mates, k)
    ensures forall k: nat :: IsFirst(MateNames(mates), k) ==> MaterialFor(mates, k) in entries
    ensures forall i, j, ki: nat, kj: nat ::
              (0 <= i < j < |entries| && IsFirst(MateNames(mates), ki) && IsFirst(MateNames(mates), kj) &&
               entries[i] == MaterialFor(mates, ki) && entries[j] == MaterialFor(mates, kj)) ==> ki < kj
  {
    var keys := MateNames(mates);
    var firsts := FirstOccurrences(keys);
    entries := Materials(mates, firsts);
    MaterialsFollowFirsts(mates, firsts);
    if |mates| == 0 {
      entries := entries + [DefaultMaterial];
    }
  }

  /** Every MATE chunk with a non-empty texture has its material defined: the
      first chunk using the same name is the one that defines it. */
  lemma NamedMatesDefined(mates: seq<Chunk>, k: nat) returns (f: nat)
    requires k < |mates| && MateMaterialName(mates[k]).Some?
    ensures f <= k && IsFirst(MateNames(mates), f)
    ensures MaterialFor(mates, f).name == MateMaterialName(mates[k]).value
  {
    f := FirstOf(MateNames(mates), k);
  }

  /** The first position holding the key at `k`. */
  lemma {:induction false} FirstOf(keys: seq<Option<string>>, k: nat) returns (f: nat)
    requires k < |keys| && keys[k].Some?
    ensures f <= k && IsFirst(keys, f) && keys[f] == keys[k]
    decreases k
  {
    f := k;
    if exists k' :: 0 <= k' < k && keys[k'] == keys[k] {
      var k' :| 0 <= k' < k && keys[k'] == keys[k];
      f := FirstOf(keys, k');
    }
  }
}
