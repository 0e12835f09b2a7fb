/** The typed views of a parsed file, `BmodFile.GetChunks<T>` and
    `GetChunk<T>`, with the chunk class `T` given as a filter. */
module Views {
  import opened Wrappers
  import opened Structures

  /** The type argument of a view: one chunk class, or the base class that
      every chunk belongs to. `OfKind(BaseKind)` is not a class of the
      source: it selects only the plain chunks unknown tags decode to. */
  datatype Filter = AnyChunk | OfKind(kind: Kind)

  /** `chunk is T`. */
  predicate Matches(c: Chunk, f: Filter) {
    f.AnyChunk? || HasKind(c.body, f.kind)
  }

  /** The mesh an OBST chunk stored, when it is of the filtered class. */
  function StoredMesh(c: Chunk, f: Filter): seq<Chunk> {
    if c.body.Obst? && c.body.mesh.Some? && Matches(c.body.mesh.value, f) then [c.body.mesh.value] else []
  }

  /** The top-level chunks of the filtered class, in file order. */
  function TopLevel(cs: seq<Chunk>, f: Filter): (r: seq<Chunk>)
    ensures forall x :: x in r ==> x in cs && Matches(x, f)
    ensures forall i :: 0 <= i < |cs| && Matches(cs[i], f) ==> cs[i] in r
    decreases |cs|
  {
    if cs == [] then []
    else (if Matches(cs[0], f) then [cs[0]] else []) + TopLevel(cs[1..], f)
  }

  /** `GetChunks<T>`: each top-level chunk of class `T` and, right after an
      OBST, the mesh it stored when that mesh is of class `T`, in file order. */
  function GetChunks(cs: seq<Chunk>, f: Filter): (r: seq<Chunk>)
    ensures forall x :: x in r ==> Matches(x, f)
    ensures forall x :: x in r ==> exists i :: 0 <= i < |cs| && (x == cs[i] || x in StoredMesh(cs[i], f))
    ensures forall i :: 0 <= i < |cs| && Matches(cs[i], f) ==> cs[i] in r
    ensures forall i :: 0 <= i < |cs| ==> forall x :: x in StoredMesh(cs[i], f) ==> x in r
    decreases |cs|
  {
    if cs == [] then []
    else
      var r := (if Matches(cs[0], f) then [cs[0]] else []) + StoredMesh(cs[0], f) + GetChunks(cs[1..], f);
      assert forall i :: 1 <= i < |cs| ==> cs[i] == cs[1..][i - 1];
      r
  }

  /** The view distributes over concatenation, so it keeps file order. */
  lemma {:induction false} GetChunksAppend(a: seq<Chunk>, b: seq<Chunk>, f: Filter)
    ensures GetChunks(a + b, f) == GetChunks(a, f) + GetChunks(b, f)
    decreases |a|
  {
    if a != [] {
      var head := (if Matches(a[0], f) then [a[0]] else []) + StoredMesh(a[0], f);
      assert (a + b)[0] == a[0] && (a + b)[1..] == a[1..] + b;
      assert GetChunks(a + b, f) == head + GetChunks(a[1..] + b, f);
      GetChunksAppend(a[1..], b, f);
      assert GetChunks(a, f) == head + GetChunks(a[1..], f);
    } else {
      assert a + b == b;
    }
  }

  /** For a class other than the mesh class (and other than the base class),
      OBST meshes never show up: the view is the plain top-level filter. */
  lemma {:induction false} GetChunksOfOtherKind(cs: seq<Chunk>, k: Kind)
    requires k != MeshKind && ObstsWellKinded(cs)
    ensures GetChunks(cs, OfKind(k)) == TopLevel(cs, OfKind(k))
    decreases |cs|
  {
    if cs != [] {
      assert StoredMesh(cs[0], OfKind(k)) == [];
      assert forall i :: 1 <= i < |cs| ==> cs[i] == cs[1..][i - 1];
      GetChunksOfOtherKind(cs[1..], k);
    }
  }

  /** `GetChunk<T>`: the first top-level chunk of class `T`; OBST meshes are
      not consulted. */
  function GetChunk(cs: seq<Chunk>, f: Filter): (r: Option<Chunk>)
    ensures r.None? <==> forall i :: 0 <= i < |cs| ==> !Matches(cs[i], f)
    ensures r.Some? ==> exists i :: 0 <= i < |cs| && cs[i] == r.value && Matches(cs[i], f) &&
                                    forall j :: 0 <= j < i ==> !Matches(cs[j], f)
    decreases |cs|
  {
    if cs == [] then None
    else if Matches(cs[0], f) then Some(cs[0])
    else
      var r := GetChunk(cs[1..], f);
      assert forall i :: 1 <= i < |cs| ==> cs[i] == cs[1..][i - 1];
      r
  }

  /** `GetChunk` is the head of the top-level filter. */
  lemma {:induction false} GetChunkIsFirst(cs: seq<Chunk>, f: Filter)
    ensures GetChunk(cs, f) == (if TopLevel(cs, f) == [] then None else Some(TopLevel(cs, f)[0]))
    decreases |cs|
  {
    if cs != [] && !Matches(cs[0], f) {
      GetChunkIsFirst(cs[1..], f);
    }
  }

  /** For the mesh class the two views can disagree: an OBST's stored mesh
      heads `GetChunks` while `GetChunk` returns a later top-level MESH. */
  lemma MeshViewsDisagree(inner: Chunk, outer: Chunk)
    requires inner.body.Mesh? && outer.body.Mesh? && inner != outer
    ensures var obst := Chunk("OBST", 0, 0, Obst(0, "", [], Some(inner), None, None));
            GetChunks([obst, outer], OfKind(MeshKind))[0] == inner &&
            GetChunk([obst, outer], OfKind(MeshKind)) == Some(outer)
  {
    var obst := Chunk("OBST", 0, 0, Obst(0, "", [], Some(inner), None, None));
    assert [obst, outer][1..] == [outer];
    assert GetChunks([outer], OfKind(MeshKind)) == [outer];
  }
}
