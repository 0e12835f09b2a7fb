/** `AnimationExporter.ExportToBVH`: the bone hierarchy walk and the motion
    rows, with the BVH text reduced to a sequence of lines whose formatting
    (indentation, keywords, number printing) is left out. */
module Animation {
  import opened Wrappers
  import opened Binary
  import opened Structures
  import opened Views

  /** What the exporter writes, line group by line group. */
  datatype Line =
    | Hierarchy                                        // "HIERARCHY"
    | Enter(name: string, isRoot: bool, depth: nat)    // "ROOT name" or "JOINT name", "{", OFFSET, CHANNELS
    | EndSite(depth: nat)                              // the four "End Site" lines of a leaf
    | Exit(depth: nat)                                 // the closing "}"
    | Motion(frames: u32)                              // "MOTION", "Frames: n", "Frame Time: 0.033333"
    | Row(samples: seq<Sample>)                        // one frame of channel values

  /** The six channels of one bone in one frame: its position and its
      rotation, which the exporter prints as Euler angles. */
  datatype Sample = Sample(position: Vec3, rotation: Quat)

  predicate IsHierarchyLine(l: Line) {
    l.Enter? || l.EndSite? || l.Exit?
  }

  /** Every line belongs to the hierarchy and sits at depth `d` or deeper. */
  predicate Nested(lines: seq<Line>, d: nat) {
    forall k :: 0 <= k < |lines| ==> IsHierarchyLine(lines[k]) && lines[k].depth >= d
  }

  /** The names on the `Enter` lines at depth exactly `d`, in order. */
  function Heads(lines: seq<Line>, d: nat): seq<string>
    decreases |lines|
  {
    if lines == [] then []
    else (if lines[0].Enter? && lines[0].depth == d then [lines[0].name] else []) + Heads(lines[1..], d)
  }

  lemma {:induction false} HeadsAppend(a: seq<Line>, b: seq<Line>, d: nat)
    ensures Heads(a + b, d) == Heads(a, d) + Heads(b, d)
    decreases |a|
  {
    if a == [] {
      assert a + b == b;
    } else {
      assert (a + b)[0] == a[0] && (a + b)[1..] == a[1..] + b;
      HeadsAppend(a[1..], b, d);
    }
  }

  /** Lines strictly deeper than `d` contribute no head at depth `d`. */
  lemma {:induction false} HeadsOfDeeper(lines: seq<Line>, d: nat)
    requires Nested(lines, d + 1)
    ensures Heads(lines, d) == []
    decreases |lines|
  {
    if lines != [] {
      HeadsOfDeeper(lines[1..], d);
    }
  }

  // ---------------------------------------------------------------------------
  // Roots and children
  // ---------------------------------------------------------------------------

  /** `allBones.FindAll(a => a.ParentId == target)` from index `from`, as
      indices in list order. */
  function WithParent(all: seq<BoneAnimation>, target: int, from: nat): (r: seq<nat>)
    ensures forall k :: 0 <= k < |r| ==> from <= r[k] < |all|
    ensures forall j :: j in r <==> from <= j < |all| && all[j].parentId == target
    ensures forall a, b :: 0 <= a < b < |r| ==> r[a] < r[b]
    decreases |all| - from
  {
    if from >= |all| then []
    else (if all[from].parentId == target then [from] else []) + WithParent(all, target, from + 1)
  }

  /** The roots: the animations whose parent is -1. */
  function Roots(all: seq<BoneAnimation>): seq<nat> {
    WithParent(all, -1, 0)
  }

  /** The children of bone `i`: the animations whose parent equals the
      bone's id cast to `int`. */
  function Children(all: seq<BoneAnimation>, i: nat): seq<nat>
    requires i < |all|
  {
    WithParent(all, ToInt32(all[i].boneId), 0)
  }

  predicate IsChild(all: seq<BoneAnimation>, j: nat, i: nat)
    requires i < |all| && j < |all|
  {
    all[j].parentId == ToInt32(all[i].boneId)
  }

  function Names(all: seq<BoneAnimation>, ids: seq<nat>): (r: seq<string>)
    requires forall k :: 0 <= k < |ids| ==> ids[k] < |all|
    ensures |r| == |ids| && forall k :: 0 <= k < |ids| ==> r[k] == all[ids[k]].name
  {
    seq(|ids|, k requires 0 <= k < |ids| => all[ids[k]].name)
  }

  // ---------------------------------------------------------------------------
  // The walk
  // ---------------------------------------------------------------------------

  /** The bones not on the current recursion path. */
  function Unvisited(all: seq<BoneAnimation>, path: seq<nat>): set<nat> {
    set j | 0 <= j < |all| && j !in path
  }

  lemma UnvisitedShrinks(all: seq<BoneAnimation>, path: seq<nat>, i: nat)
    requires i < |all| && i !in path
    ensures |Unvisited(all, path + [i])| < |Unvisited(all, path)|
  {
    assert Unvisited(all, path + [i]) == Unvisited(all, path) - {i};
  }

  /** The lines that close the block of bone `i`: the End Site of a bone
      without children, then the closing brace. */
  function Tail(all: seq<BoneAnimation>, i: nat, depth: nat): seq<Line>
    requires i < |all|
  {
    (if Children(all, i) == [] then [EndSite(depth)] else []) + [Exit(depth)]
  }

  /** `WriteBoneHierarchy(bone, allBones, depth)`; `path` holds the bones
      whose calls are still open. A child already on the path would make the
      source recurse without end (a stack overflow); the model reports it as
      `CyclicHierarchy`. */
  function Walk(all: seq<BoneAnimation>, i: nat, depth: nat, path: seq<nat>): (r: Result<seq<Line>, Error>)
    requires i < |all| && i !in path
    ensures r.Failure? ==> r.error == CyclicHierarchy
    decreases |Unvisited(all, path)|, 0, 0
  {
    UnvisitedShrinks(all, path, i);
    var inner :- WalkKids(all, Children(all, i), depth + 1, path + [i]);
    Success([Enter(all[i].name, all[i].parentId == -1, depth)] + inner + Tail(all, i, depth))
  }

  /** The walks of a list of siblings, one after the other. */
  function WalkKids(all: seq<BoneAnimation>, kids: seq<nat>, depth: nat, path: seq<nat>): (r: Result<seq<Line>, Error>)
    requires forall k :: 0 <= k < |kids| ==> kids[k] < |all|
    ensures r.Failure? ==> r.error == CyclicHierarchy
    decreases |Unvisited(all, path)|, 1, |kids|
  {
    if kids == [] then Success([])
    else if kids[0] in path then Failure(CyclicHierarchy)
    else
      var first :- Walk(all, kids[0], depth, path);
      var rest :- WalkKids(all, kids[1..], depth, path);
      Success(first + rest)
  }

  /** The block of bone `i` at `depth`: its Enter line, labelled ROOT exactly
      when its parent is -1; then lines strictly deeper whose depth-`depth + 1`
      entries are its children in list order; then its tail. */
  predicate BlockShape(all: seq<BoneAnimation>, i: nat, depth: nat, lines: seq<Line>)
    requires i < |all|
  {
    var tail := Tail(all, i, depth);
    && |lines| >= 1 + |tail|
    && lines[0] == Enter(all[i].name, all[i].parentId == -1, depth)
    && lines[|lines| - |tail|..] == tail
    && Nested(lines[1..|lines| - |tail|], depth + 1)
    && Heads(lines[1..|lines| - |tail|], depth + 1) == Names(all, Children(all, i))
  }

  lemma WalkShape(all: seq<BoneAnimation>, i: nat, depth: nat, path: seq<nat>)
    requires i < |all| && i !in path && Walk(all, i, depth, path).Success?
    ensures BlockShape(all, i, depth, Walk(all, i, depth, path).value)
    decreases |Unvisited(all, path)|, 0, 0
  {
    UnvisitedShrinks(all, path, i);
    var inner := WalkKids(all, Children(all, i), depth + 1, path + [i]).value;
    WalkKidsShape(all, Children(all, i), depth + 1, path + [i]);
    var lines := [Enter(all[i].name, all[i].parentId == -1, depth)] + inner + Tail(all, i, depth);
    assert lines[1..|lines| - |Tail(all, i, depth)|] == inner;
  }

  /** A successful walk of siblings is the walk of the first, then the rest. */
  lemma WalkKidsCons(all: seq<BoneAnimation>, kids: seq<nat>, depth: nat, path: seq<nat>)
    requires forall k :: 0 <= k < |kids| ==> kids[k] < |all|
    requires kids != [] && WalkKids(all, kids, depth, path).Success?
    ensures kids[0] !in path && Walk(all, kids[0], depth, path).Success?
    ensures WalkKids(all, kids[1..], depth, path).Success?
    ensures WalkKids(all, kids, depth, path).value ==
            Walk(all, kids[0], depth, path).value + WalkKids(all, kids[1..], depth, path).value
  {
  }

  lemma NestedAppend(a: seq<Line>, b: seq<Line>, d: nat)
    requires Nested(a, d) && Nested(b, d)
    ensures Nested(a + b, d)
  {
    assert forall k :: |a| <= k < |a + b| ==> (a + b)[k] == b[k - |a|];
  }

  lemma NamesCons(all: seq<BoneAnimation>, ids: seq<nat>)
    requires ids != [] && forall k :: 0 <= k < |ids| ==> ids[k] < |all|
    ensures Names(all, ids) == [all[ids[0]].name] + Names(all, ids[1..])
  {
  }

  /** The walks of siblings: nested at their depth, with the siblings
      themselves as the entries at that depth, in order. */
  lemma WalkKidsShape(all: seq<BoneAnimation>, kids: seq<nat>, depth: nat, path: seq<nat>)
    requires forall k :: 0 <= k < |kids| ==> kids[k] < |all|
    requires WalkKids(all, kids, depth, path).Success?
    ensures Nested(WalkKids(all, kids, depth, path).value, depth)
    ensures Heads(WalkKids(all, kids, depth, path).value, depth) == Names(all, kids)
    decreases |Unvisited(all, path)|, 1, |kids|
  {
    if kids != [] {
      WalkKidsCons(all, kids, depth, path);
      var first := Walk(all, kids[0], depth, path).value;
      var rest := WalkKids(all, kids[1..], depth, path).value;
      WalkShape(all, kids[0], depth, path);
      WalkKidsShape(all, kids[1..], depth, path);
      BlockHeads(all, kids[0], depth, first);
      HeadsAppend(first, rest, depth);
      NestedAppend(first, rest, depth);
      NamesCons(all, kids);
    }
  }

  /** The closing lines of a block, with or without its End Site, sit at
      its depth and open nothing. */
  lemma ClosingShape(leaf: bool, depth: nat)
    ensures var t := (if leaf then [EndSite(depth)] else []) + [Exit(depth)];
            Nested(t, depth) && Heads(t, depth) == []
  {
    var t := (if leaf then [EndSite(depth)] else []) + [Exit(depth)];
    if leaf {
      assert t == [EndSite(depth), Exit(depth)];
      assert t[1..] == [Exit(depth)];
      assert Heads(t[1..], depth) == Heads([Exit(depth)][1..], depth);
    } else {
      assert t == [Exit(depth)];
    }
  }

  /** An Enter line at depth `d`, deeper lines, then closing lines at `d`
      that open nothing: nested at `d`, with the Enter line as the only head. */
  lemma EnterBlockShape(x: Line, inner: seq<Line>, tail: seq<Line>, d: nat)
    requires x.Enter? && x.depth == d
    requires Nested(inner, d + 1) && Nested(tail, d) && Heads(tail, d) == []
    ensures Nested([x] + inner + tail, d)
    ensures Heads([x] + inner + tail, d) == [x.name]
  {
    HeadsOfDeeper(inner, d);
    HeadsAppend([x] + inner, tail, d);
    HeadsAppend([x], inner, d);
    assert Heads([x], d) == [x.name] by {
      assert [x][1..] == [];
    }
    assert Nested([x], d);
    NestedAppend([x], inner, d);
    NestedAppend([x] + inner, tail, d);
  }

  /** A block shows exactly its own bone at its own depth. */
  lemma BlockHeads(all: seq<BoneAnimation>, i: nat, depth: nat, lines: seq<Line>)
    requires i < |all| && BlockShape(all, i, depth, lines)
    ensures Nested(lines, depth)
    ensures Heads(lines, depth) == [all[i].name]
  {
    var tail := Tail(all, i, depth);
    var inner := lines[1..|lines| - |tail|];
    ClosingShape(Children(all, i) == [], depth);
    EnterBlockShape(lines[0], inner, tail, depth);
    assert lines == [lines[0]] + inner + tail;
  }

  /** A bone gets an End Site exactly when it has no children. */
  lemma EndSiteIffLeaf(all: seq<BoneAnimation>, i: nat, depth: nat, path: seq<nat>)
    requires i < |all| && i !in path && Walk(all, i, depth, path).Success?
    ensures EndSite(depth) in Walk(all, i, depth, path).value <==> Children(all, i) == []
  {
    WalkShape(all, i, depth, path);
    var r := Walk(all, i, depth, path).value;
    var tail := Tail(all, i, depth);
    var inner := r[1..|r| - |tail|];
    assert r == [r[0]] + inner + tail;
    assert forall k :: 0 <= k < |inner| ==> inner[k].depth > depth;
  }

  // ---------------------------------------------------------------------------
  // Motion rows
  // ---------------------------------------------------------------------------

  /** How many of `anims` have more than `f` keyframes. */
  function LongCount(anims: seq<BoneAnimation>, f: nat): nat
    decreases |anims|
  {
    if anims == [] then 0 else (if f < |anims[0].keyframes| then 1 else 0) + LongCount(anims[1..], f)
  }

  /** What frame `f` of one animation prints: its position and rotation. */
  function SampleOf(a: BoneAnimation, f: nat): Sample
    requires f < |a.keyframes|
  {
    Sample(a.keyframes[f].position, a.keyframes[f].rotation)
  }

  /** The samples of frame `f`: one for each animation that has more than
      `f` keyframes, in list order; the others print nothing. */
  function FrameSamples(anims: seq<BoneAnimation>, f: nat): (r: seq<Sample>)
    ensures |r| == LongCount(anims, f) <= |anims|
    ensures (forall a :: 0 <= a < |anims| ==> f < |anims[a].keyframes|) ==>
              |r| == |anims| && forall a :: 0 <= a < |anims| ==> r[a] == SampleOf(anims[a], f)
    ensures (forall a :: 0 <= a < |anims| ==> f >= |anims[a].keyframes|) ==> r == []
    decreases |anims|
  {
    if anims == [] then []
    else
      var head := anims[0];
      var rest := FrameSamples(anims[1..], f);
      assert forall a :: 1 <= a < |anims| ==> anims[a] == anims[1..][a - 1];
      if f < |head.keyframes| then [SampleOf(head, f)] + rest
      else rest
  }

  /** A row is the head's sample, when the head is long enough, then the
      row of the rest. */
  lemma FrameSamplesCons(anims: seq<BoneAnimation>, f: nat)
    requires anims != []
    ensures FrameSamples(anims, f) ==
            (if f < |anims[0].keyframes| then [SampleOf(anims[0], f)] else []) + FrameSamples(anims[1..], f)
  {
  }

  /** The long animations among the first a + 1 are the head, when long,
      and the long ones among the first a of the rest. */
  lemma LongCountCons(anims: seq<BoneAnimation>, f: nat, a: nat)
    requires a < |anims|
    ensures LongCount(anims[..a + 1], f) == (if f < |anims[0].keyframes| then 1 else 0) + LongCount(anims[1..][..a], f)
  {
    assert anims[..a + 1][1..] == anims[1..][..a];
  }

  /** Every animation with more than `f` keyframes contributes its sample,
      right after the samples of the long animations before it; with the
      count in `FrameSamples` this fixes the whole row. */
  lemma {:induction false} FrameSamplesInOrder(anims: seq<BoneAnimation>, f: nat)
    ensures forall a :: 0 <= a < |anims| && f < |anims[a].keyframes| ==>
              LongCount(anims[..a], f) < |FrameSamples(anims, f)| &&
              FrameSamples(anims, f)[LongCount(anims[..a], f)] == SampleOf(anims[a], f)
    decreases |anims|
  {
    if anims != [] {
      var tail := anims[1..];
      FrameSamplesCons(anims, f);
      FrameSamplesInOrder(tail, f);
      forall a | 0 <= a < |anims| && f < |anims[a].keyframes|
        ensures LongCount(anims[..a], f) < |FrameSamples(anims, f)| &&
                FrameSamples(anims, f)[LongCount(anims[..a], f)] == SampleOf(anims[a], f)
      {
        if a == 0 {
          assert anims[..0] == [];
        } else {
          LongCountCons(anims, f, a - 1);
          assert tail[a - 1] == anims[a];
        }
      }
    }
  }

  /** Conversely, each sample of frame `f` is the sample of an animation
      with more than `f` keyframes, at that animation's place among the long
      ones: a row holds nothing else. */
  lemma {:induction false} FrameSamplesFromLong(anims: seq<BoneAnimation>, f: nat, k: nat)
    requires k < |FrameSamples(anims, f)|
    ensures exists a :: 0 <= a < |anims| && f < |anims[a].keyframes| &&
              LongCount(anims[..a], f) == k && FrameSamples(anims, f)[k] == SampleOf(anims[a], f)
    decreases |anims|
  {
    var tail := anims[1..];
    var d := if f < |anims[0].keyframes| then 1 else 0;
    FrameSamplesCons(anims, f);
    if d == 1 && k == 0 {
      assert anims[..0] == [];
      assert LongCount(anims[..0], f) == 0;
    } else {
      FrameSamplesFromLong(tail, f, k - d);
      var a' :| 0 <= a' < |tail| && f < |tail[a'].keyframes| &&
                LongCount(tail[..a'], f) == k - d && FrameSamples(tail, f)[k - d] == SampleOf(tail[a'], f);
      LongCountCons(anims, f, a');
      assert anims[a' + 1] == tail[a'];
    }
  }

  function MotionRows(anims: seq<BoneAnimation>, frames: nat): (r: seq<Line>)
    ensures |r| == frames
    ensures forall f :: 0 <= f < frames ==> r[f] == Row(FrameSamples(anims, f))
  {
    seq(frames, f requires 0 <= f < frames => Row(FrameSamples(anims, f)))
  }

  // ---------------------------------------------------------------------------
  // The export
  // ---------------------------------------------------------------------------

  /** One BONE chunk: the walk of every root at depth 0, then the motion
      section. */
  function ExportBone(b: Body): (r: Result<seq<Line>, Error>)
    requires b.Bone?
    ensures r.Failure? ==> r.error == CyclicHierarchy
    ensures r.Success? ==>
              && |r.value| >= 1 + b.keyframeCount
              && r.value[|r.value| - b.keyframeCount - 1] == Motion(b.keyframeCount)
              && r.value[|r.value| - b.keyframeCount..] == MotionRows(b.animations, b.keyframeCount)
  {
    var tree :- WalkKids(b.animations, Roots(b.animations), 0, []);
    Success(tree + [Motion(b.keyframeCount)] + MotionRows(b.animations, b.keyframeCount))
  }

  /** In front of the motion section stand the blocks of the roots, in list
      order, at depth 0. */
  lemma ExportBoneShape(b: Body)
    requires b.Bone? && ExportBone(b).Success?
    ensures var r := ExportBone(b).value;
            var n := |r| - b.keyframeCount - 1;
            Nested(r[..n], 0) && Heads(r[..n], 0) == Names(b.animations, Roots(b.animations))
  {
    var tree := WalkKids(b.animations, Roots(b.animations), 0, []).value;
    WalkKidsShape(b.animations, Roots(b.animations), 0, []);
    var r := ExportBone(b).value;
    assert r[..|tree|] == tree;
  }

  /** Every chunk is a BONE chunk whose own export succeeds. */
  predicate AllExport(bones: seq<Chunk>) {
    forall k :: 0 <= k < |bones| ==> bones[k].body.Bone? && ExportBone(bones[k].body).Success?
  }

  /** The section each BONE chunk exports on its own, in file order. */
  function Sections(bones: seq<Chunk>): (r: seq<seq<Line>>)
    requires AllExport(bones)
    ensures |r| == |bones|
    ensures forall k :: 0 <= k < |bones| ==> r[k] == ExportBone(bones[k].body).value
  {
    seq(|bones|, k requires 0 <= k < |bones| => ExportBone(bones[k].body).value)
  }

  function Flatten(ss: seq<seq<Line>>): seq<Line>
    decreases |ss|
  {
    if ss == [] then [] else ss[0] + Flatten(ss[1..])
  }

  lemma {:induction false} FlattenAppend(a: seq<seq<Line>>, b: seq<seq<Line>>)
    ensures Flatten(a + b) == Flatten(a) + Flatten(b)
    decreases |a|
  {
    if a == [] {
      assert a + b == b;
    } else {
      assert (a + b)[0] == a[0] && (a + b)[1..] == a[1..] + b;
      FlattenAppend(a[1..], b);
    }
  }

  /** Section k of a flattened list starts after the sections before it. */
  lemma FlattenAt(ss: seq<seq<Line>>, k: nat)
    requires k < |ss|
    ensures var at := |Flatten(ss[..k])|;
            at + |ss[k]| <= |Flatten(ss)| && Flatten(ss)[at..at + |ss[k]|] == ss[k]
  {
    assert ss == ss[..k] + ([ss[k]] + ss[k + 1..]);
    FlattenAppend(ss[..k], [ss[k]] + ss[k + 1..]);
    FlattenAppend([ss[k]], ss[k + 1..]);
    assert Flatten([ss[k]]) == ss[k] + Flatten([]);
  }

  /** The `foreach (var boneChunk in bmod.BoneChunks)` loop: each chunk's
      section in turn; a cycle in any chunk's walk ends the export. */
  function ExportBones(bones: seq<Chunk>): (r: Result<seq<Line>, Error>)
    requires forall k :: 0 <= k < |bones| ==> bones[k].body.Bone?
    ensures r.Failure? ==> r.error == CyclicHierarchy
    ensures r.Success? <==> AllExport(bones)
    ensures r.Success? ==> r.value == Flatten(Sections(bones))
    decreases |bones|
  {
    if bones == [] then Success([])
    else
      var first :- ExportBone(bones[0].body);
      var rest :- ExportBones(bones[1..]);
      assert Sections(bones) == [first] + Sections(bones[1..]);
      Success(first + rest)
  }

  /** Chunk k's section stands in the export right after the sections of
      the chunks before it. */
  lemma ExportBonesSectionAt(bones: seq<Chunk>, k: nat)
    requires forall j :: 0 <= j < |bones| ==> bones[j].body.Bone?
    requires ExportBones(bones).Success? && k < |bones|
    ensures var at := |ExportBones(bones[..k]).value|;
            var sec := ExportBone(bones[k].body).value;
            ExportBones(bones[..k]).Success? &&
            at + |sec| <= |ExportBones(bones).value| &&
            ExportBones(bones).value[at..at + |sec|] == sec
  {
    var ss := Sections(bones);
    assert AllExport(bones[..k]);
    assert Sections(bones[..k]) == ss[..k];
    FlattenAt(ss, k);
  }

  /** `ExportToBVH`: no BONE chunk is an error; otherwise "HIERARCHY" and
      the export of every BONE chunk in file order. */
  function ExportBvh(chunks: seq<Chunk>): (r: Result<seq<Line>, Error>)
    ensures GetChunks(chunks, OfKind(BoneKind)) == [] <==> r == Failure(NoAnimationData)
    ensures r.Failure? ==> r.error == NoAnimationData || r.error == CyclicHierarchy
    ensures var bones := GetChunks(chunks, OfKind(BoneKind));
            r.Success? <==> bones != [] && AllExport(bones)
    ensures var bones := GetChunks(chunks, OfKind(BoneKind));
            r.Success? ==> AllExport(bones) && r.value == [Hierarchy] + Flatten(Sections(bones))
  {
    var bones := GetChunks(chunks, OfKind(BoneKind));
    if bones == [] then Failure(NoAnimationData)
    else
      assert forall k :: 0 <= k < |bones| ==> bones[k] in bones && Matches(bones[k], OfKind(BoneKind));
      var body :- ExportBones(bones);
      Success([Hierarchy] + body)
  }

  // ---------------------------------------------------------------------------
  // When the walk terminates
  // ---------------------------------------------------------------------------

  predicate DistinctIds(all: seq<BoneAnimation>) {
    forall a, b :: 0 <= a < b < |all| ==> all[a].boneId != all[b].boneId
  }

  /** No bone id casts to -1. */
  predicate NoAllOnesId(all: seq<BoneAnimation>) {
    forall a :: 0 <= a < |all| ==> all[a].boneId != 0xFFFF_FFFF
  }

  predicate DistinctPath(path: seq<nat>) {
    forall a, b :: 0 <= a < b < |path| ==> path[a] != path[b]
  }

  /** The recursion path runs from a root down through children. */
  predicate Chain(all: seq<BoneAnimation>, path: seq<nat>) {
    && (forall t :: 0 <= t < |path| ==> path[t] < |all|)
    && (|path| > 0 ==> all[path[0]].parentId == -1)
    && (forall t :: 0 <= t < |path| - 1 ==> IsChild(all, path[t + 1], path[t]))
  }

  /** Under distinct ids none of which casts to -1, a child of the last bone
      on the path is not on the path. */
  lemma ChildNotOnPath(all: seq<BoneAnimation>, path: seq<nat>, j: nat)
    requires DistinctIds(all) && NoAllOnesId(all)
    requires Chain(all, path) && DistinctPath(path) && |path| > 0
    requires j < |all| && IsChild(all, j, path[|path| - 1])
    ensures j !in path
  {
    var last := path[|path| - 1];
    forall m | 0 <= m < |path| ensures path[m] != j {
      if m == 0 {
        assert all[path[0]].parentId == -1 != all[j].parentId;
      } else {
        assert path[m - 1] != last;
        assert all[path[m]].parentId != all[j].parentId;
      }
    }
  }

  lemma WalkSucceeds(all: seq<BoneAnimation>, i: nat, depth: nat, path: seq<nat>)
    requires DistinctIds(all) && NoAllOnesId(all)
    requires i < |all| && i !in path && DistinctPath(path) && Chain(all, path + [i])
    ensures Walk(all, i, depth, path).Success?
    decreases |Unvisited(all, path)|, 0, 0
  {
    var kids := Children(all, i);
    UnvisitedShrinks(all, path, i);
    WalkKidsSucceeds(all, kids, depth + 1, path + [i]);
  }

  lemma WalkKidsSucceeds(all: seq<BoneAnimation>, kids: seq<nat>, depth: nat, path: seq<nat>)
    requires DistinctIds(all) && NoAllOnesId(all)
    requires DistinctPath(path) && Chain(all, path)
    requires forall k :: 0 <= k < |kids| ==> kids[k] < |all|
    requires forall k :: 0 <= k < |kids| ==>
               if path == [] then all[kids[k]].parentId == -1 else IsChild(all, kids[k], path[|path| - 1])
    ensures WalkKids(all, kids, depth, path).Success?
    decreases |Unvisited(all, path)|, 1, |kids|
  {
    if kids != [] {
      var j := kids[0];
      if path != [] {
        ChildNotOnPath(all, path, j);
      }
      assert Chain(all, path + [j]);
      assert DistinctPath(path + [j]);
      WalkSucceeds(all, j, depth, path);
      assert forall k :: 0 <= k < |kids| - 1 ==> kids[1..][k] == kids[k + 1];
      WalkKidsSucceeds(all, kids[1..], depth, path);
    }
  }

  /** Distinct bone ids, none of them 0xFFFFFFFF, make the export of a
      BONE chunk succeed. */
  lemma ExportBoneTerminates(b: Body)
    requires b.Bone? && DistinctIds(b.animations) && NoAllOnesId(b.animations)
    ensures ExportBone(b).Success?
  {
    WalkKidsSucceeds(b.animations, Roots(b.animations), 0, []);
  }

  /** Under the same conditions no bone is the child of two bones, and no
      root is anyone's child: the walk visits each bone at most once. */
  lemma ChildListsDisjoint(all: seq<BoneAnimation>, i: nat, i2: nat, j: nat)
    requires DistinctIds(all) && NoAllOnesId(all)
    requires i < |all| && i2 < |all| && i != i2 && j in Children(all, i)
    ensures j !in Children(all, i2)
    ensures j !in Roots(all)
  {
    if j in Children(all, i2) {
      ToInt32Injective(all[i].boneId, all[i2].boneId);
      assert false;
    }
  }

  /** A bone with id 0xFFFFFFFF adopts every root: its id casts to -1. */
  lemma AllOnesAdoptsRoots(all: seq<BoneAnimation>, i: nat)
    requires i < |all| && all[i].boneId == 0xFFFF_FFFF
    ensures Children(all, i) == Roots(all)
  {
  }

  /** The walk of siblings fails as soon as one of them is on the path. */
  lemma {:induction false} WalkKidsFailsOnPath(all: seq<BoneAnimation>, kids: seq<nat>, depth: nat, path: seq<nat>, k: nat)
    requires forall x :: 0 <= x < |kids| ==> kids[x] < |all|
    requires k < |kids| && kids[k] in path
    ensures WalkKids(all, kids, depth, path).Failure?
    decreases k
  {
    if k > 0 && kids[0] !in path {
      WalkKidsFailsOnPath(all, kids[1..], depth, path, k - 1);
    }
  }

  /** A root whose own id is 0xFFFFFFFF is its own child, so its walk
      never ends. */
  lemma AllOnesRootCycles(all: seq<BoneAnimation>, r: nat, depth: nat)
    requires r < |all| && all[r].parentId == -1 && all[r].boneId == 0xFFFF_FFFF
    ensures Walk(all, r, depth, []).Failure?
  {
    var kids := Children(all, r);
    assert r in kids;
    var k :| 0 <= k < |kids| && kids[k] == r;
    assert [] + [r] == [r];
    WalkKidsFailsOnPath(all, kids, depth + 1, [r], k);
  }

  /** Every row of a decoded BONE chunk carries a sample for every bone: the
      decoder gives each animation exactly `KeyframeCount` keyframes. */
  lemma DecodedRowsAreFull(b: Body, f: nat)
    requires b.Bone? && f < b.keyframeCount
    requires forall a :: 0 <= a < |b.animations| ==> |b.animations[a].keyframes| == b.keyframeCount
    ensures |MotionRows(b.animations, b.keyframeCount)[f].samples| == |b.animations|
  {
  }
}
