/** Decoders of the chunk kinds whose payload is a flat record list: bounding
    boxes, skeleton and bone-animation tables, texture paths, materials,
    effect blobs, asset strings, dummies and the timestamp. Apart from MATE,
    none of them catches anything: a read past the end of the buffer or a
    length from 2^31 up (negative once cast to `int`) fails the whole chunk.
    Every decoder takes the position `at` of the chunk header; the payload
    starts 8 bytes later. */
module Flat {
  import opened Wrappers
  import opened Binary
  import opened Cursor
  import opened Structures
  import opened Layout
  import opened Records

  /** `ReadMboxChunk`: Min then Max. */
  function DecodeMbox(data: seq<byte>, at: nat): (r: Result<Body, Error>)
    ensures r.Success? <==> at + CHUNK_HEADER_SIZE + 24 <= |data|
    ensures r.Success? ==> var p := at + CHUNK_HEADER_SIZE;
            r.value == Mbox(Vec3At(data, p), Vec3At(data, p + 12))
  {
    var lo :- ReadVec3(data, at + CHUNK_HEADER_SIZE);
    var hi :- ReadVec3(data, lo.next);
    Success(Mbox(lo.value, hi.value))
  }

  /** `ReadOboxChunk`: Center then Normal. */
  function DecodeObox(data: seq<byte>, at: nat): (r: Result<Body, Error>)
    ensures r.Success? <==> at + CHUNK_HEADER_SIZE + 24 <= |data|
    ensures r.Success? ==> var p := at + CHUNK_HEADER_SIZE;
            r.value == Obox(Vec3At(data, p), Vec3At(data, p + 12))
  {
    var c :- ReadVec3(data, at + CHUNK_HEADER_SIZE);
    var n :- ReadVec3(data, c.next);
    Success(Obox(c.value, n.value))
  }

  /** A length-prefixed name as the unguarded readers take it: the `uint`
      length is cast to `int`, so a length from 2^31 up raises. */
  function ReadName(data: seq<byte>, pos: nat): (r: Result<Got<string>, Error>)
    ensures r.Success? <==> pos + 4 <= |data| && U32At(data, pos) < 0x8000_0000
    ensures r.Success? ==> r.value == ReadText(data, pos + 4, U32At(data, pos))
  {
    var len :- ReadU32(data, pos);
    ReadString(data, len.next, ToInt32(len.value))
  }

  /** One skeleton bone: id, signed parent id, then an unguarded name. */
  function ReadObskBone(data: seq<byte>, pos: nat): (r: Result<Got<ObskBone>, Error>)
    ensures r.Success? <==> pos + 12 <= |data| && U32At(data, pos + 8) < 0x8000_0000
    ensures r.Success? ==> var b := r.value.value;
            && b.boneId == U32At(data, pos)
            && WrapU32(b.parentId) == U32At(data, pos + 4)
            && b.name == ReadText(data, pos + 12, U32At(data, pos + 8)).value
            && r.value.next == NameEnd(data, pos + 8) > pos
  {
    var id :- ReadU32(data, pos);
    var parent :- ReadI32(data, id.next);
    var name :- ReadName(data, parent.next);
    Success(Got(ObskBone(id.value, parent.value, name.value), name.next))
  }

  /** `bones` are skeleton bone records laid out back to back from `pos`. */
  predicate ObskLaid(data: seq<byte>, pos: nat, bones: seq<ObskBone>)
    decreases |bones|
  {
    if bones == [] then true
    else
      var b := ReadObskBone(data, pos);
      b.Success? && b.value.value == bones[0] && ObskLaid(data, b.value.next, bones[1..])
  }

  function {:induction false} ReadObskBones(data: seq<byte>, pos: nat, n: nat): (r: Result<Got<seq<ObskBone>>, Error>)
    ensures r.Success? ==> |r.value.value| == n && ObskLaid(data, pos, r.value.value)
    decreases n
  {
    if n == 0 then Success(Got([], pos))
    else
      var b :- ReadObskBone(data, pos);
      var rest :- ReadObskBones(data, b.next, n - 1);
      assert ([b.value] + rest.value)[1..] == rest.value;
      Success(Got([b.value] + rest.value, rest.next))
  }

  /** The bone loop returns `bones` exactly when `n` bone records are laid
      out back to back from `pos`. */
  lemma {:induction false} ReadObskBonesIffLaid(data: seq<byte>, pos: nat, n: nat, bones: seq<ObskBone>)
    ensures (ReadObskBones(data, pos, n).Success? && ReadObskBones(data, pos, n).value.value == bones) <==>
            |bones| == n && ObskLaid(data, pos, bones)
    decreases n
  {
    if n > 0 {
      var b := ReadObskBone(data, pos);
      if b.Success? {
        ReadObskBonesIffLaid(data, b.value.next, n - 1, if bones == [] then [] else bones[1..]);
        if bones != [] {
          assert bones == [bones[0]] + bones[1..];
        }
      }
    }
  }

  /** `ReadObskChunk`: a bone count, then that many (id, parent, name) records. */
  function DecodeObsk(data: seq<byte>, at: nat): (r: Result<Body, Error>)
    ensures r.Success? ==> r.value.Obsk? && at + CHUNK_HEADER_SIZE + 4 <= |data|
    ensures r.Success? ==> r.value.boneCount == U32At(data, at + CHUNK_HEADER_SIZE) && |r.value.bones| == r.value.boneCount
    ensures r.Success? ==> ObskLaid(data, at + CHUNK_HEADER_SIZE + 4, r.value.bones)
  {
    var count :- ReadU32(data, at + CHUNK_HEADER_SIZE);
    var bones :- ReadObskBones(data, count.next, count.value);
    Success(Obsk(count.value, bones.value))
  }

  /** An OBSK payload decodes to `bones` exactly when it starts with the
      count and holds that many bone records back to back after it. */
  lemma DecodeObskExactly(data: seq<byte>, at: nat, bones: seq<ObskBone>)
    ensures var p := at + CHUNK_HEADER_SIZE;
            (DecodeObsk(data, at).Success? && DecodeObsk(data, at).value.bones == bones) <==>
            p + 4 <= |data| && |bones| == U32At(data, p) && ObskLaid(data, p + 4, bones)
  {
    var p := at + CHUNK_HEADER_SIZE;
    if p + 4 <= |data| {
      ReadObskBonesIffLaid(data, p + 4, U32At(data, p), bones);
    }
  }

  /** What a bone animation record needs: its three header words, a name
      length below 2^31 (the `(int)` cast of anything larger is negative and
      `ReadBytes` throws), and `k` whole keyframes after the name. */
  predicate BoneAnimationFits(data: seq<byte>, pos: nat, k: nat) {
    && pos + 12 <= |data|
    && U32At(data, pos + 8) < 0x8000_0000
    && (k == 0 || NameEnd(data, pos + 8) + BONE_KEYFRAME_SIZE * k <= |data|)
  }

  /** One bone animation: id, signed parent id, name, then exactly `k`
      keyframes of 44 bytes right after the name. */
  function ReadBoneAnimation(data: seq<byte>, pos: nat, k: nat): (r: Result<Got<BoneAnimation>, Error>)
    ensures r.Success? <==> BoneAnimationFits(data, pos, k)
    ensures r.Success? ==> var a := r.value.value; var q := NameEnd(data, pos + 8);
            && a.boneId == U32At(data, pos)
            && WrapU32(a.parentId) == U32At(data, pos + 4)
            && a.name == ReadText(data, pos + 12, U32At(data, pos + 8)).value
            && |a.keyframes| == k
            && r.value.next == q + BONE_KEYFRAME_SIZE * k
            && (forall j :: 0 <= j < k ==>
                  q + BONE_KEYFRAME_SIZE * (j + 1) <= |data| && a.keyframes[j] == BoneKeyframeAt(data, q + BONE_KEYFRAME_SIZE * j))
  {
    var id :- ReadU32(data, pos);
    var parent :- ReadI32(data, id.next);
    var name :- ReadName(data, parent.next);
    assert name.next == NameEnd(data, pos + 8);
    var keys :- ReadBoneKeyframes(data, name.next, k);
    Success(Got(BoneAnimation(id.value, parent.value, name.value, keys.value), keys.next))
  }

  /** `anims` are bone animations of `k` keyframes each, laid out back to
      back from `pos`. */
  predicate BonesLaid(data: seq<byte>, pos: nat, k: nat, anims: seq<BoneAnimation>)
    decreases |anims|
  {
    if anims == [] then true
    else
      var a := ReadBoneAnimation(data, pos, k);
      a.Success? && a.value.value == anims[0] && BonesLaid(data, a.value.next, k, anims[1..])
  }

  function {:induction false} ReadBoneAnimations(data: seq<byte>, pos: nat, n: nat, k: nat): (r: Result<Got<seq<BoneAnimation>>, Error>)
    ensures r.Success? ==> |r.value.value| == n && BonesLaid(data, pos, k, r.value.value)
    ensures r.Success? ==> forall i :: 0 <= i < n ==> |r.value.value[i].keyframes| == k
    decreases n
  {
    if n == 0 then Success(Got([], pos))
    else
      var a :- ReadBoneAnimation(data, pos, k);
      var rest :- ReadBoneAnimations(data, a.next, n - 1, k);
      assert ([a.value] + rest.value)[1..] == rest.value;
      Success(Got([a.value] + rest.value, rest.next))
  }

  /** The animation loop returns `anims` exactly when `n` animations are
      laid out back to back from `pos`: it fails only when no such layout
      exists. */
  lemma {:induction false} ReadBoneAnimationsIffLaid(data: seq<byte>, pos: nat, n: nat, k: nat, anims: seq<BoneAnimation>)
    ensures (ReadBoneAnimations(data, pos, n, k).Success? && ReadBoneAnimations(data, pos, n, k).value.value == anims) <==>
            |anims| == n && BonesLaid(data, pos, k, anims)
    decreases n
  {
    if n > 0 {
      var a := ReadBoneAnimation(data, pos, k);
      if a.Success? {
        ReadBoneAnimationsIffLaid(data, a.value.next, n - 1, k, if anims == [] then [] else anims[1..]);
        if anims != [] {
          assert anims == [anims[0]] + anims[1..];
        }
      }
    }
  }

  /** `ReadBoneChunk`: bone count and one keyframe count shared by all bones,
      then exactly `BoneCount` animations of exactly `KeyframeCount`
      keyframes each, in file order. */
  function DecodeBone(data: seq<byte>, at: nat): (r: Result<Body, Error>)
    ensures r.Success? ==> r.value.Bone? && at + CHUNK_HEADER_SIZE + 8 <= |data|
    ensures r.Success? ==> var p := at + CHUNK_HEADER_SIZE;
            && r.value.boneCount == U32At(data, p)
            && r.value.keyframeCount == U32At(data, p + 4)
            && |r.value.animations| == r.value.boneCount
            && BonesLaid(data, p + 8, r.value.keyframeCount, r.value.animations)
            && (forall i :: 0 <= i < |r.value.animations| ==> |r.value.animations[i].keyframes| == r.value.keyframeCount)
  {
    var bones :- ReadU32(data, at + CHUNK_HEADER_SIZE);
    var keys :- ReadU32(data, bones.next);
    var anims :- ReadBoneAnimations(data, keys.next, bones.value, keys.value);
    Success(Bone(bones.value, keys.value, anims.value))
  }

  /** A BONE payload decodes to `anims` exactly when it starts with the two
      counts and holds `BoneCount` animations laid back to back after them;
      when no such layout exists the chunk fails. */
  lemma DecodeBoneExactly(data: seq<byte>, at: nat, anims: seq<BoneAnimation>)
    ensures var p := at + CHUNK_HEADER_SIZE;
            (DecodeBone(data, at).Success? && DecodeBone(data, at).value.animations == anims) <==>
            p + 8 <= |data| && |anims| == U32At(data, p) && BonesLaid(data, p + 8, U32At(data, p + 4), anims)
  {
    var p := at + CHUNK_HEADER_SIZE;
    if p + 8 <= |data| {
      ReadBoneAnimationsIffLaid(data, p + 8, U32At(data, p), U32At(data, p + 4), anims);
    }
  }

  /** `ReadTextChunk`: the null word, then a length-prefixed path, unguarded. */
  function DecodeText(data: seq<byte>, at: nat): (r: Result<Body, Error>)
    ensures var p := at + CHUNK_HEADER_SIZE;
            r.Success? <==> p + 8 <= |data| && U32At(data, p + 4) < 0x8000_0000
    ensures r.Success? ==> var p := at + CHUNK_HEADER_SIZE;
            r.value == Text(U32At(data, p), ReadText(data, p + 8, U32At(data, p + 4)).value)
  {
    var nullWord :- ReadU32(data, at + CHUNK_HEADER_SIZE);
    var path :- ReadName(data, nullWord.next);
    Success(Text(nullWord.value, path.value))
  }

  /** The guard MATE and OBST put on a name length. */
  predicate SaneNameLength(len: u32) {
    0 < len < 1024
  }

  /** A guarded name: read only when its length passes the guard, otherwise empty. */
  function ReadGuardedName(data: seq<byte>, pos: nat, len: u32): (g: Got<string>)
    ensures !SaneNameLength(len) ==> g == Got("", pos)
    ensures SaneNameLength(len) ==> g == ReadText(data, pos, len)
  {
    if SaneNameLength(len) then ReadText(data, pos, len) else Got("", pos)
  }

  /** The entries a MATE chunk gets from its texture name: one MATERIAL entry
      with one TEXTURE property iff the name is non-empty. */
  function MateEntries(textureName: string): (es: seq<MaterialEntry>)
    ensures |es| <= 1
    ensures |es| == 1 <==> textureName != ""
    ensures |es| == 1 ==> es[0].typeName == "MATERIAL" && es[0].properties == [MaterialProperty("TEXTURE", textureName)]
  {
    if textureName == "" then [] else [MaterialEntry("MATERIAL", [MaterialProperty("TEXTURE", textureName)])]
  }

  /** `ReadMateChunk`: material id, then a guarded texture name. The rest of
      the payload is skipped (`MateSkip`) and never contributes to the chunk;
      every raise is caught, so the decoder cannot fail. */
  function DecodeMate(data: seq<byte>, at: nat): (b: Body)
    ensures b.Mate?
    ensures var p := at + CHUNK_HEADER_SIZE;
            p + 8 <= |data| ==> b.entries == MateEntries(ReadGuardedName(data, p + 8, U32At(data, p + 4)).value)
    ensures at + CHUNK_HEADER_SIZE + 8 > |data| ==> b.entries == []
  {
    var p := at + CHUNK_HEADER_SIZE;
    match ReadU32(data, p)
    case Failure(_) => Mate([])
    case Success(materialId) =>
      match ReadU32(data, materialId.next)
      case Failure(_) => Mate([])
      case Success(len) => Mate(MateEntries(ReadGuardedName(data, len.next, len.value).value))
  }

  /** Where the cursor ends after MATE's skipping phase, started at `pos`
      just after the name. `remaining` is the payload length (as `uint`)
      minus what was read so far; the entry-count word is read but not
      subtracted when there is no 96-byte block. A raise is caught and seeks
      forward to `dataStart + size - 8` if the cursor is before it. */
  function MateSkip(data: seq<byte>, at: nat, size: u32, pos: nat): nat {
    var dataStart := at + CHUNK_HEADER_SIZE;
    var expectedEnd := dataStart + size - CHUNK_HEADER_SIZE;
    var remaining := ChunkDataSize(size) - (pos - dataStart);
    if remaining <= 0 then pos
    else
      match ReadU32(data, pos)
      case Failure(_) => Max(Max(pos, |data|), expectedEnd)
      case Success(count) =>
        var afterBlock := if remaining >= 100 then Skip(data, count.next, 96).next else count.next;
        var left := if remaining >= 100 then remaining - 100 else remaining;
        var (q, left') := SkipEntries(data, afterBlock, count.value, left);
        if left' <= 0 then q
        else if ToInt32(WrapU32(left')) < 0 then Max(q, expectedEnd)
        else Skip(data, q, ToInt32(WrapU32(left'))).next
  }

  /** The 20-byte entry loop: at most `count` entries while 20 bytes remain. */
  function {:induction false} SkipEntries(data: seq<byte>, pos: nat, count: nat, left: int): (r: (nat, int))
    requires left >= 0
    ensures var j := Min(count, left / 20);
            r.1 == left - 20 * j && r.0 == pos + Min(20 * j, Avail(data, pos))
    decreases count
  {
    if count == 0 || left < 20 then (pos, left)
    else SkipEntries(data, Skip(data, pos, 20).next, count - 1, left - 20)
  }

  /** When the whole payload lies in the buffer and at least 100 bytes of it
      remain after the name, the skipping phase lands exactly on the end of
      the payload, whatever the entry count says. */
  lemma MateSkipLandsAtEnd(data: seq<byte>, at: nat, size: u32, pos: nat)
    requires at + CHUNK_HEADER_SIZE <= pos
    requires ChunkDataSize(size) < 0x8000_0000
    requires at + CHUNK_HEADER_SIZE + ChunkDataSize(size) <= |data|
    requires ChunkDataSize(size) - (pos - (at + CHUNK_HEADER_SIZE)) >= 100
    ensures MateSkip(data, at, size, pos) == at + CHUNK_HEADER_SIZE + ChunkDataSize(size)
  {
    var remaining := ChunkDataSize(size) - (pos - (at + CHUNK_HEADER_SIZE));
    var count := ReadU32(data, pos).value;
    var afterBlock := Skip(data, count.next, 96).next;
    assert afterBlock == pos + 100;
    var (q, left') := SkipEntries(data, afterBlock, count.value, remaining - 100);
    assert q == afterBlock + (remaining - 100 - left');
  }

  /** With fewer than 100 bytes left after the name, the entry-count word is
      read but not subtracted from what remains, so the skipping phase ends
      four bytes past the payload. Framing moves the cursor back afterwards. */
  lemma MateSkipOvershoots(data: seq<byte>, at: nat, size: u32, pos: nat)
    requires at + CHUNK_HEADER_SIZE <= pos
    requires ChunkDataSize(size) < 0x8000_0000
    requires at + CHUNK_HEADER_SIZE + ChunkDataSize(size) + 4 <= |data|
    requires 0 < ChunkDataSize(size) - (pos - (at + CHUNK_HEADER_SIZE)) < 100
    ensures MateSkip(data, at, size, pos) == at + CHUNK_HEADER_SIZE + ChunkDataSize(size) + 4
  {
    var remaining := ChunkDataSize(size) - (pos - (at + CHUNK_HEADER_SIZE));
    var count := ReadU32(data, pos).value;
    var (q, left') := SkipEntries(data, count.next, count.value, remaining);
    assert q == pos + 4 + (remaining - left');
  }

  /** `ReadBlstChunk` / `ReadAsecChunk`: one word. */
  function ReadNullWord(data: seq<byte>, at: nat): (r: Result<u32, Error>)
    ensures r.Success? <==> at + CHUNK_HEADER_SIZE + 4 <= |data|
    ensures r.Success? ==> r.value == U32At(data, at + CHUNK_HEADER_SIZE)
  {
    var w :- ReadU32(data, at + CHUNK_HEADER_SIZE);
    Success(w.value)
  }

  /** `ReadBytes((int)ChunkDataSize)`: the payload bytes, cut short at the end
      of the buffer. A size below 8 wraps the payload length past 2^31, and
      the negative count raises. */
  function ReadRaw(data: seq<byte>, at: nat, size: u32): (r: Result<seq<byte>, Error>)
    ensures r.Success? <==> ChunkDataSize(size) < 0x8000_0000
    ensures r.Success? ==> |r.value| == Min(ChunkDataSize(size), Avail(data, at + CHUNK_HEADER_SIZE))
    ensures r.Success? && at + CHUNK_HEADER_SIZE <= |data| ==>
              r.value == data[at + CHUNK_HEADER_SIZE..at + CHUNK_HEADER_SIZE + |r.value|]
  {
    var b :- ReadBytes(data, at + CHUNK_HEADER_SIZE, ToInt32(ChunkDataSize(size)));
    Success(b.value)
  }

  /** One asset string: id, an unknown word, then an unguarded text. */
  function ReadAssetString(data: seq<byte>, pos: nat): (r: Result<Got<AssetString>, Error>)
    ensures r.Success? <==> pos + 12 <= |data| && U32At(data, pos + 8) < 0x8000_0000
    ensures r.Success? ==> var s := r.value.value;
            && s.stringId == U32At(data, pos)
            && s.unknown == U32At(data, pos + 4)
            && s.text == ReadText(data, pos + 12, U32At(data, pos + 8)).value
            && r.value.next == NameEnd(data, pos + 8) > pos
  {
    var id :- ReadU32(data, pos);
    var unknown :- ReadU32(data, id.next);
    var text :- ReadName(data, unknown.next);
    Success(Got(AssetString(id.value, unknown.value, text.value), text.next))
  }

  /** `strings` are asset string records laid out back to back from `pos`. */
  predicate AselLaid(data: seq<byte>, pos: nat, strings: seq<AssetString>)
    decreases |strings|
  {
    if strings == [] then true
    else
      var s := ReadAssetString(data, pos);
      s.Success? && s.value.value == strings[0] && AselLaid(data, s.value.next, strings[1..])
  }

  function {:induction false} ReadAssetStrings(data: seq<byte>, pos: nat, n: nat): (r: Result<Got<seq<AssetString>>, Error>)
    ensures r.Success? ==> |r.value.value| == n && AselLaid(data, pos, r.value.value)
    decreases n
  {
    if n == 0 then Success(Got([], pos))
    else
      var s :- ReadAssetString(data, pos);
      var rest :- ReadAssetStrings(data, s.next, n - 1);
      assert ([s.value] + rest.value)[1..] == rest.value;
      Success(Got([s.value] + rest.value, rest.next))
  }

  /** The string loop returns `strings` exactly when `n` records are laid
      out back to back from `pos`. */
  lemma {:induction false} ReadAssetStringsIffLaid(data: seq<byte>, pos: nat, n: nat, strings: seq<AssetString>)
    ensures (ReadAssetStrings(data, pos, n).Success? && ReadAssetStrings(data, pos, n).value.value == strings) <==>
            |strings| == n && AselLaid(data, pos, strings)
    decreases n
  {
    if n > 0 {
      var s := ReadAssetString(data, pos);
      if s.Success? {
        ReadAssetStringsIffLaid(data, s.value.next, n - 1, if strings == [] then [] else strings[1..]);
        if strings != [] {
          assert strings == [strings[0]] + strings[1..];
        }
      }
    }
  }

  /** `ReadAselChunk`: a count, then that many (id, unknown, text) records. */
  function DecodeAsel(data: seq<byte>, at: nat): (r: Result<Body, Error>)
    ensures r.Success? ==> r.value.Asel? && at + CHUNK_HEADER_SIZE + 4 <= |data|
    ensures r.Success? ==> r.value.stringCount == U32At(data, at + CHUNK_HEADER_SIZE) && |r.value.strings| == r.value.stringCount
    ensures r.Success? ==> AselLaid(data, at + CHUNK_HEADER_SIZE + 4, r.value.strings)
  {
    var count :- ReadU32(data, at + CHUNK_HEADER_SIZE);
    var strings :- ReadAssetStrings(data, count.next, count.value);
    Success(Asel(count.value, strings.value))
  }

  /** An ASEL payload decodes to `strings` exactly when it starts with the
      count and holds that many records back to back after it. */
  lemma DecodeAselExactly(data: seq<byte>, at: nat, strings: seq<AssetString>)
    ensures var p := at + CHUNK_HEADER_SIZE;
            (DecodeAsel(data, at).Success? && DecodeAsel(data, at).value.strings == strings) <==>
            p + 4 <= |data| && |strings| == U32At(data, p) && AselLaid(data, p + 4, strings)
  {
    var p := at + CHUNK_HEADER_SIZE;
    if p + 4 <= |data| {
      ReadAssetStringsIffLaid(data, p + 4, U32At(data, p), strings);
    }
  }

  /** `ReadDumyChunk`: object number, an unguarded name, then up to 68 bytes. */
  function DecodeDumy(data: seq<byte>, at: nat): (r: Result<Body, Error>)
    ensures var p := at + CHUNK_HEADER_SIZE;
            r.Success? <==> p + 8 <= |data| && U32At(data, p + 4) < 0x8000_0000
    ensures r.Success? ==> var p := at + CHUNK_HEADER_SIZE;
            var name := ReadText(data, p + 8, U32At(data, p + 4));
            r.value == Dumy(U32At(data, p), name.value, Skip(data, name.next, 68).value)
  {
    var number :- ReadU32(data, at + CHUNK_HEADER_SIZE);
    var name :- ReadName(data, number.next);
    Success(Dumy(number.value, name.value, Skip(data, name.next, 68).value))
  }

  /** `ReadTimeChunk`: a 24-byte field with trailing NULs trimmed. */
  function DecodeTime(data: seq<byte>, at: nat): (b: Body)
    ensures b.Time? && |b.timestamp| <= 24
    ensures b.timestamp == [] || b.timestamp[|b.timestamp| - 1] != '\0'
  {
    Time(ReadText(data, at + CHUNK_HEADER_SIZE, 24).value)
  }
}
