/** The material file reader (`MatFile.Parse` and its helpers): eight header
    words, a padding word, a list of type-tagged properties and an optional
    table of NUL-terminated property names at the end. */
module MatFile {
  import opened Wrappers
  import opened Binary
  import opened Cursor
  import Text

  const MAT_MAGIC: u32 := 0xFFFF_A5AD

  /** Eight header words and one padding word precede the first property. */
  const HEADER_WORDS: nat := 8
  const PROPERTIES_START: nat := 4 * HEADER_WORDS + 4

  /** The type tags `ReadProperty` distinguishes. */
  const TYPE_NONE: u16 := 0x0000
  const TYPE_ARRAY: u16 := 0x0005
  const TYPE_LAYER: u16 := 0x000A
  const TYPE_FLOAT: u16 := 0x0101
  const TYPE_FLOAT_ALT: u16 := 0x0104

  /** The property id whose `0x0104` value is a colour, not a float. */
  const TEXTURE_FACTOR: u16 := 0x0E

  /** The boxed value of a property. The blob kinds keep only their declared
      size, as the reader keeps only a description naming it. */
  datatype Value =
    | Float(bits: f32)
    | Color(r: f32, g: f32, b: f32, a: f32)
    | Layer(size: u32)          // "<layer N bytes>"
    | EmptyLayer                // "<empty layer>"
    | Array(size: u32)          // "<array N bytes>"
    | UnknownType(kind: u16)    // "<unknown type 0xTTTT>"

  /** `MatProperty`; `Flags` is never read and stays 0. */
  datatype Property = Property(id: u16, kind: u16, flags: u16, value: Value)

  /** `MatFile`: the header words, the properties in file order and
      `PropertyDict`. */
  datatype Mat = Mat(
    magic: u32, fileSize: u32, unknown1: u32, techniqueCount: u32,
    unknown2: u32, unknown3: u32, passCount: u32, propertyCount: u32,
    properties: seq<Property>,
    dict: map<string, Value>)

  predicate IsColorProperty(id: u16, kind: u16) {
    id == TEXTURE_FACTOR && kind == TYPE_FLOAT_ALT
  }

  predicate IsFloatType(kind: u16) {
    kind == TYPE_FLOAT || kind == TYPE_FLOAT_ALT
  }

  predicate IsBlobType(kind: u16) {
    kind == TYPE_LAYER || kind == TYPE_ARRAY
  }

  // ---------------------------------------------------------------------------
  // Properties
  // ---------------------------------------------------------------------------

  /** The value part of `ReadProperty`, read from `pos` just after the id and
      type words. The payload size is chosen by the type, except that the
      texture factor is always a colour. A blob's size word is cast to `int`
      for `ReadBytes`, so a size from 2^31 up throws; an unknown type whose
      float runs past the end is caught, leaving the stream at its end. */
  function ReadValue(data: seq<byte>, pos: nat, id: u16, kind: u16): (r: Result<Got<Value>, Error>)
    ensures r.Failure? ==> r.error == EndOfStream || r.error == NegativeCount
    ensures IsColorProperty(id, kind) ==>
              (r.Success? <==> pos + 16 <= |data|) &&
              (r.Success? ==> r.value.next == pos + 16 &&
                              r.value.value == Color(U32At(data, pos), U32At(data, pos + 4),
                                                     U32At(data, pos + 8), U32At(data, pos + 12)))
    ensures !IsColorProperty(id, kind) && IsFloatType(kind) ==>
              (r.Success? <==> pos + 4 <= |data|) &&
              (r.Success? ==> r.value == Got(Float(U32At(data, pos)), pos + 4))
    ensures IsBlobType(kind) ==>
              (r.Success? <==> pos + 4 <= |data| && U32At(data, pos) < 0x8000_0000) &&
              (r.Success? ==> r.value.next == pos + 4 + Min(U32At(data, pos), Avail(data, pos + 4)))
    ensures kind == TYPE_LAYER && r.Success? ==>
              r.value.value == (if U32At(data, pos) > 0 then Layer(U32At(data, pos)) else EmptyLayer)
    ensures kind == TYPE_ARRAY && r.Success? ==> r.value.value == Array(U32At(data, pos))
    ensures kind == TYPE_NONE ==> r == Success(Got(Float(0), pos))
    ensures !IsFloatType(kind) && !IsBlobType(kind) && kind != TYPE_NONE ==>
              r.Success? &&
              (pos + 4 <= |data| ==> r.value == Got(Float(U32At(data, pos)), pos + 4)) &&
              (pos + 4 > |data| ==> r.value == Got(UnknownType(kind), Max(pos, |data|)))
  {
    if IsColorProperty(id, kind) then
      var r :- ReadU32(data, pos);
      var g :- ReadU32(data, r.next);
      var b :- ReadU32(data, g.next);
      var a :- ReadU32(data, b.next);
      Success(Got(Color(r.value, g.value, b.value, a.value), a.next))
    else if IsFloatType(kind) then
      var f :- ReadF32(data, pos);
      Success(Got(Float(U32At(data, pos)), f.next))
    else if kind == TYPE_LAYER then
      var n :- ReadU32(data, pos);
      if n.value > 0 then
        var blob :- ReadBytes(data, n.next, ToInt32(n.value));
        Success(Got(Layer(n.value), blob.next))
      else
        Success(Got(EmptyLayer, n.next))
    else if kind == TYPE_ARRAY then
      var n :- ReadU32(data, pos);
      var blob :- ReadBytes(data, n.next, ToInt32(n.value));
      Success(Got(Array(n.value), blob.next))
    else if kind == TYPE_NONE then
      Success(Got(Float(0), pos))
    else
      match ReadF32(data, pos)
      case Success(f) => Success(Got(Float(U32At(data, pos)), f.next))
      case Failure(_) => Success(Got(UnknownType(kind), Max(pos, |data|)))
  }

  /** `ReadProperty`: a 16-bit id, a 16-bit type, then the value. */
  function ReadProperty(data: seq<byte>, pos: nat): (r: Result<Got<Property>, Error>)
    ensures r.Success? ==> pos + 4 <= |data|
    ensures r.Success? ==> r.value.value.id == U16At(data, pos) &&
                           r.value.value.kind == U16At(data, pos + 2) &&
                           r.value.value.flags == 0
    ensures r.Success? ==> pos + 4 <= r.value.next
    ensures r.Failure? ==> r.error == EndOfStream || r.error == NegativeCount
  {
    var id :- ReadU16(data, pos);
    var kind :- ReadU16(data, id.next);
    var v :- ReadValue(data, kind.next, id.value, kind.value);
    Success(Got(Property(id.value, kind.value, 0, v.value), v.next))
  }

  /** The `PropertyCount` loop: exactly `count` properties, one after another;
      any exception in a property aborts the whole parse. */
  function ReadProperties(data: seq<byte>, pos: nat, count: nat): (r: Result<Got<seq<Property>>, Error>)
    ensures r.Success? ==> |r.value.value| == count && pos <= r.value.next
    ensures r.Failure? ==> r.error == EndOfStream || r.error == NegativeCount
    decreases count
  {
    if count == 0 then Success(Got([], pos))
    else
      var p :- ReadProperty(data, pos);
      var rest :- ReadProperties(data, p.next, count - 1);
      Success(Got([p.value] + rest.value, rest.next))
  }

  /** `props` lie back to back from `pos` to `end`, each one what
      `ReadProperty` reads at its place. */
  predicate Laid(data: seq<byte>, pos: nat, props: seq<Property>, end: nat)
    decreases |props|
  {
    if props == [] then end == pos
    else
      var p := ReadProperty(data, pos);
      p.Success? && p.value.value == props[0] && Laid(data, p.value.next, props[1..], end)
  }

  /** The property loop succeeds with `props` ending at `end` exactly when
      `count` properties are laid out back to back from `pos` to `end`. */
  lemma {:induction false} ReadPropertiesIffLaid(data: seq<byte>, pos: nat, count: nat, props: seq<Property>, end: nat)
    ensures ReadProperties(data, pos, count) == Success(Got(props, end)) <==>
            |props| == count && Laid(data, pos, props, end)
    decreases count
  {
    if count > 0 {
      var p := ReadProperty(data, pos);
      if p.Success? {
        ReadPropertiesIffLaid(data, p.value.next, count - 1, if props == [] then [] else props[1..], end);
        if props != [] {
          assert props == [props[0]] + props[1..];
        }
      }
    }
  }

  /** A property whose value has the shape its id and type call for, with
      `blob` the bytes behind a blob's size word. */
  predicate WellTyped(p: Property, blob: seq<byte>) {
    && p.flags == 0
    && (if IsColorProperty(p.id, p.kind) then p.value.Color?
        else if IsFloatType(p.kind) then p.value.Float?
        else if p.kind == TYPE_LAYER then
          (p.value.Layer? && 0 < p.value.size < 0x8000_0000 && |blob| == p.value.size) || p.value == EmptyLayer
        else if p.kind == TYPE_ARRAY then p.value.Array? && p.value.size < 0x8000_0000 && |blob| == p.value.size
        else if p.kind == TYPE_NONE then p.value == Float(0)
        else p.value.Float?)
  }

  /** The bytes of a value as the reader expects them. */
  function EncodeValue(kind: u16, v: Value, blob: seq<byte>): seq<byte> {
    match v
    case Float(bits) => if kind == TYPE_NONE then [] else LE32(bits)
    case Color(r, g, b, a) => LE32(r) + LE32(g) + LE32(b) + LE32(a)
    case Layer(n) => LE32(n) + blob
    case EmptyLayer => [0, 0, 0, 0]
    case Array(n) => LE32(n) + blob
    case UnknownType(_) => []
  }

  function EncodeProperty(p: Property, blob: seq<byte>): seq<byte> {
    LE16(p.id) + LE16(p.kind) + EncodeValue(p.kind, p.value, blob)
  }

  lemma ColorReadsBack(data: seq<byte>, pos: nat, v: Value)
    requires v.Color?
    requires pos + 16 <= |data| && data[pos..pos + 16] == EncodeValue(TYPE_FLOAT_ALT, v, [])
    ensures ReadValue(data, pos, TEXTURE_FACTOR, TYPE_FLOAT_ALT) == Success(Got(v, pos + 16))
  {
    var e := EncodeValue(TYPE_FLOAT_ALT, v, []);
    WindowSplit(data, pos, LE32(v.r) + LE32(v.g) + LE32(v.b), LE32(v.a));
    WindowSplit(data, pos, LE32(v.r) + LE32(v.g), LE32(v.b));
    WindowSplit(data, pos, LE32(v.r), LE32(v.g));
    ReadU32OfLE(data, pos, v.r);
    ReadU32OfLE(data, pos + 4, v.g);
    ReadU32OfLE(data, pos + 8, v.b);
    ReadU32OfLE(data, pos + 12, v.a);
  }

  lemma BlobReadsBack(data: seq<byte>, pos: nat, id: u16, kind: u16, n: u32, blob: seq<byte>)
    requires IsBlobType(kind) && n < 0x8000_0000 && |blob| == n
    requires pos + 4 + n <= |data| && data[pos..pos + 4 + n] == LE32(n) + blob
    ensures ReadValue(data, pos, id, kind) ==
            Success(Got(if kind == TYPE_ARRAY then Array(n) else if n > 0 then Layer(n) else EmptyLayer, pos + 4 + n))
  {
    WindowSplit(data, pos, LE32(n), blob);
    ReadU32OfLE(data, pos, n);
  }

  lemma EmptyLayerReadsBack(data: seq<byte>, pos: nat, id: u16)
    requires pos + 4 <= |data| && data[pos..pos + 4] == [0, 0, 0, 0]
    ensures ReadValue(data, pos, id, TYPE_LAYER) == Success(Got(EmptyLayer, pos + 4))
  {
    assert data[pos] == 0 && data[pos + 1] == 0 && data[pos + 2] == 0 && data[pos + 3] == 0;
  }

  lemma WordReadsBack(data: seq<byte>, pos: nat, id: u16, kind: u16, bits: u32)
    requires !IsColorProperty(id, kind) && !IsBlobType(kind) && kind != TYPE_NONE
    requires pos + 4 <= |data| && data[pos..pos + 4] == LE32(bits)
    ensures ReadValue(data, pos, id, kind) == Success(Got(Float(bits), pos + 4))
  {
    ReadU32OfLE(data, pos, bits);
  }

  /** Whatever a well-typed value encodes to is read back as that value, the
      cursor landing just after it. */
  lemma ValueReadsBack(data: seq<byte>, pos: nat, p: Property, blob: seq<byte>)
    requires WellTyped(p, blob)
    requires var e := EncodeValue(p.kind, p.value, blob); pos + |e| <= |data| && data[pos..pos + |e|] == e
    ensures ReadValue(data, pos, p.id, p.kind) ==
            Success(Got(p.value, pos + |EncodeValue(p.kind, p.value, blob)|))
  {
    if IsColorProperty(p.id, p.kind) {
      ColorReadsBack(data, pos, p.value);
    } else if IsFloatType(p.kind) {
      WordReadsBack(data, pos, p.id, p.kind, p.value.bits);
    } else if p.kind == TYPE_NONE {
    } else if p.value == EmptyLayer {
      EmptyLayerReadsBack(data, pos, p.id);
    } else if IsBlobType(p.kind) {
      BlobReadsBack(data, pos, p.id, p.kind, p.value.size, blob);
    } else {
      WordReadsBack(data, pos, p.id, p.kind, p.value.bits);
    }
  }

  /** A well-typed property, written out the way the reader expects, is read
      back unchanged. */
  lemma PropertyReadsBack(data: seq<byte>, pos: nat, p: Property, blob: seq<byte>)
    requires WellTyped(p, blob)
    requires var e := EncodeProperty(p, blob); pos + |e| <= |data| && data[pos..pos + |e|] == e
    ensures ReadProperty(data, pos) == Success(Got(p, pos + |EncodeProperty(p, blob)|))
  {
    var v := EncodeValue(p.kind, p.value, blob);
    WindowSplit(data, pos, LE16(p.id) + LE16(p.kind), v);
    WindowSplit(data, pos, LE16(p.id), LE16(p.kind));
    ReadU16OfLE(data, pos, p.id);
    ReadU16OfLE(data, pos + 2, p.kind);
    ValueReadsBack(data, pos + 4, p, blob);
  }

  // ---------------------------------------------------------------------------
  // Property names
  // ---------------------------------------------------------------------------

  /** The names of the ids 0x01 through 0x20, in id order. */
  const KNOWN_NAMES: seq<string> := [
    "Technique", "FillMode", "Cull", "DitherEnable", "SpecularEnable",
    "LightingEnable", "NormalizeNormals", "LocalViewer", "ColorVertexEnable",
    "AlphaTestEnable", "AlphaFunc", "AlphaRef", "AlphaBlendEnable",
    "TextureFactor", "DestBlend", "ZWriteEnable", "ZFunc", "Layer",
    "TextureSource", "TexCoordIndex", "ColorArg1", "ColorArg2", "ColorOp",
    "AlphaArg1", "AlphaOp", "TextureAddressU", "TextureAddressV", "Filter",
    "Filter", "SrcBlend", "DestBlend", "AlphaRef"]

  predicate IsKnownId(id: nat) {
    1 <= id <= |KNOWN_NAMES|
  }

  /** `GetPropertyName`: total; an id outside the table is named
      "Property" followed by its `X2` hexadecimal form. */
  function PropertyName(id: nat): (r: string)
    ensures r != []
    ensures IsKnownId(id) ==> r == KNOWN_NAMES[id - 1]
    ensures !IsKnownId(id) ==> |r| == 8 + Max(2, |Text.HexDigits(id)|) && r[..8] == "Property" &&
                               (forall i :: 0 <= i < |r[8..]| ==> Text.IsHexDigit(r[8..][i])) &&
                               Text.HexValue(r[8..]) == id
  {
    if IsKnownId(id) then
      assert KNOWN_NAMES[id - 1] != [];
      KNOWN_NAMES[id - 1]
    else
      Text.HexRoundTrip(id, 2);
      var r := "Property" + Text.Hex(id, 2);
      assert r[8..] == Text.Hex(id, 2);
      r
  }

  lemma KnownNamesStartOtherwise()
    ensures forall i :: 0 <= i < |KNOWN_NAMES| ==> KNOWN_NAMES[i] != [] && KNOWN_NAMES[i][0] != 'P'
  {
  }

  /** No id outside the table is named like an id inside it. */
  lemma FallbackNamesAreNew(a: nat, b: nat)
    requires !IsKnownId(a) && IsKnownId(b)
    ensures PropertyName(a) != PropertyName(b)
  {
    KnownNamesStartOtherwise();
    assert PropertyName(a)[0] == 'P';
    assert PropertyName(b)[0] == KNOWN_NAMES[b - 1][0];
  }

  /** Ids outside the table get pairwise distinct names. */
  lemma FallbackNamesDistinct(a: nat, b: nat)
    requires !IsKnownId(a) && !IsKnownId(b) && PropertyName(a) == PropertyName(b)
    ensures a == b
  {
    assert PropertyName(a)[8..] == PropertyName(b)[8..];
  }

  /** Several table ids share a name, so the fallback keeps only the first
      property among them. */
  lemma SharedNames()
    ensures PropertyName(0x1C) == PropertyName(0x1D) == "Filter"
    ensures PropertyName(0x0F) == PropertyName(0x1F) == "DestBlend"
    ensures PropertyName(0x0C) == PropertyName(0x20) == "AlphaRef"
  {
  }

  // ---------------------------------------------------------------------------
  // The name table
  // ---------------------------------------------------------------------------

  /** `ReadNullTerminatedString`: the bytes up to the next NUL, decoded as
      ASCII, with the cursor just past the NUL; reaching the end of the
      buffer first throws. */
  function ReadCString(data: seq<byte>, pos: nat): (r: Result<Got<string>, Error>)
    ensures r.Success? <==> exists k :: pos <= k < |data| && data[k] == 0
    ensures r.Failure? ==> r.error == EndOfStream
    ensures r.Success? ==> pos < r.value.next <= |data| && data[r.value.next - 1] == 0 &&
                           (forall k :: pos <= k < r.value.next - 1 ==> data[k] != 0) &&
                           r.value.value == AsciiDecode(data[pos..r.value.next - 1])
    decreases |data| - pos
  {
    if pos >= |data| then Failure(EndOfStream)
    else if data[pos] == 0 then Success(Got("", pos + 1))
    else
      match ReadCString(data, pos + 1)
      case Failure(e) =>
        assert forall k :: pos <= k < |data| && data[k] == 0 ==> pos + 1 <= k;
        Failure(e)
      case Success(rest) =>
        assert AsciiDecode(data[pos..rest.next - 1]) == [AsciiChar(data[pos])] + rest.value;
        Success(Got([AsciiChar(data[pos])] + rest.value, rest.next))
  }

  /** The `stringCount` loop: exactly `count` names, none holding a NUL. */
  function ReadNames(data: seq<byte>, pos: nat, count: nat): (r: Result<Got<seq<string>>, Error>)
    ensures r.Success? ==> |r.value.value| == count
    ensures r.Success? ==> forall i :: 0 <= i < count ==> '\0' !in r.value.value[i]
    ensures r.Failure? ==> r.error == EndOfStream
    decreases count
  {
    if count == 0 then Success(Got([], pos))
    else
      var name :- ReadCString(data, pos);
      assert '\0' !in name.value by {
        forall i | 0 <= i < |name.value| ensures name.value[i] != '\0' {
          assert data[pos + i] != 0;
        }
      }
      var rest :- ReadNames(data, name.next, count - 1);
      Success(Got([name.value] + rest.value, rest.next))
  }

  /** The string table: a count word, then that many names. */
  function ReadNameTable(data: seq<byte>, pos: nat): (r: Result<seq<string>, Error>)
    ensures r.Success? ==> pos + 4 <= |data| && |r.value| == U32At(data, pos)
    ensures pos + 4 > |data| ==> r.Failure?
  {
    var count :- ReadU32(data, pos);
    var names :- ReadNames(data, count.next, count.value);
    Success(names.value)
  }

  /** Fills a dictionary from (name, value) pairs in order: empty names are
      skipped and a name already present keeps its first value. */
  function FirstWins(ps: seq<(string, Value)>): (m: map<string, Value>)
    ensures forall k :: k in m ==> k != "" && exists i :: 0 <= i < |ps| && ps[i].0 == k
    ensures forall i :: 0 <= i < |ps| && ps[i].0 != "" && (forall j :: 0 <= j < i ==> ps[j].0 != ps[i].0) ==>
              ps[i].0 in m && m[ps[i].0] == ps[i].1
    decreases |ps|
  {
    if ps == [] then map[]
    else
      var init := ps[..|ps| - 1];
      var m := FirstWins(init);
      var last := ps[|ps| - 1];
      assert forall i :: 0 <= i < |init| ==> init[i] == ps[i];
      if last.0 == "" || last.0 in m then m else m[last.0 := last.1]
  }

  /** Below any occurrence of a name lies its first occurrence. */
  lemma {:induction false} FirstOccurrence(ps: seq<(string, Value)>, k: string, i: nat) returns (j: nat)
    requires i < |ps| && ps[i].0 == k
    ensures j <= i && ps[j].0 == k && forall l :: 0 <= l < j ==> ps[l].0 != k
    decreases i
  {
    if exists l :: 0 <= l < i && ps[l].0 == k {
      var l :| 0 <= l < i && ps[l].0 == k;
      j := FirstOccurrence(ps, k, l);
    } else {
      j := i;
    }
  }

  /** The keys are exactly the non-empty names among the pairs. */
  lemma FirstWinsKeys(ps: seq<(string, Value)>)
    ensures forall k :: k in FirstWins(ps) <==> k != "" && exists i :: 0 <= i < |ps| && ps[i].0 == k
  {
    forall k | k != "" && exists i :: 0 <= i < |ps| && ps[i].0 == k
      ensures k in FirstWins(ps)
    {
      var i :| 0 <= i < |ps| && ps[i].0 == k;
      var j := FirstOccurrence(ps, k, i);
    }
  }

  /** Name `i` goes with property `i`, as far as both lists reach. */
  function TablePairs(names: seq<string>, props: seq<Property>): (ps: seq<(string, Value)>)
    ensures |ps| == Min(|names|, |props|)
    ensures forall i :: 0 <= i < |ps| ==> ps[i] == (names[i], props[i].value)
  {
    seq(Min(|names|, |props|), i requires 0 <= i < Min(|names|, |props|) => (names[i], props[i].value))
  }

  /** Each property under its `GetPropertyName` name. */
  function FallbackPairs(props: seq<Property>): (ps: seq<(string, Value)>)
    ensures |ps| == |props|
    ensures forall i :: 0 <= i < |ps| ==> ps[i] == (PropertyName(props[i].id), props[i].value)
  {
    seq(|props|, i requires 0 <= i < |props| => (PropertyName(props[i].id), props[i].value))
  }

  /** The `try`/`catch` after the properties: nothing when the stream is at
      its end, the string table when it reads, the fallback names when
      reading it throws. The mapping loop itself cannot throw, so the
      fallback always starts from an empty dictionary. */
  function NameTable(data: seq<byte>, pos: nat, props: seq<Property>): map<string, Value> {
    if pos >= |data| then map[]
    else
      match ReadNameTable(data, pos)
      case Success(names) => FirstWins(TablePairs(names, props))
      case Failure(_) => FirstWins(FallbackPairs(props))
  }

  // ---------------------------------------------------------------------------
  // The file
  // ---------------------------------------------------------------------------

  /** `MatFile.Parse`: all eight header words are read before the magic is
      checked, then the padding word, the properties and the name table. */
  function Parse(data: seq<byte>): (r: Result<Mat, Error>)
    ensures |data| < 4 * HEADER_WORDS ==> r == Failure(EndOfStream)
    ensures |data| >= 4 * HEADER_WORDS && U32At(data, 0) != MAT_MAGIC ==>
              r == Failure(InvalidMatMagic(U32At(data, 0)))
    ensures r.Success? ==> |data| >= PROPERTIES_START && U32At(data, 0) == MAT_MAGIC
    ensures r.Success? ==> r.value.magic == U32At(data, 0) && r.value.fileSize == U32At(data, 4) &&
                           r.value.techniqueCount == U32At(data, 12) && r.value.passCount == U32At(data, 24) &&
                           r.value.propertyCount == U32At(data, 28)
    ensures r.Success? ==> |r.value.properties| == r.value.propertyCount
  {
    if |data| < 4 * HEADER_WORDS then Failure(EndOfStream)
    else if U32At(data, 0) != MAT_MAGIC then Failure(InvalidMatMagic(U32At(data, 0)))
    else
      var pad :- ReadU32(data, 4 * HEADER_WORDS);
      var props :- ReadProperties(data, pad.next, U32At(data, 28));
      Success(Mat(
        U32At(data, 0), U32At(data, 4), U32At(data, 8), U32At(data, 12),
        U32At(data, 16), U32At(data, 20), U32At(data, 24), U32At(data, 28),
        props.value, NameTable(data, props.next, props.value)))
  }

  /** A parsed file's properties are laid out back to back from just after
      the padding word, and its dictionary comes from whatever follows them. */
  lemma ParsedLayout(data: seq<byte>)
    requires Parse(data).Success?
    ensures exists end :: Laid(data, PROPERTIES_START, Parse(data).value.properties, end) &&
                          Parse(data).value.dict == NameTable(data, end, Parse(data).value.properties)
  {
    var props := ReadProperties(data, PROPERTIES_START, U32At(data, 28)).value;
    ReadPropertiesIffLaid(data, PROPERTIES_START, U32At(data, 28), props.value, props.next);
  }

  /** When the properties run to the end of the buffer the dictionary stays
      empty. */
  lemma NoTableNoNames(data: seq<byte>, end: nat, props: seq<Property>)
    requires end >= |data|
    ensures NameTable(data, end, props) == map[]
  {
  }

  /** With a readable string table, a name is a key exactly when it is
      non-empty and pairs with some property, and it keeps the value of the
      first property it pairs with. */
  lemma TableNames(data: seq<byte>, end: nat, props: seq<Property>, names: seq<string>)
    requires end < |data| && ReadNameTable(data, end) == Success(names)
    ensures forall k :: k in NameTable(data, end, props) <==>
              k != "" && exists i :: 0 <= i < |names| && i < |props| && names[i] == k
    ensures forall i :: 0 <= i < |names| && i < |props| && names[i] != "" &&
                        (forall j :: 0 <= j < i ==> names[j] != names[i]) ==>
              names[i] in NameTable(data, end, props) && NameTable(data, end, props)[names[i]] == props[i].value
  {
    var ps := TablePairs(names, props);
    FirstWinsKeys(ps);
    forall k ensures k in NameTable(data, end, props) <==>
                       k != "" && exists i :: 0 <= i < |names| && i < |props| && names[i] == k {
      if k != "" && exists i :: 0 <= i < |names| && i < |props| && names[i] == k {
        var i :| 0 <= i < |names| && i < |props| && names[i] == k;
        assert ps[i].0 == k;
      }
    }
    forall i | 0 <= i < |names| && i < |props| && names[i] != "" &&
               (forall j :: 0 <= j < i ==> names[j] != names[i])
      ensures names[i] in NameTable(data, end, props) && NameTable(data, end, props)[names[i]] == props[i].value
    {
      assert ps[i] == (names[i], props[i].value);
      assert forall j :: 0 <= j < i ==> ps[j].0 != ps[i].0;
    }
  }

  /** When the string table cannot be read, every property is reachable under
      its `GetPropertyName` name, holding the value of the first property
      with that name. */
  lemma FallbackNames(data: seq<byte>, end: nat, props: seq<Property>)
    requires end < |data| && ReadNameTable(data, end).Failure?
    ensures forall k :: k in NameTable(data, end, props) <==>
              exists i :: 0 <= i < |props| && PropertyName(props[i].id) == k
    ensures forall i :: 0 <= i < |props| &&
                        (forall j :: 0 <= j < i ==> PropertyName(props[j].id) != PropertyName(props[i].id)) ==>
              NameTable(data, end, props)[PropertyName(props[i].id)] == props[i].value
  {
    var ps := FallbackPairs(props);
    FirstWinsKeys(ps);
    forall k ensures k in NameTable(data, end, props) <==>
                       exists i :: 0 <= i < |props| && PropertyName(props[i].id) == k {
      if exists i :: 0 <= i < |props| && PropertyName(props[i].id) == k {
        var i :| 0 <= i < |props| && PropertyName(props[i].id) == k;
        assert ps[i].0 == k;
      }
    }
    forall i | 0 <= i < |props| &&
               (forall j :: 0 <= j < i ==> PropertyName(props[j].id) != PropertyName(props[i].id))
      ensures NameTable(data, end, props)[PropertyName(props[i].id)] == props[i].value
    {
      assert ps[i] == (PropertyName(props[i].id), props[i].value);
      assert forall j :: 0 <= j < i ==> ps[j].0 != ps[i].0;
    }
  }
}
