/** The vertex-format files (`VertexFormatReader`): the `#define` table of a
    .vf file and the element layout of a .vfd file. The regular-expression
    searches are taken as given: each line arrives trimmed, together with
    what the searches found in it. */
module VertexFormat {
  import opened Wrappers
  import opened Text
  import opened Defines

  // ---------------------------------------------------------------------------
  // .vf: the define table
  // ---------------------------------------------------------------------------

  /** A trimmed .vf line and what the `#define\s+(\w+)\s+(\w+)` search found
      in it. */
  datatype VfLine = VfLine(trimmed: string, define: Option<Define>)

  /** Blank lines and ';' comments are skipped before the search. */
  predicate VfSkipped(trimmed: string) {
    trimmed == "" || StartsWith(trimmed, ";")
  }

  /** The definition a line contributes. */
  function VfDefine(l: VfLine): Option<Define> {
    if VfSkipped(l.trimmed) then None else l.define
  }

  function VfDefines(lines: seq<VfLine>): (r: seq<Option<Define>>)
    ensures |r| == |lines|
  {
    seq(|lines|, i requires 0 <= i < |lines| => VfDefine(lines[i]))
  }

  /** `LoadVF`: every name defined on a line that is not skipped, with the
      value of its last definition. */
  method LoadVf(lines: seq<VfLine>) returns (defines: map<string, string>)
    ensures LastWins(defines, VfDefines(lines))
  {
    defines := map[];
    var defs := VfDefines(lines);
    for k := 0 to |lines|
      invariant LastWins(defines, defs[..k])
    {
      LastWinsStep(defines, defs[..k], VfDefine(lines[k]));
      assert defs[..k + 1] == defs[..k] + [VfDefine(lines[k])];
      if VfSkipped(lines[k].trimmed) {
        continue;
      }
      match lines[k].define {
        case Some(d) => defines := defines[d.name := d.value];
        case None =>
      }
    }
    assert defs[..|lines|] == defs;
  }

  // ---------------------------------------------------------------------------
  // .vfd: the element layout
  // ---------------------------------------------------------------------------

  /** A trimmed .vfd line and what the `Stream\s*=\s*(\d+)` and
      `Reg\s*=\s*(\w+)` searches found in it. */
  datatype VfdLine = VfdLine(trimmed: string, stream: Option<nat>, reg: Option<string>)

  /** Lines that are skipped before either search. */
  predicate VfdSkipped(t: string) {
    t == "" || StartsWith(t, ";") || t == "[VertexFormat]" || t == "{" || t == "}"
  }

  /** What a line does: select a stream, add an element, or nothing. A line
      the stream search matches never adds an element. */
  datatype Event = SetStream(n: nat) | AddElement(typeName: string) | NoEvent

  function EventOf(l: VfdLine): Event {
    if VfdSkipped(l.trimmed) then NoEvent
    else if l.stream.Some? then SetStream(l.stream.value)
    else if l.reg.Some? then AddElement(l.reg.value)
    else NoEvent
  }

  function Events(lines: seq<VfdLine>): (r: seq<Event>)
    ensures |r| == |lines|
  {
    seq(|lines|, i requires 0 <= i < |lines| => EventOf(lines[i]))
  }

  /** `GetTypeSize`: bytes per element type; a type the table does not know
      counts as 4 bytes. */
  function TypeSize(t: string): (r: nat)
    ensures r == 4 || r == 8 || r == 12 || r == 16
    ensures t !in {"VSDT_FLOAT2", "VSDT_FLOAT3", "VSDT_FLOAT4", "VSDT_SHORT4"} ==> r == 4
  {
    match t
    case "VSDT_FLOAT1" => 4
    case "VSDT_FLOAT2" => 8
    case "VSDT_FLOAT3" => 12
    case "VSDT_FLOAT4" => 16
    case "VSDT_D3DCOLOR" => 4
    case "VSDT_UBYTE4" => 4
    case "VSDT_SHORT2" => 4
    case "VSDT_SHORT4" => 8
    case _ => 4
  }

  datatype VertexElement = VertexElement(stream: nat, typeName: string, size: nat, offset: nat)

  datatype Definition = Definition(elements: seq<VertexElement>, totalSize: nat)

  /** The stream selected last, 0 before any. */
  function StreamAfter(evs: seq<Event>): nat
    decreases |evs|
  {
    if evs == [] then 0
    else match evs[|evs| - 1]
      case SetStream(n) => n
      case _ => StreamAfter(evs[..|evs| - 1])
  }

  /** The running offset: grown by each element's size, back to 0 when a
      stream other than 0 is selected. */
  function OffsetAfter(evs: seq<Event>): nat
    decreases |evs|
  {
    if evs == [] then 0
    else
      var prev := OffsetAfter(evs[..|evs| - 1]);
      match evs[|evs| - 1]
      case SetStream(n) => if n > 0 then 0 else prev
      case AddElement(t) => prev + TypeSize(t)
      case NoEvent => prev
  }

  /** The elements in file order, each tagged with the stream selected at
      that point and placed at the running offset. */
  function ElementsOf(evs: seq<Event>): seq<VertexElement>
    decreases |evs|
  {
    if evs == [] then []
    else
      var pre := evs[..|evs| - 1];
      match evs[|evs| - 1]
      case AddElement(t) => ElementsOf(pre) + [VertexElement(StreamAfter(pre), t, TypeSize(t), OffsetAfter(pre))]
      case _ => ElementsOf(pre)
  }

  /** The sizes of all elements among `evs`. */
  function SizeSum(evs: seq<Event>): nat
    decreases |evs|
  {
    if evs == [] then 0
    else SizeSum(evs[..|evs| - 1]) + (if evs[|evs| - 1].AddElement? then TypeSize(evs[|evs| - 1].typeName) else 0)
  }

  /** The position just after the last selection of a stream other than 0,
      or 0 when there is none. */
  function ResetEnd(evs: seq<Event>): (r: nat)
    ensures r <= |evs|
    decreases |evs|
  {
    if evs == [] then 0
    else if evs[|evs| - 1].SetStream? && evs[|evs| - 1].n > 0 then |evs|
    else ResetEnd(evs[..|evs| - 1])
  }

  /** The running offset is the size of the elements since the last
      selection of a stream other than 0; selecting stream 0 does not reset
      it. */
  lemma {:induction false} OffsetSinceReset(evs: seq<Event>)
    ensures OffsetAfter(evs) == SizeSum(evs[ResetEnd(evs)..])
    decreases |evs|
  {
    if evs != [] {
      var pre := evs[..|evs| - 1];
      var e := evs[|evs| - 1];
      OffsetSinceReset(pre);
      if !(e.SetStream? && e.n > 0) {
        var r := ResetEnd(pre);
        assert evs[r..][..|evs[r..]| - 1] == pre[r..];
        assert evs[r..][|evs[r..]| - 1] == e;
      }
    }
  }

  /** Each element starts where the one before it ends, unless a stream other
      than 0 was selected between them, in which case it starts at 0; the
      first element starts at 0. The running offset likewise is the end of
      the last element or 0. */
  lemma {:induction false} ElementsPacked(evs: seq<Event>)
    ensures var els := ElementsOf(evs);
            (els == [] ==> OffsetAfter(evs) == 0) &&
            (els != [] ==> OffsetAfter(evs) == 0 ||
                           OffsetAfter(evs) == els[|els| - 1].offset + els[|els| - 1].size)
    ensures var els := ElementsOf(evs);
            (els != [] ==> els[0].offset == 0) &&
            forall j :: 0 < j < |els| ==>
              els[j].offset == 0 || els[j].offset == els[j - 1].offset + els[j - 1].size
    decreases |evs|
  {
    if evs != [] {
      var pre := evs[..|evs| - 1];
      ElementsPacked(pre);
      var before := ElementsOf(pre);
      match evs[|evs| - 1]
      case AddElement(t) =>
        var els := ElementsOf(evs);
        assert els == before + [VertexElement(StreamAfter(pre), t, TypeSize(t), OffsetAfter(pre))];
        assert forall j :: 0 <= j < |before| ==> els[j] == before[j];
      case SetStream(n) =>
      case NoEvent =>
    }
  }

  /** `LoadVFD`: the elements in file order at their running offsets, and a
      total size that counts only the elements since the last selection of a
      stream other than 0, not the whole vertex. */
  method LoadVfd(lines: seq<VfdLine>) returns (vf: Definition)
    ensures vf.elements == ElementsOf(Events(lines))
    ensures vf.totalSize == SizeSum(Events(lines)[ResetEnd(Events(lines))..])
  {
    var evs := Events(lines);
    var elements: seq<VertexElement> := [];
    var stream: nat := 0;
    var offset: nat := 0;
    for k := 0 to |lines|
      invariant elements == ElementsOf(evs[..k])
      invariant stream == StreamAfter(evs[..k])
      invariant offset == OffsetAfter(evs[..k])
    {
      assert evs[..k + 1][..k] == evs[..k];
      assert evs[..k + 1][k] == EventOf(lines[k]);
      var trimmed := lines[k].trimmed;
      if VfdSkipped(trimmed) {
        continue;
      }
      if lines[k].stream.Some? {
        stream := lines[k].stream.value;
        if stream > 0 {
          offset := 0;
        }
        continue;
      }
      if lines[k].reg.Some? {
        var t := lines[k].reg.value;
        var size := TypeSize(t);
        elements := elements + [VertexElement(stream, t, size, offset)];
        offset := offset + size;
      }
    }
    assert evs[..|lines|] == evs;
    OffsetSinceReset(evs);
    vf := Definition(elements, offset);
  }

  /** Selecting stream 0 after an element does not reset the offset, while
      selecting stream 1 does; the total size then counts only stream 1. */
  lemma StreamExamples()
    ensures ElementsOf([AddElement("VSDT_FLOAT3"), SetStream(0), AddElement("VSDT_FLOAT2")]) ==
            [VertexElement(0, "VSDT_FLOAT3", 12, 0), VertexElement(0, "VSDT_FLOAT2", 8, 12)]
    ensures ElementsOf([AddElement("VSDT_FLOAT3"), SetStream(1), AddElement("VSDT_FLOAT2")]) ==
            [VertexElement(0, "VSDT_FLOAT3", 12, 0), VertexElement(1, "VSDT_FLOAT2", 8, 0)]
    ensures OffsetAfter([AddElement("VSDT_FLOAT3"), SetStream(1), AddElement("VSDT_FLOAT2")]) == 8
  {
    var e := [AddElement("VSDT_FLOAT3")];
    assert e[..0] == [];
    var a := [AddElement("VSDT_FLOAT3"), SetStream(0), AddElement("VSDT_FLOAT2")];
    var b := [AddElement("VSDT_FLOAT3"), SetStream(1), AddElement("VSDT_FLOAT2")];
    var e0 := VertexElement(0, "VSDT_FLOAT3", 12, 0);
    assert ElementsOf(e) == [e0] && OffsetAfter(e) == 12 && StreamAfter(e) == 0;
    assert a[..2] == e + [SetStream(0)] && (e + [SetStream(0)])[..1] == e;
    assert ElementsOf(a[..2]) == [e0] && OffsetAfter(a[..2]) == 12 && StreamAfter(a[..2]) == 0;
    assert b[..2] == e + [SetStream(1)] && (e + [SetStream(1)])[..1] == e;
    assert ElementsOf(b[..2]) == [e0] && OffsetAfter(b[..2]) == 0 && StreamAfter(b[..2]) == 1;
  }
}
