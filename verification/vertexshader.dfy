/** The vertex-shader files (`VertexShaderReader`): the header split of a
    compiled .vso file and the line classification of a shader source. As in
    the vertex-format files, each source line arrives trimmed together with
    what the `#include` and `#define` searches found in it. */
module VertexShader {
  import opened Wrappers
  import opened Binary
  import opened Text
  import opened Defines

  // ---------------------------------------------------------------------------
  // Compiled shaders
  // ---------------------------------------------------------------------------

  datatype CompiledShader = CompiledShader(version: u16, bytecode: seq<byte>)

  /** `CompiledVertexShader.Load`: a little-endian version word, two bytes
      that are skipped, then the bytecode up to the end of the file. A file
      shorter than four bytes is rejected. */
  function LoadCompiled(bytes: seq<byte>): (r: Result<CompiledShader, Error>)
    ensures r.Failure? <==> |bytes| < 4
    ensures r.Failure? ==> r.error == FileTooSmall
    ensures r.Success? ==> |r.value.bytecode| == |bytes| - 4
  {
    if |bytes| < 4 then Failure(FileTooSmall)
    else Success(CompiledShader(U16Of(bytes[0], bytes[1]), bytes[4..]))
  }

  /** A file holding `s`, with `reserved` in the two skipped bytes. */
  function EncodeCompiled(s: CompiledShader, reserved: seq<byte>): (r: seq<byte>)
    requires |reserved| == 2
    ensures |r| == 4 + |s.bytecode|
  {
    LE16(s.version) + reserved + s.bytecode
  }

  /** Loading a written file gives the shader back, whatever the skipped
      bytes hold. */
  lemma CompiledRoundTrip(s: CompiledShader, reserved: seq<byte>)
    requires |reserved| == 2
    ensures LoadCompiled(EncodeCompiled(s, reserved)) == Success(s)
  {
    var bytes := EncodeCompiled(s, reserved);
    assert bytes[4..] == s.bytecode;
  }

  /** Every file of four bytes or more is the encoding of what it loads to,
      with its own bytes 2 and 3 as the skipped ones: the load keeps all but
      those two bytes. */
  lemma CompiledSplit(bytes: seq<byte>)
    requires |bytes| >= 4
    ensures LoadCompiled(bytes).Success?
    ensures EncodeCompiled(LoadCompiled(bytes).value, bytes[2..4]) == bytes
  {
    var s := LoadCompiled(bytes).value;
    var e := LE16(s.version);
    assert e[0] == bytes[0] && e[1] == bytes[1];
    assert EncodeCompiled(s, bytes[2..4]) == bytes[..2] + bytes[2..4] + bytes[4..];
  }

  /** `VersionString`: "vs." then the high byte and the low byte of the
      version word in decimal. */
  function ShaderVersionString(version: u16): (s: string)
    ensures |s| >= 6 && s[..3] == "vs."
    ensures DottedPair(s[3..], version / 256, version % 256)
  {
    var t := Decimal(version / 256) + "." + Decimal(version % 256);
    DottedDecimals(version / 256, version % 256);
    assert ("vs." + t)[3..] == t;
    "vs." + t
  }

  /** Two version words print the same exactly when they are equal. */
  lemma ShaderVersionStringInjective(v1: u16, v2: u16)
    ensures ShaderVersionString(v1) == ShaderVersionString(v2) <==> v1 == v2
  {
    if ShaderVersionString(v1) == ShaderVersionString(v2) {
      DottedPairUnique(ShaderVersionString(v1)[3..], v1 / 256, v1 % 256, v2 / 256, v2 % 256);
    }
  }


  // ---------------------------------------------------------------------------
  // Shader sources
  // ---------------------------------------------------------------------------

  /** A trimmed source line and what the `#include\s+"(.+)"` and
      `#define\s+(\w+)\s+(.+)` searches found in it. */
  datatype ShaderLine = ShaderLine(trimmed: string, includePath: Option<string>, define: Option<Define>)

  /** What a line is, tried in this order: blank, version, include, define,
      comment, instruction. */
  datatype LineKind = Blank | VersionLine | IncludeLine(path: string) | DefineLine(d: Define) | Comment | Instruction

  function Classify(l: ShaderLine): LineKind {
    if l.trimmed == "" then Blank
    else if StartsWith(l.trimmed, "vs.") then VersionLine
    else if l.includePath.Some? then IncludeLine(l.includePath.value)
    else if l.define.Some? then DefineLine(l.define.value)
    else if StartsWith(l.trimmed, ";") || StartsWith(l.trimmed, "//") then Comment
    else Instruction
  }

  datatype Shader = Shader(version: Option<string>, includes: seq<string>,
                           defines: map<string, string>, instructions: seq<string>)

  /** The text of the last version line, if there is one. */
  function LastVersion(lines: seq<ShaderLine>): (r: Option<string>)
    ensures r.None? <==> forall k :: 0 <= k < |lines| ==> Classify(lines[k]) != VersionLine
    ensures r.Some? ==> exists k :: 0 <= k < |lines| && Classify(lines[k]) == VersionLine &&
                          lines[k].trimmed == r.value &&
                          forall j :: k < j < |lines| ==> Classify(lines[j]) != VersionLine
    decreases |lines|
  {
    if lines == [] then None
    else
      var pre := lines[..|lines| - 1];
      assert forall k :: 0 <= k < |pre| ==> pre[k] == lines[k];
      if Classify(lines[|lines| - 1]) == VersionLine then Some(lines[|lines| - 1].trimmed)
      else LastVersion(pre)
  }

  /** The include paths in file order. */
  function IncludesOf(lines: seq<ShaderLine>): seq<string>
    decreases |lines|
  {
    if lines == [] then []
    else
      var pre := lines[..|lines| - 1];
      match Classify(lines[|lines| - 1])
      case IncludeLine(p) => IncludesOf(pre) + [p]
      case _ => IncludesOf(pre)
  }

  /** The definition a line contributes to the table. */
  function ShaderDefine(l: ShaderLine): Option<Define> {
    match Classify(l)
    case DefineLine(d) => Some(d)
    case _ => None
  }

  function ShaderDefines(lines: seq<ShaderLine>): (r: seq<Option<Define>>)
    ensures |r| == |lines|
  {
    seq(|lines|, i requires 0 <= i < |lines| => ShaderDefine(lines[i]))
  }

  /** The instruction lines' text in file order. */
  function InstructionsOf(lines: seq<ShaderLine>): seq<string>
    decreases |lines|
  {
    if lines == [] then []
    else
      var pre := lines[..|lines| - 1];
      if Classify(lines[|lines| - 1]) == Instruction then InstructionsOf(pre) + [lines[|lines| - 1].trimmed]
      else InstructionsOf(pre)
  }

  /** `VertexShader.Load`: the last version line, the includes in order, the
      defines with the last definition of each name winning, and the
      instruction lines in order. */
  method LoadShader(lines: seq<ShaderLine>) returns (vs: Shader)
    ensures vs.version == LastVersion(lines)
    ensures vs.includes == IncludesOf(lines)
    ensures LastWins(vs.defines, ShaderDefines(lines))
    ensures vs.instructions == InstructionsOf(lines)
  {
    var version: Option<string> := None;
    var includes: seq<string> := [];
    var defines: map<string, string> := map[];
    var instructions: seq<string> := [];
    var defs := ShaderDefines(lines);
    for k := 0 to |lines|
      invariant version == LastVersion(lines[..k])
      invariant includes == IncludesOf(lines[..k])
      invariant LastWins(defines, defs[..k])
      invariant instructions == InstructionsOf(lines[..k])
    {
      assert lines[..k + 1][..k] == lines[..k];
      assert lines[..k + 1][k] == lines[k];
      LastWinsStep(defines, defs[..k], ShaderDefine(lines[k]));
      assert defs[..k + 1] == defs[..k] + [ShaderDefine(lines[k])];
      var t := lines[k].trimmed;
      if t == "" {
        continue;
      }
      if StartsWith(t, "vs.") {
        version := Some(t);
        continue;
      }
      if lines[k].includePath.Some? {
        includes := includes + [lines[k].includePath.value];
        continue;
      }
      if lines[k].define.Some? {
        var d := lines[k].define.value;
        defines := defines[d.name := d.value];
        continue;
      }
      if !StartsWith(t, ";") && !StartsWith(t, "//") {
        instructions := instructions + [t];
      }
    }
    assert lines[..|lines|] == lines;
    assert defs[..|lines|] == defs;
    vs := Shader(version, includes, defines, instructions);
  }

  /** Text that is neither blank, nor a version line, nor a comment. */
  predicate PlainText(t: string) {
    t != "" && !StartsWith(t, "vs.") && !StartsWith(t, ";") && !StartsWith(t, "//")
  }

  /** Every instruction is the text of an instruction line, so it is never
      blank, never a version line and never a comment. */
  lemma {:induction false} InstructionsSound(lines: seq<ShaderLine>)
    ensures forall i :: 0 <= i < |InstructionsOf(lines)| ==>
              exists k :: 0 <= k < |lines| && Classify(lines[k]) == Instruction &&
                          lines[k].trimmed == InstructionsOf(lines)[i]
    ensures forall i :: 0 <= i < |InstructionsOf(lines)| ==> PlainText(InstructionsOf(lines)[i])
    decreases |lines|
  {
    if lines != [] {
      var pre := lines[..|lines| - 1];
      InstructionsSound(pre);
      var ins := InstructionsOf(lines);
      forall i | 0 <= i < |ins|
        ensures exists k :: 0 <= k < |lines| && Classify(lines[k]) == Instruction && lines[k].trimmed == ins[i]
      {
        if i < |InstructionsOf(pre)| {
          assert ins[i] == InstructionsOf(pre)[i];
          var k :| 0 <= k < |pre| && Classify(pre[k]) == Instruction && pre[k].trimmed == ins[i];
          assert lines[k] == pre[k];
        } else {
          assert Classify(lines[|lines| - 1]) == Instruction;
        }
      }
      assert forall i :: 0 <= i < |InstructionsOf(lines)| ==>
               exists k :: 0 <= k < |lines| && Classify(lines[k]) == Instruction &&
                           lines[k].trimmed == InstructionsOf(lines)[i];
    } else {
      assert InstructionsOf(lines) == [];
    }
    forall i | 0 <= i < |InstructionsOf(lines)|
      ensures PlainText(InstructionsOf(lines)[i])
    {
      var k :| 0 <= k < |lines| && Classify(lines[k]) == Instruction && lines[k].trimmed == InstructionsOf(lines)[i];
    }
  }

  /** Every instruction line's text is among the instructions. */
  lemma {:induction false} InstructionsComplete(lines: seq<ShaderLine>)
    ensures forall k :: 0 <= k < |lines| && Classify(lines[k]) == Instruction ==>
              lines[k].trimmed in InstructionsOf(lines)
    decreases |lines|
  {
    if lines != [] {
      var pre := lines[..|lines| - 1];
      InstructionsComplete(pre);
      forall k | 0 <= k < |lines| && Classify(lines[k]) == Instruction
        ensures lines[k].trimmed in InstructionsOf(lines)
      {
        if k < |pre| {
          assert pre[k] == lines[k];
        }
      }
    }
  }

  /** Every include comes from a line that is neither blank nor a version
      line, and every such line with an include contributes it. */
  lemma {:induction false} IncludesExact(lines: seq<ShaderLine>)
    ensures forall p :: p in IncludesOf(lines) <==>
              exists k :: 0 <= k < |lines| && Classify(lines[k]) == IncludeLine(p)
    decreases |lines|
  {
    if lines != [] {
      var pre := lines[..|lines| - 1];
      IncludesExact(pre);
      forall p
        ensures p in IncludesOf(lines) <==> exists k :: 0 <= k < |lines| && Classify(lines[k]) == IncludeLine(p)
      {
        if p in IncludesOf(pre) {
          var k :| 0 <= k < |pre| && Classify(pre[k]) == IncludeLine(p);
          assert lines[k] == pre[k];
        }
        if exists k :: 0 <= k < |lines| && Classify(lines[k]) == IncludeLine(p) {
          var k :| 0 <= k < |lines| && Classify(lines[k]) == IncludeLine(p);
          if k < |pre| {
            assert pre[k] == lines[k];
          }
        }
      }
    }
  }

  /** A version line is never read as an include, a definition or an
      instruction, even when the searches would match it. */
  lemma VersionLinesShadow(lines: seq<ShaderLine>, k: nat)
    requires k < |lines| && StartsWith(lines[k].trimmed, "vs.")
    ensures ShaderDefines(lines)[k] == None
    ensures lines[k].includePath.Some? ==> lines[k].includePath.value !in IncludesOf(lines[k..k + 1])
    ensures lines[k].trimmed !in InstructionsOf(lines[k..k + 1])
  {
    assert lines[k..k + 1][..0] == [];
  }
}
