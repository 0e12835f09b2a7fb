/** The parts of `System.IO.Path` the exporters use, over plain strings, with
    both `\` and `/` as directory separators. */
module Paths {
  import opened Wrappers

  predicate IsSeparator(c: char) {
    c == '\\' || c == '/'
  }

  predicate HasNo(s: string, c: char) {
    forall i :: 0 <= i < |s| ==> s[i] != c
  }

  predicate HasNoSeparator(s: string) {
    forall i :: 0 <= i < |s| ==> !IsSeparator(s[i])
  }

  /** The last position holding a separator. */
  function LastSeparator(s: string): (r: Option<nat>)
    ensures r.Some? ==> r.value < |s| && IsSeparator(s[r.value]) &&
                        forall j :: r.value < j < |s| ==> !IsSeparator(s[j])
    ensures r.None? <==> HasNoSeparator(s)
    decreases |s|
  {
    if s == [] then None
    else if IsSeparator(s[|s| - 1]) then Some(|s| - 1)
    else
      var r := LastSeparator(s[..|s| - 1]);
      assert forall j :: 0 <= j < |s| - 1 ==> s[..|s| - 1][j] == s[j];
      r
  }

  /** The last position holding `c`. */
  function LastIndexOf(s: string, c: char): (r: Option<nat>)
    ensures r.Some? ==> r.value < |s| && s[r.value] == c &&
                        forall j :: r.value < j < |s| ==> s[j] != c
    ensures r.None? <==> HasNo(s, c)
    decreases |s|
  {
    if s == [] then None
    else if s[|s| - 1] == c then Some(|s| - 1)
    else
      var r := LastIndexOf(s[..|s| - 1], c);
      assert forall j :: 0 <= j < |s| - 1 ==> s[..|s| - 1][j] == s[j];
      r
  }

  /** `Path.GetFileName`: what follows the last separator. */
  function FileName(path: string): (r: string)
    ensures HasNoSeparator(r)
    ensures |r| <= |path| && path[|path| - |r|..] == r
    ensures |r| < |path| ==> IsSeparator(path[|path| - |r| - 1])
  {
    match LastSeparator(path)
    case None => path
    case Some(i) => path[i + 1..]
  }

  /** Everything before the file name, separator included. */
  function Directory(path: string): string {
    path[..|path| - |FileName(path)|]
  }

  /** A path is its directory part followed by its file name. */
  lemma SplitPath(path: string)
    ensures path == Directory(path) + FileName(path)
    ensures Directory(path) == [] || IsSeparator(Directory(path)[|Directory(path)| - 1])
  {
  }

  /** Putting a name without separators after a directory part gives the
      name back as the file name. */
  lemma FileNameOfJoin(dir: string, name: string)
    requires dir == [] || IsSeparator(dir[|dir| - 1])
    requires HasNoSeparator(name)
    ensures FileName(dir + name) == name
    ensures Directory(dir + name) == dir
  {
    var p := dir + name;
    assert forall j :: |dir| <= j < |p| ==> p[j] == name[j - |dir|];
    if dir != [] {
      assert p[|dir| - 1] == dir[|dir| - 1];
    }
  }

  /** `Path.GetFileNameWithoutExtension`: the file name up to its last dot. */
  function FileStem(path: string): (r: string)
    ensures HasNoSeparator(r)
    ensures var n := FileName(path); |r| <= |n| && r == n[..|r|]
    ensures var n := FileName(path); |r| < |n| ==> n[|r|] == '.' && HasNo(n[|r| + 1..], '.')
    ensures var n := FileName(path); |r| == |n| ==> HasNo(n, '.')
  {
    var n := FileName(path);
    match LastIndexOf(n, '.')
    case None => n
    case Some(d) => n[..d]
  }

  /** `Path.GetExtension`: from the last dot of the file name on, or nothing
      when there is no dot or the dot ends the name. */
  function Extension(path: string): (r: string)
    ensures var n := FileName(path); |r| <= |n| && r == n[|n| - |r|..]
    ensures r == [] || (|r| >= 2 && r[0] == '.' && HasNo(r[1..], '.'))
  {
    var n := FileName(path);
    match LastIndexOf(n, '.')
    case None => ""
    case Some(d) =>
      if d == |n| - 1 then ""
      else
        var r := n[d..];
        assert |n| - |r| == d;
        assert HasNo(r[1..], '.') by {
          forall j | 0 <= j < |r| - 1 ensures r[1..][j] != '.' {
            assert r[1..][j] == n[d + 1 + j];
          }
        }
        r
  }

  /** `Path.ChangeExtension(path, ext)` for an extension starting with a dot:
      the part before the file name's last dot (all of it when there is no
      dot), then `ext`; an empty path stays empty. */
  function ChangeExtension(path: string, ext: string): (r: string)
    requires |ext| > 0 && ext[0] == '.'
    ensures path != [] ==> r == Directory(path) + FileStem(path) + ext
  {
    if path == [] then path
    else
      var n := FileName(path);
      var dir := path[..|path| - |n|];
      match LastIndexOf(n, '.')
      case None =>
        assert path == dir + n;
        path + ext
      case Some(d) => dir + n[..d] + ext
  }

  lemma LastDotOfAppendedExtension(stem: string, ext: string)
    requires |ext| > 0 && ext[0] == '.' && HasNo(ext[1..], '.')
    ensures LastIndexOf(stem + ext, '.') == Some(|stem|)
  {
    var p := stem + ext;
    assert p[|stem|] == '.';
    forall j | |stem| < j < |p| ensures p[j] != '.' {
      assert p[j] == ext[1..][j - |stem| - 1];
    }
  }

  /** Appending an extension to a stem without separators gives the stem
      back. */
  lemma StemOfAppendedExtension(stem: string, ext: string)
    requires HasNoSeparator(stem)
    requires |ext| > 0 && ext[0] == '.' && HasNoSeparator(ext) && HasNo(ext[1..], '.')
    ensures FileStem(stem + ext) == stem
  {
    var p := stem + ext;
    assert HasNoSeparator(p) by {
      forall j | 0 <= j < |p| ensures !IsSeparator(p[j]) {
        if j >= |stem| {
          assert p[j] == ext[j - |stem|];
        }
      }
    }
    assert FileName(p) == p;
    LastDotOfAppendedExtension(stem, ext);
    assert p[..|stem|] == stem;
  }
}
