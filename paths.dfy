/**
 * The parts of `System.IO.Path` the tools use, for Windows paths:
 * `GetFileName`, `GetFileNameWithoutExtension` and `Combine`.
 */
module Paths {
  import opened Values

  /** `Path.DirectorySeparatorChar` and `Path.AltDirectorySeparatorChar` on Windows. */
  predicate IsSeparator(c: char) {
    c == '\\' || c == '/'
  }

  /** The length of the root of a drive-relative path (`C:`): 2, or 0 when there is none. */
  function DriveLength(path: string): (n: nat)
    ensures n <= |path|
    ensures n == 2 <==> |path| >= 2 && path[1] == ':' && ('A' <= path[0] <= 'Z' || 'a' <= path[0] <= 'z')
    ensures n == 0 || n == 2
  {
    if |path| >= 2 && path[1] == ':' && ('A' <= path[0] <= 'Z' || 'a' <= path[0] <= 'z') then 2 else 0
  }

  /** What follows the last directory separator of `s`. */
  function AfterLastSeparator(s: string): (name: string)
    ensures |name| <= |s| && name == s[|s| - |name|..]
    ensures forall i :: 0 <= i < |name| ==> !IsSeparator(name[i])
    ensures |name| < |s| ==> IsSeparator(s[|s| - |name| - 1])
  {
    if s == [] || IsSeparator(s[|s| - 1]) then ""
    else
      var name := AfterLastSeparator(s[..|s| - 1]) + [s[|s| - 1]];
      assert name[..|name| - 1] == AfterLastSeparator(s[..|s| - 1]);
      name
  }

  /**
   * `Path.GetFileName`: what follows the last directory separator, and never
   * the drive designator of the path's root.
   */
  function GetFileName(path: string): (name: string)
    ensures |name| <= |path| - DriveLength(path) && name == path[|path| - |name|..]
    ensures forall i :: 0 <= i < |name| ==> !IsSeparator(name[i])
    ensures |name| < |path| - DriveLength(path) ==> IsSeparator(path[|path| - |name| - 1])
  {
    var rest := path[DriveLength(path)..];
    var name := AfterLastSeparator(rest);
    assert rest[|rest| - |name|..] == path[|path| - |name|..];
    assert |name| < |rest| ==> rest[|rest| - |name| - 1] == path[|path| - |name| - 1];
    name
  }

  /** A drive-relative path names the file after its drive: "C:report.pdf" is "report.pdf". */
  lemma DriveRelativeName()
    ensures GetFileName("C:report.pdf") == "report.pdf"
  {
    assert DriveLength("C:report.pdf") == 2;
    assert "C:report.pdf"[2..] == "report.pdf";
  }

  /** Index of the last '.' in `s`, if any. */
  function LastDot(s: string): (k: Option<nat>)
    ensures k.Some? ==> k.value < |s| && s[k.value] == '.'
    ensures k.Some? ==> forall i :: k.value < i < |s| ==> s[i] != '.'
    ensures k.None? ==> '.' !in s
  {
    if s == [] then None
    else if s[|s| - 1] == '.' then Some(|s| - 1)
    else
      var k := LastDot(s[..|s| - 1]);
      assert k.None? ==> forall i :: 0 <= i < |s| ==> s[i] != '.' by {
        if k.None? {
          forall i | 0 <= i < |s| ensures s[i] != '.' {
            if i < |s| - 1 { assert s[i] == s[..|s| - 1][i]; }
          }
        }
      }
      k
  }

  /** `Path.GetFileNameWithoutExtension`: the file name up to (not including) its last '.'. */
  function GetFileNameWithoutExtension(path: string): (base: string)
    ensures var name := GetFileName(path);
      |base| <= |name| && base == name[..|base|]
      && ('.' !in name ==> base == name)
      && ('.' in name ==>
            |base| < |name| && name[|base|] == '.'
            && forall i :: |base| < i < |name| ==> name[i] != '.')
  {
    var name := GetFileName(path);
    match LastDot(name)
    case None => name
    case Some(k) => name[..k]
  }

  /**
   * `Path.IsPathRooted` on Windows: the path starts with a directory
   * separator, or with a drive designator (an ASCII letter and ':').
   */
  predicate IsRooted(path: string) {
    (path != [] && IsSeparator(path[0])) || DriveLength(path) == 2
  }

  /**
   * `Path.Combine(dir, name)`: a rooted `name` replaces `dir`; an empty
   * side gives the other; otherwise `name` follows `dir`, with a separator
   * inserted unless `dir` already ends with one.
   */
  function Combine(dir: string, name: string): (path: string)
    ensures IsRooted(name) || dir == [] ==> path == name
    ensures name == [] ==> path == dir
    ensures !IsRooted(name) && dir != [] && name != [] ==>
      |dir| + |name| <= |path| <= |dir| + |name| + 1
      && path[..|dir|] == dir && path[|path| - |name|..] == name
      && IsSeparator(path[|path| - |name| - 1])
  {
    if IsRooted(name) then name
    else if dir == [] then name
    else if name == [] then dir
    else if IsSeparator(dir[|dir| - 1]) then dir + name
    else dir + ['\\'] + name
  }

  /**
   * Under one directory, different names give different paths, as long as
   * both are rooted or both are not: a rooted name may coincide with a
   * path under the directory.
   */
  lemma CombineInjective(dir: string, a: string, b: string)
    requires IsRooted(a) <==> IsRooted(b)
    requires Combine(dir, a) == Combine(dir, b)
    ensures a == b
  {
    if !IsRooted(a) && dir != [] {
      if a == [] || b == [] {
        assert |Combine(dir, a)| == |dir| + |a| || |Combine(dir, a)| == |dir| + |a| + 1;
      } else {
        var p := Combine(dir, a);
        assert |p| - |a| == |p| - |b| by {
          if IsSeparator(dir[|dir| - 1]) {
            assert |p| == |dir| + |a| && |p| == |dir| + |b|;
          } else {
            assert |p| == |dir| + |a| + 1 && |p| == |dir| + |b| + 1;
          }
        }
      }
    }
  }

  /** Names that share a prefix and then continue with '_' are rooted exactly together. */
  lemma RootedTogether(p: string, a: string, b: string)
    requires a != [] && b != [] && a[0] == '_' && b[0] == '_'
    ensures IsRooted(p + a) <==> IsRooted(p + b)
  {
    if |p| < 2 {
      assert (p + a)[..|p| + 1] == (p + b)[..|p| + 1];
    } else {
      assert (p + a)[..2] == p[..2] == (p + b)[..2];
    }
  }

  /** A name that starts with a drive designator escapes the directory: "a:s.pdf" under `C:\out` stays "a:s.pdf". */
  lemma RootedNameEscapes()
    ensures Combine("C:\\out", "a:s.pdf") == "a:s.pdf"
  {
    assert DriveLength("a:s.pdf") == 2;
  }
}
