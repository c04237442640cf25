/** The slice of `System.IO.Path` and `FileSystemInfo` the core relies on.
    `Path.Combine` is modelled as an injective join with one separator. */
module Paths {

  const Separator: char := '/'

  /** `Path.Combine(dir, name)`. */
  function Combine(dir: string, name: string): string
  {
    dir + [Separator] + name
  }

  /** The index of the last `c` in `s`, or -1 when `s` has none. */
  function LastIndexOf(s: string, c: char): (i: int)
    ensures -1 <= i < |s|
    ensures i >= 0 ==> s[i] == c
    ensures forall k :: i < k < |s| ==> s[k] != c
  {
    if s == [] then -1
    else if s[|s| - 1] == c then |s| - 1
    else LastIndexOf(s[..|s| - 1], c)
  }

  /** `Path.GetDirectoryName`: everything before the last separator. */
  function DirectoryName(path: string): string
  {
    var i := LastIndexOf(path, Separator);
    if i < 0 then "" else path[..i]
  }

  /** `Path.GetFileName`: everything after the last separator. */
  function FileName(path: string): (name: string)
    ensures Separator !in name
  {
    path[LastIndexOf(path, Separator) + 1..]
  }

  /** `FileSystemInfo.Extension`: the file name from its last '.' on, or "" when it has none. */
  function Extension(path: string): (ext: string)
    ensures ext == [] || ext[0] == '.'
    ensures ext == [] <==> '.' !in FileName(path)
    ensures ext != [] ==>
      && '.' !in ext[1..]
      && |ext| <= |FileName(path)|
      && FileName(path)[|FileName(path)| - |ext|..] == ext
  {
    var name := FileName(path);
    var i := LastIndexOf(name, '.');
    if i < 0 then "" else name[i..]
  }

  /** The last occurrence of `c` in `a + [c] + b` is the one between them when `b` has none. */
  lemma {:induction false} LastIndexOfJoin(a: string, c: char, b: string)
    requires c !in b
    ensures LastIndexOf(a + [c] + b, c) == |a|
  {
    if b != [] {
      var s := a + [c] + b;
      assert s[|s| - 1] == b[|b| - 1];
      assert s[..|s| - 1] == a + [c] + b[..|b| - 1];
      LastIndexOfJoin(a, c, b[..|b| - 1]);
    }
  }

  /** A path built by `Combine` splits back into its directory and file name. */
  lemma CombineSplits(dir: string, name: string)
    requires Separator !in name
    ensures DirectoryName(Combine(dir, name)) == dir
    ensures FileName(Combine(dir, name)) == name
  {
    LastIndexOfJoin(dir, Separator, name);
    assert Combine(dir, name)[..|dir|] == dir;
    assert Combine(dir, name)[|dir| + 1..] == name;
  }

  /** A path that holds a separator is the `Combine` of its directory and file name. */
  lemma SplitCombines(path: string)
    requires Separator in path
    ensures path == Combine(DirectoryName(path), FileName(path))
  {
    var i := LastIndexOf(path, Separator);
    var k :| 0 <= k < |path| && path[k] == Separator;
    assert i >= k;
    assert path == path[..i] + [Separator] + path[i + 1..];
  }

  /** The extension of `dir/stem.x` is `.x` when `x` holds no '.'. */
  lemma ExtensionOfCombine(dir: string, stem: string, x: string)
    requires Separator !in stem && Separator !in x && '.' !in x
    ensures Extension(Combine(dir, stem + "." + x)) == "." + x
  {
    assert Separator !in stem + "." + x;
    CombineSplits(dir, stem + "." + x);
    LastIndexOfJoin(stem, '.', x);
    assert stem + "." + x == stem + ['.'] + x;
  }
}
