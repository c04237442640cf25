/** The pure and straight-line helpers of ModPackager's `FileSystemExtensions`:
    `LockStep`, `NameWithoutExtension`, `IsDuplicate` and the path rebasing used
    when a directory tree is copied or moved. */
module FileSystemExtensions {
  import Paths

  newtype byte = x: int | 0 <= x < 256

  /** Runs `action` on index-aligned pairs until either sequence is exhausted.
      The calls the action receives are returned, in order. */
  method LockStep<T>(first: seq<T>, second: seq<T>) returns (calls: seq<(T, T)>)
    ensures |calls| == if |first| <= |second| then |first| else |second|
    ensures forall i :: 0 <= i < |calls| ==> calls[i] == (first[i], second[i])
  {
    calls := [];
    var i := 0;
    while i < |first| && i < |second|
      invariant 0 <= i <= |first| && i <= |second|
      invariant |calls| == i
      invariant forall k :: 0 <= k < i ==> calls[k] == (first[k], second[k])
    {
      calls := calls + [(first[i], second[i])];
      i := i + 1;
    }
  }

  /** `Path.GetFileNameWithoutExtension(fullName)`: the file name without its last extension. */
  function NameWithoutExtension(fullName: string): (stem: string)
    ensures Paths.Separator !in stem
    ensures Paths.Extension(fullName) == [] ==> stem == Paths.FileName(fullName)
    ensures Paths.Extension(fullName) != [] ==> Paths.FileName(fullName) == stem + Paths.Extension(fullName)
  {
    var name := Paths.FileName(fullName);
    var i := Paths.LastIndexOf(name, '.');
    if i < 0 then name else name[..i]
  }

  /** Only the last extension goes: the stem of `dir/stem.x` is `stem`, dots and all. */
  lemma NameWithoutExtensionDropsLastExtension(dir: string, stem: string, x: string)
    requires Paths.Separator !in stem && Paths.Separator !in x && '.' !in x
    ensures NameWithoutExtension(Paths.Combine(dir, stem + "." + x)) == stem
  {
    Paths.ExtensionOfCombine(dir, stem, x);
    Paths.CombineSplits(dir, stem + "." + x);
  }

  /** For instance "a.b.dll" keeps its inner dot. */
  lemma NameWithoutExtensionExample(dir: string)
    ensures NameWithoutExtension(Paths.Combine(dir, "a.b.dll")) == "a.b"
  {
    assert "a.b" + "." + "dll" == "a.b.dll";
    NameWithoutExtensionDropsLastExtension(dir, "a.b", "dll");
  }

  /** A full path with a separator and an extension is `Combine(dir, stem + extension)`. */
  lemma PathFromParts(fullName: string)
    requires Paths.Separator in fullName
    ensures fullName == Paths.Combine(Paths.DirectoryName(fullName), NameWithoutExtension(fullName) + Paths.Extension(fullName))
  {
    Paths.SplitCombines(fullName);
  }

  /** `IsDuplicate`: the files are read from `files` (path to contents); `sha256` is the hash. */
  function IsDuplicate(files: map<string, seq<byte>>, file: string, otherFile: string,
                       sha256: seq<byte> -> seq<byte>): (duplicate: bool)
    ensures file !in files || otherFile !in files ==> !duplicate
    ensures file in files && otherFile in files && |files[file]| != |files[otherFile]| ==> !duplicate
    ensures duplicate ==> sha256(files[file]) == sha256(files[otherFile])
    ensures (file in files && otherFile in files && |files[file]| == |files[otherFile]|
             && sha256(files[file]) == sha256(files[otherFile])) ==> duplicate
  {
    if file !in files || otherFile !in files then false
    else if |files[file]| != |files[otherFile]| then false
    else sha256(files[file]) == sha256(files[otherFile])
  }

  lemma IsDuplicateSymmetric(files: map<string, seq<byte>>, a: string, b: string, sha256: seq<byte> -> seq<byte>)
    ensures IsDuplicate(files, a, b, sha256) == IsDuplicate(files, b, a, sha256)
  {
  }

  /** Two existing files with the same contents are duplicates, whatever the hash. */
  lemma SameContentsAreDuplicates(files: map<string, seq<byte>>, a: string, b: string, sha256: seq<byte> -> seq<byte>)
    requires a in files && b in files && files[a] == files[b]
    ensures IsDuplicate(files, a, b, sha256)
  {
  }

  /** With a collision-free hash, `IsDuplicate` holds exactly for existing files with equal contents. */
  lemma IsDuplicateExactWithInjectiveHash(files: map<string, seq<byte>>, a: string, b: string, sha256: seq<byte> -> seq<byte>)
    requires forall x, y :: sha256(x) == sha256(y) ==> x == y
    ensures IsDuplicate(files, a, b, sha256) <==> a in files && b in files && files[a] == files[b]
  {
  }

  /** The target of a copied or moved entry: `destPath` followed by the entry's path below `srcRoot`.
      The entries come from enumerating `srcRoot`, so `srcRoot` is never longer than them. */
  function RebasedTarget(srcRoot: string, destPath: string, srcFullName: string): (target: string)
    requires |srcRoot| <= |srcFullName|
    ensures destPath <= target
    ensures srcRoot <= srcFullName ==> srcRoot + target[|destPath|..] == srcFullName
  {
    var target := destPath + srcFullName[|srcRoot|..];
    assert target[|destPath|..] == srcFullName[|srcRoot|..];
    target
  }

  /** Rebasing maps `srcRoot + rel` to `destPath + rel`, and rebasing back restores the source. */
  lemma RebaseRoundTrip(srcRoot: string, destPath: string, rel: string)
    ensures RebasedTarget(srcRoot, destPath, srcRoot + rel) == destPath + rel
    ensures RebasedTarget(destPath, srcRoot, RebasedTarget(srcRoot, destPath, srcRoot + rel)) == srcRoot + rel
  {
    assert (srcRoot + rel)[|srcRoot|..] == rel;
    assert (destPath + rel)[|destPath|..] == rel;
  }
}
