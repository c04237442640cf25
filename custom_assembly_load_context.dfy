/** ModPackager's `CustomAssemblyLoadContext2`: an ordered list of directories,
    probed in list order with `.dll` before `.exe` in each, and no cache. */
module CustomAssemblyLoadContext {
  import opened Wrappers
  import opened Exceptions
  import Paths
  import FileSystemExtensions
  import opened Probing
  import opened AssemblyNames

  /** No directory appears twice. */
  ghost predicate NoDuplicates(paths: seq<string>)
  {
    forall i, j :: 0 <= i < j < |paths| ==> paths[i] != paths[j]
  }

  /** Appending a directory the list lacks keeps it free of duplicates. */
  lemma AppendAbsentKeepsNoDuplicates(paths: seq<string>, dir: string)
    requires NoDuplicates(paths) && dir !in paths
    ensures NoDuplicates(paths + [dir])
  {
    var after := paths + [dir];
    forall i, j | 0 <= i < j < |after| ensures after[i] != after[j] {
      if j == |paths| { assert after[i] == paths[i]; }
    }
  }

  /** One iteration of `TryLoad`'s loop over `dirs[i]`: its `.dll`, else its `.exe`, else the
      search goes on with the next directory. */
  lemma ProbeIteration(dirs: seq<string>, i: nat, name: string, existing: set<string>)
    requires i < |dirs|
    ensures var assemblyPath := Paths.Combine(dirs[i], name);
      ProbeDirectories(dirs[i..], name, DllThenExe, existing) ==
        if assemblyPath + ".dll" in existing then Some(assemblyPath + ".dll")
        else if assemblyPath + ".exe" in existing then Some(assemblyPath + ".exe")
        else ProbeDirectories(dirs[i + 1..], name, DllThenExe, existing)
  {
    DllBeforeExe(dirs[i], name, existing);
    ProbeStep(dirs, i, name, DllThenExe, existing);
    CandidateFileSuffix(dirs[i], name, ".dll");
    CandidateFileSuffix(dirs[i], name, ".exe");
  }

  class CustomAssemblyLoadContext2 {
    /** `_resolvePaths`. */
    var resolvePaths: seq<string>

    /** The working directory, then the Vintage Story install. */
    constructor(currentDirectory: string, vintageStoryPath: string)
      ensures resolvePaths == [currentDirectory, vintageStoryPath]
    {
      resolvePaths := [currentDirectory, vintageStoryPath];
    }

    /** The first directory in list order that holds `name.dll` or `name.exe` supplies the
        module, its `.dll` preferred; null when no directory holds either. */
    method TryLoad(name: string, existing: set<string>) returns (r: Option<Assembly>)
      ensures r == LoadFound(ProbeDirectories(resolvePaths, name, DllThenExe, existing))
      ensures r.None? <==> forall i :: 0 <= i < |resolvePaths| ==>
                CandidateFile(resolvePaths[i], name, ".dll") !in existing && CandidateFile(resolvePaths[i], name, ".exe") !in existing
    {
      NothingFoundWithoutDllOrExe(resolvePaths, name, existing);
      r := ProbeLoop(resolvePaths, name, existing);
    }

    /** The `foreach` of `TryLoad`, over the list it was handed. */
    static method ProbeLoop(paths: seq<string>, name: string, existing: set<string>) returns (r: Option<Assembly>)
      ensures r == LoadFound(ProbeDirectories(paths, name, DllThenExe, existing))
    {
      ghost var found := ProbeDirectories(paths, name, DllThenExe, existing);
      var i := 0;
      assert paths[0..] == paths;
      while i < |paths|
        invariant 0 <= i <= |paths|
        invariant ProbeDirectories(paths[i..], name, DllThenExe, existing) == found
      {
        var assemblyPath := Paths.Combine(paths[i], name);
        ProbeIteration(paths, i, name, existing);
        if assemblyPath + ".dll" in existing {
          return Some(Assembly(assemblyPath + ".dll"));
        }
        if assemblyPath + ".exe" in existing {
          return Some(Assembly(assemblyPath + ".exe"));
        }
        i := i + 1;
      }
      assert paths[i..] == [];
      return None;
    }

    /** Appends the file's directory at the end unless the list has it, parses the file's
        stem as a display name, then probes for that name. The directory is appended even
        when the parse throws. An earlier directory holding the name wins over the file
        itself, and an existing `.dll` or `.exe` whose stem is a plain name is always found. */
    method LoadAssemblyFromFileInfo(fullName: string, existing: set<string>) returns (r: Result<Option<Assembly>, Exception>)
      modifies this
      ensures resolvePaths == if Paths.DirectoryName(fullName) in old(resolvePaths) then old(resolvePaths)
                              else old(resolvePaths) + [Paths.DirectoryName(fullName)]
      ensures NoDuplicates(old(resolvePaths)) ==> NoDuplicates(resolvePaths)
      ensures var parsed := AssemblyNameOf(FileSystemExtensions.NameWithoutExtension(fullName));
        && (parsed.Failure? ==> r == Failure(parsed.error))
        && (parsed.Success? ==>
              && r == Success(LoadFound(ProbeDirectories(resolvePaths, parsed.value, DllThenExe, existing)))
              && (ProbeDirectories(old(resolvePaths), parsed.value, DllThenExe, existing).Some? ==>
                    r.value == LoadFound(ProbeDirectories(old(resolvePaths), parsed.value, DllThenExe, existing))))
      ensures (fullName in existing && Paths.Separator in fullName && Paths.Extension(fullName) in DllThenExe
               && PlainName(FileSystemExtensions.NameWithoutExtension(fullName))) ==> r.Success? && r.value.Some?
    {
      var dir := Paths.DirectoryName(fullName);
      ghost var before := resolvePaths;
      if dir !in resolvePaths {
        resolvePaths := resolvePaths + [dir];
        if NoDuplicates(before) {
          AppendAbsentKeepsNoDuplicates(before, dir);
        }
      }
      var stem := FileSystemExtensions.NameWithoutExtension(fullName);
      var parsed := AssemblyNameOf(stem);
      PlainNameParsesToItself(stem);
      if parsed.Failure? {
        return Failure(parsed.error);
      }
      var name := parsed.value;
      if dir !in before {
        ProbeAppendedLast(before, dir, name, DllThenExe, existing);
      }
      var loaded := TryLoad(name, existing);
      r := Success(loaded);
      if fullName in existing && Paths.Separator in fullName && Paths.Extension(fullName) in DllThenExe && PlainName(stem) {
        FileSystemExtensions.PathFromParts(fullName);
        assert dir in resolvePaths;
        FoundWhenPresent(resolvePaths, dir, name, Paths.Extension(fullName), existing);
      }
    }
  }
}
