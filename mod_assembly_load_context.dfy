/** ModPackager's `ModAssemblyLoadContext`: a per-context cache from module name
    to loaded module, and a bag of directories to probe. The bag is a
    `ConcurrentBag`, whose enumeration order the runtime chooses: the model keeps
    its contents as a multiset and takes the order of one enumeration as the
    parameter `order`, a permutation of the contents. */
module ModAssemblyLoadContext {
  import opened Wrappers
  import opened Exceptions
  import Paths
  import FileSystemExtensions
  import opened Probing
  import opened AssemblyNames

  /** The bag after `if (!bag.Contains(dir)) bag.Add(dir)`. */
  function WithDirectory(paths: multiset<string>, dir: string): (after: multiset<string>)
    ensures dir in after
    ensures forall d :: d != dir ==> after[d] == paths[d]
    ensures after[dir] == if paths[dir] == 0 then 1 else paths[dir]
  {
    if dir in paths then paths else paths + multiset{dir}
  }

  /** No directory appears twice. */
  ghost predicate NoDuplicates(paths: multiset<string>)
  {
    forall d :: paths[d] <= 1
  }

  /** Adding a directory through `WithDirectory` never creates a duplicate. */
  lemma WithDirectoryKeepsNoDuplicates(paths: multiset<string>, dir: string)
    requires NoDuplicates(paths)
    ensures NoDuplicates(WithDirectory(paths, dir))
  {
    var after := WithDirectory(paths, dir);
    forall d ensures after[d] <= 1 {
      if d != dir { assert after[d] == paths[d]; }
    }
  }

  /** Some directory of the bag holds `name.dll` or `name.exe`. */
  ghost predicate Resolvable(paths: multiset<string>, name: string, existing: set<string>)
  {
    exists d :: d in paths && ProbeDirectory(d, name, DllThenExe, existing).Some?
  }

  /** What `Load(name)` returns and leaves in the cache, given what probing would find. */
  ghost predicate LoadOutcome(before: map<string, Assembly>, name: string, probed: Option<Assembly>,
                              r: Option<Assembly>, after: map<string, Assembly>)
  {
    if name in before then r == Some(before[name]) && after == before
    else r == probed && after == (if probed.Some? then before[name := probed.value] else before)
  }

  /** A `.dll` or `.exe` that exists is found by its stem once its directory is in the bag. */
  lemma OwnDirectoryResolves(fullName: string, existing: set<string>, paths: multiset<string>)
    requires fullName in existing && Paths.Separator in fullName && Paths.Extension(fullName) in DllThenExe
    requires Paths.DirectoryName(fullName) in paths
    ensures Resolvable(paths, FileSystemExtensions.NameWithoutExtension(fullName), existing)
  {
    var dir := Paths.DirectoryName(fullName);
    var name := FileSystemExtensions.NameWithoutExtension(fullName);
    FileSystemExtensions.PathFromParts(fullName);
    assert CandidateFile(dir, name, Paths.Extension(fullName)) == fullName;
    DllBeforeExe(dir, name, existing);
  }

  class ModAssemblyLoadContext {
    /** `_resolvePaths`. */
    var resolvePaths: multiset<string>
    /** `_assemblyCache`. */
    var assemblyCache: map<string, Assembly>

    /** The working directory, the Vintage Story install and its `Mods` and `Lib` folders. */
    constructor(currentDirectory: string, vintageStoryPath: string)
      ensures resolvePaths == multiset{currentDirectory, vintageStoryPath,
                                       Paths.Combine(vintageStoryPath, "Mods"), Paths.Combine(vintageStoryPath, "Lib")}
      ensures assemblyCache == map[]
    {
      resolvePaths := multiset{currentDirectory, vintageStoryPath,
                               Paths.Combine(vintageStoryPath, "Mods"), Paths.Combine(vintageStoryPath, "Lib")};
      assemblyCache := map[];
    }

    /** Loads the first existing candidate of the flattened `.dll`/`.exe` search over the
        bag as enumerated in `order`. Whatever the order, the result comes from a
        directory of the bag, prefers that directory's `.dll`, and is null only when
        no directory has a candidate. */
    method TryLoad(name: string, existing: set<string>, order: seq<string>) returns (r: Option<Assembly>)
      requires multiset(order) == resolvePaths
      ensures r == LoadFound(ProbeDirectories(order, name, DllThenExe, existing))
      ensures r.None? <==> !Resolvable(resolvePaths, name, existing)
      ensures r.Some? ==> exists d :: d in resolvePaths && ProbeDirectory(d, name, DllThenExe, existing) == Some(r.value.Location)
    {
      var filePath := FirstExisting(Candidates(order, name, DllThenExe), existing);
      FlattenedProbeAgrees(order, name, DllThenExe, existing);
      r := LoadFound(filePath);
      if r.None? {
        forall d | d in resolvePaths ensures ProbeDirectory(d, name, DllThenExe, existing).None? {
          assert d in multiset(order);
          var i :| 0 <= i < |order| && order[i] == d;
        }
      } else {
        ghost var i :| IsFirstHit(order, i, name, DllThenExe, existing) && filePath == ProbeDirectory(order[i], name, DllThenExe, existing);
        assert order[i] in multiset(order);
      }
    }

    /** A cached module is returned as it is; otherwise a successful probe is cached and returned. */
    method Load(name: string, existing: set<string>, order: seq<string>) returns (r: Option<Assembly>)
      requires multiset(order) == resolvePaths
      modifies this
      ensures resolvePaths == old(resolvePaths)
      ensures LoadOutcome(old(assemblyCache), name, LoadFound(ProbeDirectories(order, name, DllThenExe, existing)), r, assemblyCache)
      ensures name !in old(assemblyCache) ==> (r.None? <==> !Resolvable(resolvePaths, name, existing))
      ensures forall n :: n in old(assemblyCache) ==> n in assemblyCache && assemblyCache[n] == old(assemblyCache)[n]
    {
      if name in assemblyCache {
        return Some(assemblyCache[name]);
      }
      var loaded := TryLoad(name, existing, order);
      if loaded.Some? {
        assemblyCache := assemblyCache[name := loaded.value];
        return loaded;
      }
      return None;
    }

    /** `if (!_resolvePaths.Contains(dir)) _resolvePaths.Add(dir)`. */
    method AddDirectory(dir: string)
      modifies this
      ensures resolvePaths == WithDirectory(old(resolvePaths), dir)
      ensures NoDuplicates(old(resolvePaths)) ==> NoDuplicates(resolvePaths)
      ensures assemblyCache == old(assemblyCache)
    {
      if dir !in resolvePaths {
        resolvePaths := resolvePaths + multiset{dir};
      }
      if NoDuplicates(old(resolvePaths)) {
        WithDirectoryKeepsNoDuplicates(old(resolvePaths), dir);
      }
    }

    /** Adds the file's directory to the bag unless it is there, parses the file's stem as a
        display name, then loads that name. The directory is added even when the parse
        throws. An existing `.dll` or `.exe` whose stem is a plain name is always found. */
    method LoadAssemblyFromFileInfo(fullName: string, existing: set<string>, order: seq<string>)
      returns (r: Result<Option<Assembly>, Exception>)
      requires multiset(order) == WithDirectory(resolvePaths, Paths.DirectoryName(fullName))
      modifies this
      ensures resolvePaths == WithDirectory(old(resolvePaths), Paths.DirectoryName(fullName))
      ensures NoDuplicates(old(resolvePaths)) ==> NoDuplicates(resolvePaths)
      ensures var parsed := AssemblyNameOf(FileSystemExtensions.NameWithoutExtension(fullName));
        && (parsed.Failure? ==> r == Failure(parsed.error) && assemblyCache == old(assemblyCache))
        && (parsed.Success? ==>
              && r.Success?
              && LoadOutcome(old(assemblyCache), parsed.value,
                             LoadFound(ProbeDirectories(order, parsed.value, DllThenExe, existing)),
                             r.value, assemblyCache))
      ensures (fullName in existing && Paths.Separator in fullName && Paths.Extension(fullName) in DllThenExe
               && PlainName(FileSystemExtensions.NameWithoutExtension(fullName))) ==> r.Success? && r.value.Some?
    {
      ghost var cache := assemblyCache;
      var dir := Paths.DirectoryName(fullName);
      AddDirectory(dir);
      var stem := FileSystemExtensions.NameWithoutExtension(fullName);
      var parsed := AssemblyNameOf(stem);
      PlainNameParsesToItself(stem);
      if parsed.Failure? {
        return Failure(parsed.error);
      }
      var name := parsed.value;
      var loaded := Load(name, existing, order);
      assert LoadOutcome(cache, name, LoadFound(ProbeDirectories(order, name, DllThenExe, existing)), loaded, assemblyCache);
      r := Success(loaded);
      if fullName in existing && Paths.Separator in fullName && Paths.Extension(fullName) in DllThenExe && PlainName(stem) {
        OwnDirectoryResolves(fullName, existing, resolvePaths);
      }
    }
  }

  /** Once a name has been loaded, loading it again yields the identical module. */
  method LoadTwice(context: ModAssemblyLoadContext, name: string, existing: set<string>, order: seq<string>)
    returns (first: Option<Assembly>, second: Option<Assembly>)
    requires multiset(order) == context.resolvePaths
    modifies context
    ensures first.Some? ==> second == first
  {
    first := context.Load(name, existing, order);
    second := context.Load(name, existing, order);
  }
}
