/** The load contexts built on `AssemblyDependencyResolver`: the generator's
    `ModAssemblyLoadContext` (with its static `OnAssemblyResolve` fallback) and
    ModPackager's `TestAssemblyLoadContext`, whose `Load` is the same code. */
module ResolverLoadContext {
  import opened Wrappers
  import opened Exceptions
  import Paths
  import opened Probing

  /** The answers of `ResolveAssemblyToPath`: the names the resolver knows, with their files. */
  type Resolver = map<string, string>

  /** A context with or without a resolver. */
  datatype ResolverLoadContext = ResolverLoadContext(resolver: Option<Resolver>)
  {
    /** `Load(name)`: null without a resolver or when it resolves no file; otherwise the file it names. */
    function Load(name: string): (r: Option<Assembly>)
      ensures r.None? <==> resolver.None? || name !in resolver.value
      ensures r.Some? ==> r.value == Assembly(resolver.value[name])
    {
      match resolver
      case None => None
      case Some(paths) => if name in paths then Some(Assembly(paths[name])) else None
    }
  }

  /** `new TestAssemblyLoadContext()`: the parameterless constructor sets no resolver. */
  const ParameterlessContext := ResolverLoadContext(None)

  /** The parameterless context resolves every dependency to null. */
  lemma ParameterlessContextResolvesNothing(name: string)
    ensures ParameterlessContext.Load(name).None?
  {
  }

  /** The install directories `OnAssemblyResolve` searches, in order. */
  function InstallDirectories(baseDir: string): seq<string>
  {
    [baseDir, Paths.Combine(baseDir, "Mods"), Paths.Combine(baseDir, "Lib"),
     Paths.Combine(baseDir, "Lib64"), Paths.Combine(baseDir, "Lib32")]
  }

  const DllOnly: seq<string> := [".dll"]

  /** `OnAssemblyResolve`: with `VINTAGE_STORY` unset it throws before probing; otherwise it
      loads `name.dll` from the first install directory that has it, or returns null. */
  function OnAssemblyResolve(vintageStory: Option<string>, name: string, existing: set<string>)
    : (r: Result<Option<Assembly>, Exception>)
    ensures vintageStory.None? <==> r.Failure?
    ensures r.Failure? ==> r.error == InvalidOperationException("%VINTAGE_STORY% not set")
    ensures r.Success? ==> r.value == LoadFound(ProbeDirectories(InstallDirectories(vintageStory.value), name, DllOnly, existing))
    ensures r.Success? ==> (r.value.None? <==> forall i :: 0 <= i < 5 ==>
                              CandidateFile(InstallDirectories(vintageStory.value)[i], name, ".dll") !in existing)
  {
    match vintageStory
    case None => Failure(InvalidOperationException("%VINTAGE_STORY% not set"))
    case Some(baseDir) =>
      var directories := InstallDirectories(baseDir);
      var found := FirstExisting(Candidates(directories, name, DllOnly), existing);
      FlattenedProbeAgrees(directories, name, DllOnly, existing);
      Success(LoadFound(found))
  }

  /** The module comes from the first install directory holding `name.dll`, in the order
      base, Mods, Lib, Lib64, Lib32. */
  lemma ResolvesFromFirstInstallDirectory(baseDir: string, name: string, existing: set<string>, i: nat)
    requires i < 5
    requires CandidateFile(InstallDirectories(baseDir)[i], name, ".dll") in existing
    requires forall k :: 0 <= k < i ==> CandidateFile(InstallDirectories(baseDir)[k], name, ".dll") !in existing
    ensures OnAssemblyResolve(Some(baseDir), name, existing) ==
              Success(Some(Assembly(CandidateFile(InstallDirectories(baseDir)[i], name, ".dll"))))
  {
    var dirs := InstallDirectories(baseDir);
    var found := ProbeDirectories(dirs, name, DllOnly, existing);
    assert ProbeDirectory(dirs[i], name, DllOnly, existing).Some?;
    var j :| IsFirstHit(dirs, j, name, DllOnly, existing) && found == ProbeDirectory(dirs[j], name, DllOnly, existing);
    assert j == i;
  }
}
