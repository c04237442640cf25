/** What the three descriptor generators share: the entry validation of `GenModInfo`, the
    effects of loading, describing and unloading a module in a collectible context, and the
    bounded poll that waits for the context to be collected. Garbage collection is not
    modelled: `isAlive(k)` stands for what the weak reference reports after `k` passes. */
module Inspection {
  import opened Wrappers
  import opened Exceptions
  import opened ModAttributes
  import Paths
  import ModInfoJsonDto

  /** The observable effects of a generator run. */
  datatype Effect =
    | LoadFromAssemblyPath(path: string)
    | WriteDescriptor(path: string, json: seq<(string, ModInfoJsonDto.JsonValue)>)
    | Unload
    | CollectPass

  /** The poll gives up after this many collection passes. */
  const MaxCollectPasses: nat := 10

  /** The passes the poll makes when it reaches pass `i` still polling. */
  function CollectPassesFrom(isAlive: nat -> bool, i: nat): (n: nat)
    requires i <= MaxCollectPasses
    ensures i <= n <= MaxCollectPasses
    ensures forall k :: i <= k < n ==> isAlive(k)
    ensures n < MaxCollectPasses ==> !isAlive(n)
    decreases MaxCollectPasses - i
  {
    if i < MaxCollectPasses && isAlive(i) then CollectPassesFrom(isAlive, i + 1) else i
  }

  /** The number of collection passes of the poll. */
  function CollectPasses(isAlive: nat -> bool): nat
  {
    CollectPassesFrom(isAlive, 0)
  }

  /** The pass count is the first pass after which the context is dead, or the bound. */
  lemma {:induction false} CollectPassesIsFirstDeadOrBound(isAlive: nat -> bool, n: nat)
    requires n <= MaxCollectPasses
    ensures CollectPasses(isAlive) == n <==>
      (forall k :: 0 <= k < n ==> isAlive(k)) && (n < MaxCollectPasses ==> !isAlive(n))
  {
  }

  /** `for (i = 0; weakRef.IsAlive && i < 10; i++) { GC.Collect(); GC.WaitForPendingFinalizers(); }`:
      returns the number of passes made. It never fails, whatever the witness says. */
  method PollUntilCollected(isAlive: nat -> bool) returns (passes: nat)
    ensures passes == CollectPasses(isAlive)
    ensures passes <= MaxCollectPasses
  {
    passes := 0;
    while isAlive(passes) && passes < MaxCollectPasses
      invariant passes <= MaxCollectPasses
      invariant CollectPassesFrom(isAlive, passes) == CollectPasses(isAlive)
      decreases MaxCollectPasses - passes
    {
      passes := passes + 1;
    }
  }

  /** `n` collection passes. */
  function Collects(n: nat): (effects: seq<Effect>)
    ensures |effects| == n
    ensures forall i :: 0 <= i < n ==> effects[i] == CollectPass
  {
    if n == 0 then [] else Collects(n - 1) + [CollectPass]
  }

  /** `ExecuteAndUnload`: load the module, build its descriptor, write the descriptor, request
      unload. A failed descriptor build propagates before anything is written or unloaded. */
  function ExecuteAndUnloadEffects(assemblyPath: string, outputPath: string, descriptor: Result<ModInfoJsonDto.ModInfoJsonDto, Exception>)
    : (effects: seq<Effect>)
    ensures |effects| > 0 && effects[0] == LoadFromAssemblyPath(assemblyPath)
    ensures Unload in effects <==> descriptor.Success?
    ensures (exists i :: 0 <= i < |effects| && effects[i].WriteDescriptor?) <==> descriptor.Success?
    ensures descriptor.Success? ==>
      effects[|effects| - 1] == Unload
      && effects[|effects| - 2] == WriteDescriptor(outputPath, ModInfoJsonDto.Properties(descriptor.value))
  {
    match descriptor
    case Failure(_) => [LoadFromAssemblyPath(assemblyPath)]
    case Success(dto) =>
      var effects := [LoadFromAssemblyPath(assemblyPath), WriteDescriptor(outputPath, ModInfoJsonDto.Properties(dto)), Unload];
      assert effects[1].WriteDescriptor?;
      effects
  }

  /** A whole run: `ExecuteAndUnload`, then, if it returned, the poll. */
  function RunEffects(assemblyPath: string, outputPath: string, descriptor: Result<ModInfoJsonDto.ModInfoJsonDto, Exception>,
                      isAlive: nat -> bool): seq<Effect>
  {
    ExecuteAndUnloadEffects(assemblyPath, outputPath, descriptor)
      + (if descriptor.Success? then Collects(CollectPasses(isAlive)) else [])
  }

  /** A run that builds its descriptor loads, writes, requests unload and then collects at most
      ten times; one that cannot build it stops after the load, without unload or collection. */
  lemma RunEffectsOrder(assemblyPath: string, outputPath: string, descriptor: Result<ModInfoJsonDto.ModInfoJsonDto, Exception>,
                        isAlive: nat -> bool)
    ensures descriptor.Failure? ==> RunEffects(assemblyPath, outputPath, descriptor, isAlive) == [LoadFromAssemblyPath(assemblyPath)]
    ensures descriptor.Success? ==>
      var effects := RunEffects(assemblyPath, outputPath, descriptor, isAlive);
      && 3 <= |effects| <= 3 + MaxCollectPasses
      && effects[..3] == [LoadFromAssemblyPath(assemblyPath), WriteDescriptor(outputPath, ModInfoJsonDto.Properties(descriptor.value)), Unload]
      && forall i :: 3 <= i < |effects| ==> effects[i] == CollectPass
  {
    if descriptor.Success? {
      var head := ExecuteAndUnloadEffects(assemblyPath, outputPath, descriptor);
      var tail := Collects(CollectPasses(isAlive));
      var effects := RunEffects(assemblyPath, outputPath, descriptor, isAlive);
      assert effects == head + tail;
      assert |head| == 3;
      assert effects[..3] == head;
      forall i | 3 <= i < |effects| ensures effects[i] == CollectPass {
        assert effects[i] == tail[i - 3];
      }
    }
  }

  /** The generator's arguments once validated. */
  datatype GenModInfo = GenModInfo(versioningStyle: VersioningStyle, assemblyFile: string, outputPath: string)

  /** The `GenModInfo` constructor: a missing file is reported first; then anything whose
      extension is not exactly ".dll" is refused. */
  function NewGenModInfo(versioningStyle: VersioningStyle, tempAssemblyPath: string, outputPath: string, existing: set<string>)
    : (r: Result<GenModInfo, Exception>)
    ensures tempAssemblyPath !in existing <==>
      r == Failure(FileNotFoundException("No file was found at the given location", tempAssemblyPath))
    ensures tempAssemblyPath in existing && Paths.Extension(tempAssemblyPath) != ".dll" <==>
      r == Failure(DllNotFoundException("The selected file is not a .dll file."))
    ensures r.Success? <==> tempAssemblyPath in existing && Paths.Extension(tempAssemblyPath) == ".dll"
    ensures r.Success? ==> r.value == GenModInfo(versioningStyle, tempAssemblyPath, outputPath)
  {
    if tempAssemblyPath !in existing then
      Failure(FileNotFoundException("No file was found at the given location", tempAssemblyPath))
    else if Paths.Extension(tempAssemblyPath) != ".dll" then
      Failure(DllNotFoundException("The selected file is not a .dll file."))
    else
      Success(GenModInfo(versioningStyle, tempAssemblyPath, outputPath))
  }

  lemma ModExtensions(dir: string)
    ensures Paths.Extension(Paths.Combine(dir, "Mod.DLL")) == ".DLL"
    ensures Paths.Extension(Paths.Combine(dir, "Mod.dll")) == ".dll"
  {
    assert "Mod.DLL" == "Mod" + "." + "DLL";
    assert "Mod.dll" == "Mod" + "." + "dll";
    Paths.ExtensionOfCombine(dir, "Mod", "DLL");
    Paths.ExtensionOfCombine(dir, "Mod", "dll");
  }

  /** The extension check is exact: an existing "Mod.DLL" is refused, "Mod.dll" accepted. */
  lemma ExtensionCheckIsCaseSensitive(dir: string, style: VersioningStyle, out: string, existing: set<string>)
    requires Paths.Combine(dir, "Mod.DLL") in existing && Paths.Combine(dir, "Mod.dll") in existing
    ensures NewGenModInfo(style, Paths.Combine(dir, "Mod.DLL"), out, existing).Failure?
    ensures NewGenModInfo(style, Paths.Combine(dir, "Mod.dll"), out, existing).Success?
  {
    ModExtensions(dir);
    assert ".DLL"[1] != ".dll"[1];
  }

  /** The static `Version` and `Configuration` the generator publishes for the packager. */
  class GenModInfoStatics {
    var Version: string
    var Configuration: string

    constructor()
      ensures Version == "0.1.0" && Configuration == ""
    {
      Version := "0.1.0";
      Configuration := "";
    }
  }
}
