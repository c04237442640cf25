/** The generator tool's `ModInfoGenerator`: `Execute` describes the module inside a
    resolver-backed `ModAssemblyLoadContext`, writes `modinfo.json` into the output directory,
    and waits for the context to be collected. */
module ModInfoGenerator {
  import opened Wrappers
  import opened Exceptions
  import opened ModAttributes
  import opened Inspection
  import Paths
  import ModInfoJsonDtoConverter
  import ModInfoJsonDto

  /** The parsed command line. */
  datatype CommandLineArguments = CommandLineArguments(AssemblyPath: string, OutputDir: string, VersioningStyle: VersioningStyle)

  /** The descriptor file: `modinfo.json` in the output directory. */
  function DescriptorPath(args: CommandLineArguments): (path: string)
    ensures Paths.DirectoryName(path) == args.OutputDir && Paths.FileName(path) == "modinfo.json"
  {
    Paths.CombineSplits(args.OutputDir, "modinfo.json");
    Paths.Combine(args.OutputDir, "modinfo.json")
  }

  /** `ExecuteAndUnload` then `Execute`'s poll. */
  method Execute(args: CommandLineArguments, image: ModuleImage, isAlive: nat -> bool)
    returns (effects: seq<Effect>, outcome: Result<(), Exception>)
    ensures var descriptor := ModInfoJsonDtoConverter.PopulateJsonDto(image, args.VersioningStyle);
      && effects == RunEffects(args.AssemblyPath, DescriptorPath(args), descriptor, isAlive)
      && (outcome.Success? <==> descriptor.Success?)
      && (outcome.Failure? ==> outcome.error == descriptor.error)
  {
    effects := [LoadFromAssemblyPath(args.AssemblyPath)];
    var modInfo := ModInfoJsonDtoConverter.PopulateJsonDto(image, args.VersioningStyle);
    if modInfo.Failure? {
      return effects, Failure(modInfo.error);
    }
    effects := effects + [WriteDescriptor(DescriptorPath(args), ModInfoJsonDto.Properties(modInfo.value)), Unload];
    var passes := PollUntilCollected(isAlive);
    effects := effects + Collects(passes);
    outcome := Success(());
  }
}
