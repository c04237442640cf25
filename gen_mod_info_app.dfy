/** ModPackager's `App.GenModInfo`: the conversion that also publishes the version and the
    configuration suffix, and `DoStuff`, which describes the module inside a
    `TestAssemblyLoadContext` and then waits for that context to be collected. */
module GenModInfoApp {
  import opened Wrappers
  import opened Exceptions
  import opened ModAttributes
  import opened Inspection
  import AssemblyExtensions
  import ModInfoJsonDtoConverter
  import ModInfoJsonDto

  /** `PopulateJsonDto` of this copy: the same descriptor as the pure conversion; once the
      metadata attribute is found, the version and the configuration suffix are published
      before the side is checked, so they change even when the side is then refused. */
  method PopulateJsonDto(statics: GenModInfoStatics, image: ModuleImage, style: VersioningStyle)
    returns (r: Result<ModInfoJsonDto.ModInfoJsonDto, Exception>)
    modifies statics
    ensures r == ModInfoJsonDtoConverter.PopulateJsonDto(image, style)
    ensures AssemblyExtensions.FindModInfo(image.Attributes).None? ==>
      statics.Version == old(statics.Version) && statics.Configuration == old(statics.Configuration)
    ensures AssemblyExtensions.FindModInfo(image.Attributes).Some? ==>
      && Success(statics.Version) == AssemblyExtensions.GetVersion(image, style)
      && statics.Configuration == AssemblyExtensions.GetConfigurationSuffix(image.Attributes)
  {
    var modInfo := AssemblyExtensions.FindModInfo(image.Attributes);
    if modInfo.None? {
      return Failure(CustomAttributeFormatException("No ModInfoAttribute found in assembly."));
    }
    var dependencies := ModInfoJsonDtoConverter.FindAllModDependencies(image.Attributes);
    var debugMode := AssemblyExtensions.JitTrackingEnabled(image.Attributes);
    var version := if style == Static then modInfo.value.Version else image.ProductVersion;
    statics.Version := version;
    statics.Configuration := if debugMode then "_DEBUG" else "";
    r := ModInfoJsonDtoConverter.ToDto(modInfo.value, version, dependencies);
  }

  /** `ExecuteAndUnload` then `DoStuff`'s poll. The module at the validated path, loaded into a
      parameterless `TestAssemblyLoadContext` (which resolves no dependency), is `image`. A
      failed descriptor build propagates before the write, the unload and the poll; otherwise
      the run completes whatever the weak reference reports. */
  method DoStuff(g: GenModInfo, statics: GenModInfoStatics, image: ModuleImage, isAlive: nat -> bool)
    returns (effects: seq<Effect>, outcome: Result<(), Exception>)
    modifies statics
    ensures var descriptor := ModInfoJsonDtoConverter.PopulateJsonDto(image, g.versioningStyle);
      && effects == RunEffects(g.assemblyFile, g.outputPath, descriptor, isAlive)
      && (outcome.Success? <==> descriptor.Success?)
      && (outcome.Failure? ==> outcome.error == descriptor.error)
    ensures AssemblyExtensions.FindModInfo(image.Attributes).None? ==>
      statics.Version == old(statics.Version) && statics.Configuration == old(statics.Configuration)
    ensures AssemblyExtensions.FindModInfo(image.Attributes).Some? ==>
      && Success(statics.Version) == AssemblyExtensions.GetVersion(image, g.versioningStyle)
      && statics.Configuration == AssemblyExtensions.GetConfigurationSuffix(image.Attributes)
  {
    effects := [LoadFromAssemblyPath(g.assemblyFile)];
    var modInfo := PopulateJsonDto(statics, image, g.versioningStyle);
    if modInfo.Failure? {
      return effects, Failure(modInfo.error);
    }
    effects := effects + [WriteDescriptor(g.outputPath, ModInfoJsonDto.Properties(modInfo.value)), Unload];
    var passes := PollUntilCollected(isAlive);
    effects := effects + Collects(passes);
    outcome := Success(());
  }
}
