/** ModPackager's `Helpers.GenModInfo`: `ResolveDependencies` describes the module inside the
    `CustomAssemblyLoadContext2` it is given and then waits for that context to be collected.
    The `PopulateJsonDto` it calls belongs to `ModPackager.JsonConverters`, which is not part
    of this model; the shared conversion stands for it. */
module GenModInfoHelpers {
  import opened Wrappers
  import opened Exceptions
  import opened ModAttributes
  import opened Inspection
  import ModInfoJsonDtoConverter
  import ModInfoJsonDto

  /** `ExecuteAndUnload` then the poll: load the validated file, write its descriptor, request
      unload of the supplied context, and collect at most ten times. A failed descriptor build
      propagates before the write, the unload and the poll. */
  method ResolveDependencies(g: GenModInfo, image: ModuleImage, isAlive: nat -> bool)
    returns (effects: seq<Effect>, outcome: Result<(), Exception>)
    ensures var descriptor := ModInfoJsonDtoConverter.PopulateJsonDto(image, g.versioningStyle);
      && effects == RunEffects(g.assemblyFile, g.outputPath, descriptor, isAlive)
      && (outcome.Success? <==> descriptor.Success?)
      && (outcome.Failure? ==> outcome.error == descriptor.error)
  {
    effects := [LoadFromAssemblyPath(g.assemblyFile)];
    var modInfo := ModInfoJsonDtoConverter.PopulateJsonDto(image, g.versioningStyle);
    if modInfo.Failure? {
      return effects, Failure(modInfo.error);
    }
    effects := effects + [WriteDescriptor(g.outputPath, ModInfoJsonDto.Properties(modInfo.value)), Unload];
    var passes := PollUntilCollected(isAlive);
    effects := effects + Collects(passes);
    outcome := Success(());
  }
}
