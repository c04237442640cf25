/** What the inspected module declares, as reflection and the file's version
    resource report it. These stand for the Vintage Story API attribute types and
    for the runtime's reflection, which the model does not interpret. */
module ModAttributes {
  import opened Wrappers

  /** `EnumAppSide`. */
  datatype EnumAppSide = Server | Client | Universal

  /** `ModDependency(modID, version)`. */
  datatype ModDependency = ModDependency(ModID: string, Version: string)

  /** The fields of `ModInfoAttribute`; those that may be null are options. */
  datatype ModInfo = ModInfo(
    Name: string,
    ModID: string,
    Side: string,
    Description: string,
    Version: string,
    Website: Option<string>,
    Authors: seq<string>,
    Contributors: Option<seq<string>>,
    NetworkVersion: Option<string>,
    RequiredOnClient: Option<bool>,
    RequiredOnServer: Option<bool>,
    WorldConfig: Option<string>,
    IconPath: Option<string>)

  /** The custom attributes the core looks for, in declaration order. */
  datatype CustomAttribute =
    | ModInfoAttribute(info: ModInfo)
    | ModDependencyAttribute(ModID: string, Version: string)
    | DebuggableAttribute(IsJITTrackingEnabled: bool)
    | OtherAttribute

  /** A loaded module as the core sees it: its display name, its attributes and the
      `ProductVersion` of its file. */
  datatype ModuleImage = ModuleImage(FullName: string, Attributes: seq<CustomAttribute>, ProductVersion: string)

  /** Where the descriptor's version comes from. */
  datatype VersioningStyle = Static | Assembly
}
