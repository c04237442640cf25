/** `AssemblyExtensions`: the descriptor version of a module and its build-configuration
    suffix, read from the module's attributes. */
module AssemblyExtensions {
  import opened Wrappers
  import opened Exceptions
  import opened ModAttributes

  /** `GetCustomAttribute<ModInfoAttribute>()`: the module's metadata attribute, if declared. */
  function FindModInfo(attrs: seq<CustomAttribute>): (r: Option<ModInfo>)
    ensures r.None? <==> forall i :: 0 <= i < |attrs| ==> !attrs[i].ModInfoAttribute?
    ensures r.Some? ==> exists i :: 0 <= i < |attrs| && attrs[i] == ModInfoAttribute(r.value)
  {
    if attrs == [] then None
    else if attrs[0].ModInfoAttribute? then Some(attrs[0].info)
    else
      var r := FindModInfo(attrs[1..]);
      assert forall i :: 1 <= i < |attrs| ==> attrs[i] == attrs[1..][i - 1];
      r
  }

  /** The descriptor version: the declared one for the static style, else the file's
      product version. A module without the metadata attribute is an error. */
  function GetVersion(image: ModuleImage, style: VersioningStyle): (r: Result<string, Exception>)
    ensures r.Failure? <==> FindModInfo(image.Attributes).None?
    ensures r.Failure? ==>
      r.error == CustomAttributeFormatException("No ModInfoAttribute found in assembly: " + image.FullName + ".")
    ensures r.Success? && style == Static ==> r.value == FindModInfo(image.Attributes).value.Version
    ensures r.Success? && style != Static ==> r.value == image.ProductVersion
  {
    match FindModInfo(image.Attributes)
    case None => Failure(CustomAttributeFormatException("No ModInfoAttribute found in assembly: " + image.FullName + "."))
    case Some(modInfo) => Success(if style == Static then modInfo.Version else image.ProductVersion)
  }

  /** Some `DebuggableAttribute` has JIT tracking enabled. */
  function JitTrackingEnabled(attrs: seq<CustomAttribute>): (b: bool)
    ensures b <==> exists i :: 0 <= i < |attrs| && attrs[i] == DebuggableAttribute(true)
  {
    if attrs == [] then false
    else if attrs[0] == DebuggableAttribute(true) then true
    else
      var b := JitTrackingEnabled(attrs[1..]);
      assert (forall i :: 1 <= i < |attrs| ==> attrs[i] == attrs[1..][i - 1]);
      b
  }

  /** "_DEBUG" for a module built with JIT tracking, "" otherwise. */
  function GetConfigurationSuffix(attrs: seq<CustomAttribute>): (r: string)
    ensures r == "_DEBUG" || r == ""
    ensures r == "_DEBUG" <==> exists i :: 0 <= i < |attrs| && attrs[i] == DebuggableAttribute(true)
  {
    if JitTrackingEnabled(attrs) then "_DEBUG" else ""
  }

  /** Attributes other than `DebuggableAttribute(true)` never change the suffix. */
  lemma SuffixIgnoresOtherAttributes(before: seq<CustomAttribute>, a: CustomAttribute, after: seq<CustomAttribute>)
    requires a != DebuggableAttribute(true)
    ensures GetConfigurationSuffix(before + [a] + after) == GetConfigurationSuffix(before + after)
  {
    var x, y := before + [a] + after, before + after;
    if GetConfigurationSuffix(y) == "_DEBUG" {
      var i :| 0 <= i < |y| && y[i] == DebuggableAttribute(true);
      assert x[if i < |before| then i else i + 1] == y[i];
    }
    if GetConfigurationSuffix(x) == "_DEBUG" {
      var i :| 0 <= i < |x| && x[i] == DebuggableAttribute(true);
      assert i != |before|;
      assert y[if i < |before| then i else i - 1] == x[i];
    }
  }
}
