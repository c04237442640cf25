/** `ModInfoJsonDto`: the `modinfo.json` descriptor record, its defaults, and which of
    its properties the serialiser always writes and which it omits when null. */
module ModInfoJsonDto {
  import opened Wrappers
  import opened ModAttributes
  import DependenciesConverter

  /** The record; a property that may be null is an option. */
  datatype ModInfoJsonDto = ModInfoJsonDto(
    Type: string,
    Name: string,
    ModId: string,
    Side: string,
    Description: string,
    Version: string,
    Website: Option<string>,
    Authors: seq<string>,
    Contributors: Option<seq<string>>,
    RequiredOnClient: Option<bool>,
    RequiredOnServer: Option<bool>,
    NetworkVersion: Option<string>,
    WorldConfig: Option<string>,
    IconPath: Option<string>,
    Dependencies: Option<seq<ModDependency>>)

  /** The record's property initialisers; the optional flags and strings and the
      dependency list start as null. */
  const Default := ModInfoJsonDto(
    "Code", "Untitled Mod", "untitled", "Universal", "<Insert Description Here>", "0.1.0",
    Some("https://apachetech.co.uk"), ["ApacheTech Solutions"], Some(["ApacheTech Solutions"]),
    None, None, None, None, None, None)

  /** A serialised property value. The dependency list is written by `DependenciesConverter`. */
  datatype JsonValue =
    | JString(s: string)
    | JBool(b: bool)
    | JStrings(items: seq<string>)
    | JObject(tokens: seq<DependenciesConverter.JsonToken>)

  /** The record's serialised properties. */
  datatype Property =
    | TypeProperty | NameProperty | ModIdProperty | SideProperty | DescriptionProperty
    | VersionProperty | WebsiteProperty | AuthorsProperty | ContributorsProperty
    | RequiredOnClientProperty | RequiredOnServerProperty | NetworkVersionProperty
    | WorldConfigProperty | IconPathProperty | DependenciesProperty

  /** The properties in declaration order, which is the order they are written in. */
  const Declared: seq<Property> := [
    TypeProperty, NameProperty, ModIdProperty, SideProperty, DescriptionProperty,
    VersionProperty, WebsiteProperty, AuthorsProperty, ContributorsProperty,
    RequiredOnClientProperty, RequiredOnServerProperty, NetworkVersionProperty,
    WorldConfigProperty, IconPathProperty, DependenciesProperty]

  /** The JSON name each property is written under. */
  function JsonName(p: Property): string
  {
    match p
    case TypeProperty => "type"
    case NameProperty => "name"
    case ModIdProperty => "modId"
    case SideProperty => "side"
    case DescriptionProperty => "description"
    case VersionProperty => "version"
    case WebsiteProperty => "website"
    case AuthorsProperty => "authors"
    case ContributorsProperty => "contributors"
    case RequiredOnClientProperty => "requiredOnClient"
    case RequiredOnServerProperty => "requiredOnServer"
    case NetworkVersionProperty => "networkVersion"
    case WorldConfigProperty => "worldConfig"
    case IconPathProperty => "iconPath"
    case DependenciesProperty => "dependencies"
  }

  /** The properties declared `Required.Always`. */
  predicate RequiredAlways(p: Property)
  {
    p in {TypeProperty, ModIdProperty, SideProperty, DescriptionProperty, VersionProperty, AuthorsProperty}
  }

  /** The properties declared `NullValueHandling.Ignore`, or `DefaultValueHandling.Ignore`
      for the dependency list, whose default is null. */
  predicate IgnoredWhenNull(p: Property)
  {
    p in {WebsiteProperty, ContributorsProperty, RequiredOnClientProperty, RequiredOnServerProperty,
          NetworkVersionProperty, WorldConfigProperty, IconPathProperty, DependenciesProperty}
  }

  /** The properties whose initialiser leaves them null. */
  predicate NullByDefault(p: Property)
  {
    p.RequiredOnClientProperty? || p.RequiredOnServerProperty? || p.NetworkVersionProperty?
    || p.WorldConfigProperty? || p.IconPathProperty? || p.DependenciesProperty?
  }

  function StringValue(v: Option<string>): Option<JsonValue>
  {
    if v.Some? then Some(JString(v.value)) else None
  }

  function BoolValue(v: Option<bool>): Option<JsonValue>
  {
    if v.Some? then Some(JBool(v.value)) else None
  }

  /** The value the record holds for a property; None stands for null. */
  function FieldValue(dto: ModInfoJsonDto, p: Property): Option<JsonValue>
  {
    match p
    case TypeProperty => Some(JString(dto.Type))
    case NameProperty => Some(JString(dto.Name))
    case ModIdProperty => Some(JString(dto.ModId))
    case SideProperty => Some(JString(dto.Side))
    case DescriptionProperty => Some(JString(dto.Description))
    case VersionProperty => Some(JString(dto.Version))
    case WebsiteProperty => StringValue(dto.Website)
    case AuthorsProperty => Some(JStrings(dto.Authors))
    case ContributorsProperty => if dto.Contributors.Some? then Some(JStrings(dto.Contributors.value)) else None
    case RequiredOnClientProperty => BoolValue(dto.RequiredOnClient)
    case RequiredOnServerProperty => BoolValue(dto.RequiredOnServer)
    case NetworkVersionProperty => StringValue(dto.NetworkVersion)
    case WorldConfigProperty => StringValue(dto.WorldConfig)
    case IconPathProperty => StringValue(dto.IconPath)
    case DependenciesProperty =>
      if dto.Dependencies.Some? then Some(JObject(DependenciesConverter.ObjectTokens(dto.Dependencies.value))) else None
  }

  /** Writes the properties `ps`, in order, skipping those that are null. */
  function Emit(dto: ModInfoJsonDto, ps: seq<Property>): seq<(string, JsonValue)>
  {
    if ps == [] then []
    else
      var v := FieldValue(dto, ps[0]);
      (if v.Some? then [(JsonName(ps[0]), v.value)] else []) + Emit(dto, ps[1..])
  }

  /** The properties the serialiser writes for `dto`. */
  function Properties(dto: ModInfoJsonDto): seq<(string, JsonValue)>
  {
    Emit(dto, Declared)
  }

  /** The value of the first written property named `name`. */
  function Lookup(written: seq<(string, JsonValue)>, name: string): Option<JsonValue>
  {
    if written == [] then None
    else if written[0].0 == name then Some(written[0].1)
    else Lookup(written[1..], name)
  }

  /** Distinct properties have distinct JSON names. */
  lemma JsonNameInjective(p: Property, q: Property)
    requires p != q
    ensures JsonName(p) != JsonName(q)
  {
    var a, b := JsonName(p), JsonName(q);
    if |a| == |b| {
      assert a[0] != b[0] || a[1] != b[1] || a[|a| - 1] != b[|b| - 1];
    }
  }

  lemma {:induction false} EmitLookup(dto: ModInfoJsonDto, ps: seq<Property>, p: Property)
    ensures Lookup(Emit(dto, ps), JsonName(p)) == if p in ps then FieldValue(dto, p) else None
  {
    if ps != [] {
      EmitLookup(dto, ps[1..], p);
      assert ps == [ps[0]] + ps[1..];
      if ps[0] != p {
        JsonNameInjective(ps[0], p);
        assert p in ps <==> p in ps[1..];
        var v := FieldValue(dto, ps[0]);
        if v.Some? {
          var e := Emit(dto, ps);
          assert e == [(JsonName(ps[0]), v.value)] + Emit(dto, ps[1..]);
          assert e[1..] == Emit(dto, ps[1..]);
        } else {
          assert Emit(dto, ps) == Emit(dto, ps[1..]);
        }
      } else if FieldValue(dto, p).None? {
        assert Emit(dto, ps) == Emit(dto, ps[1..]);
      }
    }
  }

  lemma {:induction false} LookupFindsWritten(written: seq<(string, JsonValue)>, i: nat)
    requires i < |written|
    ensures Lookup(written, written[i].0).Some?
  {
    if i > 0 && written[0].0 != written[i].0 {
      assert written[1..][i - 1] == written[i];
      LookupFindsWritten(written[1..], i - 1);
    }
  }

  lemma {:induction false} EmitDistinct(dto: ModInfoJsonDto, ps: seq<Property>)
    requires forall i, j :: 0 <= i < j < |ps| ==> ps[i] != ps[j]
    ensures forall i, j :: 0 <= i < j < |Emit(dto, ps)| ==> Emit(dto, ps)[i].0 != Emit(dto, ps)[j].0
  {
    if ps != [] {
      var e := Emit(dto, ps);
      var rest := Emit(dto, ps[1..]);
      EmitDistinct(dto, ps[1..]);
      if |e| != |rest| {
        assert e == [(JsonName(ps[0]), FieldValue(dto, ps[0]).value)] + rest;
        assert ps[0] !in ps[1..] by {
          forall k | 0 <= k < |ps[1..]| ensures ps[1..][k] != ps[0] {
            assert ps[1..][k] == ps[k + 1];
          }
        }
        EmitLookup(dto, ps[1..], ps[0]);
        forall j | 0 < j < |e| ensures e[0].0 != e[j].0 {
          assert e[j] == rest[j - 1];
          LookupFindsWritten(rest, j - 1);
        }
      }
    }
  }

  /** Every property is written under its JSON name exactly when the record's value is not
      null, and carries that value. */
  lemma PropertiesCarryFields(dto: ModInfoJsonDto)
    ensures forall p :: Lookup(Properties(dto), JsonName(p)) == FieldValue(dto, p)
  {
    forall p ensures Lookup(Properties(dto), JsonName(p)) == FieldValue(dto, p) {
      EmitLookup(dto, Declared, p);
    }
  }

  /** No property name is written twice. */
  lemma PropertyNamesDistinct(dto: ModInfoJsonDto)
    ensures forall i, j :: 0 <= i < j < |Properties(dto)| ==> Properties(dto)[i].0 != Properties(dto)[j].0
  {
    EmitDistinct(dto, Declared);
  }

  /** The always-required properties are always written, with the record's values. */
  lemma RequiredPropertiesAlwaysWritten(dto: ModInfoJsonDto)
    ensures forall p :: RequiredAlways(p) ==> Lookup(Properties(dto), JsonName(p)).Some?
    ensures Lookup(Properties(dto), "type") == Some(JString(dto.Type))
    ensures Lookup(Properties(dto), "modId") == Some(JString(dto.ModId))
    ensures Lookup(Properties(dto), "side") == Some(JString(dto.Side))
    ensures Lookup(Properties(dto), "description") == Some(JString(dto.Description))
    ensures Lookup(Properties(dto), "version") == Some(JString(dto.Version))
    ensures Lookup(Properties(dto), "authors") == Some(JStrings(dto.Authors))
  {
    PropertiesCarryFields(dto);
    assert JsonName(TypeProperty) == "type" && JsonName(ModIdProperty) == "modId";
    assert JsonName(SideProperty) == "side" && JsonName(VersionProperty) == "version";
    assert JsonName(DescriptionProperty) == "description";
    assert JsonName(AuthorsProperty) == "authors";
  }

  /** A property ignored when null is written exactly when it is not null; the others are
      always written. The dependency list is omitted only when null, so an empty list is
      still written, as an empty object. */
  lemma OptionalPropertiesOmittedWhenNull(dto: ModInfoJsonDto)
    ensures forall p :: !IgnoredWhenNull(p) ==> Lookup(Properties(dto), JsonName(p)).Some?
    ensures Lookup(Properties(dto), "website").Some? <==> dto.Website.Some?
    ensures Lookup(Properties(dto), "contributors").Some? <==> dto.Contributors.Some?
    ensures Lookup(Properties(dto), "requiredOnClient").Some? <==> dto.RequiredOnClient.Some?
    ensures Lookup(Properties(dto), "requiredOnServer").Some? <==> dto.RequiredOnServer.Some?
    ensures Lookup(Properties(dto), "networkVersion").Some? <==> dto.NetworkVersion.Some?
    ensures Lookup(Properties(dto), "worldConfig").Some? <==> dto.WorldConfig.Some?
    ensures Lookup(Properties(dto), "iconPath").Some? <==> dto.IconPath.Some?
    ensures Lookup(Properties(dto), "dependencies").Some? <==> dto.Dependencies.Some?
    ensures dto.Dependencies == Some([]) ==>
      Lookup(Properties(dto), "dependencies") == Some(JObject([DependenciesConverter.StartObject, DependenciesConverter.EndObject]))
  {
    PropertiesCarryFields(dto);
    assert JsonName(WebsiteProperty) == "website" && JsonName(ContributorsProperty) == "contributors";
    assert JsonName(RequiredOnClientProperty) == "requiredOnClient" && JsonName(RequiredOnServerProperty) == "requiredOnServer";
    assert JsonName(NetworkVersionProperty) == "networkVersion" && JsonName(WorldConfigProperty) == "worldConfig";
    assert JsonName(IconPathProperty) == "iconPath" && JsonName(DependenciesProperty) == "dependencies";
    DependenciesConverter.EmptyListWritesEmptyObject();
  }

  /** A default record has the documented defaults. */
  lemma DefaultValues()
    ensures Default.Type == "Code" && Default.Name == "Untitled Mod" && Default.ModId == "untitled"
    ensures Default.Side == "Universal" && Default.Description == "<Insert Description Here>" && Default.Version == "0.1.0"
    ensures Default.Website == Some("https://apachetech.co.uk")
    ensures Default.Authors == ["ApacheTech Solutions"] && Default.Contributors == Some(["ApacheTech Solutions"])
    ensures forall p :: FieldValue(Default, p).None? <==> NullByDefault(p)
  {
  }

  /** A record built with the default initialisers writes exactly the properties that are not
      null by default: the six fixed strings, the name, the website, the authors and the
      contributors. */
  lemma DefaultProperties(dto: ModInfoJsonDto)
    requires dto == Default
    ensures forall p :: Lookup(Properties(dto), JsonName(p)).Some? <==> !NullByDefault(p)
  {
    PropertiesCarryFields(dto);
    DefaultValues();
  }
}
