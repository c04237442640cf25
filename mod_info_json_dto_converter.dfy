/** `ModInfoJsonDtoConverter`: builds the descriptor record from a module's metadata
    attribute, its dependency attributes and the chosen versioning style. This is the
    conversion both copies share; the copy that also publishes the version and the
    configuration suffix is modelled in `GenModInfoApp`. */
module ModInfoJsonDtoConverter {
  import opened Wrappers
  import opened Exceptions
  import opened ModAttributes
  import opened ModInfoJsonDto
  import AssemblyExtensions

  /** Lower-cases an ASCII letter and leaves every other character alone. */
  function ToLowerAscii(c: char): char
  {
    if 'A' <= c <= 'Z' then (c as int + 32) as char else c
  }

  /** Equality up to the case of ASCII letters. */
  predicate EqualsIgnoreCase(a: string, b: string)
  {
    |a| == |b| && forall i :: 0 <= i < |a| ==> ToLowerAscii(a[i]) == ToLowerAscii(b[i])
  }

  /** The declared name of each side. */
  function SideName(side: EnumAppSide): string
  {
    match side
    case Server => "Server"
    case Client => "Client"
    case Universal => "Universal"
  }

  lemma SideNames(s: EnumAppSide)
    ensures SideName(s) == "Client" || SideName(s) == "Server" || SideName(s) == "Universal"
  {
  }

  /** `Enum.TryParse(side, ignoreCase: true, out EnumAppSide _)` on the declared names. */
  function ParseSide(side: string): (r: Option<EnumAppSide>)
    ensures r.Some? <==> exists s :: EqualsIgnoreCase(side, SideName(s))
    ensures r.Some? ==> EqualsIgnoreCase(side, SideName(r.value))
  {
    if EqualsIgnoreCase(side, "Client") then
      assert EqualsIgnoreCase(side, SideName(Client));
      Some(Client)
    else if EqualsIgnoreCase(side, "Server") then
      assert EqualsIgnoreCase(side, SideName(Server));
      Some(Server)
    else if EqualsIgnoreCase(side, "Universal") then
      assert EqualsIgnoreCase(side, SideName(Universal));
      Some(Universal)
    else
      assert forall s :: !EqualsIgnoreCase(side, SideName(s)) by {
        forall s ensures !EqualsIgnoreCase(side, SideName(s)) {
          SideNames(s);
        }
      }
      None
  }

  /** Every side's own name parses back to it. */
  lemma ParseSideName(s: EnumAppSide)
    ensures ParseSide(SideName(s)) == Some(s)
  {
    var n := SideName(s);
    match s
    case Server => assert !EqualsIgnoreCase(n, "Client") by { assert ToLowerAscii(n[0]) != ToLowerAscii("Client"[0]); }
    case Client =>
    case Universal =>
  }

  /** The check ignores case, and rejects any other word. */
  lemma ParseSideExamples()
    ensures ParseSide("client") == Some(Client)
    ensures ParseSide("SERVER") == Some(Server)
    ensures ParseSide("uNiVeRsAl") == Some(Universal)
    ensures ParseSide("bogus") == None
    ensures ParseSide("Clients") == None
  {
    assert EqualsIgnoreCase("client", "Client");
    assert !EqualsIgnoreCase("SERVER", "Client") by { assert ToLowerAscii("SERVER"[0]) != ToLowerAscii("Client"[0]); }
    assert EqualsIgnoreCase("SERVER", "Server");
    assert !EqualsIgnoreCase("uNiVeRsAl", "Client") && !EqualsIgnoreCase("uNiVeRsAl", "Server") by {
      assert ToLowerAscii("uNiVeRsAl"[0]) != ToLowerAscii("Client"[0]);
    }
    assert EqualsIgnoreCase("uNiVeRsAl", "Universal");
    assert !EqualsIgnoreCase("bogus", "Client") && !EqualsIgnoreCase("bogus", "Server") by {
      assert ToLowerAscii("bogus"[0]) != ToLowerAscii("Client"[0]);
    }
  }

  /** The message of the exception a bad side raises. */
  function SideErrorMessage(side: string): string
  {
    "Cannot parse '" + side + "', must be either 'Client', 'Server' or 'Universal'. Defaulting to 'Universal'."
  }

  /** The declared metadata a descriptor carries, read back from it. */
  function DeclaredInfo(dto: ModInfoJsonDto): ModInfo
  {
    ModInfo(dto.Name, dto.ModId, dto.Side, dto.Description, dto.Version, dto.Website, dto.Authors,
            dto.Contributors, dto.NetworkVersion, dto.RequiredOnClient, dto.RequiredOnServer,
            dto.WorldConfig, dto.IconPath)
  }

  /** `ToDto`: a side that is none of the three names fails (it never defaults); otherwise the
      descriptor has type "Code", the given version and dependencies, and every other field
      of the attribute unchanged, the side included. */
  function ToDto(modInfo: ModInfo, version: string, dependencies: seq<ModDependency>): (r: Result<ModInfoJsonDto, Exception>)
    ensures r.Failure? <==> ParseSide(modInfo.Side).None?
    ensures r.Failure? ==> r.error == ArgumentException(SideErrorMessage(modInfo.Side))
    ensures r.Success? ==> r.value.Type == "Code" && r.value.Version == version
    ensures r.Success? ==> r.value.Dependencies == Some(dependencies)
    ensures r.Success? ==> DeclaredInfo(r.value) == modInfo.(Version := version)
  {
    if ParseSide(modInfo.Side).None? then Failure(ArgumentException(SideErrorMessage(modInfo.Side)))
    else
      Success(ModInfoJsonDto(
        Type := "Code",
        Name := modInfo.Name,
        ModId := modInfo.ModID,
        Side := modInfo.Side,
        Description := modInfo.Description,
        Version := version,
        Website := modInfo.Website,
        Authors := modInfo.Authors,
        Contributors := modInfo.Contributors,
        RequiredOnClient := modInfo.RequiredOnClient,
        RequiredOnServer := modInfo.RequiredOnServer,
        NetworkVersion := modInfo.NetworkVersion,
        WorldConfig := modInfo.WorldConfig,
        IconPath := modInfo.IconPath,
        Dependencies := Some(dependencies)))
  }

  /** The side is stored as declared, not canonicalised: "client" stays "client". */
  lemma SideStoredVerbatim(modInfo: ModInfo, version: string, dependencies: seq<ModDependency>)
    requires modInfo.Side == "client"
    ensures ToDto(modInfo, version, dependencies).Success?
    ensures ToDto(modInfo, version, dependencies).value.Side == "client"
    ensures ToDto(modInfo, version, dependencies).value.Side != SideName(Client)
  {
    ParseSideExamples();
  }

  /** `FindAllModDependencies`: one dependency per `ModDependencyAttribute`, in attribute order. */
  function FindAllModDependencies(attrs: seq<CustomAttribute>): (deps: seq<ModDependency>)
    ensures |deps| <= |attrs|
    ensures forall d :: d in deps <==> ModDependencyAttribute(d.ModID, d.Version) in attrs
  {
    if attrs == [] then []
    else
      var rest := FindAllModDependencies(attrs[1..]);
      assert attrs == [attrs[0]] + attrs[1..];
      if attrs[0].ModDependencyAttribute? then [ModDependency(attrs[0].ModID, attrs[0].Version)] + rest
      else rest
  }

  /** The list follows attribute order: attributes declared later come later. */
  lemma {:induction false} FindAllModDependenciesConcat(a: seq<CustomAttribute>, b: seq<CustomAttribute>)
    ensures FindAllModDependencies(a + b) == FindAllModDependencies(a) + FindAllModDependencies(b)
  {
    if a != [] {
      assert (a + b)[1..] == a[1..] + b;
      FindAllModDependenciesConcat(a[1..], b);
    } else {
      assert [] + b == b;
    }
  }

  /** No de-duplication: each dependency occurs as often as its attribute is declared. */
  lemma {:induction false} FindAllModDependenciesCounts(attrs: seq<CustomAttribute>, d: ModDependency)
    ensures multiset(FindAllModDependencies(attrs))[d] == multiset(attrs)[ModDependencyAttribute(d.ModID, d.Version)]
  {
    if attrs != [] {
      FindAllModDependenciesCounts(attrs[1..], d);
      assert attrs == [attrs[0]] + attrs[1..];
    }
  }

  /** `PopulateJsonDto` (the copy without side effects): the missing-attribute error, the side
      error, or a descriptor whose version is the one `GetVersion` reports, whose dependencies
      are all the declared ones and whose other fields are the attribute's. */
  function PopulateJsonDto(image: ModuleImage, style: VersioningStyle): (r: Result<ModInfoJsonDto, Exception>)
    ensures AssemblyExtensions.FindModInfo(image.Attributes).None? <==>
      r == Failure(CustomAttributeFormatException("No ModInfoAttribute found in assembly."))
    ensures r.Success? <==>
      AssemblyExtensions.FindModInfo(image.Attributes).Some?
      && ParseSide(AssemblyExtensions.FindModInfo(image.Attributes).value.Side).Some?
    ensures r.Success? ==> AssemblyExtensions.GetVersion(image, style) == Success(r.value.Version)
    ensures r.Success? ==> r.value.Type == "Code" && r.value.Dependencies == Some(FindAllModDependencies(image.Attributes))
    ensures r.Success? ==>
      DeclaredInfo(r.value).(Version := "") == AssemblyExtensions.FindModInfo(image.Attributes).value.(Version := "")
  {
    match AssemblyExtensions.FindModInfo(image.Attributes)
    case None => Failure(CustomAttributeFormatException("No ModInfoAttribute found in assembly."))
    case Some(modInfo) =>
      var version := if style == Static then modInfo.Version else image.ProductVersion;
      ToDto(modInfo, version, FindAllModDependencies(image.Attributes))
  }
}
