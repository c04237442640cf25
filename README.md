# ModPackager descriptor generation and module probing, in Dafny

This project models the core of ModPackager, a build tool for Vintage Story mods, and of its
companion ModInfo generator. The model covers four areas:

- **Dependency probing in the three load contexts.**
  - ModPackager's `ModAssemblyLoadContext` keeps a name-to-module cache and a bag of resolve
    directories. It tries `name.dll` before `name.exe` in each directory.
  - `CustomAssemblyLoadContext2` probes an ordered list of directories the same way, with no
    cache.
  - The generator's `ModAssemblyLoadContext` resolves through an `AssemblyDependencyResolver`.
    Its `OnAssemblyResolve` falls back to five fixed install folders, looking only for `.dll`.
  - Loading a module by its file first parses the file's stem as an assembly display name
    (`new AssemblyName(stem)`). An empty stem, or one holding a stray ',' or '=', throws
    before any probing; whitespace around the name is dropped.
- **Descriptor construction.** The `ModInfoAttribute`, the `ModDependencyAttribute`s and the
  versioning style of a module become a `ModInfoJsonDto`. The `side` check ignores case and
  refuses anything that is not a side. The static version and configuration of the packager
  are also published. The record's defaults are modelled, along with which of its properties
  are always written and which are omitted when null.
- **The dependency-list converter.** A dependency list is written as one JSON object with one
  `modId: version` property per entry. It is read back with one entry per property.
- **The three generator front-ends.** Each validates its input, loads the module into a
  collectible context, writes the descriptor and requests unload. It then polls a weak
  reference for at most ten garbage-collection passes.

Two small helpers are modelled too: ModPackager's `XmlElementExtensions` (which assemblies are
flagged for embedding or merging) and the pure parts of `FileSystemExtensions`.

The .NET runtime is replaced by parameters:

- The file system is the set `existing` of paths that exist.
- Loading the file at path `p` yields `Assembly(p)`.
- `Path.Combine` is `dir + "/" + name`.
- A dependency resolver is a map from names to files.
- Reflection over a loaded module is a `ModuleImage`: its full name, its attributes in
  declaration order, and its file's `ProductVersion`.
- SHA-256 is a function parameter.
- The weak reference is a witness `isAlive(k)`, which says whether the context is still
  alive after `k` collection passes.
- The `ConcurrentBag` of resolve directories is a multiset. One enumeration of it is passed
  as an `order` sequence holding the same elements.

Each operation is proved against a specification function or a characterising contract:

- The foreach probe of `CustomAssemblyLoadContext2` is a `while` loop proved equal to
  `ProbeDirectories`.
- The LINQ `SelectMany`/`FirstOrDefault` probe is proved to agree with the same search.
- The dependency writer is a loop over a `JsonWriter` token stream, proved equal to
  `ObjectTokens`.
- The collection poll is a loop proved equal to `CollectPasses`.

Two behaviours of the code worth stating:

- **A failed descriptor build skips teardown.** In the code (`ModPackager/App/GenModInfo/GenModInfo.cs:42-46`, `ModPackager/Helpers/GenModInfo.cs:44-48`,
  `ApacheTech.VintageMods.Common.ModInfoGenerator/App/ModInfoGenerator.cs:37-42`) the exception leaves `ExecuteAndUnload` before `Unload` and before the
  poll, so the model emits neither.
- **A bad `side` fails.** The `side` message says "Defaulting to 'Universal'", but the
  code throws `ArgumentException` and never defaults.

## Model

`DependenciesConverter` and `ModInfoJsonDtoConverter` also exist, with the same code, under
`ApacheTech.VintageMods.Common.ModInfoGenerator/Converters/`
(`DependenciesConverter.cs:10-34`, `ModInfoJsonDtoConverter.cs:23-49`). The rows below cite the
ModPackager copy, and the same members model both copies.

| member | source | states |
|---|---|---|
| Paths.Extension | ModPackager/App/GenModInfo/GenModInfo.cs:31 | `FileInfo.Extension` is "" exactly when the file name has no '.'; otherwise it is the suffix of the file name from its last '.' |
| Paths.CombineSplits | ModPackager/AssemblyLoad/ModAssemblyLoadContext.cs:93 | a combined path gives back its directory and file name |
| Paths.SplitCombines | ModPackager/AssemblyLoad/ModAssemblyLoadContext.cs:93 | a path with a separator is its directory combined with its file name |
| Paths.ExtensionOfCombine | ModPackager/App/GenModInfo/GenModInfo.cs:31 | the extension of `dir/stem.x` is `.x` |
| FileSystemExtensions.LockStep | ModPackager/Extensions/FileSystemExtensions.cs:15-23 | the action runs exactly min(\|first\|, \|second\|) times, on index-aligned pairs, in order (none when either is empty) |
| FileSystemExtensions.NameWithoutExtension | ModPackager/Extensions/FileSystemExtensions.cs:25 | the result holds no separator and is the file name minus its last extension |
| FileSystemExtensions.NameWithoutExtensionDropsLastExtension | ModPackager/Extensions/FileSystemExtensions.cs:25 | only the last extension is removed: `dir/stem.x` gives `stem` |
| FileSystemExtensions.NameWithoutExtensionExample | ModPackager/Extensions/FileSystemExtensions.cs:25 | "a.b.dll" gives "a.b" |
| FileSystemExtensions.PathFromParts | ModPackager/AssemblyLoad/ModAssemblyLoadContext.cs:93-95 | a full path is its directory combined with its stem plus its extension |
| FileSystemExtensions.IsDuplicate | ModPackager/Extensions/FileSystemExtensions.cs:27-41 | false when either file is missing or the lengths differ; otherwise true exactly when the SHA-256 hashes agree |
| FileSystemExtensions.IsDuplicateSymmetric | ModPackager/Extensions/FileSystemExtensions.cs:29-40 | `IsDuplicate(a, b) == IsDuplicate(b, a)` |
| FileSystemExtensions.SameContentsAreDuplicates | ModPackager/Extensions/FileSystemExtensions.cs:32-40 | existing files with equal contents are duplicates |
| FileSystemExtensions.IsDuplicateExactWithInjectiveHash | ModPackager/Extensions/FileSystemExtensions.cs:29-40 | with a collision-free hash: duplicate iff both exist with equal contents |
| FileSystemExtensions.RebasedTarget | ModPackager/Extensions/FileSystemExtensions.cs:59 | the target lies under `destPath`, and for an entry under `srcRoot`, putting `srcRoot` back in place of `destPath` gives the entry's own path |
| FileSystemExtensions.RebaseRoundTrip | ModPackager/Extensions/FileSystemExtensions.cs:59-70 | `srcRoot + rel` maps to `destPath + rel`, and rebasing back restores it |
| Probing.CandidateFileSuffix | ModPackager/AssemblyLoad/CustomAssemblyLoadContext.cs:33-39 | `Combine(dir, name) + ext` is the same file as `Combine(dir, name + ext)` |
| Probing.LoadFound | ModPackager/AssemblyLoad/ModAssemblyLoadContext.cs:78-80 | a found path is loaded; no path gives null |
| Probing.ProbeDirectory | ModPackager/AssemblyLoad/CustomAssemblyLoadContext.cs:35-42 | null iff no extension's candidate exists; otherwise the first existing candidate in extension order |
| Probing.DllBeforeExe | ModPackager/AssemblyLoad/CustomAssemblyLoadContext.cs:35-42 | in one directory `.dll` wins over `.exe`; an `.exe` is taken only when the `.dll` is missing |
| Probing.NothingFoundWithoutDllOrExe | ModPackager/AssemblyLoad/CustomAssemblyLoadContext.cs:44 | the search is null iff no directory holds `name.dll` or `name.exe` |
| Probing.ProbeDirectories | ModPackager/AssemblyLoad/CustomAssemblyLoadContext.cs:33-44 | null iff every directory is empty-handed; otherwise the hit of the first directory that has one |
| Probing.FoundWhenPresent | ModPackager/AssemblyLoad/CustomAssemblyLoadContext.cs:47-52 | an existing `.dll`/`.exe` in a listed directory is always found |
| Probing.ProbeAppendedLast | ModPackager/AssemblyLoad/CustomAssemblyLoadContext.cs:50-52 | a directory appended last is consulted only when all earlier ones find nothing |
| Probing.FirstExisting | ModPackager/AssemblyLoad/ModAssemblyLoadContext.cs:76 | null iff no file exists; otherwise the first existing file |
| Probing.FirstExistingConcat | ModPackager/AssemblyLoad/ModAssemblyLoadContext.cs:74-76 | the first existing file of a concatenation comes from the first part if it has one |
| Probing.DirectoryCandidatesAgree | ModPackager/AssemblyLoad/ModAssemblyLoadContext.cs:73-75 | one directory's candidates give the same file as probing that directory |
| Probing.FlattenedProbeAgrees | ModPackager/AssemblyLoad/ModAssemblyLoadContext.cs:73-76 | the flattened `SelectMany`/`FirstOrDefault` search equals the directory-by-directory search |
| ModAssemblyLoadContext.WithDirectory | ModPackager/AssemblyLoad/ModAssemblyLoadContext.cs:94 | the directory is in the bag afterwards, added once only if absent; nothing else changes |
| ModAssemblyLoadContext.WithDirectoryKeepsNoDuplicates | ModPackager/AssemblyLoad/ModAssemblyLoadContext.cs:93-94 | adding a directory this way never creates a duplicate |
| ModAssemblyLoadContext.ModAssemblyLoadContext.constructor | ModPackager/AssemblyLoad/ModAssemblyLoadContext.cs:27-37 | the bag is exactly {cwd, VS, VS/Mods, VS/Lib}; the cache is empty |
| ModAssemblyLoadContext.ModAssemblyLoadContext.TryLoad | ModPackager/AssemblyLoad/ModAssemblyLoadContext.cs:71-81 | whatever the bag's order, the result is null iff no bag directory has a `.dll`/`.exe` candidate; otherwise it is that directory's first existing candidate, `.dll` preferred |
| ModAssemblyLoadContext.ModAssemblyLoadContext.Load | ModPackager/AssemblyLoad/ModAssemblyLoadContext.cs:47-60 | a cache hit returns the cached module with no change; otherwise a found module is cached and returned, and a miss returns null with the cache unchanged; cached entries never change |
| ModAssemblyLoadContext.ModAssemblyLoadContext.AddDirectory | ModPackager/AssemblyLoad/ModAssemblyLoadContext.cs:94 | the bag gains the directory only if absent, so no duplicate arises; the cache is untouched |
| ModAssemblyLoadContext.ModAssemblyLoadContext.LoadAssemblyFromFileInfo | ModPackager/AssemblyLoad/ModAssemblyLoadContext.cs:91-97 | the bag gains the file's directory only if absent, even when the parse then throws; a stem the display-name parser refuses fails with the parser's exception and leaves the cache alone; otherwise the parsed simple name is loaded through `Load`; an existing `.dll`/`.exe` whose stem is a plain name is always found |
| ModAssemblyLoadContext.LoadTwice | ModPackager/AssemblyLoad/ModAssemblyLoadContext.cs:50-56 | after a successful load, loading the same name again yields the identical module |
| CustomAssemblyLoadContext.AppendAbsentKeepsNoDuplicates | ModPackager/AssemblyLoad/CustomAssemblyLoadContext.cs:50 | appending an absent directory keeps the list free of duplicates |
| CustomAssemblyLoadContext.CustomAssemblyLoadContext2.constructor | ModPackager/AssemblyLoad/CustomAssemblyLoadContext.cs:22-29 | the list is exactly [cwd, VS] |
| CustomAssemblyLoadContext.CustomAssemblyLoadContext2.TryLoad | ModPackager/AssemblyLoad/CustomAssemblyLoadContext.cs:31-45 | returns the first directory's `.dll`, else its `.exe`; null iff no directory holds either |
| CustomAssemblyLoadContext.CustomAssemblyLoadContext2.ProbeLoop | ModPackager/AssemblyLoad/CustomAssemblyLoadContext.cs:33-44 | the `foreach` loop, stopping at the first directory with a `.dll` or `.exe`, returns exactly the directory-by-directory search result |
| CustomAssemblyLoadContext.CustomAssemblyLoadContext2.LoadAssemblyFromFileInfo | ModPackager/AssemblyLoad/CustomAssemblyLoadContext.cs:47-53 | the directory is appended last only if absent, even when the parse then throws, with earlier entries kept in order and no duplicates; a stem the display-name parser refuses fails with the parser's exception; otherwise the parsed simple name is probed, and an earlier directory's hit wins over the file itself; an existing `.dll`/`.exe` whose stem is a plain name is found |
| AssemblyNames.AssemblyNameOf | ModPackager/AssemblyLoad/CustomAssemblyLoadContext.cs:51 | `new AssemblyName(stem)`: the empty string, and only it, fails with `ArgumentException`; any other refusal is `FileLoadException`; a parsed simple name is the trimmed text before the first ',', non-empty, without '=' or '/', '\\', ':' and without whitespace at its ends |
| AssemblyNames.PlainNameParsesToItself | ModPackager/AssemblyLoad/ModAssemblyLoadContext.cs:95 | a non-empty stem with no delimiter, quote, illegal character or surrounding whitespace is its own simple name |
| AssemblyNames.PlainNameWithAttributes | ModPackager/AssemblyLoad/ModAssemblyLoadContext.cs:95 | a plain name followed by `, key=value` attributes parses to the plain name |
| AssemblyNames.CommaInStemRefused | ModPackager/AssemblyLoad/ModAssemblyLoadContext.cs:95 | a stem such as `A,B`, whose text after the ',' has no '=', is refused |
| AssemblyNames.EqualsInStemRefused | ModPackager/AssemblyLoad/ModAssemblyLoadContext.cs:95 | a stem such as `A=B` is refused with `FileLoadException` |
| AssemblyNames.LeadingSpaceTrimmed | ModPackager/AssemblyLoad/ModAssemblyLoadContext.cs:95 | a stem with a leading space probes the name without it |
| ResolverLoadContext.ResolverLoadContext.Load | ApacheTech.VintageMods.Common.ModInfoGenerator/Reflection/ModAssemblyLoadContext.cs:13-17 | null iff there is no resolver or it resolves no file; otherwise the resolved file is loaded |
| ResolverLoadContext.ParameterlessContextResolvesNothing | ModPackager/App/GenModInfo/GenModInfo.cs:71-79 | the parameterless `TestAssemblyLoadContext` resolves every dependency to null |
| ResolverLoadContext.OnAssemblyResolve | ApacheTech.VintageMods.Common.ModInfoGenerator/Reflection/ModAssemblyLoadContext.cs:19-40 | throws `InvalidOperationException` iff VINTAGE_STORY is unset; otherwise it loads the first existing `name.dll` over [base, Mods, Lib, Lib64, Lib32], or returns null iff none exists |
| ResolverLoadContext.ResolvesFromFirstInstallDirectory | ApacheTech.VintageMods.Common.ModInfoGenerator/Reflection/ModAssemblyLoadContext.cs:25-38 | the module comes from the first install folder, in that order, that holds `name.dll` |
| DependenciesConverter.WriteJson | ModPackager/App/GenModInfo/DependenciesConverter.cs:31-41 | the writer gains a start token, a name and a value per dependency in list order, and an end token |
| DependenciesConverter.PropertyTokensAt | ModPackager/App/GenModInfo/DependenciesConverter.cs:34-38 | the k-th dependency is written as the k-th name/value pair; repeated ids are written repeatedly |
| DependenciesConverter.SetProperty | ModPackager/App/GenModInfo/DependenciesConverter.cs:23-24 | loading a property sets its value and leaves every other name's value; a new name is appended; a known name keeps its place, the length and every name's position are unchanged, and with distinct names only that property's value changes |
| DependenciesConverter.ReadProperties | ModPackager/App/GenModInfo/DependenciesConverter.cs:25-28 | one dependency per property, (name, value), in property order |
| DependenciesConverter.RoundTripDistinctIds | ModPackager/App/GenModInfo/DependenciesConverter.cs:23-40 | reading what was written gives back a list with distinct ids exactly |
| DependenciesConverter.RoundTripLoadedObject | ModPackager/App/GenModInfo/DependenciesConverter.cs:23-40 | writing what was read reproduces the same name/value pairs in order |
| DependenciesConverter.DuplicateIdsLastVersionWins | ModPackager/App/GenModInfo/DependenciesConverter.cs:23-38 | with repeated ids every id reads back once, carrying the version of its last occurrence |
| DependenciesConverter.EmptyListWritesEmptyObject | ModPackager/App/GenModInfo/DependenciesConverter.cs:33-40 | an empty list is written as `{}` and reads back empty |
| ModInfoJsonDto.PropertiesCarryFields | ModPackager/DataStructures/ModInfoJsonDto.cs:11-55 | each property is written under its JSON name exactly when the record's value is not null, and carries that value |
| ModInfoJsonDto.PropertyNamesDistinct | ModPackager/DataStructures/ModInfoJsonDto.cs:11-53 | no JSON name is written twice |
| ModInfoJsonDto.RequiredPropertiesAlwaysWritten | ModPackager/DataStructures/ModInfoJsonDto.cs:11-33 | type, modId, side, description, version and authors are always written, with the record's values |
| ModInfoJsonDto.OptionalPropertiesOmittedWhenNull | ModPackager/DataStructures/ModInfoJsonDto.cs:29-55 | website, contributors, requiredOnClient/Server, networkVersion, worldConfig, iconPath and dependencies are written iff not null; an empty dependency list is still written, as `{}` |
| ModInfoJsonDto.DefaultValues | ModPackager/DataStructures/ModInfoJsonDto.cs:11-36 | the defaults are "Code", "Untitled Mod", "untitled", "Universal", "<Insert Description Here>", "0.1.0", the website, and ["ApacheTech Solutions"] for authors and contributors; the remaining properties are null |
| ModInfoJsonDto.DefaultProperties | ModPackager/DataStructures/ModInfoJsonDto.cs:38-55 | a default record omits the six null properties and writes all the others |
| AssemblyExtensions.FindModInfo | ModPackager/Extensions/AssemblyExtensions.cs:13 | null iff no `ModInfoAttribute` is declared; otherwise a declared one |
| AssemblyExtensions.GetVersion | ModPackager/Extensions/AssemblyExtensions.cs:11-19 | fails with `CustomAttributeFormatException` naming the module iff the attribute is missing, whatever the style; otherwise the declared version for Static and the product version for any other style |
| AssemblyExtensions.JitTrackingEnabled | ModPackager/Extensions/AssemblyExtensions.cs:23-25 | true iff some `DebuggableAttribute` has JIT tracking enabled |
| AssemblyExtensions.GetConfigurationSuffix | ModPackager/Extensions/AssemblyExtensions.cs:21-27 | "_DEBUG" iff some `DebuggableAttribute` has JIT tracking, "" otherwise |
| AssemblyExtensions.SuffixIgnoresOtherAttributes | ModPackager/Extensions/AssemblyExtensions.cs:23-25 | any other attribute leaves the suffix unchanged |
| ModInfoJsonDtoConverter.ParseSide | ModPackager/App/GenModInfo/ModInfoJsonDtoConverter.cs:34 | parses iff the text equals a side's name up to ASCII case, and then gives that side |
| ModInfoJsonDtoConverter.ParseSideName | ModPackager/App/GenModInfo/ModInfoJsonDtoConverter.cs:34 | every side's own name parses back to it |
| ModInfoJsonDtoConverter.ParseSideExamples | ModPackager/App/GenModInfo/ModInfoJsonDtoConverter.cs:34 | "client", "SERVER" and "uNiVeRsAl" parse; "bogus" and "Clients" do not |
| ModInfoJsonDtoConverter.ToDto | ModPackager/App/GenModInfo/ModInfoJsonDtoConverter.cs:31-57 | fails with `ArgumentException` and the exact message iff the side does not parse, so it never defaults; otherwise Type is "Code", the version and dependencies are the given ones, and every other field, the side included, is copied unchanged |
| ModInfoJsonDtoConverter.SideStoredVerbatim | ModPackager/App/GenModInfo/ModInfoJsonDtoConverter.cs:43 | a side of "client" is accepted and stored as "client", not "Client" |
| ModInfoJsonDtoConverter.FindAllModDependencies | ModPackager/App/GenModInfo/ModInfoJsonDtoConverter.cs:59-65 | the result is no longer than the attributes and holds exactly the declared dependencies |
| ModInfoJsonDtoConverter.FindAllModDependenciesConcat | ModPackager/App/GenModInfo/ModInfoJsonDtoConverter.cs:59-64 | the list follows attribute order |
| ModInfoJsonDtoConverter.FindAllModDependenciesCounts | ModPackager/App/GenModInfo/ModInfoJsonDtoConverter.cs:59-64 | there is no de-duplication: each dependency occurs as often as its attribute is declared |
| ModInfoJsonDtoConverter.PopulateJsonDto | ApacheTech.VintageMods.Common.ModInfoGenerator/Converters/ModInfoJsonDtoConverter.cs:9-18 | fails with `CustomAttributeFormatException` iff the attribute is missing; succeeds iff it is present and its side parses; the version is `GetVersion`'s, the dependencies all the declared ones, Type "Code", and the other fields the attribute's; no state is written |
| Inspection.CollectPassesFrom | ModPackager/App/GenModInfo/GenModInfo.cs:53-57 | from pass i the poll stops at the first dead pass or at 10, and the context was alive at every pass made |
| Inspection.CollectPassesIsFirstDeadOrBound | ModPackager/App/GenModInfo/GenModInfo.cs:53 | the pass count is n iff the context is alive before each of the first n passes and dead after n passes, unless n is 10 |
| Inspection.PollUntilCollected | ModPackager/App/GenModInfo/GenModInfo.cs:53-57 | the loop makes `CollectPasses` passes, at most 10, and always terminates normally |
| Inspection.ExecuteAndUnloadEffects | ModPackager/App/GenModInfo/GenModInfo.cs:36-47 | the run starts with the load; unload and the write happen iff the descriptor was built; the write comes just before the unload |
| Inspection.RunEffectsOrder | ModPackager/App/GenModInfo/GenModInfo.cs:50-59 | a successful run is load, write, unload, then at most 10 collect passes; a failed one is the load alone |
| Inspection.NewGenModInfo | ModPackager/App/GenModInfo/GenModInfo.cs:23-33 | a missing file gives `FileNotFoundException`, checked first; otherwise any extension but exactly ".dll" gives `DllNotFoundException` |
| Inspection.ExtensionCheckIsCaseSensitive | ModPackager/App/GenModInfo/GenModInfo.cs:31-32 | an existing "Mod.DLL" is refused and "Mod.dll" is accepted |
| Inspection.GenModInfoStatics.constructor | ModPackager/App/GenModInfo/GenModInfo.cs:13-15 | the static Version and Configuration start as "0.1.0" and "" |
| GenModInfoApp.PopulateJsonDto | ModPackager/App/GenModInfo/ModInfoJsonDtoConverter.cs:12-24 | the same descriptor as the pure conversion; with the attribute missing the statics are unchanged, otherwise Version and Configuration are set before the side check, so they change even when it fails |
| GenModInfoApp.DoStuff | ModPackager/App/GenModInfo/GenModInfo.cs:36-59 | the effects are load, write, unload and the bounded poll, or only the load when the descriptor fails; the run fails iff the descriptor build fails; the published version and configuration suffix are those of the module when it has the metadata attribute, and unchanged when it does not |
| GenModInfoHelpers.ResolveDependencies | ModPackager/Helpers/GenModInfo.cs:38-61 | the same sequencing and bounded poll for the supplied context |
| ModInfoGenerator.DescriptorPath | ApacheTech.VintageMods.Common.ModInfoGenerator/App/ModInfoGenerator.cs:40 | the descriptor is `modinfo.json` in the output directory |
| ModInfoGenerator.Execute | ApacheTech.VintageMods.Common.ModInfoGenerator/App/ModInfoGenerator.cs:19-43 | load, write `modinfo.json`, unload, then at most 10 passes; a failed descriptor propagates before the write and the unload |
| XmlElementExtensions.ChildElement | ModPackager/Extensions/XmlElementExtensions.cs:15 | null iff no child has the name; otherwise the first child that has it |
| XmlElementExtensions.FileStem | ModPackager/Extensions/XmlElementExtensions.cs:16 | the prefix before the first ',' |
| XmlElementExtensions.FileStemWhole | ModPackager/Extensions/XmlElementExtensions.cs:16 | the stem is the whole name iff the name has no ',' |
| XmlElementExtensions.FilterAssemblies | ModPackager/Extensions/XmlElementExtensions.cs:12-19 | no longer than the input; holds exactly the `dir/stem.dll` files of the elements whose action child has identity "1" |
| XmlElementExtensions.FilterAssembliesConcat | ModPackager/Extensions/XmlElementExtensions.cs:14-18 | element order is preserved |
| XmlElementExtensions.UnflaggedElementSkipped | ModPackager/Extensions/XmlElementExtensions.cs:15 | an element without the action child, or with any other flag value, is skipped |
| XmlElementExtensions.FilterEmbeddedAssemblies | ModPackager/Extensions/XmlElementExtensions.cs:21-24 | keeps the elements flagged Embedding/@Embed = "1" |
| XmlElementExtensions.FilterMergedAssemblies | ModPackager/Extensions/XmlElementExtensions.cs:26-29 | keeps the elements flagged Merging/@Merge = "1" |
| XmlElementExtensions.StrongNameExample | ModPackager/Extensions/XmlElementExtensions.cs:16-17 | "Foo, Version=1.0.0.0" names `dir/Foo.dll` |

## Left out

- **I/O, process and host.** Reading the environment and the current directory is
  replaced by parameters. Logging (`Log.Error` at ModPackager/AssemblyLoad/ModAssemblyLoadContext.cs:58) is left out. JSON text formatting
  and escaping are left out too: the descriptor is a list of JSON property names and values,
  and the dependency object is a token stream.
- **Concurrency.** `ConcurrentBag`/`ConcurrentDictionary` thread safety and the `lock` in
  `OnAssemblyResolve` are left out; every operation is sequential. The un-awaited
  `File.WriteAllTextAsync` (ModPackager/App/GenModInfo/GenModInfo.cs:44, ModPackager/Helpers/GenModInfo.cs:46) is modelled as a write that
  completes before the unload.
- **Garbage collection.** `GC.Collect`, `WaitForPendingFinalizers` and `WeakReference` are
  left out; the witness `isAlive` stands for them.
- **Runtime oracles.** `LoadFromAssemblyPath`, `AssemblyDependencyResolver`,
  `FileVersionInfo` and SHA-256 are not modelled, and neither is `Path.Combine` beyond an
  injective join. `FileInfo` path normalisation is not modelled: `FullName` is taken to be
  the path as given.
- **CustomAssemblyLoadContext** (ModPackager/AssemblyLoad/CustomAssemblyLoadContext.cs:11-16) is an empty context with no behaviour of its own.
- **DependenciesConverter.CanConvert** (ModPackager/App/GenModInfo/DependenciesConverter.cs:12-15) is a type test over the .NET type system.
- **VINTAGE_STORY unset.** When the variable is unset, the two ModPackager contexts combine a
  null path (which throws) or store null. This is not modelled: their constructors take the
  path as a string.
- **Null values.** Null `Authors` and a null `ProductVersion` are not modelled: these fields
  are plain strings and lists.
- AssemblyNames.AssemblyNameOf: models the display-name grammar only as far as a file stem
  meets it. Quoted names and backslash escapes are treated as plain characters. Only space,
  tab, CR and LF count as whitespace. The values of known attributes (`Version`, `Culture`,
  `PublicKeyToken`, ...) and repeated attributes are not validated. So the model may accept
  some display names the runtime refuses, and may refuse some it accepts.
- ModInfoJsonDto.Emit: the record's `[JsonConverter(typeof(DependenciesConverter))]`
  resolves to the copy in `ModPackager.JsonConverters` (ModPackager/DataStructures/ModInfoJsonDto.cs:2),
  which is not part of this model. The `ModPackager.App.GenModInfo` converter's
  `ObjectTokens` stands for it, so `PropertiesCarryFields` and
  `OptionalPropertiesOmittedWhenNull` (an empty list written as `{}`) rest on that choice.
- **Node types.** A non-element node in the XML list is not modelled. `Cast<XmlElement>` would
  throw on one; the input is a sequence of elements.
- ModInfoJsonDtoConverter.ParseSide: only the three names are accepted, up to ASCII case.
  `Enum.TryParse` also accepts numeric and comma-separated forms, surrounding whitespace, and
  non-ASCII case folding; the model rejects all of these.
- AssemblyExtensions.FindModInfo: returns the first `ModInfoAttribute`. The runtime's
  `AmbiguousMatchException` for several such attributes is not modelled.
- GenModInfoHelpers.ResolveDependencies: the `PopulateJsonDto` it calls lives in
  `ModPackager.JsonConverters`, which is not part of this model. The shared pure conversion
  stands for it, and the helper's static Version and Configuration are not written.
- ModAssemblyLoadContext.ModAssemblyLoadContext.TryLoad: because the bag's enumeration order
  is unspecified, the contract is stated for every order. It promises a hit from some bag
  directory, with that directory's `.dll` preferred. It does not promise a hit from the first
  directory.
- **Side exceptions from loading.** `LoadFromAssemblyPath` can throw (for example
  `BadImageFormatException`); here a load always succeeds.
- **PackagerApplication, the command-line and program hosts, and `Purge`/`Copy`/`Move`.**
  These are I/O orchestration. Only the rebasing expression of copy/move is modelled.
