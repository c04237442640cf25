/** `XmlElementExtensions`: picks, from the assembly elements of a weaving configuration,
    those flagged for embedding or merging, and names the `.dll` file of each. */
module XmlElementExtensions {
  import opened Wrappers
  import Paths

  /** An XML element: its name, its attributes and its child elements. */
  datatype XmlElement = XmlElement(Name: string, Attributes: map<string, string>, Children: seq<XmlElement>)

  /** `XmlElement.GetAttribute`: the attribute's value, or "" when it is absent. */
  function GetAttribute(e: XmlElement, name: string): (value: string)
    ensures name !in e.Attributes ==> value == ""
    ensures name in e.Attributes ==> value == e.Attributes[name]
  {
    if name in e.Attributes then e.Attributes[name] else ""
  }

  /** The element indexer `e[name]`: the first child element with that name, or null. */
  function ChildElement(children: seq<XmlElement>, name: string): (r: Option<XmlElement>)
    ensures r.None? <==> forall i :: 0 <= i < |children| ==> children[i].Name != name
    ensures r.Some? ==> exists i :: 0 <= i < |children| && children[i] == r.value
                          && r.value.Name == name
                          && forall k :: 0 <= k < i ==> children[k].Name != name
  {
    if children == [] then None
    else if children[0].Name == name then Some(children[0])
    else
      var r := ChildElement(children[1..], name);
      assert forall i :: 1 <= i < |children| ==> children[i] == children[1..][i - 1];
      r
  }

  /** `assembly[action]?.GetAttribute(identity) == "1"`. */
  predicate IsFlagged(assembly: XmlElement, action: string, identity: string)
  {
    var child := ChildElement(assembly.Children, action);
    child.Some? && GetAttribute(child.value, identity) == "1"
  }

  /** `AssemblyName.Split(',', 2)[0]`: the text before the first ',', or all of it. */
  function FileStem(assemblyName: string): (stem: string)
    ensures stem <= assemblyName
    ensures ',' !in stem
    ensures |stem| < |assemblyName| ==> assemblyName[|stem|] == ','
  {
    if assemblyName == [] || assemblyName[0] == ',' then ""
    else [assemblyName[0]] + FileStem(assemblyName[1..])
  }

  /** The stem is the whole name exactly when it has no ','. */
  lemma FileStemWhole(assemblyName: string)
    ensures FileStem(assemblyName) == assemblyName <==> ',' !in assemblyName
  {
  }

  /** The file an assembly element names: `dir/stem.dll`. */
  function AssemblyFile(assemblyDir: string, assembly: XmlElement): string
  {
    Paths.Combine(assemblyDir, FileStem(GetAttribute(assembly, "AssemblyName")) + ".dll")
  }

  /** `FilterAssemblies`: the files of the flagged elements, in element order. */
  function FilterAssemblies(assemblies: seq<XmlElement>, assemblyDir: string, action: string, identity: string)
    : (files: seq<string>)
    ensures |files| <= |assemblies|
    ensures forall i :: 0 <= i < |assemblies| && IsFlagged(assemblies[i], action, identity) ==>
              AssemblyFile(assemblyDir, assemblies[i]) in files
    ensures forall f :: f in files ==>
              exists i :: 0 <= i < |assemblies| && IsFlagged(assemblies[i], action, identity)
                          && f == AssemblyFile(assemblyDir, assemblies[i])
  {
    if assemblies == [] then []
    else
      var rest := FilterAssemblies(assemblies[1..], assemblyDir, action, identity);
      assert forall i :: 1 <= i < |assemblies| ==> assemblies[i] == assemblies[1..][i - 1];
      if IsFlagged(assemblies[0], action, identity) then [AssemblyFile(assemblyDir, assemblies[0])] + rest
      else rest
  }

  /** Element order is kept: the files of a concatenation are the files of each part, in turn. */
  lemma {:induction false} FilterAssembliesConcat(a: seq<XmlElement>, b: seq<XmlElement>, assemblyDir: string, action: string, identity: string)
    ensures FilterAssemblies(a + b, assemblyDir, action, identity) ==
            FilterAssemblies(a, assemblyDir, action, identity) + FilterAssemblies(b, assemblyDir, action, identity)
  {
    if a != [] {
      assert (a + b)[1..] == a[1..] + b;
      FilterAssembliesConcat(a[1..], b, assemblyDir, action, identity);
    } else {
      assert [] + b == b;
    }
  }

  /** An element without the action child, or whose flag is anything but exactly "1", is skipped. */
  lemma UnflaggedElementSkipped(assembly: XmlElement, assemblyDir: string, action: string, identity: string)
    requires ChildElement(assembly.Children, action).None?
             || GetAttribute(ChildElement(assembly.Children, action).value, identity) != "1"
    ensures FilterAssemblies([assembly], assemblyDir, action, identity) == []
  {
  }

  /** `FilterEmbeddedAssemblies`: the elements flagged `Embedding/@Embed = "1"`. */
  function FilterEmbeddedAssemblies(assemblies: seq<XmlElement>, assemblyDir: string): (files: seq<string>)
    ensures forall i :: 0 <= i < |assemblies| && IsFlagged(assemblies[i], "Embedding", "Embed") ==>
              AssemblyFile(assemblyDir, assemblies[i]) in files
    ensures forall f :: f in files ==>
              exists i :: 0 <= i < |assemblies| && IsFlagged(assemblies[i], "Embedding", "Embed")
                          && f == AssemblyFile(assemblyDir, assemblies[i])
  {
    FilterAssemblies(assemblies, assemblyDir, "Embedding", "Embed")
  }

  /** `FilterMergedAssemblies`: the elements flagged `Merging/@Merge = "1"`. */
  function FilterMergedAssemblies(assemblies: seq<XmlElement>, assemblyDir: string): (files: seq<string>)
    ensures forall i :: 0 <= i < |assemblies| && IsFlagged(assemblies[i], "Merging", "Merge") ==>
              AssemblyFile(assemblyDir, assemblies[i]) in files
    ensures forall f :: f in files ==>
              exists i :: 0 <= i < |assemblies| && IsFlagged(assemblies[i], "Merging", "Merge")
                          && f == AssemblyFile(assemblyDir, assemblies[i])
  {
    FilterAssemblies(assemblies, assemblyDir, "Merging", "Merge")
  }

  /** A strong name keeps only its simple name: "Foo, Version=1.0.0.0" names `dir/Foo.dll`. */
  lemma StrongNameExample(dir: string, assembly: XmlElement)
    requires GetAttribute(assembly, "AssemblyName") == "Foo, Version=1.0.0.0"
    ensures FileStem("Foo, Version=1.0.0.0") == "Foo"
    ensures AssemblyFile(dir, assembly) == Paths.Combine(dir, "Foo.dll")
  {
    var s := "Foo, Version=1.0.0.0";
    assert "Foo" + ".dll" == "Foo.dll";
    assert s[3] == ',';
    assert s[0] != ',' && s[1] != ',' && s[2] != ',';
  }
}
