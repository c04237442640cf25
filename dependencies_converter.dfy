/** `DependenciesConverter`: a dependency list is written as one JSON object with
    one `modId: version` property per entry, and read back with one entry per
    property. JSON text is not modelled: the writer produces tokens, and
    `JObject.Load` turns tokens into an object, replacing the value of a property
    whose name is already present (Json.NET's default), so that a name keeps its
    first position and takes its last value. */
module DependenciesConverter {
  import opened Wrappers
  import opened ModAttributes

  datatype JsonToken = StartObject | PropertyName(name: string) | StringValue(value: string) | EndObject

  /** The token stream of a `JsonWriter`. */
  class JsonWriter {
    var tokens: seq<JsonToken>

    constructor()
      ensures tokens == []
    {
      tokens := [];
    }

    method WriteStartObject()
      modifies this
      ensures tokens == old(tokens) + [StartObject]
    {
      tokens := tokens + [StartObject];
    }

    method WritePropertyName(name: string)
      modifies this
      ensures tokens == old(tokens) + [PropertyName(name)]
    {
      tokens := tokens + [PropertyName(name)];
    }

    method WriteValue(value: string)
      modifies this
      ensures tokens == old(tokens) + [StringValue(value)]
    {
      tokens := tokens + [StringValue(value)];
    }

    method WriteEndObject()
      modifies this
      ensures tokens == old(tokens) + [EndObject]
    {
      tokens := tokens + [EndObject];
    }
  }

  /** The property tokens for `deps`: a name and a value per dependency. */
  function PropertyTokens(deps: seq<ModDependency>): seq<JsonToken>
  {
    if deps == [] then []
    else [PropertyName(deps[0].ModID), StringValue(deps[0].Version)] + PropertyTokens(deps[1..])
  }

  /** The tokens of the object `WriteJson` writes for `deps`. */
  function ObjectTokens(deps: seq<ModDependency>): seq<JsonToken>
  {
    [StartObject] + PropertyTokens(deps) + [EndObject]
  }

  lemma {:induction false} PropertyTokensAppend(deps: seq<ModDependency>, d: ModDependency)
    ensures PropertyTokens(deps + [d]) == PropertyTokens(deps) + [PropertyName(d.ModID), StringValue(d.Version)]
  {
    if deps != [] {
      assert (deps + [d])[1..] == deps[1..] + [d];
      PropertyTokensAppend(deps[1..], d);
    } else {
      assert [] + [d] == [d];
    }
  }

  /** One name token and one value token per dependency, in list order, with no de-duplication. */
  lemma {:induction false} PropertyTokensAt(deps: seq<ModDependency>, k: nat)
    requires k < |deps|
    ensures |PropertyTokens(deps)| == 2 * |deps|
    ensures PropertyTokens(deps)[2 * k] == PropertyName(deps[k].ModID)
    ensures PropertyTokens(deps)[2 * k + 1] == StringValue(deps[k].Version)
  {
    if k == 0 {
      PropertyTokensLength(deps);
    } else {
      PropertyTokensAt(deps[1..], k - 1);
      PropertyTokensLength(deps);
    }
  }

  lemma {:induction false} PropertyTokensLength(deps: seq<ModDependency>)
    ensures |PropertyTokens(deps)| == 2 * |deps|
  {
    if deps != [] {
      PropertyTokensLength(deps[1..]);
    }
  }

  /** `WriteJson`: start the object, write each dependency's id and version, end the object. */
  method WriteJson(writer: JsonWriter, value: seq<ModDependency>)
    modifies writer
    ensures writer.tokens == old(writer.tokens) + ObjectTokens(value)
  {
    writer.WriteStartObject();
    var i := 0;
    while i < |value|
      invariant 0 <= i <= |value|
      invariant writer.tokens == old(writer.tokens) + [StartObject] + PropertyTokens(value[..i])
    {
      PropertyTokensAppend(value[..i], value[i]);
      assert value[..i + 1] == value[..i] + [value[i]];
      writer.WritePropertyName(value[i].ModID);
      writer.WriteValue(value[i].Version);
      i := i + 1;
    }
    assert value[..i] == value;
    writer.WriteEndObject();
  }

  /** A property of a loaded `JObject`. */
  datatype JProperty = JProperty(Name: string, Value: string)

  /** The value of the property named `name`, if any. */
  function Lookup(obj: seq<JProperty>, name: string): Option<string>
  {
    if obj == [] then None
    else if obj[0].Name == name then Some(obj[0].Value)
    else Lookup(obj[1..], name)
  }

  /** No two properties share a name. */
  ghost predicate DistinctNames(obj: seq<JProperty>)
  {
    forall i, j :: 0 <= i < j < |obj| ==> obj[i].Name != obj[j].Name
  }

  /** Adds a property while loading: a new name is appended, a known name gets the new value in place. */
  function SetProperty(obj: seq<JProperty>, name: string, value: string): (after: seq<JProperty>)
    ensures Lookup(after, name) == Some(value)
    ensures forall other :: other != name ==> Lookup(after, other) == Lookup(obj, other)
    ensures Lookup(obj, name).None? ==> after == obj + [JProperty(name, value)]
    ensures Lookup(obj, name).Some? ==>
      && |after| == |obj|
      && forall i :: 0 <= i < |obj| ==> after[i].Name == obj[i].Name
    ensures DistinctNames(obj) ==>
      forall i :: 0 <= i < |obj| ==> after[i] == (if obj[i].Name == name then JProperty(name, value) else obj[i])
  {
    if obj == [] then [JProperty(name, value)]
    else if obj[0].Name == name then
      var after := [JProperty(name, value)] + obj[1..];
      assert DistinctNames(obj) ==> forall i :: 1 <= i < |obj| ==> obj[i].Name != name;
      after
    else
      assert (obj + [JProperty(name, value)])[1..] == obj[1..] + [JProperty(name, value)];
      assert DistinctNames(obj) ==> DistinctNames(obj[1..]) by {
        if DistinctNames(obj) {
          forall i, j | 0 <= i < j < |obj[1..]| ensures obj[1..][i].Name != obj[1..][j].Name {
            assert obj[1..][i] == obj[i + 1] && obj[1..][j] == obj[j + 1];
          }
        }
      }
      var rest := SetProperty(obj[1..], name, value);
      var after := [obj[0]] + rest;
      assert forall i :: 1 <= i < |after| ==> after[i] == rest[i - 1];
      assert forall i :: 1 <= i < |obj| ==> obj[i] == obj[1..][i - 1];
      after
  }

  lemma {:induction false} LookupNoneMeansAbsent(obj: seq<JProperty>, name: string)
    ensures Lookup(obj, name).None? <==> forall i :: 0 <= i < |obj| ==> obj[i].Name != name
  {
    if obj != [] {
      LookupNoneMeansAbsent(obj[1..], name);
      assert forall i :: 1 <= i < |obj| ==> obj[i] == obj[1..][i - 1];
    }
  }

  lemma {:induction false} SetPropertyKeepsNamesDistinct(obj: seq<JProperty>, name: string, value: string)
    requires DistinctNames(obj)
    ensures DistinctNames(SetProperty(obj, name, value))
  {
    if obj != [] && obj[0].Name != name {
      SetPropertyKeepsNamesDistinct(obj[1..], name, value);
      var rest := SetProperty(obj[1..], name, value);
      forall j | 0 <= j < |rest| ensures rest[j].Name != obj[0].Name {
        LookupNoneMeansAbsent(obj[1..], obj[0].Name);
        LookupNoneMeansAbsent(rest, obj[0].Name);
      }
    } else if obj != [] {
      assert forall i :: 1 <= i < |obj| ==> SetProperty(obj, name, value)[i] == obj[i];
    } else {
    }
  }

  /** Loads the properties of an object body onto `acc`; None when the tokens are not
      name/value pairs. */
  function LoadProperties(body: seq<JsonToken>, acc: seq<JProperty>): Option<seq<JProperty>>
    decreases |body|
  {
    if body == [] then Some(acc)
    else if |body| >= 2 && body[0].PropertyName? && body[1].StringValue? then
      LoadProperties(body[2..], SetProperty(acc, body[0].name, body[1].value))
    else None
  }

  /** `JObject.Load`: an object is a start token, name/value pairs and an end token. */
  function LoadObject(tokens: seq<JsonToken>): Option<seq<JProperty>>
  {
    if |tokens| >= 2 && tokens[0] == StartObject && tokens[|tokens| - 1] == EndObject then
      LoadProperties(tokens[1..|tokens| - 1], [])
    else None
  }

  /** `ReadJson` on a loaded object: one dependency per property, in property order. */
  function ReadProperties(obj: seq<JProperty>): (deps: seq<ModDependency>)
    ensures |deps| == |obj|
    ensures forall i :: 0 <= i < |obj| ==> deps[i] == ModDependency(obj[i].Name, obj[i].Value)
  {
    if obj == [] then [] else [ModDependency(obj[0].Name, obj[0].Value)] + ReadProperties(obj[1..])
  }

  /** `ReadJson`: load the object, then read its properties; None when the tokens are no object. */
  function ReadJson(tokens: seq<JsonToken>): Option<seq<ModDependency>>
  {
    match LoadObject(tokens)
    case None => None
    case Some(obj) => Some(ReadProperties(obj))
  }

  /** The properties a list of dependencies stands for, one per entry. */
  function AsProperties(deps: seq<ModDependency>): (obj: seq<JProperty>)
    ensures |obj| == |deps|
    ensures forall i :: 0 <= i < |deps| ==> obj[i] == JProperty(deps[i].ModID, deps[i].Version)
  {
    if deps == [] then [] else [JProperty(deps[0].ModID, deps[0].Version)] + AsProperties(deps[1..])
  }

  /** The ids are pairwise distinct. */
  ghost predicate DistinctIds(deps: seq<ModDependency>)
  {
    forall i, j :: 0 <= i < j < |deps| ==> deps[i].ModID != deps[j].ModID
  }

  lemma {:induction false} ObjectBody(deps: seq<ModDependency>)
    ensures |ObjectTokens(deps)| >= 2
    ensures ObjectTokens(deps)[0] == StartObject
    ensures ObjectTokens(deps)[|ObjectTokens(deps)| - 1] == EndObject
    ensures ObjectTokens(deps)[1..|ObjectTokens(deps)| - 1] == PropertyTokens(deps)
  {
  }

  lemma AsPropertiesCons(acc: seq<JProperty>, deps: seq<ModDependency>)
    requires deps != []
    ensures acc + AsProperties(deps) == (acc + [JProperty(deps[0].ModID, deps[0].Version)]) + AsProperties(deps[1..])
  {
  }

  lemma {:induction false} LoadDistinctProperties(deps: seq<ModDependency>, acc: seq<JProperty>)
    requires DistinctIds(deps)
    requires forall i, k :: 0 <= i < |deps| && 0 <= k < |acc| ==> deps[i].ModID != acc[k].Name
    ensures LoadProperties(PropertyTokens(deps), acc) == Some(acc + AsProperties(deps))
  {
    if deps == [] {
      assert acc + [] == acc;
    } else {
      var d := deps[0];
      var rest := deps[1..];
      var body := PropertyTokens(deps);
      assert body == [PropertyName(d.ModID), StringValue(d.Version)] + PropertyTokens(rest);
      assert body[2..] == PropertyTokens(rest);
      LookupNoneMeansAbsent(acc, d.ModID);
      var acc' := SetProperty(acc, d.ModID, d.Version);
      assert LoadProperties(body, acc) == LoadProperties(PropertyTokens(rest), acc');
      assert acc' == acc + [JProperty(d.ModID, d.Version)];
      assert DistinctIds(rest) by {
        forall i, j | 0 <= i < j < |rest| ensures rest[i].ModID != rest[j].ModID {
          assert rest[i] == deps[i + 1] && rest[j] == deps[j + 1];
        }
      }
      forall i, k | 0 <= i < |rest| && 0 <= k < |acc'| ensures rest[i].ModID != acc'[k].Name {
        assert rest[i] == deps[i + 1];
      }
      LoadDistinctProperties(rest, acc');
      AsPropertiesCons(acc, deps);
    }
  }

  /** Round trip: a list with pairwise-distinct ids is read back exactly as written. */
  lemma RoundTripDistinctIds(deps: seq<ModDependency>)
    requires DistinctIds(deps)
    ensures ReadJson(ObjectTokens(deps)) == Some(deps)
  {
    ObjectBody(deps);
    LoadDistinctProperties(deps, []);
    assert [] + AsProperties(deps) == AsProperties(deps);
    assert ReadProperties(AsProperties(deps)) == deps;
  }

  /** The dependencies `ReadJson` yields for a loaded object, written back, give the same
      object: the same names and values in the same order. */
  lemma RoundTripLoadedObject(obj: seq<JProperty>)
    requires DistinctNames(obj)
    ensures AsProperties(ReadProperties(obj)) == obj
    ensures LoadObject(ObjectTokens(ReadProperties(obj))) == Some(obj)
  {
    var deps := ReadProperties(obj);
    assert AsProperties(deps) == obj;
    assert DistinctIds(deps);
    ObjectBody(deps);
    LoadDistinctProperties(deps, []);
    assert [] + AsProperties(deps) == obj;
  }

  /** The version of the last dependency with id `id`. */
  function LastVersion(deps: seq<ModDependency>, id: string): Option<string>
  {
    if deps == [] then None
    else
      var later := LastVersion(deps[1..], id);
      if later.Some? then later
      else if deps[0].ModID == id then Some(deps[0].Version)
      else None
  }

  lemma {:induction false} LoadPropertiesLastWins(deps: seq<ModDependency>, acc: seq<JProperty>)
    requires DistinctNames(acc)
    ensures LoadProperties(PropertyTokens(deps), acc).Some?
    ensures DistinctNames(LoadProperties(PropertyTokens(deps), acc).value)
    ensures forall id :: Lookup(LoadProperties(PropertyTokens(deps), acc).value, id) ==
              if LastVersion(deps, id).Some? then LastVersion(deps, id) else Lookup(acc, id)
  {
    if deps != [] {
      var d := deps[0];
      assert PropertyTokens(deps)[2..] == PropertyTokens(deps[1..]);
      var acc' := SetProperty(acc, d.ModID, d.Version);
      SetPropertyKeepsNamesDistinct(acc, d.ModID, d.Version);
      LoadPropertiesLastWins(deps[1..], acc');
    }
  }

  /** Duplicate ids are not rejected: every id written is read back once, with the version
      of its last occurrence. */
  lemma DuplicateIdsLastVersionWins(deps: seq<ModDependency>)
    ensures ReadJson(ObjectTokens(deps)).Some?
    ensures var obj := LoadObject(ObjectTokens(deps)).value;
      DistinctNames(obj) && forall id :: Lookup(obj, id) == LastVersion(deps, id)
  {
    ObjectBody(deps);
    LoadPropertiesLastWins(deps, []);
  }

  /** An empty list is written as an empty object, and reads back as an empty list. */
  lemma EmptyListWritesEmptyObject()
    ensures ObjectTokens([]) == [StartObject, EndObject]
    ensures LoadObject(ObjectTokens([])) == Some([])
    ensures ReadJson(ObjectTokens([])) == Some([])
  {
    ObjectBody([]);
  }
}
