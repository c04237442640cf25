/** `new AssemblyName(displayName)`: the display-name parser the load contexts run on a file's
    stem before probing. A display name is a simple name, optionally followed by
    `, key=value` attributes. The parser refuses an empty string with `ArgumentException`
    and a malformed name with `FileLoadException`; it trims whitespace around each token. */
module AssemblyNames {
  import opened Wrappers
  import opened Exceptions

  const EmptyNameMessage: string := "String cannot have zero length."
  const InvalidNameMessage: string := "The given assembly name was invalid."

  /** The whitespace the parser skips around a token. */
  predicate IsWhiteSpace(c: char)
  {
    c == ' ' || c == '\t' || c == '\n' || c == '\r'
  }

  /** Characters a simple name may not hold. */
  predicate IllegalInSimpleName(c: char)
  {
    c == '/' || c == '\\' || c == ':'
  }

  /** `s` without its leading whitespace. */
  function TrimStart(s: string): (r: string)
    ensures |r| <= |s| && r == s[|s| - |r|..]
    ensures forall k :: 0 <= k < |s| - |r| ==> IsWhiteSpace(s[k])
    ensures r == [] || !IsWhiteSpace(r[0])
  {
    if s != [] && IsWhiteSpace(s[0]) then TrimStart(s[1..]) else s
  }

  /** `s` without its trailing whitespace. */
  function TrimEnd(s: string): (r: string)
    ensures |r| <= |s| && r == s[..|r|]
    ensures forall k :: |r| <= k < |s| ==> IsWhiteSpace(s[k])
    ensures r == [] || !IsWhiteSpace(r[|r| - 1])
  {
    if s != [] && IsWhiteSpace(s[|s| - 1]) then TrimEnd(s[..|s| - 1]) else s
  }

  /** `s` without whitespace at either end. */
  function Trim(s: string): (r: string)
    ensures r == [] || (!IsWhiteSpace(r[0]) && !IsWhiteSpace(r[|r| - 1]))
  {
    TrimEnd(TrimStart(s))
  }

  /** Every character `Trim` keeps comes from `s`. */
  lemma TrimKeepsCharacters(s: string, c: char)
    requires c !in s
    ensures c !in Trim(s)
  {
    var t := TrimStart(s);
    var r := TrimEnd(t);
    forall k | 0 <= k < |r|
      ensures r[k] != c
    {
      assert r[k] == t[k];
      assert t[k] == s[|s| - |t| + k];
    }
  }

  /** Text without whitespace at its ends is its own trim. */
  lemma TrimmedIsFixed(s: string)
    requires s == [] || (!IsWhiteSpace(s[0]) && !IsWhiteSpace(s[|s| - 1]))
    ensures Trim(s) == s
  {
  }

  /** The text before the first `sep`, and the text after it when `s` holds one. */
  function SplitFirst(s: string, sep: char): (parts: (string, Option<string>))
    ensures sep !in parts.0
    ensures parts.1.None? <==> sep !in s
    ensures parts.1.None? ==> parts.0 == s
    ensures parts.1.Some? ==> s == parts.0 + [sep] + parts.1.value
  {
    if s == [] then ("", None)
    else if s[0] == sep then ("", Some(s[1..]))
    else
      var rest := SplitFirst(s[1..], sep);
      assert rest.1.Some? ==> s == [s[0]] + rest.0 + [sep] + rest.1.value;
      ([s[0]] + rest.0, rest.1)
  }

  /** Splitting at the first `sep` undoes joining with it, when the left part has none. */
  lemma {:induction false} SplitFirstJoin(a: string, sep: char, b: string)
    requires sep !in a
    ensures SplitFirst(a + [sep] + b, sep) == (a, Some(b))
  {
    if a == [] {
      assert a + [sep] + b == [sep] + b;
    } else {
      assert (a + [sep] + b)[0] == a[0] != sep;
      assert (a + [sep] + b)[1..] == a[1..] + [sep] + b;
      SplitFirstJoin(a[1..], sep, b);
      assert [a[0]] + a[1..] == a;
    }
  }

  /** `key=value`: a non-blank key, one '=' and a non-blank value. The values of the keys
      the parser knows (`Version`, `Culture`, `PublicKeyToken`, ...) are not checked here. */
  predicate WellFormedAttribute(component: string)
  {
    var kv := SplitFirst(component, '=');
    kv.1.Some? && Trim(kv.0) != [] && '=' !in kv.1.value && Trim(kv.1.value) != []
  }

  /** Every ','-separated component of `attributes` is well formed. */
  predicate AttributesWellFormed(attributes: string)
    decreases |attributes|
  {
    var p := SplitFirst(attributes, ',');
    WellFormedAttribute(p.0) && (p.1.None? || AttributesWellFormed(p.1.value))
  }

  /** A non-empty simple name without '=' or an illegal character. */
  predicate ValidSimpleName(name: string)
  {
    name != [] && forall k :: 0 <= k < |name| ==> name[k] != '=' && !IllegalInSimpleName(name[k])
  }

  /** The trimmed text before the first ',' holds no ','. */
  lemma NoCommaInName(displayName: string)
    ensures ',' !in Trim(SplitFirst(displayName, ',').0)
  {
    TrimKeepsCharacters(SplitFirst(displayName, ',').0, ',');
  }

  /** The simple name of a display name, as `AssemblyName.Name` reports it. */
  function AssemblyNameOf(displayName: string): (r: Result<string, Exception>)
    ensures displayName == [] <==> r == Failure(ArgumentException(EmptyNameMessage))
    ensures displayName != [] && r.Failure? ==> r.error == FileLoadException(InvalidNameMessage)
    ensures r.Success? ==>
      && ValidSimpleName(r.value) && ',' !in r.value
      && !IsWhiteSpace(r.value[0]) && !IsWhiteSpace(r.value[|r.value| - 1])
      && r.value == Trim(SplitFirst(displayName, ',').0)
  {
    if displayName == [] then Failure(ArgumentException(EmptyNameMessage))
    else
      var parts := SplitFirst(displayName, ',');
      var name := Trim(parts.0);
      NoCommaInName(displayName);
      if !ValidSimpleName(name) then
        Failure(FileLoadException(InvalidNameMessage))
      else if parts.1.Some? && !AttributesWellFormed(parts.1.value) then
        Failure(FileLoadException(InvalidNameMessage))
      else
        Success(name)
  }

  /** A name the parser passes through unchanged: non-empty, no delimiter, no quote, no
      illegal character and no whitespace at its ends. */
  predicate PlainName(s: string)
  {
    && s != []
    && !IsWhiteSpace(s[0]) && !IsWhiteSpace(s[|s| - 1])
    && forall k :: 0 <= k < |s| ==> s[k] != ',' && s[k] != '=' && s[k] != '"' && s[k] != '\'' && !IllegalInSimpleName(s[k])
  }

  /** A plain name is its own simple name. */
  lemma PlainNameParsesToItself(s: string)
    ensures PlainName(s) ==> AssemblyNameOf(s) == Success(s)
  {
    if PlainName(s) {
      PlainNameParses(s);
    }
  }

  lemma PlainNameParses(s: string)
    requires PlainName(s)
    ensures AssemblyNameOf(s) == Success(s)
  {
    assert ',' !in s by {
      forall k | 0 <= k < |s| ensures s[k] != ',' { }
    }
    assert SplitFirst(s, ',') == (s, None);
    TrimmedIsFixed(s);
    assert ValidSimpleName(s);
  }

  /** A plain name followed by well-formed attributes parses to the plain name. */
  lemma PlainNameWithAttributes(name: string, attributes: string)
    requires PlainName(name) && AttributesWellFormed(attributes)
    ensures AssemblyNameOf(name + "," + attributes) == Success(name)
  {
    assert ',' !in name by {
      forall k | 0 <= k < |name| ensures name[k] != ',' { }
    }
    SplitFirstJoin(name, ',', attributes);
    PlainNameParses(name);
  }

  /** A ',' in a stem starts an attribute; without an '=' after it the parser refuses it. */
  lemma {:induction false} CommaInStemRefused(name: string, rest: string)
    requires PlainName(name) && '=' !in rest
    ensures AssemblyNameOf(name + "," + rest).Failure?
  {
    assert ',' !in name by {
      forall k | 0 <= k < |name| ensures name[k] != ',' { }
    }
    SplitFirstJoin(name, ',', rest);
    AttributeWithoutEqualsRefused(rest);
  }

  lemma {:induction false} AttributeWithoutEqualsRefused(rest: string)
    requires '=' !in rest
    ensures !AttributesWellFormed(rest)
  {
    var p := SplitFirst(rest, ',');
    if p.1.Some? {
      assert rest == p.0 + [','] + p.1.value;
      assert '=' !in p.0 by {
        forall k | 0 <= k < |p.0| ensures p.0[k] != '=' { assert p.0[k] == rest[k]; }
      }
    }
  }

  /** A '=' in the simple name is refused. */
  lemma EqualsInStemRefused(a: string, b: string)
    requires PlainName(a) && PlainName(b)
    ensures AssemblyNameOf(a + "=" + b) == Failure(FileLoadException(InvalidNameMessage))
  {
    var s := a + "=" + b;
    assert ',' !in s by {
      forall k | 0 <= k < |s| ensures s[k] != ',' {
        if k < |a| { assert s[k] == a[k]; } else if k > |a| { assert s[k] == b[k - |a| - 1]; }
      }
    }
    assert s[0] == a[0] && s[|s| - 1] == b[|b| - 1];
    TrimmedIsFixed(s);
    assert s[|a|] == '=';
  }

  /** Whitespace before the simple name is dropped. */
  lemma LeadingSpaceTrimmed(name: string)
    requires PlainName(name)
    ensures AssemblyNameOf(" " + name) == Success(name)
  {
    var s := " " + name;
    assert ',' !in s by {
      forall k | 0 <= k < |s| ensures s[k] != ',' {
        if k > 0 { assert s[k] == name[k - 1]; }
      }
    }
    assert SplitFirst(s, ',') == (s, None);
    assert s[1..] == name;
    assert TrimStart(name) == name;
    assert TrimStart(s) == name;
    TrimmedIsFixed(name);
    assert Trim(s) == name;
    assert ValidSimpleName(name);
  }
}
