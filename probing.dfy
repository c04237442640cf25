/** The file search behind every load context: for a module name, look in each
    directory for `name + ext`, extension by extension, and load the first file
    that exists. The file system is the set `existing`; loading is the oracle
    `Assembly(Location)`. Two shapes of the search appear in the source: a loop
    over directories (`ProbeDirectories`) and a flattened LINQ pipeline
    (`FirstExisting` over `Candidates`); `FlattenedProbeAgrees` shows they agree. */
module Probing {
  import opened Wrappers
  import Paths

  /** A module loaded from the file at `Location` (`LoadFromAssemblyPath`). */
  datatype Assembly = Assembly(Location: string)

  /** The extensions the ModPackager load contexts try, in order. */
  const DllThenExe: seq<string> := [".dll", ".exe"]

  function CandidateFile(dir: string, name: string, ext: string): string
  {
    Paths.Combine(dir, name + ext)
  }

  /** `Combine(dir, name + ext)` and `Combine(dir, name) + ext` are the same file. */
  lemma CandidateFileSuffix(dir: string, name: string, ext: string)
    ensures CandidateFile(dir, name, ext) == Paths.Combine(dir, name) + ext
  {
  }

  /** Loads the file found, if any. */
  function LoadFound(found: Option<string>): (r: Option<Assembly>)
    ensures r.Some? <==> found.Some?
    ensures r.Some? ==> r.value.Location == found.value
  {
    match found
    case None => None
    case Some(path) => Some(Assembly(path))
  }

  /** The first extension of `exts` whose candidate file exists in `dir`. */
  function ProbeDirectory(dir: string, name: string, exts: seq<string>, existing: set<string>): (found: Option<string>)
    ensures found.None? <==> forall j :: 0 <= j < |exts| ==> CandidateFile(dir, name, exts[j]) !in existing
    ensures found.Some? ==> found.value in existing
    ensures found.Some? ==>
      exists j :: 0 <= j < |exts| && found.value == CandidateFile(dir, name, exts[j]) &&
        forall k :: 0 <= k < j ==> CandidateFile(dir, name, exts[k]) !in existing
  {
    if exts == [] then None
    else if CandidateFile(dir, name, exts[0]) in existing then Some(CandidateFile(dir, name, exts[0]))
    else
      var rest := ProbeDirectory(dir, name, exts[1..], existing);
      assert forall j :: 1 <= j < |exts| ==> exts[j] == exts[1..][j - 1];
      rest
  }

  /** With `.dll` and `.exe`, the `.dll` wins and the `.exe` is taken only when there is no `.dll`. */
  lemma DllBeforeExe(dir: string, name: string, existing: set<string>)
    ensures ProbeDirectory(dir, name, DllThenExe, existing) ==
      if CandidateFile(dir, name, ".dll") in existing then Some(CandidateFile(dir, name, ".dll"))
      else if CandidateFile(dir, name, ".exe") in existing then Some(CandidateFile(dir, name, ".exe"))
      else None
  {
    assert DllThenExe[1..][1..] == [];
  }

  /** With `.dll` and `.exe`, nothing is found exactly when no directory holds either file. */
  lemma NothingFoundWithoutDllOrExe(dirs: seq<string>, name: string, existing: set<string>)
    ensures ProbeDirectories(dirs, name, DllThenExe, existing).None? <==>
      forall i :: 0 <= i < |dirs| ==> CandidateFile(dirs[i], name, ".dll") !in existing && CandidateFile(dirs[i], name, ".exe") !in existing
  {
    forall i | 0 <= i < |dirs| {
      DllBeforeExe(dirs[i], name, existing);
    }
  }

  /** `dirs[i]` is the first directory holding a candidate. */
  ghost predicate IsFirstHit(dirs: seq<string>, i: int, name: string, exts: seq<string>, existing: set<string>)
  {
    0 <= i < |dirs| && ProbeDirectory(dirs[i], name, exts, existing).Some?
    && forall k :: 0 <= k < i ==> ProbeDirectory(dirs[k], name, exts, existing).None?
  }

  /** Directory by directory, in order: the candidate of the first directory that has one. */
  function ProbeDirectories(dirs: seq<string>, name: string, exts: seq<string>, existing: set<string>): (found: Option<string>)
    ensures found.None? <==> forall i :: 0 <= i < |dirs| ==> ProbeDirectory(dirs[i], name, exts, existing).None?
    ensures found.Some? ==> exists i :: IsFirstHit(dirs, i, name, exts, existing) && found == ProbeDirectory(dirs[i], name, exts, existing)
  {
    if dirs == [] then None
    else
      var here := ProbeDirectory(dirs[0], name, exts, existing);
      if here.Some? then
        assert IsFirstHit(dirs, 0, name, exts, existing);
        here
      else
        var rest := ProbeDirectories(dirs[1..], name, exts, existing);
        assert forall i :: 1 <= i < |dirs| ==> dirs[i] == dirs[1..][i - 1];
        assert rest.Some? ==> exists i :: IsFirstHit(dirs, i, name, exts, existing) && rest == ProbeDirectory(dirs[i], name, exts, existing) by {
          if rest.Some? {
            var i :| IsFirstHit(dirs[1..], i, name, exts, existing) && rest == ProbeDirectory(dirs[1..][i], name, exts, existing);
            FirstHitAfterMiss(dirs, i, name, exts, existing);
          }
        }
        rest
  }

  /** A first hit in `dirs[1..]` is a first hit in `dirs` when `dirs[0]` has no candidate. */
  lemma FirstHitAfterMiss(dirs: seq<string>, i: int, name: string, exts: seq<string>, existing: set<string>)
    requires dirs != [] && ProbeDirectory(dirs[0], name, exts, existing).None?
    requires IsFirstHit(dirs[1..], i, name, exts, existing)
    ensures IsFirstHit(dirs, i + 1, name, exts, existing) && dirs[i + 1] == dirs[1..][i]
  {
    forall k | 0 < k < i + 1
      ensures ProbeDirectory(dirs[k], name, exts, existing).None?
    {
      assert dirs[k] == dirs[1..][k - 1];
    }
  }

  /** A `.dll` or `.exe` that exists in one of the directories is always found. */
  lemma FoundWhenPresent(dirs: seq<string>, dir: string, name: string, ext: string, existing: set<string>)
    requires dir in dirs && ext in DllThenExe && CandidateFile(dir, name, ext) in existing
    ensures ProbeDirectories(dirs, name, DllThenExe, existing).Some?
  {
    var j :| 0 <= j < |dirs| && dirs[j] == dir;
    DllBeforeExe(dir, name, existing);
    assert ProbeDirectory(dirs[j], name, DllThenExe, existing).Some?;
  }

  /** One step of the directory loop: the search from `dirs[i]` on. */
  lemma ProbeStep(dirs: seq<string>, i: nat, name: string, exts: seq<string>, existing: set<string>)
    requires i < |dirs|
    ensures ProbeDirectories(dirs[i..], name, exts, existing) ==
      if ProbeDirectory(dirs[i], name, exts, existing).Some? then ProbeDirectory(dirs[i], name, exts, existing)
      else ProbeDirectories(dirs[i + 1..], name, exts, existing)
  {
    assert dirs[i..][0] == dirs[i] && dirs[i..][1..] == dirs[i + 1..];
  }

  /** A directory appended at the end is consulted only when no earlier directory has a candidate. */
  lemma {:induction false} ProbeAppendedLast(dirs: seq<string>, dir: string, name: string, exts: seq<string>, existing: set<string>)
    ensures ProbeDirectories(dirs + [dir], name, exts, existing) ==
      if ProbeDirectories(dirs, name, exts, existing).Some? then ProbeDirectories(dirs, name, exts, existing)
      else ProbeDirectory(dir, name, exts, existing)
  {
    if dirs == [] {
      assert ([] + [dir])[1..] == [];
    } else {
      assert (dirs + [dir])[1..] == dirs[1..] + [dir];
      ProbeAppendedLast(dirs[1..], dir, name, exts, existing);
    }
  }

  /** The candidate files of one directory, in extension order. */
  function DirectoryCandidates(dir: string, name: string, exts: seq<string>): seq<string>
  {
    if exts == [] then [] else [CandidateFile(dir, name, exts[0])] + DirectoryCandidates(dir, name, exts[1..])
  }

  /** `dirs.SelectMany(dir => exts.Select(ext => Combine(dir, name + ext)))`. */
  function Candidates(dirs: seq<string>, name: string, exts: seq<string>): seq<string>
  {
    if dirs == [] then [] else DirectoryCandidates(dirs[0], name, exts) + Candidates(dirs[1..], name, exts)
  }

  /** `FirstOrDefault(File.Exists)`: the first file of `files` that exists. */
  function FirstExisting(files: seq<string>, existing: set<string>): (found: Option<string>)
    ensures found.None? <==> forall i :: 0 <= i < |files| ==> files[i] !in existing
    ensures found.Some? ==> found.value in existing
    ensures found.Some? ==>
      exists i :: 0 <= i < |files| && files[i] == found.value &&
        forall k :: 0 <= k < i ==> files[k] !in existing
  {
    if files == [] then None
    else if files[0] in existing then Some(files[0])
    else
      var rest := FirstExisting(files[1..], existing);
      assert forall i :: 1 <= i < |files| ==> files[i] == files[1..][i - 1];
      rest
  }

  lemma {:induction false} FirstExistingConcat(a: seq<string>, b: seq<string>, existing: set<string>)
    ensures FirstExisting(a + b, existing) ==
      if FirstExisting(a, existing).Some? then FirstExisting(a, existing) else FirstExisting(b, existing)
  {
    if a != [] {
      assert (a + b)[1..] == a[1..] + b;
      FirstExistingConcat(a[1..], b, existing);
    } else {
      assert a + b == b;
    }
  }

  lemma {:induction false} DirectoryCandidatesAgree(dir: string, name: string, exts: seq<string>, existing: set<string>)
    ensures FirstExisting(DirectoryCandidates(dir, name, exts), existing) == ProbeDirectory(dir, name, exts, existing)
  {
    if exts != [] {
      var cands := DirectoryCandidates(dir, name, exts);
      assert cands[1..] == DirectoryCandidates(dir, name, exts[1..]);
      DirectoryCandidatesAgree(dir, name, exts[1..], existing);
    }
  }

  /** The flattened search and the directory-by-directory search pick the same file. */
  lemma {:induction false} FlattenedProbeAgrees(dirs: seq<string>, name: string, exts: seq<string>, existing: set<string>)
    ensures FirstExisting(Candidates(dirs, name, exts), existing) == ProbeDirectories(dirs, name, exts, existing)
  {
    if dirs != [] {
      FirstExistingConcat(DirectoryCandidates(dirs[0], name, exts), Candidates(dirs[1..], name, exts), existing);
      DirectoryCandidatesAgree(dirs[0], name, exts, existing);
      FlattenedProbeAgrees(dirs[1..], name, exts, existing);
    }
  }
}
