/** Deciding which translation units must be recompiled, and finding the
    units of a source directory.

    The filesystem is seen through two observations: the set of paths
    std::filesystem::exists reports, and what last_write_time reports for a
    path (absent from the map: it fails with ENOENT). The two differ only
    when a file vanishes between the two calls. Dependency extraction runs
    the compiler through the oracle `run`. */
module TranslationUnits {
  import opened Paths
  import opened Diagnostics
  import opened Units
  import opened Compilers

  datatype Stamp = Time(t: int) | Unreadable(what: string)

  datatype World = World(present: set<Path>, stamps: map<Path, Stamp>, run: seq<string> -> Run)

  /** The result of a staleness check: the verdict, and the messages appended
      to the error (none when the check succeeded). */
  datatype Verdict = Verdict(outdated: bool, errors: seq<Message>)

  /** The message of the exception last_write_time throws for `p`. */
  function StatFailure(stamps: map<Path, Stamp>, p: Path): Message
  {
    if p in stamps && stamps[p].Unreadable? then Cause(stamps[p].what) else NoSuchFile(p)
  }

  /** Prerequisites are examined in order; the first one newer than the
      object answers "outdated" at once, and the first one whose time cannot
      be read is an error. */
  function NewerPrerequisite(names: seq<Path>, objectTime: int, stamps: map<Path, Stamp>): (v: Verdict)
    ensures v.errors != [] ==> !v.outdated
    ensures v.errors != [] ==> exists k :: 0 <= k < |names| && v.errors == [StatFailure(stamps, names[k]), PrerequisiteTimeFailed(names[k])]
    ensures !v.outdated && v.errors == [] ==> AllReadable(names, stamps)
    ensures !v.outdated && v.errors == [] ==> forall k :: 0 <= k < |names| ==> stamps[names[k]].t <= objectTime
  {
    if names == [] then Verdict(false, [])
    else
      var p := names[0];
      if p !in stamps || stamps[p].Unreadable? then
        Verdict(false, [StatFailure(stamps, p), PrerequisiteTimeFailed(p)])
      else if stamps[p].t > objectTime then
        Verdict(true, [])
      else
        var v := NewerPrerequisite(names[1..], objectTime, stamps);
        assert !v.outdated && v.errors == [] ==> AllReadable(names, stamps) && forall k :: 0 <= k < |names| ==> stamps[names[k]].t <= objectTime by {
          if !v.outdated && v.errors == [] {
            forall k | 0 < k < |names| ensures names[k] in stamps && stamps[names[k]].Time? && stamps[names[k]].t <= objectTime {
              assert names[1..][k - 1] == names[k];
            }
          }
        }
        assert v.errors != [] ==> exists k :: 1 <= k < |names| && v.errors == [StatFailure(stamps, names[k]), PrerequisiteTimeFailed(names[k])] by {
          if v.errors != [] {
            var k :| 0 <= k < |names[1..]| && v.errors == [StatFailure(stamps, names[1..][k]), PrerequisiteTimeFailed(names[1..][k])];
            assert names[1..][k] == names[k + 1];
          }
        }
        v
  }

  /** Where the parser is reached: the object exists and has a readable time. */
  predicate ReachesDependencies(unit: TranslationUnit, w: World)
  {
    unit.objectPath in w.present && unit.objectPath in w.stamps && w.stamps[unit.objectPath].Time?
  }

  /** What object_is_outdated demands: when it reaches the parser, the
      dependency run printed something. */
  predicate Checkable(parts: seq<string>, unit: TranslationUnit, w: World)
  {
    ReachesDependencies(unit, w) ==> RuleReadable(w.run(DependencyCommand(parts, unit.rootPath)))
  }

  /** object_is_outdated: a missing object is outdated; otherwise the unit is
      outdated when some prerequisite listed by the compiler is strictly newer
      than the object. Every failure reports "not outdated" with an error. */
  function Staleness(parts: seq<string>, unit: TranslationUnit, w: World): (v: Verdict)
    requires Checkable(parts, unit, w)
    ensures v.errors != [] ==> !v.outdated
    ensures v.errors != [] ==> v.errors[|v.errors| - 1].OutdatedCheckFailed? && v.errors[|v.errors| - 1].source == unit.rootPath
    ensures v.errors == [] ==>
      (unit.objectPath !in w.present || unit.objectPath !in w.stamps
       || (ReachesDependencies(unit, w) && w.run(DependencyCommand(parts, unit.rootPath)).Succeeded()))
    ensures !v.outdated && v.errors == [] ==>
      (ReachesDependencies(unit, w) && AllReadable(ListedPrerequisites(parts, unit, w), w.stamps))
  {
    var obj := unit.objectPath;
    if obj !in w.present then Verdict(true, [])
    else if obj !in w.stamps then Verdict(true, [])
    else match w.stamps[obj]
      case Unreadable(what) =>
        Verdict(false, [Cause(what), ObjectTimeFailed(obj), OutdatedCheckFailed(unit.rootPath, 0)])
      case Time(objectTime) =>
        var deps := MakePrerequisites(parts, unit.rootPath, w.run(DependencyCommand(parts, unit.rootPath)));
        if deps.errors != [] then Verdict(false, deps.errors + [OutdatedCheckFailed(unit.rootPath, objectTime)])
        else
          var v := NewerPrerequisite(deps.names, objectTime, w.stamps);
          if v.errors != [] then Verdict(false, v.errors + [OutdatedCheckFailed(unit.rootPath, objectTime)])
          else v
  }

  /** The prerequisites a check of `unit` reads, when it gets that far. */
  function ListedPrerequisites(parts: seq<string>, unit: TranslationUnit, w: World): seq<Path>
    requires ReachesDependencies(unit, w) && Checkable(parts, unit, w)
  {
    MakePrerequisites(parts, unit.rootPath, w.run(DependencyCommand(parts, unit.rootPath))).names
  }

  method ObjectIsOutdated(unit: TranslationUnit, compiler: Compiler, w: World) returns (outdated: bool, errors: seq<Message>)
    requires Checkable(compiler.commandParts, unit, w)
    ensures Verdict(outdated, errors) == Staleness(compiler.commandParts, unit, w)
  {
    if unit.objectPath !in w.present {
      return true, [];
    }
    if unit.objectPath !in w.stamps {
      return true, [];  // the object vanished after exists(): ENOENT
    }
    var objectTime: int;
    match w.stamps[unit.objectPath] {
      case Unreadable(what) =>
        return false, [Cause(what), ObjectTimeFailed(unit.objectPath), OutdatedCheckFailed(unit.rootPath, 0)];
      case Time(t) =>
        objectTime := t;
    }
    var prerequisites, dependencyErrors := compiler.GetMakePrerequisites(unit.rootPath, w.run);
    if dependencyErrors != [] {
      return false, dependencyErrors + [OutdatedCheckFailed(unit.rootPath, objectTime)];
    }
    errors := [];
    var i := 0;
    while i < |prerequisites|
      invariant 0 <= i <= |prerequisites|
      invariant errors == []
      invariant NewerPrerequisite(prerequisites[i..], objectTime, w.stamps) == NewerPrerequisite(prerequisites, objectTime, w.stamps)
    {
      var prerequisite := prerequisites[i];
      if prerequisite !in w.stamps || w.stamps[prerequisite].Unreadable? {
        errors := [StatFailure(w.stamps, prerequisite), PrerequisiteTimeFailed(prerequisite)];
        break;
      }
      if w.stamps[prerequisite].t > objectTime {
        return true, [];
      }
      assert prerequisites[i..][1..] == prerequisites[i + 1..];
      i := i + 1;
    }
    if errors != [] {
      return false, errors + [OutdatedCheckFailed(unit.rootPath, objectTime)];
    }
    return false, [];
  }

  // ---------------------------------------------------------------------
  // What a staleness check promises

  /** A missing object makes the unit outdated without an error, whether
      exists() already misses it or last_write_time then fails with ENOENT,
      and without running the compiler: the verdict is the same whatever
      the dependency run would do. */
  lemma MissingObjectIsOutdated(parts: seq<string>, unit: TranslationUnit, w: World, otherRun: seq<string> -> Run)
    requires unit.objectPath !in w.present || unit.objectPath !in w.stamps
    ensures Checkable(parts, unit, w) && Checkable(parts, unit, w.(run := otherRun))
    ensures Staleness(parts, unit, w) == Verdict(true, [])
    ensures Staleness(parts, unit, w.(run := otherRun)) == Verdict(true, [])
  {
  }

  predicate AllReadable(names: seq<Path>, stamps: map<Path, Stamp>)
  {
    forall k :: 0 <= k < |names| ==> names[k] in stamps && stamps[names[k]].Time?
  }

  /** With every prerequisite readable, the scan answers "outdated" exactly
      when some prerequisite is strictly newer than the object; equal times
      count as up to date. */
  lemma {:induction false} NewerPrerequisiteIff(names: seq<Path>, objectTime: int, stamps: map<Path, Stamp>)
    requires AllReadable(names, stamps)
    ensures NewerPrerequisite(names, objectTime, stamps).errors == []
    ensures NewerPrerequisite(names, objectTime, stamps).outdated
        <==> exists k :: 0 <= k < |names| && stamps[names[k]].t > objectTime
    decreases |names|
  {
    if names != [] {
      NewerPrerequisiteIff(names[1..], objectTime, stamps);
      if stamps[names[0]].t <= objectTime {
        if exists k :: 0 <= k < |names| && stamps[names[k]].t > objectTime {
          var k :| 0 <= k < |names| && stamps[names[k]].t > objectTime;
          assert k > 0 && names[1..][k - 1] == names[k];
        }
        forall k | 0 <= k < |names[1..]| && stamps[names[1..][k]].t > objectTime
          ensures exists j :: 0 <= j < |names| && stamps[names[j]].t > objectTime
        {
          assert names[1..][k] == names[k + 1];
        }
      }
    }
  }

  /** The first newer prerequisite ends the scan: nothing after it is read,
      so a later unreadable prerequisite causes no error. */
  lemma {:induction false} FirstNewerPrerequisiteWins(names: seq<Path>, k: nat, objectTime: int, stamps: map<Path, Stamp>)
    requires k < |names|
    requires AllReadable(names[..k], stamps)
    requires forall j :: 0 <= j < k ==> stamps[names[j]].t <= objectTime
    requires names[k] in stamps && stamps[names[k]].Time? && stamps[names[k]].t > objectTime
    ensures NewerPrerequisite(names, objectTime, stamps) == Verdict(true, [])
    decreases k
  {
    if k > 0 {
      assert names[0] == names[..k][0];
      assert names[1..][..k - 1] == names[..k][1..];
      FirstNewerPrerequisiteWins(names[1..], k - 1, objectTime, stamps);
    }
  }

  /** An unreadable prerequisite reached before any newer one is a hard
      error: the unit is reported "not outdated" with that prerequisite's
      stat failure, not taken as missing and therefore outdated. */
  lemma {:induction false} FirstUnreadablePrerequisiteFails(names: seq<Path>, k: nat, objectTime: int, stamps: map<Path, Stamp>)
    requires k < |names|
    requires AllReadable(names[..k], stamps)
    requires forall j :: 0 <= j < k ==> stamps[names[j]].t <= objectTime
    requires names[k] !in stamps || stamps[names[k]].Unreadable?
    ensures NewerPrerequisite(names, objectTime, stamps)
         == Verdict(false, [StatFailure(stamps, names[k]), PrerequisiteTimeFailed(names[k])])
    decreases k
  {
    if k > 0 {
      assert names[0] == names[..k][0];
      assert names[1..][..k - 1] == names[..k][1..];
      FirstUnreadablePrerequisiteFails(names[1..], k - 1, objectTime, stamps);
    }
  }

  /** The three failures of a staleness check, each answered "not outdated"
      with an error ending in the line naming the source: an object whose
      time cannot be read for a reason other than ENOENT, a failed
      dependency run, and a listed prerequisite whose time cannot be read. */
  lemma StalenessFailures(parts: seq<string>, unit: TranslationUnit, w: World)
    requires Checkable(parts, unit, w)
    ensures unit.objectPath in w.present && unit.objectPath in w.stamps && w.stamps[unit.objectPath].Unreadable? ==>
      Staleness(parts, unit, w) == Verdict(false, [Cause(w.stamps[unit.objectPath].what), ObjectTimeFailed(unit.objectPath), OutdatedCheckFailed(unit.rootPath, 0)])
    ensures ReachesDependencies(unit, w) && !w.run(DependencyCommand(parts, unit.rootPath)).Succeeded() ==>
      var deps := MakePrerequisites(parts, unit.rootPath, w.run(DependencyCommand(parts, unit.rootPath)));
      deps.errors != [] && Staleness(parts, unit, w) == Verdict(false, deps.errors + [OutdatedCheckFailed(unit.rootPath, w.stamps[unit.objectPath].t)])
    ensures ReachesDependencies(unit, w) && w.run(DependencyCommand(parts, unit.rootPath)).Succeeded() ==>
      var v := NewerPrerequisite(ListedPrerequisites(parts, unit, w), w.stamps[unit.objectPath].t, w.stamps);
      v.errors != [] ==> Staleness(parts, unit, w) == Verdict(false, v.errors + [OutdatedCheckFailed(unit.rootPath, w.stamps[unit.objectPath].t)])
  {
  }

  /** With a readable object time T and a successful dependency run whose
      prerequisites are all readable, the unit is outdated exactly when one
      of them is strictly newer than T. */
  lemma OutdatedIffNewerPrerequisite(parts: seq<string>, unit: TranslationUnit, w: World)
    requires ReachesDependencies(unit, w) && Checkable(parts, unit, w)
    requires w.run(DependencyCommand(parts, unit.rootPath)).Succeeded()
    requires AllReadable(ListedPrerequisites(parts, unit, w), w.stamps)
    ensures Staleness(parts, unit, w).errors == []
    ensures var names := ListedPrerequisites(parts, unit, w);
      var objectTime := w.stamps[unit.objectPath].t;
      Staleness(parts, unit, w).outdated <==> exists k :: 0 <= k < |names| && w.stamps[names[k]].t > objectTime
  {
    NewerPrerequisiteIff(ListedPrerequisites(parts, unit, w), w.stamps[unit.objectPath].t, w.stamps);
  }

  /** The source is compared only through the prerequisite list: when the
      compiler does not list it, its own time does not matter. */
  lemma {:induction false} NewerPrerequisiteIgnoresUnlisted(names: seq<Path>, objectTime: int, stamps: map<Path, Stamp>, p: Path, s: Stamp)
    requires p !in names
    ensures NewerPrerequisite(names, objectTime, stamps[p := s]) == NewerPrerequisite(names, objectTime, stamps)
    decreases |names|
  {
    if names != [] {
      assert names[0] != p;
      assert p !in names[1..];
      NewerPrerequisiteIgnoresUnlisted(names[1..], objectTime, stamps, p, s);
    }
  }

  lemma SourceTimeOnlyThroughPrerequisites(parts: seq<string>, unit: TranslationUnit, w: World, s: Stamp)
    requires ReachesDependencies(unit, w) && Checkable(parts, unit, w)
    requires unit.rootPath != unit.objectPath
    requires unit.rootPath !in ListedPrerequisites(parts, unit, w)
    ensures Checkable(parts, unit, w.(stamps := w.stamps[unit.rootPath := s]))
    ensures Staleness(parts, unit, w.(stamps := w.stamps[unit.rootPath := s])) == Staleness(parts, unit, w)
  {
    var w' := w.(stamps := w.stamps[unit.rootPath := s]);
    assert w'.stamps[unit.objectPath] == w.stamps[unit.objectPath];
    var deps := MakePrerequisites(parts, unit.rootPath, w.run(DependencyCommand(parts, unit.rootPath)));
    NewerPrerequisiteIgnoresUnlisted(deps.names, w.stamps[unit.objectPath].t, w.stamps, unit.rootPath, s);
  }

  // ---------------------------------------------------------------------
  // find_changed

  datatype Changed = Changed(units: seq<TranslationUnit>, errors: seq<Message>)

  predicate AllCheckable(parts: seq<string>, units: seq<TranslationUnit>, w: World)
  {
    forall i :: 0 <= i < |units| ==> Checkable(parts, units[i], w)
  }

  /** What find_changed demands: every unit it reaches is checkable. It stops
      at the first failing check, so nothing is asked of the units after
      it. */
  predicate CheckableUntilFailure(parts: seq<string>, units: seq<TranslationUnit>, w: World)
    decreases |units|
  {
    units == [] ||
    (Checkable(parts, units[0], w) &&
     (Staleness(parts, units[0], w).errors == [] ==> CheckableUntilFailure(parts, units[1..], w)))
  }

  /** find_changed: the outdated units in order; on the first failing check
      the units found so far and that check's messages followed by
      "Error finding changed translation units.". */
  function ChangedUnits(parts: seq<string>, units: seq<TranslationUnit>, w: World): (c: Changed)
    requires CheckableUntilFailure(parts, units, w)
    ensures |c.units| <= |units|
    ensures forall u :: u in c.units ==> u in units
    ensures c.errors != [] ==> c.errors[|c.errors| - 1] == FindChangedFailed
  {
    if units == [] then Changed([], [])
    else
      var v := Staleness(parts, units[0], w);
      if v.errors != [] then Changed([], v.errors + [FindChangedFailed])
      else
        var rest := ChangedUnits(parts, units[1..], w);
        Changed((if v.outdated then [units[0]] else []) + rest.units, rest.errors)
  }

  method FindChanged(units: seq<TranslationUnit>, compiler: Compiler, w: World) returns (changed: seq<TranslationUnit>, errors: seq<Message>)
    requires CheckableUntilFailure(compiler.commandParts, units, w)
    ensures Changed(changed, errors) == ChangedUnits(compiler.commandParts, units, w)
  {
    changed := [];
    var i := 0;
    while i < |units|
      invariant 0 <= i <= |units|
      invariant CheckableUntilFailure(compiler.commandParts, units[i..], w)
      invariant ChangedUnits(compiler.commandParts, units, w)
        == Changed(changed + ChangedUnits(compiler.commandParts, units[i..], w).units,
                   ChangedUnits(compiler.commandParts, units[i..], w).errors)
    {
      assert units[i..][0] == units[i] && units[i..][1..] == units[i + 1..];
      var outdated, unitErrors := ObjectIsOutdated(units[i], compiler, w);
      if unitErrors != [] {
        return changed, unitErrors + [FindChangedFailed];
      }
      if outdated {
        assert changed + ([units[i]] + ChangedUnits(compiler.commandParts, units[i + 1..], w).units)
            == (changed + [units[i]]) + ChangedUnits(compiler.commandParts, units[i + 1..], w).units;
        changed := changed + [units[i]];
      } else {
        assert [] + ChangedUnits(compiler.commandParts, units[i + 1..], w).units == ChangedUnits(compiler.commandParts, units[i + 1..], w).units;
      }
      i := i + 1;
    }
    assert changed + [] == changed;
    errors := [];
  }

  /** The outdated units among `units`, in order (for checks that all
      succeed). */
  function Outdated(parts: seq<string>, units: seq<TranslationUnit>, w: World): seq<TranslationUnit>
    requires AllCheckable(parts, units, w)
  {
    if units == [] then []
    else (if Staleness(parts, units[0], w).outdated then [units[0]] else []) + Outdated(parts, units[1..], w)
  }

  /** Fail-fast: when the check of unit k is the first to fail, the result
      is the outdated units before k and k's messages, whatever the units
      after k are (they are never checked). */
  lemma {:induction false} FindChangedStopsAtFirstError(parts: seq<string>, units: seq<TranslationUnit>, w: World, k: nat)
    requires k < |units|
    requires forall j :: 0 <= j <= k ==> Checkable(parts, units[j], w)
    requires forall j :: 0 <= j < k ==> Staleness(parts, units[j], w).errors == []
    requires Staleness(parts, units[k], w).errors != []
    ensures CheckableUntilFailure(parts, units, w)
    ensures ChangedUnits(parts, units, w)
         == Changed(Outdated(parts, units[..k], w), Staleness(parts, units[k], w).errors + [FindChangedFailed])
    decreases k
  {
    if k > 0 {
      assert units[1..][..k - 1] == units[..k][1..];
      assert units[..k][0] == units[0];
      FindChangedStopsAtFirstError(parts, units[1..], w, k - 1);
    }
  }

  /** Without any failing check, the result is exactly the outdated units in
      their original order. */
  lemma {:induction false} FindChangedWithoutErrors(parts: seq<string>, units: seq<TranslationUnit>, w: World)
    requires AllCheckable(parts, units, w)
    requires forall j :: 0 <= j < |units| ==> Staleness(parts, units[j], w).errors == []
    ensures CheckableUntilFailure(parts, units, w)
    ensures ChangedUnits(parts, units, w) == Changed(Outdated(parts, units, w), [])
    decreases |units|
  {
    if units != [] {
      FindChangedWithoutErrors(parts, units[1..], w);
    }
  }

  /** After a build in which every object became at least as new as each of
      its prerequisites, a new search finds nothing to rebuild. */
  predicate UpToDate(parts: seq<string>, unit: TranslationUnit, w: World)
  {
    && ReachesDependencies(unit, w)
    && w.run(DependencyCommand(parts, unit.rootPath)).Succeeded()
    && Checkable(parts, unit, w)
    && AllReadable(ListedPrerequisites(parts, unit, w), w.stamps)
    && forall k :: 0 <= k < |ListedPrerequisites(parts, unit, w)| ==>
         w.stamps[ListedPrerequisites(parts, unit, w)[k]].t <= w.stamps[unit.objectPath].t
  }

  lemma {:induction false} NothingChangedAfterCompleteBuild(parts: seq<string>, units: seq<TranslationUnit>, w: World)
    requires forall i :: 0 <= i < |units| ==> UpToDate(parts, units[i], w)
    ensures AllCheckable(parts, units, w)
    ensures CheckableUntilFailure(parts, units, w)
    ensures ChangedUnits(parts, units, w) == Changed([], [])
    decreases |units|
  {
    if units != [] {
      OutdatedIffNewerPrerequisite(parts, units[0], w);
      NothingChangedAfterCompleteBuild(parts, units[1..], w);
    }
  }

  // ---------------------------------------------------------------------
  // find_all

  datatype Entry = Entry(path: Path, isDirectory: bool)

  /** What iterating the source directory yields: it cannot be opened (the
      exception's message), or its entries in iteration order. */
  datatype Listing = Unlistable(what: string) | Entries(entries: seq<Entry>)

  /** The suffixes GCC compiles as C or C++, compared case-sensitively. */
  const SourceExtensions: seq<string> := [".c", ".cc", ".cp", ".cxx", ".cpp", ".c++", ".C"]

  predicate IsSourceExtension(ext: string)
  {
    ext in SourceExtensions
  }

  predicate IsSource(e: Entry)
  {
    !e.isDirectory && IsSourceExtension(Extension(e.path))
  }

  /** The source entries, in iteration order. */
  function SourceEntries(entries: seq<Entry>): (sources: seq<Entry>)
    ensures |sources| <= |entries|
  {
    if entries == [] then []
    else
      var last := entries[|entries| - 1];
      SourceEntries(entries[..|entries| - 1]) + (if IsSource(last) then [last] else [])
  }

  /** One unit per source entry, in the same order. */
  function UnitsFor(sources: seq<Entry>, objectDirectory: Path): (units: seq<TranslationUnit>)
    ensures |units| == |sources|
    ensures forall i :: 0 <= i < |sources| ==> units[i] == NewUnit(sources[i].path, objectDirectory)
  {
    seq(|sources|, i requires 0 <= i < |sources| => NewUnit(sources[i].path, objectDirectory))
  }

  datatype Discovery = Discovery(units: seq<TranslationUnit>, errors: seq<Message>)

  /** find_all: the units of the directory's source entries, or no units and
      an error when the directory cannot be iterated. */
  function Discover(sourceDirectory: Path, objectDirectory: Path, listing: Listing): (d: Discovery)
    ensures d.errors == [] <==> listing.Entries?
    ensures d.errors != [] ==> d.units == []
    ensures listing.Entries? ==> |d.units| <= |listing.entries|
  {
    match listing
    case Unlistable(what) =>
      Discovery([], [Cause(what), IteratorFailed(sourceDirectory), DiscoveryFailed(sourceDirectory)])
    case Entries(entries) =>
      Discovery(UnitsFor(SourceEntries(entries), objectDirectory), [])
  }

  /** The loop over the allowed suffixes. */
  method HasSourceExtension(path: Path) returns (valid: bool)
    ensures valid <==> IsSourceExtension(Extension(path))
  {
    var actual := Extension(path);
    valid := false;
    var i := 0;
    while i < |SourceExtensions|
      invariant 0 <= i <= |SourceExtensions|
      invariant !valid
      invariant actual !in SourceExtensions[..i]
    {
      if actual == SourceExtensions[i] {
        valid := true;
        break;
      }
      assert SourceExtensions[..i + 1] == SourceExtensions[..i] + [SourceExtensions[i]];
      i := i + 1;
    }
    assert !valid ==> SourceExtensions[..i] == SourceExtensions;
  }

  /** One more entry of the listing adds its unit at the end when it is a
      source, and nothing otherwise. */
  lemma UnitsForNextEntry(entries: seq<Entry>, i: nat, objectDirectory: Path)
    requires i < |entries|
    ensures UnitsFor(SourceEntries(entries[..i + 1]), objectDirectory)
         == UnitsFor(SourceEntries(entries[..i]), objectDirectory)
            + (if IsSource(entries[i]) then [NewUnit(entries[i].path, objectDirectory)] else [])
  {
    assert entries[..i + 1][..i] == entries[..i];
    var before := SourceEntries(entries[..i]);
    var after := SourceEntries(entries[..i + 1]);
    assert after == before + (if IsSource(entries[i]) then [entries[i]] else []);
  }

  method FindAll(sourceDirectory: Path, objectDirectory: Path, listing: Listing) returns (units: seq<TranslationUnit>, errors: seq<Message>)
    ensures Discovery(units, errors) == Discover(sourceDirectory, objectDirectory, listing)
  {
    units := [];
    match listing {
      case Unlistable(what) =>
        errors := [Cause(what), IteratorFailed(sourceDirectory)];
      case Entries(entries) =>
        var i := 0;
        while i < |entries|
          invariant 0 <= i <= |entries|
          invariant units == UnitsFor(SourceEntries(entries[..i]), objectDirectory)
        {
          UnitsForNextEntry(entries, i, objectDirectory);
          var entry := entries[i];
          if !entry.isDirectory {
            var valid := HasSourceExtension(entry.path);
            if valid {
              units := units + [NewUnit(entry.path, objectDirectory)];
            }
          }
          i := i + 1;
        }
        assert entries[..|entries|] == entries;
        errors := [];
    }
    if errors != [] {
      errors := errors + [DiscoveryFailed(sourceDirectory)];
    }
  }

  /** Discovery keeps exactly the entries that are not directories and carry
      an allowed suffix. */
  lemma {:induction false} SourceEntriesMembers(entries: seq<Entry>, e: Entry)
    ensures e in SourceEntries(entries) <==> e in entries && IsSource(e)
    decreases |entries|
  {
    if entries != [] {
      var init := entries[..|entries| - 1];
      SourceEntriesMembers(init, e);
      assert entries == init + [entries[|entries| - 1]];
    }
  }

  /** Discovery keeps the iteration order: the sources of two runs of
      entries are the sources of the first followed by those of the second. */
  lemma {:induction false} SourceEntriesAppend(a: seq<Entry>, b: seq<Entry>)
    ensures SourceEntries(a + b) == SourceEntries(a) + SourceEntries(b)
    decreases |b|
  {
    if b == [] {
      assert a + b == a;
    } else {
      var init := b[..|b| - 1];
      assert (a + b)[..|a + b| - 1] == a + init;
      assert (a + b)[|a + b| - 1] == b[|b| - 1];
      SourceEntriesAppend(a, init);
    }
  }

  lemma SourceEntriesOfOne(x: Entry)
    ensures SourceEntries([x]) == if IsSource(x) then [x] else []
  {
    assert [x][..0] == [];
  }

  /** Filtering five entries of which only the first is a source. */
  lemma OnlyFirstOfFive(a: Entry, b: Entry, c: Entry, d: Entry, e: Entry)
    requires IsSource(a) && !IsSource(b) && !IsSource(c) && !IsSource(d) && !IsSource(e)
    ensures SourceEntries([a, b, c, d, e]) == [a]
  {
    SourceEntriesOfOne(a);
    SourceEntriesOfOne(b);
    SourceEntriesOfOne(c);
    SourceEntriesOfOne(d);
    SourceEntriesOfOne(e);
    SourceEntriesAppend([a], [b]);
    assert [a] + [b] == [a, b];
    SourceEntriesAppend([a, b], [c]);
    assert [a, b] + [c] == [a, b, c];
    SourceEntriesAppend([a, b, c], [d]);
    assert [a, b, c] + [d] == [a, b, c, d];
    SourceEntriesAppend([a, b, c, d], [e]);
    assert [a, b, c, d] + [e] == [a, b, c, d, e];
  }

  /** An entry named `name`, whose only dot is at `k > 0`, is a source
      exactly when the suffix from that dot is an allowed one. */
  lemma EntryWithOneDot(x: Entry, k: nat, ext: string)
    requires !x.isDirectory
    requires 0 < k < |x.path| && x.path[k..] == ext
    requires Separator !in x.path
    requires x.path[k] == '.' && forall j :: 0 <= j < |x.path| && j != k ==> x.path[j] != '.'
    ensures IsSource(x) <==> ext in SourceExtensions
  {
    assert x.path[0] != '.';
    ExtensionOfName(x.path, k, ext);
  }

  lemma CppFileIsSource(x: Entry)
    requires x == Entry("a.cpp", false)
    ensures IsSource(x)
  {
    EntryWithOneDot(x, 1, ".cpp");
  }

  /** Only the last dot counts: "a.b.cpp" is a C++ source. */
  lemma MultiDotFileIsSource(x: Entry)
    requires x == Entry("a.b.cpp", false)
    ensures IsSource(x)
  {
    assert x.path[3..] == ".cpp";
    ExtensionOfName(x.path, 3, ".cpp");
  }

  lemma TextFileIsNotSource(x: Entry)
    requires x == Entry("b.txt", false)
    ensures !IsSource(x)
  {
    EntryWithOneDot(x, 1, ".txt");
  }

  lemma HeaderIsNotSource(x: Entry)
    requires x == Entry("c.h", false)
    ensures !IsSource(x)
  {
    EntryWithOneDot(x, 1, ".h");
  }

  lemma MarkdownIsNotSource(x: Entry)
    requires x == Entry("readme.md", false)
    ensures !IsSource(x)
  {
    EntryWithOneDot(x, 6, ".md");
  }

  lemma UpperCaseSuffixIsNotSource(x: Entry)
    requires x == Entry("D.CPP", false)
    ensures !IsSource(x)
  {
    EntryWithOneDot(x, 1, ".CPP");
  }

  /** Of "a.cpp", "b.txt", "c.h" and "readme.md" only "a.cpp" is a source;
      the suffix test is case-sensitive, so "D.CPP" is not one either. */
  lemma ExtensionFilterExample(a: Entry, b: Entry, c: Entry, d: Entry, e: Entry)
    requires a == Entry("a.cpp", false) && b == Entry("b.txt", false) && c == Entry("c.h", false)
    requires d == Entry("readme.md", false) && e == Entry("D.CPP", false)
    ensures SourceEntries([a, b, c, d, e]) == [a]
  {
    CppFileIsSource(a);
    TextFileIsNotSource(b);
    HeaderIsNotSource(c);
    MarkdownIsNotSource(d);
    UpperCaseSuffixIsNotSource(e);
    OnlyFirstOfFive(a, b, c, d, e);
  }

  /** The extension of a separator-free name whose last dot is at `k > 0`. */
  lemma ExtensionOfName(name: Path, k: nat, ext: string)
    requires 0 < k < |name| && name[k..] == ext
    requires Separator !in name
    requires name[k] == '.' && forall j :: k < j < |name| ==> name[j] != '.'
    requires name != ".."
    ensures Extension(name) == ext
  {
    FilenameAfterSeparator([], name);
    assert [] + name == name;
    LastIndexOfSpec(name, '.');
    var i := LastIndexOf(name, '.');
    assert i == k;
  }
}
