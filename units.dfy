/** The translation unit value: a source file and the object file compiling
    it produces. Both paths are fixed when the unit is made and never change,
    so the unit is a value. (It sits in its own module so that the compiler,
    which takes units, and the staleness logic, which takes the compiler, do
    not import each other.) */
module Units {
  import opened Paths

  datatype TranslationUnit = TranslationUnit(rootPath: Path, objectPath: Path)

  const ObjectSuffix: string := ".o"

  /** The object path of a source: the object directory joined with the
      source's filename plus ".o". */
  function SourceToObject(rootPath: Path, objectDirectory: Path): (objectPath: Path)
    ensures Filename(objectPath) == Filename(rootPath) + ObjectSuffix
    ensures |objectPath| >= |objectDirectory| && objectPath[..|objectDirectory|] == objectDirectory
    ensures objectPath == AsDirectory(objectDirectory) + Filename(rootPath) + ObjectSuffix
  {
    var name := Filename(rootPath) + ObjectSuffix;
    FilenameShape(rootPath);
    assert Separator !in name by {
      assert forall j :: 0 <= j < |name| ==> name[j] in Filename(rootPath) || name[j] in ObjectSuffix;
    }
    FilenameOfJoin(objectDirectory, name);
    Join(objectDirectory, name)
  }

  /** The unit for a source file found in a directory. */
  function NewUnit(rootPath: Path, objectDirectory: Path): (u: TranslationUnit)
    ensures u.rootPath == rootPath
    ensures Filename(u.objectPath) == Filename(rootPath) + ObjectSuffix
    ensures |u.objectPath| >= |objectDirectory| && u.objectPath[..|objectDirectory|] == objectDirectory
    ensures u.objectPath == AsDirectory(objectDirectory) + Filename(rootPath) + ObjectSuffix
  {
    TranslationUnit(rootPath, SourceToObject(rootPath, objectDirectory))
  }

  /** Two sources share an object path exactly when their filenames are the
      same: "src/a/x.cpp" and "src/b/x.cpp" collide, whatever their
      directories. */
  lemma ObjectPathsCollideIffFilenamesDo(a: Path, b: Path, objectDirectory: Path)
    ensures SourceToObject(a, objectDirectory) == SourceToObject(b, objectDirectory)
        <==> Filename(a) == Filename(b)
  {
    if SourceToObject(a, objectDirectory) == SourceToObject(b, objectDirectory) {
      var fa, fb := Filename(a), Filename(b);
      assert fa + ObjectSuffix == fb + ObjectSuffix;
      assert |fa| == |fb|;
      assert fa == (fa + ObjectSuffix)[..|fa|];
      assert fb == (fb + ObjectSuffix)[..|fb|];
    }
  }

  /** The object name of "main.cpp" is "main.cpp.o". */
  lemma MainObjectName(rootPath: Path)
    requires rootPath == "main.cpp"
    ensures Filename(rootPath) + ObjectSuffix == "main.cpp.o"
  {
    FilenameAfterSeparator([], rootPath);
    assert [] + rootPath == rootPath;
  }

  /** "main.cpp" found in the current directory with objects in "obj" is
      compiled to "obj/main.cpp.o": the whole source name is kept and ".o"
      appended. */
  lemma ObjectPathExample(rootPath: Path, objectDirectory: Path)
    requires rootPath == "main.cpp" && objectDirectory == "obj"
    ensures SourceToObject(rootPath, objectDirectory) == "obj/main.cpp.o"
  {
    MainObjectName(rootPath);
    assert AsDirectory(objectDirectory) == "obj/";
  }

  /** With an empty object directory the object lands where the driver
      runs: "main.cpp.o", not "/main.cpp.o". */
  lemma ObjectPathInEmptyDirectory(rootPath: Path)
    requires rootPath == "main.cpp"
    ensures SourceToObject(rootPath, "") == "main.cpp.o"
  {
    MainObjectName(rootPath);
    assert AsDirectory("") == [];
  }

  /** An object directory that already ends with a separator gets no
      second one. */
  lemma ObjectPathUnderSeparator(rootPath: Path)
    requires rootPath == "main.cpp"
    ensures SourceToObject(rootPath, "obj/") == "obj/main.cpp.o"
  {
    MainObjectName(rootPath);
    assert AsDirectory("obj/") == "obj/";
  }
}
