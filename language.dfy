/**
 * AlLanguageExtension (ALLanguage): the AL Language extensions installed
 * below a VS Code extensions folder. Every folder holding an alc.exe is one
 * extension; its platform comes from the folder's name and its version from
 * the executable's file version.
 */
module AlLanguage {
  import opened Wrappers
  import opened Strings
  import opened Versions

  datatype Platform = Other | NetFramework | DotNetWindows

  /**
   * The part of the file system the search looks at: the directories, the
   * files in the order a recursive enumeration visits them, and the file
   * version text recorded in each executable.
   */
  datatype Disk = Disk(dirs: set<string>, files: seq<string>, fileVersions: map<string, string>)

  datatype LanguageExtension = LanguageExtension(folder: string, fileVersion: Version, platform: Platform)

  const Executable: string := "alc.exe"

  /** AlcPAth: the compiler inside the extension's folder. */
  function AlcPath(folder: string): string
  {
    Combine(folder, Executable)
  }

  /** AlLanguageExtension.DetectPlatform: the folder named "bin" or "win32", ignoring case. */
  function DetectPlatform(folder: string): (p: Platform)
    ensures p == NetFramework <==> EqualsIgnoreCase(LastComponent(folder), "bin")
    ensures p == DotNetWindows <==> EqualsIgnoreCase(LastComponent(folder), "win32")
  {
    var name := LastComponent(folder);
    if EqualsIgnoreCase(name, "bin") then NetFramework
    else if EqualsIgnoreCase(name, "win32") then DotNetWindows
    else Other
  }

  /** Only the folder's own name counts, not the folders above it. */
  lemma DetectPlatformOfName(parent: string, name: string)
    requires NoneOf(name, PathSeparators)
    ensures DetectPlatform(parent + "\\" + name) == DetectPlatform(name)
  {
    LastComponentOf(parent, name);
    SplitNone(name, PathSeparators);
  }

  /** An upper-case "WIN32" folder is still a .NET Windows build. */
  lemma DetectPlatformUpperCase(parent: string)
    ensures DetectPlatform(parent + "\\WIN32") == DotNetWindows
  {
    var name := "WIN32";
    assert NoneOf(name, PathSeparators);
    assert parent + "\\WIN32" == parent + "\\" + name;
    DetectPlatformOfName(parent, name);
    SplitNone(name, PathSeparators);
    assert Lower(name) == "win32";
  }

  /**
   * The constructor: NotSupportedException when the folder holds no
   * alc.exe, otherwise the file version is parsed (a missing version is
   * an ArgumentException, a malformed one a FormatException).
   */
  function FromFolder(folder: string, disk: Disk): (r: Outcome<LanguageExtension>)
    ensures r == Fail(NotSupportedException) <==> AlcPath(folder) !in disk.files
    ensures r.Ok? <==> (AlcPath(folder) in disk.files && AlcPath(folder) in disk.fileVersions
      && ParseVersion(disk.fileVersions[AlcPath(folder)]).Some?)
    ensures r.Ok? ==> (r.value.folder == folder && r.value.platform == DetectPlatform(folder)
      && WellFormed(r.value.fileVersion)
      && ParseVersion(disk.fileVersions[AlcPath(folder)]) == Some(r.value.fileVersion))
  {
    var alc := AlcPath(folder);
    if alc !in disk.files then Fail(NotSupportedException)
    else if alc !in disk.fileVersions then Fail(ArgumentException)
    else match ParseVersion(disk.fileVersions[alc])
      case None => Fail(FormatException)
      case Some(v) => Ok(LanguageExtension(folder, v, DetectPlatform(folder)))
  }

  // ---------------------------------------------------------------------
  // Enumerate

  /** A file below root, that is root followed by a path separator (or a root ending in one). */
  predicate InTree(root: string, f: string)
  {
    |f| > |root| && f[..|root|] == root
    && (IsSeparator(f[|root|]) || (|root| > 0 && IsSeparator(root[|root| - 1])))
  }

  /** A file named alc.exe. */
  predicate NamedAlc(f: string)
  {
    |f| >= 8 && IsSeparator(f[|f| - 8]) && f[|f| - 7..] == Executable
  }

  /** Path.GetDirectoryName of an alc.exe path: everything before its last separator. */
  function FolderOf(f: string): string
    requires NamedAlc(f)
  {
    f[..|f| - 8]
  }

  /** The constructor finds an enumerated alc.exe again below its own folder. */
  lemma FolderOfFindsExecutable(f: string)
    requires NamedAlc(f) && f[|f| - 8] == '\\'
    requires FolderOf(f) != [] && !IsSeparator(FolderOf(f)[|FolderOf(f)| - 1])
    ensures AlcPath(FolderOf(f)) == f
  {
    assert f == FolderOf(f) + "\\" + Executable;
  }

  /** The extension built from the file f, when it is an alc.exe below root, constructs, and has the platform asked for. */
  predicate Found(platform: Option<Platform>, root: string, disk: Disk, f: string, x: LanguageExtension)
  {
    InTree(root, f) && NamedAlc(f) && FromFolder(FolderOf(f), disk) == Ok(x)
    && (platform.None? || x.platform == platform.value)
  }

  /** What one enumerated file contributes: its extension, or nothing when the constructor fails or the platform differs. */
  function Pick(platform: Option<Platform>, root: string, disk: Disk, f: string): (r: seq<LanguageExtension>)
    ensures |r| <= 1
    ensures forall x :: x in r <==> Found(platform, root, disk, f, x)
  {
    if InTree(root, f) && NamedAlc(f) && FromFolder(FolderOf(f), disk).Ok?
      && (platform.None? || FromFolder(FolderOf(f), disk).value.platform == platform.value)
    then [FromFolder(FolderOf(f), disk).value]
    else []
  }

  /** The Select/Where over the enumerated files: a failing constructor gives null, which is dropped. */
  function Collect(platform: Option<Platform>, root: string, disk: Disk, files: seq<string>): (r: seq<LanguageExtension>)
    ensures |r| <= |files|
    ensures forall x :: x in r <==> exists f :: f in files && Found(platform, root, disk, f, x)
  {
    if files == [] then []
    else
      var rest := Collect(platform, root, disk, files[1..]);
      assert forall g :: g in files <==> g == files[0] || g in files[1..];
      Pick(platform, root, disk, files[0]) + rest
  }

  /** The order of the enumeration is kept: the files found first come first. */
  lemma {:induction false} CollectAppend(platform: Option<Platform>, root: string, disk: Disk, a: seq<string>, b: seq<string>)
    ensures Collect(platform, root, disk, a + b) == Collect(platform, root, disk, a) + Collect(platform, root, disk, b)
    decreases |a|
  {
    if a != [] {
      assert (a + b)[0] == a[0];
      assert (a + b)[1..] == a[1..] + b;
      CollectAppend(platform, root, disk, a[1..], b);
      var p := Pick(platform, root, disk, a[0]);
      assert p + (Collect(platform, root, disk, a[1..]) + Collect(platform, root, disk, b))
        == (p + Collect(platform, root, disk, a[1..])) + Collect(platform, root, disk, b);
    } else {
      assert a + b == b;
    }
  }

  /** The folder searched: the given one, or the default extensions folder when none is given. */
  function SearchRoot(rootFolder: string, defaultRoot: string): string
  {
    if rootFolder == "" then defaultRoot else rootFolder
  }

  /**
   * AlLanguageExtension.Enumerate: nothing when the folder does not exist;
   * otherwise every extension that constructs and has the platform asked
   * for (any platform when none is given), in enumeration order.
   */
  function Enumerate(platform: Option<Platform>, rootFolder: string, defaultRoot: string, disk: Disk): (r: seq<LanguageExtension>)
    ensures SearchRoot(rootFolder, defaultRoot) !in disk.dirs ==> r == []
    ensures forall x :: x in r ==> platform.None? || x.platform == platform.value
    ensures SearchRoot(rootFolder, defaultRoot) in disk.dirs ==>
      forall x :: x in r <==> exists f :: f in disk.files && Found(platform, SearchRoot(rootFolder, defaultRoot), disk, f, x)
  {
    var root := SearchRoot(rootFolder, defaultRoot);
    if root !in disk.dirs then [] else Collect(platform, root, disk, disk.files)
  }

  // ---------------------------------------------------------------------
  // GetLatest: OrderBy(FileVersion).LastOrDefault()

  /** The index of the last extension of maximal version (the sort is stable, and the last one is taken). */
  function LastMaxIndex(s: seq<LanguageExtension>): (i: nat)
    requires |s| > 0
    ensures i < |s|
    ensures forall j :: 0 <= j < |s| ==> AtLeast(s[i].fileVersion, s[j].fileVersion)
    ensures forall j :: i < j < |s| ==> Less(s[j].fileVersion, s[i].fileVersion)
  {
    if |s| == 1 then 0
    else
      var k := LastMaxIndex(s[1..]) + 1;
      assert forall j :: 1 <= j < |s| ==> s[1..][j - 1] == s[j];
      if Less(s[k].fileVersion, s[0].fileVersion) then
        forall j | 1 <= j < |s|
          ensures Less(s[j].fileVersion, s[0].fileVersion)
        {
          LessTotal(s[j].fileVersion, s[k].fileVersion);
          if Less(s[j].fileVersion, s[k].fileVersion) {
            LessTransitive(s[j].fileVersion, s[k].fileVersion, s[0].fileVersion);
          }
        }
        0
      else
        LessTotal(s[k].fileVersion, s[0].fileVersion);
        k
  }

  /** The two properties pin the index down: any index with them is LastMaxIndex. */
  lemma LastMaxIndexUnique(s: seq<LanguageExtension>, i: nat)
    requires i < |s|
    requires forall j :: 0 <= j < |s| ==> AtLeast(s[i].fileVersion, s[j].fileVersion)
    requires forall j :: i < j < |s| ==> Less(s[j].fileVersion, s[i].fileVersion)
    ensures LastMaxIndex(s) == i
  {
    var k := LastMaxIndex(s);
    LessTotal(s[i].fileVersion, s[k].fileVersion);
  }

  /**
   * AlLanguageExtension.GetLatest: the extensions of the platform asked
   * for, or of DotNetWindows when none is given, and among them the last
   * one of greatest version; nothing when there is none.
   */
  function GetLatest(rootFolder: string, platform: Option<Platform>, defaultRoot: string, disk: Disk): (r: Option<LanguageExtension>)
    ensures var all := Enumerate(Some(platform.GetOr(DotNetWindows)), rootFolder, defaultRoot, disk);
      && (r.None? <==> all == [])
      && (r.Some? ==> (r.value in all && r.value.platform == platform.GetOr(DotNetWindows)
          && forall y :: y in all ==> AtLeast(r.value.fileVersion, y.fileVersion)))
      && (r.Some? ==> exists i :: (0 <= i < |all| && all[i] == r.value
          && forall j :: i < j < |all| ==> Less(all[j].fileVersion, r.value.fileVersion)))
  {
    var all := Enumerate(Some(platform.GetOr(DotNetWindows)), rootFolder, defaultRoot, disk);
    if all == [] then None
    else
      Some(all[LastMaxIndex(all)])
  }

  /** A "bin" build below root, with the given file version, is found only when no platform is asked for. */
  lemma BinBuildPicked(root: string, version: string, v: Version)
    requires ParseVersion(version) == Some(v)
    ensures var f := root + "\\bin\\alc.exe";
      var disk := Disk({root}, [f], map[f := version]);
      && Pick(None, root, disk, f) == [LanguageExtension(root + "\\bin", v, NetFramework)]
      && Pick(Some(DotNetWindows), root, disk, f) == []
  {
    var folder := root + "\\bin";
    var f := root + "\\bin\\alc.exe";
    BinExecutablePath(root);
    BinIsNetFramework(root);
    var disk := Disk({root}, [f], map[f := version]);
    assert FromFolder(folder, disk) == Ok(LanguageExtension(folder, v, NetFramework));
  }

  /** The alc.exe of a "bin" folder below root: below root, and found again from its folder. */
  lemma BinExecutablePath(root: string)
    ensures var f := root + "\\bin\\alc.exe";
      && NamedAlc(f) && FolderOf(f) == root + "\\bin" && AlcPath(root + "\\bin") == f && InTree(root, f)
  {
    var folder := root + "\\bin";
    var f := folder + "\\alc.exe";
    assert f == root + "\\bin\\alc.exe";
    assert NamedAlc(f);
    assert FolderOf(f) == folder;
    FolderOfFindsExecutable(f);
    assert f[..|root|] == root;
    assert f[|root|] == '\\';
  }

  /** A folder named "bin" is a .NET Framework build. */
  lemma BinIsNetFramework(root: string)
    ensures DetectPlatform(root + "\\bin") == NetFramework
  {
    var name := "bin";
    assert NoneOf(name, PathSeparators);
    assert root + "\\bin" == root + "\\" + name;
    DetectPlatformOfName(root, name);
    SplitNone(name, PathSeparators);
    assert Lower(name) == "bin";
  }

  /**
   * Without a platform GetLatest looks only at DotNetWindows builds: with
   * nothing but a "bin" build installed it finds nothing, although
   * Enumerate without a platform lists that build.
   */
  lemma GetLatestDefaultsToWindows(root: string, version: string, v: Version)
    requires ParseVersion(version) == Some(v)
    ensures var f := root + "\\bin\\alc.exe";
      var disk := Disk({root}, [f], map[f := version]);
      && Enumerate(None, root, "", disk) == [LanguageExtension(root + "\\bin", v, NetFramework)]
      && GetLatest(root, None, "", disk) == None
  {
    var f := root + "\\bin\\alc.exe";
    var disk := Disk({root}, [f], map[f := version]);
    BinBuildPicked(root, version, v);
    assert SearchRoot(root, "") == root;
    assert [f][1..] == [];
    assert Collect(None, root, disk, [f]) == Pick(None, root, disk, f);
    assert Collect(Some(DotNetWindows), root, disk, [f]) == Pick(Some(DotNetWindows), root, disk, f);
    assert Enumerate(Some(DotNetWindows), root, "", disk) == [];
  }
}
