/**
 * LocalArtifactCache: the artifacts found in the cache folder tree
 * root \ type \ version \ country, and the age-based eviction of cached
 * artifacts by their last-used stamp. Times are tick counts; the clock and
 * the maximum age are parameters.
 */
module LocalCache {
  import opened Wrappers
  import opened Strings
  import opened Versions
  import opened Artifacts
  import opened Install

  /** A third-level directory under the cache root: three non-empty names below it. */
  predicate CacheFolder(root: string, d: string)
  {
    |d| >= |root| + 1 && d[..|root| + 1] == root + "\\"
    && var parts := Split(d[|root| + 1..], PathSeparators);
       |parts| == 3 && parts[0] != "" && parts[1] != "" && parts[2] != ""
  }

  /** Every cache folder is long enough for the root strip, so reading it never throws. */
  lemma CacheFolderReads(root: string, d: string)
    requires CacheFolder(root, d)
    ensures FromLocalFolder(root, d, None).Ok?
  {
  }

  /** A root, a separator and three non-empty plain names make a cache folder. */
  lemma CacheFolderOfParts(root: string, d: string, a: string, b: string, c: string)
    requires d == root + "\\" + a + "\\" + b + "\\" + c
    requires Split(d[|root| + 1..], PathSeparators) == [a, b, c]
    requires a != "" && b != "" && c != ""
    ensures CacheFolder(root, d)
  {
    var n := |root| + 1;
    var p1 := root + "\\";
    var p3 := p1 + a + "\\";
    var p5 := p3 + b + "\\";
    PrefixKept(p5, c, n);
    PrefixKept(p3 + b, "\\", n);
    PrefixKept(p3, b, n);
    PrefixKept(p1 + a, "\\", n);
    PrefixKept(p1, a, n);
    assert p1[..n] == p1;
  }

  /** Appending keeps every prefix of the first part. */
  lemma PrefixKept<T>(x: seq<T>, y: seq<T>, k: nat)
    requires k <= |x|
    ensures (x + y)[..k] == x[..k]
  {
  }

  /** The folder an install writes is one that Enumerate finds. */
  lemma InstalledFolderEnumerated(root: string, x: Artifact)
    requires ValidArtifact(x) && |root| >= 1 && !IsSeparator(root[|root| - 1])
    requires |x.country| >= 1 && PlainSegment(x.country)
    ensures CacheFolder(root, LocalFolder(root, x))
  {
    LocalFolderShape(root, x);
    LocalFolderFields(root, x);
    LowerTypeName(x.kind);
    VersionTextChars(x.version);
    CacheFolderOfParts(root, LocalFolder(root, x), Lower(TypeName(x.kind)), VersionText(x.version), x.country);
  }

  /**
   * What Enumerate lists on a disk whose cache root exists: each cache
   * folder once, and for each the read of that folder with no account.
   */
  ghost predicate Enumerated(dirs: set<string>, root: string, folders: seq<string>, entries: seq<Option<Artifact>>)
  {
    && |entries| == |folders|
    && (forall d :: d in folders <==> d in dirs && CacheFolder(root, d))
    && (forall i, j :: 0 <= i < j < |folders| ==> folders[i] != folders[j])
    && (forall i :: 0 <= i < |folders| ==> FromLocalFolder(root, folders[i], None) == Ok(entries[i]))
  }

  /** The entries of an enumeration are null or artifacts with a System.Version. */
  lemma EnumeratedValid(dirs: set<string>, root: string, folders: seq<string>, entries: seq<Option<Artifact>>)
    requires Enumerated(dirs, root, folders, entries)
    ensures Catalog.ValidItems(entries)
  {
    forall i | 0 <= i < |entries| && entries[i].Some?
      ensures ValidArtifact(entries[i].value)
    {
      assert FromLocalFolder(root, folders[i], None) == Ok(entries[i]);
    }
  }

  /**
   * LocalArtifactCache.Enumerate: listing a missing cache root raises
   * DirectoryNotFoundException. Otherwise one entry per cache folder that
   * exists, each the read of its folder with no account; folders that do
   * not parse give null entries, which stay in the listing. The file
   * system's order is not modelled: the folders come in some order, each
   * once.
   */
  method Enumerate(disk: Disk) returns (entries: Outcome<seq<Option<Artifact>>>, folders: seq<string>)
    ensures entries.Fail? <==> disk.root !in disk.dirs
    ensures entries.Fail? ==> entries.error == DirectoryNotFoundException && folders == []
    ensures entries.Ok? ==> Enumerated(disk.dirs, disk.root, folders, entries.value)
  {
    if disk.root !in disk.dirs {
      return Fail(DirectoryNotFoundException), [];
    }
    var items: seq<Option<Artifact>>;
    var all := set d | d in disk.dirs && CacheFolder(disk.root, d);
    var rest := all;
    folders, items := [], [];
    while rest != {}
      invariant rest <= all
      invariant forall d :: d in folders <==> d in all && d !in rest
      invariant |items| == |folders|
      invariant forall i, j :: 0 <= i < j < |folders| ==> folders[i] != folders[j]
      invariant forall i :: 0 <= i < |folders| ==> FromLocalFolder(disk.root, folders[i], None) == Ok(items[i])
      decreases |rest|
    {
      var d :| d in rest;
      CacheFolderReads(disk.root, d);
      var entry := FromLocalFolder(disk.root, d, None).value;
      folders, items := folders + [d], items + [entry];
      rest := rest - {d};
    }
    entries := Ok(items);
  }

  // ---------------------------------------------------------------------
  // Cleanup

  /**
   * The eviction test on one artifact: its stamp exists and is strictly
   * earlier than now - maxAge. Forming now - maxAge throws when it leaves
   * the DateTime range, and it is formed only for a stamped artifact.
   */
  function Stale(stamp: Option<nat>, now: nat, maxAge: int): (r: Outcome<bool>)
    ensures r.Ok? && r.value ==> stamp.Some? && stamp.value < now - maxAge
    ensures r.Ok? && !r.value ==> stamp.None? || stamp.value >= now - maxAge
    ensures r.Fail? <==> stamp.Some? && !(0 <= now - maxAge <= MaxTicks)
  {
    if stamp.None? then Ok(false)
    else if now - maxAge < 0 || now - maxAge > MaxTicks then Fail(ArgumentOutOfRangeException)
    else Ok(stamp.value < now - maxAge)
  }

  /**
   * One step of Cleanup: read the folder's stamp, test it, and delete the
   * folder when it is stale and exists. The folder goes exactly when its
   * stamp is older than now - maxAge; nothing else changes.
   */
  function EvictOne(s: DiskState, folder: string, now: nat, maxAge: int): (r: Outcome<DiskState>)
    requires Consistent(s)
    ensures r.Fail? <==> StampOf(s, folder).Fail? || Stale(StampOf(s, folder).value, now, maxAge).Fail?
    ensures r.Ok? ==> var st := StampOf(s, folder).value;
      if st.Some? && st.value < now - maxAge then r.value == DeleteDir(s, folder) else r.value == s
  {
    var stamp := StampOf(s, folder);
    if stamp.Fail? then Fail(stamp.error)
    else
      var stale := Stale(stamp.value, now, maxAge);
      if stale.Fail? then Fail(stale.error)
      else Ok(if stale.value && folder in s.dirs then DeleteDir(s, folder) else s)
  }

  /** Deleting one folder leaves every other folder and its stamp as they were. */
  lemma DeleteKeepsStamp(s: DiskState, folder: string, d: string)
    requires d != folder
    ensures d in DeleteDir(s, folder).dirs <==> d in s.dirs
    ensures StampOf(DeleteDir(s, folder), d) == StampOf(s, d)
  {
  }

  /** The folder of one enumerated entry; a null entry has none. */
  function FolderOf(root: string, e: Option<Artifact>): (r: Option<string>)
    requires e.Some? ==> ValidArtifact(e.value)
    ensures r.None? <==> e.None?
    ensures r.Some? ==> r.value == LocalFolder(root, e.value)
  {
    if e.None? then None else Some(LocalFolder(root, e.value))
  }

  /** The folders Cleanup visits: one per entry, in order. */
  function Folders(root: string, entries: seq<Option<Artifact>>): (r: seq<Option<string>>)
    requires Catalog.ValidItems(entries)
    ensures |r| == |entries|
    ensures forall i :: 0 <= i < |r| ==> r[i] == FolderOf(root, entries[i])
  {
    seq(|entries|, i requires 0 <= i < |entries| => FolderOf(root, entries[i]))
  }

  /**
   * The Cleanup pipeline over the folders of the enumerated entries, in
   * order: each folder's stamp is read and compared, and a stale folder is
   * deleted when it exists. The first exception ends the run with the
   * deletions so far. With skipNulls false a null entry raises
   * NullReferenceException, as the code does; with skipNulls true it is
   * passed over.
   */
  function CleanupFrom(s: DiskState, folders: seq<Option<string>>, now: nat, maxAge: int, skipNulls: bool)
    : (r: (DiskState, Option<Exception>))
    requires Consistent(s)
    ensures Consistent(r.0)
    ensures r.0.dirs <= s.dirs && r.0.temps == s.temps
    ensures forall d :: d in r.0.dirs ==>
      (d in r.0.stamps <==> d in s.stamps) && (d in r.0.stamps ==> r.0.stamps[d] == s.stamps[d])
      && (d in r.0.contents <==> d in s.contents) && (d in r.0.contents ==> r.0.contents[d] == s.contents[d])
    decreases |folders|
  {
    if folders == [] then (s, None)
    else if folders[0].None? then
      if skipNulls then CleanupFrom(s, folders[1..], now, maxAge, skipNulls)
      else (s, Some(NullReferenceException))
    else
      match EvictOne(s, folders[0].value, now, maxAge)
      case Fail(e) => (s, Some(e))
      case Ok(s1) => CleanupFrom(s1, folders[1..], now, maxAge, skipNulls)
  }

  /** LocalArtifactCache.Cleanup as written: a null entry stops the run. */
  function CleanupAsWritten(s: DiskState, root: string, entries: seq<Option<Artifact>>, now: nat, maxAge: int): (DiskState, Option<Exception>)
    requires Consistent(s) && Catalog.ValidItems(entries)
  {
    CleanupFrom(s, Folders(root, entries), now, maxAge, false)
  }

  /** LocalArtifactCache.Cleanup as evidently intended: entries that are not artifacts are skipped. */
  function Cleanup(s: DiskState, root: string, entries: seq<Option<Artifact>>, now: nat, maxAge: int): (DiskState, Option<Exception>)
    requires Consistent(s) && Catalog.ValidItems(entries)
  {
    CleanupFrom(s, Folders(root, entries), now, maxAge, true)
  }

  lemma FoldersCons(root: string, e: Option<Artifact>, entries: seq<Option<Artifact>>)
    requires Catalog.ValidItems(entries) && (e.Some? ==> ValidArtifact(e.value))
    ensures Catalog.ValidItems([e] + entries)
    ensures Folders(root, [e] + entries) == [FolderOf(root, e)] + Folders(root, entries)
  {
    var xs := [e] + entries;
    assert Catalog.ValidItems(xs) by {
      forall i | 0 <= i < |xs| && xs[i].Some?
        ensures ValidArtifact(xs[i].value)
      {
        if i > 0 {
          assert xs[i] == entries[i - 1];
        }
      }
    }
    var l, r := Folders(root, xs), [FolderOf(root, e)] + Folders(root, entries);
    forall i | 0 <= i < |l|
      ensures l[i] == r[i]
    {
      if i > 0 {
        assert xs[i] == entries[i - 1];
      }
    }
  }

  /** As written, a null entry first in line aborts the whole cleanup before any deletion. */
  lemma CleanupAsWrittenStopsAtNull(s: DiskState, root: string, entries: seq<Option<Artifact>>, now: nat, maxAge: int)
    requires Consistent(s) && Catalog.ValidItems(entries)
    ensures Catalog.ValidItems([None] + entries)
    ensures CleanupAsWritten(s, root, [None] + entries, now, maxAge) == (s, Some(NullReferenceException))
  {
    FoldersCons(root, None, entries);
  }

  /** With the correction, a null entry is passed over and the rest is cleaned as usual. */
  lemma CleanupSkipsNull(s: DiskState, root: string, entries: seq<Option<Artifact>>, now: nat, maxAge: int)
    requires Consistent(s) && Catalog.ValidItems(entries)
    ensures Catalog.ValidItems([None] + entries)
    ensures Cleanup(s, root, [None] + entries, now, maxAge) == Cleanup(s, root, entries, now, maxAge)
  {
    FoldersCons(root, None, entries);
    assert ([None] + Folders(root, entries))[1..] == Folders(root, entries);
  }

  /** Without null folders the two treatments of nulls agree. */
  lemma {:induction false} CleanupFromAgrees(s: DiskState, folders: seq<Option<string>>, now: nat, maxAge: int)
    requires Consistent(s) && forall i :: 0 <= i < |folders| ==> folders[i].Some?
    ensures CleanupFrom(s, folders, now, maxAge, true) == CleanupFrom(s, folders, now, maxAge, false)
    decreases |folders|
  {
    if folders != [] {
      assert forall i :: 0 <= i < |folders[1..]| ==> folders[1..][i] == folders[i + 1];
      var step := EvictOne(s, folders[0].value, now, maxAge);
      if step.Ok? {
        CleanupFromAgrees(step.value, folders[1..], now, maxAge);
      }
    }
  }

  /** Without nulls the as-written and the corrected cleanup agree. */
  lemma CleanupAgreesWithoutNulls(s: DiskState, root: string, entries: seq<Option<Artifact>>, now: nat, maxAge: int)
    requires Consistent(s) && Catalog.ValidItems(entries) && !Catalog.HasNull(entries)
    ensures Cleanup(s, root, entries, now, maxAge) == CleanupAsWritten(s, root, entries, now, maxAge)
  {
    CleanupFromAgrees(s, Folders(root, entries), now, maxAge);
  }

  /** Some folder in the list is d, and its stamp in s is older than now - maxAge. */
  predicate StaleFolderIn(s: DiskState, folders: seq<Option<string>>, now: nat, maxAge: int, d: string)
  {
    Some(d) in folders && StampOf(s, d).Ok? && StampOf(s, d).value.Some? && StampOf(s, d).value.value < now - maxAge
  }

  lemma {:induction false} CleanupFromDeletesOnlyStale(s: DiskState, folders: seq<Option<string>>, now: nat, maxAge: int,
                                                       skipNulls: bool, d: string)
    requires Consistent(s)
    requires d in s.dirs && d !in CleanupFrom(s, folders, now, maxAge, skipNulls).0.dirs
    ensures StaleFolderIn(s, folders, now, maxAge, d)
    decreases |folders|
  {
    assert folders != [] && folders == [folders[0]] + folders[1..];
    if folders[0].None? {
      CleanupFromDeletesOnlyStale(s, folders[1..], now, maxAge, skipNulls, d);
    } else {
      var folder := folders[0].value;
      var s1 := EvictOne(s, folder, now, maxAge).value;
      if d != folder || s1 == s {
        if d != folder {
          DeleteKeepsStamp(s, folder, d);
        }
        CleanupFromDeletesOnlyStale(s1, folders[1..], now, maxAge, skipNulls, d);
      }
    }
  }

  /**
   * Only stale folders go: a directory that disappears is the folder of an
   * entry whose stamp, read before the run, is strictly older than
   * now - maxAge. An entry without a stamp, or stamped exactly at the
   * limit, keeps its folder.
   */
  lemma CleanupDeletesOnlyStale(s: DiskState, root: string, entries: seq<Option<Artifact>>, now: nat, maxAge: int,
                                skipNulls: bool, d: string)
    requires Consistent(s) && Catalog.ValidItems(entries)
    requires d in s.dirs && d !in CleanupFrom(s, Folders(root, entries), now, maxAge, skipNulls).0.dirs
    ensures exists i :: (0 <= i < |entries| && entries[i].Some? && LocalFolder(root, entries[i].value) == d)
    ensures StampOf(s, d).Ok? && StampOf(s, d).value.Some? && StampOf(s, d).value.value < now - maxAge
  {
    var folders := Folders(root, entries);
    CleanupFromDeletesOnlyStale(s, folders, now, maxAge, skipNulls, d);
    var i :| 0 <= i < |folders| && folders[i] == Some(d);
    assert entries[i].Some? && LocalFolder(root, entries[i].value) == d;
  }

  lemma {:induction false} CleanupFromDeletesAllStale(s: DiskState, folders: seq<Option<string>>, now: nat, maxAge: int,
                                                      skipNulls: bool, d: string)
    requires Consistent(s)
    requires CleanupFrom(s, folders, now, maxAge, skipNulls).1.None?
    requires StaleFolderIn(s, folders, now, maxAge, d)
    ensures d !in CleanupFrom(s, folders, now, maxAge, skipNulls).0.dirs
    decreases |folders|
  {
    assert folders == [folders[0]] + folders[1..];
    if folders[0].None? {
      CleanupFromDeletesAllStale(s, folders[1..], now, maxAge, skipNulls, d);
    } else {
      var folder := folders[0].value;
      var s1 := EvictOne(s, folder, now, maxAge).value;
      if d != folder && d in s1.dirs {
        DeleteKeepsStamp(s, folder, d);
        CleanupFromDeletesAllStale(s1, folders[1..], now, maxAge, skipNulls, d);
      }
    }
  }

  /**
   * A run that ends without an exception removes every stale entry's
   * folder: the entry's stamp, read before the run, is strictly older
   * than now - maxAge.
   */
  lemma CleanupDeletesAllStale(s: DiskState, root: string, entries: seq<Option<Artifact>>, now: nat, maxAge: int,
                               skipNulls: bool, i: nat)
    requires Consistent(s) && Catalog.ValidItems(entries)
    requires CleanupFrom(s, Folders(root, entries), now, maxAge, skipNulls).1.None?
    requires i < |entries| && entries[i].Some?
    requires var st := StampOf(s, LocalFolder(root, entries[i].value)); st.Ok? && st.value.Some? && st.value.value < now - maxAge
    ensures LocalFolder(root, entries[i].value) !in CleanupFrom(s, Folders(root, entries), now, maxAge, skipNulls).0.dirs
  {
    var folders := Folders(root, entries);
    assert folders[i] == Some(LocalFolder(root, entries[i].value));
    CleanupFromDeletesAllStale(s, folders, now, maxAge, skipNulls, LocalFolder(root, entries[i].value));
  }

  /** One step of Cleanup: the entry's stamp is read and compared, and its folder deleted when stale. */
  method Evict(disk: Disk, entry: Artifact, now: nat, maxAge: int) returns (err: Option<Exception>)
    requires Consistent(disk.State()) && ValidArtifact(entry)
    modifies disk
    ensures var r := EvictOne(old(disk.State()), LocalFolder(disk.root, entry), now, maxAge);
      (r.Fail? ==> err == Some(r.error) && disk.State() == old(disk.State()))
      && (r.Ok? ==> err.None? && disk.State() == r.value)
    ensures disk.held == old(disk.held)
  {
    var folder := LocalFolder(disk.root, entry);
    var stamp := disk.GetLastUsedDate(entry);
    if stamp.Fail? {
      return Some(stamp.error);
    }
    var stale := Stale(stamp.value, now, maxAge);
    if stale.Fail? {
      return Some(stale.error);
    }
    if stale.value && folder in disk.dirs {
      disk.DeleteDirectory(folder);
    }
    return None;
  }

  /**
   * LocalArtifactCache.Cleanup: enumerate the cache as it stands, then walk
   * the entries, deleting the folders of stale artifacts; null entries are
   * passed over. A missing cache root raises before anything is touched.
   */
  method CleanupCache(disk: Disk, now: nat, maxAge: int)
    returns (folders: seq<string>, entries: seq<Option<Artifact>>, err: Option<Exception>)
    requires Consistent(disk.State())
    modifies disk
    ensures disk.root !in old(disk.dirs) ==> err == Some(DirectoryNotFoundException) && disk.State() == old(disk.State())
    ensures disk.root in old(disk.dirs) ==> Enumerated(old(disk.dirs), disk.root, folders, entries)
    ensures Catalog.ValidItems(entries)
    ensures disk.root in old(disk.dirs) ==> (disk.State(), err) == Cleanup(old(disk.State()), disk.root, entries, now, maxAge)
    ensures disk.held == old(disk.held)
  {
    var listed;
    listed, folders := Enumerate(disk);
    if listed.Fail? {
      return folders, [], Some(listed.error);
    }
    entries := listed.value;
    EnumeratedValid(disk.dirs, disk.root, folders, entries);
    ghost var goal := Cleanup(disk.State(), disk.root, entries, now, maxAge);
    var k := 0;
    while k < |entries|
      invariant 0 <= k <= |entries|
      invariant Consistent(disk.State())
      invariant CleanupFrom(disk.State(), Folders(disk.root, entries)[k..], now, maxAge, true) == goal
      invariant disk.held == old(disk.held)
      decreases |entries| - k
    {
      assert Folders(disk.root, entries)[k..][1..] == Folders(disk.root, entries)[k + 1..];
      var entry := entries[k];
      if entry.Some? {
        var e := Evict(disk, entry.value, now, maxAge);
        if e.Some? {
          return folders, entries, e;
        }
      }
      k := k + 1;
    }
    return folders, entries, None;
  }
}
