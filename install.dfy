/**
 * Installing artifacts into the local cache (ArtifactDownloader) and the
 * last-used stamp of a cached artifact (BcArtifact.Get/SetLastUsedDate).
 *
 * The disk is abstracted to the directories that exist, the first line of
 * each directory's "lastused" file, the names of the archive entries
 * extracted into each directory, and the temporary files. Downloading and
 * reading the archive is an oracle that maps a URI to its entry names; a
 * URI it does not know fails, and the model reports every failure of the
 * HTTP client or the zip reader as one IOException.
 */
module Install {
  import opened Wrappers
  import opened Strings
  import opened Versions
  import opened Uris
  import opened Artifacts
  import Catalog

  const Int64Max: int := 0x7fff_ffff_ffff_ffff

  /** DateTime.MaxValue.Ticks. */
  const MaxTicks: int := 3155378975999999999

  datatype DiskState = DiskState(
    dirs: set<string>,
    stamps: map<string, string>,
    contents: map<string, set<string>>,
    temps: set<string>)

  /** Files live in directories that exist. */
  predicate Consistent(s: DiskState)
  {
    s.stamps.Keys <= s.dirs && s.contents.Keys <= s.dirs
  }

  // ---------------------------------------------------------------------
  // Directory primitives

  /** Directory.Delete(d, recursive: true), at the granularity of this model. */
  function DeleteDir(s: DiskState, d: string): (r: DiskState)
    ensures Consistent(s) ==> Consistent(r)
    ensures d !in r.dirs && r.dirs == s.dirs - {d} && r.temps == s.temps
    ensures forall e :: e != d ==> (e in r.stamps <==> e in s.stamps) && (e in r.contents <==> e in s.contents)
  {
    DiskState(s.dirs - {d}, s.stamps - {d}, s.contents - {d}, s.temps)
  }

  /** Directory.CreateDirectory(d): a new directory is empty, an existing one is kept. */
  function CreateDir(s: DiskState, d: string): (r: DiskState)
    ensures Consistent(s) ==> Consistent(r)
    ensures d in r.dirs && r.dirs == s.dirs + {d} && r.stamps == s.stamps && r.temps == s.temps
    ensures d !in s.dirs ==> r.contents == s.contents[d := {}]
  {
    if d in s.dirs then s else s.(dirs := s.dirs + {d}, contents := s.contents[d := {}])
  }

  function MoveKey<V>(m: map<string, V>, from: string, to: string): (r: map<string, V>)
    requires from != to
    ensures from !in r
    ensures forall k :: k != from && k != to ==> (k in r <==> k in m) && (k in r ==> r[k] == m[k])
    ensures from in m ==> to in r && r[to] == m[from]
    ensures from !in m && to !in m ==> to !in r
  {
    if from in m then (m - {from})[to := m[from]] else m - {from}
  }

  /** Directory.Move(from, to): the directory and what it holds change name. */
  function MoveDir(s: DiskState, from: string, to: string): (r: DiskState)
    requires from in s.dirs && to !in s.dirs && from != to
    ensures Consistent(s) ==> Consistent(r)
    ensures r.dirs == s.dirs - {from} + {to} && r.temps == s.temps
    ensures r.stamps == MoveKey(s.stamps, from, to) && r.contents == MoveKey(s.contents, from, to)
  {
    DiskState(s.dirs - {from} + {to}, MoveKey(s.stamps, from, to), MoveKey(s.contents, from, to), s.temps)
  }

  // ---------------------------------------------------------------------
  // The last-used stamp

  /**
   * SetLastUsedDate: writes the tick count as the one line of "lastused"
   * and answers true, or answers false when the folder does not exist.
   */
  function WriteStamp(s: DiskState, folder: string, ticks: nat): (r: (DiskState, bool))
    ensures r.1 <==> folder in s.dirs
    ensures r.0 == if r.1 then s.(stamps := s.stamps[folder := NatToString(ticks)]) else s
    ensures Consistent(s) ==> Consistent(r.0)
  {
    if folder in s.dirs then (s.(stamps := s.stamps[folder := NatToString(ticks)]), true) else (s, false)
  }

  /**
   * GetLastUsedDate: nothing when the folder or its "lastused" file is
   * missing; otherwise long.Parse of the line, which new DateTime(ticks)
   * then accepts only up to DateTime.MaxValue.
   */
  function StampOf(s: DiskState, folder: string): (r: Outcome<Option<nat>>)
    ensures r == Ok(None) <==> folder !in s.dirs || folder !in s.stamps
    ensures r.Ok? && r.value.Some? ==> r.value.value <= MaxTicks && ParseNat(s.stamps[folder]) == Some(r.value.value)
  {
    if folder !in s.dirs || folder !in s.stamps then Ok(None)
    else
      match ParseNat(s.stamps[folder])
      case None => Fail(FormatException)
      case Some(n) =>
        if n > Int64Max then Fail(OverflowException)
        else if n > MaxTicks then Fail(ArgumentOutOfRangeException)
        else Ok(Some(n))
  }

  /** Setting the stamp of an existing folder and reading it back gives the ticks written. */
  lemma StampRoundTrip(s: DiskState, folder: string, ticks: nat)
    requires folder in s.dirs && ticks <= MaxTicks
    ensures WriteStamp(s, folder, ticks).1
    ensures StampOf(WriteStamp(s, folder, ticks).0, folder) == Ok(Some(ticks))
  {
    ParseNatToString(ticks);
  }

  /** A stamp write on a missing folder changes nothing and is read back as nothing. */
  lemma StampMissingFolder(s: DiskState, folder: string, ticks: nat)
    requires folder !in s.dirs
    ensures WriteStamp(s, folder, ticks) == (s, false)
    ensures StampOf(s, folder) == Ok(None)
  {
  }

  // ---------------------------------------------------------------------
  // Staging (DownloadUriToTempFolder)

  /**
   * Path.GetExtension is non-empty: the last component holds a '.' and
   * does not end with it.
   */
  predicate HasExtension(name: string)
  {
    var tail := LastComponent(name);
    '.' in tail && tail[|tail| - 1] != '.'
  }

  /** The entries the extraction loop writes: exactly those with an extension. */
  function Extracted(entries: seq<string>): (r: set<string>)
    ensures forall e :: e in r <==> e in entries && HasExtension(e)
  {
    set e | e in entries && HasExtension(e)
  }

  lemma ExtractedSnoc(entries: seq<string>, i: nat)
    requires i < |entries|
    ensures Extracted(entries[..i + 1]) == Extracted(entries[..i]) + (if HasExtension(entries[i]) then {entries[i]} else {})
  {
    assert entries[..i + 1] == entries[..i] + [entries[i]];
  }

  lemma UpdateTwice<K, V>(m: map<K, V>, k: K, a: V, b: V)
    ensures m[k := a][k := b] == m[k := b]
  {
  }

  /** The staging folder of a cache folder. */
  function StagingFolder(target: string): (r: string)
    ensures r != target && |r| == |target| + 3
  {
    target + "_dl"
  }

  /**
   * DownloadUriToTempFolder: a temporary file is created; a stale staging
   * folder is deleted and a fresh one created; the archive is downloaded
   * and its entries with an extension are extracted into the staging
   * folder; the temporary file is deleted on every path.
   */
  function Stage(s: DiskState, target: string, download: Option<seq<string>>, tempName: string): (r: (DiskState, Outcome<string>))
  {
    var staging := StagingFolder(target);
    var s1 := s.(temps := s.temps + {tempName});
    var s2 := if staging in s1.dirs then DeleteDir(s1, staging) else s1;
    var s3 := CreateDir(s2, staging);
    if download.None? then (s3.(temps := s3.temps - {tempName}), Fail(IOException))
    else
      var s4 := s3.(contents := s3.contents[staging := Extracted(download.value)]);
      (s4.(temps := s4.temps - {tempName}), Ok(staging))
  }

  /**
   * What staging leaves behind: the staging folder holds exactly the
   * extracted entries (or nothing after a failed download), the temporary
   * file is gone, and nothing else changes.
   */
  lemma StageEffect(s: DiskState, target: string, download: Option<seq<string>>, tempName: string)
    requires Consistent(s) && tempName !in s.temps
    ensures var (r, out) := Stage(s, target, download, tempName);
      Consistent(r) && r.temps == s.temps
      && r.dirs == s.dirs + {StagingFolder(target)}
      && StagingFolder(target) !in r.stamps
      && r.contents[StagingFolder(target)] == (if download.Some? then Extracted(download.value) else {})
      && (forall d :: d != StagingFolder(target) ==>
            (d in r.stamps <==> d in s.stamps) && (d in r.stamps ==> r.stamps[d] == s.stamps[d])
            && (d in r.contents <==> d in s.contents) && (d in r.contents ==> r.contents[d] == s.contents[d]))
      && (out.Ok? <==> download.Some?)
      && (out.Ok? ==> out.value == StagingFolder(target))
      && (out.Fail? ==> out.error == IOException)
  {
  }

  // ---------------------------------------------------------------------
  // DownloadUri

  /**
   * The lock file: the cache root combined with "dl-" and the URI text
   * before its first '?', less its first eight characters, with every '/'
   * turned into '_'. Substring(8) on a shorter text throws.
   */
  function LockPath(root: string, u: Uri): (r: Outcome<string>)
    ensures r.Fail? <==> |Split(UriText(u), {'?'})[0]| < 8
    ensures r.Fail? ==> r.error == ArgumentOutOfRangeException
  {
    var bare := Split(UriText(u), {'?'})[0];
    if |bare| < 8 then Fail(ArgumentOutOfRangeException)
    else Ok(Combine(root, "dl-" + Replace(bare[8..], '/', '_')))
  }

  /** The lock file depends only on the URI without its query. */
  lemma LockPathIgnoresQuery(root: string, u: Uri, q: string)
    requires NoneOf(UriText(u.(query := "")), {'?'})
    requires q == "" || q[0] == '?'
    ensures LockPath(root, u.(query := q)) == LockPath(root, u.(query := ""))
  {
    var bare := UriText(u.(query := ""));
    SplitNone(bare, {'?'});
    if q != "" {
      assert UriText(u.(query := q)) == bare + ['?'] + q[1..];
      SplitCons(bare, '?', q[1..], {'?'});
    }
  }

  /** The lookup of the download oracle. */
  function Fetch(remote: map<Uri, seq<string>>, u: Uri): Option<seq<string>>
  {
    if u in remote then Some(remote[u]) else None
  }

  /**
   * The body of DownloadUri once the cache folder is known: delete the
   * folder when forced; when it is then missing, stage the archive and move
   * the staging folder into place; finally stamp the folder. The answer is
   * the exception raised, if any.
   */
  function InstallSpec(s: DiskState, folder: string, force: bool, download: Option<seq<string>>,
                       tempName: string, now: nat): (r: (DiskState, Option<Exception>))
    requires Consistent(s)
    ensures Consistent(r.0)
    ensures r.1.None? ==> folder in r.0.dirs
  {
    var s1 := if folder in s.dirs && force then DeleteDir(s, folder) else s;
    if folder !in s1.dirs then
      var (s2, staged) := Stage(s1, folder, download, tempName);
      if staged.Fail? then (s2, Some(staged.error))
      else
        assert staged.value == StagingFolder(folder);
        var s3 := MoveDir(s2, staged.value, folder);
        (WriteStamp(s3, folder, now).0, None)
    else (WriteStamp(s1, folder, now).0, None)
  }

  /**
   * DownloadUri: the lock file name, the parse of the URI (an
   * ArgumentException when it is no artifact URI), then the install into
   * the artifact's cache folder.
   */
  function DownloadUriSpec(s: DiskState, root: string, u: Uri, force: bool, remote: map<Uri, seq<string>>,
                           tempName: string, now: nat): (r: (DiskState, Outcome<Artifact>))
    requires Consistent(s)
    ensures Consistent(r.0)
    ensures r.1.Ok? ==> FromUri(u) == Ok(r.1.value)
    ensures LockPath(root, u).Fail? || FromUri(u).Fail? ==> r.0 == s
  {
    var lock := LockPath(root, u);
    if lock.Fail? then (s, Fail(lock.error))
    else
      var af := FromUri(u);
      if af.Fail? then (s, Fail(af.error))
      else
        var (r, err) := InstallSpec(s, LocalFolder(root, af.value), force, Fetch(remote, u), tempName, now);
        (r, if err.Some? then Fail(err.value) else Ok(af.value))
  }

  /** A cached artifact is not fetched again without force: only its stamp changes. */
  lemma CachedNoDownload(s: DiskState, folder: string, download: Option<seq<string>>, tempName: string, now: nat)
    requires Consistent(s) && folder in s.dirs
    ensures InstallSpec(s, folder, false, download, tempName, now)
      == (s.(stamps := s.stamps[folder := NatToString(now)]), None)
  {
  }

  /**
   * A fresh install: when the folder is missing (or forced away) and the
   * archive is available, the folder holds exactly the entries with an
   * extension, the staging folder is gone, the stamp is written, and no
   * other directory, stamp or content changes.
   */
  lemma InstallEffect(s: DiskState, folder: string, force: bool, entries: seq<string>, tempName: string, now: nat)
    requires Consistent(s) && tempName !in s.temps
    requires force || folder !in s.dirs
    ensures var (r, err) := InstallSpec(s, folder, force, Some(entries), tempName, now);
      err.None?
      && r.temps == s.temps
      && r.dirs == s.dirs - {StagingFolder(folder)} + {folder}
      && folder in r.contents && r.contents[folder] == Extracted(entries)
      && folder in r.stamps && r.stamps[folder] == NatToString(now)
      && (forall d :: d != folder && d != StagingFolder(folder) ==>
            (d in r.stamps <==> d in s.stamps) && (d in r.stamps ==> r.stamps[d] == s.stamps[d])
            && (d in r.contents <==> d in s.contents) && (d in r.contents ==> r.contents[d] == s.contents[d]))
  {
    var s1 := if folder in s.dirs && force then DeleteDir(s, folder) else s;
    assert folder !in s1.dirs;
    StageEffect(s1, folder, Some(entries), tempName);
  }

  /**
   * A failed download leaves the cache folder missing, keeps a staging
   * folder, deletes the temporary file and writes no stamp.
   */
  lemma FailedDownloadEffect(s: DiskState, folder: string, force: bool, tempName: string, now: nat)
    requires Consistent(s) && tempName !in s.temps
    requires force || folder !in s.dirs
    ensures var (r, err) := InstallSpec(s, folder, force, None, tempName, now);
      err == Some(IOException)
      && folder !in r.dirs && StagingFolder(folder) in r.dirs
      && folder !in r.stamps
      && r.temps == s.temps
  {
    var s1 := if folder in s.dirs && force then DeleteDir(s, folder) else s;
    StageEffect(s1, folder, None, tempName);
  }

  /**
   * After a successful install, installing again without force downloads
   * nothing: the folder and its contents stay, only the stamp moves on.
   */
  lemma InstallSettles(s: DiskState, folder: string, force: bool, download: Option<seq<string>>, tempName: string,
                       now: nat, download2: Option<seq<string>>, tempName2: string, later: nat)
    requires Consistent(s)
    requires InstallSpec(s, folder, force, download, tempName, now).1.None?
    ensures var r := InstallSpec(s, folder, force, download, tempName, now).0;
      InstallSpec(r, folder, false, download2, tempName2, later)
        == (r.(stamps := r.stamps[folder := NatToString(later)]), None)
  {
    var r := InstallSpec(s, folder, force, download, tempName, now).0;
    CachedNoDownload(r, folder, download2, tempName2, later);
  }

  /** DownloadUri installs into the cache folder of the artifact its URI names. */
  lemma DownloadUriInstalls(s: DiskState, root: string, u: Uri, force: bool, remote: map<Uri, seq<string>>, tempName: string, now: nat)
    requires Consistent(s) && LockPath(root, u).Ok? && FromUri(u).Ok?
    ensures var folder := LocalFolder(root, FromUri(u).value);
      var (r, err) := InstallSpec(s, folder, force, Fetch(remote, u), tempName, now);
      DownloadUriSpec(s, root, u, force, remote, tempName, now) == (r, if err.Some? then Fail(err.value) else Ok(FromUri(u).value))
  {
  }

  // ---------------------------------------------------------------------
  // Download: the artifact and its platform counterpart

  datatype DownloadResult = DownloadResult(artifact: Artifact, platform: Option<Artifact>)

  /** The second half of Download: the platform artifact, when it is asked for. */
  function PlatformSpec(s: DiskState, root: string, u: Uri, withPlatform: bool,
                        force: bool, remote: map<Uri, seq<string>>, tempB: string, now: nat)
    : (r: (DiskState, Outcome<Option<Artifact>>))
    requires Consistent(s)
    ensures Consistent(r.0)
    ensures !withPlatform ==> r == (s, Ok(None))
    ensures r.1.Ok? && withPlatform ==> r.1.value.Some?
  {
    if withPlatform then
      var (s2, p) := DownloadUriSpec(s, root, u, force, remote, tempB, now);
      (s2, if p.Ok? then Ok(Some(p.value)) else Fail(p.error))
    else (s, Ok(None))
  }

  /**
   * Download(account, type, version, country, includePlatform, force,
   * useCdn): the reader refuses bcinsider for anything but Sandbox; the
   * country artifact and, unless the country is "platform" ignoring case,
   * the platform artifact are installed (one after the other here); both
   * run even when the first fails, and the first failure is reported. The
   * platform result is the artifact itself when the country is exactly
   * "platform".
   */
  function DownloadSpec(s: DiskState, root: string, a: Account, t: ArtifactType, v: Version, country: string,
                        includePlatform: bool, force: bool, useCdn: bool, remote: map<Uri, seq<string>>,
                        tempA: string, tempB: string, now: nat): (r: (DiskState, Outcome<DownloadResult>))
    requires Consistent(s) && WellFormed(v)
    ensures Consistent(r.0)
  {
    if a == BcInsider && t != Sandbox then (s, Fail(NotSupportedException))
    else
      var withPlatform := includePlatform && !EqualsIgnoreCase(country, PlatformIdentifier);
      var (s1, main) := DownloadUriSpec(s, root, MakeArtifactUri(a, t, v, country, useCdn), force, remote, tempA, now);
      var (s2, platform) := PlatformSpec(s1, root, MakeArtifactUri(a, t, v, PlatformIdentifier, useCdn), withPlatform, force, remote, tempB, now);
      (s2, Assemble(main, platform, country))
  }

  /** The result of Download from its two installs: the first failure, or both artifacts. */
  function Assemble(main: Outcome<Artifact>, platform: Outcome<Option<Artifact>>, country: string): (r: Outcome<DownloadResult>)
    ensures r.Ok? <==> main.Ok? && platform.Ok?
    ensures r.Fail? ==> r.error == (if main.Fail? then main.error else platform.error)
    ensures r.Ok? ==> (r.value.artifact == main.value
      && r.value.platform == (if country == PlatformIdentifier then Some(main.value) else platform.value))
  {
    if main.Fail? then Fail(main.error)
    else if platform.Fail? then Fail(platform.error)
    else Ok(DownloadResult(main.value, if country == PlatformIdentifier then Some(main.value) else platform.value))
  }

  /** DownloadSpec taken apart into its two installs, as the method performs them. */
  lemma DownloadSpecOfParts(s: DiskState, root: string, a: Account, t: ArtifactType, v: Version, country: string,
                            includePlatform: bool, force: bool, useCdn: bool, remote: map<Uri, seq<string>>,
                            tempA: string, tempB: string, now: nat,
                            s1: DiskState, main: Outcome<Artifact>, s2: DiskState, platform: Outcome<Option<Artifact>>)
    requires Consistent(s) && WellFormed(v) && !(a == BcInsider && t != Sandbox)
    requires (s1, main) == DownloadUriSpec(s, root, MakeArtifactUri(a, t, v, country, useCdn), force, remote, tempA, now)
    requires (s2, platform) == PlatformSpec(s1, root, MakeArtifactUri(a, t, v, PlatformIdentifier, useCdn),
                                           includePlatform && !EqualsIgnoreCase(country, PlatformIdentifier), force, remote, tempB, now)
    ensures DownloadSpec(s, root, a, t, v, country, includePlatform, force, useCdn, remote, tempA, tempB, now)
      == (s2, Assemble(main, platform, country))
  {
  }

  /** The reader's check: bcinsider is refused for anything but Sandbox, and nothing is touched. */
  lemma DownloadInsiderOnPrem(s: DiskState, root: string, v: Version, country: string,
                              includePlatform: bool, force: bool, useCdn: bool, remote: map<Uri, seq<string>>,
                              tempA: string, tempB: string, now: nat)
    requires Consistent(s) && WellFormed(v)
    ensures DownloadSpec(s, root, BcInsider, OnPrem, v, country, includePlatform, force, useCdn, remote, tempA, tempB, now)
      == (s, Fail(NotSupportedException))
  {
  }

  /**
   * For a "platform" country (ignoring case) only the one artifact is
   * installed; its platform result is itself only when the country is
   * exactly "platform", and nothing otherwise.
   */
  lemma DownloadPlatformCountry(s: DiskState, root: string, a: Account, t: ArtifactType, v: Version, country: string,
                                includePlatform: bool, force: bool, useCdn: bool, remote: map<Uri, seq<string>>,
                                tempA: string, tempB: string, now: nat)
    requires Consistent(s) && WellFormed(v) && !(a == BcInsider && t != Sandbox)
    requires EqualsIgnoreCase(country, PlatformIdentifier)
    ensures var (r, out) := DownloadSpec(s, root, a, t, v, country, includePlatform, force, useCdn, remote, tempA, tempB, now);
      var (r1, main) := DownloadUriSpec(s, root, MakeArtifactUri(a, t, v, country, useCdn), force, remote, tempA, now);
      r == r1
      && (out.Ok? <==> main.Ok?)
      && (out.Ok? ==> out.value.artifact == main.value
                      && out.value.platform == (if country == PlatformIdentifier then Some(main.value) else None))
  {
  }

  /**
   * With the platform requested for a non-platform country, the second
   * install is the platform URI of the same account, type, CDN switch and
   * version, and on success it is the platform result.
   */
  lemma DownloadWithPlatform(s: DiskState, root: string, a: Account, t: ArtifactType, v: Version, country: string,
                             force: bool, useCdn: bool, remote: map<Uri, seq<string>>,
                             tempA: string, tempB: string, now: nat)
    requires Consistent(s) && WellFormed(v) && !(a == BcInsider && t != Sandbox)
    requires !EqualsIgnoreCase(country, PlatformIdentifier)
    ensures var (r, out) := DownloadSpec(s, root, a, t, v, country, true, force, useCdn, remote, tempA, tempB, now);
      var (r1, main) := DownloadUriSpec(s, root, MakeArtifactUri(a, t, v, country, useCdn), force, remote, tempA, now);
      var (r2, p) := DownloadUriSpec(r1, root, MakeArtifactUri(a, t, v, PlatformIdentifier, useCdn), force, remote, tempB, now);
      r == r2
      && (out.Ok? <==> main.Ok? && p.Ok?)
      && (out.Ok? ==> out.value == DownloadResult(main.value, Some(p.value)))
  {
  }

  /** Download(artifact): an artifact without an account is fetched from bcartifacts, over the CDN. */
  function DownloadArtifactSpec(s: DiskState, root: string, x: Artifact, includePlatform: bool, force: bool,
                                remote: map<Uri, seq<string>>, tempA: string, tempB: string, now: nat): (r: (DiskState, Outcome<DownloadResult>))
    requires Consistent(s) && ValidArtifact(x)
    ensures x.account.None? ==>
      r == DownloadSpec(s, root, BcArtifacts, x.kind, x.version, x.country, includePlatform, force, true, remote, tempA, tempB, now)
  {
    DownloadSpec(s, root, x.account.GetOr(DefaultStorageAccount), x.kind, x.version, x.country, includePlatform, force, true,
                 remote, tempA, tempB, now)
  }

  /** Download(uri): the URI is parsed first; a bad URI is an ArgumentException and nothing is touched. */
  function DownloadFromUriSpec(s: DiskState, root: string, u: Uri, includePlatform: bool, force: bool,
                               remote: map<Uri, seq<string>>, tempA: string, tempB: string, now: nat): (r: (DiskState, Outcome<DownloadResult>))
    requires Consistent(s)
    ensures FromUri(u).Fail? ==> r == (s, Fail(ArgumentException))
  {
    var x := FromUri(u);
    if x.Fail? then (s, Fail(x.error))
    else DownloadArtifactSpec(s, root, x.value, includePlatform, force, remote, tempA, tempB, now)
  }

  // ---------------------------------------------------------------------
  // The disk object

  /** The cache root and the part of the file system the downloader touches. */
  class Disk {
    const root: string
    var dirs: set<string>
    var stamps: map<string, string>
    var contents: map<string, set<string>>
    var temps: set<string>
    /** The lock files currently held by this process. */
    ghost var held: set<string>

    constructor (root: string, s: DiskState)
      requires Consistent(s)
      ensures this.root == root && State() == s && held == {}
    {
      this.root := root;
      dirs := s.dirs;
      stamps := s.stamps;
      contents := s.contents;
      temps := s.temps;
      held := {};
    }

    function State(): DiskState
      reads this
    {
      DiskState(dirs, stamps, contents, temps)
    }

    method SetState(s: DiskState)
      modifies this
      ensures State() == s && held == old(held)
    {
      dirs, stamps, contents, temps := s.dirs, s.stamps, s.contents, s.temps;
    }

    method DeleteDirectory(d: string)
      modifies this
      ensures State() == DeleteDir(old(State()), d) && held == old(held)
    {
      dirs := dirs - {d};
      stamps := stamps - {d};
      contents := contents - {d};
    }

    method CreateDirectory(d: string)
      modifies this
      ensures State() == CreateDir(old(State()), d) && held == old(held)
    {
      if d !in dirs {
        dirs := dirs + {d};
        contents := contents[d := {}];
      }
    }

    method MoveDirectory(from: string, to: string)
      requires from in dirs && to !in dirs && from != to
      modifies this
      ensures State() == MoveDir(old(State()), from, to) && held == old(held)
    {
      dirs := dirs - {from} + {to};
      stamps := MoveKey(stamps, from, to);
      contents := MoveKey(contents, from, to);
    }

    /** BcArtifact.SetLastUsedDate with the UTC tick count of the moment. */
    method SetLastUsedDate(x: Artifact, ticks: nat) returns (ok: bool)
      requires ValidArtifact(x) && ticks <= MaxTicks
      modifies this
      ensures (State(), ok) == WriteStamp(old(State()), LocalFolder(root, x), ticks) && held == old(held)
    {
      ok := WriteLastUsed(LocalFolder(root, x), ticks);
    }

    /** The write of the "lastused" file of a folder. */
    method WriteLastUsed(folder: string, ticks: nat) returns (ok: bool)
      requires ticks <= MaxTicks
      modifies this
      ensures (State(), ok) == WriteStamp(old(State()), folder, ticks) && held == old(held)
    {
      if folder !in dirs {
        return false;
      }
      stamps := stamps[folder := NatToString(ticks)];
      return true;
    }

    /** BcArtifact.GetLastUsedDate. */
    function GetLastUsedDate(x: Artifact): (r: Outcome<Option<nat>>)
      reads this
      requires ValidArtifact(x)
      ensures r == StampOf(State(), LocalFolder(root, x))
    {
      StampOf(State(), LocalFolder(root, x))
    }

    /** DownloadUriToTempFolder: the extraction loop writes the entries with an extension. */
    method DownloadUriToTempFolder(target: string, download: Option<seq<string>>, tempName: string) returns (r: Outcome<string>)
      modifies this
      ensures (State(), r) == Stage(old(State()), target, download, tempName) && held == old(held)
    {
      var staging := StagingFolder(target);
      temps := temps + {tempName};
      if staging in dirs {
        DeleteDirectory(staging);
      }
      CreateDirectory(staging);
      if download.None? {
        temps := temps - {tempName};
        return Fail(IOException);
      }
      ExtractEntries(staging, download.value);
      temps := temps - {tempName};
      return Ok(staging);
    }

    /** The extraction loop: the staging folder receives, one by one, the entries with an extension. */
    method ExtractEntries(staging: string, entries: seq<string>)
      modifies this
      ensures contents == old(contents)[staging := Extracted(entries)]
      ensures dirs == old(dirs) && stamps == old(stamps) && temps == old(temps) && held == old(held)
    {
      contents := contents[staging := {}];
      assert Extracted(entries[..0]) == {};
      var i := 0;
      while i < |entries|
        invariant 0 <= i <= |entries|
        invariant contents == old(contents)[staging := Extracted(entries[..i])]
        invariant dirs == old(dirs) && stamps == old(stamps) && temps == old(temps) && held == old(held)
      {
        ExtractedSnoc(entries, i);
        ghost var before := old(contents);
        assert contents[staging] == Extracted(entries[..i]);
        if HasExtension(entries[i]) {
          contents := contents[staging := contents[staging] + {entries[i]}];
          UpdateTwice(before, staging, Extracted(entries[..i]), Extracted(entries[..i + 1]));
        } else {
          assert Extracted(entries[..i + 1]) == Extracted(entries[..i]);
        }
        i := i + 1;
      }
      assert entries[..i] == entries;
    }

    /** The install into a known cache folder (the body of DownloadUri under its lock). */
    method InstallFolder(folder: string, force: bool, download: Option<seq<string>>, tempName: string, now: nat) returns (err: Option<Exception>)
      requires Consistent(State()) && now <= MaxTicks
      modifies this
      ensures (State(), err) == InstallSpec(old(State()), folder, force, download, tempName, now) && held == old(held)
    {
      if folder in dirs && force {
        DeleteDirectory(folder);
      }
      if folder !in dirs {
        var staged := DownloadUriToTempFolder(folder, download, tempName);
        if staged.Fail? {
          return Some(staged.error);
        }
        MoveDirectory(staged.value, folder);
      }
      var _ := WriteLastUsed(folder, now);
      return None;
    }

    /** DownloadUri: the lock is taken, the install runs, and the lock is released on every path. */
    method DownloadUri(u: Uri, force: bool, remote: map<Uri, seq<string>>, tempName: string, now: nat) returns (r: Outcome<Artifact>)
      requires Consistent(State()) && now <= MaxTicks
      requires held == {}
      modifies this
      ensures (State(), r) == DownloadUriSpec(old(State()), root, u, force, remote, tempName, now)
      ensures held == {}
    {
      var lock := LockPath(root, u);
      if lock.Fail? {
        return Fail(lock.error);
      }
      held := held + {lock.value};
      var af := FromUri(u);
      if af.Fail? {
        held := held - {lock.value};
        return Fail(af.error);
      }
      var err := InstallFolder(LocalFolder(root, af.value), force, Fetch(remote, u), tempName, now);
      held := held - {lock.value};
      if err.Some? {
        return Fail(err.value);
      }
      return Ok(af.value);
    }

    /** Installs the platform artifact at u, when withPlatform holds. */
    method DownloadPlatform(u: Uri, withPlatform: bool, force: bool,
                            remote: map<Uri, seq<string>>, tempB: string, now: nat) returns (platform: Outcome<Option<Artifact>>)
      requires Consistent(State()) && now <= MaxTicks
      requires held == {}
      modifies this
      ensures (State(), platform) == PlatformSpec(old(State()), root, u, withPlatform, force, remote, tempB, now)
      ensures held == {}
    {
      platform := Ok(None);
      if withPlatform {
        var p := DownloadUri(u, force, remote, tempB, now);
        platform := if p.Ok? then Ok(Some(p.value)) else Fail(p.error);
      }
    }

    /** ArtifactDownloader.Download(account, type, version, country, includePlatform, force, useCdn). */
    method Download(a: Account, t: ArtifactType, v: Version, country: string, includePlatform: bool, force: bool, useCdn: bool,
                    remote: map<Uri, seq<string>>, tempA: string, tempB: string, now: nat) returns (r: Outcome<DownloadResult>)
      requires Consistent(State()) && WellFormed(v) && now <= MaxTicks
      requires held == {}
      modifies this
      ensures (State(), r) == DownloadSpec(old(State()), root, a, t, v, country, includePlatform, force, useCdn, remote, tempA, tempB, now)
      ensures held == {}
    {
      var withPlatform := includePlatform;
      if withPlatform && EqualsIgnoreCase(country, PlatformIdentifier) {
        withPlatform := false;
      }
      var created := Catalog.Reader.Create(t, a);
      if created.Fail? {
        return Fail(created.error);
      }
      var reader := created.value;
      reader.SetUseCdn(useCdn);
      var mainUri := reader.ArtifactUri(v, country);
      var platformUri := reader.ArtifactUri(v, PlatformIdentifier);
      ghost var s0 := State();
      var main := DownloadUri(mainUri, force, remote, tempA, now);
      ghost var s1 := State();
      var platform := DownloadPlatform(platformUri, withPlatform, force, remote, tempB, now);
      DownloadSpecOfParts(s0, root, a, t, v, country, includePlatform, force, useCdn, remote, tempA, tempB, now,
                          s1, main, State(), platform);
      if main.Fail? {
        return Fail(main.error);
      }
      if platform.Fail? {
        return Fail(platform.error);
      }
      var result := DownloadResult(main.value, platform.value);
      if country == PlatformIdentifier {
        result := result.(platform := Some(result.artifact));
      }
      return Ok(result);
    }

    /** ArtifactDownloader.Download(artifact): its account, or bcartifacts when it has none, over the CDN. */
    method DownloadArtifact(x: Artifact, includePlatform: bool, force: bool,
                            remote: map<Uri, seq<string>>, tempA: string, tempB: string, now: nat) returns (r: Outcome<DownloadResult>)
      requires Consistent(State()) && ValidArtifact(x) && now <= MaxTicks
      requires held == {}
      modifies this
      ensures (State(), r) == DownloadArtifactSpec(old(State()), root, x, includePlatform, force, remote, tempA, tempB, now)
      ensures held == {}
    {
      r := Download(x.account.GetOr(DefaultStorageAccount), x.kind, x.version, x.country, includePlatform, force, true,
                    remote, tempA, tempB, now);
    }

    /** ArtifactDownloader.Download(uri): the URI is read as an artifact first. */
    method DownloadFromUri(u: Uri, includePlatform: bool, force: bool,
                           remote: map<Uri, seq<string>>, tempA: string, tempB: string, now: nat) returns (r: Outcome<DownloadResult>)
      requires Consistent(State()) && now <= MaxTicks
      requires held == {}
      modifies this
      ensures (State(), r) == DownloadFromUriSpec(old(State()), root, u, includePlatform, force, remote, tempA, tempB, now)
      ensures held == {}
    {
      var x := FromUri(u);
      if x.Fail? {
        return Fail(x.error);
      }
      r := DownloadArtifact(x.value, includePlatform, force, remote, tempA, tempB, now);
    }
  }
}
