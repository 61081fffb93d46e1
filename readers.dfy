/**
 * CredentialReader and CachedCredentialReader: reading the encrypted
 * credential files the AL Language extension keeps. A file, once
 * decrypted and deserialised, is a dictionary from key text to credential,
 * or null; the decryption and the JSON reading are not part of this model.
 */
module CredentialStores {
  import opened Wrappers
  import opened Strings
  import opened Uris
  import opened Versions
  import opened Credentials
  import AlLanguage

  /** A decrypted credential file: the dictionary it holds, or None for a null one. */
  type Store = Option<map<string, Credential>>

  /** The credential files that exist, by full path, with what reading each one yields. */
  type Files = map<string, Store>

  const UserPasswordCacheName: string := "UserPasswordCache.dat"
  const ServerInfoCacheName: string := "ServerInfoCache.dat"
  const TokenKeyCacheName: string := "TokenKeyCache.dat"

  /** UserProtectedFileStorage.Read: null when the file does not exist. */
  function Read(files: Files, path: string): (r: Store)
    ensures path !in files ==> r.None?
    ensures path in files ==> r == files[path]
  {
    if path in files then files[path] else None
  }

  /** TryGetValue on a dictionary that may be null: nothing without a dictionary or an entry. */
  function Lookup(store: Store, key: string): (r: Option<Credential>)
    ensures r.Some? <==> store.Some? && key in store.value
    ensures r.Some? ==> r.value == store.value[key]
  {
    if store.Some? && key in store.value then Some(store.value[key]) else None
  }

  /** Dictionary.Keys on a dictionary that may be null: there is no null check, so a null one raises. */
  function Keys(store: Store): (r: Outcome<set<string>>)
    ensures r.Fail? <==> store.None?
    ensures r.Fail? ==> r.error == NullReferenceException
    ensures r.Ok? ==> forall k :: k in r.value <==> Lookup(store, k).Some?
  {
    if store.None? then Fail(NullReferenceException) else Ok(store.value.Keys)
  }

  // ---------------------------------------------------------------------
  // CredentialReader

  /** The file a CredentialReader factory reads: the name inside the folder, or the bare name without a folder. */
  function ReaderFile(folder: string, name: string): (r: string)
    ensures folder == "" ==> r == name
  {
    if folder != "" then Combine(folder, name) else name
  }

  /** The three factories read their own fixed file name, inside the folder when one is given. */
  lemma FactoriesKeepFileName(folder: string)
    ensures LastComponent(ReaderFile(folder, UserPasswordCacheName)) == UserPasswordCacheName
    ensures LastComponent(ReaderFile(folder, ServerInfoCacheName)) == ServerInfoCacheName
    ensures LastComponent(ReaderFile(folder, TokenKeyCacheName)) == TokenKeyCacheName
    ensures folder != "" ==> StartsWith(ReaderFile(folder, UserPasswordCacheName), folder)
  {
    var names := [UserPasswordCacheName, ServerInfoCacheName, TokenKeyCacheName];
    forall k | 0 <= k < 3
      ensures LastComponent(ReaderFile(folder, names[k])) == names[k]
    {
      assert NoneOf(names[k], PathSeparators + {':'});
      CombineLastComponent(folder, names[k]);
      CombineLastComponent("", names[k]);
    }
    assert names[0] == UserPasswordCacheName && names[1] == ServerInfoCacheName && names[2] == TokenKeyCacheName;
    if folder != "" {
      var n := UserPasswordCacheName;
      assert !IsRooted(n);
      if !IsSeparator(folder[|folder| - 1]) {
        StartsWithConcat(folder, "\\" + n);
        assert folder + "\\" + n == folder + ("\\" + n);
      } else {
        StartsWithConcat(folder, n);
      }
    }
  }

  /** CredentialReader.CreateCredentialsKey: both parts lower-cased, joined by '_'. */
  function CreateCredentialsKey(server: string, serverInstance: string): (r: string)
    ensures Lower(r) == r
    ensures |r| == |server| + 1 + |serverInstance| && r[|server|] == '_'
  {
    LowerIdempotent(server);
    LowerIdempotent(serverInstance);
    LowerConcat(Lower(server), "_");
    LowerConcat(Lower(server) + "_", Lower(serverInstance));
    Lower(server) + "_" + Lower(serverInstance)
  }

  /**
   * CredentialReader.TryGetSavedCredentials(server, serverInstance):
   * trailing slashes are trimmed from the server, an empty server or
   * instance finds nothing, and otherwise the entry of the key is read.
   */
  function TryGetSavedCredentials(files: Files, filename: string, server: string, serverInstance: string): (r: Option<Credential>)
    ensures TrimEnd(server, '/') == [] || serverInstance == [] ==> r.None?
    ensures Read(files, filename).None? ==> r.None?
    ensures r.Some? ==> r.value in Read(files, filename).value.Values
  {
    var trimmed := TrimEnd(server, '/');
    if trimmed == [] || serverInstance == [] then None
    else TryGetSavedCredentialsByKey(files, filename, CreateCredentialsKey(trimmed, serverInstance))
  }

  /** CredentialReader.TryGetSavedCredentials(credentialsKey): the entry of the key, null without a dictionary. */
  function TryGetSavedCredentialsByKey(files: Files, filename: string, key: string): (r: Option<Credential>)
    ensures r.Some? <==> filename in files && files[filename].Some? && key in files[filename].value
    ensures r.Some? ==> r.value == files[filename].value[key]
  {
    Lookup(Read(files, filename), key)
  }

  /** CredentialReader.ListStoredCredentials: the keys of the file, failing when the file is missing or null. */
  function ListStoredCredentials(files: Files, filename: string): (r: Outcome<set<string>>)
    ensures r.Fail? <==> filename !in files || files[filename].None?
    ensures r.Ok? ==> forall k :: k in r.value ==> TryGetSavedCredentialsByKey(files, filename, k).Some?
  {
    Keys(Read(files, filename))
  }

  /** Any number of trailing slashes on the server makes no difference. */
  lemma TrailingSlashIgnored(files: Files, filename: string, server: string, serverInstance: string)
    ensures TryGetSavedCredentials(files, filename, server + "/", serverInstance)
      == TryGetSavedCredentials(files, filename, server, serverInstance)
  {
    assert (server + "/")[..|server|] == server;
  }

  /** The case of the server and the instance makes no difference. */
  lemma SavedCredentialsIgnoreCase(files: Files, filename: string, server: string, serverInstance: string)
    ensures TryGetSavedCredentials(files, filename, Lower(server), Lower(serverInstance))
      == TryGetSavedCredentials(files, filename, server, serverInstance)
  {
    LowerTrimEndSlash(server);
    LowerIdempotent(TrimEnd(server, '/'));
    LowerIdempotent(serverInstance);
  }

  /**
   * The reader finds the entry that AlUserPasswordCacheKey names: given the
   * normalised URI's text, it builds that key.
   */
  lemma ReaderFindsCacheKey(files: Files, filename: string, u: Uri, serverInstance: string)
    requires u.host != [] && NoneOf(u.host, HostEnd) && serverInstance != []
    ensures TryGetSavedCredentials(files, filename, UriText(NormalizeBcServerUri(u)), serverInstance)
      == TryGetSavedCredentialsByKey(files, filename, KeyOf(u, serverInstance).key)
  {
    var text := UriText(NormalizeBcServerUri(u));
    LowerTrimEndSlash(text);
    ServerPartShape(u);
    assert ServerPart(u) != [];
  }

  // ---------------------------------------------------------------------
  // CachedCredentialReader

  /** The factories of CachedCredentialReader: the file inside the folder, null when it does not exist. */
  function CacheIn(files: Files, folder: string, name: string): (r: Option<string>)
    ensures r.Some? <==> Combine(folder, name) in files
    ensures r.Some? ==> r.value == Combine(folder, name)
  {
    if Combine(folder, name) in files then Some(Combine(folder, name)) else None
  }

  /**
   * CachedCredentialReader.GetUserPasswordCredentialKey: the normalised URI
   * text, lower-cased, '_' and the lower-cased instance.
   */
  function CachedKey(u: Uri, serverInstance: string): string
  {
    Lower(UriText(NormalizeBcServerUri(u))) + "_" + Lower(serverInstance)
  }

  /**
   * The key keeps the slash after the host that AlUserPasswordCacheKey
   * trims, so the two classes never build the same key for a server.
   */
  lemma CachedKeyKeepsSlash(u: Uri, serverInstance: string)
    requires u.host != [] && NoneOf(u.host, HostEnd)
    ensures CachedKey(u, serverInstance) == ServerPart(u) + "/_" + Lower(serverInstance)
    ensures CachedKey(u, serverInstance) != KeyOf(u, serverInstance).key
  {
    LowerNormalizedText(u);
    ServerPartShape(u);
    var k := CachedKey(u, serverInstance);
    var server := ServerPart(u);
    assert k == server + "/_" + Lower(serverInstance);
    assert |k| == |KeyOf(u, serverInstance).key| + 1;
  }

  /** CachedCredentialReader.TryGetCredential: the entry of the key, null without a dictionary. */
  function TryGetCredential(files: Files, filename: string, key: string): (r: Option<Credential>)
    ensures r.Some? <==> filename in files && files[filename].Some? && key in files[filename].value
    ensures r.Some? ==> r.value == files[filename].value[key]
  {
    Lookup(Read(files, filename), key)
  }

  /** CachedCredentialReader.ListKeys: like ListStoredCredentials, no null check. */
  function ListKeys(files: Files, filename: string): (r: Outcome<set<string>>)
    ensures r.Fail? <==> filename !in files || files[filename].None?
    ensures r.Ok? ==> forall k :: k in r.value <==> TryGetCredential(files, filename, k).Some?
  {
    Keys(Read(files, filename))
  }

  /**
   * GetUserPasswordCredential(serverUri, serverInstance, folder): the entry
   * under the cached key in the folder's UserPasswordCache.dat, nothing
   * when that file is missing.
   */
  function CredentialInFolder(files: Files, u: Uri, serverInstance: string, folder: string): (r: Option<Credential>)
    ensures r.Some? ==> (Combine(folder, UserPasswordCacheName) in files
      && TryGetCredential(files, Combine(folder, UserPasswordCacheName), CachedKey(u, serverInstance)) == r)
    ensures Combine(folder, UserPasswordCacheName) !in files ==> r.None?
  {
    match CacheIn(files, folder, UserPasswordCacheName)
    case None => None
    case Some(path) => TryGetCredential(files, path, CachedKey(u, serverInstance))
  }

  /** Whether each extension's folder holds the credential. */
  function Hits(files: Files, u: Uri, serverInstance: string, exts: seq<AlLanguage.LanguageExtension>): (r: seq<bool>)
    ensures |r| == |exts|
    ensures forall j :: 0 <= j < |exts| ==> r[j] == CredentialInFolder(files, u, serverInstance, exts[j].folder).Some?
  {
    if exts == [] then []
    else [CredentialInFolder(files, u, serverInstance, exts[0].folder).Some?] + Hits(files, u, serverInstance, exts[1..])
  }

  function FileVersions(exts: seq<AlLanguage.LanguageExtension>): (r: seq<Version>)
    ensures |r| == |exts|
    ensures forall j :: 0 <= j < |exts| ==> r[j] == exts[j].fileVersion
  {
    if exts == [] then [] else [exts[0].fileVersion] + FileVersions(exts[1..])
  }

  /**
   * The first hit when visiting in descending version order with a stable
   * sort: a hit of greatest version, and the earliest such hit among equal
   * versions.
   */
  function FirstHitByVersion(vs: seq<Version>, hit: seq<bool>): (r: Option<nat>)
    requires |vs| == |hit|
    ensures r.None? <==> forall j :: 0 <= j < |hit| ==> !hit[j]
    ensures r.Some? ==> (r.value < |hit| && hit[r.value]
      && forall j :: 0 <= j < |hit| && hit[j] ==> AtLeast(vs[r.value], vs[j]) && (j < r.value ==> Less(vs[j], vs[r.value])))
  {
    if vs == [] then None
    else
      var rest := FirstHitByVersion(vs[1..], hit[1..]);
      assert forall j :: 1 <= j < |hit| ==> hit[1..][j - 1] == hit[j] && vs[1..][j - 1] == vs[j];
      if rest.None? then (if hit[0] then Some(0) else None)
      else
        var k := rest.value + 1;
        if !hit[0] then Some(k)
        else if Less(vs[0], vs[k]) then Some(k)
        else
          forall j | 0 <= j < |hit| && hit[j]
            ensures AtLeast(vs[0], vs[j])
          {
            LessTotal(vs[0], vs[k]);
            if j > 0 && Less(vs[0], vs[j]) {
              LessTransitive(vs[k], vs[0], vs[j]);
            }
          }
          Some(0)
  }

  /**
   * GetUserPasswordCredential(serverUri, serverInstance) over the installed
   * extensions: the extensions visited from the highest file version down,
   * the first credential found wins.
   */
  function CredentialFromExtensions(files: Files, u: Uri, serverInstance: string, exts: seq<AlLanguage.LanguageExtension>): (r: Option<Credential>)
    ensures r.None? <==> forall j :: 0 <= j < |exts| ==> CredentialInFolder(files, u, serverInstance, exts[j].folder).None?
    ensures r.Some? ==> exists i :: (0 <= i < |exts| && r == CredentialInFolder(files, u, serverInstance, exts[i].folder)
      && forall j :: 0 <= j < |exts| && CredentialInFolder(files, u, serverInstance, exts[j].folder).Some? ==>
        AtLeast(exts[i].fileVersion, exts[j].fileVersion) && (j < i ==> Less(exts[j].fileVersion, exts[i].fileVersion)))
  {
    var hits := Hits(files, u, serverInstance, exts);
    var vs := FileVersions(exts);
    match FirstHitByVersion(vs, hits)
    case None => None
    case Some(i) => CredentialInFolder(files, u, serverInstance, exts[i].folder)
  }

  /** CachedCredentialReader.GetUserPasswordCredential(serverUri, serverInstance) over every installed extension. */
  function GetUserPasswordCredential(files: Files, u: Uri, serverInstance: string, defaultRoot: string, disk: AlLanguage.Disk): Option<Credential>
  {
    CredentialFromExtensions(files, u, serverInstance, AlLanguage.Enumerate(None, "", defaultRoot, disk))
  }

  /** A newer extension's credential shadows an older one's for the same key. */
  lemma NewerExtensionWins(files: Files, u: Uri, serverInstance: string, older: AlLanguage.LanguageExtension, newer: AlLanguage.LanguageExtension)
    requires Less(older.fileVersion, newer.fileVersion)
    requires CredentialInFolder(files, u, serverInstance, newer.folder).Some?
    ensures CredentialFromExtensions(files, u, serverInstance, [older, newer])
      == CredentialInFolder(files, u, serverInstance, newer.folder)
  {
    var exts := [older, newer];
    var r := CredentialFromExtensions(files, u, serverInstance, exts);
    var i :| 0 <= i < |exts| && r == CredentialInFolder(files, u, serverInstance, exts[i].folder)
      && forall j :: 0 <= j < |exts| && CredentialInFolder(files, u, serverInstance, exts[j].folder).Some? ==>
        AtLeast(exts[i].fileVersion, exts[j].fileVersion) && (j < i ==> Less(exts[j].fileVersion, exts[i].fileVersion));
    assert exts[1] == newer && CredentialInFolder(files, u, serverInstance, exts[1].folder).Some?;
    assert AtLeast(exts[i].fileVersion, exts[1].fileVersion);
    assert i == 1;
  }
}
