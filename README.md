# Bc.Development, modelled in Dafny

Bc.Development is a .NET toolkit for Business Central development. This
project models its core logic and proves properties about it:

- **Artifacts.** An artifact is a (storage account, type, version,
  country) tuple. The model covers reading it from a blob or CDN URI
  (`BcArtifact.FromUri`) and building those URIs (`ArtifactReader`,
  `CdnHelper`). It also covers the local cache folder
  `root\type\version\country` and the "lastused" stamp kept in it.
- **Catalog.** The `GetAll` filter and `GetLatest` over artifact
  listings, the local-first lookup, and the next-major / next-minor
  choice between the public-preview and insider accounts.
- **Installing and evicting.** `ArtifactDownloader` locks, stages,
  extracts, moves into place and stamps; it pairs each artifact with
  its platform artifact. `LocalArtifactCache` enumerates the cache and
  evicts entries by age.
- **Utilities:**
  - the container command-line tokenizer (`BcContainer.ParseCommand`);
  - folder mapping between a container and its host
    (`FolderExtensions`);
  - server URI normalisation and credential cache keys;
  - the credential file readers;
  - the user/password cache and the session token cache;
  - NuGet feed endpoint lookup;
  - selection of installed AL Language extensions;
  - the test runner's result merge, and the console and xUnit result
    writers.

**Modules.** Each source area is one module:

- `Artifacts` (artifacts.dfy): artifact identity;
- `Cdn` (cdn.dfy): CDN host mapping;
- `Catalog` (catalog.dfy): listings and next-version choice;
- `Install` (install.dfy): download and install;
- `LocalCache` (cache.dfy): cache enumeration and cleanup;
- `Command` (command.dfy): command-line tokenizer;
- `Folders` (folders.dfy): container/host folder mapping;
- `Credentials` (credentials.dfy): URI normalisation, cache keys;
- `CredentialStores` (readers.dfy): credential file readers;
- `PasswordCaches` (passwords.dfy): user/password cache;
- `SessionTokens` (tokens.dfy): session token cache;
- `NugetFeeds` (nuget.dfy): NuGet feed endpoints;
- `AlLanguage` (language.dfy): AL Language extensions;
- `TestRuns` (testrunner.dfy): test result merge;
- `ResultWriters` (writers.dfy): console and xUnit writers.

Three modules give the .NET semantics the code relies on:

- `Strings`: ordinal case folding, `Split`/`Join`, trimming, decimal
  numbers and `Path.Combine`.
- `Versions`: `System.Version`.
- `Uris`: the parts of `System.Uri` that are read.

**Imperative vs. functional parts.** Parts of the source that change
state in place are Dafny classes whose methods are proved against
specification functions:

- `Install.Disk` (the downloader's file system);
- `Catalog.Reader`;
- `PasswordCaches.PasswordCache`;
- `SessionTokens.TokenCache`;
- `TestRuns.ResultList`;
- the two writers.

The character loop of `ParseCommand`, the extraction loop, the cleanup
loop and the writers' loops are loops with invariants. Pure parsing, rendering and filtering are functions with lemmas.

**What is a parameter here.** Time is a tick count supplied by the
caller, and the file system is an abstract value. The network
download, together with the unzip, is a map from URI to archive entry
names. A URI missing from it fails, and the model reports every
exception of the HTTP client or the zip reader as one IOException. The
following are all parameters:

- the JSON text, after parsing;
- encrypted files, as their decrypted contents;
- the configuration's cache root and host helper folder;
- the test page's replies.

## Model

| member | source | states |
|---|---|---|
| Artifacts.ParseAccountExact | Bc.Development.Artifacts/BcArtifact.cs:59 | The account parse succeeds with account a exactly when the text equals a's member name ignoring case. |
| Artifacts.ParseTypeExact | Bc.Development.Artifacts/BcArtifact.cs:60 | The type parse succeeds with type t exactly when the text equals t's member name ignoring case. |
| Artifacts.AccountNameLower | Bc.Development.Artifacts/ArtifactReader.cs:226 | The lower-cased account names that appear in hosts are bcartifacts, bcinsider and bcpublicpreview. |
| Artifacts.CdnHostShape | Bc.Development.Artifacts/ArtifactReader.cs:14-19 | Every account's CDN host is a lower-case alphanumeric label followed by ".b02.azurefd.net". |
| Artifacts.BlobHostLower | Bc.Development.Artifacts/ArtifactReader.cs:210-215 | Without the CDN, the lower-cased host is the lower-case account name followed by ".blob.core.windows.net". |
| Artifacts.CdnHostLower | Bc.Development.Artifacts/ArtifactReader.cs:210-215 | With the CDN, the lower-cased host is the lower-case account name, '-', and the account's CDN host. |
| Artifacts.GetAccountUri | Bc.Development.Artifacts/ArtifactReader.cs:224-227 | The base URI is https with no port and no query. Its host is the lower-cased host name and its path is "/" followed by the lower-case type. |
| Artifacts.MakeArtifactUri | Bc.Development.Artifacts/ArtifactReader.cs:62-67 | The artifact URI keeps the base URI's host. Its path is the base path followed by "/{version}/{country}", with the country's case kept. |
| Artifacts.FromUri | Bc.Development.Artifacts/BcArtifact.cs:47-70 | On success: the artifact keeps the URI, its account is the one the host names, and after the leading empty fields the path has at least three fields, the first of them non-empty. Only leading empty fields are skipped, so the country may be empty. Every failure is an ArgumentException. |
| Artifacts.SkipEmpty | Bc.Development.Artifacts/BcArtifact.cs:55 | The kept fields are a suffix of the input that is empty or starts with a non-empty field. |
| Artifacts.FromUriIgnoresExtraFields | Bc.Development.Artifacts/BcArtifact.cs:55-62 | Path fields after the country do not change the artifact read. |
| Artifacts.PlainHostLabel | Bc.Development.Artifacts/BcArtifact.cs:51-52 | Outside the front door, the account label is the host's first dot label. |
| Artifacts.FrontDoorHostLabel | Bc.Development.Artifacts/BcArtifact.cs:53-54 | On an ".azurefd.net" host, the account label is the first dot label up to its first '-'. |
| Artifacts.IsFrontDoorHostIgnoresCase | Bc.Development.Artifacts/BcArtifact.cs:53 | The front-door test is a case-insensitive suffix test. |
| Artifacts.HostAccountOfAccountUri | Bc.Development.Artifacts/ArtifactReader.cs:210-227 | The host of every reader URI, blob or CDN, is read back as the reader's own account. |
| Artifacts.ArtifactUriFields | Bc.Development.Artifacts/ArtifactReader.cs:65 | An artifact URI's path splits into exactly the lower-case type, the version text and the country. |
| Artifacts.FromMakeArtifactUri | Bc.Development.Artifacts/ArtifactReader.cs:62-67 | Round trip: parsing an artifact URI gives back the account, type, version and country it was built from. |
| Artifacts.CreatePlatformArtifact | Bc.Development.Artifacts/BcArtifact.cs:149-158 | A platform artifact is returned as it is. Any other gives an artifact with the same type and version, country "platform", and its account (bcartifacts when it has none). The result is always a platform artifact. |
| Artifacts.CreatePlatformIdempotent | Bc.Development.Artifacts/BcArtifact.cs:151 | Building the platform counterpart twice gives the same artifact as building it once. |
| Artifacts.LocalFolderShape | Bc.Development.Artifacts/BcArtifact.cs:164-173 | The cache folder is root\type\version\country. The type is lower-cased; the country keeps its case. |
| Artifacts.FromLocalFolder | Bc.Development.Artifacts/BcArtifact.cs:20-40 | It throws ArgumentOutOfRangeException exactly when the folder is shorter than the root plus one character. A parsed artifact has no URI and has the account passed in. |
| Artifacts.LocalFolderFields | Bc.Development.Artifacts/BcArtifact.cs:23-24 | After the root and one separator, a cache folder splits into exactly the type, version and country fields. |
| Artifacts.FromLocalFolderRoundTrip | Bc.Development.Artifacts/BcArtifact.cs:20-40 | Round trip: reading back the cache folder of an artifact gives that artifact, with the account given and no URI. |
| Versions.ParseVersion | Bc.Development.Artifacts/BcArtifact.cs:31 | A parsed version is well formed: two to four Int32 components. |
| Versions.ParseVersionText | Bc.Development.Artifacts/BcArtifact.cs:170 | Round trip: parsing a version's text gives the version back. |
| Versions.VersionTextInjective | Bc.Development.Artifacts/BcArtifact.cs:170 | Different versions have different texts. |
| Versions.LessTotal | Bc.Development.Artifacts/ArtifactReader.cs:148 | The version order is total. Versions.LessIrreflexive and Versions.LessTransitive show it is strict. |
| Cdn.Resolve | Bc.Development.Artifacts/CdnHelper.cs:16-19 | The lookup is total: every account has a front-door host. |
| Cdn.ResolveUri | Bc.Development.Artifacts/CdnHelper.cs:21-29 | The URI is unchanged unless its first host label names an account ignoring case. Otherwise only the host changes, to "{account in lower case}-{cdn host}". |
| Cdn.DashNamesNoAccount | Bc.Development.Artifacts/CdnHelper.cs:25 | A label containing '-' names no account. |
| Cdn.ResolveUriIdempotent | Bc.Development.Artifacts/CdnHelper.cs:25-27 | Resolving twice gives the same URI as resolving once. |
| Cdn.ResolveUriKeepsAccount | Bc.Development.Artifacts/CdnHelper.cs:27 | FromUri still reads the original account from a rewritten host, through its front-door rule. |
| Cdn.ResolveAccountUri | Bc.Development.Artifacts/CdnHelper.cs:21-29 | Resolving a blob base URI gives the CDN base URI of the same account and type. |
| Catalog.Matching | Bc.Development.Artifacts/ArtifactReader.cs:119-121 | Over a listing without nulls, the filter keeps exactly the artifacts that match the country and version prefix. |
| Catalog.MatchingAppend | Bc.Development.Artifacts/ArtifactReader.cs:119-122 | The filter distributes over concatenation, so listing order is kept. |
| Catalog.MatchingNoFilter | Bc.Development.Artifacts/ArtifactReader.cs:120-121 | Empty filters keep the whole listing. |
| Catalog.Keep | Bc.Development.Artifacts/ArtifactReader.cs:120-121 | One entry: a null entry raises NullReferenceException exactly when a filter is non-empty. Otherwise the entry is kept exactly when it matches. |
| Catalog.GetAll | Bc.Development.Artifacts/ArtifactReader.cs:116-123 | It fails with NullReferenceException exactly when the listing holds a null and a filter is set. Otherwise it keeps entries of the listing. |
| Catalog.GetAllLift | Bc.Development.Artifacts/ArtifactReader.cs:116-123 | On a listing without nulls, GetAll never fails and equals the plain filter. |
| Catalog.GetAllNoFilter | Bc.Development.Artifacts/ArtifactReader.cs:116-123 | With no filter, GetAll returns the listing as it is, nulls included. |
| Catalog.PrefixIsTextual | Bc.Development.Artifacts/ArtifactReader.cs:121 | The prefix "24.1" matches version 24.10. |
| Catalog.LatestIndex | Bc.Development.Artifacts/ArtifactReader.cs:148 | The chosen index has a version at least every other, and every earlier entry is strictly lower: the first maximum of a stable descending sort. |
| Catalog.LatestIndexUnique | Bc.Development.Artifacts/ArtifactReader.cs:148 | These two properties identify exactly one index. |
| Catalog.Latest | Bc.Development.Artifacts/ArtifactReader.cs:148 | Sorting dereferences every entry, so the result fails exactly when the listing holds a null. |
| Catalog.GetLatestRemote | Bc.Development.Artifacts/ArtifactReader.cs:145-149 | On a listing without nulls, GetLatest gives a matching artifact of maximal version among the matches. It gives none exactly when nothing matches. |
| Catalog.LocalHitIgnoresRemote | Bc.Development.Artifacts/ArtifactReader.cs:131-136 | A local hit is the answer, whatever the remote containers hold. |
| Catalog.LocalMissUsesRemote | Bc.Development.Artifacts/ArtifactReader.cs:131-136 | When the cache is listed and holds no match, the answer is the latest match in the reader's remote container. |
| Catalog.MissingCacheThrows | Bc.Development.Artifacts/ArtifactReader.cs:103-107 | When the cache root is missing, the local-first lookup raises the listing's exception, whatever the remote containers hold. |
| Catalog.CurrentVersion | Bc.Development.Artifacts/ArtifactReader.cs:203-208 | The current version is a well-formed version, or a NullReferenceException when there is no "base" Sandbox artifact. |
| Catalog.Last | Bc.Development.Artifacts/ArtifactReader.cs:167-168 | LastOrDefault: the last element, or none for an empty sequence. |
| Catalog.NextSelectHighest | Bc.Development.Artifacts/ArtifactReader.cs:170-172 | The choice is empty only when both candidates are. Its version is at least each present candidate's, and a tie goes to the preview. |
| Catalog.NextFrom | Bc.Development.Artifacts/ArtifactReader.cs:156-173 | It fails exactly for an account other than bcinsider (NotSupportedException) or a missing current version. A result comes from the preview or insider listing and matches that account's prefix. |
| Catalog.NextMajorSelects | Bc.Development.Artifacts/ArtifactReader.cs:156-173 | For bcinsider, a next-major answer is a preview or insider artifact whose version starts with "{Major + 1}.". |
| Catalog.NextMinorSelects | Bc.Development.Artifacts/ArtifactReader.cs:180-197 | With the correction, a next-minor answer is a preview or insider artifact whose version starts with "{Major}.{Minor + 1}". |
| Catalog.NextQueriesNeedInsider | Bc.Development.Artifacts/ArtifactReader.cs:158-159 | Every account other than bcinsider is refused with NotSupportedException, for both queries. |
| Catalog.NextMinorAsWrittenMissesPreview | Bc.Development.Artifacts/ArtifactReader.cs:191 | In a store with current version 1.0 and preview 1.1.0, GetNextMinor as written finds nothing; the corrected query finds 1.1.0. |
| Catalog.Reader.Create | Bc.Development.Artifacts/ArtifactReader.cs:42-50 | Construction fails with NotSupportedException exactly for bcinsider with a type other than Sandbox. Otherwise it gives a fresh reader with that type and account and the CDN off. |
| Catalog.Reader.SetAccount | Bc.Development.Artifacts/ArtifactReader.cs:24 | Sets the account and keeps the CDN switch. |
| Catalog.Reader.SetUseCdn | Bc.Development.Artifacts/ArtifactReader.cs:29 | Sets the CDN switch and keeps the account. |
| Catalog.Reader.AccountUri | Bc.Development.Artifacts/ArtifactReader.cs:233-236 | The blob base URI of the reader's account, whatever the CDN switch. Its host names that account. |
| Catalog.Reader.ArtifactUri | Bc.Development.Artifacts/ArtifactReader.cs:75-78 | The artifact URI for the reader's account, type and CDN switch. It parses back to exactly that artifact. |
| Catalog.Reader.All | Bc.Development.Artifacts/ArtifactReader.cs:103-123 | A remote query filters the reader's container. A local query raises the listing's exception when the cache root is missing, and otherwise runs GetAll over the cache listing. |
| Catalog.Reader.GetNextMajor | Bc.Development.Artifacts/ArtifactReader.cs:156-173 | The method's answer is NextMajor of the store. |
| Catalog.Reader.GetNextMinor | Bc.Development.Artifacts/ArtifactReader.cs:180-197 | The method's answer is the corrected NextMinor of the store. |
| Install.DeleteDir | Bc.Development.Artifacts/ArtifactDownloader.cs:93 | The recursive delete removes exactly that directory and its stamp and contents, and nothing else. |
| Install.CreateDir | Bc.Development.Artifacts/ArtifactDownloader.cs:117 | The directory exists afterwards, new and empty unless it already existed. |
| Install.MoveDir | Bc.Development.Artifacts/ArtifactDownloader.cs:98 | The directory changes name and nothing else moves. |
| Install.WriteStamp | Bc.Development.Artifacts/BcArtifact.cs:128-143 | It answers true exactly when the folder exists; then the stamp becomes the decimal tick count. Otherwise nothing changes. |
| Install.StampOf | Bc.Development.Artifacts/BcArtifact.cs:113-121 | No stamp exactly when the folder or its file is missing. A stamp read is the parsed line, within DateTime's range. |
| Install.StampRoundTrip | Bc.Development.Artifacts/BcArtifact.cs:113-143 | Round trip: setting the stamp of an existing folder, then reading it, gives the ticks written. |
| Install.StampMissingFolder | Bc.Development.Artifacts/BcArtifact.cs:116 | On a missing folder, the set answers false and changes nothing, and the read gives no stamp. |
| Install.Extracted | Bc.Development.Artifacts/ArtifactDownloader.cs:128-132 | The extracted names are exactly the archive entries that have an extension. |
| Install.StagingFolder | Bc.Development.Artifacts/ArtifactDownloader.cs:112 | The staging folder "<target>_dl" is never the target itself. |
| Install.StageEffect | Bc.Development.Artifacts/ArtifactDownloader.cs:110-141 | After staging, the staging folder exists, unstamped, holding exactly the extracted entries (nothing after a failed download). The temporary file is gone and every other directory is as it was. A failure is reported as an IOException, which stands for any exception of the HTTP client or the zip reader. |
| Install.LockPath | Bc.Development.Artifacts/ArtifactDownloader.cs:81-83 | It throws ArgumentOutOfRangeException exactly when the URI text before '?' is shorter than 8 characters. |
| Install.LockPathIgnoresQuery | Bc.Development.Artifacts/ArtifactDownloader.cs:83 | The lock file does not depend on the URI's query. |
| Install.InstallSpec | Bc.Development.Artifacts/ArtifactDownloader.cs:90-102 | When no exception is raised, the cache folder exists afterwards. |
| Install.CachedNoDownload | Bc.Development.Artifacts/ArtifactDownloader.cs:92-101 | Without force, an existing folder is not downloaded again; only its stamp changes, to now. |
| Install.InstallEffect | Bc.Development.Artifacts/ArtifactDownloader.cs:92-101 | Fresh install with the archive available: the folder holds exactly the extracted entries and is stamped now. The staging folder is gone and every other folder, stamp and content is unchanged. |
| Install.FailedDownloadEffect | Bc.Development.Artifacts/ArtifactDownloader.cs:95-99 | A failed download is reported as an IOException, which stands for any exception of the HTTP client or the zip reader. The cache folder stays missing and unstamped, the staging folder remains, and no temporary file is left. |
| Install.InstallSettles | Bc.Development.Artifacts/ArtifactDownloader.cs:92-101 | After a successful install, a second non-forced install only moves the stamp. |
| Install.DownloadUriSpec | Bc.Development.Artifacts/ArtifactDownloader.cs:78-108 | A returned artifact is the parse of the URI. A bad lock name or a URI that is not an artifact changes nothing on disk. |
| Install.DownloadUriInstalls | Bc.Development.Artifacts/ArtifactDownloader.cs:90-102 | DownloadUri installs into the cache folder of the artifact that its URI names. |
| Install.Assemble | Bc.Development.Artifacts/ArtifactDownloader.cs:64-75 | The result succeeds exactly when both installs do, and otherwise reports the first failure. A "platform" country gets the artifact itself as its platform result. |
| Install.DownloadInsiderOnPrem | Bc.Development.Artifacts/ArtifactDownloader.cs:60-63 | A bcinsider OnPrem download raises NotSupportedException and leaves the disk unchanged. |
| Install.DownloadPlatformCountry | Bc.Development.Artifacts/ArtifactDownloader.cs:57-58 | For a "platform" country in any case, only the one artifact is installed. Its platform result is itself only for exactly "platform"; otherwise there is none. |
| Install.DownloadWithPlatform | Bc.Development.Artifacts/ArtifactDownloader.cs:60-72 | Otherwise, a second install fetches the platform URI of the same account, type, CDN switch and version. On success it is the platform result. |
| Install.DownloadArtifactSpec | Bc.Development.Artifacts/ArtifactDownloader.cs:39-42 | An artifact without an account is downloaded from bcartifacts over the CDN. |
| Install.DownloadFromUriSpec | Bc.Development.Artifacts/ArtifactDownloader.cs:26-30 | A URI that is not an artifact URI raises ArgumentException and touches nothing. |
| Install.Disk.SetLastUsedDate | Bc.Development.Artifacts/BcArtifact.cs:128-143 | Writes the stamp of the artifact's cache folder, per WriteStamp. |
| Install.Disk.GetLastUsedDate | Bc.Development.Artifacts/BcArtifact.cs:113-121 | Reads the stamp of the artifact's cache folder, per StampOf. |
| Install.Disk.ExtractEntries | Bc.Development.Artifacts/ArtifactDownloader.cs:128-132 | The loop fills the staging folder with exactly the entries that have an extension. No directory, stamp or temporary file changes. |
| Install.Disk.DownloadUriToTempFolder | Bc.Development.Artifacts/ArtifactDownloader.cs:110-141 | The disk ends in the state that Stage describes. |
| Install.Disk.InstallFolder | Bc.Development.Artifacts/ArtifactDownloader.cs:90-102 | The disk ends in the state that InstallSpec describes. |
| Install.Disk.DownloadUri | Bc.Development.Artifacts/ArtifactDownloader.cs:78-108 | The disk and result are those of DownloadUriSpec, and no lock is held afterwards on any path. |
| Install.Disk.Download | Bc.Development.Artifacts/ArtifactDownloader.cs:55-76 | The disk and result are those of DownloadSpec, and no lock is held afterwards. |
| Install.Disk.DownloadArtifact | Bc.Development.Artifacts/ArtifactDownloader.cs:39-42 | The disk and result are those of DownloadArtifactSpec. |
| Install.Disk.DownloadFromUri | Bc.Development.Artifacts/ArtifactDownloader.cs:26-30 | The disk and result are those of DownloadFromUriSpec. |
| LocalCache.CacheFolderReads | Bc.Development.Artifacts/BcArtifact.cs:23 | Reading any enumerated cache folder never throws. |
| LocalCache.InstalledFolderEnumerated | Bc.Development.Artifacts/LocalArtifactCache.cs:17-22 | The folder an install writes is one that Enumerate lists. |
| LocalCache.Enumerate | Bc.Development.Artifacts/LocalArtifactCache.cs:14-25 | It raises DirectoryNotFoundException exactly when the cache root does not exist. Otherwise: one entry for each existing third-level folder, each listed once. Each entry is that folder read with no account; null entries are kept. |
| LocalCache.EnumeratedValid | Bc.Development.Artifacts/BcArtifact.cs:27-34 | Every non-null entry of an enumeration has a System.Version, so cleanup can compute its folder. |
| LocalCache.Stale | Bc.Development.Artifacts/LocalArtifactCache.cs:33 | An entry is stale exactly when it has a stamp strictly earlier than now - maxAge. Forming that bound out of range throws, and only for a stamped entry. |
| LocalCache.EvictOne | Bc.Development.Artifacts/LocalArtifactCache.cs:32-37 | The folder is deleted exactly when its stamp is older than now - maxAge. Otherwise nothing changes. |
| LocalCache.DeleteKeepsStamp | Bc.Development.Artifacts/LocalArtifactCache.cs:37 | Deleting one folder leaves every other folder and its stamp as they were. |
| LocalCache.CleanupFrom | Bc.Development.Artifacts/LocalArtifactCache.cs:27-39 | Cleanup only removes directories. A folder that remains keeps its stamp and contents. |
| LocalCache.CleanupDeletesOnlyStale | Bc.Development.Artifacts/LocalArtifactCache.cs:30-38 | Only stale folders go: a folder that disappears belongs to an entry whose stamp, read before the run, is strictly older than now - maxAge. |
| LocalCache.CleanupDeletesAllStale | Bc.Development.Artifacts/LocalArtifactCache.cs:30-38 | A run that raises nothing removes the folder of every stale entry. |
| LocalCache.CleanupAsWrittenStopsAtNull | Bc.Development.Artifacts/LocalArtifactCache.cs:30-33 | As written, a null entry first in line raises NullReferenceException before anything is deleted. |
| LocalCache.CleanupSkipsNull | Bc.Development.Artifacts/LocalArtifactCache.cs:30-33 | With the correction, a null entry is passed over and the rest is cleaned as usual. |
| LocalCache.CleanupAgreesWithoutNulls | Bc.Development.Artifacts/LocalArtifactCache.cs:27-39 | Without null entries, the corrected and the as-written cleanup agree. |
| LocalCache.Evict | Bc.Development.Artifacts/LocalArtifactCache.cs:32-37 | One step of the loop: the disk becomes what EvictOne gives, or stays unchanged with EvictOne's exception. |
| LocalCache.CleanupCache | Bc.Development.Artifacts/LocalArtifactCache.cs:27-39 | A missing cache root raises DirectoryNotFoundException and changes nothing. Otherwise the folders and entries returned are exactly Enumerate's listing of the disk as it was, and the disk and outcome are those of the corrected Cleanup over those entries (null entries skipped). |
| Command.ParseCommand | Bc.Development.Containers/BcContainer.cs:66-111 | It fails with ArgumentException exactly when the input ends inside a quoted section. Otherwise the tokens are those of the character-by-character specification. |
| Command.Step | Bc.Development.Containers/BcContainer.cs:76-86 | A quote opens a section, or keeps it open when it follows a backslash, and closes an open section otherwise. |
| Command.ParseEmpty | Bc.Development.Containers/BcContainer.cs:110 | Empty input gives one empty token. |
| Command.TokenCount | Bc.Development.Containers/BcContainer.cs:87-92 | There is one more token than there are spaces outside quotes. |
| Command.NoQuoteInTokens | Bc.Development.Containers/BcContainer.cs:99-102 | No token contains a double quote. |
| Command.TokensKeepText | Bc.Development.Containers/BcContainer.cs:99-102 | Concatenated, the tokens are the input with its quotes and token-ending spaces removed, in order. Backslashes and quoted spaces are kept. |
| Command.EscapedQuoteKeepsQuoted | Bc.Development.Containers/BcContainer.cs:76-86 | A quote after a backslash leaves a quoted section open, and outside one it opens one. |
| Command.QuoteCloses | Bc.Development.Containers/BcContainer.cs:78-81 | An unescaped quote inside a quoted section closes it. |
| Command.QuotedSpaceKept | Bc.Development.Containers/BcContainer.cs:87-102 | A space inside a quoted section goes into the current token. |
| Command.PlainTokensJoin | Bc.Development.Containers/BcContainer.cs:66-111 | Without quotes, the tokens contain no space and join back into the input. |
| Command.PlainIsSplit | Bc.Development.Containers/BcContainer.cs:66-111 | Without quotes, ParseCommand is a split on the space character. |
| Folders.SharedFolder | Bc.Development.Containers/FolderExtensions.cs:53-62 | The shared folder ends in "my". |
| Folders.SharedFolderShape | Bc.Development.Containers/FolderExtensions.cs:53-62 | The shared folder is helper\Extensions\{container}\my. |
| Folders.TestShareableWithHost | Bc.Development.Containers/FolderExtensions.cs:27-31 | No exception exactly when the path is shareable; otherwise NotSupportedException. |
| Folders.ToHostFolder | Bc.Development.Containers/FolderExtensions.cs:13-19 | It succeeds exactly for a shareable path longer than "c:\run\my". An unshareable path raises NotSupportedException and the root itself ArgumentOutOfRangeException. A result lies under the shared folder. |
| Folders.ToContainerFolder | Bc.Development.Containers/FolderExtensions.cs:33-39 | It succeeds exactly for a path under the shared folder and longer than it. Otherwise: NotSupportedException, or ArgumentOutOfRangeException for the shared folder itself. |
| Folders.RootsDoNotMap | Bc.Development.Containers/FolderExtensions.cs:17 | Mapping either root to the other side throws ArgumentOutOfRangeException. |
| Folders.ToHostBelowRoot | Bc.Development.Containers/FolderExtensions.cs:13-19 | A folder below "c:\run\my", in any case, maps to the same relative name under the shared folder. |
| Folders.ToContainerBelowShared | Bc.Development.Containers/FolderExtensions.cs:33-39 | A folder below the shared folder maps to the same relative name under "c:\run\my". |
| Folders.HostRoundTrip | Bc.Development.Containers/FolderExtensions.cs:13-39 | Round trip: a folder below "c:\run\my" maps to the host and back to the same relative name. |
| Folders.SiblingFolderMisMapped | Bc.Development.Containers/FolderExtensions.cs:23 | As written, "c:\run\mydata" is accepted and maps to "...\my\ata". |
| Folders.ToHostFolderChecked | Bc.Development.Containers/FolderExtensions.cs:13-25 | With the correction, a path is accepted exactly when it is "c:\run\my\" (any case) followed by a relative name, and that name goes under the shared folder. |
| Folders.SiblingFolderRejected | Bc.Development.Containers/FolderExtensions.cs:23 | The corrected mapping rejects "c:\run\mydata". |
| Folders.CheckedAgreesBelowRoot | Bc.Development.Containers/FolderExtensions.cs:13-19 | Below "c:\run\my\", the corrected mapping agrees with the original. |
| Credentials.NormalizeBcServerUri | Bc.Development.Configuration/UriHelper.cs:15-22 | The scheme and host are kept. The port is dropped, the path becomes "/" and the query is dropped. |
| Credentials.NormalizeIdempotent | Bc.Development.Configuration/UriHelper.cs:15-22 | Normalising twice gives the same URI as normalising once. |
| Credentials.NormalizeSameServer | Bc.Development.Configuration/UriHelper.cs:17-21 | Two URIs normalise to the same URI exactly when they share scheme and host. |
| Credentials.ParseUri | Bc.Development.Configuration/AlUserPasswordCacheKey.cs:36 | Every failure is a FormatException. A parsed URI has a non-empty, lower-case host and a non-empty path. |
| Credentials.EmptyIsNotUri | Bc.Development.Configuration/AlUserPasswordCacheKey.cs:36 | The empty text is not a URI. |
| Credentials.KeyOf | Bc.Development.Configuration/AlUserPasswordCacheKey.cs:43-55 | The URI and instance are kept as given. The key is the server part, '_', and the lower-case instance. |
| Credentials.KeyParts | Bc.Development.Configuration/AlUserPasswordCacheKey.cs:34-36 | The key splits at its last '_'. Without one, the server text is empty and the whole key is the instance. |
| Credentials.LastUnderscoreUnique | Bc.Development.Configuration/AlUserPasswordCacheKey.cs:34-36 | There is only one way to split a key as text, '_', and a tail without '_'. |
| Credentials.FromKeyString | Bc.Development.Configuration/AlUserPasswordCacheKey.cs:31-37 | The key is kept verbatim; the instance is the text after the last '_' and the URI the parse of the text before it. A key without '_' fails with FormatException. |
| Credentials.KeyIgnoresPortPathCase | Bc.Development.Configuration/AlUserPasswordCacheKey.cs:53 | URIs that differ only in port, path, query or case, and instances that differ in case, give equal keys. |
| Credentials.KeyRoundTrip | Bc.Development.Configuration/AlUserPasswordCacheKey.cs:31-55 | Round trip: reading the key of (uri, instance), for an instance without '_', gives the lower-case instance and the lower-case normalised URI. |
| Credentials.KeyKeepsInstanceCase | Bc.Development.Configuration/AlUserPasswordCacheKey.cs:43-48 | The instance keeps its case while the key text is lower case. |
| Credentials.CredentialOf | Bc.Development.Util/NugetExternalFeedEndpoint.cs:53 | A missing user name or password becomes "", and given ones are kept. |
| CredentialStores.Read | Bc.Development.Configuration/CredentialReader.cs:55 | A missing file reads as null; an existing one as its dictionary. |
| CredentialStores.ReaderFile | Bc.Development.Configuration/CredentialReader.cs:24-40 | Without a folder the file is the bare name. |
| CredentialStores.FactoriesKeepFileName | Bc.Development.Configuration/CredentialReader.cs:24-40 | Each factory's file ends in its own fixed name, inside the folder when one is given. |
| CredentialStores.CreateCredentialsKey | Bc.Development.Configuration/CredentialReader.cs:43 | The key is lower case, with '_' right after the server part. |
| CredentialStores.TryGetSavedCredentials | Bc.Development.Configuration/CredentialReader.cs:45-51 | An empty trimmed server, an empty instance or a missing dictionary finds nothing. A credential found is one from the file. |
| CredentialStores.TrailingSlashIgnored | Bc.Development.Configuration/CredentialReader.cs:47 | A trailing slash on the server makes no difference. |
| CredentialStores.SavedCredentialsIgnoreCase | Bc.Development.Configuration/CredentialReader.cs:43 | The case of the server and the instance makes no difference. |
| CredentialStores.ReaderFindsCacheKey | Bc.Development.Configuration/CredentialReader.cs:45-51 | Given the normalised URI text, the reader looks up the entry the (uri, instance) cache key names. |
| CredentialStores.TryGetSavedCredentialsByKey | Bc.Development.Configuration/CredentialReader.cs:53-59 | A credential is found exactly when the file exists, holds a dictionary and has the key; it is that entry. |
| CredentialStores.ListStoredCredentials | Bc.Development.Configuration/CredentialReader.cs:61-65 | It fails exactly when the file is missing or null, since there is no null check. Every key listed can be looked up. |
| CredentialStores.CacheIn | Bc.Development.Configuration/CachedCredentialReader.cs:40-45 | A reader exists exactly when the file inside the folder exists. |
| CredentialStores.CachedKeyKeepsSlash | Bc.Development.Configuration/CachedCredentialReader.cs:110-113 | The key keeps the slash after the host, so it never equals the AlUserPasswordCacheKey text for the same server. |
| CredentialStores.TryGetCredential | Bc.Development.Configuration/CachedCredentialReader.cs:120-126 | A credential is found exactly when the file exists, holds a dictionary and has the key; it is that entry. |
| CredentialStores.ListKeys | Bc.Development.Configuration/CachedCredentialReader.cs:132-136 | It fails exactly when the file is missing or null. The keys listed are exactly those found by TryGetCredential. |
| CredentialStores.CredentialInFolder | Bc.Development.Configuration/CachedCredentialReader.cs:73-78 | Without UserPasswordCache.dat in the folder, nothing is found. A hit comes from that file. |
| CredentialStores.FirstHitByVersion | Bc.Development.Configuration/CachedCredentialReader.cs:57-61 | None exactly when nothing hits. Otherwise a hit of greatest version, earliest among equal versions (stable descending order). |
| CredentialStores.CredentialFromExtensions | Bc.Development.Configuration/CachedCredentialReader.cs:54-64 | Null exactly when no extension's folder holds the key. Otherwise the credential of one of the extensions. |
| CredentialStores.NewerExtensionWins | Bc.Development.Configuration/CachedCredentialReader.cs:57 | A newer extension's credential shadows an older one's. |
| PasswordCaches.PasswordCache.Get | Bc.Development.Configuration/AlUserPasswordCache.cs:123-126 | A credential exactly when the key text is present, and it is the stored one. |
| PasswordCaches.PasswordCache.GetKeys | Bc.Development.Configuration/AlUserPasswordCache.cs:113-116 | Exactly the key objects held. Get finds each of them. |
| PasswordCaches.PasswordCache.Set | Bc.Development.Configuration/AlUserPasswordCache.cs:133-136 | Get then returns the credential set; every other key is unchanged. An existing key keeps its original key object. |
| PasswordCaches.PasswordCache.Delete | Bc.Development.Configuration/AlUserPasswordCache.cs:143-146 | True exactly when the key was present. Afterwards Get finds nothing and every other key is unchanged. |
| PasswordCaches.PasswordCache.Refresh | Bc.Development.Configuration/AlUserPasswordCache.cs:70-87 | A missing file changes nothing; an empty one clears the cache. Otherwise the cache is cleared and reloaded, per Load. |
| PasswordCaches.PasswordCache.Save | Bc.Development.Configuration/AlUserPasswordCache.cs:92-107 | One {Username, Password} object per key text, and no other property. |
| PasswordCaches.OpenFile | Bc.Development.Configuration/AlUserPasswordCache.cs:40-64 | A fresh cache on the file, refreshed from it. |
| PasswordCaches.Load | Bc.Development.Configuration/AlUserPasswordCache.cs:80-86 | Keys are only added. An exception is ArgumentException for a repeated key, or the key constructor's own exception. |
| PasswordCaches.LoadIgnoresOthers | Bc.Development.Configuration/AlUserPasswordCache.cs:82-83 | A property whose value is not an object makes no difference, wherever it stands. |
| PasswordCaches.LoadAdds | Bc.Development.Configuration/AlUserPasswordCache.cs:80-86 | Distinct new keys are added without error, exactly with the credentials they describe. |
| PasswordCaches.SaveRefreshRoundTrip | Bc.Development.Configuration/AlUserPasswordCache.cs:70-107 | Round trip: saving, then refreshing from what was saved in any order, gives back every credential under the same key texts. |
| PasswordCaches.FirstCredential | Bc.Development.Configuration/Extensions.cs:17-26 | Null exactly when no cache holds the key, including for no caches. Otherwise the credential of a cache that holds it. |
| PasswordCaches.FirstCredentialStops | Bc.Development.Configuration/Extensions.cs:22 | Caches after the first hit make no difference. |
| SessionTokens.Horizon | Bc.Development.DevOps/Caching/MemoryVstsSessionTokenCache.cs:17 | The horizon is now plus ten seconds, or ArgumentOutOfRangeException past DateTime.MaxValue. |
| SessionTokens.Pruned | Bc.Development.DevOps/Caching/MemoryVstsSessionTokenCache.cs:18-24 | Exactly the tokens not expired at the horizon remain, unchanged. A token without an expiry never expires. |
| SessionTokens.PruneIdempotent | Bc.Development.DevOps/Caching/MemoryVstsSessionTokenCache.cs:15-25 | Pruning twice at the same horizon removes nothing more. |
| SessionTokens.PruneLater | Bc.Development.DevOps/Caching/MemoryVstsSessionTokenCache.cs:15-25 | A later prune subsumes an earlier one. |
| SessionTokens.AddThenPrune | Bc.Development.DevOps/Caching/MemoryVstsSessionTokenCache.cs:15-37 | A token still valid at the horizon survives its own prune, and an expired one is removed; no other token is affected. |
| SessionTokens.TokenCache.Get | Bc.Development.DevOps/Caching/MemoryVstsSessionTokenCache.cs:28-31 | The stored token, or null exactly when the hash is absent. |
| SessionTokens.TokenCache.Add | Bc.Development.DevOps/Caching/MemoryVstsSessionTokenCache.cs:34-37 | Get then returns the added token; every other hash is unchanged. |
| SessionTokens.TokenCache.Prune | Bc.Development.DevOps/Caching/MemoryVstsSessionTokenCache.cs:15-25 | Exactly the expired tokens are removed. A horizon out of range raises and removes nothing. |
| NugetFeeds.EndpointOf | Bc.Development.Util/NugetExternalFeedEndpoint.cs:49-55 | The credential is null exactly when the user name and password are both null or empty. |
| NugetFeeds.Configuration | Bc.Development.Util/NugetExternalFeedEndpoint.cs:41-42 | The argument when given, otherwise the environment variable. |
| NugetFeeds.Load | Bc.Development.Util/NugetExternalFeedEndpoint.cs:39-64 | It succeeds exactly when the document parses, has endpointCredentials, and every token that endpointCredentials enumerates is an object. The result is one endpoint per token, in order. Every failure is a FormatException. |
| NugetFeeds.Children | Bc.Development.Util/NugetExternalFeedEndpoint.cs:47 | The foreach visits an array's elements, an object's properties (never objects themselves), and nothing for a scalar or null. |
| NugetFeeds.NonArrayCredentials | Bc.Development.Util/NugetExternalFeedEndpoint.cs:47-58 | A scalar, null or empty object as endpointCredentials is accepted and gives no endpoints. An object with properties is refused. |
| NugetFeeds.FirstMatch | Bc.Development.Util/NugetExternalFeedEndpoint.cs:27-28 | The first endpoint that prefixes the URI, ignoring case. KeyNotFoundException exactly when every endpoint is passed over. A null endpoint reached first raises NullReferenceException. |
| NugetFeeds.LoadForUri | Bc.Development.Util/NugetExternalFeedEndpoint.cs:24-29 | Malformed configuration raises FormatException before any matching; otherwise the answer is FirstMatch. |
| NugetFeeds.MatchIgnoresCase | Bc.Development.Util/NugetExternalFeedEndpoint.cs:27 | URIs equal up to case match the same endpoint. |
| NugetFeeds.ExtensionMatches | Bc.Development.Util/NugetExternalFeedEndpoint.cs:27 | An endpoint serves every URI that extends it, in any case. |
| NugetFeeds.FirstMatchKeepsEarlier | Bc.Development.Util/NugetExternalFeedEndpoint.cs:27 | Endpoints after a match do not change the result. |
| AlLanguage.DetectPlatform | Bc.Development.Configuration/ALLanguage/AlLanguageExtension.cs:103-110 | "bin" in any case is NetFramework and "win32" in any case is DotNetWindows. |
| AlLanguage.DetectPlatformOfName | Bc.Development.Configuration/ALLanguage/AlLanguageExtension.cs:105 | Only the folder's own name counts. |
| AlLanguage.FromFolder | Bc.Development.Configuration/ALLanguage/AlLanguageExtension.cs:95-101 | NotSupportedException exactly when there is no alc.exe. Success exactly when its version parses. The result keeps the folder and the detected platform. |
| AlLanguage.FolderOfFindsExecutable | Bc.Development.Configuration/ALLanguage/AlLanguageExtension.cs:43 | The constructor finds an enumerated alc.exe again below that file's folder. |
| AlLanguage.Collect | Bc.Development.Configuration/ALLanguage/AlLanguageExtension.cs:39-52 | An extension is listed exactly when some enumerated file constructs it with the requested platform. |
| AlLanguage.CollectAppend | Bc.Development.Configuration/ALLanguage/AlLanguageExtension.cs:39-52 | Enumeration order is kept. |
| AlLanguage.Enumerate | Bc.Development.Configuration/ALLanguage/AlLanguageExtension.cs:34-53 | Nothing when the folder is missing. Every result has the requested platform, and the results are those collected below the folder. |
| AlLanguage.LastMaxIndex | Bc.Development.Configuration/ALLanguage/AlLanguageExtension.cs:65-66 | The last element of greatest version: at least every other, and strictly above all later ones. |
| AlLanguage.LastMaxIndexUnique | Bc.Development.Configuration/ALLanguage/AlLanguageExtension.cs:65-66 | These two properties identify exactly one index. |
| AlLanguage.GetLatest | Bc.Development.Configuration/ALLanguage/AlLanguageExtension.cs:61-67 | The last extension of greatest version for the platform (DotNetWindows when none is given), or nothing. |
| AlLanguage.GetLatestDefaultsToWindows | Bc.Development.Configuration/ALLanguage/AlLanguageExtension.cs:63 | With only a "bin" build installed, GetLatest without a platform finds nothing, while Enumerate lists it. |
| TestRuns.ExecuteTests | Bc.Development.TestRunner/AlTestRunner.cs:136-150 | The codeunits of the replies before the first completion reply, in order. |
| TestRuns.Collected | Bc.Development.TestRunner/AlTestRunner.cs:141-147 | One codeunit per reply before the first reply that equals "All tests executed." ignoring case. |
| TestRuns.FindEntry | Bc.Development.TestRunner/AlTestRunner.cs:121 | The first entry with the id, or none exactly when no entry has it. |
| TestRuns.FreshEntry | Bc.Development.TestRunner/AlTestRunner.cs:125 | A new entry has the methods only. As written, its id is 0 and its name null. |
| TestRuns.MergeOne | Bc.Development.TestRunner/AlTestRunner.cs:118-133 | When grouping and an entry is found, only its methods grow. Otherwise a fresh entry is appended. |
| TestRuns.UngroupedAppends | Bc.Development.TestRunner/AlTestRunner.cs:120-127 | Without grouping, every executed codeunit becomes a new entry at the end, in order. |
| TestRuns.UngroupedKeepsOrder | Bc.Development.TestRunner/AlTestRunner.cs:129-132 | Without grouping, the methods are the old ones followed by the executed ones, in order. |
| TestRuns.MergeAddsMethods | Bc.Development.TestRunner/AlTestRunner.cs:129-132 | Grouped or not, the result gains exactly the executed methods, as a multiset. |
| TestRuns.MergeCountsMethods | Bc.Development.TestRunner/AlTestRunner.cs:129-132 | The method count grows by exactly the number of executed methods. |
| TestRuns.GroupingAsWrittenNeverGroups | Bc.Development.TestRunner/AlTestRunner.cs:120-127 | As written, on a list the runner built itself, grouping merges exactly as not grouping. |
| TestRuns.GroupedPlaylistSplits | Bc.Development.TestRunner/AlTestRunner.cs:120-127 | As written, two runs of codeunit 50100 in a grouped playlist give two entries, both numbered 0. |
| TestRuns.GroupingKeepsOneEntryPerId | Bc.Development.TestRunner/AlTestRunner.cs:120-127 | With the correction, the ids stay distinct and every executed codeunit has its entry. |
| TestRuns.ResultList.AddMethods | Bc.Development.TestRunner/AlTestRunner.cs:129-132 | The inner loop appends the methods, in order, to the one entry. |
| TestRuns.ResultList.Merge | Bc.Development.TestRunner/AlTestRunner.cs:115-134 | The entries become MergeAll of the executed codeunits. With keepIdentity false a new entry is a default one, as the code creates it; with keepIdentity true it is the corrected entry carrying the codeunit's id and name. |
| TestRuns.AccumulateIsOneMerge | Bc.Development.TestRunner/AlTestRunner.cs:96-113 | A playlist run is one merge of everything its entries executed, in playlist order. |
| TestRuns.RunPlaylist | Bc.Development.TestRunner/AlTestRunner.cs:96-113 | One result list for the whole playlist, built as written: every new entry is a default one with id 0 and no name. It holds exactly the executed methods. |
| TestRuns.PlaylistAsWrittenNeverGroups | Bc.Development.TestRunner/AlTestRunner.cs:96-134 | As written, starting from any list the runner built itself (the empty one included), and when every executed codeunit has a non-zero id, a playlist grouped by codeunit gives the same result list as an ungrouped one. |
| ResultWriters.FormatResult | Bc.Development.TestRunner/ResultsWriters/ConsoleResultWriter.cs:54-67 | Each result has its own tag: "[FAIL]", "[PASS]", "[SKIP]", or "[ ?? ]" for any other. |
| ResultWriters.FormatResultInjective | Bc.Development.TestRunner/ResultsWriters/ConsoleResultWriter.cs:54-67 | Different results have different tags. |
| ResultWriters.StackLines | Bc.Development.TestRunner/ResultsWriters/ConsoleResultWriter.cs:42-46 | One line per ';'-separated segment. |
| ResultWriters.MethodLinesCount | Bc.Development.TestRunner/ResultsWriters/ConsoleResultWriter.cs:37-47 | A method gives one line, plus one for a message, plus one per stack segment. |
| ResultWriters.MethodLineShape | Bc.Development.TestRunner/ResultsWriters/ConsoleResultWriter.cs:37 | The method line starts with the 2-space indent, the tag, " Method " and the name. |
| ResultWriters.StackLinesRebuildTrace | Bc.Development.TestRunner/ResultsWriters/ConsoleResultWriter.cs:40-47 | Without the 11-space indent, and joined with ';', the stack lines give back the trace, when no segment has '\r' at an end. |
| ResultWriters.OneHeaderPerCodeunit | Bc.Development.TestRunner/ResultsWriters/ConsoleResultWriter.cs:32-37 | Exactly one unindented line per codeunit: its header, which starts its block. |
| ResultWriters.ConsoleWriter.BeginWrite | Bc.Development.TestRunner/ResultsWriters/ConsoleResultWriter.cs:13-16 | Writes nothing. |
| ResultWriters.ConsoleWriter.EndWrite | Bc.Development.TestRunner/ResultsWriters/ConsoleResultWriter.cs:70-73 | Writes nothing. |
| ResultWriters.ConsoleWriter.WriteStackTrace | Bc.Development.TestRunner/ResultsWriters/ConsoleResultWriter.cs:42-46 | Appends the stack lines of the segments. |
| ResultWriters.ConsoleWriter.WriteMethod | Bc.Development.TestRunner/ResultsWriters/ConsoleResultWriter.cs:37-47 | Appends the lines of one method. |
| ResultWriters.ConsoleWriter.Write | Bc.Development.TestRunner/ResultsWriters/ConsoleResultWriter.cs:26-52 | Appends exactly Lines of the codeunits: each header followed by its methods' lines. |
| ResultWriters.Count | Bc.Development.TestRunner/ResultsWriters/XUnitResultsWriter.cs:44-45 | A count never exceeds the number of methods. |
| ResultWriters.CountsPartition | Bc.Development.TestRunner/ResultsWriters/XUnitResultsWriter.cs:43-55 | The four result counts add up to the total. |
| ResultWriters.SkippedCount | Bc.Development.TestRunner/ResultsWriters/XUnitResultsWriter.cs:55 | total - passed - failed is the number of Skipped plus Unknown results. |
| ResultWriters.ResultString | Bc.Development.TestRunner/ResultsWriters/XUnitResultsWriter.cs:77-79 | "Pass" exactly for Success and "Fail" exactly for Failure; "Skipped" otherwise. |
| ResultWriters.TestNodes | Bc.Development.TestRunner/ResultsWriters/XUnitResultsWriter.cs:66-69 | One test element per method, in order. |
| ResultWriters.Document | Bc.Development.TestRunner/ResultsWriters/XUnitResultsWriter.cs:28-35 | An attribute-less "assemblies" root with one assembly per codeunit, in order. |
| ResultWriters.AssemblyCounts | Bc.Development.TestRunner/ResultsWriters/XUnitResultsWriter.cs:41-73 | The assembly states total, passed, failed and skipped (Unknown counts as skipped), and its collection carries the same counts. There is one test per method, named "{codeunit}:{method}". |
| ResultWriters.AssemblyNameKeepsId | Bc.Development.TestRunner/ResultsWriters/XUnitResultsWriter.cs:48 | The assembly name is the codeunit id, a space and the name; the id can be read back. |
| ResultWriters.XmlWriter.WriteResult | Bc.Development.TestRunner/ResultsWriters/XUnitResultsWriter.cs:75-87 | Emits exactly the serialisation of the test element. |
| ResultWriters.XmlWriter.WriteTests | Bc.Development.TestRunner/ResultsWriters/XUnitResultsWriter.cs:66-69 | The loop emits the test elements of all methods, in order. |
| ResultWriters.XmlWriter.WriteCollection | Bc.Development.TestRunner/ResultsWriters/XUnitResultsWriter.cs:58-71 | Emits exactly the collection element. |
| ResultWriters.XmlWriter.WriteAssembly | Bc.Development.TestRunner/ResultsWriters/XUnitResultsWriter.cs:41-73 | Emits exactly the assembly element. |
| ResultWriters.XmlWriter.WriteAssemblies | Bc.Development.TestRunner/ResultsWriters/XUnitResultsWriter.cs:30-33 | The loop emits one assembly per codeunit, in order. |
| ResultWriters.XmlWriter.Write | Bc.Development.TestRunner/ResultsWriters/XUnitResultsWriter.cs:22-38 | Emits the start of the document and then the serialised document. |

## Left out

- **Concurrency.** The two `Task.WhenAll` branches of
  `ArtifactDownloader.Download` and of `GetNextMajor`/`GetNextMinor` run
  one after the other. Aggregate exceptions and interleavings are not
  modelled.
- **The lock file.** `LockFile` is only a ghost set of held locks, and
  the model proves it is empty again on every path. Cross-process
  waiting and polling are not modelled.
- **The network and blob listing.**
  - `GetAllRemote` and the blob listing are inputs: a listing per
    (account, type) container.
  - The HttpClient download and the zip reading form one oracle from URI
    to entry names.
  - Entry contents, overwrite behaviour and zip path layout are not
    modelled.
- **JSON and encryption.**
  - `UserProtectedFileStorage`, the data-protection API and Newtonsoft
    parsing are left out; the model starts from the parsed structures.
  - A JSON document that does not parse is unparsable. The
    `endpointCredentials` value is an array of tokens, an object (only
    its number of properties is kept) or a scalar. String values that
    are not strings in the JSON (numbers, objects) are not modelled.
  - The TestResultJson reply carries its deserialised codeunit; a null
    deserialisation is not modelled.
- **Configuration.** `BcContainerHelperConfiguration` is left out. The
  cache root and the host helper folder are parameters.
  `DefaultRootFolder` of the AL extensions is a parameter too.
- **Clocks.**
  - `DateTime.Now`, `ToUniversalTime` and `UtcNow` become a tick count
    supplied by the caller.
  - Local and UTC time are not told apart, nor is DateTime.Kind.
  - `TimeSpan.TotalSeconds` and the two date formats of the writers are
    opaque rendering functions.
- **Culture.** Case folding is ordinal ASCII folding. `Enum.Parse`
  accepts only member names ignoring case; numeric and comma-separated
  forms are not modelled.
- **URI details.**
  - `System.Uri` is reduced to scheme, host, explicit port, path and
    query.
  - Percent-escaping, default-port elision, file and UNC URIs, and
    `DirectoryInfo` normalisation are not modelled.
  - A country that needs escaping is excluded from the URI round trip.
- **Version and integer parsing.** `long.Parse` of the stamp accepts
  only decimal digits; signs and whitespace are not modelled. A value
  above Int64.MaxValue raises OverflowException.
  `Major + 1` is unbounded.
- **Hash codes and dictionary order.** Key order and hash-code values
  are not modelled: keys compare by text, and `Save`'s property order
  is not fixed.
- **The catalog's local listing.** It is an input to the
  catalog: what `LocalCache.Enumerate` returns for the disk, or the
  DirectoryNotFoundException it raises.
- **Test page plumbing.** The client session, page ids, control names
  and `RunTests(appId)`/`RunTests(codeunitId)` are left out; they only
  set filters before `ExecuteTests`. The replies are a sequence, and
  `ExecuteTests` requires that one of them is the completion reply.
- **The xUnit stream.** The `FileResultsWriter` stream, XML escaping
  and the encoding declaration are left out. The document's end on
  Dispose is not modelled. The writer is the list of calls made on it.
- **Superseded and unrelated files.**
  - `Bc.Development.Configuration/AlLanguageExtension.cs` is a
    superseded duplicate of the ALLanguage one.
  - `AlUserPasswordCache.EnumerateCaches`, `OpenFolder`, and the
    `ServerInfoCache`/`TokenKeyCache` factories of the cached reader
    only combine a folder with a fixed name. `CredentialStores.CacheIn`
    covers the one used.
  - Docker, DevOps authentication and `SecureFileSessionTokenCache` are
    not part of this model.
- **Member-specific limits:**
  - Catalog.Reader.AccountUri: the instance `GetAccountUri` does not
    pass `UseCdn` on; the model keeps that, and states it rather than
    treating it as a finding.
  - LocalCache.Enumerate: the order in which the file system lists
    folders is not modelled. The folders come in some order, each
    once.
  - Install.CreateDir: `Directory.CreateDirectory` also creates missing
    parent folders; the model adds only the folder itself. The cache
    root therefore exists in the model only when it is among the
    directories given.
  - Install.Disk.DownloadUriToTempFolder: the exception type of a
    failed download or unzip is not kept. The model reports all of them
    as IOException.
  - Install.StampOf: an empty "lastused" file, which makes `long.Parse`
    throw ArgumentNullException, reads like an unparsable line.
  - Install.Disk.Download: the two installs run one after the other,
    the country first, instead of concurrently.
  - SessionTokens.TokenCache.Add: a null token is not modelled.
  - AlLanguage.FromFolder: the file version is a text recorded per
    file. A missing one is a failure, like the ArgumentException it
    raises.
  - ResultWriters.ResultString: results outside the four enum values
    are not modelled.
  - Versions.ParseVersion: leading zeros and the Int32 bound are
    followed. Whitespace and a leading '+' sign on a component, which
    `System.Version` tolerates, are not accepted.

## Findings

| source | as written | input that shows it | evidently intended | confidence | as-written member | corrected member |
|---|---|---|---|---|---|---|
| Bc.Development.Artifacts/ArtifactReader.cs:191 | GetNextMinor asks the public-preview account for the prefix "{Major}.{Major + 1}" | Current version 1.0, public preview holding 1.1.0: the preview is asked for "1.2" and nothing is found | "{Major}.{Minor + 1}", the prefix the insider query on the next line uses | high, not executed | Catalog.NextMinorAsWrittenMissesPreview | Catalog.NextMinorSelects |
| Bc.Development.Artifacts/LocalArtifactCache.cs:30-33 | Cleanup calls GetLastUsedDate on every enumerated entry, and Enumerate yields null for a folder that does not parse | A cache with a folder root\foo\bar\baz: its null entry raises NullReferenceException and ends the cleanup | Entries that are not artifacts are skipped | high, not executed | LocalCache.CleanupAsWrittenStopsAtNull | LocalCache.CleanupSkipsNull |
| Bc.Development.Containers/FolderExtensions.cs:23 | IsShareableWithHost is a plain text prefix test against "c:\run\my" | "c:\run\mydata" is accepted and mapped to "{shared}\ata" | Accept only "c:\run\my" followed by a separator | high, not executed | Folders.SiblingFolderMisMapped | Folders.SiblingFolderRejected |
| Bc.Development.TestRunner/AlTestRunner.cs:125 | A new result entry is created without the codeunit's id and name, so grouping by CodeunitId never finds it | A grouped playlist that runs codeunit 50100 twice gives two entries, both numbered 0 | The new entry carries the executed codeunit's id and name, so grouping merges it | medium, not executed | TestRuns.GroupedPlaylistSplits | TestRuns.GroupingKeepsOneEntryPerId |
