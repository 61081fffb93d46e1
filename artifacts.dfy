/**
 * Artifact identity: the storage accounts and artifact kinds, the base and
 * artifact URIs the reader builds, the parse of an artifact URI back into
 * (account, kind, version, country), the platform counterpart of an
 * artifact and its folder in the local cache.
 */
module Artifacts {
  import opened Wrappers
  import opened Strings
  import opened Versions
  import opened Uris

  datatype Account = BcArtifacts | BcInsider | BcPublicPreview

  datatype ArtifactType = OnPrem | Sandbox

  /** The enum member names, as Enum.ToString() writes them. */
  function AccountName(a: Account): string
  {
    match a
    case BcArtifacts => "BcArtifacts"
    case BcInsider => "BcInsider"
    case BcPublicPreview => "BcPublicPreview"
  }

  function TypeName(t: ArtifactType): string
  {
    match t
    case OnPrem => "OnPrem"
    case Sandbox => "Sandbox"
  }

  /**
   * Enum.Parse(..., ignoreCase: true) over the member names: the text's
   * lower-case form is a member name's lower-case form.
   */
  function ParseAccount(s: string): Option<Account>
  {
    var name := Lower(s);
    if name == "bcartifacts" then Some(BcArtifacts)
    else if name == "bcinsider" then Some(BcInsider)
    else if name == "bcpublicpreview" then Some(BcPublicPreview)
    else None
  }

  function ParseType(s: string): Option<ArtifactType>
  {
    var name := Lower(s);
    if name == "onprem" then Some(OnPrem)
    else if name == "sandbox" then Some(Sandbox)
    else None
  }

  /** The lower-case account names, as they appear in host names. */
  lemma AccountNameLower(a: Account)
    ensures Lower(AccountName(a)) == match a
      case BcArtifacts => "bcartifacts"
      case BcInsider => "bcinsider"
      case BcPublicPreview => "bcpublicpreview"
  {
  }

  /** Every account parses back from its name in any case. */
  lemma ParseAccountName(a: Account, s: string)
    requires EqualsIgnoreCase(s, AccountName(a))
    ensures ParseAccount(s) == Some(a)
  {
    AccountNameLower(a);
  }

  /** Every kind parses back from its name in any case. */
  lemma ParseTypeName(t: ArtifactType, s: string)
    requires EqualsIgnoreCase(s, TypeName(t))
    ensures ParseType(s) == Some(t)
  {
    LowerTypeName(t);
  }

  /** Parsing an account is exactly a case-insensitive match of one member name. */
  lemma ParseAccountExact(s: string, a: Account)
    ensures ParseAccount(s) == Some(a) <==> EqualsIgnoreCase(s, AccountName(a))
  {
    AccountNameLower(a);
  }

  /** Parsing a kind is exactly a case-insensitive match of one member name. */
  lemma ParseTypeExact(s: string, t: ArtifactType)
    ensures ParseType(s) == Some(t) <==> EqualsIgnoreCase(s, TypeName(t))
  {
    LowerTypeName(t);
  }

  // ---------------------------------------------------------------------
  // CDN hosts

  /** The front-door host labels of the CDN map. */
  function CdnLabel(a: Account): string
  {
    match a
    case BcArtifacts => "exdbf9fwegejdqak"
    case BcPublicPreview => "f2ajahg0e2cudpgh"
    case BcInsider => "fvh2ekdjecfjd6gk"
  }

  const CdnDomain: string := ".b02.azurefd.net"

  const BlobDomain: string := ".blob.core.windows.net"

  const FrontDoorSuffix: string := ".azurefd.net"

  /** The CDN map: every account has a host. */
  function CdnHost(a: Account): string
  {
    match a
    case BcArtifacts => "exdbf9fwegejdqak.b02.azurefd.net"
    case BcPublicPreview => "f2ajahg0e2cudpgh.b02.azurefd.net"
    case BcInsider => "fvh2ekdjecfjd6gk.b02.azurefd.net"
  }

  predicate LowerAlnum(name: string)
  {
    forall i :: 0 <= i < |name| ==> 'a' <= name[i] <= 'z' || IsDigit(name[i])
  }

  lemma FrontDoorHostSplit(name: string)
    ensures name + CdnDomain == name + ['.'] + "b02.azurefd.net"
  {
  }

  lemma FrontDoorHostLower(name: string)
    requires LowerAlnum(name)
    ensures Lower(name + CdnDomain) == name + CdnDomain
  {
    LowerNoUpper(name);
    CdnDomainLower();
    LowerConcat(name, CdnDomain);
  }

  lemma FrontDoorHostSuffix(name: string)
    ensures EndsWith(name + CdnDomain, FrontDoorSuffix)
  {
    EndsWithConcat(name, CdnDomain, FrontDoorSuffix);
    assert CdnDomain[|CdnDomain| - |FrontDoorSuffix|..] == FrontDoorSuffix;
  }

  /** Every CDN host is its label in front of ".b02.azurefd.net". */
  lemma CdnHostShape(a: Account)
    ensures CdnHost(a) == CdnLabel(a) + CdnDomain
    ensures LowerAlnum(CdnLabel(a))
  {
    CdnHostConcat(a);
    CdnLabelAlnum(a);
  }

  lemma CdnHostConcat(a: Account)
    ensures CdnHost(a) == CdnLabel(a) + CdnDomain
  {
    match a
    case BcArtifacts =>
    case BcPublicPreview =>
    case BcInsider =>
  }

  lemma CdnLabelAlnum(a: Account)
    ensures LowerAlnum(CdnLabel(a))
  {
    match a
    case BcArtifacts =>
    case BcPublicPreview =>
    case BcInsider =>
  }

  // ---------------------------------------------------------------------
  // Rendering URIs

  /** The host the reader talks to: the blob endpoint, or "{account}-{cdn host}". */
  function MakeHost(a: Account, useCdn: bool): string
  {
    if !useCdn then AccountName(a) + BlobDomain
    else AccountName(a) + "-" + CdnHost(a)
  }

  /** The base URI "https://{host}/{type}", lower-cased in full. */
  function GetAccountUri(a: Account, t: ArtifactType, useCdn: bool): (u: Uri)
    ensures u.scheme == "https" && u.port.None? && u.query == ""
    ensures u.host == Lower(MakeHost(a, useCdn)) && u.path == "/" + Lower(TypeName(t))
  {
    Uri("https", Lower(MakeHost(a, useCdn)), None, "/" + Lower(TypeName(t)), "")
  }

  /** The artifact URI: the base URI with "/{version}/{country}" appended to its path. */
  function MakeArtifactUri(a: Account, t: ArtifactType, v: Version, country: string, useCdn: bool): (u: Uri)
    requires WellFormed(v)
    ensures u.host == GetAccountUri(a, t, useCdn).host
    ensures u.path == GetAccountUri(a, t, useCdn).path + "/" + VersionText(v) + "/" + country
  {
    var b := GetAccountUri(a, t, useCdn);
    b.(path := b.path + "/" + VersionText(v) + "/" + country)
  }

  // ---------------------------------------------------------------------
  // Artifacts

  const PlatformIdentifier: string := "platform"

  const DefaultStorageAccount: Account := BcArtifacts

  /**
   * A BC artifact. The account is absent for artifacts read from the local
   * cache; the URI is absent for those as well.
   */
  datatype Artifact = Artifact(account: Option<Account>, kind: ArtifactType, version: Version, country: string, uri: Option<Uri>)

  /** What every constructed artifact satisfies: its version came from a parse. */
  predicate ValidArtifact(a: Artifact)
  {
    WellFormed(a.version)
  }

  predicate IsPlatform(a: Artifact)
  {
    EqualsIgnoreCase(a.country, PlatformIdentifier)
  }

  /** Drops the leading empty fields (SkipWhile(string.IsNullOrEmpty)). */
  function SkipEmpty(parts: seq<string>): (r: seq<string>)
    ensures |r| <= |parts| && r == parts[|parts| - |r|..]
    ensures r == [] || r[0] != ""
  {
    if parts == [] || parts[0] != "" then parts else SkipEmpty(parts[1..])
  }

  /** EndsWith(".azurefd.net", OrdinalIgnoreCase); the suffix is already lower-case. */
  predicate IsFrontDoorHost(host: string)
  {
    EndsWith(Lower(host), FrontDoorSuffix)
  }

  lemma IsFrontDoorHostIgnoresCase(host: string)
    ensures IsFrontDoorHost(host) <==> EndsWithIgnoreCase(host, FrontDoorSuffix)
  {
    FrontDoorSuffixLower();
  }

  /** The account named by a host: its first dot label, cut at '-' for front-door hosts. */
  function HostAccountLabel(host: string): string
  {
    var first := Split(host, {'.'})[0];
    if IsFrontDoorHost(host) then Split(first, {'-'})[0] else first
  }

  /** The account of a host: none for an empty label, an error for an unknown name. */
  function HostAccount(host: string): Option<Option<Account>>
  {
    var name := HostAccountLabel(host);
    if name == "" then Some(None)
    else if ParseAccount(name).Some? then Some(Some(ParseAccount(name).value))
    else None
  }

  /**
   * BcArtifact.FromUri: account from the host, then kind, version and
   * country from the three path fields that follow the leading empty ones
   * (only leading empty fields are skipped, so the country may be empty).
   * Any failure is an ArgumentException.
   */
  function FromUri(u: Uri): (r: Outcome<Artifact>)
    ensures r.Ok? ==> ValidArtifact(r.value) && r.value.uri == Some(u)
    ensures r.Ok? ==> HostAccount(u.host) == Some(r.value.account) && |SkipEmpty(Split(u.path, {'/'}))| >= 3
    ensures r.Fail? ==> r.error == ArgumentException
  {
    var account := HostAccount(u.host);
    var parts := SkipEmpty(Split(u.path, {'/'}));
    if account.None? || |parts| < 3 then Fail(ArgumentException)
    else
      var kind := ParseType(parts[0]);
      var version := ParseVersion(parts[1]);
      if kind.None? || version.None? then Fail(ArgumentException)
      else Ok(Artifact(account.value, kind.value, version.value, parts[2], Some(u)))
  }

  /** Path fields after the country are ignored. */
  lemma FromUriIgnoresExtraFields(u: Uri, extra: string)
    requires FromUri(u).Ok?
    ensures FromUri(u.(path := u.path + "/" + extra)) == Ok(FromUri(u).value.(uri := Some(u.(path := u.path + "/" + extra))))
  {
    var longer := u.(path := u.path + "/" + extra);
    var parts := SkipEmpty(Split(u.path, {'/'}));
    var longParts := SkipEmpty(Split(longer.path, {'/'}));
    assert longParts == parts + Split(extra, {'/'}) by {
      assert longer.path == u.path + ['/'] + extra;
      SplitAppend(u.path, '/', extra, {'/'});
      SkipEmptyAppend(Split(u.path, {'/'}), Split(extra, {'/'}));
    }
    assert longParts[0] == parts[0] && longParts[1] == parts[1] && longParts[2] == parts[2];
    assert longer.host == u.host;
  }

  lemma {:induction false} SkipEmptyAppend(xs: seq<string>, ys: seq<string>)
    requires SkipEmpty(xs) != []
    ensures SkipEmpty(xs + ys) == SkipEmpty(xs) + ys
  {
    if xs[0] == "" {
      assert (xs + ys)[1..] == xs[1..] + ys;
      SkipEmptyAppend(xs[1..], ys);
    }
  }

  /** Outside the front door, the account is the host's first dot label. */
  lemma PlainHostLabel(name: string, rest: string)
    requires NoneOf(name, {'.'}) && !IsFrontDoorHost(name + "." + rest)
    ensures HostAccountLabel(name + "." + rest) == name
  {
    FirstField(name, '.', rest);
  }

  /** Behind the front door, the account is the first dot label up to its first '-'. */
  lemma FrontDoorHostLabel(name: string, cdn: string, rest: string)
    requires NoneOf(name, {'.'}) && NoneOf(name, {'-'}) && NoneOf(cdn, {'.'})
    requires IsFrontDoorHost(name + "-" + cdn + "." + rest)
    ensures HostAccountLabel(name + "-" + cdn + "." + rest) == name
  {
    var first := name + ['-'] + cdn;
    assert name + "-" + cdn + "." + rest == first + ['.'] + rest;
    FirstField(first, '.', rest);
    FirstField(name, '-', cdn);
  }

  /** Text that a URI path carries unescaped and that is one path or folder field. */
  predicate PlainSegment(s: string)
  {
    forall i :: 0 <= i < |s| ==> ('a' <= s[i] <= 'z') || ('A' <= s[i] <= 'Z') || IsDigit(s[i]) || s[i] == '-' || s[i] == '_'
  }

  lemma PlainSegmentNoneOf(s: string, seps: set<char>)
    requires PlainSegment(s)
    requires forall c :: c in seps ==> !(('a' <= c <= 'z') || ('A' <= c <= 'Z') || IsDigit(c) || c == '-' || c == '_')
    ensures NoneOf(s, seps)
  {
  }

  lemma LowerTypeName(t: ArtifactType)
    ensures Lower(TypeName(t)) == match t case OnPrem => "onprem" case Sandbox => "sandbox"
  {
  }

  lemma AccountNameLowerAlnum(a: Account)
    ensures LowerAlnum(Lower(AccountName(a)))
  {
    AccountNameLower(a);
  }

  lemma BlobDomainLower()
    ensures Lower(BlobDomain) == BlobDomain
  {
    var domain := ".blob.core.windows.net";
    LowerNoUpper(domain);
  }

  lemma FrontDoorSuffixLower()
    ensures Lower(FrontDoorSuffix) == FrontDoorSuffix
  {
    var suffix := ".azurefd.net";
    LowerNoUpper(suffix);
  }

  lemma CdnDomainLower()
    ensures Lower(CdnDomain) == CdnDomain
  {
    var domain := ".b02.azurefd.net";
    LowerNoUpper(domain);
  }

  lemma BlobHostLower(a: Account)
    ensures Lower(MakeHost(a, false)) == Lower(AccountName(a)) + BlobDomain
  {
    LowerConcat(AccountName(a), BlobDomain);
    BlobDomainLower();
  }

  lemma CdnHostLower(a: Account)
    ensures Lower(MakeHost(a, true)) == Lower(AccountName(a)) + "-" + CdnHost(a)
  {
    CdnHostShape(a);
    FrontDoorHostLower(CdnLabel(a));
    LowerDashJoin(AccountName(a), CdnHost(a));
  }

  /** Lower-casing x-y, where y is already lower case, lower-cases x only. */
  lemma LowerDashJoin(x: string, y: string)
    requires Lower(y) == y
    ensures Lower(x + "-" + y) == Lower(x) + "-" + y
  {
    LowerConcat(x + "-", y);
    LowerConcat(x, "-");
    assert Lower("-") == "-";
  }

  lemma BlobDomainSplit()
    ensures BlobDomain == ['.'] + "blob.core.windows.net"
  {
  }

  lemma BlobDomainNotFrontDoor()
    ensures !EndsWith(BlobDomain, FrontDoorSuffix)
  {
    var domain := ".blob.core.windows.net";
    var suffix := ".azurefd.net";
    assert domain[|domain| - |suffix|..][1] != suffix[1];
  }

  lemma FirstField(name: string, sep: char, rest: string)
    requires NoneOf(name, {sep})
    ensures Split(name + [sep] + rest, {sep})[0] == name
  {
    SplitCons(name, sep, rest, {sep});
  }

  lemma BlobHostNotFrontDoor(name: string)
    requires LowerAlnum(name)
    ensures !IsFrontDoorHost(name + BlobDomain)
  {
    LowerNoUpper(name);
    BlobDomainLower();
    LowerConcat(name, BlobDomain);
    EndsWithConcat(name, BlobDomain, FrontDoorSuffix);
    BlobDomainNotFrontDoor();
  }

  lemma BlobHostLabel(name: string)
    requires LowerAlnum(name)
    ensures HostAccountLabel(name + BlobDomain) == name
  {
    BlobDomainSplit();
    FirstField(name, '.', "blob.core.windows.net");
    assert name + BlobDomain == name + ['.'] + "blob.core.windows.net";
    BlobHostNotFrontDoor(name);
  }

  lemma CdnHostFrontDoor(name: string, a: Account)
    requires LowerAlnum(name)
    ensures IsFrontDoorHost(name + "-" + CdnHost(a))
  {
    CdnHostShape(a);
    FrontDoorHostLower(CdnLabel(a));
    FrontDoorHostSuffix(CdnLabel(a));
    LowerNoUpper(name + "-");
    LowerConcat(name + "-", CdnHost(a));
    EndsWithConcat(name + "-", CdnHost(a), FrontDoorSuffix);
  }

  lemma CdnHostLabel(name: string, a: Account)
    requires LowerAlnum(name)
    ensures HostAccountLabel(name + "-" + CdnHost(a)) == name
  {
    CdnHostShape(a);
    var cdnLabel := CdnLabel(a);
    FrontDoorHostSplit(cdnLabel);
    var first := name + ['-'] + cdnLabel;
    assert name + "-" + CdnHost(a) == first + ['.'] + "b02.azurefd.net";
    FirstField(first, '.', "b02.azurefd.net");
    FirstField(name, '-', cdnLabel);
    CdnHostFrontDoor(name, a);
  }

  /** The host of an artifact URI names its account. */
  lemma HostLabelOfAccountUri(a: Account, useCdn: bool)
    ensures HostAccountLabel(Lower(MakeHost(a, useCdn))) == Lower(AccountName(a))
  {
    AccountNameLowerAlnum(a);
    if !useCdn {
      BlobHostLower(a);
      BlobHostLabel(Lower(AccountName(a)));
    } else {
      CdnHostLower(a);
      CdnHostLabel(Lower(AccountName(a)), a);
    }
  }

  /** The host of every reader URI resolves to the reader's account. */
  lemma HostAccountOfAccountUri(a: Account, useCdn: bool)
    ensures HostAccount(Lower(MakeHost(a, useCdn))) == Some(Some(a))
  {
    HostLabelOfAccountUri(a, useCdn);
    AccountNameLower(a);
    LowerIdempotent(AccountName(a));
    ParseAccountName(a, Lower(AccountName(a)));
  }

  lemma SlashPathShape(k: string, v: string, c: string)
    ensures "/" + k + "/" + v + "/" + c == [] + ['/'] + (k + ['/'] + (v + ['/'] + c))
  {
  }

  lemma SplitSlashFields(k: string, v: string, c: string)
    requires NoneOf(k, {'/'}) && NoneOf(v, {'/'}) && NoneOf(c, {'/'})
    ensures Split("/" + k + "/" + v + "/" + c, {'/'}) == ["", k, v, c]
  {
    SlashPathShape(k, v, c);
    SplitFields3(k, v, c, '/', {'/'});
    SplitCons([], '/', k + ['/'] + (v + ['/'] + c), {'/'});
    assert [[]] + [k, v, c] == ["", k, v, c];
  }

  /** "/k/v/c" with plain fields yields the fields k, v, c. */
  lemma ArtifactPathFields(k: string, v: string, c: string)
    requires k != "" && NoneOf(k, {'/'}) && NoneOf(v, {'/'}) && NoneOf(c, {'/'})
    ensures SkipEmpty(Split("/" + k + "/" + v + "/" + c, {'/'})) == [k, v, c]
  {
    SplitSlashFields(k, v, c);
    var fields: seq<string> := ["", k, v, c];
    assert fields[1..] == [k, v, c];
    assert SkipEmpty(fields) == SkipEmpty(fields[1..]);
  }

  /**
   * Parsing an artifact URI gives back the account, kind, version and
   * country it was made from (country text that needs no escaping).
   */
  lemma FromMakeArtifactUri(a: Account, t: ArtifactType, v: Version, country: string, useCdn: bool)
    requires WellFormed(v) && PlainSegment(country)
    ensures FromUri(MakeArtifactUri(a, t, v, country, useCdn))
      == Ok(Artifact(Some(a), t, v, country, Some(MakeArtifactUri(a, t, v, country, useCdn))))
  {
    var u := MakeArtifactUri(a, t, v, country, useCdn);
    HostAccountOfAccountUri(a, useCdn);
    ArtifactUriFields(a, t, v, country, useCdn);
    TypeFieldPlain(t);
    ParseVersionText(v);
    FromUriOfFields(u, Some(a), t, v, Lower(TypeName(t)), VersionText(v), country);
  }

  /** A URI whose host names the account and whose path has the three fields reads as that artifact. */
  lemma FromUriOfFields(u: Uri, account: Option<Account>, t: ArtifactType, v: Version, kindText: string, versionText: string, country: string)
    requires HostAccount(u.host) == Some(account)
    requires SkipEmpty(Split(u.path, {'/'})) == [kindText, versionText, country]
    requires ParseType(kindText) == Some(t) && ParseVersion(versionText) == Some(v)
    ensures FromUri(u) == Ok(Artifact(account, t, v, country, Some(u)))
  {
  }

  lemma ArtifactUriFields(a: Account, t: ArtifactType, v: Version, country: string, useCdn: bool)
    requires WellFormed(v) && PlainSegment(country)
    ensures SkipEmpty(Split(MakeArtifactUri(a, t, v, country, useCdn).path, {'/'})) == [Lower(TypeName(t)), VersionText(v), country]
  {
    var lt := Lower(TypeName(t));
    TypeFieldPlain(t);
    var vt := VersionText(v);
    VersionTextChars(v);
    assert NoneOf(vt, {'/'});
    PlainSegmentNoneOf(country, {'/'});
    ArtifactPathFields(lt, vt, country);
  }

  /** The lower-case kind is a plain, non-empty field that parses back to the kind. */
  lemma TypeFieldPlain(t: ArtifactType)
    ensures Lower(TypeName(t)) != "" && NoneOf(Lower(TypeName(t)), {'/'})
    ensures ParseType(Lower(TypeName(t))) == Some(t)
  {
    LowerTypeName(t);
    LowerIdempotent(TypeName(t));
    ParseTypeName(t, Lower(TypeName(t)));
  }

  /**
   * BcArtifact.CreatePlatformArtifact: the artifact itself when it is a
   * platform artifact, otherwise the parse of the platform artifact URI for
   * the same kind and version on its account (BcArtifacts when it has none).
   */
  function CreatePlatformArtifact(x: Artifact): (r: Artifact)
    requires ValidArtifact(x)
    ensures IsPlatform(x) ==> r == x
    ensures !IsPlatform(x) ==>
      (r.account == Some(x.account.GetOr(DefaultStorageAccount))
       && r.kind == x.kind && r.version == x.version && r.country == PlatformIdentifier)
    ensures IsPlatform(r) && ValidArtifact(r)
  {
    if IsPlatform(x) then x
    else
      var account := x.account.GetOr(DefaultStorageAccount);
      var u := MakeArtifactUri(account, x.kind, x.version, PlatformIdentifier, false);
      FromMakeArtifactUri(account, x.kind, x.version, PlatformIdentifier, false);
      assert IsPlatform(Artifact(Some(account), x.kind, x.version, PlatformIdentifier, Some(u)));
      FromUri(u).value
  }

  /** Building the platform counterpart twice changes nothing more. */
  lemma CreatePlatformIdempotent(x: Artifact)
    requires ValidArtifact(x)
    ensures CreatePlatformArtifact(CreatePlatformArtifact(x)) == CreatePlatformArtifact(x)
  {
  }

  // ---------------------------------------------------------------------
  // Local cache folders

  /** GetLocalFolder: root \ lower-case kind \ version text \ country (kept as stored). */
  function LocalFolder(root: string, x: Artifact): string
    requires ValidArtifact(x)
  {
    Combine(Combine(Combine(root, Lower(TypeName(x.kind))), VersionText(x.version)), x.country)
  }

  /**
   * BcArtifact.FromLocalFolder: the text after the cache root and one
   * separator, split on both separators, read as kind \ version \ country.
   * A folder too short for the root strip throws; fields that do not parse
   * give no artifact.
   */
  function FromLocalFolder(root: string, folder: string, account: Option<Account>): (r: Outcome<Option<Artifact>>)
    ensures r.Fail? <==> |folder| < |root| + 1
    ensures r.Fail? ==> r.error == ArgumentOutOfRangeException
    ensures r.Ok? && r.value.Some? ==> ValidArtifact(r.value.value) && r.value.value.uri.None? && r.value.value.account == account
  {
    if |folder| < |root| + 1 then Fail(ArgumentOutOfRangeException)
    else
      var parts := Split(folder[|root| + 1..], PathSeparators);
      if |parts| < 3 then Ok(None)
      else
        var kind := ParseType(parts[0]);
        var version := ParseVersion(parts[1]);
        if kind.None? || version.None? then Ok(None)
        else Ok(Some(Artifact(account, kind.value, version.value, parts[2], None)))
  }

  /** The folder layout is three plain fields under the root. */
  lemma LocalFolderShape(root: string, x: Artifact)
    requires ValidArtifact(x) && |root| >= 1 && !IsSeparator(root[|root| - 1])
    requires |x.country| >= 1 && PlainSegment(x.country)
    ensures LocalFolder(root, x) == root + "\\" + Lower(TypeName(x.kind)) + "\\" + VersionText(x.version) + "\\" + x.country
  {
    var lt := Lower(TypeName(x.kind));
    LowerTypeName(x.kind);
    var vt := VersionText(x.version);
    VersionTextChars(x.version);
    assert NoneOf(vt, PathSeparators + {':'});
    PlainSegmentNoneOf(x.country, PathSeparators + {':'});
    CombinePlain(root, lt);
    CombinePlain(root + "\\" + lt, vt);
    CombinePlain(root + "\\" + lt + "\\" + vt, x.country);
  }

  /**
   * Reading back a cache folder gives the artifact it was computed from,
   * without its URI and with the account given to the read.
   */
  lemma FromLocalFolderRoundTrip(root: string, x: Artifact, account: Option<Account>)
    requires ValidArtifact(x) && |root| >= 1 && !IsSeparator(root[|root| - 1])
    requires |x.country| >= 1 && PlainSegment(x.country)
    ensures FromLocalFolder(root, LocalFolder(root, x), account) == Ok(Some(x.(account := account, uri := None)))
  {
    var folder := LocalFolder(root, x);
    var lt := Lower(TypeName(x.kind));
    var vt := VersionText(x.version);
    assert Split(folder[|root| + 1..], PathSeparators) == [lt, vt, x.country] by {
      LocalFolderFields(root, x);
    }
    assert ParseType(lt) == Some(x.kind) by {
      TypeFieldPlain(x.kind);
    }
    assert ParseVersion(vt) == Some(x.version) by {
      ParseVersionText(x.version);
    }
  }

  lemma LocalFolderFields(root: string, x: Artifact)
    requires ValidArtifact(x) && |root| >= 1 && !IsSeparator(root[|root| - 1])
    requires |x.country| >= 1 && PlainSegment(x.country)
    ensures |LocalFolder(root, x)| >= |root| + 1
    ensures Split(LocalFolder(root, x)[|root| + 1..], PathSeparators) == [Lower(TypeName(x.kind)), VersionText(x.version), x.country]
  {
    LocalFolderShape(root, x);
    var lt := Lower(TypeName(x.kind));
    LowerTypeName(x.kind);
    var vt := VersionText(x.version);
    VersionTextChars(x.version);
    assert NoneOf(vt, PathSeparators);
    PlainSegmentNoneOf(x.country, PathSeparators);
    var folder := LocalFolder(root, x);
    var rel := lt + ['\\'] + (vt + ['\\'] + x.country);
    assert folder == root + ['\\'] + rel;
    assert folder[|root| + 1..] == rel;
    SplitFields3(lt, vt, x.country, '\\', PathSeparators);
  }
}
