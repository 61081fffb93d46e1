/**
 * CdnHelper: the account-to-CDN host table and the rewrite of a blob URI
 * onto the CDN front door.
 */
module Cdn {
  import opened Wrappers
  import opened Strings
  import opened Uris
  import opened Artifacts

  /** CdnHelper.Resolve: a total lookup, every account has a front-door host. */
  function Resolve(a: Account): (h: string)
    ensures IsFrontDoorHost(h)
    ensures h == CdnHost(a)
  {
    CdnHostShape(a);
    FrontDoorHostLower(CdnLabel(a));
    FrontDoorHostSuffix(CdnLabel(a));
    CdnHost(a)
  }

  /** The account a host's first dot label names (Enum.TryParse ignoring case). */
  function FirstLabelAccount(host: string): Option<Account>
  {
    ParseAccount(Split(host, {'.'})[0])
  }

  /**
   * CdnHelper.ResolveUri: when the first host label names an account, the
   * host becomes "{account lower-case}-{cdn host}"; otherwise the URI is
   * returned as it is. Scheme, port, path and query are kept.
   */
  function ResolveUri(u: Uri): (r: Uri)
    ensures FirstLabelAccount(u.host).None? ==> r == u
    ensures FirstLabelAccount(u.host).Some? ==>
      r == u.(host := Lower(AccountName(FirstLabelAccount(u.host).value)) + "-" + CdnHost(FirstLabelAccount(u.host).value))
  {
    match FirstLabelAccount(u.host)
    case None => u
    case Some(a) => u.(host := Lower(AccountName(a)) + "-" + Resolve(a))
  }

  /** No account name holds a '-', so a label with one names no account. */
  lemma DashNamesNoAccount(s: string)
    requires '-' in s
    ensures ParseAccount(s).None?
  {
    LowerKeepsOut(s, '-');
    assert '-' in Lower(s);
    assert '-' !in "bcartifacts" && '-' !in "bcinsider" && '-' !in "bcpublicpreview";
  }

  /** The rewritten host's first label is "{account}-{cdn label}". */
  lemma ResolvedFirstLabel(a: Account)
    ensures Split(Lower(AccountName(a)) + "-" + CdnHost(a), {'.'})[0] == Lower(AccountName(a)) + "-" + CdnLabel(a)
  {
    var name := Lower(AccountName(a));
    AccountNameLowerAlnum(a);
    CdnHostShape(a);
    FrontDoorHostSplit(CdnLabel(a));
    var first := name + ['-'] + CdnLabel(a);
    assert name + "-" + CdnHost(a) == first + ['.'] + "b02.azurefd.net";
    assert NoneOf(first, {'.'});
    FirstField(first, '.', "b02.azurefd.net");
  }

  /** Resolving twice is resolving once: the rewritten label names no account. */
  lemma ResolveUriIdempotent(u: Uri)
    ensures ResolveUri(ResolveUri(u)) == ResolveUri(u)
  {
    var r := ResolveUri(u);
    if FirstLabelAccount(u.host).Some? {
      var a := FirstLabelAccount(u.host).value;
      ResolvedFirstLabel(a);
      var first := Lower(AccountName(a)) + "-" + CdnLabel(a);
      assert first[|Lower(AccountName(a))|] == '-';
      DashNamesNoAccount(first);
    }
  }

  /** A rewritten URI still names its account, through the front-door rule of FromUri. */
  lemma ResolveUriKeepsAccount(u: Uri)
    requires FirstLabelAccount(u.host).Some?
    ensures HostAccount(ResolveUri(u).host) == Some(FirstLabelAccount(u.host))
  {
    var a := FirstLabelAccount(u.host).value;
    CdnHostLower(a);
    HostAccountOfAccountUri(a, true);
  }

  /** Resolving a blob base URI gives the CDN base URI of the same account and kind. */
  lemma ResolveAccountUri(a: Account, t: ArtifactType)
    ensures ResolveUri(GetAccountUri(a, t, false)) == GetAccountUri(a, t, true)
  {
    var name := Lower(AccountName(a));
    AccountNameLowerAlnum(a);
    BlobHostLower(a);
    BlobDomainSplit();
    assert name + BlobDomain == name + ['.'] + "blob.core.windows.net";
    FirstField(name, '.', "blob.core.windows.net");
    AccountNameLower(a);
    LowerIdempotent(AccountName(a));
    ParseAccountName(a, name);
    assert FirstLabelAccount(GetAccountUri(a, t, false).host) == Some(a);
    CdnHostLower(a);
  }
}
