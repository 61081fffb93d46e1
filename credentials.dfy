/**
 * Server URI normalisation (UriHelper) and the key of a user/password
 * credential cache entry (AlUserPasswordCacheKey): "{server}_{instance}",
 * lower-cased, where the server part is the URI reduced to scheme and host.
 */
module Credentials {
  import opened Wrappers
  import opened Strings
  import opened Uris

  // ---------------------------------------------------------------------
  // UriHelper

  /**
   * UriHelper.NormalizeBcServerUri: a URI built from the scheme and the
   * host alone, so the port is the scheme's default, the path is "/" and
   * there is no query.
   */
  function NormalizeBcServerUri(u: Uri): (r: Uri)
    ensures r.scheme == u.scheme && r.host == u.host
    ensures r.port.None? && r.path == "/" && r.query == ""
  {
    Uri(u.scheme, u.host, None, "/", "")
  }

  /** Normalising twice is normalising once. */
  lemma NormalizeIdempotent(u: Uri)
    ensures NormalizeBcServerUri(NormalizeBcServerUri(u)) == NormalizeBcServerUri(u)
  {
  }

  /** Two URIs normalise to the same value exactly when they share scheme and host. */
  lemma NormalizeSameServer(u: Uri, v: Uri)
    ensures NormalizeBcServerUri(u) == NormalizeBcServerUri(v) <==> u.scheme == v.scheme && u.host == v.host
  {
  }

  /** The text of a normalised URI. */
  lemma NormalizedText(u: Uri)
    ensures UriText(NormalizeBcServerUri(u)) == u.scheme + "://" + u.host + "/"
  {
  }

  // ---------------------------------------------------------------------
  // Reading an absolute URI (new Uri(text))

  predicate IsLetter(c: char)
  {
    ('a' <= c <= 'z') || ('A' <= c <= 'Z')
  }

  predicate AllLetters(s: string)
  {
    forall i :: 0 <= i < |s| ==> IsLetter(s[i])
  }

  const HostEnd: set<char> := {'/', '?', ':'}

  /** The end of the leading run of s without any of the characters in stops. */
  function FieldEnd(s: string, stops: set<char>): (i: nat)
    ensures i <= |s| && NoneOf(s[..i], stops)
    ensures i < |s| ==> s[i] in stops
  {
    if NoneOf(s, stops) then |s| else IndexOfAny(s, stops)
  }

  /**
   * new Uri(text) for an absolute "scheme://host[:port][path][?query]":
   * the scheme is letters, the host is not empty, the port (when given) is
   * a decimal number up to 65535, and an empty path reads as "/". The
   * scheme and the host are lower-cased, as System.Uri does. Any other
   * text raises UriFormatException, a FormatException.
   */
  function ParseUri(s: string): (r: Outcome<Uri>)
    ensures r.Fail? ==> r.error == FormatException
    ensures r.Ok? ==> r.value.host != [] && r.value.path != [] && Lower(r.value.host) == r.value.host
  {
    var k := FieldEnd(s, {':'});
    var scheme := s[..k];
    if k == |s| || scheme == [] || !AllLetters(scheme) || !StartsWith(s[k..], "://") then Fail(FormatException)
    else
      var rest := s[k + 3..];
      var e := FieldEnd(rest, HostEnd);
      var host := rest[..e];
      var after := rest[e..];
      if host == [] then Fail(FormatException)
      else
        var p := if after != [] && after[0] == ':' then FieldEnd(after[1..], {'/', '?'}) + 1 else 0;
        var portText := if p == 0 then "" else after[1..p];
        var port := if p == 0 then None else ParseNat(portText);
        if p > 0 && (port.None? || port.value > 65535) then Fail(FormatException)
        else
          var tail := after[p..];
          var q := FieldEnd(tail, {'?'});
          var path := if q == 0 then "/" else tail[..q];
          LowerIdempotent(host);
          Ok(Uri(Lower(scheme), Lower(host), port, path, tail[q..]))
  }

  /** The empty text is not a URI. */
  lemma EmptyIsNotUri()
    ensures ParseUri("").Fail?
  {
  }

  // ---------------------------------------------------------------------
  // AlUserPasswordCacheKey

  /** A user name and password; NetworkCredential reads a missing one as "". */
  datatype Credential = Credential(userName: string, password: string)

  /** new NetworkCredential(userName, password): turns a missing user name or password into "". */
  function CredentialOf(userName: Option<string>, password: Option<string>): (c: Credential)
    ensures userName.Some? ==> c.userName == userName.value
    ensures password.Some? ==> c.password == password.value
    ensures userName.None? ==> c.userName == ""
    ensures password.None? ==> c.password == ""
  {
    Credential(userName.GetOr(""), password.GetOr(""))
  }

  /** The key of a credential cache entry with the server URI and instance it names. */
  datatype CacheKey = CacheKey(serverUri: Uri, serverInstance: string, key: string)

  /** The server part of a key: the normalised URI text, lower-cased, without trailing slashes. */
  function ServerPart(u: Uri): string
  {
    TrimEnd(Lower(UriText(NormalizeBcServerUri(u))), '/')
  }

  /**
   * new AlUserPasswordCacheKey(uri, serverInstance): the URI and the
   * instance are kept as given, the key is "{server part}_{instance}" in
   * lower case.
   */
  function KeyOf(u: Uri, serverInstance: string): (k: CacheKey)
    ensures k.serverUri == u && k.serverInstance == serverInstance
    ensures k.key == ServerPart(u) + "_" + Lower(serverInstance)
  {
    CacheKey(u, serverInstance, ServerPart(u) + "_" + Lower(serverInstance))
  }

  /**
   * The two sides of the last '_' of a key; without any '_' the server
   * text is empty and the whole key is the instance.
   */
  function KeyParts(key: string): (r: (string, string))
    ensures NoneOf(r.1, {'_'})
    ensures !NoneOf(key, {'_'}) ==> key == r.0 + "_" + r.1
    ensures NoneOf(key, {'_'}) ==> r == ("", key)
  {
    var parts := Split(key, {'_'});
    var server := Join(parts[..|parts| - 1], '_');
    JoinSplit(key, '_');
    assert parts == parts[..|parts| - 1] + [parts[|parts| - 1]];
    if NoneOf(key, {'_'}) then
      SplitNone(key, {'_'});
      (server, parts[|parts| - 1])
    else
      JoinSnoc(parts[..|parts| - 1], parts[|parts| - 1], '_');
      (server, parts[|parts| - 1])
  }

  /** The characters of a + "_" + b at the '_' and after it. */
  lemma UnderscoreAt(a: string, b: string)
    ensures (a + "_" + b)[|a|] == '_'
    ensures forall j :: 0 <= j < |b| ==> (a + "_" + b)[|a| + 1 + j] == b[j]
  {
  }

  /** A key splits in one way only around a '_' followed by text without one. */
  lemma LastUnderscoreUnique(a: string, b: string, c: string, d: string)
    requires a + "_" + b == c + "_" + d
    requires NoneOf(b, {'_'}) && NoneOf(d, {'_'})
    ensures a == c && b == d
  {
    var k := a + "_" + b;
    if |b| != |d| {
      UnderscoreAt(a, b);
      UnderscoreAt(c, d);
      assert false;
    }
    assert b == k[|k| - |b|..] == d;
    assert a == k[..|a|] == c;
  }

  /**
   * new AlUserPasswordCacheKey(key), also the implicit conversion from a
   * string: the key is kept verbatim, the instance is the text after the
   * last '_' and the server URI is read from the text before it. A key
   * without '_' leaves an empty server text, which is not a URI.
   */
  function FromKeyString(key: string): (r: Outcome<CacheKey>)
    ensures r.Ok? ==> r.value.key == key
    ensures r.Ok? ==> key == KeyParts(key).0 + "_" + r.value.serverInstance && NoneOf(r.value.serverInstance, {'_'})
    ensures r.Ok? ==> ParseUri(KeyParts(key).0) == Ok(r.value.serverUri)
    ensures r.Fail? ==> r.error == FormatException
    ensures NoneOf(key, {'_'}) ==> r.Fail?
  {
    var (server, instance) := KeyParts(key);
    var uri := ParseUri(server);
    if uri.Fail? then Fail(uri.error)
    else Ok(CacheKey(uri.value, instance, key))
  }

  /** Equals and GetHashCode compare the key text only. */
  predicate SameKey(a: CacheKey, b: CacheKey)
  {
    a.key == b.key
  }

  /** URIs that differ only in port, path, query or case, and instances that differ in case, give equal keys. */
  lemma KeyIgnoresPortPathCase(u: Uri, v: Uri, i: string, j: string)
    requires Lower(u.scheme) == Lower(v.scheme) && Lower(u.host) == Lower(v.host)
    requires Lower(i) == Lower(j)
    ensures SameKey(KeyOf(u, i), KeyOf(v, j))
  {
    NormalizedText(u);
    NormalizedText(v);
    LowerConcat(u.scheme + "://" + u.host, "/");
    LowerConcat(u.scheme + "://", u.host);
    LowerConcat(u.scheme, "://");
    LowerConcat(v.scheme + "://" + v.host, "/");
    LowerConcat(v.scheme + "://", v.host);
    LowerConcat(v.scheme, "://");
  }

  /** The lower-cased text of a normalised URI. */
  lemma LowerNormalizedText(u: Uri)
    ensures Lower(UriText(NormalizeBcServerUri(u))) == Lower(u.scheme) + "://" + Lower(u.host) + "/"
  {
    NormalizedText(u);
    var sep := "://";
    var slash := "/";
    LowerNoUpper(sep);
    LowerNoUpper(slash);
    LowerConcat(u.scheme + sep + u.host, slash);
    LowerConcat(u.scheme + sep, u.host);
    LowerConcat(u.scheme, sep);
  }

  /** With a plain host, the server part is "scheme://host" in lower case. */
  lemma ServerPartShape(u: Uri)
    requires u.host != [] && NoneOf(u.host, HostEnd)
    ensures ServerPart(u) == Lower(u.scheme) + "://" + Lower(u.host)
  {
    LowerNormalizedText(u);
    var x := Lower(u.scheme) + "://" + Lower(u.host);
    assert Lower(u.host)[|u.host| - 1] == LowerChar(u.host[|u.host| - 1]);
    assert x[|x| - 1] == Lower(u.host)[|u.host| - 1];
    assert x + "/" == (x + "/")[..|x|] + ['/'];
    assert (x + "/")[..|x|] == x;
  }

  /** "scheme://host" with a letters-only scheme and a plain lower-case host reads back as that URI. */
  lemma ParseServerPart(scheme: string, host: string)
    requires scheme != [] && AllLetters(scheme) && Lower(scheme) == scheme
    requires host != [] && NoneOf(host, HostEnd) && Lower(host) == host
    ensures ParseUri(scheme + "://" + host) == Ok(Uri(scheme, host, None, "/", ""))
  {
    var s := scheme + "://" + host;
    assert s[|scheme|] == ':';
    assert s[..|scheme|] == scheme;
    assert NoneOf(s[..|scheme|], {':'});
    assert FieldEnd(s, {':'}) == |scheme|;
    assert s[|scheme|..][..3] == "://";
    assert s[|scheme| + 3..] == host;
    assert FieldEnd(host, HostEnd) == |host|;
    assert host[..|host|] == host;
  }

  /** The key of a plain URI and instance: "scheme://host_instance" in lower case, one '_' in it. */
  lemma KeyTextShape(u: Uri, serverInstance: string)
    requires u.scheme != [] && AllLetters(u.scheme)
    requires u.host != [] && NoneOf(u.host, HostEnd + {'_'})
    requires NoneOf(serverInstance, {'_'})
    ensures var server := Lower(u.scheme) + "://" + Lower(u.host);
      && KeyOf(u, serverInstance).key == server + "_" + Lower(serverInstance)
      && NoneOf(server, {'_'}) && NoneOf(Lower(serverInstance), {'_'})
      && AllLetters(Lower(u.scheme)) && NoneOf(Lower(u.host), HostEnd)
  {
    var ls, lh := Lower(u.scheme), Lower(u.host);
    var server := ls + "://" + lh;
    ServerPartShape(u);
    LowerKeepsOut(u.host, '/');
    LowerKeepsOut(u.host, '?');
    LowerKeepsOut(u.host, ':');
    LowerKeepsOut(u.host, '_');
    LowerKeepsOut(serverInstance, '_');
    assert AllLetters(ls);
    assert NoneOf(server, {'_'}) by {
      assert forall k :: 0 <= k < |server| ==> server[k] in ls || server[k] in "://" || server[k] in lh;
    }
  }

  /** Reading "server_instance" with an instance and a server text free of '_'. */
  lemma FromKeyStringOf(server: string, serverInstance: string)
    requires NoneOf(server, {'_'}) && NoneOf(serverInstance, {'_'})
    requires ParseUri(server).Ok?
    ensures FromKeyString(server + "_" + serverInstance)
      == Ok(CacheKey(ParseUri(server).value, serverInstance, server + "_" + serverInstance))
  {
    var key := server + "_" + serverInstance;
    assert key[|server|] == '_';
    assert !NoneOf(key, {'_'});
    LastUnderscoreUnique(KeyParts(key).0, KeyParts(key).1, server, serverInstance);
  }

  /**
   * For an instance without '_', reading the key of (uri, instance) gives
   * back the lower-cased instance and the normalised URI in lower case.
   */
  lemma KeyRoundTrip(u: Uri, serverInstance: string)
    requires u.scheme != [] && AllLetters(u.scheme)
    requires u.host != [] && NoneOf(u.host, HostEnd + {'_'})
    requires NoneOf(serverInstance, {'_'})
    ensures FromKeyString(KeyOf(u, serverInstance).key)
      == Ok(CacheKey(Uri(Lower(u.scheme), Lower(u.host), None, "/", ""), Lower(serverInstance), KeyOf(u, serverInstance).key))
  {
    var ls, lh := Lower(u.scheme), Lower(u.host);
    KeyTextShape(u, serverInstance);
    LowerIdempotent(u.scheme);
    LowerIdempotent(u.host);
    ParseServerPart(ls, lh);
    FromKeyStringOf(ls + "://" + lh, Lower(serverInstance));
  }

  /** A prefix of a lower-case text is lower case. */
  lemma LowerPrefix(s: string, p: string)
    requires StartsWith(s, p) && Lower(s) == s
    ensures Lower(p) == p
  {
    assert forall k :: 0 <= k < |p| ==> p[k] == s[k] && Lower(s)[k] == LowerChar(s[k]);
  }

  /** The (uri, instance) key keeps the instance's case while the key text is lower case. */
  lemma KeyKeepsInstanceCase(u: Uri, serverInstance: string)
    ensures KeyOf(u, serverInstance).serverInstance == serverInstance
    ensures Lower(KeyOf(u, serverInstance).key) == KeyOf(u, serverInstance).key
  {
    var p := ServerPart(u);
    var full := Lower(UriText(NormalizeBcServerUri(u)));
    LowerIdempotent(UriText(NormalizeBcServerUri(u)));
    LowerPrefix(full, p);
    LowerIdempotent(serverInstance);
    var underscore := "_";
    LowerNoUpper(underscore);
    LowerConcat(p, underscore);
    LowerConcat(p + underscore, Lower(serverInstance));
  }
}
