/**
 * External NuGet feed endpoints (NugetExternalFeedEndpoint): the
 * configuration string of VSS_NUGET_EXTERNAL_FEED_ENDPOINTS read into a
 * list of endpoints with optional credentials, and the lookup of the
 * endpoint that serves a URI.
 *
 * The JSON text is taken as already parsed; the environment variable is a
 * parameter.
 */
module NugetFeeds {
  import opened Wrappers
  import opened Strings
  import opened Credentials

  /**
   * One child token of the "endpointCredentials" value: an object with its
   * "endpoint", "username" and "password" string values (missing ones are
   * null), or any other token, whose string lookup throws.
   */
  datatype JsonElement =
    | EntryObject(endpoint: Option<string>, username: Option<string>, password: Option<string>)
    | NotAnObject

  /**
   * The "endpointCredentials" value: an array of tokens, an object with
   * some number of properties, or a scalar (null, string, number, boolean).
   */
  datatype CredentialsValue =
    | JsonArray(elements: seq<JsonElement>)
    | JsonObject(propertyCount: nat)
    | JsonScalar

  /**
   * The configuration string after JObject.Parse: text that does not parse
   * (null included), or an object whose "endpointCredentials" property may
   * be missing.
   */
  datatype Document =
    | Unparsable
    | JsonDocument(endpointCredentials: Option<CredentialsValue>)

  /** An endpoint URI (possibly null) and its credential (null when none was given). */
  datatype FeedEndpoint = FeedEndpoint(endpoint: Option<string>, credential: Option<Credential>)

  predicate NullOrEmpty(s: Option<string>)
  {
    s.None? || s.value == ""
  }

  /** The endpoint built from one array element. */
  function EndpointOf(e: JsonElement): (r: FeedEndpoint)
    requires e.EntryObject?
    ensures r.endpoint == e.endpoint
    ensures r.credential.None? <==> NullOrEmpty(e.username) && NullOrEmpty(e.password)
    ensures r.credential.Some? ==> r.credential.value == CredentialOf(e.username, e.password)
  {
    var creds := if !NullOrEmpty(e.username) || !NullOrEmpty(e.password)
      then Some(CredentialOf(e.username, e.password))
      else None;
    FeedEndpoint(e.endpoint, creds)
  }

  predicate AllObjects(elements: seq<JsonElement>)
  {
    forall i :: 0 <= i < |elements| ==> elements[i].EntryObject?
  }

  /** One endpoint per array element, in order. */
  function Endpoints(elements: seq<JsonElement>): (r: seq<FeedEndpoint>)
    requires AllObjects(elements)
    ensures |r| == |elements|
    ensures forall i :: 0 <= i < |r| ==> r[i] == EndpointOf(elements[i])
  {
    seq(|elements|, i requires 0 <= i < |elements| => EndpointOf(elements[i]))
  }

  /** The string Load reads: the argument, or the environment variable when the argument is null. */
  function Configuration(authString: Option<Document>, environment: Option<Document>): (d: Document)
    ensures authString.Some? ==> d == authString.value
    ensures authString.None? && environment.Some? ==> d == environment.value
    ensures authString.None? && environment.None? ==> d == Unparsable
  {
    match authString
    case Some(text) => text
    case None => environment.GetOr(Unparsable)
  }

  /**
   * The tokens a foreach over the value visits: an array's elements, an
   * object's properties (which are not objects), and nothing for a scalar.
   */
  function Children(v: CredentialsValue): (r: seq<JsonElement>)
    ensures v.JsonArray? ==> r == v.elements
    ensures v.JsonObject? ==> |r| == v.propertyCount && forall i :: 0 <= i < |r| ==> r[i].NotAnObject?
    ensures v.JsonScalar? ==> r == []
  {
    match v
    case JsonArray(elements) => elements
    case JsonObject(n) => seq(n, _ => NotAnObject)
    case JsonScalar => []
  }

  /**
   * A configuration Load accepts: an object with an "endpointCredentials"
   * property whose children are all objects.
   */
  predicate WellFormed(d: Document)
  {
    d.JsonDocument? && d.endpointCredentials.Some? && AllObjects(Children(d.endpointCredentials.value))
  }

  /** The endpoints of an accepted configuration. */
  function Listed(d: Document): seq<FeedEndpoint>
    requires WellFormed(d)
  {
    Endpoints(Children(d.endpointCredentials.value))
  }

  /**
   * A scalar or an empty object as "endpointCredentials" is accepted and
   * lists no endpoint; an object with properties is refused.
   */
  lemma NonArrayCredentials(v: CredentialsValue)
    requires !v.JsonArray?
    ensures WellFormed(JsonDocument(Some(v))) <==> v.JsonScalar? || v.propertyCount == 0
    ensures WellFormed(JsonDocument(Some(v))) ==> Listed(JsonDocument(Some(v))) == []
  {
    if v.JsonObject? && v.propertyCount > 0 {
      assert Children(v)[0].NotAnObject?;
    }
  }

  /**
   * Load: every failure while reading the configuration is reported as a
   * FormatException; otherwise one endpoint per element, in input order.
   */
  method Load(authString: Option<Document>, environment: Option<Document>) returns (r: Outcome<seq<FeedEndpoint>>)
    ensures var d := Configuration(authString, environment);
      && (r.Ok? <==> WellFormed(d))
      && (r.Ok? ==> r.value == Listed(d))
    ensures r.Fail? ==> r.error == FormatException
  {
    var d := Configuration(authString, environment);
    if d.Unparsable? || d.endpointCredentials.None? {
      return Fail(FormatException);
    }
    var elements := Children(d.endpointCredentials.value);
    var endpoints: seq<FeedEndpoint> := [];
    var i := 0;
    while i < |elements|
      invariant 0 <= i <= |elements| && |endpoints| == i
      invariant forall j :: 0 <= j < i ==> elements[j].EntryObject? && endpoints[j] == EndpointOf(elements[j])
    {
      if elements[i].NotAnObject? {
        return Fail(FormatException);
      }
      endpoints := endpoints + [EndpointOf(elements[i])];
      i := i + 1;
    }
    return Ok(endpoints);
  }

  /** The predicate of LoadForUri: the lower-cased URI starts with the lower-cased endpoint. */
  predicate Matches(uri: string, e: FeedEndpoint)
  {
    e.endpoint.Some? && StartsWith(Lower(uri), Lower(e.endpoint.value))
  }

  /** An endpoint the search passes over: its URI is not null and does not match. */
  predicate PassedOver(uri: string, e: FeedEndpoint)
  {
    e.endpoint.Some? && !Matches(uri, e)
  }

  /**
   * FirstOrDefault over the endpoints, then the KeyNotFoundException for
   * no match; a null endpoint URI reached before any match raises
   * NullReferenceException.
   */
  function FirstMatch(uri: string, endpoints: seq<FeedEndpoint>): (r: Outcome<FeedEndpoint>)
    ensures r.Ok? ==> exists i :: (0 <= i < |endpoints| && r.value == endpoints[i] && Matches(uri, endpoints[i])
      && forall j :: 0 <= j < i ==> PassedOver(uri, endpoints[j]))
    ensures (r == Fail(KeyNotFoundException)) <==> forall j :: 0 <= j < |endpoints| ==> PassedOver(uri, endpoints[j])
    ensures r.Fail? ==> r.error == KeyNotFoundException || r.error == NullReferenceException
    ensures r == Fail(NullReferenceException) ==> exists i :: (0 <= i < |endpoints| && endpoints[i].endpoint.None?
      && forall j :: 0 <= j < i ==> PassedOver(uri, endpoints[j]))
    decreases |endpoints|
  {
    if endpoints == [] then Fail(KeyNotFoundException)
    else if endpoints[0].endpoint.None? then Fail(NullReferenceException)
    else if Matches(uri, endpoints[0]) then Ok(endpoints[0])
    else
      var r := FirstMatch(uri, endpoints[1..]);
      assert r.Ok? ==> exists i :: (0 < i < |endpoints| && r.value == endpoints[i] && Matches(uri, endpoints[i])
        && forall j :: 0 <= j < i ==> PassedOver(uri, endpoints[j]));
      r
  }

  /** LoadForUri: Load, then the first endpoint serving the URI. */
  method LoadForUri(uri: string, authString: Option<Document>, environment: Option<Document>) returns (r: Outcome<FeedEndpoint>)
    ensures var d := Configuration(authString, environment);
      && (!WellFormed(d) ==> r == Fail(FormatException))
      && (WellFormed(d) ==> r == FirstMatch(uri, Listed(d)))
  {
    var all := Load(authString, environment);
    if all.Fail? {
      return Fail(all.error);
    }
    r := FirstMatch(uri, all.value);
  }

  /** The match depends on the URI only up to case. */
  lemma {:induction false} MatchIgnoresCase(uri: string, other: string, endpoints: seq<FeedEndpoint>)
    requires Lower(uri) == Lower(other)
    ensures FirstMatch(uri, endpoints) == FirstMatch(other, endpoints)
    decreases |endpoints|
  {
    if endpoints != [] && endpoints[0].endpoint.Some? && !Matches(uri, endpoints[0]) {
      MatchIgnoresCase(uri, other, endpoints[1..]);
    }
  }

  /** An endpoint serves every URI that extends it, whatever the case of either. */
  lemma ExtensionMatches(base: string, rest: string, endpoint: string, c: Option<Credential>, more: seq<FeedEndpoint>)
    requires Lower(endpoint) == Lower(base)
    ensures FirstMatch(base + rest, [FeedEndpoint(Some(endpoint), c)] + more) == Ok(FeedEndpoint(Some(endpoint), c))
  {
    LowerConcat(base, rest);
    StartsWithConcat(Lower(base), Lower(rest));
  }

  /** Adding endpoints after a match does not change the result. */
  lemma {:induction false} FirstMatchKeepsEarlier(uri: string, endpoints: seq<FeedEndpoint>, more: seq<FeedEndpoint>)
    requires FirstMatch(uri, endpoints).Ok?
    ensures FirstMatch(uri, endpoints + more) == FirstMatch(uri, endpoints)
    decreases |endpoints|
  {
    assert endpoints != [];
    if !Matches(uri, endpoints[0]) {
      assert (endpoints + more)[1..] == endpoints[1..] + more;
      FirstMatchKeepsEarlier(uri, endpoints[1..], more);
    }
  }
}
