/**
 * The parts of System.Uri the library reads: scheme, host, an explicit port,
 * the absolute path and the query (empty, or starting with '?').
 */
module Uris {
  import opened Wrappers
  import opened Strings

  datatype Uri = Uri(scheme: string, host: string, port: Option<nat>, path: string, query: string)

  /** Uri.ToString(): scheme "://" host [":" port] path query. */
  function UriText(u: Uri): string
  {
    u.scheme + "://" + u.host
    + (if u.port.Some? then ":" + NatToString(u.port.value) else "")
    + u.path + u.query
  }
}
