/**
 * The bgp-api.net client: the host prefix of a queried address in CIDR notation (section 3.1
 * of RFC 4632), the search URL, and the extraction of the result. Sending the request and
 * decoding its JSON body are a given reply.
 */
module BgpApiClient {
  import opened Wrappers
  import opened Text
  import opened Http

  datatype BgpApiMeta = BgpApiMeta(
    sourceType: Option<string>,
    sourceId: Option<string>,
    originAsns: Option<seq<string>>,
    kind: Option<string>)

  datatype BgpApiResult = BgpApiResult(prefix: string, meta: seq<BgpApiMeta>)
  datatype BgpApiResponse = BgpApiResponse(kind: string, prefix: string, result: Option<BgpApiResult>)

  const SEARCH_BASE: string := "https://rest.bgp-api.net/api/v1/prefix/"
  const SEARCH_SUFFIX: string := "/search"

  /**
   * The queried text with a host prefix length appended: `/128` when it holds a `:` (IPv6),
   * `/32` otherwise. The length is appended even when the text already has one.
   */
  function HostPrefix(ip: string): (p: string)
    ensures ip <= p
    ensures EndsWith(p, "/128") <==> ':' in ip
    ensures EndsWith(p, "/32") <==> ':' !in ip
    ensures |p| == |ip| + (if ':' in ip then 4 else 3)
  {
    var p := if ':' in ip then ip + "/128" else ip + "/32";
    assert p[|p| - 1] == (if ':' in ip then '8' else '2');
    p
  }

  /** Different query texts give different prefixes. */
  lemma HostPrefixInjective(a: string, b: string)
    requires HostPrefix(a) == HostPrefix(b)
    ensures a == b
  {
    var p := HostPrefix(a);
    if ':' in a {
      assert ':' in b;
      assert p == a + "/128" == b + "/128";
      assert a == p[..|p| - 4] == b;
    } else {
      assert ':' !in b;
      assert p == a + "/32" == b + "/32";
      assert a == p[..|p| - 3] == b;
    }
  }

  /** A query that already names a network gets a second length: `10.0.0.0/8` becomes `10.0.0.0/8/32`. */
  lemma HostPrefixAppendsUnconditionally()
    ensures HostPrefix("10.0.0.0/8") == "10.0.0.0/8/32"
  {
    var s := "10.0.0.0/8";
    forall i | 0 <= i < |s| ensures s[i] != ':' {}
  }

  /** The same for an IPv6 network: `2001:db8::/32` becomes `2001:db8::/32/128`. */
  lemma HostPrefixAppendsUnconditionallyV6()
    ensures HostPrefix("2001:db8::/32") == "2001:db8::/32/128"
  {
    assert "2001:db8::/32"[4] == ':';
  }

  /** The search URL of a queried address. */
  function SearchUrl(ip: string): (url: string)
    ensures SEARCH_BASE <= url && EndsWith(url, SEARCH_SUFFIX)
    ensures |url| == |SEARCH_BASE| + |HostPrefix(ip)| + |SEARCH_SUFFIX|
    ensures url[|SEARCH_BASE|..|url| - |SEARCH_SUFFIX|] == HostPrefix(ip)
  {
    var url := SEARCH_BASE + HostPrefix(ip) + SEARCH_SUFFIX;
    assert url[|SEARCH_BASE|..|url| - |SEARCH_SUFFIX|] == HostPrefix(ip);
    url
  }

  /**
   * Searches bgp-api.net for the queried address. A failed request, a status other than 2xx,
   * an undecodable body, or an answer without a result is an error; otherwise the result is
   * returned as it came.
   */
  function Query(ip: string, fetch: string -> Reply<BgpApiResponse>): (r: Result<BgpApiResult, string>)
    ensures r.Ok? <==> Body(fetch(SearchUrl(ip))).Ok? && Body(fetch(SearchUrl(ip))).value.result.Some?
    ensures r.Ok? ==> r.value == Body(fetch(SearchUrl(ip))).value.result.value
  {
    match Body(fetch(SearchUrl(ip)))
    case Err(e) => Err(e)
    case Ok(response) =>
      match response.result
      case Some(result) => Ok(result)
      case None => Err("response without result")
  }
}
