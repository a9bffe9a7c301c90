/**
 * The RPKI validity client: the URL of a route origin validation query (section 2 of
 * RFC 6811) and the mapping from the service's answer to a validity record. Sending the
 * request and decoding its JSON body are a given reply.
 */
module RpkiClient {
  import opened Wrappers
  import opened Text
  import opened Http

  datatype Vrp = Vrp(asn: string, prefix: string, maxLength: Option<string>)

  /** The VRPs the validity state lists; the unmatched lists are not used and not modelled. */
  datatype VrpsInfo = VrpsInfo(matched: seq<Vrp>)

  datatype ValidityState = ValidityState(state: string, description: string, vrps: Option<VrpsInfo>)
  datatype Route = Route(originAsn: string, prefix: string)
  datatype ValidatedRoute = ValidatedRoute(route: Route, validity: ValidityState, vrps: Option<seq<Vrp>>)
  datatype RpkiResponse = RpkiResponse(validatedRoute: Option<ValidatedRoute>, generatedTime: Option<string>)

  datatype RpkiValidity = RpkiValidity(
    asn: string,
    prefix: string,
    validity: string,
    reason: Option<string>,
    vrps: Option<seq<Vrp>>)

  /** The state reported for a route the service has no validated entry for. */
  const NOT_FOUND: string := "not-found"

  /** The path of a validity query, between the base URL and the ASN. */
  const VALIDITY_PATH: string := "/api/v1/validity/"

  datatype Client = Client(baseUrl: string)

  /** A client for a base URL with every trailing `/` removed. */
  function New(baseUrl: string): (c: Client)
    ensures c.baseUrl <= baseUrl
    ensures c.baseUrl == [] || c.baseUrl[|c.baseUrl| - 1] != '/'
    ensures forall i :: |c.baseUrl| <= i < |baseUrl| ==> baseUrl[i] == '/'
  {
    Client(TrimEndChar(baseUrl, '/'))
  }

  /** Trailing slashes make no difference, and a base URL without one is kept as it is. */
  lemma {:induction false} NewIgnoresTrailingSlashes(baseUrl: string, n: nat)
    ensures New(baseUrl + Slashes(n)) == New(baseUrl)
    ensures New(New(baseUrl).baseUrl) == New(baseUrl)
    decreases n
  {
    if n > 0 {
      assert baseUrl + Slashes(n) == (baseUrl + Slashes(n - 1)) + "/";
      NewIgnoresTrailingSlashes(baseUrl, n - 1);
    } else {
      assert baseUrl + Slashes(0) == baseUrl;
    }
    var b := New(baseUrl).baseUrl;
    if b != [] {
      assert TrimEndChar(b, '/') == b;
    }
  }

  function Slashes(n: nat): string {
    if n == 0 then [] else Slashes(n - 1) + "/"
  }

  /** The query URL: the base URL, the validity path, the ASN, `/`, the prefix. */
  function QueryUrl(c: Client, prefix: string, asn: string): (url: string)
    ensures c.baseUrl + VALIDITY_PATH <= url
    ensures |url| == |c.baseUrl| + |VALIDITY_PATH| + |asn| + 1 + |prefix|
    ensures url[|url| - |prefix|..] == prefix && url[|url| - |prefix| - 1] == '/'
  {
    c.baseUrl + VALIDITY_PATH + asn + "/" + prefix
  }

  /**
   * The ASN comes before the prefix, so a prefix holding `/` is still read back: the ASN is
   * the text up to the first `/` after the validity path, and the prefix all the rest.
   */
  lemma QueryUrlReadsBack(c: Client, prefix: string, asn: string)
    requires '/' !in asn
    ensures var url := QueryUrl(c, prefix, asn);
      var rest := url[|c.baseUrl| + |VALIDITY_PATH|..];
      && c.baseUrl + VALIDITY_PATH <= url
      && IndexOf(rest, '/') == Some(|asn|)
      && rest[..|asn|] == asn && rest[|asn| + 1..] == prefix
  {
    var url := QueryUrl(c, prefix, asn);
    var rest := url[|c.baseUrl| + |VALIDITY_PATH|..];
    assert rest == asn + ['/'] + prefix;
    IndexOfFirst(asn, '/', prefix);
  }

  /**
   * The validity record of a decoded answer: the state of the validated route with the
   * route's own VRPs, or `not-found` with none; the ASN and the prefix are the ones asked for.
   */
  function ToValidity(asn: string, prefix: string, response: RpkiResponse): (v: RpkiValidity)
    ensures v.asn == asn && v.prefix == prefix && v.reason.None?
    ensures response.validatedRoute.None? ==> v.validity == NOT_FOUND && v.vrps.None?
    ensures response.validatedRoute.Some? ==>
      v.validity == response.validatedRoute.value.validity.state
      && v.vrps == response.validatedRoute.value.vrps
  {
    match response.validatedRoute
    case Some(validated) => RpkiValidity(asn, prefix, validated.validity.state, None, validated.vrps)
    case None => RpkiValidity(asn, prefix, NOT_FOUND, None, None)
  }

  /** The three origin validation states of RFC 6811, section 2, as the service spells them. */
  predicate IsOriginValidationState(s: string) {
    s == "valid" || s == "invalid" || s == NOT_FOUND
  }

  /** When the service reports one of the three states, the record carries one of them too. */
  lemma ValidityIsOriginValidationState(asn: string, prefix: string, response: RpkiResponse)
    requires response.validatedRoute.Some? ==> IsOriginValidationState(response.validatedRoute.value.validity.state)
    ensures IsOriginValidationState(ToValidity(asn, prefix, response).validity)
  {
  }

  /**
   * Queries the validity of `prefix` announced by `asn`. A failed request, a status other
   * than 2xx or an undecodable body is an error.
   */
  function Query(c: Client, prefix: string, asn: string, fetch: string -> Reply<RpkiResponse>)
    : (r: Result<RpkiValidity, string>)
    ensures r.Ok? <==> Body(fetch(QueryUrl(c, prefix, asn))).Ok?
    ensures r.Ok? ==> r.value == ToValidity(asn, prefix, Body(fetch(QueryUrl(c, prefix, asn))).value)
  {
    match Body(fetch(QueryUrl(c, prefix, asn)))
    case Err(e) => Err(e)
    case Ok(response) => Ok(ToValidity(asn, prefix, response))
  }
}
