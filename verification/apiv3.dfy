/**
 * The PTV Timetable API v3 client (pyptvdata/apiv3.py): signed URL
 * construction, the choice between a signed and an anonymous URL, and the
 * catalogue of endpoint paths with the envelope key each call unwraps.
 *
 * HMAC-SHA1 (RFC 2104 over FIPS 180-4 SHA-1) is a parameter: any function
 * from key bytes and message bytes to a 20-byte digest. HTTP is left out;
 * a response body enters as a JSON value.
 */
module PtvApi {
  import opened Wrappers
  import opened Dicts
  import opened Text
  import opened Encoding
  import opened Json

  const Host := "https://timetableapi.ptv.vic.gov.au"
  const SignatureParam := "&signature="

  /** A developer id or API key: the client accepts text or an integer. */
  datatype Token = StrToken(s: string) | IntToken(n: int)

  /** `f'{token}'` */
  function Render(t: Token): string {
    match t
    case StrToken(s) => s
    case IntToken(n) => Decimal(n)
  }

  datatype ApiError =
    | InvalidEndpoint(endpoint: string)   // the `startswith('/')` assertion
    | KeyNotText                          // an int key has no `.encode`
    | MissingEnvelopeKey(key: string)     // the response lacks the unwrapped key

  type Digest = s: seq<byte> | |s| == 20 witness seq(20, _ => 0)

  /** HMAC-SHA1: key bytes and message bytes to a 20-byte digest. */
  type HmacSha1 = (seq<byte>, seq<byte>) -> Digest

  /** `&` when the endpoint already carries a query, `?` otherwise. */
  function Separator(endpoint: string): string {
    if '?' in endpoint then "&" else "?"
  }

  /** The part of the URL that is signed: the endpoint, the separator and `devid=<dev_id>`. */
  function SignedPart(endpoint: string, devId: Token): string {
    endpoint + Separator(endpoint) + "devid=" + Render(devId)
  }

  /** `get_ptv_api_url` */
  function GetPtvApiUrl(endpoint: string, devId: Token, apiKey: Token, hmac: HmacSha1): (r: Result<string, ApiError>)
    ensures r.Failure? <==> !StartsWith(endpoint, "/") || apiKey.IntToken?
    ensures !StartsWith(endpoint, "/") ==> r == Failure(InvalidEndpoint(endpoint))
  {
    if !StartsWith(endpoint, "/") then Failure(InvalidEndpoint(endpoint))
    else
      match apiKey
      case IntToken(_) => Failure(KeyNotText)
      case StrToken(key) =>
        var raw := SignedPart(endpoint, devId);
        Success(Host + raw + SignatureParam + Hex(hmac(Utf8(key), Utf8(raw))))
  }

  /** Takes a signed URL apart: the signed part between host and `&signature=`, and the signature. */
  function SplitSignedUrl(url: string): Option<(string, string)> {
    if |url| >= |Host| + |SignatureParam| + 40 && StartsWith(url, Host)
       && url[|url| - 40 - |SignatureParam|..|url| - 40] == SignatureParam
    then Some((url[|Host|..|url| - 40 - |SignatureParam|], url[|url| - 40..]))
    else None
  }

  /** Any host, signed part, `&signature=` and 40 characters split back into the part and the 40 characters. */
  lemma SplitJoined(raw: string, sig: string)
    requires |sig| == 40
    ensures SplitSignedUrl(Host + raw + SignatureParam + sig) == Some((raw, sig))
  {
    var url := Host + raw + SignatureParam + sig;
    assert url[|url| - 40..] == sig;
    assert url[|url| - 40 - |SignatureParam|..|url| - 40] == SignatureParam;
    assert url[|Host|..|url| - 40 - |SignatureParam|] == raw;
    assert url[..|Host|] == Host;
  }

  /** The signed part keeps the endpoint verbatim, then the separator, then `devid=` and the rendered id. */
  lemma SignedPartLayout(endpoint: string, devId: Token)
    ensures var raw := SignedPart(endpoint, devId);
      && raw[..|endpoint|] == endpoint
      && raw[|endpoint|] == (if '?' in endpoint then '&' else '?')
      && raw[|endpoint| + 1..] == "devid=" + Render(devId)
  {
  }

  /**
   * A signed URL is the host, the signed part, `&signature=` and 40 lowercase
   * hex digits that spell out the HMAC of the signed part alone (not the host)
   * under the UTF-8 bytes of the key.
   */
  lemma SignedUrlLayout(endpoint: string, devId: Token, key: string, hmac: HmacSha1)
    requires StartsWith(endpoint, "/")
    ensures var url := GetPtvApiUrl(endpoint, devId, StrToken(key), hmac).value;
      var raw := SignedPart(endpoint, devId);
      && SplitSignedUrl(url) == Some((raw, url[|url| - 40..]))
      && (forall k :: |url| - 40 <= k < |url| ==> IsLowerHex(url[k]))
      && Unhex(url[|url| - 40..]) == Some(hmac(Utf8(key), Utf8(raw)))
  {
    var raw := SignedPart(endpoint, devId);
    var digest := hmac(Utf8(key), Utf8(raw));
    var sig := Hex(digest);
    var url := Host + raw + SignatureParam + sig;
    assert GetPtvApiUrl(endpoint, devId, StrToken(key), hmac).value == url;
    SplitJoined(raw, sig);
    assert url[|url| - 40..] == sig;
    HexRoundTrip(digest);
  }

  /** The client's credentials, set once at construction. */
  datatype Client = Client(devId: Token, apiKey: Token)

  /** The URL `get_data` requests: signed, or host and endpoint alone. */
  function DataUrl(client: Client, endpoint: string, needAuth: bool, hmac: HmacSha1): Result<string, ApiError> {
    if needAuth then GetPtvApiUrl(endpoint, client.devId, client.apiKey, hmac)
    else Success(Host + endpoint)
  }

  /**
   * Without authentication the URL is host and endpoint with nothing added,
   * and no check is made on the endpoint; with it, the URL is the signed one.
   */
  lemma DataUrlChoice(client: Client, endpoint: string, needAuth: bool, hmac: HmacSha1)
    ensures !needAuth ==> DataUrl(client, endpoint, needAuth, hmac) == Success(Host + endpoint)
    ensures !needAuth ==> |DataUrl(client, endpoint, needAuth, hmac).value| == |Host| + |endpoint|
    ensures needAuth && client.apiKey.StrToken? && StartsWith(endpoint, "/") ==>
      SplitSignedUrl(DataUrl(client, endpoint, needAuth, hmac).value).value.0 == SignedPart(endpoint, client.devId)
  {
    if needAuth && client.apiKey.StrToken? && StartsWith(endpoint, "/") {
      SignedUrlLayout(endpoint, client.devId, client.apiKey.s, hmac);
    }
  }

  // ---- the PTVAPI3 catalogue ----

  /** One call per `PTVAPI3` method, with its arguments. Coordinates are already text. */
  datatype Call =
    | GetDocs
    | GetAllRoutes
    | GetAllRouteTypes
    | GetAllDisruptions
    | GetAllDisruptionModes
    | GetAllOutlets
    | GetSearchResults(searchTerm: string)
    | GetDepartures(stopId: int, routeType: int, maybeRouteId: Option<int>)
    | GetDisruptions(maybeRouteId: Option<int>, maybeStopId: Option<int>)
    | GetDisruptionInfo(disruptionId: int)
    | GetFareEstimate(minZone: int, maxZone: int)
    | GetNearbyOutlets(latitude: string, longitude: string)
    | GetRouteInfo(routeId: int)
    | GetRouteDirections(routeId: int)
    | GetRouteRuns(routeId: int, maybeRouteType: Option<int>)
    | GetRouteStops(routeId: int, routeType: int)
    | GetDirectionInfo(directionId: int, maybeRouteType: Option<int>)
    | GetRunInfo(runRef: int, maybeRouteType: Option<int>)
    | GetStopInfo(stopId: int, routeType: int)
    | GetNearbyStops(latitude: string, longitude: string)

  /** What a call asks `get_data` for, and which envelope key it returns. */
  datatype Request = Request(endpoint: string, needAuth: bool, unwrap: Option<string>)

  /** Python truthiness of an optional id: `None` and `0` are false. */
  predicate Truthy(id: Option<int>) {
    id.Some? && id.value != 0
  }

  function Signed(endpoint: string): Request {
    Request(endpoint, true, None)
  }

  function SignedUnwrap(endpoint: string, key: string): Request {
    Request(endpoint, true, Some(key))
  }

  function RequestFor(call: Call): Request {
    match call
    case GetDocs => Request("/swagger/docs/v3", false, None)
    case GetAllRoutes => SignedUnwrap("/v3/routes", "routes")
    case GetAllRouteTypes => SignedUnwrap("/v3/route_types", "route_types")
    case GetAllDisruptions => SignedUnwrap("/v3/disruptions", "disruptions")
    case GetAllDisruptionModes => SignedUnwrap("/v3/disruptions/modes", "disruption_modes")
    case GetAllOutlets => SignedUnwrap("/v3/outlets", "outlets")
    case GetSearchResults(term) => Signed("/v3/search/" + term)
    case GetDepartures(stopId, routeType, routeId) =>
      if Truthy(routeId) then
        Signed("/v3/departures/route_type/" + Decimal(routeType) + "/stop/" + Decimal(stopId) + "/route/" + Decimal(routeId.value))
      else
        Signed("/v3/departures/route_type/" + Decimal(routeType) + "/stop/" + Decimal(stopId))
    case GetDisruptions(routeId, stopId) =>
      if routeId.None? && stopId.None? then Signed("/v3/disruptions")
      else if routeId.None? then Signed("/v3/disruptions/stop/" + Decimal(stopId.value))
      else if stopId.None? then Signed("/v3/disruptions/route/" + Decimal(routeId.value))
      else Signed("/v3/disruptions/route/" + Decimal(routeId.value) + "/stop/" + Decimal(stopId.value))
    case GetDisruptionInfo(id) => Signed("/v3/disruptions/" + Decimal(id))
    case GetFareEstimate(minZone, maxZone) =>
      Signed("/v3/fare_estimate/min_zone/" + Decimal(minZone) + "/max_zone/" + Decimal(maxZone))
    case GetNearbyOutlets(latitude, longitude) => Signed("/v3/outlets/location/" + latitude + "," + longitude)
    case GetRouteInfo(routeId) => Signed("/v3/routes/" + Decimal(routeId))
    case GetRouteDirections(routeId) => Signed("/v3/directions/route/" + Decimal(routeId))
    case GetRouteRuns(routeId, routeType) =>
      if Truthy(routeType) then Signed("/v3/runs/route/" + Decimal(routeId) + "/route_type/" + Decimal(routeType.value))
      else Signed("/v3/runs/route/" + Decimal(routeId))
    case GetRouteStops(routeId, routeType) =>
      Signed("/v3/stops/route/" + Decimal(routeId) + "/route_type/" + Decimal(routeType))
    case GetDirectionInfo(directionId, routeType) =>
      if Truthy(routeType) then Signed("/v3/directions/" + Decimal(directionId) + "/route_type/" + Decimal(routeType.value))
      else Signed("/v3/directions/" + Decimal(directionId))
    case GetRunInfo(runRef, routeType) =>
      if Truthy(routeType) then Signed("/v3/runs/" + Decimal(runRef) + "/route_type/" + Decimal(routeType.value))
      else Signed("/v3/runs/" + Decimal(runRef))
    case GetStopInfo(stopId, routeType) => Signed("/v3/stops/" + Decimal(stopId) + "/route_type/" + Decimal(routeType))
    case GetNearbyStops(latitude, longitude) => Signed("/v3/stops/location/" + latitude + "," + longitude)
  }

  /** The result of a call given the response body: the whole envelope, or the one key it unwraps. */
  function Respond(req: Request, body: Json): (r: Result<Json, ApiError>)
    ensures req.unwrap.None? ==> r == Success(body)
    ensures req.unwrap.Some? ==> (r.Success? <==> Member(body, req.unwrap.value).Some?)
    ensures req.unwrap.Some? && r.Success? ==> r.value == Member(body, req.unwrap.value).value
  {
    match req.unwrap
    case None => Success(body)
    case Some(key) =>
      match Member(body, key)
      case None => Failure(MissingEnvelopeKey(key))
      case Some(v) => Success(v)
  }

  /** A whole call: the URL it requests, and what it returns from the response body. */
  function Perform(client: Client, call: Call, body: Json, hmac: HmacSha1): Result<(string, Json), ApiError> {
    var req := RequestFor(call);
    var url :- DataUrl(client, req.endpoint, req.needAuth, hmac);
    var value :- Respond(req, body);
    Success((url, value))
  }

  // ---- properties of the catalogue ----

  /**
   * Every endpoint in the catalogue begins with `/`, so signing never trips the
   * endpoint assertion; only the documentation call goes out unsigned; and
   * exactly the five "get all" calls unwrap an envelope key.
   */
  lemma CatalogueShape(call: Call)
    ensures StartsWith(RequestFor(call).endpoint, "/")
    ensures RequestFor(call).needAuth <==> !call.GetDocs?
    ensures RequestFor(call).unwrap.Some? <==>
      call.GetAllRoutes? || call.GetAllRouteTypes? || call.GetAllDisruptions? ||
      call.GetAllDisruptionModes? || call.GetAllOutlets?
  {
  }

  /** The envelope keys: the plural resource name, and `disruption_modes` for the modes. */
  lemma EnvelopeKeys()
    ensures RequestFor(GetAllRoutes).unwrap == Some("routes")
    ensures RequestFor(GetAllRouteTypes).unwrap == Some("route_types")
    ensures RequestFor(GetAllDisruptions).unwrap == Some("disruptions")
    ensures RequestFor(GetAllDisruptionModes).unwrap == Some("disruption_modes")
    ensures RequestFor(GetAllOutlets).unwrap == Some("outlets")
  {
  }

  /** No rendered integer contains `/`. */
  lemma NoSlashInDecimal(n: int)
    ensures '/' !in Decimal(n)
  {
  }

  /** In a segment free of `/` followed by nothing or by `/` and more, the first `/` ends the segment. */
  lemma FirstSlash(a: string, t: string)
    requires '/' !in a
    requires t == [] || t[0] == '/'
    ensures forall k :: 0 <= k < |a| ==> (a + t)[k] != '/'
    ensures |a + t| == |a| || (a + t)[|a|] == '/'
  {
  }

  /** Such a segment and its tail split apart uniquely. */
  lemma SplitAtSlash(a: string, t: string, c: string, u: string)
    requires '/' !in a && '/' !in c
    requires t == [] || t[0] == '/'
    requires u == [] || u[0] == '/'
    requires a + t == c + u
    ensures a == c && t == u
  {
    var x := a + t;
    FirstSlash(a, t);
    FirstSlash(c, u);
    assert |a| == |c|;
    assert a == x[..|a|] == c;
    assert t == x[|a|..] == u;
  }

  /** `/stop/<id>` when a stop is given, nothing otherwise. */
  function StopSuffix(stopId: Option<int>): string {
    if stopId.Some? then "/stop/" + Decimal(stopId.value) else ""
  }

  /** What follows `/v3/disruptions` in the disruptions endpoint. */
  function DisruptionsTail(routeId: Option<int>, stopId: Option<int>): string {
    if routeId.Some? then "/route/" + Decimal(routeId.value) + StopSuffix(stopId) else StopSuffix(stopId)
  }

  lemma StopSuffixInjective(s1: Option<int>, s2: Option<int>)
    requires StopSuffix(s1) == StopSuffix(s2)
    ensures s1 == s2
  {
    if s1.Some? && s2.Some? {
      var x := StopSuffix(s1);
      assert Decimal(s1.value) == x[6..] == Decimal(s2.value);
      DecimalInjective(s1.value, s2.value);
    }
  }

  lemma RouteTailNotStopTail(r: int, s1: Option<int>, s2: Option<int>)
    ensures DisruptionsTail(Some(r), s1) != DisruptionsTail(None, s2)
  {
    var x := DisruptionsTail(Some(r), s1);
    assert x[1] == 'r';
    if s2.Some? {
      assert DisruptionsTail(None, s2)[1] == 's';
    }
  }

  lemma RouteSegmentsInjective(r1: int, s1: Option<int>, r2: int, s2: Option<int>)
    requires Decimal(r1) + StopSuffix(s1) == Decimal(r2) + StopSuffix(s2)
    ensures r1 == r2 && s1 == s2
  {
    NoSlashInDecimal(r1);
    NoSlashInDecimal(r2);
    SplitAtSlash(Decimal(r1), StopSuffix(s1), Decimal(r2), StopSuffix(s2));
    DecimalInjective(r1, r2);
    StopSuffixInjective(s1, s2);
  }

  lemma RouteTailSegments(r: int, s: Option<int>)
    ensures DisruptionsTail(Some(r), s)[7..] == Decimal(r) + StopSuffix(s)
  {
    assert DisruptionsTail(Some(r), s) == "/route/" + (Decimal(r) + StopSuffix(s));
  }

  lemma RouteTailsInjective(r1: int, s1: Option<int>, r2: int, s2: Option<int>)
    requires DisruptionsTail(Some(r1), s1) == DisruptionsTail(Some(r2), s2)
    ensures r1 == r2 && s1 == s2
  {
    RouteTailSegments(r1, s1);
    RouteTailSegments(r2, s2);
    RouteSegmentsInjective(r1, s1, r2, s2);
  }

  lemma DisruptionsTailInjective(r1: Option<int>, s1: Option<int>, r2: Option<int>, s2: Option<int>)
    requires DisruptionsTail(r1, s1) == DisruptionsTail(r2, s2)
    ensures r1 == r2 && s1 == s2
  {
    match (r1, r2)
    case (Some(a), Some(b)) => RouteTailsInjective(a, s1, b, s2);
    case (Some(a), None) => RouteTailNotStopTail(a, s1, s2);
    case (None, Some(b)) => RouteTailNotStopTail(b, s2, s1);
    case (None, None) => StopSuffixInjective(s1, s2);
  }

  lemma DisruptionsEndpoint(r: Option<int>, s: Option<int>)
    ensures RequestFor(GetDisruptions(r, s)).endpoint == "/v3/disruptions" + DisruptionsTail(r, s)
  {
    if r.Some? && s.Some? {
      assert "/v3/disruptions/route/" + Decimal(r.value) + "/stop/" + Decimal(s.value)
        == "/v3/disruptions" + ("/route/" + Decimal(r.value) + StopSuffix(s));
    }
  }

  /**
   * The four disruption endpoints never collide: the request determines which
   * of the route and the stop were given, and their ids.
   */
  lemma DisruptionsInjective(r1: Option<int>, s1: Option<int>, r2: Option<int>, s2: Option<int>)
    requires RequestFor(GetDisruptions(r1, s1)) == RequestFor(GetDisruptions(r2, s2))
    ensures r1 == r2 && s1 == s2
  {
    var prefix := "/v3/disruptions";
    var e := RequestFor(GetDisruptions(r1, s1)).endpoint;
    DisruptionsEndpoint(r1, s1);
    DisruptionsEndpoint(r2, s2);
    assert DisruptionsTail(r1, s1) == e[|prefix|..] == DisruptionsTail(r2, s2);
    DisruptionsTailInjective(r1, s1, r2, s2);
  }

  /**
   * An optional id is checked for truthiness: 0 is dropped from the path just as
   * `None` is, while any other id is appended as a final segment.
   */
  lemma FalsyOptionalIds(stopId: int, routeType: int, routeId: int, directionId: int, runRef: int, id: int)
    ensures RequestFor(GetDepartures(stopId, routeType, Some(0))) == RequestFor(GetDepartures(stopId, routeType, None))
    ensures RequestFor(GetRouteRuns(routeId, Some(0))) == RequestFor(GetRouteRuns(routeId, None))
    ensures RequestFor(GetDirectionInfo(directionId, Some(0))) == RequestFor(GetDirectionInfo(directionId, None))
    ensures RequestFor(GetRunInfo(runRef, Some(0))) == RequestFor(GetRunInfo(runRef, None))
    ensures id != 0 ==>
      RequestFor(GetRouteRuns(routeId, Some(id))).endpoint ==
      RequestFor(GetRouteRuns(routeId, None)).endpoint + "/route_type/" + Decimal(id)
    ensures id != 0 ==>
      RequestFor(GetDepartures(stopId, routeType, Some(id))).endpoint ==
      RequestFor(GetDepartures(stopId, routeType, None)).endpoint + "/route/" + Decimal(id)
    ensures id != 0 ==>
      RequestFor(GetDirectionInfo(directionId, Some(id))).endpoint ==
      RequestFor(GetDirectionInfo(directionId, None)).endpoint + "/route_type/" + Decimal(id)
    ensures id != 0 ==>
      RequestFor(GetRunInfo(runRef, Some(id))).endpoint ==
      RequestFor(GetRunInfo(runRef, None)).endpoint + "/route_type/" + Decimal(id)
  {
  }

  /**
   * The search term enters the path unescaped: a `?` in it is taken as the
   * start of a query, and `devid` is then joined with `&`.
   */
  lemma SearchTermVerbatim(term: string, devId: Token)
    ensures RequestFor(GetSearchResults(term)).endpoint == "/v3/search/" + term
    ensures SignedPart(RequestFor(GetSearchResults(term)).endpoint, devId) ==
      "/v3/search/" + term + (if '?' in term then "&" else "?") + "devid=" + Render(devId)
  {
    assert '?' in "/v3/search/" + term <==> '?' in term by {
      var e := "/v3/search/" + term;
      if '?' in e {
        var k :| 0 <= k < |e| && e[k] == '?';
        assert k >= 11 && term[k - 11] == '?';
      }
      if '?' in term {
        var k :| 0 <= k < |term| && term[k] == '?';
        assert e[k + 11] == '?';
      }
    }
  }

  /**
   * A call fails exactly when it must be signed and the key is an integer, or
   * when the envelope key it unwraps is absent from the response; otherwise it
   * requests the URL `get_data` builds and returns the body or its one member.
   */
  lemma PerformOutcome(client: Client, call: Call, body: Json, hmac: HmacSha1)
    ensures var req := RequestFor(call);
      Perform(client, call, body, hmac).Failure? <==>
        (req.needAuth && client.apiKey.IntToken?) ||
        (req.unwrap.Some? && Member(body, req.unwrap.value).None?)
    ensures var req := RequestFor(call);
      var r := Perform(client, call, body, hmac);
      r.Success? ==>
        && r.value.0 == DataUrl(client, req.endpoint, req.needAuth, hmac).value
        && r.value.1 == (if req.unwrap.Some? then Member(body, req.unwrap.value).value else body)
  {
    CatalogueShape(call);
  }
}
