/** The client of the lookup service (libs/client.go): building the request
    URL, deciding on the reply, choosing the query parameter for each kind of
    input and stamping the input onto the decoded records. The HTTP transport
    and the JSON decoder are parameters of the model. */
module Client {
  import opened Base
  import opened Text
  import opened Types
  import IpAddr

  /** One query parameter of the request. */
  datatype Param = Param(key: string, value: string)

  /** A parsed URL, reduced to the parts the client touches; the raw query is
      kept as the ordered parameters it encodes. */
  datatype Url = Url(scheme: string, host: string, path: string, query: seq<Param>)

  /** An HTTP GET request: the URL and the value of the X-PDCP-Key header. */
  datatype Request = Request(url: Url, apiKey: string)

  /** What the transport gives back: a failure, or a status code with the body
      read so far and the error that stopped the reading, if any. */
  datatype HttpOutcome =
    | TransportError(msg: string)
    | Reply(status: int, body: string, readErr: Option<string>)

  /** http.Client.Do, as seen by the client. */
  type Transport = Request -> HttpOutcome

  /** json.Unmarshal of a reply body into a list of records (the `input` field
      is not part of the JSON and is left empty). */
  type Decoder = string -> Outcome<seq<Response>>

  const ErrUnAuthorized: string := "unauthorized: 401 (get free api key to configure from https://cloud.projectdiscovery.io/?ref=api_key)"
  const ErrNoHttpClient: string := "http client is not initialized"
  const ErrBadScheme: string := "host should start with http or https"
  const ErrUnknownType: string := "unknown type"
  const ApiPath: string := "api/v1/asnmap"
  const BadRequestPrefix: string := "bad request: "

  predicate IsHttpScheme(scheme: string)
  {
    EqualFoldAscii(scheme, "http") || EqualFoldAscii(scheme, "https")
  }

  /** generateFullURL: keeps a parsed URL whose scheme is http or https (in any
      case) and points it at the API path; `parsed` is what url.Parse returned. */
  function GenerateFullURL(parsed: Outcome<Url>): (r: Outcome<Url>)
    ensures parsed.Err? ==> r == parsed
    ensures parsed.Ok? && !IsHttpScheme(parsed.value.scheme) ==> r == Err(ErrBadScheme)
    ensures r.Ok? ==> IsHttpScheme(r.value.scheme) && r.value.path == ApiPath
    ensures r.Ok? ==> parsed.Ok? && r.value.scheme == parsed.value.scheme &&
                      r.value.host == parsed.value.host && r.value.query == parsed.value.query
  {
    match parsed
    case Err(e) => Err(e)
    case Ok(u) =>
      if !IsHttpScheme(u.scheme) then Err(ErrBadScheme) else Ok(u.(path := ApiPath))
  }

  /** Feeding a generated URL back in changes nothing. */
  lemma GenerateFullURLIdempotent(parsed: Outcome<Url>)
    ensures GenerateFullURL(GenerateFullURL(parsed)) == GenerateFullURL(parsed)
  {
  }

  /** makeRequest: the client must exist, the key must be set, and then the
      reply decides: 401 is unauthorised, 400 an error carrying the body, and
      every other status returns the body. `ready` says the http client is set. */
  function MakeRequest(ready: bool, url: Url, apiKey: string, transport: Transport): (r: Outcome<string>)
    ensures !ready ==> r == Err(ErrNoHttpClient)
    ensures ready && apiKey == "" ==> r == Err(ErrUnAuthorized)
    ensures ready && apiKey != "" && transport(Request(url, apiKey)).TransportError? ==>
              r == Err(transport(Request(url, apiKey)).msg)
    ensures ready && apiKey != "" ==>
              var o := transport(Request(url, apiKey));
              o.Reply? && o.status != 400 && o.status != 401 && o.readErr.Some? ==> r == Err(o.readErr.value)
    ensures r.Ok? ==> var o := transport(Request(url, apiKey));
                      o.Reply? && o.status != 400 && o.status != 401 && o.readErr.None? && r.value == o.body
  {
    if !ready then Err(ErrNoHttpClient)
    else if apiKey == "" then Err(ErrUnAuthorized)
    else
      match transport(Request(url, apiKey))
      case TransportError(e) => Err(e)
      case Reply(status, body, readErr) =>
        if status == 401 then Err(ErrUnAuthorized)
        else if status == 400 then Err(BadRequestPrefix + body)
        else if readErr.Some? then Err(readErr.value)
        else Ok(body)
  }

  /** Without a key no request is issued: the outcome does not depend on the transport. */
  lemma NoKeyNoRequest(ready: bool, url: Url, t1: Transport, t2: Transport)
    ensures MakeRequest(ready, url, "", t1) == MakeRequest(ready, url, "", t2)
  {
  }

  /** The reply decides, once the request has gone out: 401 is unauthorised,
      400 is an error made of "bad request: " and the body, any other status
      (5xx included) returns the body. */
  lemma ReplyDecision(url: Url, apiKey: string, transport: Transport)
    requires apiKey != ""
    requires transport(Request(url, apiKey)).Reply?
    ensures var o := transport(Request(url, apiKey));
            var r := MakeRequest(true, url, apiKey, transport);
            (o.status == 401 ==> r == Err(ErrUnAuthorized)) &&
            (o.status == 400 ==> r == Err(BadRequestPrefix + o.body)) &&
            (o.status != 401 && o.status != 400 && o.readErr.None? ==> r == Ok(o.body))
  {
  }

  /** strings.TrimPrefix. */
  function TrimPrefix(s: string, p: string): string
  {
    if HasPrefix(s, p) then s[|p|..] else s
  }

  /** inputToStore: for an ASN input the lower-cased text without its "as";
      the input itself otherwise. */
  function StoredInput(input: string): string
  {
    if IdentifyInput(input) == ASN then TrimPrefix(ToLowerAscii(input), "as") else input
  }

  /** For an "AS"-prefixed number the stored input is the number alone
      ("AS14421" is stored as "14421"). */
  lemma AsnStoredInput(input: string)
    requires IsPrefixedNumber(input)
    ensures StoredInput(input) == input[2..]
  {
    var low := ToLowerAscii(input);
    assert low[..2] == "as";
    assert low[2..] == input[2..];
  }

  /** The parameter GetData adds for each kind of input; None only for Unknown. */
  function KindParams(input: string): (r: Option<seq<Param>>)
    ensures r.Some? && |r.value| <= 1
    ensures IsPrefixedNumber(input) ==> r.value == [Param("asn", input[2..])]
    ensures |input| > 0 && AllDigits(input) ==> r.value == [Param("asn", input)]
    ensures IpAddr.IsIP(input) ==> r.value == [Param("ip", input)]
    ensures r.value == [] <==> IdentifyInput(input) == Domain
    ensures IdentifyInput(input) == Org ==> r.value == [Param("org", input)]
  {
    match IdentifyInput(input)
    case ASN =>
      AsnStoredInput(input);
      Some([Param("asn", StoredInput(input))])
    case ASNID => Some([Param("asn", input)])
    case IP => Some([Param("ip", input)])
    case Org => Some([Param("org", input)])
    case Domain => Some([])
    case Unknown => None
  }

  /** The parameter list and stored input each branch of GetData's switch
      builds are the ones KindParams and StoredInput give. */
  lemma KindParamsOfKind(input: string, kind: InputType, params: seq<Param>, stored: string)
    requires kind == IdentifyInput(input)
    requires kind == ASN ==> params == [Param("asn", TrimPrefix(ToLowerAscii(input), "as"))] &&
                             stored == TrimPrefix(ToLowerAscii(input), "as")
    requires kind == ASNID ==> params == [Param("asn", input)] && stored == input
    requires kind == IP ==> params == [Param("ip", input)] && stored == input
    requires kind == Org ==> params == [Param("org", input)] && stored == input
    requires kind == Domain ==> params == [] && stored == input
    ensures KindParams(input) == Some(params) && stored == StoredInput(input)
  {
  }

  /** Every record with its input replaced by `x`. */
  function WithInput(rs: seq<Response>, x: string): (r: seq<Response>)
    ensures |r| == |rs|
    ensures forall i :: 0 <= i < |r| ==> r[i].input == x && r[i].(input := rs[i].input) == rs[i]
  {
    seq(|rs|, i requires 0 <= i < |rs| => rs[i].(input := x))
  }

  /** Stamping twice is stamping with the last value. */
  lemma WithInputTwice(rs: seq<Response>, x: string, y: string)
    ensures WithInput(WithInput(rs, x), y) == WithInput(rs, y)
  {
  }

  /** The query GetData sends: the kind's parameter, then the tool's metadata. */
  function QueryFor(input: string, metadata: seq<Param>): seq<Param>
  {
    match KindParams(input)
    case Some(ps) => ps + metadata
    case None => metadata
  }

  /** GetData as a value: query the service for `input`, decode the reply and
      stamp every record with the stored input; any failure gives no records. */
  function GetDataSpec(base: Url, ready: bool, input: string, apiKey: string,
                       transport: Transport, decode: Decoder, metadata: seq<Param>): Outcome<seq<Response>>
  {
    match KindParams(input)
    case None => Err(ErrUnknownType)
    case Some(ps) =>
      match MakeRequest(ready, base.(query := ps + metadata), apiKey, transport)
      case Err(e) => Err(e)
      case Ok(body) =>
        match decode(body)
        case Err(e) => Err(e)
        case Ok(rs) => Ok(WithInput(rs, StoredInput(input)))
  }

  /** GetData on success: exactly the decoded records, each with the stored
      input; on failure the error of the request or of the decoder. */
  lemma GetDataMeaning(base: Url, ready: bool, input: string, apiKey: string,
                       transport: Transport, decode: Decoder, metadata: seq<Param>)
    ensures var r := GetDataSpec(base, ready, input, apiKey, transport, decode, metadata);
            var req := MakeRequest(ready, base.(query := QueryFor(input, metadata)), apiKey, transport);
            (req.Err? ==> r == Err(req.msg)) &&
            (req.Ok? && decode(req.value).Err? ==> r == Err(decode(req.value).msg)) &&
            (r.Ok? ==> req.Ok? && decode(req.value).Ok? &&
                       |r.value| == |decode(req.value).value| &&
                       forall i :: 0 <= i < |r.value| ==>
                         r.value[i] == decode(req.value).value[i].(input := StoredInput(input)))
  {
  }

  /** GetDataWithCustomInput as a value: GetData, with `shown` as every record's input. */
  function GetDataWithCustomInputSpec(base: Url, ready: bool, query: string, shown: string, apiKey: string,
                                      transport: Transport, decode: Decoder, metadata: seq<Param>): Outcome<seq<Response>>
  {
    match GetDataSpec(base, ready, query, apiKey, transport, decode, metadata)
    case Err(e) => Err(e)
    case Ok(rs) => Ok(WithInput(rs, shown))
  }

  /** GetDataWithCustomInput passes the error through and otherwise changes
      only the input of each record GetData returned. */
  lemma CustomInputMeaning(base: Url, ready: bool, query: string, shown: string, apiKey: string,
                           transport: Transport, decode: Decoder, metadata: seq<Param>)
    ensures var plain := GetDataSpec(base, ready, query, apiKey, transport, decode, metadata);
            var custom := GetDataWithCustomInputSpec(base, ready, query, shown, apiKey, transport, decode, metadata);
            (plain.Err? ==> custom == plain) &&
            (plain.Ok? ==> custom.Ok? && |custom.value| == |plain.value| &&
                           forall i :: 0 <= i < |custom.value| ==>
                             custom.value[i] == plain.value[i].(input := shown))
  {
  }

  /** Two URLs that differ at most in their query. */
  predicate SameEndpoint(u: Url, v: Url)
  {
    u.scheme == v.scheme && u.host == v.host && u.path == v.path
  }

  /** The query a previous call left on the URL plays no part: GetData
      replaces it before sending. */
  lemma EndpointOnly(u: Url, v: Url, ready: bool, query: string, shown: string, apiKey: string,
                     transport: Transport, decode: Decoder, metadata: seq<Param>)
    requires SameEndpoint(u, v)
    ensures GetDataSpec(u, ready, query, apiKey, transport, decode, metadata) ==
            GetDataSpec(v, ready, query, apiKey, transport, decode, metadata)
    ensures GetDataWithCustomInputSpec(u, ready, query, shown, apiKey, transport, decode, metadata) ==
            GetDataWithCustomInputSpec(v, ready, query, shown, apiKey, transport, decode, metadata)
  {
    assert u.(query := QueryFor(query, metadata)) == v.(query := QueryFor(query, metadata));
  }

  /** The loop that overwrites `Input` on every record. */
  method StampInput(results: seq<Response>, x: string) returns (stamped: seq<Response>)
    ensures stamped == WithInput(results, x)
  {
    stamped := results;
    for i := 0 to |stamped|
      invariant |stamped| == |results|
      invariant forall j :: 0 <= j < i ==> stamped[j] == results[j].(input := x)
      invariant forall j :: i <= j < |stamped| ==> stamped[j] == results[j]
    {
      stamped := stamped[i := stamped[i].(input := x)];
    }
  }

  /** The client: the URL it sends to (shared with every copy of the client, so
      the raw query set by one call stays) and whether its http client is set. */
  class Client {
    var url: Url
    const ready: bool

    constructor (url: Url, ready: bool)
      ensures this.url == url && this.ready == ready
    {
      this.url := url;
      this.ready := ready;
    }

    /** GetData: picks the parameter for the kind of input, sets the raw query,
        makes the request, decodes the reply and stamps the stored input. */
    method GetData(input: string, apiKey: string, transport: Transport, decode: Decoder,
                   metadata: seq<Param>) returns (r: Outcome<seq<Response>>)
      modifies this
      ensures url == old(url).(query := QueryFor(input, metadata))
      ensures r == GetDataSpec(old(url), ready, input, apiKey, transport, decode, metadata)
    {
      var inputToStore := input;
      var params: seq<Param> := [];
      var kind := IdentifyInput(input);
      match kind {
        case ASN =>
          inputToStore := TrimPrefix(ToLowerAscii(input), "as");
          params := params + [Param("asn", inputToStore)];
        case ASNID =>
          params := params + [Param("asn", input)];
        case IP =>
          params := params + [Param("ip", input)];
        case Org =>
          params := params + [Param("org", input)];
        case Domain =>
        case Unknown =>
          return Err(ErrUnknownType);
      }
      KindParamsOfKind(input, kind, params, inputToStore);
      params := params + metadata;
      url := url.(query := params);

      var resp := MakeRequest(ready, url, apiKey, transport);
      if resp.Err? {
        return Err(resp.msg);
      }
      var decoded := decode(resp.value);
      if decoded.Err? {
        return Err(decoded.msg);
      }
      var results := StampInput(decoded.value, inputToStore);
      return Ok(results);
    }

    /** GetDataWithCustomInput: GetData for `query`, then `shown` as every record's input. */
    method GetDataWithCustomInput(query: string, shown: string, apiKey: string, transport: Transport,
                                  decode: Decoder, metadata: seq<Param>) returns (r: Outcome<seq<Response>>)
      modifies this
      ensures url == old(url).(query := QueryFor(query, metadata))
      ensures r == GetDataWithCustomInputSpec(old(url), ready, query, shown, apiKey, transport, decode, metadata)
    {
      r := GetData(query, apiKey, transport, decode, metadata);
      if r.Ok? {
        var results := StampInput(r.value, shown);
        r := Ok(results);
      }
    }
  }
}
