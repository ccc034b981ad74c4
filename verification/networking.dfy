/** The networking client: building a URL request from a request descriptor,
    and the fixed-order guard chain that turns connectivity, URL validity and
    the transport's reply into a typed result. Reachability, URL parsing, the
    transport and the response decoder are inputs. */
module Networking {
  import opened Wrappers

  type Data = seq<bv8>

  datatype HttpMethod = Get | Post | Put | Delete

  /** `HTTPMethod.rawValue`. */
  function RawValue(m: HttpMethod): string
  {
    match m
    case Get => "GET"
    case Post => "POST"
    case Put => "PUT"
    case Delete => "DELETE"
  }

  /** Distinct HTTP methods go on the wire as distinct method strings. */
  lemma RawValueInjective(a: HttpMethod, b: HttpMethod)
    ensures RawValue(a) == RawValue(b) ==> a == b
  {
  }

  /** `APIRequest` without its decoder: header and body values are already
      rendered as the text `"\(value)"` gives. */
  datatype ApiRequest = ApiRequest(
    baseURL: string,
    httpMethod: HttpMethod,
    path: string,
    headers: map<string, string>,
    body: map<string, string>)

  /** The parts of a `URLRequest` the client sets. */
  datatype UrlRequest = UrlRequest(url: string, httpMethod: string, headerFields: map<string, string>)

  datatype NetworkErrorType =
    | NoInternet | ResError | InvalidResponse | NoData
    | SerializationError | FailedResponse | RefreshTokenFailed | Cancelled

  datatype ErrorResponse = ErrorResponse(kind: NetworkErrorType, message: string, code: int)

  datatype NetworkResult<T> = Succeeded(value: T) | Failed(error: ErrorResponse)

  /** A `URLResponse`: an HTTP one with its status and description, or another kind. */
  datatype UrlResponse = HttpResponse(statusCode: int, description: string) | OtherResponse

  /** What the data task hands to its completion handler. */
  datatype TransportReply = TransportReply(data: Option<Data>, response: Option<UrlResponse>, error: Option<string>)

  const CancelledError := ErrorResponse(Cancelled, "Canceled", -1000)
  const NoInternetError := ErrorResponse(NoInternet, "No internet connection", -1003)
  const InvalidRequestError := ErrorResponse(InvalidResponse, "Invalid to create URL Request", -1001)
  const NoDataError := ErrorResponse(NoData, "No Data Bro", -1002)
  const FailedResponseError := ErrorResponse(FailedResponse, "Failed Response", -1003)
  const SerializationErrorCode := -1006

  // ------------------------------------------------------------- headers

  /** `urlRequest.addValue(value, forHTTPHeaderField: key)`: a new field is
      set, an existing one gets the value appended after a comma. */
  function AddValue(fields: map<string, string>, key: string, value: string): (r: map<string, string>)
    ensures r.Keys == fields.Keys + {key}
    ensures key !in fields ==> r[key] == value
    ensures key in fields ==> r[key] == fields[key] + "," + value
    ensures forall k :: k in fields && k != key ==> r[k] == fields[k]
  {
    if key in fields then fields[key := fields[key] + "," + value] else fields[key := value]
  }

  /** The value of field `k` once the headers in `added` have been added. */
  function FieldAfter(fields: map<string, string>, headers: map<string, string>, added: set<string>, k: string): string
    requires k in fields || (k in headers && k in added)
  {
    if k !in headers || k !in added then fields[k]
    else if k in fields then fields[k] + "," + headers[k]
    else headers[k]
  }

  /** The header fields after every header of the request has been added. */
  function WithHeaders(fields: map<string, string>, headers: map<string, string>): (r: map<string, string>)
    ensures r.Keys == fields.Keys + headers.Keys
  {
    map k | k in fields.Keys + headers.Keys :: FieldAfter(fields, headers, headers.Keys, k)
  }

  /** `setHeaders(to:with:)`: the `forEach` over the header dictionary, in
      whatever order the dictionary yields its keys. */
  method SetHeaders(fields: map<string, string>, headers: map<string, string>) returns (updated: map<string, string>)
    ensures updated.Keys == fields.Keys + headers.Keys
    ensures forall k :: k in fields && k !in headers ==> updated[k] == fields[k]
    ensures forall k :: k in headers && k !in fields ==> updated[k] == headers[k]
    ensures forall k :: k in headers && k in fields ==> updated[k] == fields[k] + "," + headers[k]
    ensures updated == WithHeaders(fields, headers)
  {
    updated := fields;
    var remaining := headers.Keys;
    ghost var added: set<string> := {};
    while remaining != {}
      invariant remaining <= headers.Keys && added == headers.Keys - remaining
      invariant updated.Keys == fields.Keys + added
      invariant forall k :: k in updated ==> updated[k] == FieldAfter(fields, headers, added, k)
      decreases remaining
    {
      var key :| key in remaining;
      updated := AddValue(updated, key, headers[key]);
      remaining := remaining - {key};
      added := added + {key};
    }
  }

  /** `createURLRequest(from:)`: `None` when `baseURL + path` does not parse. */
  function CreateURLRequest(request: ApiRequest, urlParses: string -> bool): (r: Option<UrlRequest>)
    ensures r.Some? <==> urlParses(request.baseURL + request.path)
    ensures r.Some? ==> r.value.url == request.baseURL + request.path
    ensures r.Some? ==> r.value.httpMethod == RawValue(request.httpMethod)
    ensures r.Some? ==> r.value.headerFields == request.headers
  {
    var urlString := request.baseURL + request.path;
    if !urlParses(urlString) then None
    else
      assert WithHeaders(map[], request.headers) == request.headers;
      Some(UrlRequest(urlString, RawValue(request.httpMethod), WithHeaders(map[], request.headers)))
  }

  // ------------------------------------------------------ classification

  /** `responseHandler(data:response:error:request:)`; `decode` is `request.map`. */
  function ResponseHandler<T>(data: Option<Data>, response: Option<UrlResponse>, error: Option<string>,
                              decode: Data -> Result<T, string>): (r: NetworkResult<T>)
    ensures r.Succeeded? <==>
              && data.Some? && response.Some? && response.value.HttpResponse?
              && 200 <= response.value.statusCode < 300 && decode(data.value).Success?
    ensures r.Succeeded? ==> r.value == decode(data.value).value
    ensures data.None? ==> r == Failed(NoDataError)
    ensures data.Some? && (response.None? || response.value.OtherResponse?) ==> r == Failed(FailedResponseError)
    ensures data.Some? && response.Some? && response.value.HttpResponse? && !(200 <= response.value.statusCode < 300) ==>
              r == Failed(ErrorResponse(ResError, response.value.description, response.value.statusCode))
  {
    if data.None? then Failed(NoDataError)
    else if response.None? || !response.value.HttpResponse? then Failed(FailedResponseError)
    else if !(200 <= response.value.statusCode < 300) then
      Failed(ErrorResponse(ResError, response.value.description, response.value.statusCode))
    else match decode(data.value)
      case Success(v) => Succeeded(v)
      case Failure(msg) => Failed(ErrorResponse(SerializationError, msg, SerializationErrorCode))
  }

  /** `request(_:)`. Besides the result it returns the URL request handed to
      the transport, `None` when no transport took place. */
  method Request<T>(request: ApiRequest, connected: bool, urlParses: string -> bool,
                    transport: UrlRequest -> TransportReply, decode: Data -> Result<T, string>)
    returns (result: NetworkResult<T>, sent: Option<UrlRequest>)
    ensures !connected ==> result == Failed(NoInternetError) && sent.None?
    ensures connected && !urlParses(request.baseURL + request.path) ==>
              result == Failed(InvalidRequestError) && sent.None?
    ensures connected && urlParses(request.baseURL + request.path) ==>
              && sent == CreateURLRequest(request, urlParses)
              && var reply := transport(sent.value);
                 result == ResponseHandler(reply.data, reply.response, reply.error, decode)
    ensures result.Failed? ==> result.error.kind != Cancelled
  {
    var responseResult: NetworkResult<T> := Failed(CancelledError);
    if !connected {
      return Failed(NoInternetError), None;
    }
    var urlRequest := CreateURLRequest(request, urlParses);
    if urlRequest.None? {
      responseResult := Failed(InvalidRequestError);
      return responseResult, None;
    }
    var reply := transport(urlRequest.value);
    responseResult := ResponseHandler(reply.data, reply.response, reply.error, decode);
    return responseResult, urlRequest;
  }

  // ----------------------------------------------------------- properties

  /** The classification never looks at the transport's `error` argument. */
  lemma ResponseHandlerIgnoresError<T>(data: Option<Data>, response: Option<UrlResponse>,
                                       e1: Option<string>, e2: Option<string>, decode: Data -> Result<T, string>)
    ensures ResponseHandler(data, response, e1, decode) == ResponseHandler(data, response, e2, decode)
  {
  }

  /** Every failure of the handler is one of four kinds, with its fixed code;
      a `resError` carries a non-2xx status as its code. */
  lemma ResponseHandlerFailures<T>(data: Option<Data>, response: Option<UrlResponse>,
                                   error: Option<string>, decode: Data -> Result<T, string>)
    ensures var r := ResponseHandler(data, response, error, decode);
            r.Failed? ==>
              || r.error == NoDataError
              || r.error == FailedResponseError
              || (r.error.kind == ResError && response.Some? && response.value.HttpResponse?
                  && r.error.code == response.value.statusCode && !(200 <= r.error.code < 300))
              || (r.error.kind == SerializationError && r.error.code == -1006
                  && data.Some? && decode(data.value).Failure?)
  {
  }

  /** A 2xx reply with data whose decoding fails is a serialization error
      carrying the decoder's message. */
  lemma DecodeFailureIsSerializationError<T>(data: Data, status: int, description: string,
                                             error: Option<string>, decode: Data -> Result<T, string>)
    requires 200 <= status < 300 && decode(data).Failure?
    ensures ResponseHandler(Some(data), Some(HttpResponse(status, description)), error, decode)
            == Failed(ErrorResponse(SerializationError, decode(data).error, -1006))
  {
  }

  /** The body of a request never reaches the URL request. */
  lemma CreateURLRequestIgnoresBody(request: ApiRequest, body: map<string, string>, urlParses: string -> bool)
    ensures CreateURLRequest(request, urlParses) == CreateURLRequest(request.(body := body), urlParses)
  {
  }
}
