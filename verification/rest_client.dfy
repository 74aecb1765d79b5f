/**
 `RestClient`: the classification of an HTTP answer (`requestResult`) and the
 fixed order of checks in `makeRequest`. URL composition, body encoding,
 request authorisation, the network exchange, UTF-8 decoding and response
 decoding are not visible here; each becomes an oracle whose answer is an
 input. `makeRequest` also reports which oracles it consulted, in order.
 */
module RestClient {
  import opened Results
  import opened AsyncTask

  /** An underlying Swift error, known only by its description. */
  datatype Cause = Cause(description: string)

  datatype HttpError = HttpError(code: int, responseData: Option<string>)

  /** `RestClient.Error`. */
  datatype RestError =
    | NoData(cause: Option<Cause>)
    | NetworkError(networkCause: Cause)
    | EncodingError(encodingCause: Cause)
    | DecodingError(decodingCause: Cause)
    | AuthError(authCause: Cause)
    | WrongRequest(requestCause: Cause)
    | WrongResponse
    | FailedToComposeUrl
    | HttpFailure(http: HttpError)

  /** The `URLResponse` a data task reports: an `HTTPURLResponse` with its
      status code, or some other kind of response. */
  datatype Response = HttpResponse(statusCode: int) | OtherResponse

  type Bytes = seq<bv8>

  const ErrorBodySizeLimit: nat := 250

  /** An error body longer than the limit is cut to its first 250
      characters followed by `...`; a shorter one is kept verbatim. */
  function TruncateErrorBody(body: string): (r: string)
    ensures |body| <= ErrorBodySizeLimit ==> r == body
    ensures |body| > ErrorBodySizeLimit ==>
      |r| == ErrorBodySizeLimit + 3 && r[..ErrorBodySizeLimit] == body[..ErrorBodySizeLimit] && r[ErrorBodySizeLimit..] == "..."
  {
    if |body| > ErrorBodySizeLimit then body[..ErrorBodySizeLimit] + "..." else body
  }

  /** Status codes 100 to 299 inclusive are a success. */
  predicate IsSuccessStatus(code: int)
  {
    100 <= code <= 299
  }

  /** `requestResult(for:data:)`; `utf8` is `String(data:encoding: .utf8)`. */
  function RequestResult(response: Option<Response>, data: Option<Bytes>, utf8: Bytes -> Option<string>): (r: Result<(), RestError>)
    ensures (response.None? || response.value.OtherResponse?) ==> r == Failure(WrongResponse)
    ensures response.Some? && response.value.HttpResponse? ==>
      (r.Success? <==> IsSuccessStatus(response.value.statusCode))
    ensures r.Failure? && r.error.HttpFailure? ==>
      && response == Some(HttpResponse(r.error.http.code))
      && !IsSuccessStatus(r.error.http.code)
      && (r.error.http.responseData.None? <==> (data.None? || utf8(data.value).None?))
      && (r.error.http.responseData.Some? ==> r.error.http.responseData.value == TruncateErrorBody(utf8(data.value).value))
    ensures r.Failure? ==> r.error.HttpFailure? || r.error == WrongResponse
    ensures response.Some? && response.value.HttpResponse? && !IsSuccessStatus(response.value.statusCode) ==>
      r.Failure? && r.error.HttpFailure? && r.error.http.code == response.value.statusCode
  {
    match response
    case None => Failure(WrongResponse)
    case Some(OtherResponse) => Failure(WrongResponse)
    case Some(HttpResponse(code)) =>
      if IsSuccessStatus(code) then Success(())
      else
        var text := match data
          case None => None
          case Some(bytes) => utf8(bytes);
        var responseData := match text
          case None => None
          case Some(body) => Some(TruncateErrorBody(body));
        Failure(HttpFailure(HttpError(code, responseData)))
  }

  /** `RestClient.Request`: HTTP method, optional path, optional query
      parameters, optional body. */
  datatype Request<B> = Request(httpMethod: string, path: Option<string>, parameters: Option<map<string, string>>, body: Option<B>)

  /** The answers the collaborators give to one request. */
  datatype Environment<R> = Environment(
    urlComposes: bool,                          // URLComponents(...)?.url is non-nil
    encoding: Result<Bytes, Cause>,             // codingStrategy.encode of the body
    authorize: Result<(), Cause>,               // authStrategy.decorateRequest
    response: Option<Response>,                 // the data task's response
    data: Option<Bytes>,                        // the data task's data
    transportError: Option<Cause>,              // the data task's error
    utf8: Bytes -> Option<string>,              // String(data:encoding: .utf8)
    decode: Bytes -> Result<R, Cause>)          // codingStrategy.decode

  /** The collaborators `makeRequest` can consult, in the order it does. */
  datatype Step = ComposeUrl | Encode | Authorize | Transfer | Decode

  function Rank(s: Step): nat
  {
    match s
    case ComposeUrl => 0
    case Encode => 1
    case Authorize => 2
    case Transfer => 3
    case Decode => 4
  }

  /** Each step is consulted at most once, in the fixed order. */
  predicate InOrder(steps: seq<Step>)
  {
    forall i :: 0 <= i < |steps| - 1 ==> Rank(steps[i]) < Rank(steps[i + 1])
  }

  function Last(steps: seq<Step>): Option<Step>
  {
    if |steps| == 0 then None else Some(steps[|steps| - 1])
  }

  /** The part of `makeRequest` after authorisation: the data task's answer
      is classified, then the data must be present, then it is decoded. */
  function Exchange<R>(env: Environment<R>): (out: (Result<R, RestError>, seq<Step>))
    ensures RequestResult(env.response, env.data, env.utf8).Failure? ==>
      out == (Failure(RequestResult(env.response, env.data, env.utf8).error), [Transfer])
    ensures RequestResult(env.response, env.data, env.utf8).Success? && env.data.None? ==>
      out == (Failure(NoData(env.transportError)), [Transfer])
    ensures RequestResult(env.response, env.data, env.utf8).Success? && env.data.Some? ==>
      && out.1 == [Transfer, Decode]
      && (env.decode(env.data.value).Success? ==> out.0 == Success(env.decode(env.data.value).value))
      && (env.decode(env.data.value).Failure? ==> out.0 == Failure(DecodingError(env.decode(env.data.value).error)))
    ensures out.1 == [Transfer] || out.1 == [Transfer, Decode]
    ensures out.0.Success? ==> out.1 == [Transfer, Decode]
    ensures out.0.Failure? ==>
      || (out.0.error.DecodingError? && out.1 == [Transfer, Decode])
      || ((out.0.error.HttpFailure? || out.0.error == WrongResponse || out.0.error.NoData?) && out.1 == [Transfer])
  {
    match RequestResult(env.response, env.data, env.utf8)
    case Failure(e) => (Failure(e), [Transfer])
    case Success(_) =>
      match env.data
      case None => (Failure(NoData(env.transportError)), [Transfer])
      case Some(bytes) =>
        match env.decode(bytes)
        case Success(value) => (Success(value), [Transfer, Decode])
        case Failure(cause) => (Failure(DecodingError(cause)), [Transfer, Decode])
  }

  /** The URL composed (when there are parameters) and the body encoded
      (when there is one): the request reaches authorisation. */
  predicate PreparedRequest<B, R>(request: Request<B>, env: Environment<R>)
  {
    (request.parameters.None? || env.urlComposes) && (request.body.None? || env.encoding.Success?)
  }

  /** `makeRequest`: the result handed to the completion, with the steps
      consulted on the way. Every failure names the step that produced it
      (the last one consulted) and nothing after that step is consulted; in
      particular no request reaches the network unless authorisation, and
      before it encoding and URL composition, succeeded. */
  function MakeRequest<B, R>(request: Request<B>, env: Environment<R>): (out: (Result<R, RestError>, seq<Step>))
    ensures request.parameters.Some? && !env.urlComposes ==>
      out == (Failure(FailedToComposeUrl), [ComposeUrl])
    ensures (request.parameters.None? || env.urlComposes) && request.body.Some? && env.encoding.Failure? ==>
      out.0 == Failure(EncodingError(env.encoding.error))
    ensures PreparedRequest(request, env) && env.authorize.Failure? ==>
      out.0 == Failure(AuthError(env.authorize.error))
    ensures PreparedRequest(request, env) && env.authorize.Success? ==> out.0 == Exchange(env).0
    ensures InOrder(out.1)
    ensures out.0 == Failure(FailedToComposeUrl) ==> out.1 == [ComposeUrl]
    ensures out.0.Failure? && out.0.error.EncodingError? ==> Last(out.1) == Some(Encode)
    ensures out.0.Failure? && out.0.error.AuthError? ==> Last(out.1) == Some(Authorize)
    ensures out.0.Failure? && (out.0.error.HttpFailure? || out.0.error == WrongResponse || out.0.error.NoData?) ==>
      Last(out.1) == Some(Transfer)
    ensures out.0.Failure? && out.0.error.DecodingError? ==> Last(out.1) == Some(Decode)
    ensures out.0.Success? ==> Last(out.1) == Some(Decode)
    ensures Transfer in out.1 ==>
      && env.authorize.Success?
      && (request.body.Some? ==> env.encoding.Success?)
      && (request.parameters.Some? ==> env.urlComposes)
    ensures out.0.Failure? ==> !out.0.error.NetworkError? && !out.0.error.WrongRequest?
  {
    var composeSteps := if request.parameters.Some? then [ComposeUrl] else [];
    var encodeSteps := composeSteps + if request.body.Some? then [Encode] else [];
    if request.parameters.Some? && !env.urlComposes then
      (Failure(FailedToComposeUrl), composeSteps)
    else if request.body.Some? && env.encoding.Failure? then
      (Failure(EncodingError(env.encoding.error)), encodeSteps)
    else if env.authorize.Failure? then
      (Failure(AuthError(env.authorize.error)), encodeSteps + [Authorize])
    else
      var exchange := Exchange(env);
      (exchange.0, encodeSteps + [Authorize] + exchange.1)
  }

  /** A failed authorisation means no network exchange: the outcome is the
      same whatever the network would have answered. */
  lemma AuthFailureSkipsNetwork<B, R>(
    request: Request<B>, env: Environment<R>,
    response: Option<Response>, data: Option<Bytes>, decode: Bytes -> Result<R, Cause>)
    requires request.parameters.None? || env.urlComposes
    requires request.body.None? || env.encoding.Success?
    requires env.authorize.Failure?
    ensures MakeRequest(request, env).0 == Failure(AuthError(env.authorize.error))
    ensures MakeRequest(request, env.(response := response, data := data, decode := decode)) == MakeRequest(request, env)
  {
  }

  /** `makeTask`: every path of `makeRequest` calls the completion exactly
      once, given that the authorisation strategy and the data task each call
      back exactly once; the environment gives each of them one answer. */
  function MakeTask<B, R>(request: Request<B>, env: Environment<R>): (t: Task<R, RestError>)
    ensures ExactlyOnce(t)
  {
    Resolved(MakeRequest(request, env).0)
  }

  /** The `request` overloads without a response body: any success becomes
      `()`, failures are kept unchanged. */
  function RequestVoid<B, R>(request: Request<B>, env: Environment<R>): (t: Task<(), RestError>)
    ensures ExactlyOnce(t)
    ensures Outcome(t).Success? <==> MakeRequest(request, env).0.Success?
    ensures Outcome(t).Failure? ==> Outcome(t).error == MakeRequest(request, env).0.error
  {
    MapSuccess(MakeTask(request, env), (_: R) => ())
  }
}
