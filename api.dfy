/**
 * `fetchHFSApi`: builds one request from an endpoint template and a request descriptor,
 * hands it to `fetch`, and folds every way the exchange can end into one result record.
 *
 * The network is a parameter: `fetch` is a function from the request to what came back
 * (an exception, or a response whose JSON body either parsed or failed to parse).
 */
module Api {
  import opened Wrappers
  import opened Js
  import opened Template

  datatype HttpMethod = Get | Post

  /** The request descriptor `init`; an absent `postBody` or `getParams` is `Undefined`. */
  datatype Init = Init(token: string, httpMethod: HttpMethod, postBody: JsValue, getParams: JsValue)

  /** The text `JSON.stringify(value)` produces; the serialiser itself is not modelled. */
  datatype Body = JsonText(value: JsValue)

  /** What is handed to `fetch`: the URL and the `RequestInit` options. */
  datatype Request = Request(url: string, headers: map<string, string>, httpMethod: HttpMethod, body: Option<Body>)

  /** `res.json()`: a rejected promise (with `String(e)` of its reason) or the parsed value. */
  datatype Parse = ParseFailed(error: string) | Parsed(json: JsValue)

  /** How `await fetch(...)` ends: it throws (with `String(e)`), or a response arrives. */
  datatype FetchOutcome =
    | Threw(error: string)
    | Responded(ok: bool, statusText: string, body: Parse)

  /** The returned record; `None` is a key the record does not have. */
  datatype ApiResult = ApiResult(ok: bool, payload: Option<JsValue>, errMsg: Option<JsValue>)

  const JsonContentType: string := "application/json"

  /** The two headers every request carries. */
  function Headers(token: string): (h: map<string, string>)
    ensures h.Keys == {"Content-Type", "Hfs-token"}
    ensures h["Content-Type"] == JsonContentType && h["Hfs-token"] == token
  {
    map["Content-Type" := JsonContentType, "Hfs-token" := token]
  }

  /** The request `fetchHFSApi` sends for `url` and `init`. */
  function RequestFor(url: string, init: Init): (r: Request)
    ensures r.url == FillTemplate(url, init.getParams)
    ensures !Truthy(init.getParams) ==> r.url == url
    ensures r.headers.Keys == {"Content-Type", "Hfs-token"}
    ensures r.headers["Content-Type"] == JsonContentType && r.headers["Hfs-token"] == init.token
    ensures r.httpMethod == init.httpMethod
    ensures r.body.Some? <==> Truthy(init.postBody)
    ensures r.body.Some? ==> r.body.value == JsonText(init.postBody)
  {
    Request(FillTemplate(url, init.getParams), Headers(init.token), init.httpMethod,
            if Truthy(init.postBody) then Some(JsonText(init.postBody)) else None)
  }

  /** The `options` object, whose `body` is attached after it is created. */
  class RequestOptions {
    var headers: map<string, string>
    var httpMethod: HttpMethod
    var body: Option<Body>

    constructor (headers: map<string, string>, httpMethod: HttpMethod)
      ensures this.headers == headers && this.httpMethod == httpMethod && body == None
    {
      this.headers := headers;
      this.httpMethod := httpMethod;
      body := None;
    }

    /** The request these options make for `url`. */
    function ToRequest(url: string): (r: Request)
      reads this
      ensures r.url == url && r.headers == headers && r.httpMethod == httpMethod && r.body == body
    {
      Request(url, headers, httpMethod, body)
    }
  }

  /** Fills the URL, creates the options and attaches the body when `postBody` is truthy. */
  method BuildRequest(url: string, init: Init) returns (parsedUrl: string, options: RequestOptions)
    ensures fresh(options)
    ensures options.ToRequest(parsedUrl) == RequestFor(url, init)
  {
    parsedUrl := FillTemplate(url, init.getParams);
    options := new RequestOptions(Headers(init.token), init.httpMethod);
    if Truthy(init.postBody) {
      options.body := Some(JsonText(init.postBody));
    }
  }

  function Failure(errMsg: JsValue): (r: ApiResult)
    ensures !r.ok && r.payload.None? && r.errMsg == Some(errMsg)
  {
    ApiResult(false, None, Some(errMsg))
  }

  /** The response reached the application and its `code` is the number 0. */
  predicate Succeeded(outcome: FetchOutcome) {
    && outcome.Responded? && outcome.ok
    && outcome.body.Parsed?
    && GetProperty(outcome.body.json, "code") == Some(Number(0))
  }

  /**
   * The result for one outcome. `nullAccessError` is `String(e)` of the TypeError the engine
   * throws when `json_data.code` is read from a `null` body.
   */
  function Classify(outcome: FetchOutcome, nullAccessError: string): (r: ApiResult)
    ensures r.ok <==> Succeeded(outcome)
    ensures r.ok <==> r.payload.Some?
    ensures r.ok <==> r.errMsg.None?
    ensures r.ok ==> r.payload == GetProperty(outcome.body.json, "data")
    ensures outcome.Threw? ==> r.errMsg == Some(Str(outcome.error))
    ensures outcome.Responded? && !outcome.ok ==> r.errMsg == Some(Str(outcome.statusText))
    ensures outcome.Responded? && outcome.ok && outcome.body.ParseFailed? ==>
              r.errMsg == Some(Str(outcome.body.error))
    ensures outcome.Responded? && outcome.ok && outcome.body.Parsed?
            && (outcome.body.json.Null? || outcome.body.json.Undefined?) ==>
              r.errMsg == Some(Str(nullAccessError))
    ensures outcome.Responded? && outcome.ok && outcome.body.Parsed? && !Succeeded(outcome)
            && !(outcome.body.json.Null? || outcome.body.json.Undefined?) ==>
              r.errMsg == GetProperty(outcome.body.json, "msg")
  {
    match outcome
    case Threw(error) => Failure(Str(error))
    case Responded(ok, statusText, body) =>
      if !ok then Failure(Str(statusText))
      else
        match body
        case ParseFailed(error) => Failure(Str(error))
        case Parsed(json) =>
          match GetProperty(json, "code")
          case None => Failure(Str(nullAccessError))
          case Some(code) =>
            if code == Number(0) then ApiResult(true, GetProperty(json, "data"), None)
            else Failure(GetProperty(json, "msg").value)
  }

  /** `fetchHFSApi`: build the request, send it, classify what comes back. */
  method FetchHfsApi(url: string, init: Init, fetch: Request -> FetchOutcome, nullAccessError: string)
    returns (r: ApiResult)
    ensures r == Classify(fetch(RequestFor(url, init)), nullAccessError)
  {
    var parsedUrl, options := BuildRequest(url, init);
    var outcome := fetch(options.ToRequest(parsedUrl));
    r := Classify(outcome, nullAccessError);
  }

  /** An HTTP failure is reported by its status text; the body is never read. */
  lemma HttpFailureIgnoresBody(statusText: string, body1: Parse, body2: Parse, nullAccessError: string)
    ensures Classify(Responded(false, statusText, body1), nullAccessError)
            == Classify(Responded(false, statusText, body2), nullAccessError)
            == Failure(Str(statusText))
  {
  }

  /** The comparison with 0 is strict: a `code` of the string "0" is a failure. */
  lemma StringZeroCodeFails(fields: map<string, JsValue>, nullAccessError: string)
    requires "code" in fields && fields["code"] == Str("0")
    ensures !Classify(Responded(true, "OK", Parsed(Object(fields))), nullAccessError).ok
  {
  }

  /** A success result carries the `data` field, or `undefined` when the body has none. */
  lemma SuccessWithoutData(nullAccessError: string)
    ensures Classify(Responded(true, "OK", Parsed(Object(map["code" := Number(0)]))), nullAccessError)
            == ApiResult(true, Some(Undefined), None)
  {
  }

  /** A falsy `postBody` (`false`, `0`, `""`, `null`) sends the same request as no `postBody` at all. */
  lemma FalsyPostBodyIsNoBody(url: string, init: Init)
    requires !Truthy(init.postBody)
    ensures RequestFor(url, init) == RequestFor(url, init.(postBody := Undefined))
    ensures RequestFor(url, init).body == None
  {
  }
}

/** The response cases of the API client on concrete bodies. */
module ApiExamples {
  import opened Wrappers
  import opened Js
  import opened Api
  import Constants
  import EndpointExamples

  /** The exam overview request for exam "123" goes to the filled URL with the token header. */
  lemma ExamOverviewRequest(token: string)
    ensures var r := RequestFor(Constants.ExamOverview, Init(token, Get, Undefined, Object(map["examId" := Str("123")])));
            && r.url == "https://hfs-be.yunxiao.com/v3/exam/123/overview"
            && r.headers["Hfs-token"] == token
            && r.body == None
  {
    EndpointExamples.ExamOverviewFilled();
  }

  /** `{code: 0, data: {foo: 1}}` gives a success whose payload is `{foo: 1}`. */
  lemma SuccessPayload(nullAccessError: string)
    ensures Classify(Responded(true, "OK", Parsed(Object(map["code" := Number(0), "data" := Object(map["foo" := Number(1)])]))),
                     nullAccessError)
            == ApiResult(true, Some(Object(map["foo" := Number(1)])), None)
  {
  }

  /** `{code: 1, msg: "bad login"}` with HTTP 200 gives a failure with message "bad login". */
  lemma ApplicationError(nullAccessError: string)
    ensures Classify(Responded(true, "OK", Parsed(Object(map["code" := Number(1), "msg" := Str("bad login")]))),
                     nullAccessError)
            == ApiResult(false, None, Some(Str("bad login")))
  {
  }

  /** An HTTP 500 gives a failure with the status text, whatever the body. */
  lemma ServerError(body: Parse, nullAccessError: string)
    ensures Classify(Responded(false, "Internal Server Error", body), nullAccessError)
            == ApiResult(false, None, Some(Str("Internal Server Error")))
  {
  }

  /** A transport exception gives a failure with the exception's text. */
  lemma TransportError(nullAccessError: string)
    ensures Classify(Threw("TypeError: Network request failed"), nullAccessError)
            == ApiResult(false, None, Some(Str("TypeError: Network request failed")))
  {
  }

  /** A `null` body makes reading `code` throw; the thrown error's text is the message. */
  lemma NullBody(nullAccessError: string)
    ensures Classify(Responded(true, "OK", Parsed(Null)), nullAccessError)
            == ApiResult(false, None, Some(Str(nullAccessError)))
  {
  }

  /** A body that is not an object has no `code` and no `msg`: a failure whose message is `undefined`. */
  lemma NumberBody(nullAccessError: string)
    ensures Classify(Responded(true, "OK", Parsed(Number(0))), nullAccessError)
            == ApiResult(false, None, Some(Undefined))
  {
  }
}
