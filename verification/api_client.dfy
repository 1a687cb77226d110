/** The mobile client's API service (`services/apiService.ts`). The network,
    the timer and the JSON parser are not effects here: what `fetch` would
    settle with, and when, is an input, and the service is a total function
    from that input to its result. */
module ApiClient {
  import opened Options
  import Decimal
  import ApiConfig

  datatype HttpMethod = Get | Post

  /** The one multipart part the prediction request carries: the form field
      it is appended under, and the file it names. */
  datatype FilePart = FilePart(field: string, uri: string, mimeType: string, filename: string)

  /** A request as handed to `fetch`. */
  datatype Request = Request(
    verb: HttpMethod,
    url: string,
    contentType: Option<string>,
    image: Option<FilePart>,
    abortAfterMs: nat)

  /** What `response.json()` gives: the parsed value, or the message of the
      `SyntaxError` it rejects with. `J` is whatever JSON value the server
      sent; the client does not look inside it. */
  datatype JsonParse<J> = Parsed(value: J) | SyntaxError(message: string)

  /** A response body, read either as text or as JSON. */
  datatype ResponseBody<J> = ResponseBody(text: string, json: JsonParse<J>)

  /** A value caught by `catch`: an `Error` object (its message), or anything
      else a promise may reject with. */
  datatype Thrown = ErrorObject(message: string) | OtherValue

  /** How the `fetch` promise settles: with a response, or by rejecting. */
  datatype FetchOutcome<J> = Responded(status: nat, body: ResponseBody<J>) | Rejected(thrown: Thrown)

  /** When the network would settle the request, if ever. */
  datatype Settlement<J> = SettlesAt(ms: nat, outcome: FetchOutcome<J>) | NeverSettles

  /** `ApiResponse`: `data` on success, `error` on failure. */
  datatype ApiResponse<J> = ApiResponse(success: bool, data: Option<J>, error: Option<string>)

  /** What the `try` block of `predictPlantDisease` ends with. */
  datatype Attempt<J> = Returned(value: J) | Threw(thrown: Thrown)

  const UnknownErrorMessage := "Unknown error occurred"
  const ImageField := "image"
  const ImageMimeType := "image/jpeg"
  const ImageFilename := "plant_image.jpg"
  const MultipartContentType := "multipart/form-data"
  const HealthEndpoint := "/health"

  /** Exactly one of `data` and `error` is present, as `success` says. */
  predicate WellFormed<J>(r: ApiResponse<J>) {
    if r.success then r.data.Some? && r.error.None? else r.data.None? && r.error.Some?
  }

  /** `response.ok`: the status lies in 200..299. */
  predicate IsOk(status: nat) {
    200 <= status <= 299
  }

  // ---------------------------------------------------------------------
  // Requests

  function PredictUrl(baseUrl: string): string {
    baseUrl + ApiConfig.PredictEndpoint
  }

  function HealthUrl(baseUrl: string): string {
    baseUrl + HealthEndpoint
  }

  /** Requests to two base URLs go to two URLs, and the prediction and health
      URLs of any two base URLs differ. */
  lemma UrlsSeparate(a: string, b: string)
    ensures PredictUrl(a) == PredictUrl(b) ==> a == b
    ensures HealthUrl(a) == HealthUrl(b) ==> a == b
    ensures PredictUrl(a) != HealthUrl(b)
  {
    if PredictUrl(a) == PredictUrl(b) {
      assert a == PredictUrl(a)[..|a|] == PredictUrl(b)[..|b|] == b;
    }
    if HealthUrl(a) == HealthUrl(b) {
      assert a == HealthUrl(a)[..|a|] == HealthUrl(b)[..|b|] == b;
    }
    assert PredictUrl(a)[|PredictUrl(a)| - 1] == 't';
    assert HealthUrl(b)[|HealthUrl(b)| - 1] == 'h';
  }

  /** The `POST` that `predictPlantDisease(imageUri)` issues. */
  function PredictRequest(baseUrl: string, imageUri: string): (r: Request)
    ensures r.verb == Post && r.url == PredictUrl(baseUrl)
    ensures r.image.Some? && r.image.value.field == "image"
    ensures r.image == Some(FilePart(ImageField, imageUri, ImageMimeType, ImageFilename))
    ensures r.contentType == Some(MultipartContentType)
    ensures r.abortAfterMs == ApiConfig.TimeoutMs
  {
    Request(Post, PredictUrl(baseUrl), Some(MultipartContentType),
            Some(FilePart(ImageField, imageUri, ImageMimeType, ImageFilename)), ApiConfig.TimeoutMs)
  }

  /** The `GET` that `testConnection()` issues. */
  function HealthRequest(baseUrl: string): (r: Request)
    ensures r.verb == Get && r.url == HealthUrl(baseUrl)
    ensures r.image.None? && r.contentType.None?
    ensures r.abortAfterMs == ApiConfig.TimeoutMs
  {
    Request(Get, HealthUrl(baseUrl), None, None, ApiConfig.TimeoutMs)
  }

  // ---------------------------------------------------------------------
  // The timeout race

  /** The timer aborts the request unless the network settles first; the
      abort rejects `fetch` with an `Error` whose message is `abortMessage`.
      A settlement at the very moment the timer fires counts as too late. */
  function WithTimeout<J>(s: Settlement<J>, abortMessage: string): (o: FetchOutcome<J>)
    ensures s.SettlesAt? && s.ms < ApiConfig.TimeoutMs ==> o == s.outcome
    ensures s.NeverSettles? || s.ms >= ApiConfig.TimeoutMs ==> o == Rejected(ErrorObject(abortMessage))
  {
    match s
    case SettlesAt(ms, outcome) =>
      if ms < ApiConfig.TimeoutMs then outcome else Rejected(ErrorObject(abortMessage))
    case NeverSettles => Rejected(ErrorObject(abortMessage))
  }

  // ---------------------------------------------------------------------
  // predictPlantDisease

  /** The message of the `Error` thrown for a non-ok status. */
  function HttpErrorMessage(status: nat, text: string): string {
    "HTTP " + Decimal.Show(status) + ": " + text
  }

  /** Splits such a message back into status and body text. */
  function ParseHttpErrorMessage(m: string): Option<(nat, string)> {
    if |m| < 5 || m[..5] != "HTTP " then None
    else
      var rest := m[5..];
      var k := Decimal.DigitRun(rest);
      if k == 0 || |rest| < k + 2 || rest[k..k + 2] != ": " then None
      else Some((Decimal.Value(rest[..k]), rest[k + 2..]))
  }

  /** The failure message of a non-ok response determines its status and
      body text. */
  lemma HttpErrorMessageDecodes(status: nat, text: string)
    ensures ParseHttpErrorMessage(HttpErrorMessage(status, text)) == Some((status, text))
  {
    var m := HttpErrorMessage(status, text);
    var digits := Decimal.Show(status);
    assert m[..5] == "HTTP ";
    var rest := m[5..];
    assert rest == digits + (": " + text);
    Decimal.DigitRunOfNumeral(digits, ": " + text);
    assert rest[..|digits|] == digits;
    assert rest[|digits|..|digits| + 2] == ": ";
    assert rest[|digits| + 2..] == text;
    Decimal.ValueOfShow(status);
  }

  /** The `try` block: a non-ok status throws an `Error` built from the status
      and body text, an ok status returns the parsed body as it is, and any
      rejection propagates. */
  function TryPredict<J>(o: FetchOutcome<J>): Attempt<J> {
    match o
    case Rejected(t) => Threw(t)
    case Responded(status, body) =>
      if !IsOk(status) then Threw(ErrorObject(HttpErrorMessage(status, body.text)))
      else
        match body.json
        case Parsed(v) => Returned(v)
        case SyntaxError(message) => Threw(ErrorObject(message))
  }

  /** `error instanceof Error ? error.message : 'Unknown error occurred'`. */
  function ErrorText(t: Thrown): string {
    match t
    case ErrorObject(message) => message
    case OtherValue => UnknownErrorMessage
  }

  /** `predictPlantDisease` once `fetch` has settled (or been aborted): it
      never throws, and reports exactly one of data and error. */
  function PredictResponse<J>(o: FetchOutcome<J>): (r: ApiResponse<J>)
    ensures WellFormed(r)
    ensures r.success <==> o.Responded? && IsOk(o.status) && o.body.json.Parsed?
    ensures r.success ==> r.data == Some(o.body.json.value)
    ensures o.Responded? && !IsOk(o.status) ==>
              r.error == Some(HttpErrorMessage(o.status, o.body.text))
    ensures o.Responded? && IsOk(o.status) && o.body.json.SyntaxError? ==>
              r.error == Some(o.body.json.message)
    ensures o.Rejected? && o.thrown.ErrorObject? ==> r.error == Some(o.thrown.message)
    ensures o.Rejected? && o.thrown.OtherValue? ==> r.error == Some(UnknownErrorMessage)
  {
    match TryPredict(o)
    case Returned(v) => ApiResponse(true, Some(v), None)
    case Threw(t) => ApiResponse(false, None, Some(ErrorText(t)))
  }

  /** A request the timer beats fails with the abort error's message,
      whatever the network would have answered. */
  lemma TimeoutFailsWithAbortMessage<J>(s: Settlement<J>, abortMessage: string)
    requires s.NeverSettles? || s.ms >= ApiConfig.TimeoutMs
    ensures PredictResponse(WithTimeout(s, abortMessage)) == ApiResponse(false, None, Some(abortMessage))
  {
  }

  // ---------------------------------------------------------------------
  // testConnection

  /** `testConnection` once `fetch` has settled: `response.ok`, and `false`
      when `fetch` rejects. */
  function ConnectionResult<J>(o: FetchOutcome<J>): (up: bool)
    ensures up <==> o.Responded? && IsOk(o.status)
  {
    match o
    case Responded(status, _) => IsOk(status)
    case Rejected(_) => false
  }

  /** A successful prediction implies the same response would pass the
      connection test; a failed connection test implies a failed prediction
      carrying an error. */
  lemma PredictionNeedsConnection<J>(o: FetchOutcome<J>)
    ensures PredictResponse(o).success ==> ConnectionResult(o)
    ensures !ConnectionResult(o) ==> !PredictResponse(o).success && PredictResponse(o).error.Some?
  {
  }

  // ---------------------------------------------------------------------
  // The service object

  /** `ApiService`: the base URL is its only state. */
  class ApiService {
    var baseUrl: string

    /** `new ApiService(baseUrl = getApiBaseUrl())`. */
    constructor(baseUrl: string := ApiConfig.ApiBaseUrl())
      ensures this.baseUrl == baseUrl
    {
      this.baseUrl := baseUrl;
    }

    /** `getBaseUrl()`: the URL requests currently go to. */
    function GetBaseUrl(): (u: string)
      reads this
      ensures u == baseUrl
    {
      baseUrl
    }

    method UpdateBaseUrl(newUrl: string)
      modifies this
      ensures GetBaseUrl() == newUrl
    {
      baseUrl := newUrl;
    }

    /** `predictPlantDisease(imageUri)`: `network` says when and how the
        request issued would settle. */
    method PredictPlantDisease<J>(imageUri: string, network: Request -> Settlement<J>, abortMessage: string)
      returns (r: ApiResponse<J>)
      ensures WellFormed(r)
      ensures r == PredictResponse(WithTimeout(network(PredictRequest(baseUrl, imageUri)), abortMessage))
    {
      var request := PredictRequest(baseUrl, imageUri);
      r := PredictResponse(WithTimeout(network(request), abortMessage));
    }

    /** `testConnection()`. */
    method TestConnection<J>(network: Request -> Settlement<J>, abortMessage: string) returns (up: bool)
      ensures up == ConnectionResult(WithTimeout(network(HealthRequest(baseUrl)), abortMessage))
    {
      up := ConnectionResult(WithTimeout(network(HealthRequest(baseUrl)), abortMessage));
    }
  }

  /** A fresh service talks to the configured server, and after
      `updateBaseUrl(u)` it reports `u`. */
  method DefaultThenUpdate(u: string) returns (before: string, after: string)
    ensures before == ApiConfig.BaseUrl
    ensures after == u
  {
    var service := new ApiService();
    before := service.GetBaseUrl();
    service.UpdateBaseUrl(u);
    after := service.GetBaseUrl();
  }
}
