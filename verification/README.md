# Plant disease detection: prediction server and client API service

A Dafny model of the core of a plant-disease detection app. The app has two
halves.

- **The prediction server** (`backend/app.py`). At start-up it inverts the
  class-index file into an index-to-class table. Its `POST /predict` handler
  then does four things: it takes the uploaded `image` part; it asks the
  classifier for a class index and a confidence; it looks the class up; and it
  answers with a ten-field record. That record holds a display name built by
  two `str.replace` passes plus the "Healthy Plant" rule, the guidance-table
  fields with their fall-backs, and an `is_healthy` flag found by a
  case-insensitive substring test. On failure the handler answers 400 or 500
  with an `error` message.
- **The client API service** (`services/apiService.ts`). It holds a base URL,
  which defaults to the configured one and can be changed. It builds the
  `/predict` and `/health` requests, races `fetch` against a 30-second abort
  timer, and turns whatever happens into an `ApiResponse` or a connection flag,
  without ever throwing.

Files:

- `options.dfy`: module `Options`, the optional value.
- `text.dfy`: module `Text`, the Python string operations the handler uses:
  `in` (through a leftmost search), `endswith`, `lower`, and `replace` with
  its left-to-right, non-overlapping scan.
- `decimal.dfy`: module `Decimal`, decimal rendering of naturals, shared by
  Python's `str(n)` and JavaScript's `${n}`, together with its inverse.
- `backend.dfy`: module `Backend`, the server.
- `api_config.dfy`: module `ApiConfig`, the client configuration constants
  (`config/api.ts`).
- `api_client.dfy`: module `ApiClient`, the client service.
- `examples_lemmas.dfy`: module `Examples`, which applies the general results to
  class names from the guidance table, to one made-up name spelt with a
  capital "Healthy", and to replies as the client receives them.

Effects become inputs. The classifier is a function `classify` from the
uploaded file to a class index and score, or to the message of the exception
it raised. The network is a function from the request issued to a
`Settlement`, which says when `fetch` would settle and with what, or that it
never settles. The abort error's message is a parameter.

## Model

| member | source | states |
|---|---|---|
| `Text.Find` | backend/app.py:199 | the search behind `in`: the index found is an occurrence of the pattern and no earlier index is one; `None` means there is no occurrence at all |
| `Text.Contains` | backend/app.py:199 | Python's `sub in s` is true exactly when `sub` occurs somewhere in `s` |
| `Text.Replace` | backend/app.py:185 | `str.replace` as a left-to-right scan; with a non-empty pattern, a replacement as long as the pattern keeps the length (the `'_'` to `' '` pass) and a longer one never shortens the text (the `'__'` to `' - '` pass) |
| `Text.ReplaceWithoutOccurrence` | backend/app.py:185 | text in which the pattern never occurs is returned unchanged |
| `Text.ReplaceAtLeftmost` | backend/app.py:185 | at the leftmost occurrence of the pattern, the text before it is kept, the occurrence becomes the replacement, and replacement carries on after it |
| `Text.ReplaceIsLeftmost` | backend/app.py:185 | the character scan that models `str.replace` matches Python's documented description on every input with a non-empty pattern: with no occurrence (per `find`) the input is returned; otherwise the text before the leftmost occurrence, then the replacement, then the replacement of what follows |
| `Text.ReplaceRemovesChar` | backend/app.py:185 | replacing a single character by text that lacks it leaves no copy of that character |
| `Text.ReplaceKeepsInfix` | backend/app.py:185 | any stretch of a replacement's result that avoids the characters of the replacement text already occurs in the input |
| `Text.EndsWith` | backend/app.py:186 | `s.endswith(suffix)` holds exactly when `s` is some text followed by `suffix` |
| `Text.Lower` | backend/app.py:199 | `lower()` keeps the length, turns each upper-case ASCII letter into the same letter in lower case, leaves no upper-case ASCII letter, and keeps every other character in place |
| `Decimal.Show` | backend/app.py:206 | the decimal text of a number, as `str` gives it for the index in a `KeyError` message (and `${status}` at services/apiService.ts:60): digits only, with no leading zero |
| `Decimal.ValueOfShow` | backend/app.py:206 | reading back the decimal numeral of `n` gives `n`, so the rendering used in error messages loses nothing |
| `Backend.InvertClassIndices` | backend/app.py:24 | the inverted table's keys are exactly the indices listed in the class-index file |
| `Backend.InvertKeepsLastClass` | backend/app.py:24 | an index maps to the last class listed with it, because a later entry overwrites an earlier one in the dictionary comprehension |
| `Backend.InvertedEntriesAreListed` | backend/app.py:24 | every (index, class) pair of the inverted table is a (class, index) entry of the file |
| `Backend.LabelsInvertClassIndices` | backend/app.py:22-24 | when the file's indices are distinct, the table sends each class's index back to that class |
| `Backend.Start` | backend/app.py:22-24 | the server's label table covers exactly the file's indices, and its guidance table is the one given |
| `Backend.FormatLabel` | backend/app.py:185 | the formatted label contains no underscore and is at least as long as the class name |
| `Backend.FormatLabelKeepsWords` | backend/app.py:185 | formatting only inserts spaces and dashes: a word of the label without either was already in the class name |
| `Backend.IsHealthy` | backend/app.py:199 | the flag is set exactly when "healthy" occurs in the lowercased class name |
| `Backend.DiseaseName` | backend/app.py:185-187 | the displayed name is "Healthy Plant" when the formatted label ends with "healthy", and the formatted label otherwise; it never ends with "healthy" and contains no underscore |
| `Backend.FormattedWordInLowerClass` | backend/app.py:185-199 | a word of the formatted label without spaces or dashes occurs, lowercased, in the lowercased class name |
| `Backend.HealthyLabelImpliesHealthyFlag` | backend/app.py:185-199 | a formatted label that ends with "healthy" or reads "Healthy Plant" comes from a class name that the case-insensitive test flags healthy |
| `Backend.HealthyNameImpliesHealthyFlag` | backend/app.py:185-199 | whenever the record says "Healthy Plant", its `is_healthy` flag is true |
| `Backend.Field` | backend/app.py:192-197 | `simple.get(field, "")`: the entry's text, or "" when the entry lacks the field |
| `Backend.GuidanceFor` | backend/app.py:184 | a listed class gets its own guidance entry; any other class gets an entry whose name is the class name and whose every other field reads as "" |
| `Backend.BuildPrediction` | backend/app.py:184-200 | the record passes class and confidence through; its disease name is the displayed name; its `is_healthy` follows the case-insensitive test; "Healthy Plant" implies healthy; guidance fields come from the class's table entry, each missing field read as ""; an unlisted class gets its own name as simple name and "" for every other field |
| `Backend.Predict` | backend/app.py:157-210 | the status is 200, 400 or 500, and 200 exactly when a record is returned. A missing `image` part gives 400 "No image uploaded", and only that case gives 400. A request that cannot be read gives 500 with the exception's message. A classifier failure gives 500 "Image processing error: " plus its message. A known index gives 200 with the record built for the indexed class and the classifier's confidence. An unknown index gives 500 "Image processing error: " plus the index in decimal |
| `Backend.MissingImageSkipsClassifier` | backend/app.py:160-162 | a request without an `image` part is answered the same whatever the classifier would say: no prediction is attempted |
| `Backend.PredictNamesIndexedClass` | backend/app.py:180-181 | end to end: with distinct indices in the file, a classifier answering a class's index yields a successful reply naming that class |
| `Examples.FormatTargetSpot` | backend/app.py:185 | `Tomato__Target_Spot` is displayed as `Tomato - Target Spot` |
| `Examples.TargetSpotRecord` | backend/app.py:185-190 | the record for `Tomato__Target_Spot` shows the disease name `Tomato - Target Spot` |
| `Examples.FormatPepperBacterialSpot` | backend/app.py:185 | `Pepper__bell___Bacterial_spot` is displayed as `Pepper - bell -  Bacterial spot`: a run of three underscores loses two to the dash and one to a space |
| `Examples.HealthyPepper` | backend/app.py:185-199 | `Pepper__bell___healthy` is displayed as "Healthy Plant" and flagged healthy |
| `Examples.CapitalHealthyKeepsItsName` | backend/app.py:186-199 | the made-up name `Tomato_Healthy` (not in the guidance table) is flagged healthy, because that test ignores case, but keeps the name `Tomato Healthy`, because `endswith` does not ignore case |
| `Examples.SharedIndexKeepsLastClass` | backend/app.py:24 | when two classes share an index, the one listed last wins |
| `Examples.UnknownIndexReply` | backend/app.py:181-206 | an index missing from the table is answered with 500 and "Image processing error: 38" |
| `Examples.ServerErrorSeenByClient` | services/apiService.ts:58-74 | a 500 reply reaches the client as a failed `ApiResponse` whose error is "HTTP 500: " followed by the body text |
| `Examples.ClientSendsTheServersPart` | services/apiService.ts:38 | the client appends the image under the form field `image`, the part the server reads at backend/app.py:160 |
| `ApiClient.UrlsSeparate` | services/apiService.ts:47-84 | distinct base URLs give distinct prediction URLs and distinct health URLs, and no prediction URL is a health URL |
| `ApiClient.PredictRequest` | services/apiService.ts:35-54 | the prediction request is a `POST` to base URL + `/predict` carrying the image in the form field `image` as `image/jpeg` named `plant_image.jpg`, with multipart content type and the 30000 ms abort timer |
| `ApiClient.HealthRequest` | services/apiService.ts:81-87 | the connection test is a bodiless `GET` to base URL + `/health` with the 30000 ms abort timer |
| `ApiClient.WithTimeout` | services/apiService.ts:44-56 | a settlement before 30000 ms is what `fetch` yields; otherwise `fetch` rejects with the abort error |
| `ApiClient.HttpErrorMessageDecodes` | services/apiService.ts:58-61 | the message thrown for a non-ok response determines its status and body text |
| `ApiClient.PredictResponse` | services/apiService.ts:32-75 | exactly one of data and error is present. Success happens exactly when the status is in 200..299 and the body parses, and the data is then the parsed body. A non-ok status gives "HTTP <status>: <body text>". A parse failure gives the parser's message. A rejection gives the `Error`'s message, or "Unknown error occurred" for any other thrown value |
| `ApiClient.TimeoutFailsWithAbortMessage` | services/apiService.ts:44-74 | a request the timer beats fails with the abort error's message, whatever the network would have answered |
| `ApiClient.ConnectionResult` | services/apiService.ts:79-95 | the connection test is true exactly when a response arrives with a status in 200..299 |
| `ApiClient.PredictionNeedsConnection` | services/apiService.ts:58-90 | a successful prediction implies that the same outcome passes the connection test; a failed test implies a failed prediction that carries an error |
| `ApiClient.ApiService.constructor` | services/apiService.ts:28-30 | a new service stores the base URL it is given (by default the configured one) |
| `ApiClient.ApiService.GetBaseUrl` | services/apiService.ts:102-104 | `getBaseUrl()` returns the stored base URL |
| `ApiClient.ApiService.UpdateBaseUrl` | services/apiService.ts:98-104 | after `updateBaseUrl(u)`, `getBaseUrl()` returns `u` |
| `ApiClient.ApiService.PredictPlantDisease` | services/apiService.ts:32-76 | the result always has exactly one of data and error, and it is the outcome of the prediction request to the current base URL after the timeout race |
| `ApiClient.ApiService.TestConnection` | services/apiService.ts:79-95 | the result is the connection verdict on the health request to the current base URL after the timeout race |
| `ApiClient.DefaultThenUpdate` | config/api.ts:18-21 | a new service talks to `http://localhost:5000` (`getApiBaseUrl()`), and after `updateBaseUrl(u)` it reports `u` |

## Left out

- Image decoding, resizing and normalisation (PIL, numpy) and the TFLite
  interpreter are not modelled. They become the `classify` parameter, and the
  confidence is an opaque real that is passed through unchanged.
- Flask routing, CORS, logging and the JSON serialisation of replies are not
  modelled. A reply is a status plus a structured body.
- The `/health` route of the server is left out. It returns a fixed body, and
  the client reads only the status, which is an input to `ConnectionResult`.
- Loading `class_indices.json` and the model file at start-up is left out,
  including the start-up failure path. The parsed file is an input: an
  ordered list of (class, index) entries.
- The prose of the guidance table is not reproduced. The table is a
  parameter; only the lookup and its fall-backs are modelled.
- Backend.Predict: the outer `except` is modelled as a request whose parts
  cannot be read. Other failures of the framework itself are not modelled.
- Text.Lower: lowercases the ASCII letters `A`..`Z` only. Python lowercases
  all of Unicode. No non-ASCII character lowercases to a letter of "healthy",
  so the health test is unaffected.
- Text.ReplaceIsLeftmost, Text.ReplaceAtLeftmost, Text.ReplaceRemovesChar, Text.ReplaceKeepsInfix:
  stated for a non-empty pattern. `Text.Replace` also models Python's
  empty-pattern case, which the app never uses.
- ApiClient.WithTimeout: abort timers, `clearTimeout` and asynchronous
  scheduling are not modelled. A settlement exactly at 30000 ms counts as
  beaten by the timer. The abort error's message depends on the runtime, so
  it is a parameter. The timer is cleared as soon as `fetch` resolves
  (services/apiService.ts:56 and 89), so reading the body with `text()` or
  `json()` lies outside the 30000 ms bound; the model takes that read to
  finish.
- ApiClient.PredictResponse: only a `SyntaxError` from `response.json()` is
  modelled. `response.text()` is taken to succeed, and the cast of the parsed
  body to `PredictionResult` is not checked, exactly as in the source.
- `console.error` logging in the client is not modelled.
- The screens (`app/screens/...`) are not part of this model. None of them
  imports the service: the detect screen posts to the server with its own
  `fetch` and its own 15000 ms race (app/screens/(tabs)/detect.tsx:56-86).
  The onboarding screen and the layout are not modelled either.
