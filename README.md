# HPrint networking, list view and colour core in Dafny

This project models three parts of the HPrint iOS app and its BaseKitSwift pod.

- **`HTTPRequest`** is the app's wrapper around Alamofire. It covers:
  - the `ResponseError` cases and the message each one describes;
  - the default error handler, which either shows a message or raises a network alert;
  - how a completed response is resolved to data, JSON or an error;
  - the request `Options`, with the default headers;
  - how `dataRequest` builds the outgoing request from the adapter's output;
  - the JSON step of `request`;
  - how `uploadMultipartFormData` flattens its parameters into form fields.
- **`BKDataContainer` / `BKListView`** are a sectioned table with a load status, plus the view that shows the indicator, the reload view or the content, according to that status.
- **`UIColor(number:)`** takes a packed `0xRRGGBBAA` (or `0xRRGGBB`) number apart into its bytes. `UIColor.random` forces the alpha byte of a random number to `0xff`.

Modules:

| file | module | contents |
|---|---|---|
| `wrappers.dfy` | `Wrappers` | `Option`, `Result` |
| `http_errors.dfy` | `HTTPErrors` | `NSError`, `ResponseError`, message kinds, `Description`, `DefaultHandleRequestError`, the `%i` decimal formatting with its parser |
| `http_resolve.dfy` | `HTTPResolve` | the response a session delivers, the `dataRequest` completion rule, the JSON step, `jsonResponseResolve` |
| `http_options.dfy` | `HTTPOptions` | `HTTPHeaders` as an ordered list with case-insensitive names, `Options.init`, `default`, `silence` |
| `http_dispatch.dfy` | `HTTPDispatch` | `dataRequest`, `request` and `uploadMultipartFormData` as methods proved against value-level specifications |
| `list_view.dfy` | `BKList` | the container and list-view classes, and the table edits as functions |
| `color.dfy` | `ColorBytes` | byte extraction from the packed number |

Several things outside the core become parameters:
- the transport's answer, as a `Response` value;
- the JSON parser, as `parse: Bytes -> Option<J>`;
- `HTTPURLResponse.localizedString(forStatusCode:)`, as `Environment.statusText`;
- the app's display name;
- `URLEncoding.queryComponents(fromKey:value:)`.

The three static closure slots become a `Hooks` value that records which slots are set. Calls into those slots, and the warning alert, are returned as a list of `Effect`s.

A localized message is modelled as a `MessageKind`: which message it is, plus the values formatted into it.

`fatalError` for a non-dictionary parameter value without JSON encoding is a `Dispatch` with no request and no completion.

The list view's two installed closures are modelled by the container's `listView` reference. Every status assignment and every data change is recorded in `notifications`, whether or not a list view has installed its closures yet. The view's `display` always equals the replay of those notifications from the initial display; this is the class invariant `Observed`.

## Model

| member | source | states |
|---|---|---|
| `HTTPErrors.Description` | HTTPRequest/HTTPRequest.swift:65-111 | each error case gets its own message; a status code is shown with its localized status text; network errors get a network message, and only network errors do |
| `HTTPErrors.NetworkDescription` | HTTPRequest/HTTPRequest.swift:76-107 | the five recognised URL error codes and POSIX 50 each get their own message; every other error falls back to "check network" carrying `domain-code`; POSIX 50 names the app |
| `HTTPErrors.URLErrorKindsDistinct` | HTTPRequest/HTTPRequest.swift:79-95 | the recognised URL error codes give pairwise different messages |
| `HTTPErrors.DomainCode` | HTTPRequest/HTTPRequest.swift:106 | the `%@-%i` text starts with the domain and a dash, and the rest parses back to the code |
| `HTTPErrors.NatToDecimal` | HTTPRequest/HTTPRequest.swift:106 | `%i` of a natural number is a non-empty string of decimal digits with no leading zero |
| `HTTPErrors.IntToDecimal` | HTTPRequest/HTTPRequest.swift:106 | `%i` of an integer is non-empty, starts with a minus sign exactly for negative integers, and is all digits otherwise |
| `HTTPErrors.DecimalRoundTrip` | HTTPRequest/HTTPRequest.swift:106 | parsing the `%i` text of any integer, negative ones included, gives the integer back |
| `HTTPErrors.ShowErrorIfSet` | HTTPRequest/HTTPRequest.swift:117 | `showErrorClosure?(message)` shows exactly that message once when the slot is set, and nothing otherwise |
| `HTTPErrors.Alert` | HTTPRequest/HTTPRequest.swift:129 | the warning alert is a single presentation titled with the prompt title and carrying the given text |
| `HTTPErrors.DefaultHandleRequestError` | HTTPRequest/HTTPRequest.swift:114-150 | an alert with `domain-code` text is raised exactly when escalation is asked for and the error is "not connected to internet" or POSIX 50; otherwise the error's description goes to `showErrorClosure` if set |
| `HTTPErrors.AlertErrorsAreKnown` | HTTPRequest/HTTPRequest.swift:120-148 | every error that raises an alert also has its own dedicated message |
| `HTTPResolve.ResolveData` | HTTPRequest/HTTPRequest.swift:249-265 | status 200 with data gives the data; 200 without data gives `emptyBody`; any other status gives `statusCode` with that status; no response gives `network` with the error, or `empty` without one |
| `HTTPResolve.JsonStep` | HTTPRequest/HTTPRequest.swift:278-289 | a failure is passed on unchanged; data that parses gives the JSON; data that does not parse gives `bodyNotJson` carrying the data |
| `HTTPResolve.JsonResponseResolve` | HTTPRequest/HTTPRequest.swift:152-175 | the five completion rules, with the JSON parse of a 200 body as the success value |
| `HTTPResolve.RequestAgreesWithJsonResponseResolve` | HTTPRequest/HTTPRequest.swift:270-290 | `dataRequest`'s resolution followed by `request`'s JSON step equals `jsonResponseResolve` on the same response |
| `HTTPResolve.ResponseTakesPrecedence` | HTTPRequest/HTTPRequest.swift:154-174 | when an HTTP response is present, the transport error and data do not affect a non-200 result |
| `HTTPOptions.Lookup` | HTTPRequest/HTTPRequest.swift:188 | the `HTTPHeaders` subscript get finds a value exactly when a header of that name, up to ASCII case, is present |
| `HTTPOptions.Update` | HTTPRequest/HTTPRequest.swift:182-188 | the `HTTPHeaders` literal and subscript set leave the name present; the list grows by one exactly when the name was new; every existing header keeps its name |
| `HTTPOptions.UpdateLookupSame` | HTTPRequest/HTTPRequest.swift:188 | after a subscript assignment, looking up that name gives the new value |
| `HTTPOptions.UpdateLookupOther` | HTTPRequest/HTTPRequest.swift:188 | a subscript assignment leaves every other name's value unchanged |
| `HTTPOptions.UpdateUnique` | HTTPRequest/HTTPRequest.swift:188 | subscript assignment keeps header names unique |
| `HTTPOptions.UpdateAppends` | HTTPRequest/HTTPRequest.swift:188 | assigning a new name appends the header at the end |
| `HTTPOptions.LanguageOf` | HTTPRequest/HTTPRequest.swift:188 | the first preferred localization, or `en` when there is none |
| `HTTPOptions.NewOptions` | HTTPRequest/HTTPRequest.swift:177-189 | the fields take the arguments; the headers are `Platform: iOS`, `Version`, `Language`, in that order, with unique names, and each can be looked up |
| `HTTPOptions.DefaultHeaders` | HTTPRequest/HTTPRequest.swift:182-188 | the literal's two headers and `Language` have pairwise different names, so each is appended in turn: `Platform`, `Version`, `Language` |
| `HTTPOptions.Default` | HTTPRequest/HTTPRequest.swift:191 | activity is visible, the timeout is 30 seconds, and the encoding is URL encoding |
| `HTTPOptions.Silence` | HTTPRequest/HTTPRequest.swift:193 | the default options with the activity hidden |
| `HTTPOptions.SilenceIsQuietDefault` | HTTPRequest/HTTPRequest.swift:191-193 | `silence` differs from `default` in `activityVisible` alone |
| `HTTPDispatch.IdentityAdapter` | HTTPRequest/HTTPRequest.swift:46 | the default adapter returns the options and the parameters it is given, unchanged |
| `HTTPDispatch.DefaultAdapterRequest` | HTTPRequest/HTTPRequest.swift:44-50 | with the identity adapter, any input that does not reach `fatalError` (no parameters, a dictionary, or any value under JSON encoding) is sent, with the caller's own options and parameters deciding the encoding and the timeout |
| `HTTPDispatch.EncodeDispatch` | HTTPRequest/HTTPRequest.swift:209-219 | no parameters, a dictionary, or another value select the three `encode` overloads; another value without JSON encoding is fatal; the adapted encoding is used |
| `HTTPDispatch.AddValue` | HTTPRequest/HTTPRequest.swift:222 | `addValue` leaves the field name present; the list grows by one exactly when the name was new; existing fields keep their names |
| `HTTPDispatch.AddValues` | HTTPRequest/HTTPRequest.swift:222 | after the `forEach`, every option header's name is on the request, the request's earlier fields keep their names, and each header adds at most one field |
| `HTTPDispatch.AddValueAppends` | HTTPRequest/HTTPRequest.swift:222 | `addValue` of a new field name appends the header |
| `HTTPDispatch.AddValueJoins` | HTTPRequest/HTTPRequest.swift:222 | `addValue` of a present field name joins the values with a comma |
| `HTTPDispatch.AddValueLookupOther` | HTTPRequest/HTTPRequest.swift:222 | `addValue` leaves the value of every field with another name unchanged |
| `HTTPDispatch.AddValuesUnique` | HTTPRequest/HTTPRequest.swift:222 | adding uniquely named headers one by one to an empty request gives exactly those headers |
| `HTTPDispatch.DataRequestSpec` | HTTPRequest/HTTPRequest.swift:196-266 | the activity closures follow the caller's options; the adapted options and parameters give the encoding, the timeout and the headers; the fatal case sends nothing; the completion is the resolved response exactly when a request is sent |
| `HTTPDispatch.DataRequest` | HTTPRequest/HTTPRequest.swift:204-266 | building the request step by step gives `DataRequestSpec` |
| `HTTPDispatch.AddAllValues` | HTTPRequest/HTTPRequest.swift:222 | the `forEach` loop over the options' headers computes the fold `AddValues` |
| `HTTPDispatch.Request` | HTTPRequest/HTTPRequest.swift:270-290 | the same effects and request as `dataRequest` with dictionary parameters; the completion equals `jsonResponseResolve` |
| `HTTPDispatch.Components` | HTTPRequest/HTTPRequest.swift:305-310 | a single entry contributes exactly its own query components |
| `HTTPDispatch.ComponentsConcat` | HTTPRequest/HTTPRequest.swift:305-310 | flattening the parameters distributes over concatenation, so each entry contributes its own components in order |
| `HTTPDispatch.FieldParts` | HTTPRequest/HTTPRequest.swift:311-313 | one form field per query component, in order, named by key |
| `HTTPDispatch.ParameterFields` | HTTPRequest/HTTPRequest.swift:306-314 | without parameters the closure writes no field; with them it writes one field per query component, in order, named by its key |
| `HTTPDispatch.UploadMultipartFormData` | HTTPRequest/HTTPRequest.swift:292-328 | a POST with the caller's headers and timeout; the body is the flattened parameter fields followed by the caller's parts; the completion is `jsonResponseResolve` |
| `HTTPDispatch.UploadFieldsFirst` | HTTPRequest/HTTPRequest.swift:305-316 | every parameter field precedes every caller part, and the caller's parts keep their order |
| `BKList.StatusEq` | Pods/BaseKitSwift/BaseKitSwift/View/BKListView.swift:25-38 | two statuses are equal exactly when they have the same case; failures are equal whatever their errors |
| `BKList.StatusEqIsEquivalence` | Pods/BaseKitSwift/BaseKitSwift/View/BKListView.swift:27-38 | `==` is reflexive, symmetric and transitive, and any two failures are equal |
| `BKList.InsertAt` | Pods/BaseKitSwift/BaseKitSwift/View/BKListView.swift:58-60 | the model is placed at the row in its section; other sections are unchanged; the total grows by one |
| `BKList.InsertAllCounts` | Pods/BaseKitSwift/BaseKitSwift/View/BKListView.swift:75-80 | the insertions add one row per model |
| `BKList.InsertAll` | Pods/BaseKitSwift/BaseKitSwift/View/BKListView.swift:75-80 | the insertions keep the number of sections, and a single insertion is exactly `insert` |
| `BKList.UpdateAt` | Pods/BaseKitSwift/BaseKitSwift/View/BKListView.swift:91 | the shape is the same and exactly the addressed cell changes |
| `BKList.DeleteAt` | Pods/BaseKitSwift/BaseKitSwift/View/BKListView.swift:102-113 | one row goes; a section whose last row goes is removed; the total falls by one |
| `BKList.EmptySectionsCollapse` | Pods/BaseKitSwift/BaseKitSwift/View/BKListView.swift:102-111 | deleting and inserting never leave an empty section in a table that had none |
| `BKList.ContentCallFor` | Pods/BaseKitSwift/BaseKitSwift/View/BKListView.swift:272-283 | a data change never causes a full reload of the content view |
| `BKList.ContentCallsDistinguishChanges` | Pods/BaseKitSwift/BaseKitSwift/View/BKListView.swift:272-283 | different data changes make different content-view calls, carrying their index paths |
| `BKList.ShowStatus` | Pods/BaseKitSwift/BaseKitSwift/View/BKListView.swift:326-347 | exactly the subview for the status is visible; the indicator animates only while loading; a failure hands its error to the reload view; completion reloads the content |
| `BKList.DisplayFollowsLastStatus` | Pods/BaseKitSwift/BaseKitSwift/View/BKListView.swift:267-284 | after any sequence of closure calls the display shows the latest announced status, whatever data changes followed it |
| `BKList.InitialDisplayShowsAll` | Pods/BaseKitSwift/BaseKitSwift/View/BKListView.swift:259-266 | before the first status assignment, no status's single-view arrangement holds: all three subviews show, for subviews passed in visible |
| `BKList.BKDataContainer.constructor` | Pods/BaseKitSwift/BaseKitSwift/View/BKListView.swift:43-52 | a new container is loading with an empty table, nothing announced and no closures installed |
| `BKList.BKDataContainer.SetStatus` | Pods/BaseKitSwift/BaseKitSwift/View/BKListView.swift:43-48 | each assignment is announced, even of an equal value; the attached view then shows that status |
| `BKList.BKDataContainer.Insert` | Pods/BaseKitSwift/BaseKitSwift/View/BKListView.swift:54-65 | when complete: the table becomes `InsertAt`, with one `insert` announcement; otherwise nothing changes |
| `BKList.BKDataContainer.InsertRows` | Pods/BaseKitSwift/BaseKitSwift/View/BKListView.swift:67-85 | when complete and the counts match: the insertions in order with one `insertRows` announcement; otherwise nothing changes |
| `BKList.BKDataContainer.Update` | Pods/BaseKitSwift/BaseKitSwift/View/BKListView.swift:87-96 | when complete: the table becomes `UpdateAt`, with one `update` announcement; otherwise nothing changes |
| `BKList.BKDataContainer.Delete` | Pods/BaseKitSwift/BaseKitSwift/View/BKListView.swift:98-117 | when complete: the table becomes `DeleteAt`. A row deletion is announced as `deleteRow`; an emptied section as `deleteSection`. Removing the last section first sets and announces `.fail(BKError.empty)`. Otherwise nothing changes |
| `BKList.BKDataContainer.ExecuteIfComplete` | Pods/BaseKitSwift/BaseKitSwift/View/BKListView.swift:129-138 | the closure's result on the table exactly when complete, else nothing |
| `BKList.BKDataContainer.NumberOfSections` | Pods/BaseKitSwift/BaseKitSwift/View/BKListView.swift:119-122 | the section count when complete, else 0 |
| `BKList.BKDataContainer.NumberOfRowsInSection` | Pods/BaseKitSwift/BaseKitSwift/View/BKListView.swift:124-127 | the section's row count when complete, else 0 |
| `BKList.BKListView.constructor` | Pods/BaseKitSwift/BaseKitSwift/View/BKListView.swift:254-291 | a fresh loading container with empty data and this view's closures installed; the indicator animates |
| `BKList.BKListView.Handle` | Pods/BaseKitSwift/BaseKitSwift/View/BKListView.swift:267-284 | status changes go to `updateStatus`; each data change makes the matching content-view call |
| `BKList.BKListView.UpdateStatus` | Pods/BaseKitSwift/BaseKitSwift/View/BKListView.swift:326-347 | the subviews change as `ShowStatus` states |
| `BKList.BKListView.Reload` | Pods/BaseKitSwift/BaseKitSwift/View/BKListView.swift:310-324 | the status becomes loading and is announced; the data is kept; the indicator shows |
| `BKList.BKListView.SetLoadDataSourceClosure` | Pods/BaseKitSwift/BaseKitSwift/View/BKListView.swift:293-298 | installing a loader reloads |
| `BKList.BKListView.ReloadCompleted` | Pods/BaseKitSwift/BaseKitSwift/View/BKListView.swift:312-321 | success installs the table and completes; failure empties the table and fails with the error; the view shows the new status |
| `BKList.BKListView.ReloadFromFailView` | Pods/BaseKitSwift/BaseKitSwift/View/BKListView.swift:300-308 | it reloads only from a failure, otherwise nothing changes |
| `ColorBytes.FromNumber` | Pods/BaseKitSwift/BaseKitSwift/Extension/UIColor.swift:18-25 | red, green, blue and alpha are the four bytes of the number, from high to low |
| `ColorBytes.FromNumberExample` | Pods/BaseKitSwift/BaseKitSwift/Extension/UIColor.swift:14 | `0x123456ff` gives red `0x12`, green `0x34`, blue `0x56`, alpha `0xff` |
| `ColorBytes.FromNumberRecomposes` | Pods/BaseKitSwift/BaseKitSwift/Extension/UIColor.swift:20-23 | the four bytes, weighted by their positions, sum to the number |
| `ColorBytes.FromNumberToNumber` | Pods/BaseKitSwift/BaseKitSwift/Extension/UIColor.swift:18-25 | taking a number apart and packing it again are inverse, in both directions |
| `ColorBytes.FromNumberWithAlpha` | Pods/BaseKitSwift/BaseKitSwift/Extension/UIColor.swift:27-33 | red, green and blue are the three low bytes; numbers above 24 bits are refused, as the `UInt8` conversion traps on them |
| `ColorBytes.WithAlphaRedFits` | Pods/BaseKitSwift/BaseKitSwift/Extension/UIColor.swift:29 | the red byte conversion succeeds exactly on numbers below `0x1000000` |
| `ColorBytes.WithAlphaAgreesWithShifted` | Pods/BaseKitSwift/BaseKitSwift/Extension/UIColor.swift:18-33 | `init(number:alpha:)` reads the same colour bytes as `init(number:)` on the number shifted left by 8 |
| `ColorBytes.RandomNumber` | Pods/BaseKitSwift/BaseKitSwift/Extension/UIColor.swift:51-55 | the alpha byte is always `0xff`; red, green and blue are the random number's |

## Left out

- Networking I/O, `Session.default` and the Alamofire request objects. The model returns the request that would be sent and resolves a given `Response` value.
- Progress callbacks, the upload body's UTF-8 conversion, and `MIMEHelper` (including its `application/octet-stream` fallback, HTTPRequest/HTTPRequest.swift:38). These are platform calls.
- `download` (HTTPRequest/HTTPRequest.swift:330-348). It is a thin pass-through to the session.
- Request logging (HTTPRequest/HTTPRequest.swift:224-242). The model assumes `logEnabled` is off. With logging on, the force-unwrapped `String(data:encoding: .utf8)!` at line 238 traps on a body that is not UTF-8, which a `CustomEncoding` could produce.
- The localized message texts, `AppInfo`, `KeyWindow` and `bk_presentWarningAlertController`. A message is a `MessageKind`, the alert is an `Effect`, and a missing key window is not distinguished.
- The encoders' output (query string, body, `Content-Type`). `Encoded` records which overload ran with which encoding.
- `try!` on `URLRequest(url:)` and on `encode`. The model assumes they succeed.
- The upload request headers: `URLRequest(headers:)` takes `options.httpHeaders` as they are. Header name comparison covers ASCII letters only.
- HTTPErrors.DomainCode: `%i` is formatted from an unbounded integer, without C's 32-bit truncation. URL and POSIX error codes fit in 32 bits.
- ColorBytes.FromNumber: stops at the bytes. The division by 255 into `CGFloat` components is floating point.
- ColorBytes.RandomNumber: `arc4random()` is a parameter.
- The adapter applied once per `dataRequest` call: this is a property of the model's structure, not a separate lemma.
- Replacing `BKListView.dataContainer` from outside. The container is fixed in the model.
- The closures' `[weak self]` capture: the list view is always alive here.
- BKList.BKListView.Reload: does not call the loader. The loader's answer is a separate call, `ReloadCompleted`, which can arrive at any later time, once or more.
- BKList.InitialDisplayShowsAll: `InitialDisplay` assumes the caller's reload, container and indicator views arrive visible, which is UIView's default. `BKListView.init` never sets `isHidden`, so a view passed in hidden stays hidden until the first status assignment.
- UIKit layout (`makeConstraint`), `init(coder:)`, and the table and collection views' adaptors. The adaptors are recorded as `ContentCall`s.
- The diagnostic `print` that `insertRows` makes when the model and index-path counts differ (Pods/BaseKitSwift/BaseKitSwift/View/BKListView.swift:72). It is console output only; the model keeps the early return without any other effect.
- The data-container methods need the index paths to exist when the status is `.complete`. The Swift code traps on an index out of range.
- Only "not connected to internet" (-1009) and POSIX 50 raise the network alert in `defaultHandleRequestError`. A lost connection (-1005) does not.
- `dataRequest` adds `Options.httpHeaders` to the request with `addValue`. That call joins values only with a header already on the request (`HTTPDispatch.AddValueJoins`). Swift's `HTTPHeaders` keeps names unique, and the options `Options.init` builds have unique names (`HTTPOptions.NewOptions`). Subscript assignment keeps them unique (`HTTPOptions.UpdateUnique`). For such headers `HTTPDispatch.AddValuesUnique` shows they arrive unchanged, so only a header the encoder set, such as `Content-Type`, could be joined. The model's `Options` type does not itself enforce unique names. Its header ensures in `HTTPDispatch.DataRequestSpec` therefore holds only under that condition. The model leaves out the encoder's headers, so it never shows such a join.
- A non-dictionary parameter value without JSON encoding reaches `fatalError`. The model gives a `Dispatch` with no request.
