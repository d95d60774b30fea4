# LineRoutePlanner — a Dafny model of the stop pipeline

LineRoutePlanner is a small web service. It takes a list of delivery stops, either typed in by hand or
uploaded as a CSV file, and stores them in an in-memory store. It reads them back in route
order (start, interior stops by sequence, end) and asks a directions service for the total
distance and duration. It builds a Google Maps link, and it can push a summary of the route to a
LINE recipient.

This project models that pipeline and proves its properties:

| file | module | models |
|---|---|---|
| `wrappers.dfy` | `Wrappers` | `Option`/`Result` |
| `text.dfy` | `Text` | JavaScript string helpers the code relies on: `trim`, `toLowerCase` (ASCII), `split`/`join`, decimal rendering of numbers, `parseInt` |
| `uri.dfy` | `UriEncoding` | `encodeURIComponent`: UTF-8 percent-encoding, with a decoder and its round trip |
| `schema.dfy` | `Schema` | the stored records, their insert shapes and column defaults, and the request validators of `shared/schema.ts` over a small JSON value type |
| `stop_order.dfy` | `StopOrder` | the stop comparator shared by the store and the Maps link, the stable sort it drives, and the canonical order it yields |
| `file_processor.dfy` | `FileProcessor` | `csvUpload`: column sniffing, role tokens, dropping rows with no address, default start/end |
| `storage.dfy` | `Storage` | `MemStorage` as a class with four maps and four id counters |
| `route_optimization.dfy` | `RouteOptimization` | `optimizeRoute`: stop selection, the waypoint parameter, leg totals, text formatting and the random fallback |
| `maps_link.dfy` | `MapsLink` | `generateMapsUrl` on the server and `formatGoogleMapsUrl` on the client |
| `line_bot.dfy` | `LineBot` | the default notification text and the success decision of `sendLineNotification` |
| `csv_preview.dfy` | `CsvPreview` | the preview parser and submit guard of the CSV upload form |
| `handlers.dfy` | `Handlers` | the HTTP handlers for history, route details, manual planning, CSV upload and LINE notification, as methods over the store |

External services are parameters of the members that call them:

- the geocoder is a function from a stored address to a `(lat, lng)` pair;
- the Directions service is a function from a request to a reply;
- the LINE push is a function from a push request to an outcome;
- the Google Maps key and the LINE channel token are string parameters.

The clock is two parameters:

- `now` is the creation timestamp;
- `clockText` stands for `toLocaleString("zh-TW")`.

A random fallback is any value in its stated range.

Stored records keep nullable fields as `Option`. `MemStorage` stores `{...insert, id}` without
applying the column defaults. Readers follow JavaScript truthiness: a flag counts only when it is
`Some(true)`, and a text counts only when it is non-empty.

`Array.prototype.sort` is modelled as a stable insertion sort that calls the source's comparator.
That comparator is only consistent when at most one stop is flagged start, and at most one is flagged
end without also being flagged start (`SingleRoles`). Under that condition the sort is proved to give the canonical order: a
permutation, sorted by (role, sequence), with ties in their original order. The handlers store
exactly one start and one end, so the order they read back is the stored order.

Where the schema and the store disagree, the model follows the code. `shared/schema.ts:64` gives
`isActive` a column default of true (`Schema.LineSettingsColumnDefaults`). `MemStorage` never
applies it, so a setting inserted without `isActive` is left out of `getActiveLineSettings`.

## Model

| member | source | states |
|---|---|---|
| Text.BlankEach | server/services/fileProcessor.ts:33 | a text is blank exactly when every character is JavaScript white space |
| Text.BlankAppend | server/services/fileProcessor.ts:33 | a concatenation is blank exactly when both parts are blank |
| Text.OrElse | server/routes.ts:112 | `x \|\| fallback` on an optional text: the text when it is non-empty, the fallback otherwise |
| Text.TrimStartFacts | client/src/components/CSVUpload.tsx:46 | trimming the front removes only a blank prefix and leaves a non-space first character |
| Text.TrimEndFacts | client/src/components/CSVUpload.tsx:46 | trimming the end removes only a blank suffix and leaves a non-space last character |
| Text.Trim | server/services/fileProcessor.ts:33 | `trim()` is empty exactly when the input is blank; otherwise it starts and ends with a non-space character |
| Text.TrimInfix | client/src/components/CSVUpload.tsx:61 | the trimmed text is a contiguous piece of the input |
| Text.Lower | server/services/fileProcessor.ts:14 | lower-casing keeps the length and maps exactly the letters A–Z to a–z |
| Text.Split | client/src/components/CSVUpload.tsx:36 | `split` gives at least one part, and no part contains the separator |
| Text.JoinSplit | client/src/components/CSVUpload.tsx:36 | joining the parts of a split with its separator gives back the text |
| Text.SplitJoin | server/services/routeOptimization.ts:52 | splitting a join of separator-free parts gives back the parts |
| Text.NatToString | server/services/lineBot.ts:78 | a number renders as a non-empty string of digits with no leading zero |
| Text.NatToStringRoundTrip | server/services/lineBot.ts:78 | the rendered digits read back as the number |
| Text.NatToStringInjective | client/src/components/CSVUpload.tsx:147 | different numbers render differently |
| Text.ParseIntOfNatToString | server/routes.ts:60 | `parseInt` of a rendered id gives back that id |
| UriEncoding.EncodeUriComponent | server/services/routeOptimization.ts:125 | the encoding uses only unreserved characters, `%` and upper-case hex, never contains `/`, and is no shorter than the input |
| UriEncoding.DecodeEncode | server/services/routeOptimization.ts:125 | decoding the percent-encoded UTF-8 gives back the input |
| UriEncoding.EncodeInjective | client/src/utils/maps.ts:20 | different texts have different encodings |
| Schema.UserRecord | shared/schema.ts:6-18 | a user is its insert shape plus the assigned id |
| Schema.AddressRecord | shared/schema.ts:21-38 | an address is its insert shape plus the assigned id, and dropping the id gives back the insert |
| Schema.AddressRecordOfInsert | shared/schema.ts:33-35 | the insert shape of an address, stored under its own id, gives back the address |
| Schema.RouteRecord | shared/schema.ts:41-57 | a route is its insert shape plus the id and creation time, which the insert shape omits |
| Schema.RouteRecordOfInsert | shared/schema.ts:51-54 | the insert shape of a route, stored with its id and time, gives back the route |
| Schema.LineSettingsRecord | shared/schema.ts:60-72 | a line setting is its insert shape plus the assigned id |
| Schema.AddressColumnDefaults | shared/schema.ts:27-28 | missing start/end flags become false, present ones are kept, and nothing else changes |
| Schema.RouteColumnDefaults | shared/schema.ts:48 | a missing `lineNotificationSent` becomes false, a present one is kept, and nothing else changes |
| Schema.LineSettingsColumnDefaults | shared/schema.ts:64 | a missing `isActive` becomes true, a present one is kept, and nothing else changes |
| Schema.ParseAddressInputJson | shared/schema.ts:89-104 | a manual request is accepted, unchanged, exactly when the start, every waypoint and the end have a non-empty address; notes are optional and the waypoint list may be empty |
| Schema.BlankAddressesPass | shared/schema.ts:91-101 | whitespace-only addresses pass, because `min(1)` checks only the length |
| Schema.ParseAddressInputSound | shared/schema.ts:89-104 | any body the manual request schema accepts, whatever extra, reordered or repeated members it has, gives a start, waypoints and an end that all have a non-empty address |
| Schema.ParseLineNotificationSound | shared/schema.ts:109-113 | any body the notification schema accepts gives a non-empty recipient; the number and recipient are the last `routeId` and `recipientId` members |
| Schema.ParseLineNotificationJson | shared/schema.ts:109-113 | a notification request is accepted, unchanged, exactly when `recipientId` is non-empty; `message` is optional |
| Schema.NonNumericRouteIdRefused | shared/schema.ts:110 | a request whose `routeId` is not a number is refused |
| StopOrder.Compare | server/storage.ts:105-111 | on a consistent pair, the comparator orders by (start, interior by sequence with null as 0, end), and a start-flagged first argument always sorts first |
| StopOrder.SortPermutes | server/storage.ts:105-111 | sorting neither drops nor adds a stop |
| StopOrder.SortIsCanonical | server/storage.ts:105-111 | with at most one start and one end, the sort is sorted by role and sequence and keeps ties in input order |
| StopOrder.CanonicalUnique | server/storage.ts:105-111 | two sorted lists with the same stops in the same tie order are equal, so the canonical order is unique |
| StopOrder.SortIdempotent | server/services/routeOptimization.ts:106-112 | sorting already-sorted stops again changes nothing |
| StopOrder.SortOfSorted | server/services/routeOptimization.ts:106-112 | a list already in canonical order is its own sort |
| StopOrder.ShapedIsSorted | server/storage.ts:105-111 | a list with the start first, the end last and unflagged stops between, in ascending sequence, is its own sort |
| StopOrder.SortShape | server/storage.ts:105-111 | the sorted list puts the start-flagged stop first and the end-flagged stop last, and keeps each key's stops in input order |
| StopOrder.FirstStart | server/services/lineBot.ts:70 | `find(isStartPoint)`: present exactly when some stop is flagged start, and then the earliest one |
| StopOrder.FirstEnd | server/services/lineBot.ts:71 | `find(isEndPoint)`: present exactly when some stop is flagged end, and then the earliest one |
| FileProcessor.ColumnOf | server/services/fileProcessor.ts:14-26 | a lower-cased column name maps to address, note, start or end in that precedence, or is ignored |
| FileProcessor.LastValueIsLast | server/services/fileProcessor.ts:13-26 | when several columns map to one field, the value of the last such column wins |
| FileProcessor.NormalizeRecord | server/services/fileProcessor.ts:9-30 | the field-by-field loop builds the record that the column mapping defines |
| FileProcessor.Survivors | server/services/fileProcessor.ts:33 | survivors are exactly the records with an address that is not blank, in their original order |
| FileProcessor.CsvUpload | server/services/fileProcessor.ts:7-49 | the method (normalise, filter, default the roles in place) computes the specified result |
| FileProcessor.DefaultRolesSpec | server/services/fileProcessor.ts:36-46 | explicit flags are never cleared; the first survivor becomes start only when none is flagged; the last becomes end only when none is flagged and there are at least two; nothing else changes |
| FileProcessor.DefaultRolesCover | server/services/fileProcessor.ts:36-46 | some survivor is start whenever one survives, and some is end whenever two survive; a lone survivor is not forced to be end |
| FileProcessor.CsvUploadMeetsSchema | shared/schema.ts:75-84 | every output row has a non-blank address, the rows satisfy the CSV upload schema, and an input with no address anywhere gives an empty list without error |
| Storage.OfRoute | server/storage.ts:104 | the filter keeps exactly the stops of the given route |
| Storage.ActiveOnly | server/storage.ts:173 | the filter keeps exactly the active settings, and keeps an ascending id order |
| Storage.NewestFirstFacts | server/storage.ts:136-139 | the history order is a permutation, newest first, with ties in creation order |
| Storage.ApplyPatch | server/storage.ts:145 | a partial update overwrites the fields it supplies and keeps the id, creation time and all other fields |
| Storage.PatchLaws | server/storage.ts:141-148 | the empty patch changes nothing, a patch applied twice acts once, and two patches in a row act as their merge |
| Storage.MemStorage.constructor | server/storage.ts:45-74 | a fresh store has empty maps, user, address and route counters at 1, the settings counter at 4, and exactly the three default recipients with ids 1–3 |
| Storage.MemStorage.AllLineSettings | server/storage.ts:167-169 | every setting, in id (insertion) order |
| Storage.MemStorage.GetUser | server/storage.ts:77-79 | a user is found exactly when its id has been assigned |
| Storage.MemStorage.GetUserByUsername | server/storage.ts:81-85 | the first user with that name, or none when no user has it |
| Storage.MemStorage.CreateUser | server/storage.ts:87-92 | the user gets the current counter as a fresh id, the counter steps by one, and nothing else changes |
| Storage.MemStorage.CreateAddress | server/storage.ts:95-100 | the address gets the current counter as a fresh id, is appended to the listing, and nothing else changes |
| Storage.MemStorage.AddressesByRouteId | server/storage.ts:102-111 | exactly the stops of that route, in the canonical order whenever the roles are single |
| Storage.MemStorage.AddressesByRouteIdMembers | server/storage.ts:102-104 | a stop is listed exactly when it is stored with that route id |
| Storage.MemStorage.UpdateAddressCoordinates | server/storage.ts:114-121 | an unknown id gives none and changes nothing; otherwise only that stop's `lat` and `lng` change |
| Storage.MemStorage.CreateRoute | server/storage.ts:124-130 | the route gets the current counter as a fresh id and the given creation time, and nothing else changes |
| Storage.MemStorage.GetRoute | server/storage.ts:132-134 | a route is found exactly when its id has been assigned |
| Storage.MemStorage.AllRoutes | server/storage.ts:136-139 | every route, newest first, with ties in creation order |
| Storage.MemStorage.UpdateRoute | server/storage.ts:141-148 | an unknown id gives none and changes nothing; otherwise the patch is applied to that route alone |
| Storage.MemStorage.UpdateRouteNotificationStatus | server/storage.ts:150-157 | an unknown id gives none; otherwise only that route's `lineNotificationSent` changes |
| Storage.MemStorage.CreateLineSettings | server/storage.ts:160-165 | the setting gets the current counter as a fresh id, is appended to the listing, and nothing else changes |
| Storage.MemStorage.ActiveLineSettings | server/storage.ts:171-174 | exactly the stored settings whose `isActive` is true, in ascending id (creation) order |
| Storage.MemStorage.LineSettingsById | server/storage.ts:176-178 | a setting is found exactly when its id has been assigned |
| Storage.MemStorage.DefaultRecipientsActive | server/storage.ts:56-73 | in a fresh store every setting is active |
| RouteOptimization.SelectStops | server/services/routeOptimization.ts:29-37 | the chosen start, end and waypoints are all among the stops |
| RouteOptimization.SelectEnds | server/services/routeOptimization.ts:29-35 | start is the first start-flagged stop, else the first stop; end is the first end-flagged stop, else the last |
| RouteOptimization.SelectWaypoints | server/services/routeOptimization.ts:31-37 | waypoints are the unflagged stops in order, or when there are none, the inner slice of more than two stops |
| RouteOptimization.SelectStartInteriorEnd | server/services/routeOptimization.ts:29-37 | on a stored start/interior/end list the selection is its first stop, its last stop and everything between |
| RouteOptimization.WaypointsParam | server/services/routeOptimization.ts:43-52 | the parameter is absent exactly when there are no waypoints, and otherwise starts with `optimize:true\|` |
| RouteOptimization.WaypointsParamReadsBack | server/services/routeOptimization.ts:43-52 | after the prefix, splitting on `\|` gives the `lat,lng` texts of the waypoints in order |
| RouteOptimization.TotalsAppend | server/services/routeOptimization.ts:68-71 | leg totals add up over concatenation |
| RouteOptimization.SumLegs | server/services/routeOptimization.ts:65-71 | the loop computes the total metres and seconds over all legs |
| RouteOptimization.Tenths | server/services/routeOptimization.ts:74 | tenths of a kilometre round the metres half-up |
| RouteOptimization.CeilMinutes | server/services/routeOptimization.ts:75 | minutes are the least whole number covering the seconds |
| RouteOptimization.DistanceTextReadsBack | server/services/routeOptimization.ts:74-78 | the distance text is digits, a point, one digit and ` 公里`, and reads back as the tenths |
| RouteOptimization.DurationTextReadsBack | server/services/routeOptimization.ts:75-79 | the duration text is digits and ` 分鐘`, and reads back as the minutes |
| RouteOptimization.FallbackIsNotMeasured | server/services/routeOptimization.ts:77-86 | a made-up summary (whole kilometres) never equals a measured one (one decimal) |
| RouteOptimization.Fallback | server/services/routeOptimization.ts:22-25 | whole kilometres in 5..24 and minutes in 10..39, the same made-up summary the failure paths at lines 83-86 and 90-93 return |
| RouteOptimization.OptimizeRoute | server/services/routeOptimization.ts:15-95 | an OK reply with a route gives the formatted leg totals of its first route; a missing key, no stops, a failure or a refusal give a fallback; it never fails |
| MapsLink.ParseMapsPathRoundTrip | server/services/routeOptimization.ts:118-126 | the path after the base splits and decodes back into the location texts |
| MapsLink.MapsPathSlashes | client/src/utils/maps.ts:20 | the path has exactly one `/` per location |
| MapsLink.GenerateMapsUrl | server/services/routeOptimization.ts:103-128 | the URL is the base plus one encoded segment and `/` per stop, in sorted order; it is the bare base exactly when there are no stops |
| MapsLink.FormatGoogleMapsUrl | client/src/utils/maps.ts:7-24 | an absent or empty list gives `''`; otherwise the base plus one segment and `/` per stop, in input order |
| MapsLink.ClientLinkMatchesServer | client/src/utils/maps.ts:7-24 | on stops already in canonical order, the client path equals the server path |
| LineBot.StartLabelChoice | server/services/lineBot.ts:70 | the start label is the first start-flagged stop's address, else the first stop's address, else `起點` |
| LineBot.EndLabelChoice | server/services/lineBot.ts:71 | the end label is the first end-flagged stop's address, else the last stop's address, else `終點` |
| LineBot.DefaultMessageIsJoin | server/services/lineBot.ts:73-79 | the default message is its ten lines joined by line breaks |
| LineBot.DefaultMessageLines | server/services/lineBot.ts:73-79 | when no field holds a line break, the message splits back into header, blank, from, to, distance, duration, stop count, blank, link heading and link |
| LineBot.PushFor | server/services/lineBot.ts:20-45 | nothing is pushed exactly when the token is empty; otherwise the push goes to the recipient's id |
| LineBot.PushedText | server/services/lineBot.ts:28 | a non-empty custom message is sent verbatim; an empty or absent one is replaced by the default |
| LineBot.SendLineNotification | server/services/lineBot.ts:13-60 | true without a push when there is no token; otherwise true exactly when the push answers 200 |
| CsvPreview.SetFieldFacts | client/src/components/CSVUpload.tsx:65 | assigning a field sets that key, keeps key order and distinctness, and leaves the other keys alone |
| CsvPreview.RowFromFacts | client/src/components/CSVUpload.tsx:64-66 | a row has each header once, and each maps to the cell of its last column, or `''` |
| CsvPreview.PreviewRowsSelect | client/src/components/CSVUpload.tsx:57-70 | the preview rows come exactly from the non-blank lines 1..max, in order, and are none exactly when all those lines are blank |
| CsvPreview.PreviewOutcomes | client/src/components/CSVUpload.tsx:36-78 | one line or fewer is the empty-file error; no address header is the header error; a success holds 1 to 5 rows |
| CsvPreview.PreviewRowKeys | client/src/components/CSVUpload.tsx:46-66 | each preview row's keys are exactly the trimmed headers, each once |
| CsvPreview.BuildRow | client/src/components/CSVUpload.tsx:62-66 | the `forEach` fills the row that the header mapping defines |
| CsvPreview.CollectRows | client/src/components/CSVUpload.tsx:56-70 | the loop collects the rows of the non-blank lines 1..max |
| CsvPreview.ParsePreview | client/src/components/CSVUpload.tsx:33-84 | the imperative parser returns the specified preview or error |
| CsvPreview.PreviewLines | client/src/components/CSVUpload.tsx:37-84 | from the split lines on, the parser returns the specified preview or error: empty file, no address column, no rows |
| CsvPreview.RowLabelShape | client/src/components/CSVUpload.tsx:147 | the label is the 1-based index, with ` (起點)` on the first row and ` (終點)` on a last row that is not first |
| CsvPreview.RowLabelInjective | client/src/components/CSVUpload.tsx:147 | different rows get different labels |
| CsvPreview.CsvUploadForm.constructor | client/src/components/CSVUpload.tsx:23-25 | no file, no preview and no error |
| CsvPreview.CsvUploadForm.HandleFileSelect | client/src/components/CSVUpload.tsx:27-92 | records the file; a read error, a parse error or a preview is set as the text dictates, and the other state is cleared |
| CsvPreview.CsvUploadForm.HandleSubmit | client/src/components/CSVUpload.tsx:94-105 | with no file, an error toast and no upload; with a file, exactly one upload of it |
| Handlers.ManualStopsShape | server/routes.ts:97-120 | the manual stops are start, waypoints and end in order, with notes defaulting to `""`, sequences 0..n+1, only the first flagged start and only the last flagged end, and the new route's id |
| Handlers.CsvStopsShape | server/routes.ts:195-206 | one stop per surviving row, with roles and sequence taken from position; a single row is both start and end |
| Handlers.CsvStopsIgnoreFlags | server/routes.ts:195-206 | the flags sniffed by `csvUpload` have no effect on the stored stops |
| Handlers.PositionalIsCanonical | server/routes.ts:134-135 | positional stops, once stored and geocoded, are already in canonical order and all carry the route id |
| Handlers.CreateStops | server/routes.ts:109-122 | one stored address per stop, with consecutive fresh ids, appended in order; nothing else changes |
| Handlers.LocateStops | server/routes.ts:124-132 | each new stop gets the geocoder's `lat` and `lng`, in place, and nothing else changes |
| Handlers.ResultPatchCompletes | server/routes.ts:144-148 | the update writes the summary's distance and duration and the Maps link of the stops into the route |
| Handlers.FinishRoute | server/routes.ts:134-148 | the stops re-read in canonical order are summarised and linked, and the route alone is updated with those results |
| Handlers.StoreAndPlan | server/routes.ts:108-153 | the stops are stored and geocoded, read back in stored order, and the route is completed from them |
| Handlers.PlanStops | server/routes.ts:87-153 | a fresh route with empty results and `lineNotificationSent` false is created; the route and stops read back through the details endpoint |
| Handlers.PlanRoute | server/routes.ts:82-161 | an invalid body is answered 400 and changes nothing; otherwise the manual stops are planned as above |
| Handlers.UploadCsv | server/routes.ts:164-244 | no file, or no records, is answered 400 and changes nothing; otherwise a route is planned from the surviving rows by position, even when no row survives |
| Handlers.RouteDetails | server/routes.ts:58-79 | a non-numeric id is answered 400, an unknown id 404; otherwise the stored route with its stops in canonical order |
| Handlers.HistoryReadsBack | server/routes.ts:35-55 | one entry per route, newest first, each equal to what the details endpoint answers for its id |
| Handlers.StoredRoute | server/storage.ts:136-139 | every listed route is stored under its own id |
| Handlers.RouteKey | server/routes.ts:271 | a numeric route id names a map key exactly when it is a whole number |
| Handlers.SendNotification | server/routes.ts:265-298 | an invalid body is answered 400; a missing route or recipient 404 with no change; otherwise the message is sent and the route alone is marked notified, whatever the push returned |

## Left out

- The Express plumbing is not modelled: routing, JSON bodies and status codes beyond the decision each handler makes. The `multer` file filter and 5 MB limit (server/routes.ts:20-32) are left out too.
- `csv-parse` is a library. The records it produces are the input of `Handlers.UploadCsv`, and its parse errors, which lead to 500 answers, are not modelled.
- Every `catch` that turns an exception into a 500 answer is left out. So is the unreachable `catch` in `generateMapsUrl`: its only trigger is a lone surrogate, which a Dafny `char` cannot hold, so `URIError` is not modelled.
- Zod's error lists in 400 answers are not modelled, only the decision to refuse.
- server/services/geocode.ts is not part of this model. Its HTTP calls, rate-limit delay and random coordinates are replaced by a geocoder function parameter that gives every stop some `lat` and `lng`.
- The Directions API and LINE push HTTP calls are function parameters. So is `process.env`: the key and token are string parameters.
- `Promise.all` concurrency is not modelled. The writes target distinct ids, so they are modelled in order.
- Interleaving of whole requests is not modelled: each handler runs as one step over the store. Node runs other requests at each `await` in the handlers: geocoding (network calls and its delay), the Directions call and the LINE push (server/routes.ts:125, :138, :224, :285). The clauses of `Handlers.CreateStops`, `Handlers.StoreAndPlan`, `Handlers.PlanStops`, `Handlers.PlanRoute` and `Handlers.UploadCsv` about consecutive ids, the new stops as the suffix of the address listing, and the counters after the call describe serial runs only. So does the suffix precondition of `Handlers.LocateStops`. A concurrent request could also read a route while its `distance` is still `""`. The stops read back by route id and the completed route itself are not affected, because every write is keyed by id.
- `Date` and `toLocaleString` are left out. Route names use a clock-text parameter, and `createdAt` is an integer parameter.
- RouteOptimization.Tenths: `toFixed(1)` on a binary float can round a tie such as 0.05 km differently from the exact half-up rounding modelled here.
- `findCenterPoint` and `calculateDistance` (client/src/utils/maps.ts) are floating-point helpers and are not modelled.
- `/api/import-sheet` always answers 501, so it is not modelled. Neither is the Google Sheet component.
- `/api/line-settings` only returns `getAllLineSettings()`, which `Storage.MemStorage.AllLineSettings` models. The handler itself is not modelled.
- The React components and hooks are UI wiring and are not modelled. Only the CSV form's parser, state and submit guard are. The drag-and-drop extension and size check of `file-upload.tsx` are left out.
- CsvPreview.CsvUploadForm.HandleFileSelect: the asynchronous `FileReader` callback is taken as one step. The file's text, or a read error, is a parameter.
- CsvPreview.PreviewRowKeys: `Object.keys` order is stated as the order of first assignment, which holds for non-numeric header names. Numeric header names, which JavaScript lists first, are not modelled. Nor is a `__proto__` header: assigning a string to `rowData["__proto__"]` creates no own key in JavaScript, while the model adds the key.
- FileProcessor.NormalizeRecord: a record is a list of (column, value) pairs, which may repeat a column. A csv-parse record is an object whose keys are distinct, so it never repeats one. On a repeated column the model lets the last pair win. An object would keep the column at its first position, holding the last value.
- Storage.ApplyPatch: a patch field given explicitly as `undefined` is treated as absent. In JavaScript the spread would overwrite the field with `undefined`.
- Text.Lower: only ASCII letters are lower-cased. Every column name and token the code compares against is ASCII or CJK, so no match changes.
- Storage.MemStorage.AddressesByRouteId: the order is proved canonical only when at most one stop is flagged start, and at most one is flagged end without also being flagged start. For other inputs the model still runs the source comparator through a stable insertion sort, but the engine's own sort algorithm may order such inputs differently.
- The handlers require that every stored stop belongs to an already-created route. Every store reached through the handlers satisfies this.
- User authentication is not modelled; the user operations of the store are.
