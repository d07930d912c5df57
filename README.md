# SwasthyaSathi core, modelled in Dafny

SwasthyaSathi is a medicine-information web application. An Express backend
resolves a medicine name to a stored record: it asks a text-generation
service to normalise the name, derives a cache key and serves the stored
record on a hit. On a miss it generates the record, checks it, sanitises its
alternatives and inserts it once. The backend also reads medicine names off a
prescription image, answers symptom questions from a fixed table, and
registers and logs in users. A browser frontend keeps the session and a
three-scan allowance for logged-out visitors, gates the medicine search on
it, validates the sign-in forms and formats small pieces of text: list
items, translation payloads, OCR lines and pharmacy addresses.

This project models that core and proves what it promises. The external
services are parameters of the model:

- the text-generation calls, `JSON.parse`, OCR, bcrypt and the network are
  oracles;
- the Medicine collection is a `map` from `normalizedName` to record;
- the browser's storage slots are fields of a class.

Modules, one per source file, plus three shared ones:

| module | file | models |
|---|---|---|
| `Wrappers` | wrappers.dfy | `Option` and `Result` |
| `Js` | js.dfy | JavaScript values, truthiness, `||`, field access, exceptions |
| `Text` | text.dfy | `trim` (the ECMAScript white-space set), ASCII `toLowerCase`, `includes`, `indexOf`, `split`/`join`, decimal text |
| `BraceSpan` | brace_span.dfy | the greedy `\{[\s\S]*\}` match |
| `MedicineModel` | medicine_model.dfy | the Medicine schema and `Medicine.create` |
| `MedicineNormalizer` | medicine_normalizer.dfy | `extractJSON` and `normalizeMedicineWithAI` |
| `MedicineService` | medicine_service.dfy | `sanitizeAlternatives` and `getMedicineByName` |
| `PrescriptionService` | prescription_service.dfy | `extractJSONorText`, `splitCSVNames`, `processPrescriptionImage` |
| `AuthService` | auth_service.dfy | `registerUser` and `loginUser` |
| `Chatbot` | chatbot.dfy | the symptom table, `findSymptom`, `createResponse`, `POST /chat` |
| `ScanGate` | auth_config.dfy | the `AuthConfig` object (class `AuthConfig`) |
| `MedicinePage` | medicine_page.dfy | `buildTranslationPayload`, `listItems`, `renderAlternatives`, `showMedicineDetails` |
| `AuthPage` | auth_page.dfy | `apiRequest`, the email pattern, the login and register handlers |
| `MedicineScan` | medicine_scan.dfy | `cleanMedicineText` |
| `PharmacyMap` | pharmacy_map.dfy | `buildAddress` |

The stateful parts are classes whose methods are proved against pure
specification functions of the old state:

- `MedicineService.MedicineService.GetMedicineByName` against `Resolve`;
- `AuthService.UserStore` against `RegisterSpec` and `LoginSpec`;
- `ScanGate.AuthConfig` against `AfterSetUser`, `AfterLogout` and
  `AfterIncrement`;
- `MedicinePage.MedicinePage.ShowMedicineDetails` against `SearchSpec`.

The loops of the source are methods with loop invariants:

- the prescription resolve loop, `PrescriptionService.ResolveAll`;
- the numbered-list `forEach`, `Chatbot.AppendNumbered`;
- the OCR line scan, `MedicineScan.CleanMedicineText`.

The lemmas are stated about the specification functions.

A login response without a token is stored as the text "undefined": the
session then counts as logged in and requests carry "Bearer undefined"
(`ScanGate.MissingTokenStillLogsIn`). The backend's login controller is not
part of this model, so whether it ever sends a token is not decided here.

## Model

| member | source | states |
|---|---|---|
| BraceSpan.Span | backend/src/services/medicine.service.js:84 | a match, when there is one, opens with `{` and closes with `}` |
| BraceSpan.MatchBoundsLeftmostLongest | backend/src/services/medicineNormalizer.service.js:41 | there is no match exactly when no bounds are returned; the bounds returned are a match that starts leftmost and, among matches starting there, is longest |
| BraceSpan.SpanShape | backend/src/services/medicineNormalizer.service.js:41-42 | the span is absent exactly when no `}` follows the first `{`; otherwise it runs from the first `{` through the last `}`, with no `{` before it and no `}` after it |
| BraceSpan.GreedyAcrossObjects | backend/src/services/medicine.service.js:84 | with two objects in a reply, the span covers both and the text between them |
| MedicineModel.Validate | backend/src/models/medicine.model.js:5-34 | validation succeeds exactly when the key and `medicineName` are non-empty strings, each optional text is undefined, null or a string, and each list is undefined, null or an array of strings; a valid document stores every given text (unset for undefined or null) and every given list element in order ([] when unset), keeps the alternatives, and has source "gemini" unless another is given; an empty key or a falsy `medicineName` is a validation error |
| MedicineModel.Create | backend/src/models/medicine.model.js:5-10 | an insert adds exactly the validated record under its new key; a key that is already taken is refused; the store invariant is kept |
| MedicineModel.EmptyListsStayEmpty | backend/src/models/medicine.model.js:17-21 | a list path given as the empty array is stored as the empty list |
| MedicineModel.UniqueNormalizedName | backend/src/models/medicine.model.js:5-10 | in a store that keeps the invariant, no two records share a `normalizedName` |
| MedicineNormalizer.ExtractJSONNullIffNoSpan | backend/src/services/medicineNormalizer.service.js:40-44 | `extractJSON` returns null exactly when no `}` follows the first `{`; otherwise it parses the text from the first `{` through the last `}`, and fails exactly when that parse fails |
| MedicineNormalizer.Decide | backend/src/services/medicineNormalizer.service.js:68-79 | the result is null exactly when `canonicalName` is falsy, is exactly "unknown", or `confidence` is exactly "low"; it is a TypeError exactly when a name to be trimmed is not a string; an accepted result holds the trimmed `canonicalName` and the trimmed `genericName`, or "" |
| MedicineNormalizer.NormalizeOutcomes | backend/src/services/medicineNormalizer.service.js:49-80 | a rejected call fails; a reply without a brace span throws "Failed to parse normalization response"; with a span, the outcome is the parse error or the decision on the parsed object |
| MedicineNormalizer.PaddedNameIsAccepted | backend/src/services/medicineNormalizer.service.js:68-77 | a high-confidence canonical name padded with spaces is accepted, with the padding trimmed |
| MedicineNormalizer.PaddedUnknownIsAccepted | backend/src/services/medicineNormalizer.service.js:70 | the "unknown" test compares before trimming: " unknown " is accepted as the canonical name "unknown" |
| MedicineService.SanitizeAlternatives | backend/src/services/medicine.service.js:36-45 | a non-array gives []; the output is no longer than the input, and every output name is trimmed |
| MedicineService.SanitizeAppend | backend/src/services/medicine.service.js:39-44 | entries are sanitised one by one: the result for a concatenation is the concatenation of the results, so order is kept |
| MedicineService.SanitizeOne | backend/src/services/medicine.service.js:40-44 | a kept entry is converted; any other entry is dropped |
| MedicineService.SanitizeMembers | backend/src/services/medicine.service.js:39-44 | an alternative is in the output exactly when a truthy input entry with a string `name` converts to it |
| MedicineService.SanitizedKind | backend/src/services/medicine.service.js:43 | the type is "branded" exactly when the input type is the string "branded", and "generic" otherwise |
| MedicineService.AlternativeJsonRoundTrip | backend/src/services/medicine.service.js:40-44 | a sanitised alternative, written back as JSON, is kept and converts to itself |
| MedicineService.SanitizeItemsRoundTrip | backend/src/services/medicine.service.js:39-44 | sanitised entries, written back as JSON, sanitise to themselves |
| MedicineService.SanitizeIdempotent | backend/src/services/medicine.service.js:36-45 | sanitising a sanitised list changes nothing |
| MedicineService.NotRecognizedNeverTouchesStore | backend/src/services/medicine.service.js:51-55 | a name the normaliser rejects fails with "Medicine not recognized"; the store is unchanged and the outcome does not depend on what the store holds |
| MedicineService.KeyDerivation | backend/src/services/medicine.service.js:57-60 | the key is the lower-cased `genericName` when it is non-empty, else the lower-cased `canonicalName` |
| MedicineService.CacheHitServesStored | backend/src/services/medicine.service.js:66-70 | on a hit the stored record comes back unchanged, nothing is inserted, and the record reply is never consulted |
| MedicineService.MissFailures | backend/src/services/medicine.service.js:84-93 | a reply without a brace span, a span that does not parse (SyntaxError), or a parsed object without a truthy `medicineName` fails with its message and leaves the store unchanged |
| MedicineService.MissInsertsOnce | backend/src/services/medicine.service.js:96-107 | a successful miss inserts exactly one record, under the key; the reply's `medicineName`, `genericName`, `category`, `howToUse` and truthy lists are stored as given; falsy lists become []; alternatives are sanitised; the source is "gemini" |
| MedicineService.GenerateOutcome | backend/src/services/medicine.service.js:72-109 | the miss path either fails with the store unchanged, or inserts the well-formed record it returns under the key and nowhere else |
| MedicineService.ResolveKeepsStore | backend/src/services/medicine.service.js:48-110 | a resolution keeps the store invariant; a failure changes nothing; a success adds at most its own record, under a key that was free, and changes no stored record |
| MedicineService.ResolvedIsCached | backend/src/services/medicine.service.js:57-70 | a successful resolution returns the record that the store then holds under the looked-up key |
| MedicineService.AliasServedFromCache | backend/src/services/medicine.service.js:57-70 | once one name is resolved, a second name with the same key is served the same record, with no generation and no insert |
| MedicineService.MedicineService.GetMedicineByName | backend/src/services/medicine.service.js:48-110 | the method's outcome and new store are those of the resolution specification, and the store invariant is kept |
| PrescriptionService.ExtractJSONorText | backend/src/services/prescription.service.js:24-36 | a falsy reply gives ""; the `medicines` string is returned only when the span parses to an object whose `medicines` is a string; otherwise the trimmed reply is returned |
| PrescriptionService.PlainLineIsTrimmed | backend/src/services/prescription.service.js:35 | a reply with no brace span is the trimmed reply, whatever the parser says |
| PrescriptionService.NonEmptyMembers | backend/src/services/prescription.service.js:43 | the filter keeps exactly the non-empty pieces |
| PrescriptionService.DedupeMembers | backend/src/services/prescription.service.js:44 | de-duplication keeps every element and adds none |
| PrescriptionService.DedupeNoDuplicates | backend/src/services/prescription.service.js:44 | no element occurs twice after de-duplication |
| PrescriptionService.DedupeFirstOccurrenceOrder | backend/src/services/prescription.service.js:44 | the kept elements are in the order of their first occurrences |
| PrescriptionService.SplitCSVNamesMembers | backend/src/services/prescription.service.js:38-45 | the names are exactly the non-empty trimmed comma-separated pieces; an empty line has none |
| PrescriptionService.SplitCSVNamesShape | backend/src/services/prescription.service.js:40-43 | every name is non-empty, trimmed and holds no comma |
| PrescriptionService.SplitCSVNamesOrder | backend/src/services/prescription.service.js:44 | no name repeats, and names are in the order of their first occurrence among the pieces |
| PrescriptionService.AsWrittenResolvesNothing | backend/src/services/prescription.service.js:78-86 | with the call as written, the loop returns no medicine and leaves the store untouched |
| PrescriptionService.AsWrittenLosesResolvableName | backend/src/services/prescription.service.js:81 | a name the medicine service resolves is still lost as written, and is kept by the corrected call |
| PrescriptionService.ResolvedNamesAreCached | backend/src/services/prescription.service.js:78-86 | with the corrected call, the loop keeps the store invariant, changes no stored record, and every medicine it returns is cached under its own key |
| PrescriptionService.ResolveNamesAppend | backend/src/services/prescription.service.js:78-86 | the loop over two runs of names is the loop over the first followed by the loop over the second from the store the first left: the first run's medicines come first, and the second run sees every record the first inserted |
| PrescriptionService.TextAndNamesIndependentOfResolution | backend/src/services/prescription.service.js:88 | the returned text and names do not depend on the resolver or on the store |
| PrescriptionService.AsWrittenNoMedicines | backend/src/services/prescription.service.js:58-89 | as written, every request that gets past OCR and extraction returns no medicines and leaves the store as it was |
| PrescriptionService.ResolveAll | backend/src/services/prescription.service.js:78-86 | the loop's medicines and new store are those of the corrected resolve loop specification |
| PrescriptionService.ProcessPrescriptionImage | backend/src/services/prescription.service.js:58-89 | the result and new store are those of the whole-request specification with the corrected call |
| AuthService.RegisterExisting | backend/src/services/auth.service.js:5-8 | a taken email fails with "User already exists" and nothing changes |
| AuthService.RegisterNew | backend/src/services/auth.service.js:10-22 | a new email adds exactly one user, stores the hash and not the password, and returns only id, name and email |
| AuthService.RegisterKeepsInvariant | backend/src/services/auth.service.js:4-23 | registration keeps users under their own emails with distinct ids |
| AuthService.InvalidCredentialsUniform | backend/src/services/auth.service.js:26-34 | an unknown email and a wrong password fail with the same "Invalid credentials" |
| AuthService.LoginSucceedsIff | backend/src/services/auth.service.js:25-41 | login succeeds exactly when the email is registered and the password compares equal, and then returns that user's public view |
| AuthService.LoginAfterRegister | backend/src/services/auth.service.js:4-41 | with a hasher that accepts its own hashes, logging in right after registering returns what registration returned |
| AuthService.RegisterPreservesLogins | backend/src/services/auth.service.js:4-41 | a registration changes no existing user's login result |
| AuthService.UserStore.RegisterUser | backend/src/services/auth.service.js:4-23 | the outcome and new table are those of the registration specification, and the invariant is kept |
| AuthService.UserStore.LoginUser | backend/src/services/auth.service.js:25-41 | the outcome is that of the login specification; the table is not modified |
| Chatbot.DirectMatchIsFirst | backend/src/routes/chatbot.js:97-99 | a key the message contains, with no earlier key contained, is the key the scan returns |
| Chatbot.DirectMatchSound | backend/src/routes/chatbot.js:97-99 | the scan returns a contained key with no earlier key contained |
| Chatbot.DirectMatchNone | backend/src/routes/chatbot.js:97-99 | the scan finds nothing exactly when the message contains no key |
| Chatbot.FindSymptom | backend/src/routes/chatbot.js:94-113 | the result is null or one of the seven table keys |
| Chatbot.HeuristicsOnlyWithoutKey | backend/src/routes/chatbot.js:97-110 | a contained key wins; the keyword heuristics are used exactly when no key is contained |
| Chatbot.FindSymptomIgnoresCase | backend/src/routes/chatbot.js:95 | a message and its lower-cased form find the same symptom |
| Chatbot.NumberedAppend | backend/src/routes/chatbot.js:122-128 | numbering is by position: the lines of a concatenation continue the numbering |
| Chatbot.ResponseFrame | backend/src/routes/chatbot.js:119-130 | the response opens with "I understand you have <symptom>" and ends with the disclaimer |
| Chatbot.AppendNumbered | backend/src/routes/chatbot.js:122 | the loop appends one line per item, numbered from 1, in order |
| Chatbot.CreateResponse | backend/src/routes/chatbot.js:116-133 | a symptom with an entry gets the numbered causes, tips and warnings; one without an entry throws |
| Chatbot.FoundSymptomHasEntry | backend/src/routes/chatbot.js:144-148 | every symptom `findSymptom` returns has a table entry |
| Chatbot.Chat | backend/src/routes/chatbot.js:136-161 | a missing or falsy message gives 400 "Message required"; the reply is 200 exactly for a non-empty string message, with success true and the response or the fallback text |
| Chatbot.HeadacheBeforeFever | backend/src/routes/chatbot.js:97-99 | a message naming a headache and a fever is answered as a headache |
| Chatbot.ColdBySneezing | backend/src/routes/chatbot.js:107 | a message with no key, no "pain" and "sneez" in it is a cold |
| Chatbot.SneezingBeforeBukhar | backend/src/routes/chatbot.js:107-108 | "sneeze" is tried before "bukhar" |
| Chatbot.FallbackWithoutLetters | backend/src/routes/chatbot.js:149-151 | a message without the letters b, e, f, h, l and p finds no symptom and gets the fallback list |
| Chatbot.UnrelatedMessageFallsBack | backend/src/routes/chatbot.js:112 | "i am sick" finds no symptom and gets the fallback list |
| ScanGate.GateConsistent | frontend/js/auth.config.js:29-38 | logged in, scanning is allowed and the remaining count is -1; logged out, scanning is allowed exactly when scans remain, and the remaining count is max(0, 3 - count) |
| ScanGate.SetUserResets | frontend/js/auth.config.js:45-49 | after `setUser` the visitor is logged in with count 0; doing it twice is doing it once |
| ScanGate.LogoutResets | frontend/js/auth.config.js:54-58 | after `logout` the visitor is logged out with all three scans; logging out twice is logging out once |
| ScanGate.IncrementRaisesByOne | frontend/js/auth.config.js:65-70 | the count rises by exactly one; user and token are untouched |
| ScanGate.HeadersCarryToken | frontend/js/auth.config.js:76-84 | the headers always carry the JSON content type, and carry "Bearer <token>" exactly when a non-empty token is stored |
| ScanGate.MissingTokenStillLogsIn | frontend/js/auth.config.js:45-47 | an undefined token is stored as "undefined": logged in, with "Bearer undefined" |
| ScanGate.FreeScanLimit | frontend/js/auth.config.js:29-38 | a logged-out visitor is granted exactly min(attempts, remaining) scans, and the count never passes 3 |
| ScanGate.AuthConfig.SetUser | frontend/js/auth.config.js:45-49 | the new slots are those of the `setUser` specification |
| ScanGate.AuthConfig.Logout | frontend/js/auth.config.js:54-58 | the new slots are those of the `logout` specification |
| ScanGate.AuthConfig.IncrementScan | frontend/js/auth.config.js:65-70 | the new slots are those of the `incrementScan` specification; the result is the new count |
| Text.DecimalRoundTrip | frontend/js/auth.config.js:66-68 | the stored decimal text of a count reads back as that count |
| MedicinePage.PayloadDefaults | frontend/js/medicine.js:59-68 | truthy fields are copied unchanged; falsy text fields become "N/A" and falsy lists []; every field of the payload is truthy |
| MedicinePage.PayloadIdempotent | frontend/js/medicine.js:59-68 | building a payload from a payload changes nothing |
| MedicinePage.PayloadOfNothing | frontend/js/medicine.js:59-61 | a null or undefined record throws a TypeError |
| MedicinePage.ListItemsInOrder | frontend/js/medicine.js:266-268 | item k is rendered as one `<li>` between the items before it and the items after it |
| MedicinePage.EmptyLooksLikeNotAvailable | frontend/js/medicine.js:267 | the empty list renders exactly like the one-item list "Not available" |
| MedicinePage.ItemsRoundTrip | frontend/js/medicine.js:268 | items without '<' can be read back from their rendering |
| MedicinePage.AlternativesVisibility | frontend/js/medicine.js:229-261 | alternatives are hidden exactly from logged-out visitors; "No alternatives available" is shown exactly for an empty list; otherwise one card per alternative, in order |
| MedicinePage.GateBeforeFetch | frontend/js/medicine.js:80-87 | a logged-out visitor past the limit is stopped before any request, and nothing changes |
| MedicinePage.BlankNameBeforeFetch | frontend/js/medicine.js:91-96 | a blank name is refused before any request, and nothing changes |
| MedicinePage.CountOnlyOnSuccess | frontend/js/medicine.js:104-128 | the count rises by one only for a logged-out visitor whose search succeeded; a failure changes nothing |
| MedicinePage.FreeSearchesBounded | frontend/js/medicine.js:78-131 | however many searches a logged-out visitor makes, at most the remaining free scans show a medicine |
| MedicinePage.MedicinePage.ShowMedicineDetails | frontend/js/medicine.js:78-131 | the outcome, the slots and the kept record are those of the search specification |
| AuthPage.BodyOnlyWithPayload | frontend/js/auth.js:6-14 | a body is sent exactly when a payload is given; the JSON content type always is |
| AuthPage.NonJsonWrapped | frontend/js/auth.js:23-30 | a body not declared JSON is wrapped as `{message: text}` |
| AuthPage.ErrorPrecedence | frontend/js/auth.js:32-36 | the error is the first truthy of message, error, status text, "Unexpected error" |
| AuthPage.PlainTextRefusal | frontend/js/auth.js:16-36 | a refused plain-text response fails with its text, else the status text, else "Unexpected error" |
| AuthPage.ApiSucceedsIff | frontend/js/auth.js:5-39 | a network failure gives the network message; a request succeeds exactly when the response is ok and its body readable, and returns that body |
| AuthPage.EmailCheckIsPattern | frontend/js/auth.js:158 | the direct check (no white space, one '@' with text before it, a '.' strictly inside the domain) accepts exactly what the pattern matches |
| AuthPage.LoginNeedsBothFields | frontend/js/auth.js:112-117 | with a blank trimmed email or password, no request is sent and nothing is stored |
| AuthPage.LoginStoresSession | frontend/js/auth.js:119-141 | a successful login stores `res.user`, else `res`, with `res.token`, and resets the count; a failed one stores nothing |
| AuthPage.RegisterChecksInOrder | frontend/js/auth.js:153-168 | the checks run in order (all fields, email pattern, confirmation); the first failing one names the refusal, and a refused form sends no request |
| MedicineScan.LongTrimmedMembers | frontend/js/medicine-scan.js:52-55 | a candidate is exactly a trimmed line longer than two characters |
| MedicineScan.LongTrimmedOrder | frontend/js/medicine-scan.js:52-55 | candidates keep the order of their lines |
| MedicineScan.CleanMedicineText | frontend/js/medicine-scan.js:48-70 | the result is null exactly when every candidate is skipped; otherwise it is the first candidate that is not all digits and mentions no "batch", "mfg" or "exp" in any case |
| MedicineScan.PickedLineShape | frontend/js/medicine-scan.js:52-66 | a picked line is a trimmed line of the text, longer than two characters |
| PharmacyMap.PartsMembers | frontend/js/map.js:149-152 | a part is exactly a non-empty value of one of the keys |
| PharmacyMap.AddressOrder | frontend/js/map.js:149-152 | the parts are housenumber, street, suburb and city, in that order, each present exactly when its tag is non-empty |
| PharmacyMap.AddressNeverEmpty | frontend/js/map.js:154 | the address is the parts joined by ", " when there are any, else "Address not available", and is never empty |
| PharmacyMap.MissingTags | frontend/js/map.js:146 | omitted tags read as no tags |
| PharmacyMap.BuildAddressByPush | frontend/js/map.js:146-155 | the four guarded pushes and the join give the address of the specification, which is never empty |

## Left out

- The text-generation service, `JSON.parse`, Tesseract OCR, bcrypt, `fetch` and `response.json()` are oracles. Their behaviour is not modelled.
- Prompt texts and logging are left out. They are string templates and console output.
- Mongoose type casting is not modelled: a number given for a String path is a validation error here, whereas Mongoose would cast it to a string. Timestamps are left out.
- The race between two concurrent first lookups of the same key is not modelled. Each resolution runs alone against the store.
- `backend/src/models/user.model.js` is not part of this model. The user table is an email-keyed map with ids handed out in order.
- `oauth.js`, `main.js`, the frontend chat widget, the Express wiring and the DOM updates are not modelled. Alerts, button states, redirects and `speechSynthesis` are DOM effects.
- Translation requests, `translateArray`, `changeLanguage` and the language argument of `renderMedicineDetails` are not modelled. They are network calls over the payload.
- `toLowerCase` is ASCII lower-casing. Numbers are integers. JSON text is not modelled: the user slot holds the value `setUser` was given, and the `user` getter's JSON round trip is not modelled.
- The `user` and `token` getters of the `AuthConfig` object are not separate members: the class reads its fields directly.
- `ScanGate.AuthConfig.SetUser`: a token that is neither a string nor undefined is not modelled; the token parameter is a string or absent.
- `MedicinePage.MedicinePage.ShowMedicineDetails`: a response body that is not a medicine record is folded into a failed fetch. The source would first keep that body (null, say) as `originalMedicineData` and then fail in rendering; here the kept record is unchanged.
- `PharmacyMap.BuildAddress`: tag values are strings only, so "truthy" is "non-empty".
- `PrescriptionService.ReadNames`: the OCR text is a parameter. `data.text || ""` and the OCR error path are reduced to a text or `None`.
- The message of a SyntaxError thrown by `JSON.parse` is not modelled. It is a bare `SyntaxError`.
- Overpass, Nominatim and Leaflet calls in `map.js` are left out. So are the coordinates they parse.

## Findings

| source | as written | input that shows it | evidently intended | confidence | as-written member | corrected member |
|---|---|---|---|---|---|---|
| backend/src/services/prescription.service.js:4 | imports `checkDBorAI`, which medicine.service.js does not export (line 113 exports only `getMedicineByName`); the call at line 81 is then a call of `undefined`, which throws a TypeError that the loop catches, so no name is ever resolved | any prescription whose reply names a medicine the service can resolve, e.g. the reply line "paracetamol" | resolve each name through `getMedicineByName` and return the records found, in `names` order | not executed | PrescriptionService.AsWrittenResolvesNothing | PrescriptionService.ResolvedNamesAreCached |
