# Metrics dashboard core in Dafny

This project models the logic of a small metrics dashboard:

- the three mock API handlers:
  - `GET /api/metrics` synthesises a time series from a seeded Park–Miller generator;
  - `GET /api/datasets` filters a fixed five-entry catalog;
  - `/api/annotations` keeps an in-memory list with `GET`, `POST` and `DELETE`;
- the client's error normalisation in `src/services/api.ts`;
- the `useMetrics` hook's guard, cache key and request;
- the metrics toolbar's field toggling, time-range presets and field list.

Modules:

- **Wrappers**: `Option`.
- **Text**: the string operations the handlers use, in ASCII form. They are `trim`, upper/lower case, `split`/`join` on a separator, substring search and decimal rendering.
- **JsValues**:
  - a JSON value type, with `JsNumber` for finite numbers, `NaN` and the infinities;
  - JavaScript truthiness and `typeof … === 'object'`;
  - property lookup, where the last duplicate key wins as in `JSON.parse`;
  - `Number(string)` restricted to decimal integers.
- **MetricFields**: the five-value field enum, its names, and the JavaScript default sort order on those names.
- **Prng**: `createPrng` as a `Generator` class whose `Next` updates its `state` field. Its specification is the functions `Step`, `Advance` and `Draw`.
- **MetricsRoute**:
  - `parseTimestamp`, `parseFields`, the sampling parameters and the seed;
  - `generatePoints`, a method with the source's two loops, proved equal to the specification function `Points`;
  - `GET`.
- **DatasetsRoute**: the catalog, `isDatasetStatus`, and `GET` with both filters and `total`.
- **AnnotationsRoute**: the module-level array as the `Store` class with `Add` (`push`) and `DeleteById` (`findIndex` + `splice`), and the `GET`, `POST` and `DELETE` handlers as its methods. Each handler is specified by a function of the old list: `PostOutcome` or `DeleteOutcome`.
- **ApiClient**: `extractFirstString`, `extractPayloadMessage` and `normalizeError`, over a JSON value and an axios-error record.
- **UseMetrics**:
  - `canFetch`, `metricsKey`, `queryFn` and `enabled`;
  - the query string that `fetchMetrics` builds, tied back to what `GET /api/metrics` parses.
- **MetricsToolbar**: `presetDefinitions`, `handlePresetSelect` (with `Date.now()` as a parameter), `isPresetActive`, `toggleField` and `sortedFields`.

Apart from the abstractions listed under "## Left out", the model follows the code; its one deliberate deviation is the seed normalisation (see "## Findings").

`generatePoints` clamps its *target* point count to [24, 96]. The loop `for (ts = from; ts <= to; ts += step)` then emits `floor((to - from) / step) + 1` points. That is `pointCount + 1` for ranges of at least two hours, and at most 24 for short ranges. So the model proves a count in [1, 97] (`PointCountBounds`), not in [24, 96].

## Model

| member | source | states |
|---|---|---|
| MetricFields.FromName | src/app/api/metrics/route.ts:23-29 | a string names a field exactly when it is one of the five enum names, and then it names that field |
| MetricFields.RankIsNameOrder | src/hooks/useMetrics.ts:23 | the order used to sort fields is exactly the code-unit order on their names that `Array.prototype.sort` uses by default |
| MetricFields.SortFields | src/hooks/useMetrics.ts:23 | the sorted copy is ascending and a permutation of its input |
| MetricFields.SortPermutationInvariant | src/hooks/useMetrics.ts:23 | two permutations of the same fields sort to the same list |
| JsValues.NumberOf | src/app/api/metrics/route.ts:38 | `Number` of a blank string is 0, and the modelled strings never read as an infinity |
| MetricsRoute.ParseTimestamp | src/app/api/metrics/route.ts:34-40 | an absent or empty parameter is missing; any other parameter is kept exactly when `Number` reads it as a finite value, and then it is that value |
| MetricsRoute.ParseTimestampOfDecimal | src/app/api/metrics/route.ts:34-40 | the decimal rendering of any integer parses back to that integer |
| MetricsRoute.BlankTimestampIsZero | src/app/api/metrics/route.ts:34-40 | every non-empty whitespace-only timestamp parses to 0, as `Number` does |
| MetricsRoute.ParseFields | src/app/api/metrics/route.ts:42-55 | the list is never empty; a missing or empty parameter gives all five fields in enum order; otherwise it is the valid trimmed, upper-cased names in order with duplicates kept, or all five when there are none |
| MetricsRoute.RequestedFields | src/app/api/metrics/route.ts:47-52 | the filtered list is never longer than the pieces, and no pieces give no fields |
| MetricsRoute.RequestedFieldsAppend | src/app/api/metrics/route.ts:47-52 | the fields of two runs of pieces are the fields of each run, in order: the filter neither reorders nor drops a valid name |
| MetricsRoute.RequestedFieldsOfNames | src/app/api/metrics/route.ts:47-52 | splitting the comma-joined names of a field list recovers exactly that list |
| MetricsRoute.ParseFieldsOfJoin | src/app/api/metrics/route.ts:47-54 | a non-empty field list survives the client's comma join and the route's parse unchanged, in order and with duplicates |
| MetricsRoute.RangeOf | src/app/api/metrics/route.ts:72 | the range is at least 1 ms and equals `to - from` when that is positive |
| MetricsRoute.PointTarget | src/app/api/metrics/route.ts:73 | the target point count lies in [24, 96] |
| MetricsRoute.StepOf | src/app/api/metrics/route.ts:74 | the step is never shorter than five minutes |
| MetricsRoute.CharCodeSum | src/app/api/metrics/route.ts:75-78 | the seed's character-code part is never negative |
| MetricsRoute.ZeroSeedRanges | src/app/api/metrics/route.ts:75-78 | for dataset `a`, every range [-2147483743 - k·2147483647, 0] gives a seed the code as written sends to state 0 |
| MetricsRoute.SameSeedSameSeries | src/app/api/metrics/route.ts:75-78 | two datasets whose character codes add up to the same sum get the same series for the same range and fields: the name enters only through the seed |
| MetricsRoute.Points | src/app/api/metrics/route.ts:90-104 | the specification series has exactly `PointCount` points |
| MetricsRoute.SampleValues | src/app/api/metrics/route.ts:93-101 | one point's `values` object takes the generator's next draws, one per listed field and in list order; the generator advances by exactly the number of fields |
| MetricsRoute.GeneratePoints | src/app/api/metrics/route.ts:66-107 | the generated points are exactly the specification series `Points`, with timestamp `from + i*step` and draws numbered `i*|fields|` onward for point `i` |
| MetricsRoute.PointCountBounds | src/app/api/metrics/route.ts:73-90 | for `to > from` the number of emitted points is `floor((to-from)/step)+1` and lies in [1, 97] |
| MetricsRoute.PointCountLongRange | src/app/api/metrics/route.ts:73-90 | a range of at least two hours emits the target point count plus one |
| MetricsRoute.PointCountShortRange | src/app/api/metrics/route.ts:73-90 | a range shorter than two hours is sampled every five minutes and emits `floor((to-from)/300000)+1` points, at most 24 |
| MetricsRoute.PointTimestamp | src/app/api/metrics/route.ts:90-103 | point `i` is stamped `from + i*step` |
| MetricsRoute.PointsSpacing | src/app/api/metrics/route.ts:90-104 | for `to >= from` there are `PointCount` points, at least one; the first timestamp is `from`, consecutive timestamps differ by exactly `step`, all lie within `to`, and one more step would pass `to` |
| MetricsRoute.PointsKeys | src/app/api/metrics/route.ts:92-103 | every point's `values` keys are exactly the requested fields |
| MetricsRoute.PointValueIsItsDraw | src/app/api/metrics/route.ts:93-101 | the field at list position `j`, when no later position repeats it, gets its value from draw number `first + j` |
| MetricsRoute.Get | src/app/api/metrics/route.ts:109-148 | a blank dataset, then missing or non-finite bounds, then `to <= from` give their 400 messages in that order; otherwise the response is served with the trimmed dataset, the bounds, the parsed fields, the series and no annotations, and served exactly then |
| MetricsRoute.ServedShape | src/app/api/metrics/route.ts:109-148 | a served response has `from < to`, a non-empty field list, 1 to 97 points starting at `from` and ending within `to`, each keyed by exactly the listed fields |
| Prng.JsRem | src/app/api/metrics/route.ts:58 | JavaScript's `%`: the remainder has the dividend's sign and is smaller than the divisor in size |
| Prng.NonNegativeSeedInRange | src/app/api/metrics/route.ts:58-59 | for a non-negative seed the normalised state lies in [1, 2147483646] |
| Prng.NegativeSeedReachesZero | src/app/api/metrics/route.ts:58-61 | the seed -2147483646 normalises to state 0, and the generator then stays at 0 forever |
| Prng.ZeroSeeds | src/app/api/metrics/route.ts:58-59 | the code as written sends a seed to state 0 exactly when its JavaScript remainder is -2147483646, that is, for the negative seeds with `(-seed) % 2147483647 == 2147483646` |
| Prng.ZeroSeedClass | src/app/api/metrics/route.ts:58-59 | every seed -2147483646 - k·2147483647 (k ≥ 0) is sent to state 0 |
| Prng.NormalizeSeed | src/app/api/metrics/route.ts:58-59 | the corrected normalisation always lands in [1, 2147483646] and agrees with the code wherever the code lands there |
| Prng.Step | src/app/api/metrics/route.ts:61 | one step `state * 16807 % 2147483647` lands in [0, 2147483646]; `StepInRange` excludes 0 from a state in range |
| Prng.StepInRange | src/app/api/metrics/route.ts:61 | one multiplication step keeps the state in [1, 2147483646] |
| Prng.AdvanceInRange | src/app/api/metrics/route.ts:61 | any number of steps keeps the state in [1, 2147483646] |
| Prng.DrawInRange | src/app/api/metrics/route.ts:61-62 | every drawn numerator `state - 1` lies in [0, 2147483645] |
| Prng.Generator.constructor | src/app/api/metrics/route.ts:57-59 | a new generator's state is the normalised seed |
| Prng.Generator.Next | src/app/api/metrics/route.ts:60-63 | each call advances the state by one step and returns the new state minus one, in [0, 2147483645] |
| DatasetsRoute.ParseStatus | src/app/api/datasets/route.ts:60-61 | exactly the three status names are accepted, each as its own status |
| DatasetsRoute.Select | src/app/api/datasets/route.ts:78-91 | filtering never lengthens the list |
| DatasetsRoute.SelectMembers | src/app/api/datasets/route.ts:78-91 | a dataset is kept exactly when it is in the input and passes both the status and the search condition |
| DatasetsRoute.SelectIsSubsequence | src/app/api/datasets/route.ts:78-91 | the result is a subsequence of the input: nothing is added or reordered |
| DatasetsRoute.SelectTwice | src/app/api/datasets/route.ts:78-91 | filtering by status and then by search is one filter by both conditions |
| DatasetsRoute.SelectAll | src/app/api/datasets/route.ts:65-78 | with no status and an empty search nothing is dropped |
| DatasetsRoute.List | src/app/api/datasets/route.ts:63-97 | the 400 answer with its fixed message comes exactly for a non-blank status that is not one of the three names; a listed answer's `total` is the length of its list |
| DatasetsRoute.FilteredIsSelection | src/app/api/datasets/route.ts:78-91 | the handler's two filter passes equal one selection by both conditions |
| DatasetsRoute.ListMembers | src/app/api/datasets/route.ts:78-96 | a listed dataset is exactly a catalog entry that passes both active filters; the list is a subsequence of the catalog, and `total` is its length |
| DatasetsRoute.ListByStatus | src/app/api/datasets/route.ts:66-82 | a valid status in any case and padding is listed, and only datasets of that status are returned |
| DatasetsRoute.ListEverything | src/app/api/datasets/route.ts:65-96 | with neither parameter, all five catalog entries are listed with total 5 |
| DatasetsRoute.ListBlankParameters | src/app/api/datasets/route.ts:65-78 | empty or whitespace-only search and status parameters filter nothing: all five entries are listed with total 5 |
| DatasetsRoute.ListUnknownStatus | src/app/api/datasets/route.ts:68-73 | the status `deleted` is rejected with 400 whatever the search |
| DatasetsRoute.ListApiActive | src/app/api/datasets/route.ts:78-91 | `search=api&status=active` lists exactly the mobile API dataset, with total 1 |
| AnnotationsRoute.FirstIndexOf | src/app/api/annotations/route.ts:18 | the result is -1 exactly when no annotation has the id; otherwise it is the first index that has it |
| AnnotationsRoute.RemoveAt | src/app/api/annotations/route.ts:23 | the list loses entry `i` and nothing else: one shorter, with earlier and later entries in their order |
| AnnotationsRoute.RemoveAtContents | src/app/api/annotations/route.ts:23 | exactly one copy of the removed entry leaves the contents |
| AnnotationsRoute.AppendFreshKeepsUnique | src/app/api/annotations/route.ts:60-68 | appending an annotation whose id is absent keeps all ids distinct |
| AnnotationsRoute.AppendKeepsValid | src/app/api/annotations/route.ts:60-66 | appending an annotation with a fresh id and a non-empty text keeps ids distinct and texts non-empty |
| AnnotationsRoute.RemoveKeepsUnique | src/app/api/annotations/route.ts:17-25 | removing an entry keeps all ids distinct |
| AnnotationsRoute.AppendThenRemove | src/app/api/annotations/route.ts:12-25 | an appended annotation with a fresh id is found last, and removing it gives back the earlier list |
| AnnotationsRoute.IsValidTimestamp | src/app/api/annotations/route.ts:27-28 | a value is a valid timestamp exactly when it is some finite number |
| AnnotationsRoute.PostOutcome | src/app/api/annotations/route.ts:35-70 | checks run in order: an unparseable body, then a timestamp that is not a finite number, then a missing or blank text; creation happens exactly when all pass, and gives 201 with the fresh id, the timestamp and the trimmed non-empty text |
| AnnotationsRoute.PostBlankText | src/app/api/annotations/route.ts:53-58 | a body with a valid timestamp and a whitespace-only text is rejected for its text |
| AnnotationsRoute.DeleteOutcome | src/app/api/annotations/route.ts:72-93 | a missing or blank id gives 400, and an unknown id 404, both with the list unchanged; otherwise the trimmed id is answered and exactly one copy of the first match leaves the list |
| AnnotationsRoute.DeleteFound | src/app/api/annotations/route.ts:17-25 | deleting an id found first at index `i` removes exactly entry `i` |
| AnnotationsRoute.DeleteLeavesNoMatch | src/app/api/annotations/route.ts:17-25 | with distinct ids, a successful delete leaves no annotation with that id, and ids stay distinct after any delete |
| AnnotationsRoute.DeleteAppended | src/app/api/annotations/route.ts:12-25 | deleting the fresh, trimmed id of the annotation just appended answers with that id and gives back the previous list |
| AnnotationsRoute.CreateThenDelete | src/app/api/annotations/route.ts:60-93 | a successful `POST` with a fresh id followed by `DELETE` of that id restores the previous list |
| AnnotationsRoute.Store.constructor | src/app/api/annotations/route.ts:10 | the store starts empty |
| AnnotationsRoute.Store.Add | src/app/api/annotations/route.ts:12-15 | the list becomes the old list plus the annotation at the end, and the annotation is returned |
| AnnotationsRoute.Store.DeleteById | src/app/api/annotations/route.ts:17-25 | with no match nothing is returned and the list is unchanged; otherwise the first match is returned and removed, the rest keeping their order |
| AnnotationsRoute.Store.List | src/app/api/annotations/route.ts:30-33 | `GET` returns the list in insertion order |
| AnnotationsRoute.Store.Post | src/app/api/annotations/route.ts:35-70 | the answer is `PostOutcome`; only a created annotation is appended, and every other answer leaves the list untouched; with a fresh id, distinct ids and non-empty texts stay so (`Valid`) |
| AnnotationsRoute.Store.Delete | src/app/api/annotations/route.ts:72-93 | the answer and the new list are exactly `DeleteOutcome` of the old list, and `Valid` (distinct ids, non-empty texts) is kept |
| ApiClient.CleanIsTrimmed | src/services/api.ts:42-43 | a message with no surrounding whitespace and at least one character is its own trim and not empty, so the clean results below are trimmed results |
| ApiClient.NonBlankString | src/services/api.ts:42-49 | a value yields a string exactly when it is a non-blank string, and the result is trimmed and non-empty |
| ApiClient.FirstNonBlank | src/services/api.ts:46-51 | the result is -1 exactly when no entry is a non-blank string; otherwise it is the first index of one |
| ApiClient.ExtractFirstString | src/services/api.ts:41-55 | any result is non-empty and has no surrounding whitespace |
| ApiClient.ExtractFirstStringCases | src/services/api.ts:41-55 | a non-blank string gives itself trimmed; an array gives its first non-blank string entry trimmed, or nothing; anything else gives nothing |
| ApiClient.DirectMessage | src/services/api.ts:71-82 | any message found under the direct keys is non-empty and trimmed |
| ApiClient.EntriesMessage | src/services/api.ts:85-96 | any message found in the `errors` entries is non-empty and trimmed |
| ApiClient.PayloadMessage | src/services/api.ts:57-99 | a falsy payload gives nothing; a string gives its trimmed value when it is non-blank; another non-object gives nothing; any message is non-empty and trimmed |
| ApiClient.PayloadMessagePriority | src/services/api.ts:71-96 | for an object, `message` wins, then `error`, then `detail`, then the `errors` entries |
| ApiClient.PayloadMessageIsFirstCandidate | src/services/api.ts:70-98 | for an object, the message is the first success over the candidates `message`, `error`, `detail`, then each object entry of `errors` in order |
| ApiClient.AxiosMessage | src/services/api.ts:104-114 | `ECONNABORTED` gives the timeout message; otherwise no response gives the network message; otherwise the payload message, else the status message for a truthy status, else the default message |
| ApiClient.NormalizeError | src/services/api.ts:101-130 | an axios error becomes `ApiError` with the selected message, carrying the status exactly when there is a truthy one; another `Error` is returned unchanged; anything else becomes an `Error` with the default message |
| ApiClient.TimeoutIgnoresResponse | src/services/api.ts:108-109 | a timed-out request gets the timeout message whatever its response |
| ApiClient.StatusMessageNamesStatus | src/services/api.ts:113 | the status message starts with the fixed prefix, and its digits read back as the status |
| ApiClient.AxiosMessageIsClean | src/services/api.ts:104-114 | every message an axios error is given is non-empty and trimmed |
| JsValues.LastMember | src/app/api/annotations/route.ts:44 | nothing is found exactly when no member has the key; a found value belongs to a member with that key after which no member has the key, so the last duplicate wins as in `JSON.parse` |
| JsValues.NumberOfDecimal | src/app/api/metrics/route.ts:38 | `Number` of an integer's decimal rendering is that integer |
| UseMetrics.CanFetch | src/hooks/useMetrics.ts:27-36 | the guard holds exactly when there is a non-empty dataset id and both bounds are finite numbers |
| UseMetrics.KeyOf | src/hooks/useMetrics.ts:17-25 | a missing dataset id becomes `''`, the bounds are kept (missing as `null`), and the fields are a sorted permutation of the given ones, or empty when missing |
| UseMetrics.KeyIgnoresFieldOrder | src/hooks/useMetrics.ts:17-25 | argument sets that differ only in field order share one key |
| UseMetrics.KeyOfMissingFields | src/hooks/useMetrics.ts:23 | missing fields and an empty field list share one key |
| UseMetrics.QueryFn | src/hooks/useMetrics.ts:43-53 | the fetch happens exactly when the dataset id is non-empty and both bounds are finite numbers; otherwise the guard message is thrown; a fetch passes the arguments on with the fields unsorted |
| UseMetrics.EnabledQueryFetches | src/hooks/useMetrics.ts:27-54 | the query is enabled exactly when `queryFn` fetches, and a disabled query always throws the guard message |
| UseMetrics.RequestRoundTrip | src/services/metrics.service.ts:36-51 | the route reads back the bounds the client sent and its fields in the caller's order, or all fields when none were sent |
| MetricsToolbar.SelectPreset | src/components/metrics/MetricsToolbar.tsx:74-87 | `custom` keeps the current bounds; any other preset ends at `now` and starts its minute count times 60000 ms earlier |
| MetricsToolbar.PresetButtonRange | src/components/metrics/MetricsToolbar.tsx:31-87 | each fixed preset button selects a range ending now that is 30, 120 or 1440 minutes long; `custom` keeps the range |
| MetricsToolbar.IsPresetActive | src/components/metrics/MetricsToolbar.tsx:112-113 | a button is highlighted exactly when it is the selected preset and a fixed-length button of `presetDefinitions` |
| MetricsToolbar.ActivePresetIsUnique | src/components/metrics/MetricsToolbar.tsx:112-113 | `custom` is never highlighted; any other preset is highlighted exactly when it is the selected one, so at most one is |
| MetricsToolbar.SelectedPresetIsActive | src/components/metrics/MetricsToolbar.tsx:74-113 | after choosing a fixed preset exactly its button is highlighted; after `custom`, none |
| MetricsToolbar.Without | src/components/metrics/MetricsToolbar.tsx:91 | the field is gone, and every other field keeps its number of occurrences |
| MetricsToolbar.ToggleField | src/components/metrics/MetricsToolbar.tsx:89-94 | the field ends up selected exactly when it was not, and every other field keeps its number of occurrences; an unselected field is appended once, at the end, after the unchanged selection |
| MetricsToolbar.ToggleKeepsOthers | src/components/metrics/MetricsToolbar.tsx:90-92 | leaving the toggled field aside, the list is the same sequence before and after, so the other fields keep their order |
| MetricsToolbar.ToggleTwiceRestores | src/components/metrics/MetricsToolbar.tsx:90-92 | toggling an absent field twice gives back the original list |
| MetricsToolbar.Present | src/components/metrics/MetricsToolbar.tsx:69-72 | dropping the falsy entries keeps exactly the present fields, each as often as it occurs |
| MetricsToolbar.PresentAppend | src/components/metrics/MetricsToolbar.tsx:69-72 | the kept entries stay in their order: an appended entry is kept at the end exactly when it is present |
| MetricsToolbar.SortedFields | src/components/metrics/MetricsToolbar.tsx:69-72 | the field list shown is sorted and a permutation of the present entries |
| Text.Trim | src/app/api/metrics/route.ts:111 | a trimmed string has no whitespace at either end, and is empty exactly when the input is blank |
| Text.TrimIsSlice | src/app/api/metrics/route.ts:111 | the trimmed string is a slice of the input with only blanks cut off before and after it |
| Text.Split | src/app/api/metrics/route.ts:48 | `split` never returns an empty list, and no piece holds the separator |
| Text.JoinSplit | src/app/api/metrics/route.ts:48 | joining the pieces of a split with the same separator gives back the string |
| Text.SplitJoin | src/app/api/metrics/route.ts:48 | splitting a join of separator-free pieces gives back the pieces |
| Text.ContainsIff | src/app/api/datasets/route.ts:84-91 | `includes` holds exactly when the needle occurs at some position |
| Text.DigitsValueOfDecimal | src/app/api/metrics/route.ts:38 | the decimal digits of a number read back as that number |

## Left out

- Artificial latency: `delay`, `setTimeout` and the `Math.random` delays in the three routes are timing only.
- Floating-point values: the noise and sine trend terms, `Math.round` and the float division of the sample are the parameter `ValueFormula`. The model fixes which draw, offset and range feed each value, and clamps the result at 0, but not the number itself.
- JsValues.NumberOf: `Number(string)` is modelled for optionally signed decimal integers, blank strings (0) and a catch-all `NaN`. Decimal fractions, exponents, hexadecimal and `Infinity` spellings are not modelled.
- JsValues.NumberOf: integers are exact. In JavaScript a digit string beyond the double range (about 309 digits) reads as `Infinity`, so the route answers 400 where the model serves. Integers above 2^53 round to the nearest double, so for example from = 9007199254740992 and to = 9007199254740993 become equal bounds there.
- Fractional timestamps: JSON numbers and the metrics bounds are integers in the model.
- Prng: the seed is an integer. The float rounding of `from + to` beyond 2^53 is not modelled.
- MetricsRoute.CharCodeSum: adds the code point of each character. `charCodeAt` adds UTF-16 code units, so a dataset name with a character outside the Basic Multilingual Plane gets a different seed in the code.
- Prng.Generator.constructor: starts from the corrected `NormalizeSeed`, not the normalisation as written. For every seed -2147483646 - k·2147483647 with k ≥ 0 (`ZeroSeeds`, `ZeroSeedClass`) the code starts at state 0 and stays there, while the model starts at 2147483646. `Valid` and `Next` therefore keep the state in [1, 2147483646], which the code leaves for that whole class of seeds.
- MetricsRoute.GeneratePoints: proved equal to `Points`, whose start state is the corrected one. For every seed -2147483646 - k·2147483647 with k ≥ 0 it describes the series the evidently intended code produces, not the one the code produces. These seeds are reachable: for dataset `a`, every range [-2147483743 - k·2147483647, 0] gives one (`ZeroSeedRanges`).
- MetricsRoute.Get: the served series is that of `Points`, with the same corrected start state as `GeneratePoints`, so it differs from the code's series for the same class of seeds. All validation outcomes are as written.
- Foreign calls: `randomUUID` is the `freshId` parameter of `POST`, and `Date.now()` is the `now` parameter of `handlePresetSelect`.
- HTTP plumbing: `NextRequest`, `NextResponse`, URL parsing and `request.json()` are not modelled. A body that does not parse is `None`.
- AnnotationsRoute.PostOutcome: a `null` body makes the destructuring throw. That is the outcome `PostThrew`, since the status then comes from the framework.
- The axios instance, its headers, the interceptors and `ensureJsonHeaders` (src/services/api.ts:23-39, 132-140) and the `*.service.ts` wrappers are network I/O. The query string of `fetchMetrics` is modelled, and the serialisation of its string parameters is taken to be the identity.
- ApiClient.NormalizeError: the axios status is an integer, truthy exactly when it is not 0.
- React state, rendering, `handleCustomChange`, `toInputValue`/`fromInputValue` and date formatting are UI.
- MetricsToolbar.SortedFields: falsy entries of `availableFields` are modelled as `None`. The array itself is a value, so it cannot be mutated.
- UseMetrics.KeyOf: the caller's array is a value in Dafny, so "does not reorder the caller's array" holds by construction and is not stated separately.
- Unicode: `trim`, `toLowerCase` and `toUpperCase` are ASCII versions.
- Concurrency: the annotation store's handlers are modelled as sequential calls.
- MetricsRoute.PointTarget: the [24, 96] clamp is proved for the target only; the emitted count is [1, 97], as `PointCountBounds` states.

## Findings

| source | as written | input that shows it | evidently intended | confidence | as-written member | corrected member |
|---|---|---|---|---|---|---|
| src/app/api/metrics/route.ts:58-59 | JavaScript's `%` keeps the seed's sign, and `if (state <= 0) state += 2147483646` then maps every seed -2147483646 - k·2147483647 (k ≥ 0) to state 0; 0 is a fixed point of `state * 16807 % 2147483647`, so every sample is the same | dataset `a` (character code 97) with from = -2147483743 and to = 0, so the seed is -2147483646; `ZeroSeedRanges` gives one such range for every k | the state always lies in [1, 2147483646], as it does for every seed outside that class | not executed | Prng.NegativeSeedReachesZero | Prng.NormalizeSeed |
