# etl-spider-tracks: a Dafny model of the polling cycle

`etl-spider-tracks` is a scheduled ETL task. Each time it runs, its `control`
step does the following:

- It asks the Spidertracks AFF feed for the last hour of position reports.
- It rejects an unsuccessful or malformed response.
- It renames each report's provider fields onto the canonical feature shape.
- It keeps one feature per tracked unit: the latest fix, with the first-seen report winning ties.
- It submits the resulting `FeatureCollection`.

This project models that cycle and proves its properties. The files are:

- `wrappers.dfy` (`Wrappers`): `Option` and `Result`.
- `json.dfy` (`Json`): the decoded JSON value.
- `feed.dfy` (`Feed`): response acceptance.
  - The failure kinds (`Upstream`, `MalformedJson`, `SchemaMismatch`, `NullProperties`).
  - The feed schema, stated as predicates (`ConformsBody` and the predicates under it).
  - A decoder that accepts exactly the conforming bodies.
- `normalizer.dfy` (`Normalizer`): the provider properties as a record of optional values (`Props`), the normalized `Feature`, and the renaming.
- `ordered_maps.dfy` (`OrderedMaps`): the JavaScript `Map` the reducer mutates.
  - `Table` is its value: keys in insertion order, plus the entries.
  - `InsertionMap` is the object the loop updates in place.
- `latest.dfy` (`Latest`): the latest-fix reducer.
  - `LatestFixes` is the reduction as a fold.
  - `KeptAt` independently describes which report is kept for a unit.
  - `ReduceLatest` is the loop itself, proved equal to the fold.
- `request.dfy` (`Request`): the request envelope and headers.
- `task.dfy` (`Task`): one cycle (`Cycle` as a function, `Control` as the method) and the worked scenarios.

Position times are compared the way the source compares two `Date` objects.
The clock `toTime` maps a `posTime` value to a time value, or to `None` for an
Invalid Date. A report replaces the retained one only when both dates are
valid and the incoming one is strictly later. From this the model proves:

- if the first report of a unit has an invalid date, that report is kept;
- otherwise the kept report has the latest valid date, and among reports sharing that date it is the earliest (`KeptAt`).

## Model

| member | source | states |
|---|---|---|
| `Feed.ConformsDataInfo` | task.ts:80-86 | Encodes the `dataInfo` element schema: an object with string `affVer`, `provider`, `rptTime`, `reqTime` and `sysId`. A null `sysId` is refused, and a record of five empty strings conforms. |
| `Feed.ConformsGeometry` | task.ts:90-93 | Encodes the geometry schema: type "Point" and an array of numbers. A LineString is refused, and a Point with an empty coordinate array conforms. |
| `Feed.ConformsFeature` | task.ts:87-94 | Encodes the feature schema: type "Feature", a `properties` member of any value, and a conforming geometry. A feature without `properties` is refused, and one whose `properties` is null conforms. |
| `Feed.ConformsBody` | task.ts:78-95 | Encodes the whole body schema: type "FeatureCollection" with conforming `dataInfo` and `features` arrays. Any other top-level type is refused, and the body with both arrays empty conforms. |
| `Feed.Accept` | task.ts:76-95 | A non-ok response fails with exactly its body text. An ok response is accepted iff its body is JSON that conforms to the feed schema. A body that is not JSON fails with `MalformedJson`. A non-conforming body fails with a schema error. |
| `Feed.DecodeBody` | task.ts:78-95 | Accepts exactly the bodies satisfying `ConformsBody`: top-level type "FeatureCollection", a `dataInfo` array and a `features` array. The accepted body lists the same features in the same order, with `properties` and `geometry` untouched, and the same `dataInfo` records in the same order, each read from its element's five string members. |
| `Feed.DecodeDataInfos` | task.ts:80-86 | Succeeds iff every `dataInfo` element is an object with the five string fields. The result keeps one record per element, in order. |
| `Feed.DecodeFeatures` | task.ts:87-94 | Succeeds iff every element has type "Feature", a `properties` member of any value, and a geometry that is "Point" with an all-numeric coordinate array of any length. The result keeps one record per element, in order. |
| `Feed.NonconformingFeatureRejected` | task.ts:87-94 | One feature that is not a Point `Feature` causes the whole response to be rejected. |
| `Normalizer.Prop` | task.ts:100-114 | Reading `properties.<name>` yields a value exactly when `properties` is an object with that member, and then yields that member. |
| `Normalizer.ReadProps` | task.ts:100-114 | Reading provider fields fails iff `properties` is null. Otherwise each of the eleven fields (`unitId`, `cog`, `speed`, `ctrId`, `esn`, `fix`, `hdop`, `posTime`, `dataCtrTime`, `src`, `trackId`) is the member of that name, or absent. |
| `Normalizer.Normalize` | task.ts:99-119 | The renaming loses nothing: the provider properties can be read back from the feature (`SourceProps`). The id is the unit id, the same as `metadata.unitId`. The geometry is passed through. |
| `Normalizer.NormalizeFeature` | task.ts:99-119 | `id = unitId`, `course = cog`, `speed = speed`. The nine metadata fields equal the provider fields, absent ones included. The geometry is identical. It fails iff `properties` is null. |
| `Normalizer.NormalizeEach` | task.ts:98-119 | Fails iff some feature has null properties. Otherwise it yields one normalized feature per input feature, in order. |
| `OrderedMaps.Table.Get` | task.ts:121 | `get` finds a value exactly for the keys present. |
| `OrderedMaps.Table.Set` | task.ts:123-126 | `set` keeps the map well formed. It stores the value. Other keys are unaffected. An existing key keeps its place; a new key goes last. |
| `OrderedMaps.Table.Values` | task.ts:132 | The values come out one per key, in key order. |
| `OrderedMaps.InsertionMap.constructor` | task.ts:97 | A new map is empty. |
| `OrderedMaps.InsertionMap.Get` | task.ts:121 | Reads the map object as `Table.Get`. |
| `OrderedMaps.InsertionMap.Set` | task.ts:123-126 | Updates the map object in place as `Table.Set`. |
| `OrderedMaps.InsertionMap.Values` | task.ts:132 | `Array.from(values())`: one value per key, in insertion order. |
| `Latest.Newer` | task.ts:125 | The replacement test `new Date(previous) < new Date(incoming)`. An invalid date on either side makes it false, and so do equal times. |
| `Latest.Step` | task.ts:121-127 | One iteration keeps the map well formed. Afterwards the report's unit has an entry. |
| `Latest.LatestFixes` | task.ts:97-132 | The emitted batch is no longer than the input. It is empty exactly when the input is empty. |
| `Latest.Fold` | task.ts:97-128 | After any number of reports, the map's keys are distinct and are exactly its entries' keys. |
| `Latest.FoldSize` | task.ts:97-128 | There are at most as many keys as reports, and at least one once a report has been seen. |
| `Latest.StepShape` | task.ts:121-127 | One iteration inserts an absent unit at the end. A present unit's feature is replaced only by a strictly newer report, and the unit keeps its place. Other units are unchanged. |
| `Latest.FoldDomain` | task.ts:97-128 | The map has an entry for exactly the units reported, each stored under its own id. |
| `Latest.FoldKeeps` | task.ts:121-127 | Each entry is the report `KeptAt` describes for its unit. |
| `Latest.FoldOrder` | task.ts:121-128 | Keys are ordered by their unit's first report. |
| `Latest.OnePerUnit` | task.ts:97-132 | The emitted batch has at most one feature per id. |
| `Latest.SameUnits` | task.ts:121-132 | Every id in the input appears in the batch, and the batch has no other id. |
| `Latest.EachKept` | task.ts:121-127 | Each emitted feature is the report kept for its unit. If the unit's first report has an invalid date, that report is kept. Otherwise the kept report has the maximal valid `posTime`, earliest among ties. |
| `Latest.KeptAtUnique` | task.ts:125-126 | That description picks exactly one report per unit. |
| `Latest.NoNewerReport` | task.ts:121-127 | No input report of a unit is strictly newer than the emitted feature. So, when its `posTime` is a valid date, it is at least that of every report of the unit with a valid date. |
| `Latest.FirstOfTiedStays` | task.ts:125-126 | With two reports of one unit, the first is kept when their times are equal or when the first one's date is invalid. |
| `Latest.FirstSeenOrder` | task.ts:121-132 | The batch lists units in order of their first report. A replaced unit keeps its original position. |
| `Latest.TwoUnitsExample` | task.ts:121-132 | Example: U1 at 00:00, U1 at 01:00 and U2 at 00:30 give [U1 at 01:00, U2 at 00:30]. |
| `Latest.DistinctUnchanged` | task.ts:97-132 | A batch whose ids are already distinct comes out unchanged. |
| `Latest.Idempotent` | task.ts:97-132 | Reducing a reduced batch changes nothing. |
| `Latest.Visit` | task.ts:121-127 | One pass of the `forEach` body on the map object leaves it as `Step` of its previous value. |
| `Latest.ReduceLatest` | task.ts:97-132 | The `forEach` loop over the `Map` object fails iff some feature has null properties. Otherwise it emits exactly `LatestFixes` of the normalized features. |
| `Request.BuildBody` | task.ts:60-72 | The body has `type` and `msgType` "dataRequest". It has one data-center descriptor {"json 1.0", "AFF", now} and one request to "spidertracks". The sender is "CloudTAK-" followed by the username, which `Account` recovers. The lower bound is exactly one hour before the request time. |
| `Request.BuildRequest` | task.ts:54-59 | A POST to the feed URL with a JSON content type. Authorization is "Basic " followed by the encoding of `username:password`. |
| `Task.Cycle` | task.ts:51-136 | A non-ok response fails with its text. An acceptance failure propagates. An accepted body with a null `properties` fails with `NullProperties`. A batch is submitted iff the response is accepted and no feature has null properties. The submitted batch is exactly `LatestFixes` of the normalized features, so every reducer lemma applies to it; in particular it has at most one feature per unit. |
| `Task.Control` | task.ts:51-136 | The method performs exactly `Cycle`: build the request, fetch, accept, reduce in place, submit. |
| `Task.UpstreamFailure` | task.ts:76 | HTTP failure with body "rate limited" fails with that message, and nothing is submitted. |
| `Task.EmptyFeed` | task.ts:97-135 | A well-formed response with no features submits an empty `FeatureCollection`. |
| `Task.LineStringRejected` | task.ts:87-95 | A feature with a LineString geometry fails the cycle with a schema error, and nothing is submitted. |

Two details of the schema and the reducer, as the code has them:

- **Coordinates.** The schema check (task.ts:92) accepts a numeric coordinate array of any length, and so does `ConformsGeometry`.
- **Position time.** Only the `posTime` member is read (task.ts:110, task.ts:125).

## Left out

- HTTP I/O. `fetch` is a parameter from request to response. The response is its `ok` flag, its body text, and the body decoded as JSON; JSON text parsing itself is not modelled.
- Environment loading (`this.env`), `this.submit`, the ETL base class, `schema()`, and the `local`/`handler` entry points. A cycle's `Ok` result is the collection that would be submitted.
- The clock. One `now` (milliseconds) stands for both clock reads in the request body. ISO-8601 formatting of the two times is not modelled.
- Date parsing. `new Date(posTime)` is the `toTime` parameter: an arbitrary mapping to a time value, or `None` for an Invalid Date.
- Task.Cycle, Task.Control, Latest.ReduceLatest: do not model the `TypeError` that `new Date(posTime)` throws at task.ts:125 when `posTime` is an object whose conversion to a primitive finds no callable `toString`/`valueOf` (for example `{"toString": 1}`). In the source the comparison then throws and nothing is submitted; in the model the clock is total, so such a report gets some time value (or `None`) and the cycle still succeeds.
- Base64. `btoa` is the `base64` parameter.
- Request.BuildRequest, Task.Cycle, Task.Control: do not model the `InvalidCharacterError` that `btoa` throws at task.ts:57 when the username or password holds a code point above U+00FF (for example the username "日"). In the source the cycle then throws before any fetch and nothing is submitted. In the model `base64` is total, so such a cycle fetches and may succeed.
- Number values. Speeds, courses and coordinates are opaque reals that are only passed through. Float semantics are not modelled.
- Map key identity. JavaScript `Map` compares object- or array-valued keys by reference. The model compares every `unitId` by value, so two structurally equal object ids would share an entry here but not in the source.
- Error messages. The schema validator's message text is not modelled: every schema failure is `SchemaMismatch`. The `TypeError` raised when `properties` is null is `NullProperties`.
- The `DEBUG` setting. It is read into `Env` but the cycle does not use it.
