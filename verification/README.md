# Energy ingestion engine — a Dafny model of the domain layer

This project models the domain layer of a Node.js/PostgreSQL service. The
service ingests telemetry from electricity meters and electric vehicles. It
keeps a vehicle-to-meter link table and answers a 24-hour efficiency query.
The model covers three layers:

- **Validators.** Type detection and field checks for telemetry, and the
  link payload check. They work over an algebraic JSON value, with
  JavaScript truthiness, `typeof` and `trim` written out.
- **Services.** The SQL statements the services issue, as pure transitions
  and queries over one immutable `Store` of five tables:
  - meter history and vehicle history, keyed by (device, instant);
  - meter live status and vehicle live status, keyed by device;
  - links, a map from vehicle to meter.
- **Controllers.** Each request is a function from (store, request) to
  (new store, response).

Modules follow the source files:

| module | file | source |
|---|---|---|
| `Results`, `Json`, `Text`, `Validation`, `Http` | results, json, text, validation, http | shared JavaScript semantics: errors, property reads, truthiness, `trim`, `join`, the collect-then-throw validator pattern, the controllers' `catch` answer |
| `TelemetryValidator` | telemetry_validator.dfy | src/validators/telemetry.validator.js |
| `LinksValidator` | links_validator.dfy | src/validators/links.validator.js |
| `Tables`, `Schema` | tables.dfy, schema.dfy | the two statements every ingest issues, generic in the row types; the store and its validity invariant |
| `TelemetryService` | telemetry_service.dfy | src/services/telemetry.service.js |
| `LinksService` | links_service.dfy | src/services/links.service.js |
| `Sums`, `AnalyticsService` | sums.dfy, analytics_service.dfy | src/services/analytics.service.js |
| `TelemetryController`, `LinksController`, `AnalyticsController` | *_controller.dfy | src/controllers/*.js |
| `Scenario` | scenario.dfy | the analytics test's fixture, run through the controllers |

The environment is represented by parameters:

- **Timestamps.** `new Date(s)` is `parse: string -> Option<int>`, giving milliseconds or None for an invalid date.
- **Clock.** The database's `NOW()` is `now`.
- **Database failures.** A failure of an ingest statement is a `Fault`: the history insert threw, or the live upsert threw after the insert committed. A failure of the link upsert is `Option<string>`, the driver's message.
- **Sums.** SQL `SUM` over the window is `Sums.SumOf`, a sum over a finite map that does not depend on row order. `AnalyticsService.VehicleWindow` and `AnalyticsService.WindowSum` compute it with one loop per table and are proved equal to it.

Behaviours of the code worth noting:

- **Window bounds.** The window is `ts >= now - 24h`: the lower bound is inclusive and there is no upper bound, so readings dated after `now` are counted.
- **`null` body in the validators.** The validators first push "Body must be a JSON object" for `null`. They then read `body.meterId` (or `body.vehicleId`), which throws V8's TypeError "Cannot read properties of null (reading '…')". That error has no `statusCode`, so the controller answers 400 with the TypeError's message. The model keeps this behaviour rather than assuming the body is an object.
- **Dead branch.** The "Unknown telemetry type" branch of `ingest` cannot run, because detection returns only "meter" or "vehicle" or throws. `TelemetryController.Ingest` proves this: that branch is `assert false`.

## Model

| member | source | states |
|---|---|---|
| Json.NullPropertyError | src/validators/telemetry.validator.js:45-49 | reading a property of `null` throws an error with no `statusCode` |
| Text.TrimStart | src/validators/telemetry.validator.js:49 | `trim` drops exactly the leading run of whitespace |
| Text.TrimEnd | src/validators/telemetry.validator.js:49 | `trim` drops exactly the trailing run of whitespace |
| Text.TrimIdempotent | src/validators/telemetry.validator.js:73 | trimming an already trimmed identifier changes nothing |
| Text.BlankIffAllWhitespace | src/validators/telemetry.validator.js:49 | `s.trim() === ""` holds exactly when every character of `s` is whitespace |
| Text.Join | src/validators/telemetry.validator.js:66 | `join(", ")` of no messages is empty, of one message is that message, and always starts with the first message |
| Text.StrLtIrreflexive | src/services/links.service.js:72 | no vehicle id sorts before itself |
| Text.StrLtTransitive | src/services/links.service.js:72 | the `ORDER BY vehicle_id` order is transitive |
| Text.StrLtTotal | src/services/links.service.js:72 | any two distinct vehicle ids are ordered one way or the other |
| Text.StrLtAsymmetric | src/services/links.service.js:72 | two vehicle ids are never each before the other |
| Validation.Violations | src/validators/telemetry.validator.js:43-63 | the `errors` array is empty exactly when every check holds, and holds exactly the messages of the failed checks |
| Validation.ViolationsAppend | src/validators/telemetry.validator.js:49-63 | messages are pushed in check order: the messages of two runs of checks are the first run's followed by the second's |
| Validation.SingleViolation | src/validators/telemetry.validator.js:65-68 | when one check fails, the thrown message is exactly its message |
| Validation.Rejection | src/validators/telemetry.validator.js:65-69 | a validator's thrown error carries `statusCode` 400 |
| Http.InvalidPayload | src/controllers/telemetry.controller.js:45-52 | the `catch` answer always has `error` "Invalid payload", a non-zero status and a non-empty message. A truthy `statusCode` is kept; an absent or 0 one becomes 400. A non-empty message is kept; an empty one becomes "Bad Request" |
| TelemetryValidator.DetectTelemetryType | src/validators/telemetry.validator.js:11-20 | a non-object or `null` body throws "Request body must be a JSON object"; a truthy `meterId` gives "meter"; otherwise a truthy `vehicleId` gives "vehicle"; otherwise the unknown-type error. None of these errors has a status code |
| TelemetryValidator.ValidateMeterTelemetry | src/validators/telemetry.validator.js:42-78 | accepts exactly the objects with a non-blank string `meterId`, a number `kwhConsumedAc` >= 0, a number `voltage` > 0 and a parseable string `timestamp`. It returns those four fields with `meterId` trimmed. Otherwise it throws the joined messages with 400, or the TypeError for `null` |
| TelemetryValidator.ValidateVehicleTelemetry | src/validators/telemetry.validator.js:91-137 | accepts exactly the objects with a non-blank string `vehicleId`, an integer `soc` in [0, 100], a number `kwhDeliveredDc` >= 0, any number `batteryTemp` and a parseable string `timestamp`. It returns those five fields with `vehicleId` trimmed. Otherwise it throws the joined messages with 400, or the TypeError for `null` |
| LinksValidator.ValidateLinkPayload | src/validators/links.validator.js:15-40 | accepts exactly the objects whose `vehicleId` and `meterId` are non-blank strings, and returns the two trimmed ids. Otherwise it throws the joined messages with 400, or the TypeError for `null` |
| LinksValidator.RevalidationIsIdentity | src/validators/links.validator.js:36-39 | validating an accepted payload again returns it unchanged |
| LinksValidator.ExtraFieldsDropped | src/validators/links.validator.js:36-39 | fields other than the two ids never affect the outcome |
| LinksValidator.HelloWorldRejected | src/validators/links.validator.js:22-34 | `{hello: "world"}` is refused with 400 and both messages, the vehicleId message first |
| Tables.InsertHistory | src/services/telemetry.service.js:10-17 | `ON CONFLICT (id, ts) DO NOTHING`: a new key gains the row; an existing key keeps its first row; the live table is untouched |
| Tables.UpsertLive | src/services/telemetry.service.js:20-31 | `DO UPDATE SET`: the device's live row becomes the incoming one whatever was there; other devices and the history are untouched |
| Tables.ApplyIdempotent | src/services/telemetry.service.js:10-31 | ingesting the same reading twice gives the tables that ingesting it once gives |
| Tables.RetryAfterHistoryConverges | src/services/telemetry.service.js:10-31 | retrying an ingest that stopped after the history insert gives the tables of an uninterrupted ingest |
| Tables.ApplyFresh | src/services/telemetry.service.js:10-31 | a reading for a new instant adds exactly its history row and sets the device's live row |
| Tables.LiveIsLastArrival | src/services/telemetry.service.js:20-31 | after any run of ingests, a device's live row comes from the last reading to arrive for it, whatever the instants |
| Tables.LiveUntouched | src/services/telemetry.service.js:20-31 | a device no reading mentions keeps its live row, or stays absent |
| Tables.HistoryKeys | src/services/telemetry.service.js:10-17 | history only grows: its keys are the initial keys plus every key written |
| Tables.HistoryKept | src/services/telemetry.service.js:10-17 | a history row, once present, keeps its values through any later ingests |
| Tables.HistoryFirstWrite | src/services/telemetry.service.js:10-17 | a key absent at the start holds the row of the first reading that targets it |
| Tables.ReplayKeepsHistory | src/services/telemetry.service.js:10-17 | redelivering a batch leaves the history as it was |
| Tables.ReplayKeepsLive | src/services/telemetry.service.js:20-31 | redelivering a batch leaves every live row as it was |
| Tables.ReplayConverges | src/services/telemetry.service.js:10-31 | redelivering a whole batch after it was ingested leaves every table as it was |
| TelemetryService.MeterHistoryInsert | src/services/telemetry.service.js:10-17 | the meter history gains (meterId, parsed instant) unless that row exists; every other table is untouched |
| TelemetryService.MeterLiveUpsert | src/services/telemetry.service.js:20-31 | the meter's live row becomes (kwh, voltage, last_seen = parsed instant); other meters and all other tables are untouched |
| TelemetryService.IngestMeter | src/services/telemetry.service.js:4-34 | both statements in order: the history is insert-or-ignore on the parsed instant, the live row is set unconditionally, and the vehicle tables and links are untouched |
| TelemetryService.VehicleHistoryInsert | src/services/telemetry.service.js:42-49 | the vehicle history gains (vehicleId, parsed instant) unless that row exists; every other table is untouched |
| TelemetryService.VehicleLiveUpsert | src/services/telemetry.service.js:52-64 | the vehicle's live row becomes (soc, dc, temp, last_seen = parsed instant); other vehicles and all other tables are untouched |
| TelemetryService.IngestVehicle | src/services/telemetry.service.js:36-67 | both vehicle statements in order, with the same insert-or-ignore and unconditional-upsert rules; the meter tables and links are untouched |
| TelemetryService.IngestMeterIsApply | src/services/telemetry.service.js:4-34 | a meter ingest touches only the meter tables, as the shared history-then-live step |
| TelemetryService.IngestVehicleIsApply | src/services/telemetry.service.js:36-67 | a vehicle ingest touches only the vehicle tables, as the shared history-then-live step |
| TelemetryService.IngestMeterIdempotent | src/services/telemetry.service.js:10-31 | ingesting the same meter reading twice equals ingesting it once |
| TelemetryService.IngestVehicleIdempotent | src/services/telemetry.service.js:42-64 | ingesting the same vehicle reading twice equals ingesting it once |
| TelemetryService.MeterRetryConverges | src/services/telemetry.service.js:10-31 | a meter ingest retried after only its history insert ran reaches the uninterrupted result |
| TelemetryService.VehicleRetryConverges | src/services/telemetry.service.js:42-64 | a vehicle ingest retried after only its history insert ran reaches the uninterrupted result |
| TelemetryService.MeterTimestampCollision | src/services/telemetry.service.js:7-16 | two timestamp strings naming the same instant hit one history row: the second reading leaves the history as the first left it, but still sets the live row |
| TelemetryService.VehicleTimestampCollision | src/services/telemetry.service.js:39-48 | two timestamp strings naming the same instant hit one vehicle history row |
| TelemetryService.IngestMetersIsApplyAll | src/services/telemetry.service.js:4-34 | a run of meter ingests is the shared table fold over their writes, and touches nothing else |
| TelemetryService.IngestVehiclesIsApplyAll | src/services/telemetry.service.js:36-67 | a run of vehicle ingests is the shared table fold over their writes, and touches nothing else |
| TelemetryService.MeterLiveIsLastIngested | src/services/telemetry.service.js:20-31 | after any run of meter readings, a meter's live row is the last reading that arrived for it |
| TelemetryService.VehicleLiveIsLastIngested | src/services/telemetry.service.js:52-64 | after any run of vehicle readings, a vehicle's live row is the last reading that arrived for it |
| TelemetryService.MeterHistoryIsFirstIngested | src/services/telemetry.service.js:10-17 | after any run of meter readings, a new (meter, instant) row holds the first reading for it |
| TelemetryService.VehicleHistoryIsFirstIngested | src/services/telemetry.service.js:42-49 | after any run of vehicle readings, a new (vehicle, instant) row holds the first reading for it |
| TelemetryService.MeterFirstWrite | src/services/telemetry.service.js:10-17 | the row stored for a new (meter, instant) key comes from the earliest reading in the run that targets that key |
| TelemetryService.VehicleFirstWrite | src/services/telemetry.service.js:42-49 | the row stored for a new (vehicle, instant) key comes from the earliest reading in the run that targets that key |
| TelemetryService.MeterReplayConverges | src/services/telemetry.service.js:10-31 | redelivering a run of meter readings changes nothing |
| TelemetryService.VehicleReplayConverges | src/services/telemetry.service.js:42-64 | redelivering a run of vehicle readings changes nothing |
| TelemetryService.IngestMeterPreservesValid | src/services/telemetry.service.js:10-31 | a validated meter reading keeps every stored row within the validator's bounds, after the first statement and after both |
| TelemetryService.IngestVehiclePreservesValid | src/services/telemetry.service.js:42-64 | a validated vehicle reading keeps every stored row within the validator's bounds, after the first statement and after both |
| TelemetryController.RunIngestMeter | src/controllers/telemetry.controller.js:21 | the awaited meter ingest returns exactly when the database did not fail, and its errors carry no status code. The store is the full ingest, the untouched store (insert threw) or the inserted history (upsert threw). Whatever happened, sending the same reading again reaches the store one undisturbed ingest gives |
| TelemetryController.RunIngestVehicle | src/controllers/telemetry.controller.js:33 | the awaited vehicle ingest, with the same three outcomes; whatever happened, sending the same reading again reaches the store one undisturbed ingest gives |
| TelemetryController.Finish | src/controllers/telemetry.controller.js:21-52 | 202 `{status: "accepted", type}` exactly when the service returned; otherwise the `catch` answer with 400 |
| TelemetryController.IngestMeterBody | src/controllers/telemetry.controller.js:17-27 | a rejected meter body writes nothing and gets 400 "Invalid payload"; an accepted one is ingested as cleaned; 202 exactly when accepted and the database did not fail |
| TelemetryController.IngestVehicleBody | src/controllers/telemetry.controller.js:29-39 | the same for a vehicle body |
| TelemetryController.Ingest | src/controllers/telemetry.controller.js:10-53 | validation runs before any write: a body neither type accepts leaves the store unchanged with 400 "Invalid payload". An accepted body is ingested exactly as cleaned, with 202 and its type. 202 happens exactly when the body is accepted and the database did not fail. The unknown-type branch is unreachable |
| TelemetryController.BlankMeterIdRejection | src/validators/telemetry.validator.js:49-51 | a whitespace-only `meterId` is refused with 400, and the message opens with the meterId rule |
| TelemetryController.WhitespaceMeterIdRejected | src/controllers/telemetry.controller.js:14-18 | a whitespace-only `meterId` is truthy, so the body is classified "meter", then refused: 400, nothing written, message opening with the meterId rule |
| TelemetryController.MeterTakesPrecedence | src/validators/telemetry.validator.js:16-17 | a truthy `meterId` wins over a truthy `vehicleId` |
| TelemetryController.EmptyMeterIdFallsThrough | src/validators/telemetry.validator.js:16-17 | an empty-string `meterId` is falsy, so a truthy `vehicleId` makes the body a vehicle reading |
| TelemetryController.HelloWorldIngestRejected | tests/telemetry.test.js:40-47 | `{hello: "world"}` gets 400 "Invalid payload" with the unknown-type message, and nothing is written |
| TelemetryController.BadMeterBodyRefused | tests/telemetry.test.js:49-59 | the test's bad meter reading is classified "meter" and fails the meter rules for every parser |
| TelemetryController.BadVehicleBodyRefused | tests/telemetry.test.js:61-72 | the test's bad vehicle reading is classified "vehicle" and fails the vehicle rules for every parser |
| TelemetryController.RefusedWritesNothing | src/controllers/telemetry.controller.js:45-52 | any body neither type accepts is answered 400 "Invalid payload" and writes nothing |
| TelemetryController.BadMeterReadingRejected | tests/telemetry.test.js:49-59 | the bad meter reading gets 400 "Invalid payload" and writes nothing |
| TelemetryController.BadVehicleReadingRejected | tests/telemetry.test.js:61-72 | the bad vehicle reading gets 400 "Invalid payload" and writes nothing |
| TelemetryController.NullIngestRejected | src/validators/telemetry.validator.js:12-14 | a `null` body gets 400 with "Request body must be a JSON object", and nothing is written |
| TelemetryController.RetryAfterLiveFault | src/services/telemetry.service.js:10-31 | after the live upsert threw, resending the same body gives the store one undisturbed ingest gives |
| TelemetryController.IngestPreservesValid | src/controllers/telemetry.controller.js:10-53 | every request, whether accepted, refused or interrupted by the database, keeps a valid store valid |
| TelemetryController.MeterBodyValidates | src/validators/telemetry.validator.js:72-77 | a meter reading within the rules with a trimmed id passes validation unchanged |
| TelemetryController.MeterBodyDetected | src/validators/telemetry.validator.js:16 | a body with a non-empty `meterId` is a meter reading |
| TelemetryController.MeterBodyIngested | tests/telemetry.test.js:15-25 | a valid meter reading is ingested as sent and answered 202 "meter" |
| TelemetryController.VehicleBodyValidates | src/validators/telemetry.validator.js:130-136 | a vehicle reading within the rules with a trimmed id passes validation unchanged |
| TelemetryController.VehicleBodyDetected | src/validators/telemetry.validator.js:16-17 | a body with a non-empty `vehicleId` and no `meterId` is a vehicle reading |
| TelemetryController.VehicleBodyIngested | tests/telemetry.test.js:27-38 | a valid vehicle reading is ingested as sent and answered 202 "vehicle" |
| LinksService.UpsertLink | src/services/links.service.js:17-34 | the vehicle now maps to the meter and every other vehicle keeps its meter. The count grows only for a new vehicle. The returned row is the stored pair |
| LinksService.UpsertThenGet | src/services/links.service.js:17-59 | reading a link right after saving it returns the meter just saved |
| LinksService.UpsertOverrides | src/services/links.service.js:24-25 | re-linking a vehicle replaces its meter without adding a row, and equals linking it once to the new meter |
| LinksService.ListLinks | src/services/links.service.js:65-79 | every link exactly once, strictly ascending by vehicle id |
| LinksService.SortedListingUnique | src/services/links.service.js:68-76 | there is only one sorted listing of a link table, so the listing is determined by the links |
| LinksService.UpsertLinkPreservesValid | src/services/links.service.js:17-34 | linking two non-blank ids keeps every link non-blank |
| LinksController.LinkJsonRoundTrip | src/controllers/links.controller.js:56-59 | every link the controllers answer with reads back unchanged |
| LinksController.CreateFrom | src/controllers/links.controller.js:23-39 | after validation: a refusal writes nothing and gets the `catch` answer. An upsert failure writes nothing and gets 400. A save gets 201 with the stored pair |
| LinksController.Create | src/controllers/links.controller.js:18-40 | validation runs before the upsert. An invalid body or a store failure leaves the links unchanged with 400 "Invalid payload". 201 happens exactly when the body is valid and the store did not fail |
| LinksController.Get | src/controllers/links.controller.js:45-60 | 404 "Link not found" exactly when the vehicle is unlinked, otherwise 200 with its pair |
| LinksController.ListBody | src/controllers/links.controller.js:71-77 | `count` is the number of rows and `links` carries every row in order |
| LinksController.List | src/controllers/links.controller.js:66-78 | 200 with `count` equal to the number of links and the links ascending by vehicle id |
| LinksController.CreateThenGet | tests/links.test.js:11-28 | after a successful create, get answers 200 with the trimmed pair that was sent |
| LinksController.HelloWorldCreateRejected | tests/links.test.js:38-45 | `{hello: "world"}` gets 400 with both messages, and the links are untouched |
| LinksController.CreatePreservesValid | src/controllers/links.controller.js:18-40 | every create, accepted or refused, keeps a valid store valid |
| Sums.SumOfRemove | src/services/analytics.service.js:20 | `SUM` does not depend on row order: any row can be taken out first |
| Sums.SumOfNonNegative | src/services/analytics.service.js:20 | a sum of non-negative readings is non-negative |
| AnalyticsService.Ratio | src/services/analytics.service.js:38-41 | 0 when the AC total is 0, otherwise the ratio whose product with the AC total is the DC total; never negative for non-negative totals |
| AnalyticsService.Average | src/services/analytics.service.js:21 | `COALESCE(AVG, 0)`: 0 for no rows, otherwise the value whose product with the count is the sum |
| AnalyticsService.Aggregate | src/services/analytics.service.js:16-46 | the aggregate row echoes the ids, and its ratio is the guarded ratio of its totals |
| AnalyticsService.Performance | src/services/analytics.service.js:4-49 | null exactly when the vehicle has no link, never a zero record. Otherwise it echoes the vehicle and its linked meter, with the guarded ratio of the totals |
| AnalyticsService.WindowSum | src/services/analytics.service.js:26-31 | the `meter_agg` scan: one pass over a history gives the window's sum and row count |
| AnalyticsService.VehicleWindow | src/services/analytics.service.js:18-25 | the `vehicle_agg` scan: one pass over the vehicle history gives the DC total, the temperature total and the row count of the vehicle's window |
| AnalyticsService.GetPerformance | src/services/analytics.service.js:4-49 | resolves the link, then scans the vehicle history once and the meter history once, and agrees with the definition on every store |
| AnalyticsService.WindowBounds | src/services/analytics.service.js:24 | a row exactly 24 hours old is counted, one a millisecond older is not, and rows dated after `now` are counted |
| AnalyticsService.RatioNonNegative | src/services/analytics.service.js:38-41 | on a store of validated readings both totals and the ratio are never negative |
| AnalyticsService.ZeroAcGivesZeroRatio | src/services/analytics.service.js:38-41 | a linked meter with no AC reading in the window gives a ratio of 0, whatever the vehicle delivered |
| AnalyticsController.PerformanceResponse | src/controllers/analytics.controller.js:9-21 | null gives 404 "Vehicle not linked to a meter"; a record gives 200 with exactly the seven fields and window "24h" |
| AnalyticsController.ResponseCarriesRow | src/controllers/analytics.controller.js:13-21 | every figure of the record reads back from the answer under its response name |
| AnalyticsController.Performance | src/controllers/analytics.controller.js:4-22 | 404 exactly when the vehicle is unlinked; otherwise 200 with the ids echoed and the record of the trailing 24 hours |
| Scenario.FixtureTables | tests/analytics.test.js:14-54 | the test's link and four readings, through the controllers, leave exactly the expected five tables |
| Scenario.FixturePerformance | tests/analytics.test.js:58-76 | the fixture gives AC 15, DC 12, ratio 0.8 and mean temperature 36 |
| Scenario.ExpectedResponse | tests/analytics.test.js:58-76 | the answer for that record meets every expectation of the test: 200, the ids, positive totals, ratio in (0, 1], positive mean |
| Scenario.FixtureResponse | tests/analytics.test.js:58-76 | GET /v1/analytics/performance/v-900 on the fixture gives exactly that answer |
| Scenario.UnknownVehicleNotLinked | tests/analytics.test.js:78-83 | GET /v1/analytics/performance/v-unknown on the fixture gives 404 |

## Left out

- Express wiring, routes, JSON body parsing and `/health` (src/app.js, src/routes/*.js). The controllers receive the parsed body directly.
- The PostgreSQL pool, async/await and SQL execution. The store is an immutable value passed in and returned.
- Concurrency: two requests interleaving between the two ingest statements, and races on the uniqueness constraints. Requests are sequential; the gap between the statements is modelled by `Fault.LiveFault`.
- Database failures in `get`, `list` and `performance`. These handlers have no `catch`, and a rejected promise there escapes the controller. The model assumes those queries succeed.
- Floating point, Postgres `numeric` and the `Number(...)` conversions in the analytics controller. Numbers are exact reals, and the conversions are the identity.
- ISO-8601 parsing by `new Date`. It is the `parse` parameter, and instants are whole milliseconds. Postgres's microsecond timestamps are not modelled.
- Database collation for `ORDER BY vehicle_id`. It is modelled as code-point lexicographic order.
- `console.log` and `console.error` logging.
- TelemetryService.IngestMeter: requires the timestamp to parse. The service is only ever called with a validated reading; the model does not cover an invalid Date reaching the database driver.
- TelemetryService.IngestVehicle: requires the timestamp to parse, for the same reason.
- TelemetryController.Ingest: for a refused body the contract states the status, the unchanged store and the `error` field, but not the `message` text. The message is stated per input by `WhitespaceMeterIdRejected`, `HelloWorldIngestRejected` and `NullIngestRejected`.
- TelemetryService.VehicleTimestampCollision: states only the history half. The live row after the second reading is stated by `IngestVehicle`'s contract.
- Scenario.FixturePerformance: the two test timestamps are assumed to parse to one minute before `now` and to `now`. The test derives them from the wall clock.
