# SmartGreenHouse hub core, modelled and proved in Dafny

SmartGreenHouse is a Zigbee greenhouse hub written in Go. It listens to a zigbee2mqtt
bridge over MQTT, stores devices and their telemetry in PostgreSQL, runs condition-action
scenarios on incoming telemetry, fires time-based schedules through a cron library, and
serves a small web UI. This project models the hub's decision layer and proves what it
does:

- **Discovery.** `handleDevices` decodes the announced device list and saves it
  (insert-if-absent, with the device row's columns shifted by one). It replaces
  `Devices` and registers each new friendly name in `DevMap` with its newest stored
  telemetry. It then subscribes one telemetry listener per new name.
- **Telemetry and scenarios.** The `listenDevicesData` callback decodes a payload. It
  replaces the device's snapshot, persists the payload, and writes the device back to
  `DevMap`. Then it runs the scenarios of that source device.
- **Scheduling.** `ApplyCronTimeFormat` turns a `2006-01-02T15:04` time into a cron
  string. `CronFunc` fires a schedule's command. `InitCronService` re-arms the stored
  schedules and keeps `ScheduleCronMap`.
- **Persistence.** Each function of `database/database.go` in the core is modelled as
  its effect on a value of the tables, plus the in-memory `Devices`, `DevMap` and
  `Scenarios`.
- **Web handlers.** For the device action, schedule create and delete, scenario create
  and delete, and permit-join handlers, the model gives the status each request gets
  and what it publishes, registers or stores.

Modules follow the program:

- `Models` covers `models/*.go`.
- `Json` holds decoded JSON values.
- `Decimal` and `CronTime` are the pure half of `services/cron.go`. They cover Go's
  `time` layout parsing and formatting, `%d`, `strconv.Atoi` and the cron spec parser.
- `Bus` is the MQTT client, as an outbox of publishes and a list of subscriptions.
- `CronEngine` is the cron library, as a map of entries under ids it hands out.
- `Tables` and `TableFacts` hold the tables and the lemmas about them.
- `Database` is package `database`, as a class `Store` over the tables.
- `Rules` and `Ingestion` cover `mqtt_service/mqtt_client.go`.
- `Scheduler` is the imperative half of `services/cron.go`.
- `Web` covers `web/server.go`.

Code that changes state is modelled as classes and methods with loops. Each method is
proved against a function of the old state, and the properties are proved as lemmas
about those functions.

The model follows the code also where it behaves in ways that are easy to miss:

- **Scenario guard.** The guard fires when *any* key of the action payload already
  has the telemetry's value, not only when all of them do (`Rules.GuardHitWithoutAll`).
- **Early return.** A hit guard or a failed publish returns from the whole callback,
  so later scenarios are skipped (`Rules.GuardSilencesLaterScenarios`).
- **Unused condition.** A scenario's operator and comparison value are never read
  (`Rules.ConditionIgnored`).
- **Shifted columns.** The device row is written with its columns shifted:
  `friendly_name` holds the type and `model_id` the description (`Tables.IsRowOf`).
- **No rollback.** `SaveDevices` issues its inserts outside its transaction. A failure
  part-way keeps the devices already saved (`TableFacts.SaveDevicesFaultKeepsPrefix`).
  `SavePublishedDataFromDevice` likewise keeps the row when the commit fails.
- **Scenario device id.** A scenario appended to `Scenarios` by `SaveScenario` keeps
  device id 0. Only a reload from the tables fills it in.
- **Schedule lookup.** `scheduleHandler` checks the device by friendly name in
  `DevMap`. `SaveScheduleData` then looks that same text up as an IEEE address.
- **Job before row.** `scheduleHandler` registers the cron job before saving the row.
  A failed save leaves the job registered and out of `ScheduleCronMap`. The job
  captures the schedule with id 0.
- **Stale map entry.** `scheduleDeleteHandler` never removes the `ScheduleCronMap`
  entry, so deleting the same id again finds it and answers 200.
- **Scenario delete id.** `scenarioDeleteHandler` ignores the error of `Atoi` and hands
  the raw text to the `DELETE`. PostgreSQL converts it to the `id` column's type by its
  own integer input rules, which are not `Atoi`'s (surrounding spaces are accepted, and
  the column is 32-bit). The model takes that conversion as a parameter. Text it cannot
  convert fails the statement (500).
- **Publish errors.** Every publish waits on its token and checks the error. A failed
  publish in the scenario loop ends the callback, so the scenario actions after it are
  not sent (`Bus.DeliveredPrefix`).

## Model

| member | source | states |
|---|---|---|
| Models.NewSchedule | models/zigbee_device.go:42-49 | nil exactly when the command does not decode as an expose; otherwise the five text arguments stored as given, the decoded expose, and both ids zero |
| Models.NewScenario | models/process.go:36-39 | never fails; stores its six arguments in their fields, with id and device id zero |
| Decimal.Atoi | web/server.go:213-218 | accepts exactly an optional sign followed by at least one decimal digit whose value lies in the 64-bit range, and returns that value |
| Decimal.AtoiNatToString | web/server.go:213 | `Atoi` reads back every non-negative 64-bit value written in decimal |
| Decimal.AtoiNegative | web/server.go:213 | `Atoi` reads back every negative 64-bit value written with a minus sign |
| Decimal.NatToString | services/cron.go:112 | `%d` of a natural number: at least one digit and no leading zero |
| Decimal.PadLeftValue | services/cron.go:40 | a zero-padded field of width w has exactly w digits and reads back as its value |
| Decimal.PadLeftOfDigits | services/cron.go:107 | every non-empty digit string is the zero-padded rendering of its own value |
| CronTime.DaysIn | services/cron.go:107 | month lengths lie between 28 and 31, and February has 29 days exactly in leap years |
| CronTime.ParseLayout | services/cron.go:107-111 | a time the layout accepts has every field in range (day up to the month's length) |
| CronTime.ParseLayoutExactly | services/cron.go:107-111 | the layout accepts a text exactly when it is the zero-padded rendering of a valid time, or the same with a one-digit hour |
| CronTime.TrailingTextRejected | services/cron.go:107-111 | text after an accepted time makes both parsing and `ApplyCronTimeFormat` fail |
| CronTime.LeapDayNeedsLeapYear | services/cron.go:107 | 29 February is accepted only in a leap year |
| CronTime.ApplyCronTimeFormat | services/cron.go:106-115 | succeeds exactly when the layout accepts the input |
| CronTime.CronStringFields | services/cron.go:112 | the cron string splits into minute, hour, day and month in plain decimal, and `*` |
| CronTime.CronStringParses | services/cron.go:40-46 | the cron string of a valid time parses as a spec fixing minute, hour, day and month, any weekday |
| CronTime.FiresEveryYear | services/cron.go:112 | the spec made from an accepted time fires at exactly the moments with the same minute, hour, day and month, whatever the year and weekday |
| CronTime.YearIgnored | services/cron.go:112 | two accepted inputs that differ only in the year give the same cron string |
| CronTime.FormatThenParse | services/cron.go:40 | formatting a valid time with the layout and parsing it back gives the time |
| CronTime.ParseRender | services/cron.go:107 | a valid time rendered with a one- or two-digit hour parses back to itself |
| CronTime.ParsedIsRendered | services/cron.go:107 | an accepted text is the rendering of the time it parses to |
| CronTime.ApplyCronTimeFormatOfFormat | services/cron.go:34-40 | `ApplyCronTimeFormat` of a formatted valid time succeeds with that time's cron string |
| Bus.SetTopicDeviceOfSetTopic | services/cron.go:94 | the device name is recovered from its set topic |
| Bus.Client.Publish | web/server.go:106-111 | a publish succeeds exactly when the client is connected and its token reports no error, and only a successful one is recorded |
| Bus.DeliveredPrefix | mqtt_service/mqtt_client.go:146-151 | a run of publishes that stops at its first failure delivers a prefix of its messages: all of them went through, and a shorter prefix means the next publish failed |
| Bus.Client.Subscribe | mqtt_service/mqtt_client.go:107 | the topic is appended to the subscriptions |
| CronEngine.Cron.constructor | services/cron.go:25 | a new cron has no entries, has handed out no id, and is not running |
| CronEngine.Cron.AddFunc | services/cron.go:46-51 | a spec that does not parse is refused with id 0; otherwise the job gets the next id, which was not in use |
| CronEngine.Cron.Remove | web/server.go:226 | the entry with that id is gone and no other changes |
| CronEngine.Cron.Start | services/cron.go:59 | the cron is running |
| Tables.DeviceId | database/database.go:284-289 | the id found for an address is a row holding that address; none is found exactly when no row holds it |
| Tables.AddressOf | database/database.go:323-327 | an id resolves to an address exactly when it names a device row, and the address is that row's |
| Tables.LatestTelemetry | database/database.go:352-357 | the newest payload stored for the device, and none exactly when the device has none |
| Tables.ExposesDataFromDevice | database/database.go:341-369 | a snapshot is produced exactly when the id lookup and the latest-row query succeed and the newest row decodes, and it is that decoded row |
| Tables.MapAll | database/database.go:316-335 | a row scan succeeds exactly when every row converts, and then yields every row's conversion in order |
| Tables.ExposeRowsOf | database/database.go:219-235 | one expose row per expose, in order, under the definition id |
| TableFacts.SaveDeviceNew | database/database.go:199-235 | a device with a new address is saved without error as one device row under the next definition id, and that definition holds exactly its exposes |
| TableFacts.SaveDevicesKeepsTables | database/database.go:171-246 | saving devices only appends to the device-side tables and keeps them well formed |
| TableFacts.SaveDevicesAddresses | database/database.go:183-237 | without a failing statement the stored addresses become the old ones plus those of the list, and an error is reported exactly when the commit fails |
| TableFacts.SaveDevicesRowShape | database/database.go:208-213 | every added device row holds a device of the list, one column off |
| TableFacts.SaveDevicesStoresExposes | database/database.go:185-235 | every device of the list ends up stored, a new one with its exposes under its own definition |
| TableFacts.SaveDevicesFaultKeepsPrefix | database/database.go:174-235 | a failure at the i-th device keeps everything saved for the devices before it |
| TableFacts.SaveDevicesIdempotent | database/database.go:185-197 | saving the same list again adds nothing and reports no error |
| TableFacts.SaveTelemetryOutcome | database/database.go:248-279 | an unknown device, a failed begin or a failed insert changes nothing; otherwise the payload is appended, and a failed commit keeps it but reports an error |
| TableFacts.SaveTelemetryThenRead | database/database.go:341-364 | after a payload is stored, the device's snapshot read back is that payload decoded |
| TableFacts.SaveScheduleRowOutcome | database/database.go:281-303 | the save fails exactly when the fault hits or the address is unknown, and then changes nothing; otherwise one row with a fresh id is appended |
| TableFacts.SaveThenLoadSchedules | database/database.go:281-339 | a saved schedule is read back last, with its new id, its device id and no cron time |
| TableFacts.DeleteThenLoadSchedules | database/database.go:424-433 | after a delete, the schedules read back are the earlier ones without that id |
| TableFacts.SaveScenarioRowOutcome | database/database.go:435-459 | the save fails exactly when the fault hits or the source address is unknown, and then changes nothing; otherwise one row with a fresh id is appended, holding the scenario's fields, the id of a device row with the source address and the encoded action, and nothing else changes |
| TableFacts.SaveThenLoadScenarios | database/database.go:435-509 | a saved scenario is read back last, with its new id and device id and its action payload |
| TableFacts.DeleteThenLoadScenarios | database/database.go:511-517 | after a delete, the scenarios read back are the earlier ones without that id |
| TableFacts.DeletedScenarioGone | database/database.go:511-524 | no scenario read back after a delete has the deleted id |
| TableFacts.AddressOfDeviceId | database/database.go:284-327 | with unique addresses, looking a device up by address and by id are inverse |
| Database.Store.constructor | database/database.go:18-25 | the globals start empty over well-formed tables |
| Database.Store.SaveDevices | database/database.go:171-246 | the new tables and the error are those of the save function, and the tables stay well formed |
| Database.Store.InsertDevice | database/database.go:183-236 | one pass of the loop body has the effect of the single-device save, including a failure at any statement |
| Database.Store.SavePublishedData | database/database.go:248-279 | the new tables and the error are those of the telemetry save function |
| Database.Store.GetExposesData | database/database.go:341-369 | the device gets the decoded newest payload, or stays unchanged with an error exactly when none can be read |
| Database.Store.SaveScheduleData | database/database.go:281-303 | the new row's id, or -1 with the tables unchanged |
| Database.Store.GetSchedules | database/database.go:305-339 | the result is the row scan of the schedule table, or an error when the query fails |
| Database.Store.DeleteSchedule | database/database.go:424-433 | the row with that id is deleted unless the statement fails |
| Database.Store.SaveScenario | database/database.go:435-468 | on success `Scenarios` gains the scenario with its new id; on failure it returns -1 and `Scenarios` is unchanged |
| Database.Store.GetScenarios | database/database.go:470-509 | on success `Scenarios` is replaced by the rows read; on any error it is unchanged |
| Database.Store.DeleteScenario | database/database.go:511-524 | the row is deleted and `Scenarios` reloaded; after success no scenario has that id |
| Rules.RuleMessagesSound | mqtt_service/mqtt_client.go:124-153 | every publish comes from a scenario of the source device whose guard did not fire, and is its action |
| Rules.RuleMessagesComplete | mqtt_service/mqtt_client.go:124-153 | when no guard fires, every scenario of the source device publishes its action, in order |
| Rules.GuardEndsLoop | mqtt_service/mqtt_client.go:132-137 | a guard that fires ends the loop: only the scenarios before it publish |
| Rules.OtherSourcesIgnored | mqtt_service/mqtt_client.go:125 | a scenario of another device changes nothing |
| Rules.ConditionIgnored | mqtt_service/mqtt_client.go:124-153 | scenarios differing only in operator and comparison value publish the same |
| Rules.GuardAllImpliesHit | mqtt_service/mqtt_client.go:132-139 | an action whose every key already holds its value fires the guard |
| Rules.GuardHitWithoutAll | mqtt_service/mqtt_client.go:132-139 | one matching key is enough to fire the guard |
| Rules.PlantSensorExample | mqtt_service/mqtt_client.go:124-151 | a dry-soil reading opens the valve, and one that already reports the valve open publishes nothing |
| Rules.GuardSilencesLaterScenarios | mqtt_service/mqtt_client.go:132-137 | a guard hit in the first scenario silences a later one whose own guard would not fire |
| Rules.ScenarioLoopDelivers | mqtt_service/mqtt_client.go:124-153 | the scenario loop as it runs hands over exactly the rule function's messages up to the first failed publish |
| Ingestion.Preloaded | mqtt_service/mqtt_client.go:89-93 | only the snapshot changes: it is the stored one when that can be read, and the device is kept as it arrived otherwise |
| Ingestion.RegisterKeys | mqtt_service/mqtt_client.go:87-99 | the keys of `DevMap` become the old keys plus the friendly names of the list |
| Ingestion.RegisterWell | mqtt_service/mqtt_client.go:87-99 | known names keep their entry; each added device has a new name, is added once, and is stored under its name as the preloaded form of a device of the list |
| Ingestion.RegisterFirstWins | mqtt_service/mqtt_client.go:87-93 | of several devices with one new name, the first is registered |
| Ingestion.RegisterIdempotent | mqtt_service/mqtt_client.go:87-99 | announcing the same list again registers nothing new |
| Ingestion.HandleDevices | mqtt_service/mqtt_client.go:70-103 | an undecodable list changes nothing; a failed save changes only the tables; otherwise `Devices` becomes the list, and the registry and subscriptions follow the registration function |
| Ingestion.RegisterDevices | mqtt_service/mqtt_client.go:87-99 | the registry, the subscriptions and the listeners are those of the registration function |
| Ingestion.ListenDevicesData | mqtt_service/mqtt_client.go:89-107 | the preloaded device is registered under its name, one subscription is added on its topic, and a listener holds it |
| Ingestion.CheckGuard | mqtt_service/mqtt_client.go:132-139 | the key loop reports a hit exactly when some action key already has its value |
| Ingestion.DeviceListener.OnMessage | mqtt_service/mqtt_client.go:107-154 | an undecodable payload changes nothing; otherwise the snapshot is replaced and saved, and only a successful save updates `DevMap` and publishes the scenario actions up to the first failed publish |
| Ingestion.RunScenarios | mqtt_service/mqtt_client.go:124-153 | the outbox gains the rule function's messages up to the first failed publish, and nothing after it |
| Ingestion.RunScenario | mqtt_service/mqtt_client.go:125-151 | a scenario of another source is passed over; otherwise a hit guard stops the loop with nothing sent, and the action is handed over exactly when its publish goes through, a failed publish stopping the loop |
| Scheduler.CronService.constructor | services/cron.go:21 | `ScheduleCronMap` starts empty |
| Scheduler.CronMessage | services/cron.go:78-94 | the command goes to the set topic of the schedule's device, and is the single pair of the expose's property and the command data |
| Scheduler.CronFire | services/cron.go:74-104 | a firing sends its command exactly when the device is in `DevMap` and the publish goes through; otherwise nothing |
| Scheduler.BootOutcome | services/cron.go:33-55 | start-up gets through exactly when every stored time parses; each job is the one for the schedule at its position; every map key keeps its old value or names the entry of its own schedule |
| Scheduler.BootMap | services/cron.go:33-55 | the keys of `ScheduleCronMap` after start-up are the old ones plus the ids of the schedules armed; an id armed last maps to its job's entry id, and every other old key keeps its value |
| Scheduler.InitCronService | services/cron.go:24-72 | a load error returns nil with the map unchanged; otherwise the map, the jobs and the result follow the start-up function, and a cron is returned running exactly when start-up got through |
| Scheduler.ArmSchedule | services/cron.go:40-51 | the job for a schedule and its parsed time is registered under the next id with the spec of that time |
| Web.ActionMessage | web/server.go:98-106 | the command goes to the set topic of the named device, and is the single pair of action and value |
| Web.CronMessageIsAction | services/cron.go:78-94 | a schedule sends the same command as the device page with that property and value |
| Web.DevicesActionHandler | web/server.go:80-115 | an unknown device gives 404 and no publish; otherwise the command is published, a publish that goes through records it and sets the redirect, and a failed one records nothing and answers nothing |
| Web.ScheduleHandler | web/server.go:152-202 | an empty field shows the form; an unknown device gives 404; an unparsable time or a command that is not an expose (a nil dereference) creates nothing; otherwise the schedule is started as `Web.StartSchedule` states |
| Web.StartSchedule | web/server.go:181-200 | the job is registered before the save; a failed save leaves it registered and unmapped; a saved schedule's id is mapped to the job's id |
| Web.RestartRearmsSchedule | services/cron.go:24-55 | after a schedule is saved, start-up over the schedules read back arms them all; the last job fires on the spec of the schedule's time, sends the command the handler's job sends, and is the entry the new row id maps to |
| Web.ScheduleDeleteHandler | web/server.go:204-238 | a non-integer id gives 500 and an unmapped id 404, both removing nothing; otherwise the job is removed, then the row is deleted, and the map keeps the id |
| Web.FormScenario | web/server.go:249-265 | the scenario's action goes to the set topic of the action device with the single pair of property and value |
| Web.ScenarioCreateHandler | web/server.go:240-281 | 201 when the scenario is stored and appended to `Scenarios`, 500 with `Scenarios` unchanged otherwise |
| Web.ScenarioDeleteHandler | web/server.go:326-345 | an id the database cannot convert gives 500 and changes nothing; otherwise the row is deleted unless the statement fails, the answer is 200 exactly when the delete and the reload succeed, a 500 leaves `Scenarios` unchanged, and a 200 makes it the reload, with no scenario of that id |
| Web.PermitJoinHandler | web/server.go:347-367 | publishes `{"time": 50}` to the permit-join topic; a failed publish records nothing and gives 500 |

## Left out

- MQTT connection setup, keep-alive and the connect/lost handlers are network I/O. Publish and subscribe are modelled as appends to an outbox and a subscription list. A publish fails when the client is not connected or when its token reports an error; the latter is an input of each publish.
- The SQL schema, database bootstrap, charts (`GetDataForChartByAction`, `util/util.go`), HTML templates, `ListenAndServe`, `app/services.go` and `services/scenario.go` are plumbing and UI.
- Locks, goroutines, `ctx.Done()` and cron timing are concurrency and wall-clock concerns. The cron library is modelled as a map of entries and the ids it hands out. When a job fires is stated by `CronTime.Matches`, not run.
- JSON encoding and decoding are opaque. They are a codec of partial decoders and a total encoder, passed as parameters. Numbers are reals, not `float64`.
- Comparing uncomparable Go interface values (nested objects or arrays) in the scenario guard panics in Go. The model treats payload values as comparable scalars.
- Database failures that do not depend on the data (`Begin`, a statement, `Commit`) are fault parameters. `rows.Scan` errors are not modelled.
- Row order is insertion order. `ORDER BY time_mark DESC` is modelled as "the last row stored", because each payload is stamped with the time it is saved. SERIAL ids are the next number after the last one handed out.
- Scheduler.InitCronService: the stored `time_mark` is a `timestamp` column that the driver reads back as RFC 3339 text. Its parsing with `time.RFC3339` is a parameter, as is PostgreSQL's conversion of the mark on insert.
- Web.ScheduleDeleteHandler: the id handed to the `DELETE` is the value `Atoi` read. PostgreSQL reads the same text as the same integer.
- Web.ScheduleHandler: a `ParseForm` error (a malformed request body) is not modelled in any handler. `devicesActionHandler`, `scheduleHandler` and `scenarioCreateHandler` return on it without an answer (web/server.go:82-86, 154-158, 244-248); `scheduleDeleteHandler` and `scenarioDeleteHandler` answer 500 (web/server.go:206-211, 328-333).
- Web.ScenarioDeleteHandler: PostgreSQL's conversion of the id text to the 32-bit `id` column is a parameter, not written out.
- CronTime.ParseCron: only plain numbers, `*` and `?` are read. The cron library also reads ranges, lists, steps, names and `@` descriptors, but only strings built by `CronString` reach it.
- Web.PermitJoinHandler: the marshalling error branch cannot happen for this constant payload and is not modelled.
