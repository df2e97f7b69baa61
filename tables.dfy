/** The PostgreSQL tables of database/database.go as a value, and the effect of each
    persistence operation on them as a function. Rows are kept in insertion order; a
    SERIAL id is the next number after the last one handed out. */
module Tables {
  import opened Wrappers
  import opened Json
  import opened Models

  /** A `zigbee_devices` row; its id is its position plus one. */
  datatype DeviceRow = DeviceRow(
    ieeeAddress: string,
    friendlyName: string,
    typeDev: string,
    manufacturer: string,
    modelId: string,
    definitionId: int)

  /** An `exposes` row. */
  datatype ExposeRow = ExposeRow(definitionId: int, expose: Expose)

  /** An `exposes_data` row: one raw telemetry payload; later rows are newer. */
  datatype TelemetryRow = TelemetryRow(deviceId: int, json: string)

  /** A `schedule` row. */
  datatype ScheduleRow = ScheduleRow(id: int, deviceId: int, command: string, commandData: string, timeMark: string)

  /** A `scenarios` row; `actionPayload` is the stored JSON text. */
  datatype ScenarioRow = ScenarioRow(
    id: int,
    deviceId: int,
    property: string,
    operator: string,
    valueComp: string,
    publishTopic: string,
    actionPayload: string)

  /** The database. `definitions` holds descriptions; a definition's id is its position plus one. */
  datatype Tables = Tables(
    definitions: seq<string>,
    deviceRows: seq<DeviceRow>,
    exposeRows: seq<ExposeRow>,
    telemetryRows: seq<TelemetryRow>,
    scheduleRows: seq<ScheduleRow>,
    lastScheduleId: nat,
    scenarioRows: seq<ScenarioRow>,
    lastScenarioId: nat)

  const Empty := Tables([], [], [], [], [], 0, [], 0)

  // ---------------------------------------------------------------------------------
  // Well-formedness: what every operation keeps

  predicate UniqueAddresses(rows: seq<DeviceRow>)
  {
    forall i, j :: 0 <= i < j < |rows| ==> rows[i].ieeeAddress != rows[j].ieeeAddress
  }

  /** Every device row references a definition row holding the text of its `model_id`
      column (the description lands there, see `IsRowOf`). */
  predicate DefinitionsLinked(t: Tables)
  {
    forall i :: 0 <= i < |t.deviceRows| ==>
      1 <= t.deviceRows[i].definitionId <= |t.definitions|
      && t.definitions[t.deviceRows[i].definitionId - 1] == t.deviceRows[i].modelId
  }

  predicate ExposesLinked(t: Tables)
  {
    forall i :: 0 <= i < |t.exposeRows| ==> 1 <= t.exposeRows[i].definitionId <= |t.definitions|
  }

  predicate TelemetryLinked(t: Tables)
  {
    forall i :: 0 <= i < |t.telemetryRows| ==> 1 <= t.telemetryRows[i].deviceId <= |t.deviceRows|
  }

  predicate SchedulesLinked(t: Tables)
  {
    forall i :: 0 <= i < |t.scheduleRows| ==>
      1 <= t.scheduleRows[i].id <= t.lastScheduleId && 1 <= t.scheduleRows[i].deviceId <= |t.deviceRows|
  }

  predicate ScenariosLinked(t: Tables)
  {
    forall i :: 0 <= i < |t.scenarioRows| ==>
      1 <= t.scenarioRows[i].id <= t.lastScenarioId && 1 <= t.scenarioRows[i].deviceId <= |t.deviceRows|
  }

  predicate WellFormed(t: Tables)
  {
    && UniqueAddresses(t.deviceRows)
    && DefinitionsLinked(t)
    && ExposesLinked(t)
    && TelemetryLinked(t)
    && SchedulesLinked(t)
    && ScenariosLinked(t)
  }

  /** `u` is `t` with rows appended to the device-side tables and nothing else changed. */
  predicate Extends(t: Tables, u: Tables)
  {
    && t.definitions <= u.definitions
    && t.deviceRows <= u.deviceRows
    && t.exposeRows <= u.exposeRows
    && u.telemetryRows == t.telemetryRows
    && u.scheduleRows == t.scheduleRows && u.lastScheduleId == t.lastScheduleId
    && u.scenarioRows == t.scenarioRows && u.lastScenarioId == t.lastScenarioId
  }

  lemma ExtendsTransitive(t: Tables, u: Tables, v: Tables)
    requires Extends(t, u) && Extends(u, v)
    ensures Extends(t, v)
  {
  }

  // ---------------------------------------------------------------------------------
  // Lookups

  function Addresses(rows: seq<DeviceRow>): set<string>
  {
    set i | 0 <= i < |rows| :: rows[i].ieeeAddress
  }

  /** `SELECT id FROM zigbee_devices WHERE ieee_address = $1`: the position of a matching row. */
  function FindDevice(rows: seq<DeviceRow>, a: string): (r: Option<nat>)
    ensures r.Some? ==> r.value < |rows| && rows[r.value].ieeeAddress == a
    ensures r.None? <==> a !in Addresses(rows)
  {
    if rows == [] then None
    else if rows[0].ieeeAddress == a then Some(0)
    else
      match FindDevice(rows[1..], a)
      case None =>
        assert Addresses(rows) == {rows[0].ieeeAddress} + Addresses(rows[1..]) by {
          forall x | x in Addresses(rows) ensures x in {rows[0].ieeeAddress} + Addresses(rows[1..]) {
            var i :| 0 <= i < |rows| && rows[i].ieeeAddress == x;
            if i > 0 { assert rows[1..][i - 1] == rows[i]; }
          }
        }
        None
      case Some(k) => assert rows[1..][k] == rows[k + 1]; Some(k + 1)
  }

  /** The device id (row position plus one) stored for an IEEE address. */
  function DeviceId(t: Tables, a: string): (r: Option<int>)
    ensures r.Some? ==> 1 <= r.value <= |t.deviceRows| && t.deviceRows[r.value - 1].ieeeAddress == a
    ensures r.None? <==> a !in Addresses(t.deviceRows)
  {
    match FindDevice(t.deviceRows, a)
    case None => None
    case Some(k) => Some(k + 1)
  }

  /** `SELECT COUNT(*) ... WHERE ieee_address = $1` is non-zero. */
  predicate HasDevice(t: Tables, a: string)
  {
    DeviceId(t, a).Some?
  }

  /** `SELECT ieee_address FROM zigbee_devices WHERE id = $1`: the address of the device
      row with that id (ids run from 1 in insertion order). */
  function AddressOf(t: Tables, id: int): (r: Option<string>)
    ensures r.Some? <==> 1 <= id <= |t.deviceRows|
    ensures r.Some? ==> r.value in Addresses(t.deviceRows) && r.value == t.deviceRows[id - 1].ieeeAddress
  {
    if 1 <= id <= |t.deviceRows| then Some(t.deviceRows[id - 1].ieeeAddress) else None
  }

  /** `SELECT exposes_data_json ... WHERE device_id = $1 ORDER BY time_mark DESC LIMIT 1`:
      the newest payload stored for the device. */
  function LatestTelemetry(rows: seq<TelemetryRow>, id: int): (r: Option<string>)
    ensures r.None? <==> forall j :: 0 <= j < |rows| ==> rows[j].deviceId != id
    ensures r.Some? ==> exists j :: 0 <= j < |rows| && rows[j].deviceId == id && rows[j].json == r.value
                                    && forall k :: j < k < |rows| ==> rows[k].deviceId != id
  {
    if rows == [] then None
    else if rows[|rows| - 1].deviceId == id then Some(rows[|rows| - 1].json)
    else LatestTelemetry(rows[..|rows| - 1], id)
  }

  /** `GetExposesDataFromDevice`: the decoded newest stored payload of the device, when the
      id lookup, the query and the decode all succeed. */
  function ExposesDataFromDevice(t: Tables, codec: Codec, a: string): (r: Option<Payload>)
    ensures r.Some? ==> DeviceId(t, a).Some? && LatestTelemetry(t.telemetryRows, DeviceId(t, a).value).Some?
                        && r == codec.decodePayload(LatestTelemetry(t.telemetryRows, DeviceId(t, a).value).value)
    ensures DeviceId(t, a).Some? && LatestTelemetry(t.telemetryRows, DeviceId(t, a).value).Some? ==>
              r == codec.decodePayload(LatestTelemetry(t.telemetryRows, DeviceId(t, a).value).value)
  {
    match DeviceId(t, a)
    case None => None
    case Some(id) =>
      match LatestTelemetry(t.telemetryRows, id)
      case None => None
      case Some(js) => codec.decodePayload(js)
  }

  // ---------------------------------------------------------------------------------
  // SaveDevices

  /** The statement of one device's save that an injected failure hits. */
  datatype Step = CountQuery | DefinitionInsert | DeviceInsert | ExposeInsert(j: nat)

  /** Failures of the database, which the source cannot prevent: none, `Begin`, one
      statement of the device at `index`, or `Commit`. */
  datatype SaveFault = NoFault | BeginFails | FailAt(index: nat, step: Step) | CommitFails

  /** The tables after an operation and whether it returned an error. */
  datatype Saved = Saved(db: Tables, failed: bool)

  /** The `zigbee_devices` row written for `d`: the values are passed in the order
      (IEEEAddress, Type, Manufacturer, ModelID, Description, definition id) to the columns
      (ieee_address, friendly_name, type_dev, manufacturer, model_id, definition_id). */
  function DeviceRowOf(d: ZigbeeDevice, defId: int): DeviceRow
  {
    DeviceRow(d.ieeeAddress, d.deviceType, d.manufacturer, d.modelId, d.definition.description, defId)
  }

  /** `row` holds `d` with each value one column off from its name. */
  predicate IsRowOf(row: DeviceRow, d: ZigbeeDevice)
  {
    && row.ieeeAddress == d.ieeeAddress
    && row.friendlyName == d.deviceType
    && row.typeDev == d.manufacturer
    && row.manufacturer == d.modelId
    && row.modelId == d.definition.description
  }

  function ExposeRowsOf(defId: int, es: seq<Expose>): (rows: seq<ExposeRow>)
    ensures |rows| == |es|
    ensures forall i :: 0 <= i < |es| ==> rows[i] == ExposeRow(defId, es[i])
  {
    if es == [] then [] else [ExposeRow(defId, es[0])] + ExposeRowsOf(defId, es[1..])
  }

  /** The exposes stored under a definition id, in order. */
  function ExposesOf(rows: seq<ExposeRow>, defId: int): seq<Expose>
  {
    if rows == [] then []
    else (if rows[0].definitionId == defId then [rows[0].expose] else []) + ExposesOf(rows[1..], defId)
  }

  /** One pass of the loop body of `SaveDevices` for `d`, with the failure (if any) that
      hits one of its statements. */
  function SaveDevice(t: Tables, d: ZigbeeDevice, fault: Option<Step>): Saved
  {
    if fault == Some(CountQuery) then Saved(t, true)
    else if HasDevice(t, d.ieeeAddress) then Saved(t, false)
    else if fault == Some(DefinitionInsert) then Saved(t, true)
    else
      var defId := |t.definitions| + 1;
      var t1 := t.(definitions := t.definitions + [d.definition.description]);
      if fault == Some(DeviceInsert) then Saved(t1, true)
      else
        var t2 := t1.(deviceRows := t1.deviceRows + [DeviceRowOf(d, defId)]);
        var es := d.definition.exposes;
        var k := if fault.Some? && fault.value.ExposeInsert? && fault.value.j < |es| then fault.value.j else |es|;
        Saved(t2.(exposeRows := t2.exposeRows + ExposeRowsOf(defId, es[..k])), k < |es|)
  }

  function StepAt(fault: SaveFault, i: nat): Option<Step>
  {
    if fault.FailAt? && fault.index == i then Some(fault.step) else None
  }

  /** The loop of `SaveDevices` from position `i` on: stop at the first error, which
      leaves every earlier insert in place (they run outside the transaction). */
  function SaveFrom(t: Tables, ds: seq<ZigbeeDevice>, i: nat, fault: SaveFault): Saved
    requires i <= |ds|
    decreases |ds| - i
  {
    if i == |ds| then Saved(t, fault.CommitFails?)
    else
      var o := SaveDevice(t, ds[i], StepAt(fault, i));
      if o.failed then o else SaveFrom(o.db, ds, i + 1, fault)
  }

  /** `SaveDevices(devices, db)`. */
  function SaveDevicesSpec(t: Tables, ds: seq<ZigbeeDevice>, fault: SaveFault): Saved
  {
    if fault.BeginFails? then Saved(t, true) else SaveFrom(t, ds, 0, fault)
  }

  function ListAddresses(ds: seq<ZigbeeDevice>): set<string>
  {
    set i | 0 <= i < |ds| :: ds[i].ieeeAddress
  }

  // ---------------------------------------------------------------------------------
  // Telemetry history

  /** Failures of a single-insert transaction: none, `Begin`, the insert, or `Commit`. */
  datatype TxFault = NoTxFault | TxBeginFails | TxInsertFails | TxCommitFails

  /** `SavePublishedDataFromDevice`: look the device up by address and append the raw
      payload. The insert runs outside the transaction, so a failing commit keeps it. */
  function SaveTelemetry(t: Tables, a: string, raw: string, fault: TxFault): Saved
  {
    if fault == TxBeginFails then Saved(t, true)
    else
      match DeviceId(t, a)
      case None => Saved(t, true)
      case Some(id) =>
        if fault == TxInsertFails then Saved(t, true)
        else Saved(t.(telemetryRows := t.telemetryRows + [TelemetryRow(id, raw)]), fault == TxCommitFails)
  }

  // ---------------------------------------------------------------------------------
  // Schedules and scenarios

  function Filter<R(!new)>(rows: seq<R>, keep: R -> bool): (r: seq<R>)
    ensures |r| <= |rows|
  {
    if rows == [] then []
    else (if keep(rows[0]) then [rows[0]] else []) + Filter(rows[1..], keep)
  }

  /** A row-scanning loop that returns an error as soon as one row fails to convert. */
  function MapAll<R, S>(rows: seq<R>, f: R -> Option<S>): (r: Option<seq<S>>)
    ensures r.Some? <==> forall i :: 0 <= i < |rows| ==> f(rows[i]).Some?
    ensures r.Some? ==> |r.value| == |rows| && forall i :: 0 <= i < |rows| ==> r.value[i] == f(rows[i]).value
  {
    if rows == [] then Some([])
    else
      match (f(rows[0]), MapAll(rows[1..], f))
      case (Some(x), Some(xs)) => Some([x] + xs)
      case (None, _) => None
      case (_, None) => assert rows[1..][0] == rows[1]; None
  }

  /** `SaveScheduleData`: the new row's id, or `None` (the `-1, err` return) when the
      device address is unknown or the insert fails. */
  function SaveScheduleRow(t: Tables, s: Schedule, fails: bool): (Tables, Option<int>)
  {
    match DeviceId(t, s.ieeeName)
    case None => (t, None)
    case Some(dev) =>
      if fails then (t, None)
      else
        var id := t.lastScheduleId + 1;
        (t.(scheduleRows := t.scheduleRows + [ScheduleRow(id, dev, s.command, s.commandData, s.timeMark)],
            lastScheduleId := id),
         Some(id))
  }

  /** `DELETE FROM schedule WHERE id = $1`. */
  function DeleteScheduleRows(t: Tables, id: int): Tables
  {
    t.(scheduleRows := Filter(t.scheduleRows, (r: ScheduleRow) => r.id != id))
  }

  /** One row of `GetSchedules`: the device address looked up by id and the command decoded
      as an expose; the cron time is left empty. */
  function ScheduleOfRow(t: Tables, codec: Codec, r: ScheduleRow): Option<Schedule>
  {
    match (AddressOf(t, r.deviceId), codec.decodeExpose(r.command))
    case (Some(a), Some(e)) => Some(Schedule(r.id, r.deviceId, a, r.command, r.commandData, r.timeMark, "", e))
    case _ => None
  }

  /** `GetSchedules`: every row converted, in table order, or an error if any row fails. */
  function LoadSchedules(t: Tables, codec: Codec): Option<seq<Schedule>>
  {
    MapAll(t.scheduleRows, (r: ScheduleRow) => ScheduleOfRow(t, codec, r))
  }

  /** `SaveScenario`'s statements: the new row's id, or `None` when the source address is
      unknown or the insert fails. */
  function SaveScenarioRow(t: Tables, codec: Codec, s: Scenario, fails: bool): (Tables, Option<int>)
  {
    match DeviceId(t, s.ieeeNameInitDevice)
    case None => (t, None)
    case Some(dev) =>
      if fails then (t, None)
      else
        var id := t.lastScenarioId + 1;
        var row := ScenarioRow(id, dev, s.exposesProperty, s.operator, s.exposesValue, s.publishTopic,
                               codec.encodePayload(s.actionPayload));
        (t.(scenarioRows := t.scenarioRows + [row], lastScenarioId := id), Some(id))
  }

  /** `DELETE FROM scenarios WHERE id = $1`. */
  function DeleteScenarioRows(t: Tables, id: int): Tables
  {
    t.(scenarioRows := Filter(t.scenarioRows, (r: ScenarioRow) => r.id != id))
  }

  /** One row of `GetScenarios`: the action payload decoded and the source address looked
      up by device id. */
  function ScenarioOfRow(t: Tables, codec: Codec, r: ScenarioRow): Option<Scenario>
  {
    match (codec.decodePayload(r.actionPayload), AddressOf(t, r.deviceId))
    case (Some(p), Some(a)) =>
      Some(Scenario(r.id, a, r.deviceId, r.property, r.operator, r.valueComp, r.publishTopic, p))
    case _ => None
  }

  /** `GetScenarios`: every row converted, in table order, or an error if any row fails. */
  function LoadScenarios(t: Tables, codec: Codec): Option<seq<Scenario>>
  {
    MapAll(t.scenarioRows, (r: ScenarioRow) => ScenarioOfRow(t, codec, r))
  }
}
