/** Package `database` (database/database.go): the process-wide device and scenario state
    next to the PostgreSQL connection. Each operation is proved to have the effect the
    matching function of module `Tables` describes. */
module Database {
  import opened Wrappers
  import opened Json
  import opened Models
  import opened Tables
  import opened TableFacts

  class Store {
    /** The database behind the connection. */
    var db: Tables
    /** `Devices`: the device list last announced by the bridge. */
    var devices: seq<ZigbeeDevice>
    /** `DevMap`: the known devices by friendly name, with their telemetry snapshots. */
    var devMap: map<string, ZigbeeDevice>
    /** `Scenarios`: the rules the telemetry callbacks evaluate. */
    var scenarios: seq<Scenario>

    ghost predicate Valid()
      reads this
    {
      WellFormed(db)
    }

    /** The package globals at start-up, over an open database. */
    constructor (db: Tables)
      requires WellFormed(db)
      ensures Valid()
      ensures this.db == db && devices == [] && devMap == map[] && scenarios == []
    {
      this.db := db;
      devices := [];
      devMap := map[];
      scenarios := [];
    }

    /** `SaveDevices`: for each device whose address is not stored yet, insert its
        definition, its device row and its exposes; stop at the first failing statement. */
    method SaveDevices(ds: seq<ZigbeeDevice>, fault: SaveFault) returns (failed: bool)
      requires Valid()
      modifies this`db
      ensures Valid()
      ensures Saved(db, failed) == SaveDevicesSpec(old(db), ds, fault)
    {
      SaveDevicesKeepsTables(db, ds, fault);
      if fault.BeginFails? {
        return true;
      }
      var i := 0;
      while i < |ds|
        invariant 0 <= i <= |ds|
        invariant SaveFrom(db, ds, i, fault) == SaveDevicesSpec(old(db), ds, fault)
        invariant WellFormed(SaveDevicesSpec(old(db), ds, fault).db)
      {
        failed := InsertDevice(ds[i], StepAt(fault, i));
        if failed {
          return;
        }
        i := i + 1;
      }
      return fault.CommitFails?;
    }

    /** The loop body of `SaveDevices` for one device: the existence check, then the
        definition, device and expose inserts, each of which the failure may hit. */
    method InsertDevice(d: ZigbeeDevice, step: Option<Step>) returns (failed: bool)
      modifies this`db
      ensures Saved(db, failed) == SaveDevice(old(db), d, step)
    {
      if step == Some(CountQuery) {
        return true;
      }
      if HasDevice(db, d.ieeeAddress) {
        return false;
      }
      if step == Some(DefinitionInsert) {
        return true;
      }
      var defId := |db.definitions| + 1;
      db := db.(definitions := db.definitions + [d.definition.description]);
      if step == Some(DeviceInsert) {
        return true;
      }
      db := db.(deviceRows := db.deviceRows + [DeviceRowOf(d, defId)]);
      ghost var base := db;
      var es := d.definition.exposes;
      var j := 0;
      while j < |es|
        invariant 0 <= j <= |es|
        invariant db == base.(exposeRows := base.exposeRows + ExposeRowsOf(defId, es[..j]))
        invariant !(step.Some? && step.value.ExposeInsert? && step.value.j < j)
      {
        if step == Some(ExposeInsert(j)) {
          return true;
        }
        ExposeRowsSnoc(defId, es, j);
        db := db.(exposeRows := db.exposeRows + [ExposeRow(defId, es[j])]);
        j := j + 1;
      }
      assert es[..j] == es;
      return false;
    }

    /** `SavePublishedDataFromDevice`: append the raw payload to the device's history. */
    method SavePublishedData(d: ZigbeeDevice, raw: string, fault: TxFault) returns (failed: bool)
      requires Valid()
      modifies this`db
      ensures Valid()
      ensures Saved(db, failed) == SaveTelemetry(old(db), d.ieeeAddress, raw, fault)
    {
      SaveTelemetryOutcome(db, d.ieeeAddress, raw, fault);
      if fault == TxBeginFails {
        return true;
      }
      var id := DeviceId(db, d.ieeeAddress);
      if id.None? || fault == TxInsertFails {
        return true;
      }
      db := db.(telemetryRows := db.telemetryRows + [TelemetryRow(id.value, raw)]);
      return fault == TxCommitFails;
    }

    /** `GetExposesDataFromDevice(&device)`: the device with its newest stored payload, or
        unchanged with an error. */
    method GetExposesData(codec: Codec, d: ZigbeeDevice) returns (r: ZigbeeDevice, failed: bool)
      ensures failed <==> ExposesDataFromDevice(db, codec, d.ieeeAddress).None?
      ensures r == if failed then d else d.(exposesData := ExposesDataFromDevice(db, codec, d.ieeeAddress).value)
    {
      var id := DeviceId(db, d.ieeeAddress);
      if id.None? {
        return d, true;
      }
      var js := LatestTelemetry(db.telemetryRows, id.value);
      if js.None? {
        return d, true;
      }
      var m := codec.decodePayload(js.value);
      if m.None? {
        return d, true;
      }
      return d.(exposesData := m.value), false;
    }

    /** `SaveScheduleData`: the new row's id, or -1. */
    method SaveScheduleData(s: Schedule, fails: bool) returns (id: int)
      requires Valid()
      modifies this`db
      ensures Valid()
      ensures db == SaveScheduleRow(old(db), s, fails).0
      ensures id == match SaveScheduleRow(old(db), s, fails).1 case Some(n) => n case None => -1
    {
      SaveScheduleRowOutcome(db, s, fails);
      var dev := DeviceId(db, s.ieeeName);
      if dev.None? || fails {
        return -1;
      }
      id := db.lastScheduleId + 1;
      db := db.(scheduleRows := db.scheduleRows + [ScheduleRow(id, dev.value, s.command, s.commandData, s.timeMark)],
                lastScheduleId := id);
    }

    /** `GetSchedules`: scan the rows, resolving each device address and decoding each
        command; any failing row (or a failing query) makes the whole call fail. */
    method GetSchedules(codec: Codec, queryFails: bool) returns (r: Option<seq<Schedule>>)
      ensures r == if queryFails then None else LoadSchedules(db, codec)
    {
      if queryFails {
        return None;
      }
      var rows := db.scheduleRows;
      var result: seq<Schedule> := [];
      var i := 0;
      while i < |rows|
        invariant 0 <= i <= |rows|
        invariant |result| == i
        invariant forall k :: 0 <= k < i ==> ScheduleOfRow(db, codec, rows[k]) == Some(result[k])
      {
        var row := rows[i];
        var a := AddressOf(db, row.deviceId);
        if a.None? {
          return None;
        }
        var e := codec.decodeExpose(row.command);
        if e.None? {
          return None;
        }
        result := result + [Schedule(row.id, row.deviceId, a.value, row.command, row.commandData, row.timeMark, "", e.value)];
        i := i + 1;
      }
      assert LoadSchedules(db, codec).Some?;
      assert LoadSchedules(db, codec).value == result;
      return Some(result);
    }

    /** `DeleteSchedule`: delete the row with that id, if any. */
    method DeleteSchedule(id: int, fails: bool) returns (failed: bool)
      requires Valid()
      modifies this`db
      ensures Valid()
      ensures failed == fails
      ensures db == if fails then old(db) else DeleteScheduleRows(old(db), id)
    {
      if fails {
        return true;
      }
      DeleteRowsWellFormed(db, id);
      db := DeleteScheduleRows(db, id);
      return false;
    }

    /** `SaveScenario`: store the scenario and, on success, append it to `Scenarios` with
        its new id (its device id stays as given). */
    method SaveScenario(codec: Codec, s: Scenario, fails: bool) returns (id: int)
      requires Valid()
      modifies this`db, this`scenarios
      ensures Valid()
      ensures db == SaveScenarioRow(old(db), codec, s, fails).0
      ensures SaveScenarioRow(old(db), codec, s, fails).1.None? ==> id == -1 && scenarios == old(scenarios)
      ensures SaveScenarioRow(old(db), codec, s, fails).1.Some? ==>
                id == SaveScenarioRow(old(db), codec, s, fails).1.value
                && scenarios == old(scenarios) + [s.(id := id)]
    {
      SaveScenarioRowOutcome(db, codec, s, fails);
      var dev := DeviceId(db, s.ieeeNameInitDevice);
      if dev.None? || fails {
        return -1;
      }
      id := db.lastScenarioId + 1;
      var row := ScenarioRow(id, dev.value, s.exposesProperty, s.operator, s.exposesValue, s.publishTopic,
                             codec.encodePayload(s.actionPayload));
      db := db.(scenarioRows := db.scenarioRows + [row], lastScenarioId := id);
      scenarios := scenarios + [s.(id := id)];
    }

    /** `GetScenarios`: scan the rows, decoding each action payload and resolving each
        source address; on success the result replaces `Scenarios`. */
    method GetScenarios(codec: Codec, queryFails: bool) returns (r: Option<seq<Scenario>>)
      modifies this`scenarios
      ensures r == if queryFails then None else LoadScenarios(db, codec)
      ensures scenarios == if r.Some? then r.value else old(scenarios)
    {
      if queryFails {
        return None;
      }
      var rows := db.scenarioRows;
      var result: seq<Scenario> := [];
      var i := 0;
      while i < |rows|
        invariant 0 <= i <= |rows|
        invariant |result| == i
        invariant forall k :: 0 <= k < i ==> ScenarioOfRow(db, codec, rows[k]) == Some(result[k])
      {
        var row := rows[i];
        var p := codec.decodePayload(row.actionPayload);
        if p.None? {
          return None;
        }
        var a := AddressOf(db, row.deviceId);
        if a.None? {
          return None;
        }
        result := result + [Scenario(row.id, a.value, row.deviceId, row.property, row.operator, row.valueComp, row.publishTopic, p.value)];
        i := i + 1;
      }
      assert LoadScenarios(db, codec).Some?;
      assert LoadScenarios(db, codec).value == result;
      scenarios := result;
      return Some(result);
    }

    /** `DeleteScenario`: delete the row, then reload `Scenarios` from the tables; a
        failing reload leaves the old list and reports an error. */
    method DeleteScenario(codec: Codec, id: int, deleteFails: bool, queryFails: bool) returns (failed: bool)
      requires Valid()
      modifies this`db, this`scenarios
      ensures Valid()
      ensures deleteFails ==> failed && db == old(db) && scenarios == old(scenarios)
      ensures !deleteFails ==> db == DeleteScenarioRows(old(db), id)
      ensures !deleteFails ==>
                var reload := if queryFails then None else LoadScenarios(db, codec);
                failed == reload.None? && scenarios == if reload.Some? then reload.value else old(scenarios)
      ensures !failed ==> forall k :: 0 <= k < |scenarios| ==> scenarios[k].id != id
    {
      if deleteFails {
        return true;
      }
      ghost var before := db;
      DeleteRowsWellFormed(db, id);
      db := DeleteScenarioRows(db, id);
      var r := GetScenarios(codec, queryFails);
      if r.Some? {
        DeletedScenarioGone(before, codec, id);
      }
      return r.None?;
    }
  }

  lemma ExposeRowsSnoc(defId: int, es: seq<Expose>, j: nat)
    requires j < |es|
    ensures ExposeRowsOf(defId, es[..j + 1]) == ExposeRowsOf(defId, es[..j]) + [ExposeRow(defId, es[j])]
  {
    var a, b := ExposeRowsOf(defId, es[..j + 1]), ExposeRowsOf(defId, es[..j]) + [ExposeRow(defId, es[j])];
    assert forall k :: 0 <= k < |a| ==> a[k] == b[k];
  }

}
