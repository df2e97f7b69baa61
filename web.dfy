/** The decisions of the web handlers in web/server.go that act on devices, schedules and
    scenarios: which status each request gets, and what it publishes, registers or stores
    on the way. Templates and page rendering are not modelled. */
module Web {
  import opened Wrappers
  import opened Json
  import opened Models
  import opened Decimal
  import opened Bus
  import opened CronTime
  import opened CronEngine
  import opened Tables
  import opened TableFacts
  import opened Database
  import opened Scheduler

  /** What a handler writes before returning. */
  datatype Body =
    | NoBody
    | Text(text: string)
      /** The schedule form page, rendered from the device list. */
    | SchedulePage

  /** An HTTP response: the status (200 when the handler writes none), the body, and the
      `HX-Redirect` header when one is set. `Aborted` is a handler that panicked: `net/http`
      recovers and drops the connection without a response. */
  datatype Response = Response(status: int, body: Body, redirect: Option<string>) | Aborted

  const OK := 200
  const Created := 201
  const NotFound := 404
  const InternalServerError := 500

  /** `http.Error(w, msg, code)`: the message and a newline. */
  function Error(msg: string, code: int): Response
  {
    Response(code, Text(msg + "\n"), None)
  }

  /** A handler that returns without writing anything. */
  const Silent := Response(OK, NoBody, None)

  /** The command `devicesActionHandler` sends: `{action: value}` to the device's set topic. */
  function ActionMessage(name: string, action: string, value: string): (m: Message)
    ensures SetTopicDevice(m.topic) == Some(name)
    ensures m.payload.Keys == {action} && Get(m.payload, action) == Str(value)
  {
    SetTopicDeviceOfSetTopic(name);
    Message(SetTopic(name), Single(action, Str(value)))
  }

  /** A schedule fires the command the device page sends by hand with the same property and
      value. */
  lemma CronMessageIsAction(s: Schedule)
    ensures CronMessage(s) == ActionMessage(s.ieeeName, s.expose.property, s.commandData)
  {
  }

  /** `devicesActionHandler`: a name `DevMap` does not know is answered 404; otherwise the
      command is published, and only a publish that went through (connected, and `fails`
      false) sets the redirect to the device page. */
  method DevicesActionHandler(store: Store, client: Client, name: string, action: string, value: string,
                              fails: bool)
    returns (resp: Response)
    modifies client`outbox
    ensures name !in store.devMap ==>
              resp == Error("Device not found", NotFound) && client.outbox == old(client.outbox)
    ensures name in store.devMap && !(client.connected && !fails) ==>
              resp == Silent && client.outbox == old(client.outbox)
    ensures name in store.devMap && client.connected && !fails ==>
              resp == Response(OK, NoBody, Some("/devices/" + name))
              && client.outbox == old(client.outbox) + [ActionMessage(name, action, value)]
  {
    if name !in store.devMap {
      return Error("Device not found", NotFound);
    }
    var m := ActionMessage(name, action, value);
    var ok := client.Publish(m.topic, m.payload, fails);
    if !ok {
      return Silent;
    }
    return Response(OK, NoBody, Some("/devices/" + name));
  }

  /** `scheduleHandler`: an empty field shows the form again; an unknown device is 404; a
      time that does not parse ends silently; a command that is not an expose makes
      `NewSchedule` return nil, which the handler dereferences. Otherwise the schedule is
      started as `StartSchedule` says. */
  method ScheduleHandler(store: Store, svc: CronService, cron: Cron, codec: Codec,
                         name: string, command: string, commandData: string, scheduleTime: string,
                         saveFails: bool)
    returns (resp: Response)
    requires store.Valid() && cron.Valid()
    modifies store`db, svc`scheduleCronMap, cron`entries, cron`lastId
    ensures store.Valid() && cron.Valid()
    ensures var refused := scheduleTime == "" || command == "" || name == "" || commandData == "";
      var parsed := ParseLayout(scheduleTime);
      && (refused ==> resp == Response(OK, SchedulePage, None))
      && (!refused && name !in store.devMap ==> resp == Error("Device not found", NotFound))
      && (!refused && name in store.devMap && parsed.None? ==> resp == Silent)
      && (var noExpose := codec.decodeExpose(command).None?;
          !refused && name in store.devMap && parsed.Some? && noExpose ==> resp == Aborted)
      && (refused || name !in store.devMap || parsed.None? || codec.decodeExpose(command).None? ==>
            store.db == old(store.db) && svc.scheduleCronMap == old(svc.scheduleCronMap)
            && cron.entries == old(cron.entries) && cron.lastId == old(cron.lastId))
    ensures var parsed := ParseLayout(scheduleTime);
      scheduleTime != "" && command != "" && name != "" && commandData != ""
      && name in store.devMap && parsed.Some? && codec.decodeExpose(command).Some? ==>
        var t := parsed.value;
        var s := Schedule(0, 0, name, command, commandData, scheduleTime, CronString(t),
                          codec.decodeExpose(command).value);
        Started(old(store.db), old(svc.scheduleCronMap), old(cron.entries), old(cron.lastId),
                s, t, saveFails, store.db, svc.scheduleCronMap, cron.entries, cron.lastId, resp)
  {
    if scheduleTime == "" || command == "" || name == "" || commandData == "" {
      return Response(OK, SchedulePage, None);
    }
    if name !in store.devMap {
      return Error("Device not found", NotFound);
    }
    var cronTime := ApplyCronTimeFormat(scheduleTime);
    if cronTime.None? {
      return Silent;
    }
    var schedule := NewSchedule(codec, name, command, commandData, scheduleTime, cronTime.value);
    if schedule.None? {
      return Aborted;
    }
    resp := StartSchedule(store, svc, cron, schedule.value, ParseLayout(scheduleTime).value, saveFails);
  }

  /** What starting schedule `s` at time `t` does: the job is registered under the next
      cron id; then the schedule is saved, and only a saved schedule's row id is mapped to
      that cron id (a failed save leaves the job registered and unmapped). */
  ghost predicate Started(db: Tables, cronMap: map<int, int>, entries: map<int, Entry>, lastId: int,
                          s: Schedule, t: ValidTime, saveFails: bool,
                          db': Tables, cronMap': map<int, int>, entries': map<int, Entry>, lastId': int,
                          resp: Response)
  {
    var entryId := lastId + 1;
    var saved := SaveScheduleRow(db, s, saveFails);
    && lastId' == entryId
    && entries' == entries[entryId := Entry(SpecOf(t), s)]
    && db' == saved.0
    && (saved.1.None? ==> resp == Silent && cronMap' == cronMap)
    && (saved.1.Some? ==>
          resp == Response(OK, Text("Zigbee schedule for " + s.ieeeName + " created"), None)
          && cronMap' == cronMap[saved.1.value := entryId])
  }

  /** The second half of `scheduleHandler`: `AddFunc` first, `SaveScheduleData` second. */
  method StartSchedule(store: Store, svc: CronService, cron: Cron, s: Schedule, t: ValidTime, saveFails: bool)
    returns (resp: Response)
    requires store.Valid() && cron.Valid() && s.cronTime == CronString(t)
    modifies store`db, svc`scheduleCronMap, cron`entries, cron`lastId
    ensures store.Valid() && cron.Valid()
    ensures Started(old(store.db), old(svc.scheduleCronMap), old(cron.entries), old(cron.lastId),
                    s, t, saveFails, store.db, svc.scheduleCronMap, cron.entries, cron.lastId, resp)
  {
    CronStringParses(t);
    var entryId, ok := cron.AddFunc(s.cronTime, s);
    var scheduleId := store.SaveScheduleData(s, saveFails);
    if scheduleId == -1 {
      return Silent;
    }
    svc.scheduleCronMap := svc.scheduleCronMap[scheduleId := entryId];
    return Response(OK, Text("Zigbee schedule for " + s.ieeeName + " created"), None);
  }

  /** After a restart, start-up re-arms a schedule this handler saved: the schedules read
      back after the save are the ones before plus this one, start-up arms them all, and the
      last job fires on the spec of the schedule's time, sends the command the handler's job
      sends, and is the cron entry its new row id maps to. */
  lemma RestartRearmsSchedule(db: Tables, codec: Codec, s: Schedule, t: ValidTime, xs: seq<Schedule>,
                              cronMap: map<int, int>, parseTime: string -> Option<ValidTime>)
    requires LoadSchedules(db, codec) == Some(xs)
    requires codec.decodeExpose(s.command) == Some(s.expose)
    requires SaveScheduleRow(db, s, false).1.Some?
    requires s.cronTime == CronString(t) && parseTime(s.timeMark) == Some(t)
    requires forall j :: 0 <= j < |xs| ==> parseTime(xs[j].timeMark).Some?
    ensures var (u, r) := SaveScheduleRow(db, s, false);
      && LoadSchedules(u, codec).Some?
      && var b := Boot0(cronMap, LoadSchedules(u, codec).value, parseTime);
      && b.ok && |b.entries| == |xs| + 1
      && b.entries[|xs|].spec == SpecOf(t)
      && b.entries[|xs|].job.id == r.value && b.entries[|xs|].job.cronTime == s.cronTime
      && CronMessage(b.entries[|xs|].job) == CronMessage(s)
      && r.value in b.cronMap && b.cronMap[r.value] == |xs| + 1
  {
    var (u, r) := SaveScheduleRow(db, s, false);
    SaveThenLoadSchedules(db, codec, s, xs);
    var ys := LoadSchedules(u, codec).value;
    assert ys[|xs|] == s.(id := r.value, deviceId := DeviceId(db, s.ieeeName).value, cronTime := "");
    assert forall j :: 0 <= j < |ys| ==> parseTime(ys[j].timeMark).Some? by {
      forall j | 0 <= j < |ys| ensures parseTime(ys[j].timeMark).Some? {
        if j < |xs| { assert ys[j] == xs[j]; }
      }
    }
    BootOutcome(cronMap, ys, parseTime);
    BootMap(cronMap, ys, parseTime);
    var b := Boot0(cronMap, ys, parseTime);
    assert ArmedAt(b.entries, |xs|, ys, 0, parseTime, EntryFor);
  }

  /** `scheduleDeleteHandler`: an id that is not an integer is 500 and one the map does not
      hold is 404; otherwise its cron entry is removed and its row deleted (a failed delete
      is 500). The map keeps the id, so deleting it again finds it and answers 200. */
  method ScheduleDeleteHandler(store: Store, svc: CronService, cron: Cron, id: string, deleteFails: bool)
    returns (resp: Response)
    requires store.Valid() && cron.Valid()
    modifies store`db, cron`entries
    ensures store.Valid() && cron.Valid()
    ensures Atoi(id).None? ==>
              resp == Response(InternalServerError, NoBody, None)
              && store.db == old(store.db) && cron.entries == old(cron.entries)
    ensures Atoi(id).Some? && Atoi(id).value !in svc.scheduleCronMap ==>
              resp == Response(NotFound, NoBody, None)
              && store.db == old(store.db) && cron.entries == old(cron.entries)
    ensures Atoi(id).Some? && Atoi(id).value in svc.scheduleCronMap ==>
              var n := Atoi(id).value;
              && cron.entries == old(cron.entries) - {svc.scheduleCronMap[n]}
              && store.db == (if deleteFails then old(store.db) else DeleteScheduleRows(old(store.db), n))
              && resp == Response(if deleteFails then InternalServerError else OK, NoBody, None)
  {
    var n := Atoi(id);
    if n.None? {
      return Response(InternalServerError, NoBody, None);
    }
    if n.value !in svc.scheduleCronMap {
      return Response(NotFound, NoBody, None);
    }
    cron.Remove(svc.scheduleCronMap[n.value]);
    var failed := store.DeleteSchedule(n.value, deleteFails);
    if failed {
      return Response(InternalServerError, NoBody, None);
    }
    return Response(OK, NoBody, None);
  }

  /** The scenario `scenarioCreateHandler` builds from its form: telemetry from `name`
      triggers `{actionProperty: value}` on the set topic of `actionName`. */
  function FormScenario(name: string, property: string, operator: string, valueCheck: string,
                        actionName: string, actionProperty: string, valueSet: string): (s: Scenario)
    ensures s.id == 0 && s.ieeeNameInitDevice == name
    ensures SetTopicDevice(s.publishTopic) == Some(actionName)
    ensures s.actionPayload.Keys == {actionProperty} && Get(s.actionPayload, actionProperty) == Str(valueSet)
  {
    SetTopicDeviceOfSetTopic(actionName);
    NewScenario(name, property, operator, valueCheck, SetTopic(actionName), Single(actionProperty, Str(valueSet)))
  }

  /** `scenarioCreateHandler`: save the scenario; 201 when it is stored, 500 when its source
      device is unknown or the insert fails. */
  method ScenarioCreateHandler(store: Store, codec: Codec, name: string, property: string, operator: string,
                               valueCheck: string, actionName: string, actionProperty: string, valueSet: string,
                               saveFails: bool)
    returns (resp: Response)
    requires store.Valid()
    modifies store`db, store`scenarios
    ensures store.Valid()
    ensures var s := FormScenario(name, property, operator, valueCheck, actionName, actionProperty, valueSet);
      var saved := SaveScenarioRow(old(store.db), codec, s, saveFails);
      && store.db == saved.0
      && (saved.1.None? ==>
            resp == Response(InternalServerError, NoBody, None) && store.scenarios == old(store.scenarios))
      && (saved.1.Some? ==>
            resp == Response(Created, Text("Scenario created"), None)
            && store.scenarios == old(store.scenarios) + [s.(id := saved.1.value)])
  {
    var s := FormScenario(name, property, operator, valueCheck, actionName, actionProperty, valueSet);
    var id := store.SaveScenario(codec, s, saveFails);
    if id == -1 {
      return Response(InternalServerError, NoBody, None);
    }
    return Response(Created, Text("Scenario created"), None);
  }

  /** `scenarioDeleteHandler`: the handler ignores `Atoi`'s verdict and hands the id to
      `DeleteScenario` as text, which the database converts to the id column's type
      (`readId`: PostgreSQL's own integer input, which is not `Atoi`); text it cannot
      convert makes it reject the statement (500). A failed delete or reload is 500,
      anything else 200. */
  method ScenarioDeleteHandler(store: Store, codec: Codec, id: string, readId: string -> Option<int>,
                               deleteFails: bool, queryFails: bool)
    returns (resp: Response)
    requires store.Valid()
    modifies store`db, store`scenarios
    ensures store.Valid()
    ensures readId(id).None? ==>
              resp == Response(InternalServerError, NoBody, None)
              && store.db == old(store.db) && store.scenarios == old(store.scenarios)
    ensures readId(id).Some? ==>
              var n := readId(id).value;
              && store.db == (if deleteFails then old(store.db) else DeleteScenarioRows(old(store.db), n))
              && (resp == Response(OK, NoBody, None) || resp == Response(InternalServerError, NoBody, None))
              && (resp == Response(OK, NoBody, None) <==>
                    !deleteFails && !queryFails && LoadScenarios(store.db, codec).Some?)
              && (resp != Response(OK, NoBody, None) ==> store.scenarios == old(store.scenarios))
              && (resp == Response(OK, NoBody, None) ==>
                    store.scenarios == LoadScenarios(store.db, codec).value
                    && forall k :: 0 <= k < |store.scenarios| ==> store.scenarios[k].id != n)
  {
    var n := readId(id);
    if n.None? {
      return Response(InternalServerError, NoBody, None);
    }
    var failed := store.DeleteScenario(codec, n.value, deleteFails, queryFails);
    if failed {
      return Response(InternalServerError, NoBody, None);
    }
    return Response(OK, NoBody, None);
  }

  /** The request `permitJoinHandler` publishes: open the network for 50 seconds. */
  const PermitJoinMessage := Message(PermitJoinTopic, Single("time", Number(50.0)))

  /** `permitJoinHandler`: publish the permit-join request; a failed publish (client down,
      or `fails`) is 500. */
  method PermitJoinHandler(client: Client, fails: bool) returns (resp: Response)
    modifies client`outbox
    ensures client.connected && !fails ==>
              resp == Silent && client.outbox == old(client.outbox) + [PermitJoinMessage]
    ensures !(client.connected && !fails) ==>
              resp == Error("Failed to send MQTT message", InternalServerError)
              && client.outbox == old(client.outbox)
  {
    var ok := client.Publish(PermitJoinMessage.topic, PermitJoinMessage.payload, fails);
    if !ok {
      return Error("Failed to send MQTT message", InternalServerError);
    }
    return Silent;
  }
}
