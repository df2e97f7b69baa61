/** The hub's entities (models/zigbee_device.go, models/process.go) and their constructors. */
module Models {
  import opened Wrappers
  import opened Json

  /** One capability descriptor of a device (`Expose`). Numeric bounds are float64 in
      the source; `values` is the enumerated value list. */
  datatype Expose = Expose(
    exposeType: string,
    name: string,
    property: string,
    access: int,
    description: string,
    unit: string,
    valueMax: real,
    valueMin: real,
    valueStep: real,
    values: seq<Value>)

  /** The device definition announced on discovery: a description and its capabilities. */
  datatype Definition = Definition(description: string, exposes: seq<Expose>)

  /** A discovered device with its live telemetry snapshot `exposesData`. */
  datatype ZigbeeDevice = ZigbeeDevice(
    friendlyName: string,
    ieeeAddress: string,
    deviceType: string,
    manufacturer: string,
    modelId: string,
    definition: Definition,
    exposesData: Payload)

  /** A time-triggered command: set `expose.property` of device `ieeeName` to `commandData`. */
  datatype Schedule = Schedule(
    id: int,
    deviceId: int,
    ieeeName: string,
    command: string,
    commandData: string,
    timeMark: string,
    cronTime: string,
    expose: Expose)

  /** A condition-action rule: telemetry from `ieeeNameInitDevice` triggers a publish of
      `actionPayload` to `publishTopic`. */
  datatype Scenario = Scenario(
    id: int,
    ieeeNameInitDevice: string,
    deviceId: int,
    exposesProperty: string,
    operator: string,
    exposesValue: string,
    publishTopic: string,
    actionPayload: Payload)

  /** The JSON codec, left opaque: each decoder is partial (`None` is an unmarshal
      error), the payload encoder is total (marshalling decoded JSON never fails). */
  datatype Codec = Codec(
    decodePayload: string -> Option<Payload>,
    encodePayload: Payload -> string,
    decodeDevices: string -> Option<seq<ZigbeeDevice>>,
    decodeExpose: string -> Option<Expose>)

  /** `NewSchedule`: nil when `command` is not the JSON of an `Expose`; otherwise a schedule
      holding the arguments and the decoded expose, with ids still zero. */
  function NewSchedule(codec: Codec, ieeeName: string, command: string, commandData: string,
                       timeMark: string, cronTime: string): (r: Option<Schedule>)
    ensures r.None? <==> codec.decodeExpose(command).None?
    ensures r.Some? ==> r.value.id == 0 && r.value.deviceId == 0
    ensures r.Some? ==> r.value.ieeeName == ieeeName && r.value.command == command
                        && r.value.commandData == commandData && r.value.timeMark == timeMark
                        && r.value.cronTime == cronTime
    ensures r.Some? ==> r.value.expose == codec.decodeExpose(command).value
  {
    match codec.decodeExpose(command)
    case None => None
    case Some(e) => Some(Schedule(0, 0, ieeeName, command, commandData, timeMark, cronTime, e))
  }

  /** `NewScenario`: never fails; stores its six arguments, ids stay zero until saved. */
  function NewScenario(ieeeName: string, exposeProperty: string, operator: string,
                       exposeValue: string, publishTopic: string, actionPayload: Payload): (s: Scenario)
    ensures s.id == 0 && s.deviceId == 0
    ensures s.ieeeNameInitDevice == ieeeName && s.exposesProperty == exposeProperty
    ensures s.operator == operator && s.exposesValue == exposeValue
    ensures s.publishTopic == publishTopic && s.actionPayload == actionPayload
  {
    Scenario(0, ieeeName, 0, exposeProperty, operator, exposeValue, publishTopic, actionPayload)
  }
}
