/** Device discovery and telemetry ingestion (mqtt_service/mqtt_client.go): the discovery
    handler that saves the announced devices and registers the new ones, and the
    per-device telemetry callback that records a payload and runs the scenarios. */
module Ingestion {
  import opened Wrappers
  import opened Json
  import opened Models
  import opened Bus
  import opened Tables
  import opened TableFacts
  import opened Database
  import opened Rules

  // ---------------------------------------------------------------------------------
  // Registration

  /** A device as registered: with its newest stored payload when one can be read back. */
  function Preloaded(db: Tables, codec: Codec, d: ZigbeeDevice): (r: ZigbeeDevice)
    ensures r.(exposesData := d.exposesData) == d
    ensures ExposesDataFromDevice(db, codec, d.ieeeAddress).Some? ==>
              r.exposesData == ExposesDataFromDevice(db, codec, d.ieeeAddress).value
    ensures ExposesDataFromDevice(db, codec, d.ieeeAddress).None? ==> r == d
  {
    match ExposesDataFromDevice(db, codec, d.ieeeAddress)
    case Some(m) => d.(exposesData := m)
    case None => d
  }

  /** The registry after the registration loop, and the devices it added, in order. */
  datatype Registration = Registration(devMap: map<string, ZigbeeDevice>, added: seq<ZigbeeDevice>)

  /** A preload that leaves the friendly name alone, as `Preloaded` does. */
  ghost predicate KeepsName(load: ZigbeeDevice -> ZigbeeDevice)
  {
    forall d :: load(d).friendlyName == d.friendlyName
  }

  /** The registration loop from position `i`, with `acc` the devices added so far: a device
      whose friendly name is not a key yet is preloaded with `load` and added; any other is
      skipped, so the first of several devices with one name wins. */
  function RegisterFrom(devMap: map<string, ZigbeeDevice>, acc: seq<ZigbeeDevice>, ds: seq<ZigbeeDevice>, i: nat,
                        load: ZigbeeDevice -> ZigbeeDevice): Registration
    requires i <= |ds|
    decreases |ds| - i
  {
    if i == |ds| then Registration(devMap, acc)
    else if ds[i].friendlyName in devMap then RegisterFrom(devMap, acc, ds, i + 1, load)
    else
      var d := load(ds[i]);
      RegisterFrom(devMap[ds[i].friendlyName := d], acc + [d], ds, i + 1, load)
  }

  /** `Preloaded` over fixed tables, as the function the registration loop applies. */
  function Preload(db: Tables, codec: Codec): ZigbeeDevice -> ZigbeeDevice
  {
    d => Preloaded(db, codec, d)
  }

  /** The registration loop of `handleDevices` over the tables as saved. */
  function Register(devMap: map<string, ZigbeeDevice>, ds: seq<ZigbeeDevice>, db: Tables, codec: Codec): Registration
  {
    RegisterFrom(devMap, [], ds, 0, Preload(db, codec))
  }

  function Names(ds: seq<ZigbeeDevice>, i: nat): set<string>
  {
    set j | i <= j < |ds| :: ds[j].friendlyName
  }

  /** The telemetry topic of each device, in order. */
  function DeviceTopics(ds: seq<ZigbeeDevice>): (ts: seq<string>)
    ensures |ts| == |ds|
  {
    if ds == [] then [] else DeviceTopics(ds[..|ds| - 1]) + [DeviceTopic(ds[|ds| - 1].friendlyName)]
  }

  /** The `k`th topic is the telemetry topic of the `k`th device. */
  lemma {:induction false} DeviceTopicsAt(ds: seq<ZigbeeDevice>, k: nat)
    requires k < |ds|
    ensures DeviceTopics(ds)[k] == DeviceTopic(ds[k].friendlyName)
  {
    var front := ds[..|ds| - 1];
    if k < |front| {
      DeviceTopicsAt(front, k);
    }
  }

  lemma PreloadKeepsName(db: Tables, codec: Codec)
    ensures KeepsName(Preload(db, codec))
  {
    forall d ensures Preload(db, codec)(d).friendlyName == d.friendlyName {
      assert Preload(db, codec)(d) == Preloaded(db, codec, d);
    }
  }

  /** The registry's keys grow by exactly the names of the list. */
  lemma {:induction false} RegisterKeys(devMap: map<string, ZigbeeDevice>, acc: seq<ZigbeeDevice>,
                                        ds: seq<ZigbeeDevice>, i: nat, load: ZigbeeDevice -> ZigbeeDevice)
    requires i <= |ds|
    ensures RegisterFrom(devMap, acc, ds, i, load).devMap.Keys == devMap.Keys + Names(ds, i)
    decreases |ds| - i
  {
    if i < |ds| {
      assert Names(ds, i) == {ds[i].friendlyName} + Names(ds, i + 1);
      if ds[i].friendlyName in devMap {
        RegisterKeys(devMap, acc, ds, i + 1, load);
      } else {
        var d := load(ds[i]);
        RegisterKeys(devMap[ds[i].friendlyName := d], acc + [d], ds, i + 1, load);
      }
    } else {
      assert Names(ds, i) == {};
    }
  }

  /** What each registered name maps to and which devices count as added: known names keep
      their entry, the devices added before stay in front, and every device added from
      position `i` on is new, added once, stored under its name and is the preloaded form of
      a device of the list. */
  ghost predicate RegisteredWell(devMap: map<string, ZigbeeDevice>, acc: seq<ZigbeeDevice>, ds: seq<ZigbeeDevice>,
                                 i: nat, load: ZigbeeDevice -> ZigbeeDevice, r: Registration)
    requires i <= |ds|
  {
    && (forall n :: n in devMap ==> n in r.devMap && r.devMap[n] == devMap[n])
    && |acc| <= |r.added| && r.added[..|acc|] == acc
    && (forall k :: |acc| <= k < |r.added| ==>
          r.added[k].friendlyName !in devMap
          && r.added[k].friendlyName in r.devMap && r.devMap[r.added[k].friendlyName] == r.added[k]
          && exists j :: i <= j < |ds| && r.added[k] == load(ds[j]))
    && (forall k, l :: |acc| <= k < l < |r.added| ==> r.added[k].friendlyName != r.added[l].friendlyName)
  }

  lemma {:induction false} RegisterFromWell(devMap: map<string, ZigbeeDevice>, acc: seq<ZigbeeDevice>,
                                            ds: seq<ZigbeeDevice>, i: nat, load: ZigbeeDevice -> ZigbeeDevice)
    requires i <= |ds|
    requires KeepsName(load)
    ensures RegisteredWell(devMap, acc, ds, i, load, RegisterFrom(devMap, acc, ds, i, load))
    decreases |ds| - i
  {
    if i == |ds| {
      assert acc[..|acc|] == acc;
    } else if ds[i].friendlyName in devMap {
      RegisterFromWell(devMap, acc, ds, i + 1, load);
    } else {
      var d := load(ds[i]);
      var n := ds[i].friendlyName;
      assert d.friendlyName == n;
      var m', acc' := devMap[n := d], acc + [d];
      var r := RegisterFrom(m', acc', ds, i + 1, load);
      RegisterFromWell(m', acc', ds, i + 1, load);
      assert r.added[..|acc|] == acc' [..|acc|] == acc;
      assert r.added[|acc|] == acc'[|acc|] == d;
      forall x | x in devMap
        ensures x in r.devMap && r.devMap[x] == devMap[x]
      {
        assert x in m' && m'[x] == devMap[x];
      }
      forall k | |acc| <= k < |r.added|
        ensures r.added[k].friendlyName !in devMap
                && r.added[k].friendlyName in r.devMap && r.devMap[r.added[k].friendlyName] == r.added[k]
                && exists j :: i <= j < |ds| && r.added[k] == load(ds[j])
      {
        if k == |acc| {
          assert n in m';
        }
      }
      forall k, l | |acc| <= k < l < |r.added|
        ensures r.added[k].friendlyName != r.added[l].friendlyName
      {
        if k == |acc| {
          assert n in m' && r.added[l].friendlyName !in m';
        }
      }
    }
  }

  /** The registration loop keeps every known entry, adds each new name once, under the
      preloaded form of a device of the list. */
  lemma RegisterWell(devMap: map<string, ZigbeeDevice>, ds: seq<ZigbeeDevice>, db: Tables, codec: Codec)
    ensures RegisteredWell(devMap, [], ds, 0, Preload(db, codec), Register(devMap, ds, db, codec))
    ensures Register(devMap, ds, db, codec).devMap.Keys == devMap.Keys + Names(ds, 0)
  {
    PreloadKeepsName(db, codec);
    RegisterFromWell(devMap, [], ds, 0, Preload(db, codec));
    RegisterKeys(devMap, [], ds, 0, Preload(db, codec));
  }

  /** For a name that is new, the entry registered is the first device of the list with
      that name. */
  lemma {:induction false} RegisterFirstWins(devMap: map<string, ZigbeeDevice>, acc: seq<ZigbeeDevice>,
                                             ds: seq<ZigbeeDevice>, i: nat, load: ZigbeeDevice -> ZigbeeDevice, j: nat)
    requires i <= j < |ds|
    requires KeepsName(load)
    requires ds[j].friendlyName !in devMap
    requires forall k :: i <= k < j ==> ds[k].friendlyName != ds[j].friendlyName
    ensures ds[j].friendlyName in RegisterFrom(devMap, acc, ds, i, load).devMap
    ensures RegisterFrom(devMap, acc, ds, i, load).devMap[ds[j].friendlyName] == load(ds[j])
    decreases |ds| - i
  {
    var n := ds[j].friendlyName;
    if i < j {
      if ds[i].friendlyName in devMap {
        RegisterFirstWins(devMap, acc, ds, i + 1, load, j);
      } else {
        var d := load(ds[i]);
        RegisterFirstWins(devMap[ds[i].friendlyName := d], acc + [d], ds, i + 1, load, j);
      }
    } else {
      var d := load(ds[i]);
      var m' := devMap[n := d];
      RegisterFromWell(m', acc + [d], ds, i + 1, load);
      assert n in m';
    }
  }

  lemma {:induction false} RegisterKnown(devMap: map<string, ZigbeeDevice>, acc: seq<ZigbeeDevice>,
                                         ds: seq<ZigbeeDevice>, i: nat, load: ZigbeeDevice -> ZigbeeDevice)
    requires i <= |ds|
    requires Names(ds, i) <= devMap.Keys
    ensures RegisterFrom(devMap, acc, ds, i, load) == Registration(devMap, acc)
    decreases |ds| - i
  {
    if i < |ds| {
      assert ds[i].friendlyName in Names(ds, i);
      assert Names(ds, i + 1) <= Names(ds, i);
      RegisterKnown(devMap, acc, ds, i + 1, load);
    }
  }

  /** Announcing the same list again registers nothing new and changes no entry. */
  lemma RegisterIdempotent(devMap: map<string, ZigbeeDevice>, ds: seq<ZigbeeDevice>, db: Tables, codec: Codec)
    ensures var r := Register(devMap, ds, db, codec);
      Register(r.devMap, ds, db, codec) == Registration(r.devMap, [])
  {
    RegisterKeys(devMap, [], ds, 0, Preload(db, codec));
    RegisterKnown(Register(devMap, ds, db, codec).devMap, [], ds, 0, Preload(db, codec));
  }

  // ---------------------------------------------------------------------------------
  // The discovery handler

  /** `handleDevices`: decode the announced list (dropping an undecodable payload), save it,
      and on success make it the device list, register the devices whose friendly names are
      new, and subscribe one telemetry listener for each of them. */
  method HandleDevices(store: Store, client: Client, codec: Codec, raw: string, fault: SaveFault)
    returns (listeners: seq<DeviceListener>)
    requires store.Valid()
    modifies store`db, store`devices, store`devMap, client`subscriptions
    ensures store.Valid()
    ensures codec.decodeDevices(raw).None? ==>
              && store.db == old(store.db) && store.devices == old(store.devices) && store.devMap == old(store.devMap)
              && client.subscriptions == old(client.subscriptions) && listeners == []
    ensures codec.decodeDevices(raw).Some? ==>
              var ds := codec.decodeDevices(raw).value;
              var saved := SaveDevicesSpec(old(store.db), ds, fault);
              && store.db == saved.db
              && (saved.failed ==>
                    store.devices == old(store.devices) && store.devMap == old(store.devMap)
                    && client.subscriptions == old(client.subscriptions) && listeners == [])
              && (!saved.failed ==>
                    var reg := Register(old(store.devMap), ds, saved.db, codec);
                    && store.devices == ds && store.devMap == reg.devMap
                    && client.subscriptions == old(client.subscriptions) + DeviceTopics(reg.added)
                    && |listeners| == |reg.added|
                    && forall k :: 0 <= k < |listeners| ==> fresh(listeners[k]) && listeners[k].device == reg.added[k])
  {
    listeners := [];
    var decoded := codec.decodeDevices(raw);
    if decoded.None? {
      return;
    }
    var ds := decoded.value;
    var failed := store.SaveDevices(ds, fault);
    if failed {
      return;
    }
    store.devices := ds;
    listeners := RegisterDevices(store, client, codec, ds);
  }

  /** The registration loop of `handleDevices`: for each device whose friendly name is not
      a key of `DevMap`, read back its newest stored payload, add it, and subscribe a
      listener to its telemetry topic. */
  method RegisterDevices(store: Store, client: Client, codec: Codec, ds: seq<ZigbeeDevice>)
    returns (listeners: seq<DeviceListener>)
    modifies store`devMap, client`subscriptions
    ensures var reg := Register(old(store.devMap), ds, store.db, codec);
      && store.devMap == reg.devMap
      && client.subscriptions == old(client.subscriptions) + DeviceTopics(reg.added)
      && |listeners| == |reg.added|
      && forall k :: 0 <= k < |listeners| ==> fresh(listeners[k]) && listeners[k].device == reg.added[k]
  {
    ghost var load := Preload(store.db, codec);
    ghost var reg := RegisterFrom(store.devMap, [], ds, 0, load);
    ghost var pre := client.subscriptions;
    ghost var added: seq<ZigbeeDevice> := [];
    listeners := [];
    var i := 0;
    while i < |ds|
      invariant 0 <= i <= |ds|
      invariant RegisterFrom(store.devMap, added, ds, i, load) == reg
      invariant client.subscriptions == pre + DeviceTopics(added)
      invariant |listeners| == |added|
      invariant forall k :: 0 <= k < |listeners| ==> fresh(listeners[k]) && listeners[k].device == added[k]
    {
      if ds[i].friendlyName !in store.devMap {
        var l := RegisterNew(store, client, codec, ds, i, load, reg, pre, added);
        added := added + [l.device];
        listeners := listeners + [l];
      } else {
        assert RegisterFrom(store.devMap, added, ds, i, load) == RegisterFrom(store.devMap, added, ds, i + 1, load);
      }
      i := i + 1;
    }
  }

  /** One new device of the registration loop, as a step of `RegisterFrom`. */
  method RegisterNew(store: Store, client: Client, codec: Codec, ds: seq<ZigbeeDevice>, i: nat,
                     ghost load: ZigbeeDevice -> ZigbeeDevice, ghost reg: Registration,
                     ghost pre: seq<string>, ghost added: seq<ZigbeeDevice>)
    returns (l: DeviceListener)
    requires i < |ds| && ds[i].friendlyName !in store.devMap && load == Preload(store.db, codec)
    requires RegisterFrom(store.devMap, added, ds, i, load) == reg
    requires client.subscriptions == pre + DeviceTopics(added)
    modifies store`devMap, client`subscriptions
    ensures fresh(l)
    ensures RegisterFrom(store.devMap, added + [l.device], ds, i + 1, load) == reg
    ensures client.subscriptions == pre + DeviceTopics(added + [l.device])
  {
    l := ListenDevicesData(store, client, codec, ds[i]);
    TopicsSnoc(pre, added, l.device);
  }

  /** One new device of the registration loop: read back its newest stored payload,
      register it under its friendly name, and subscribe `listenDevicesData` for it. */
  method ListenDevicesData(store: Store, client: Client, codec: Codec, dev: ZigbeeDevice)
    returns (l: DeviceListener)
    modifies store`devMap, client`subscriptions
    ensures fresh(l) && l.device == Preload(store.db, codec)(dev)
    ensures store.devMap == old(store.devMap)[dev.friendlyName := l.device]
    ensures client.subscriptions == old(client.subscriptions) + [DeviceTopic(dev.friendlyName)]
  {
    var d, _ := store.GetExposesData(codec, dev);
    store.devMap := store.devMap[dev.friendlyName := d];
    client.Subscribe(DeviceTopic(dev.friendlyName));
    l := new DeviceListener(d);
  }

  lemma TopicsSnoc(pre: seq<string>, ds: seq<ZigbeeDevice>, d: ZigbeeDevice)
    ensures pre + DeviceTopics(ds + [d]) == (pre + DeviceTopics(ds)) + [DeviceTopic(d.friendlyName)]
  {
    assert (ds + [d])[..|ds|] == ds;
  }

  // ---------------------------------------------------------------------------------
  // The telemetry callback

  /** The duplicate guard loop over the action payload's keys, in no particular order (Go
      randomises map iteration): it stops at the first key whose value the telemetry
      already has. */
  method CheckGuard(action: Payload, m: Payload) returns (hit: bool)
    ensures hit == GuardHit(action, m)
  {
    var keys := action.Keys;
    while keys != {}
      invariant keys <= action.Keys
      invariant forall k :: k in action.Keys - keys ==> Get(m, k) != action[k]
      decreases keys
    {
      var k :| k in keys;
      if Get(m, k) == action[k] {
        return true;
      }
      keys := keys - {k};
    }
    return false;
  }

  /** The closure `listenDevicesData` subscribes for one device. The device it captured is
      a copy that each telemetry message updates in place. */
  class DeviceListener {
    var device: ZigbeeDevice

    constructor (d: ZigbeeDevice)
      ensures device == d
    {
      device := d;
    }

    /** One telemetry message: decode it (dropping an undecodable one), store the payload as
        the device's snapshot and in its history, and on a successful save publish it to the
        registry and run the scenarios of `Scenarios`, which ends at the first hit guard or
        failed publish. */
    method OnMessage(store: Store, client: Client, codec: Codec, raw: string, fault: TxFault,
                     fails: nat -> bool)
      returns (failed: bool)
      requires store.Valid()
      modifies this, store`db, store`devMap, client`outbox
      ensures store.Valid()
      ensures codec.decodePayload(raw).None? ==>
                && device == old(device) && store.db == old(store.db) && store.devMap == old(store.devMap)
                && client.outbox == old(client.outbox)
      ensures codec.decodePayload(raw).Some? ==>
                var m := codec.decodePayload(raw).value;
                && device == old(device).(exposesData := m)
                && Saved(store.db, failed) == SaveTelemetry(old(store.db), device.ieeeAddress, raw, fault)
                && (failed ==> store.devMap == old(store.devMap) && client.outbox == old(client.outbox))
                && (!failed ==>
                      && store.devMap == old(store.devMap)[device.friendlyName := device]
                      && client.outbox == old(client.outbox)
                           + Delivered(RuleMessages(store.scenarios, device.ieeeAddress, m), client.connected, fails))
    {
      var decoded := codec.decodePayload(raw);
      if decoded.None? {
        return false;
      }
      var m := decoded.value;
      device := device.(exposesData := m);
      failed := store.SavePublishedData(device, raw, fault);
      if failed {
        return;
      }
      store.devMap := store.devMap[device.friendlyName := device];
      RunScenarios(client, store.scenarios, device.ieeeAddress, m, fails);
    }
  }

  /** The scenario loop of the telemetry callback for payload `m` of device `address`: for
      each scenario of that source, check the guard, then publish the action; a hit guard or
      a failed publish returns from the whole callback, so what is handed over is the rule
      function's messages up to the first failed publish (`fails(k)`: the `k`th publish
      of the loop gets an error). The loop decodes the payload a second time, which gives
      the same `m`. */
  method RunScenarios(client: Client, scs: seq<Scenario>, address: string, m: Payload, fails: nat -> bool)
    modifies client`outbox
    ensures client.outbox == old(client.outbox) + Delivered(RuleMessages(scs, address, m), client.connected, fails)
  {
    ghost var goal := ScenarioLoop(client.outbox, scs, 0, 0, address, m, client.connected, fails);
    ScenarioLoopDelivers(client.outbox, scs, 0, 0, address, m, client.connected, fails);
    assert scs[0..] == scs;
    var i, sent := 0, 0;
    while i < |scs|
      invariant 0 <= i <= |scs|
      invariant ScenarioLoop(client.outbox, scs, i, sent, address, m, client.connected, fails) == goal
    {
      ghost var before := client.outbox;
      var stop, published := RunScenario(client, scs[i], address, m, fails(sent));
      if stop {
        return;
      }
      var sent' := if published then sent + 1 else sent;
      assert ScenarioLoop(before, scs, i, sent, address, m, client.connected, fails)
             == ScenarioLoop(client.outbox, scs, i + 1, sent', address, m, client.connected, fails);
      i, sent := i + 1, sent';
    }
  }

  /** The body of the scenario loop for one scenario `s`: one of another source is passed
      over; otherwise a hit guard stops the loop, and so does a publish of the action that
      fails (`fails`); a publish that goes through hands the action over. */
  method RunScenario(client: Client, s: Scenario, address: string, m: Payload, fails: bool)
    returns (stop: bool, published: bool)
    modifies client`outbox
    ensures !Triggers(s, address) ==> !stop && !published
    ensures Triggers(s, address) && GuardHit(s.actionPayload, m) ==> stop && !published
    ensures Triggers(s, address) && !GuardHit(s.actionPayload, m) ==>
              published == (client.connected && !fails) && stop == !published
    ensures published ==> client.outbox == old(client.outbox) + [Action(s)]
    ensures !published ==> client.outbox == old(client.outbox)
  {
    if s.ieeeNameInitDevice != address {
      return false, false;
    }
    var hit := CheckGuard(s.actionPayload, m);
    if hit {
      return true, false;
    }
    published := client.Publish(s.publishTopic, s.actionPayload, fails);
    stop := !published;
  }
}
