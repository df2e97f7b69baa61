/** The scenario loop of the telemetry callback (mqtt_service/mqtt_client.go): which
    scenarios a telemetry payload fires, as a function of the scenario list. */
module Rules {
  import opened Wrappers
  import opened Json
  import opened Models
  import opened Bus

  /** A scenario reacts only to telemetry of its source device. */
  predicate Triggers(s: Scenario, address: string)
  {
    s.ieeeNameInitDevice == address
  }

  /** The duplicate guard as written: SOME key of the action payload already has its value
      in the telemetry (a missing key reads as JSON null). */
  predicate GuardHit(action: Payload, m: Payload)
  {
    exists k :: k in action && Get(m, k) == action[k]
  }

  /** The message a scenario publishes. */
  function Action(s: Scenario): Message
  {
    Message(s.publishTopic, s.actionPayload)
  }

  /** The messages the loop publishes for telemetry `m` of device `address` while
      publishing succeeds: the actions of the triggering scenarios in list order, up to
      the first triggering scenario whose guard hits, which ends the whole loop. */
  function RuleMessages(scs: seq<Scenario>, address: string, m: Payload): seq<Message>
  {
    if scs == [] then []
    else if !Triggers(scs[0], address) then RuleMessages(scs[1..], address, m)
    else if GuardHit(scs[0].actionPayload, m) then []
    else [Action(scs[0])] + RuleMessages(scs[1..], address, m)
  }

  /** One step of the loop, at position `i`: a scenario of another source is passed over, a
      hit guard ends the loop, and any other scenario publishes its action and goes on. */
  lemma RuleMessagesAt(scs: seq<Scenario>, i: nat, address: string, m: Payload)
    requires i < |scs|
    ensures RuleMessages(scs[i..], address, m)
            == if !Triggers(scs[i], address) then RuleMessages(scs[i + 1..], address, m)
               else if GuardHit(scs[i].actionPayload, m) then []
               else [Action(scs[i])] + RuleMessages(scs[i + 1..], address, m)
  {
    assert scs[i..][0] == scs[i] && scs[i..][1..] == scs[i + 1..];
  }

  /** The scenario loop from position `i` as it runs, with `out` handed over so far and `k`
      publishes made: a scenario of another source is passed over; a hit guard, or a publish
      that fails (client down, or `fails(k)`), ends the loop; any other publish hands over
      the scenario's action. */
  function ScenarioLoop(out: seq<Message>, scs: seq<Scenario>, i: nat, k: nat, address: string, m: Payload,
                        connected: bool, fails: nat -> bool): seq<Message>
    requires i <= |scs|
    decreases |scs| - i
  {
    if i == |scs| then out
    else if !Triggers(scs[i], address) then ScenarioLoop(out, scs, i + 1, k, address, m, connected, fails)
    else if GuardHit(scs[i].actionPayload, m) || !connected || fails(k) then out
    else ScenarioLoop(out + [Action(scs[i])], scs, i + 1, k + 1, address, m, connected, fails)
  }

  /** The loop as it runs hands over what the rule function publishes, up to the first
      publish that fails. */
  lemma {:induction false} ScenarioLoopDelivers(out: seq<Message>, scs: seq<Scenario>, i: nat, k: nat, address: string,
                                                m: Payload, connected: bool, fails: nat -> bool)
    requires i <= |scs|
    ensures ScenarioLoop(out, scs, i, k, address, m, connected, fails)
            == out + DeliveredFrom(RuleMessages(scs[i..], address, m), k, connected, fails)
    decreases |scs| - i
  {
    var here := RuleMessages(scs[i..], address, m);
    if i == |scs| {
      assert here == [] by { assert scs[i..] == []; }
      assert out + [] == out;
    } else {
      var rest := RuleMessages(scs[i + 1..], address, m);
      RuleMessagesAt(scs, i, address, m);
      if !Triggers(scs[i], address) {
        ScenarioLoopDelivers(out, scs, i + 1, k, address, m, connected, fails);
      } else if GuardHit(scs[i].actionPayload, m) {
        assert here == [];
        assert out + [] == out;
      } else {
        assert here == [Action(scs[i])] + rest;
        DeliveredFromCons(Action(scs[i]), rest, k, connected, fails);
        if !connected || fails(k) {
          assert out + [] == out;
        } else {
          var d := DeliveredFrom(rest, k + 1, connected, fails);
          calc {
            ScenarioLoop(out, scs, i, k, address, m, connected, fails);
            ScenarioLoop(out + [Action(scs[i])], scs, i + 1, k + 1, address, m, connected, fails);
            { ScenarioLoopDelivers(out + [Action(scs[i])], scs, i + 1, k + 1, address, m, connected, fails); }
            (out + [Action(scs[i])]) + d;
            out + ([Action(scs[i])] + d);
            out + DeliveredFrom(here, k, connected, fails);
          }
        }
      }
    }
  }

  /** The actions of every triggering scenario, in list order: what the loop would publish
      if no guard ever hit. */
  function Actions(scs: seq<Scenario>, address: string): seq<Message>
  {
    if scs == [] then []
    else (if Triggers(scs[0], address) then [Action(scs[0])] else []) + Actions(scs[1..], address)
  }

  /** Every published message is the action of a scenario of the list that the telemetry's
      device triggers and whose guard does not hit. */
  lemma {:induction false} RuleMessagesSound(scs: seq<Scenario>, address: string, m: Payload)
    ensures forall msg :: msg in RuleMessages(scs, address, m) ==>
      exists j :: 0 <= j < |scs| && Triggers(scs[j], address) && !GuardHit(scs[j].actionPayload, m)
                  && msg == Action(scs[j])
  {
    if scs != [] {
      RuleMessagesSound(scs[1..], address, m);
      forall msg | msg in RuleMessages(scs, address, m)
        ensures exists j :: 0 <= j < |scs| && Triggers(scs[j], address) && !GuardHit(scs[j].actionPayload, m)
                            && msg == Action(scs[j])
      {
        if msg in RuleMessages(scs[1..], address, m) {
          var j :| 0 <= j < |scs[1..]| && Triggers(scs[1..][j], address)
                   && !GuardHit(scs[1..][j].actionPayload, m) && msg == Action(scs[1..][j]);
          assert scs[1..][j] == scs[j + 1];
        }
      }
    }
  }

  /** When no triggering scenario's guard hits, every triggering scenario publishes, once,
      in list order. */
  lemma {:induction false} RuleMessagesComplete(scs: seq<Scenario>, address: string, m: Payload)
    requires forall j :: 0 <= j < |scs| && Triggers(scs[j], address) ==> !GuardHit(scs[j].actionPayload, m)
    ensures RuleMessages(scs, address, m) == Actions(scs, address)
  {
    if scs != [] {
      assert forall j :: 0 <= j < |scs[1..]| ==> scs[1..][j] == scs[j + 1];
      RuleMessagesComplete(scs[1..], address, m);
    }
  }

  /** A triggering scenario whose guard hits ends the loop: what is published is what the
      scenarios before it publish, whatever comes after it. */
  lemma {:induction false} GuardEndsLoop(scs: seq<Scenario>, address: string, m: Payload, i: nat)
    requires i < |scs| && Triggers(scs[i], address) && GuardHit(scs[i].actionPayload, m)
    ensures RuleMessages(scs, address, m) == RuleMessages(scs[..i], address, m)
  {
    if i > 0 {
      assert scs[1..][i - 1] == scs[i];
      assert scs[1..][..i - 1] == scs[..i][1..];
      GuardEndsLoop(scs[1..], address, m, i - 1);
    }
  }

  /** Scenarios of other source devices publish nothing and do not stop the loop. */
  lemma {:induction false} OtherSourcesIgnored(scs: seq<Scenario>, s: Scenario, address: string, m: Payload, i: nat)
    requires i <= |scs| && !Triggers(s, address)
    ensures RuleMessages(scs[..i] + [s] + scs[i..], address, m) == RuleMessages(scs, address, m)
  {
    if i > 0 {
      var xs := scs[..i] + [s] + scs[i..];
      assert xs[0] == scs[0];
      assert xs[1..] == scs[1..][..i - 1] + [s] + scs[1..][i - 1..];
      OtherSourcesIgnored(scs[1..], s, address, m, i - 1);
    } else {
      assert scs[..i] + [s] + scs[i..] == [s] + scs;
      assert ([s] + scs)[1..] == scs;
    }
  }

  /** `s` and `t` differ at most in the fields the loop never reads. */
  predicate SameRule(s: Scenario, t: Scenario)
  {
    s.ieeeNameInitDevice == t.ieeeNameInitDevice && s.publishTopic == t.publishTopic
    && s.actionPayload == t.actionPayload
  }

  /** The condition fields (property, operator, comparison value) and the ids are never
      read: scenarios that differ only there publish the same. */
  lemma {:induction false} ConditionIgnored(scs: seq<Scenario>, tcs: seq<Scenario>, address: string, m: Payload)
    requires |scs| == |tcs| && forall j :: 0 <= j < |scs| ==> SameRule(scs[j], tcs[j])
    ensures RuleMessages(scs, address, m) == RuleMessages(tcs, address, m)
  {
    if scs != [] {
      assert forall j :: 0 <= j < |scs[1..]| ==> scs[1..][j] == scs[j + 1] && tcs[1..][j] == tcs[j + 1];
      ConditionIgnored(scs[1..], tcs[1..], address, m);
    }
  }

  /** A stricter guard, skipping an action only when EVERY action key already has its value. */
  predicate GuardAll(action: Payload, m: Payload)
  {
    forall k :: k in action ==> Get(m, k) == action[k]
  }

  /** The guard as written hits at least as often as the stricter one: whenever `GuardAll`
      holds for a non-empty action, so does `GuardHit`. */
  lemma GuardAllImpliesHit(action: Payload, m: Payload)
    requires action != map[] && GuardAll(action, m)
    ensures GuardHit(action, m)
  {
    var k :| k in action;
    assert Get(m, k) == action[k];
  }

  /** The written guard can hit where `GuardAll` does not: one key already at its value
      suppresses the whole action. */
  lemma GuardHitWithoutAll()
    ensures var action := map["state" := Str("ON"), "brightness" := Number(254.0)];
      var m := map["state" := Str("ON")];
      GuardHit(action, m) && !GuardAll(action, m)
  {
    var action := map["state" := Str("ON"), "brightness" := Number(254.0)];
    var m := map["state" := Str("ON")];
    assert Get(m, "state") == action["state"];
    assert Get(m, "brightness") == Null;
  }

  /** A soil sensor driving a valve: the valve scenario fires on the first sensor report and
      not on a report that already shows the valve's state. */
  lemma PlantSensorExample()
    ensures var valve := Scenario(1, "plant-sensor-1", 1, "soil_moisture", "<", "20",
                                  "zigbee2mqtt/valve-1/set", map["state" := Str("ON")]);
      && RuleMessages([valve], "plant-sensor-1", map["soil_moisture" := Number(12.0)])
         == [Message("zigbee2mqtt/valve-1/set", map["state" := Str("ON")])]
      && RuleMessages([valve], "plant-sensor-1", map["soil_moisture" := Number(12.0), "state" := Str("ON")]) == []
  {
    var action := map["state" := Str("ON")];
    var m1 := map["soil_moisture" := Number(12.0)];
    var m2 := map["soil_moisture" := Number(12.0), "state" := Str("ON")];
    assert Get(m1, "state") == Null;
    assert !GuardHit(action, m1);
    assert Get(m2, "state") == Str("ON");
    assert GuardHit(action, m2);
  }

  /** A hit guard also silences later, unrelated scenarios of the same source device, whose
      actions would otherwise be published. */
  lemma GuardSilencesLaterScenarios()
    ensures var first := Scenario(1, "plant-sensor-1", 1, "soil_moisture", "<", "20",
                                  "zigbee2mqtt/valve-1/set", map["state" := Str("ON")]);
      var second := Scenario(2, "plant-sensor-1", 1, "soil_moisture", "<", "20",
                             "zigbee2mqtt/lamp-1/set", map["brightness" := Number(254.0)]);
      RuleMessages([first, second], "plant-sensor-1", map["state" := Str("ON")]) == []
      && Actions([first, second], "plant-sensor-1") != []
  {
    var m := map["state" := Str("ON")];
    assert Get(m, "state") == Str("ON");
  }
}
