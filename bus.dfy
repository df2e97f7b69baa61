/** The MQTT client as the hub uses it: fire-and-forget publishes and topic subscriptions.
    The broker itself is not modelled; a publish either is handed over (it joins the
    outbox) or fails, because the client is not connected or because the token reports
    an error (a timeout, a broken connection), which the caller says per publish. */
module Bus {
  import opened Wrappers
  import opened Json

  const Prefix := "zigbee2mqtt/"
  const SetSuffix := "/set"

  /** The bridge topic that announces the device list. */
  const DevicesTopic := "zigbee2mqtt/bridge/devices"

  /** The bridge topic that opens the network for joining. */
  const PermitJoinTopic := "zigbee2mqtt/bridge/request/permit_join"

  /** `zigbee2mqtt/<name>`: where a device reports its state. */
  function DeviceTopic(name: string): string { Prefix + name }

  /** `zigbee2mqtt/<name>/set`: where a device takes commands. */
  function SetTopic(name: string): string { Prefix + name + SetSuffix }

  /** The device a command topic addresses, if it is one. */
  function SetTopicDevice(topic: string): Option<string>
  {
    if |topic| >= |Prefix| + |SetSuffix| && topic[..|Prefix|] == Prefix
       && topic[|topic| - |SetSuffix|..] == SetSuffix
    then Some(topic[|Prefix|..|topic| - |SetSuffix|])
    else None
  }

  /** The command topic names its device: reading the device back gives it, so two
      devices never share a command topic. */
  lemma SetTopicDeviceOfSetTopic(name: string)
    ensures SetTopicDevice(SetTopic(name)) == Some(name)
  {
    var t := SetTopic(name);
    assert t == Prefix + (name + SetSuffix);
    assert t[..|Prefix|] == Prefix;
    assert t[|t| - |SetSuffix|..] == SetSuffix;
    assert t[|Prefix|..|t| - |SetSuffix|] == name;
  }

  /** A message handed to the broker: topic and decoded JSON payload. */
  datatype Message = Message(topic: string, payload: Payload)

  /** What a run of publishes that stops at its first failure hands over, for the messages
      `msgs` whose first is attempt number `k` of the run: attempt `k` fails when the client
      is down or `fails(k)`. */
  function DeliveredFrom(msgs: seq<Message>, k: nat, connected: bool, fails: nat -> bool): seq<Message>
    decreases |msgs|
  {
    if msgs == [] || !connected || fails(k) then []
    else [msgs[0]] + DeliveredFrom(msgs[1..], k + 1, connected, fails)
  }

  /** What a run of publishes of `msgs` that stops at its first failure hands over. */
  function Delivered(msgs: seq<Message>, connected: bool, fails: nat -> bool): seq<Message>
  {
    DeliveredFrom(msgs, 0, connected, fails)
  }

  /** One attempt of the run: it hands over its message and goes on, or stops the run. */
  lemma DeliveredFromCons(msg: Message, rest: seq<Message>, k: nat, connected: bool, fails: nat -> bool)
    ensures DeliveredFrom([msg] + rest, k, connected, fails)
            == if !connected || fails(k) then [] else [msg] + DeliveredFrom(rest, k + 1, connected, fails)
  {
    assert ([msg] + rest)[1..] == rest;
  }

  /** The run hands over a prefix of its messages: every attempt in it went through, and
      a shorter prefix means the attempt right after it failed. */
  lemma {:induction false} DeliveredFromPrefix(msgs: seq<Message>, k: nat, connected: bool, fails: nat -> bool)
    ensures var d := DeliveredFrom(msgs, k, connected, fails);
      && |d| <= |msgs| && d == msgs[..|d|]
      && (forall j :: k <= j < k + |d| ==> connected && !fails(j))
      && (|d| < |msgs| ==> !connected || fails(k + |d|))
    decreases |msgs|
  {
    if msgs != [] && connected && !fails(k) {
      DeliveredFromPrefix(msgs[1..], k + 1, connected, fails);
      var d := DeliveredFrom(msgs[1..], k + 1, connected, fails);
      assert [msgs[0]] + d == msgs[..|d| + 1];
    }
  }

  /** A run delivers exactly its messages before the first failed attempt: the first `n`
      messages when attempts `0 .. n - 1` go through and attempt `n` fails (or `n` is all
      of them). */
  lemma DeliveredPrefix(msgs: seq<Message>, connected: bool, fails: nat -> bool)
    ensures var d := Delivered(msgs, connected, fails);
      && |d| <= |msgs| && d == msgs[..|d|]
      && (forall j :: 0 <= j < |d| ==> connected && !fails(j))
      && (|d| < |msgs| ==> !connected || fails(|d|))
  {
    DeliveredFromPrefix(msgs, 0, connected, fails);
  }

  class Client {
    /** Whether the connection is up; paho fails every publish while it is down. */
    var connected: bool
    /** Every message handed over to the broker, oldest first. */
    var outbox: seq<Message>
    /** Every topic subscribed to, in order. */
    var subscriptions: seq<string>

    constructor (connected: bool)
      ensures this.connected == connected && outbox == [] && subscriptions == []
    {
      this.connected := connected;
      outbox := [];
      subscriptions := [];
    }

    /** `Publish(topic, 0, false, payload)` followed by `token.Wait()` and `token.Error()`:
        succeeds exactly when connected and the token reports no error (`fails` says it
        does), and only then is the message handed over. */
    method Publish(topic: string, payload: Payload, fails: bool) returns (ok: bool)
      modifies this`outbox
      ensures ok == (connected && !fails)
      ensures outbox == old(outbox) + (if ok then [Message(topic, payload)] else [])
    {
      ok := connected && !fails;
      if ok {
        outbox := outbox + [Message(topic, payload)];
      }
    }

    /** `Subscribe(topic, 0, handler)`; the hub never checks the returned token. */
    method Subscribe(topic: string)
      modifies this`subscriptions
      ensures subscriptions == old(subscriptions) + [topic]
    {
      subscriptions := subscriptions + [topic];
    }
  }
}
