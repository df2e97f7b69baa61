/** The imperative half of services/cron.go: the job each schedule runs, the start-up
    loop that arms every stored schedule, and `ScheduleCronMap`, which links a schedule's
    database id to the id of its cron entry. */
module Scheduler {
  import opened Wrappers
  import opened Json
  import opened Models
  import opened Bus
  import opened CronTime
  import opened CronEngine
  import opened Tables
  import opened Database

  /** The package-level `ScheduleCronMap`: schedule id to cron entry id. */
  class CronService {
    var scheduleCronMap: map<int, int>

    constructor ()
      ensures scheduleCronMap == map[]
    {
      scheduleCronMap := map[];
    }
  }

  /** The command a schedule sends when it fires: `{property: commandData}` to the set
      topic of its device. */
  function CronMessage(s: Schedule): (m: Message)
    ensures SetTopicDevice(m.topic) == Some(s.ieeeName)
    ensures m.payload.Keys == {s.expose.property} && Get(m.payload, s.expose.property) == Str(s.commandData)
  {
    SetTopicDeviceOfSetTopic(s.ieeeName);
    Message(SetTopic(s.ieeeName), Single(s.expose.property, Str(s.commandData)))
  }

  /** The job `CronFunc(schedule, client)` returns, run once: it sends the schedule's command
      only while `DevMap` knows the device's name, and the publish goes through when the
      client is connected and the token reports no error (`fails` says it does). */
  method CronFire(store: Store, client: Client, s: Schedule, fails: bool) returns (sent: bool)
    modifies client`outbox
    ensures sent <==> s.ieeeName in store.devMap && client.connected && !fails
    ensures client.outbox == old(client.outbox) + (if sent then [CronMessage(s)] else [])
  {
    if s.ieeeName !in store.devMap {
      return false;
    }
    var m := CronMessage(s);
    sent := client.Publish(m.topic, m.payload, fails);
  }

  /** The cron spec for time `t`: minute, hour, day of month and month fixed, any day of
      the week (`CronStringParses` shows it is what the cron string of `t` parses to). */
  function SpecOf(t: ValidTime): CronSpec
  {
    CronSpec(At(t.minute), At(t.hour), At(t.day), At(t.month), Every)
  }

  /** The job registered for schedule `s` stored at time `t`: the schedule with its cron
      string set, under the spec of that time. */
  function EntryFor(s: Schedule, t: ValidTime): Entry
  {
    Entry(SpecOf(t), s.(cronTime := CronString(t)))
  }

  /** The cron entries of a sequence of registered jobs: the `k`-th gets id `k + 1`. */
  function EntryMap(es: seq<Entry>): map<int, Entry>
  {
    if es == [] then map[] else EntryMap(es[..|es| - 1])[|es| := es[|es| - 1]]
  }

  /** Entry ids run from 1 to the number of jobs, each naming its job. */
  lemma {:induction false} EntryMapIds(es: seq<Entry>)
    ensures forall id :: id in EntryMap(es) <==> 1 <= id <= |es|
    ensures forall id :: id in EntryMap(es) ==> EntryMap(es)[id] == es[id - 1]
  {
    if es != [] {
      var front := es[..|es| - 1];
      EntryMapIds(front);
      assert forall k :: 0 <= k < |front| ==> front[k] == es[k];
    }
  }

  lemma EntryMapSnoc(es: seq<Entry>, e: Entry)
    ensures EntryMap(es + [e]) == EntryMap(es)[|es| + 1 := e]
  {
    assert (es + [e])[..|es|] == es;
  }

  /** What the start-up loop leaves behind: `ScheduleCronMap`, the jobs registered with the
      new cron in order, and whether it got through every schedule. */
  datatype Boot = Boot(cronMap: map<int, int>, entries: seq<Entry>, ok: bool)

  /** How the loop turns a schedule and its parsed time into a job (`EntryFor`). */
  type Arm = (Schedule, ValidTime) -> Entry

  /** The start-up loop from position `i`, with `entries` registered so far: a schedule whose
      stored time mark does not parse ends the loop with an error; any other is armed,
      registered under the next entry id, and its database id is mapped to that entry id. */
  function BootFrom(cronMap: map<int, int>, entries: seq<Entry>, ss: seq<Schedule>, i: nat,
                    parseTime: string -> Option<ValidTime>, arm: Arm): Boot
    requires i <= |ss|
    decreases |ss| - i
  {
    if i == |ss| then Boot(cronMap, entries, true)
    else match parseTime(ss[i].timeMark)
      case None => Boot(cronMap, entries, false)
      case Some(t) =>
        BootFrom(cronMap[ss[i].id := |entries| + 1], entries + [arm(ss[i], t)], ss, i + 1, parseTime, arm)
  }

  /** The start-up loop over the loaded schedules. */
  function Boot0(cronMap: map<int, int>, ss: seq<Schedule>, parseTime: string -> Option<ValidTime>): Boot
  {
    BootFrom(cronMap, [], ss, 0, parseTime, EntryFor)
  }

  /** The job armed for a schedule runs that schedule, as `EntryFor`'s does. */
  ghost predicate KeepsId(arm: Arm)
  {
    forall s, t :: arm(s, t).job.id == s.id
  }

  lemma EntryForKeepsId()
    ensures KeepsId(EntryFor)
  {
    forall s, t ensures EntryFor(s, t).job.id == s.id {
    }
  }

  /** Every key of `cronMap` either still holds its value from `before`, or names the entry
      that runs the schedule with that id. */
  ghost predicate Linked(cronMap: map<int, int>, entries: seq<Entry>, before: map<int, int>)
  {
    forall id :: id in cronMap ==>
      (id in before && cronMap[id] == before[id])
      || (1 <= cronMap[id] <= |entries| && entries[cronMap[id] - 1].job.id == id)
  }

  /** The jobs of `es` from position `from` on are those armed for the schedules at the same
      positions shifted by `shift`, each with a time mark that parses. */
  ghost predicate Armed(es: seq<Entry>, from: nat, ss: seq<Schedule>, shift: int,
                        parseTime: string -> Option<ValidTime>, arm: Arm)
  {
    forall k :: from <= k < |es| ==> ArmedAt(es, k, ss, shift, parseTime, arm)
  }

  /** The job at position `k` is the one armed for the schedule at `k + shift`. */
  ghost predicate ArmedAt(es: seq<Entry>, k: nat, ss: seq<Schedule>, shift: int,
                          parseTime: string -> Option<ValidTime>, arm: Arm)
    requires k < |es|
  {
    0 <= k + shift < |ss| && parseTime(ss[k + shift].timeMark).Some?
    && es[k] == arm(ss[k + shift], parseTime(ss[k + shift].timeMark).value)
  }

  /** The loop gets through exactly when every stored time mark parses. */
  lemma {:induction false} BootFromOk(cronMap: map<int, int>, entries: seq<Entry>, ss: seq<Schedule>, i: nat,
                                      parseTime: string -> Option<ValidTime>, arm: Arm)
    requires i <= |ss|
    ensures var ok := BootFrom(cronMap, entries, ss, i, parseTime, arm).ok;
      ok <==> forall j :: i <= j < |ss| ==> parseTime(ss[j].timeMark).Some?
    decreases |ss| - i
  {
    if i < |ss| && parseTime(ss[i].timeMark).Some? {
      var t := parseTime(ss[i].timeMark).value;
      BootFromOk(cronMap[ss[i].id := |entries| + 1], entries + [arm(ss[i], t)], ss, i + 1, parseTime, arm);
    }
  }

  /** The loop keeps the link between schedule ids and entries. */
  lemma {:induction false} BootFromLinked(cronMap: map<int, int>, entries: seq<Entry>, ss: seq<Schedule>, i: nat,
                                          parseTime: string -> Option<ValidTime>, arm: Arm, before: map<int, int>)
    requires i <= |ss|
    requires KeepsId(arm)
    requires Linked(cronMap, entries, before)
    ensures var b := BootFrom(cronMap, entries, ss, i, parseTime, arm);
      Linked(b.cronMap, b.entries, before)
    decreases |ss| - i
  {
    if i < |ss| && parseTime(ss[i].timeMark).Some? {
      var t := parseTime(ss[i].timeMark).value;
      var e := arm(ss[i], t);
      var m', es' := cronMap[ss[i].id := |entries| + 1], entries + [e];
      forall id | id in m'
        ensures (id in before && m'[id] == before[id]) || (1 <= m'[id] <= |es'| && es'[m'[id] - 1].job.id == id)
      {
        if id != ss[i].id {
          assert m'[id] == cronMap[id];
          if !(id in before && cronMap[id] == before[id]) {
            assert es'[cronMap[id] - 1] == entries[cronMap[id] - 1];
          }
        }
      }
      BootFromLinked(m', es', ss, i + 1, parseTime, arm, before);
    }
  }

  /** The jobs registered before stay in front, and each schedule adds at most one job. */
  lemma {:induction false} BootFromPrefix(cronMap: map<int, int>, entries: seq<Entry>, ss: seq<Schedule>, i: nat,
                                          parseTime: string -> Option<ValidTime>, arm: Arm)
    requires i <= |ss|
    ensures var b := BootFrom(cronMap, entries, ss, i, parseTime, arm);
      && |entries| <= |b.entries| <= |entries| + |ss| - i
      && b.entries[..|entries|] == entries
    decreases |ss| - i
  {
    if i < |ss| && parseTime(ss[i].timeMark).Some? {
      var es' := entries + [arm(ss[i], parseTime(ss[i].timeMark).value)];
      BootFromPrefix(cronMap[ss[i].id := |entries| + 1], es', ss, i + 1, parseTime, arm);
      var b := BootFrom(cronMap, entries, ss, i, parseTime, arm);
      assert b.entries[..|es'|][..|entries|] == b.entries[..|entries|];
    } else {
      assert entries[..|entries|] == entries;
    }
  }

  /** The `k`-th job registered from position `i` on is the one armed for the schedule at
      `i + k`. */
  lemma {:induction false} BootFromEntries(cronMap: map<int, int>, entries: seq<Entry>, ss: seq<Schedule>, i: nat,
                                           parseTime: string -> Option<ValidTime>, arm: Arm)
    requires i <= |ss|
    ensures Armed(BootFrom(cronMap, entries, ss, i, parseTime, arm).entries, |entries|, ss, i - |entries|, parseTime, arm)
    decreases |ss| - i
  {
    if i < |ss| && parseTime(ss[i].timeMark).Some? {
      var e := arm(ss[i], parseTime(ss[i].timeMark).value);
      var es' := entries + [e];
      BootFromEntries(cronMap[ss[i].id := |entries| + 1], es', ss, i + 1, parseTime, arm);
      BootFromPrefix(cronMap[ss[i].id := |entries| + 1], es', ss, i + 1, parseTime, arm);
      var b := BootFrom(cronMap, entries, ss, i, parseTime, arm);
      assert b == BootFrom(cronMap[ss[i].id := |entries| + 1], es', ss, i + 1, parseTime, arm);
      assert b.entries[|entries|] == b.entries[..|es'|][|entries|] == e;
      ArmedCons(b.entries, |entries|, ss, i - |entries|, parseTime, arm);
    }
  }

  /** `Armed` from one position on follows from `Armed` from the next and the job at that
      position. */
  lemma ArmedCons(es: seq<Entry>, from: nat, ss: seq<Schedule>, shift: int,
                  parseTime: string -> Option<ValidTime>, arm: Arm)
    requires Armed(es, from + 1, ss, shift, parseTime, arm)
    requires from < |es| ==> ArmedAt(es, from, ss, shift, parseTime, arm)
    ensures Armed(es, from, ss, shift, parseTime, arm)
  {
    forall k | from <= k < |es|
      ensures ArmedAt(es, k, ss, shift, parseTime, arm)
    {
      if k > from {
        assert from + 1 <= k < |es|;
      }
    }
  }

  /** A run that stops early stops at a time mark that does not parse. */
  lemma {:induction false} BootStopsAt(cronMap: map<int, int>, entries: seq<Entry>, ss: seq<Schedule>, i: nat,
                                       parseTime: string -> Option<ValidTime>, arm: Arm)
    requires i <= |ss|
    ensures |entries| <= |BootFrom(cronMap, entries, ss, i, parseTime, arm).entries|
    ensures var b := BootFrom(cronMap, entries, ss, i, parseTime, arm);
      |b.entries| < |entries| + |ss| - i ==>
        !b.ok && parseTime(ss[i + |b.entries| - |entries|].timeMark).None?
    decreases |ss| - i
  {
    if i < |ss| && parseTime(ss[i].timeMark).Some? {
      var t := parseTime(ss[i].timeMark).value;
      BootStopsAt(cronMap[ss[i].id := |entries| + 1], entries + [arm(ss[i], t)], ss, i + 1, parseTime, arm);
    }
  }

  /** `ScheduleCronMap` after mapping the ids of `xs` in order to the entry ids from
      `base + 1` on: a later schedule with the same id overwrites an earlier one. */
  function Remap(m: map<int, int>, xs: seq<Schedule>, base: int): map<int, int>
    decreases |xs|
  {
    if xs == [] then m else Remap(m[xs[0].id := base + 1], xs[1..], base + 1)
  }

  /** The keys become the old keys plus the ids of `xs`. */
  lemma {:induction false} RemapKeys(m: map<int, int>, xs: seq<Schedule>, base: int)
    ensures Remap(m, xs, base).Keys == m.Keys + (set x | x in xs :: x.id)
    decreases |xs|
  {
    if xs != [] {
      RemapKeys(m[xs[0].id := base + 1], xs[1..], base + 1);
      assert (set x | x in xs :: x.id) == {xs[0].id} + (set x | x in xs[1..] :: x.id) by {
        assert xs == [xs[0]] + xs[1..];
      }
    }
  }

  /** A key that no schedule of `xs` has keeps its value. */
  lemma {:induction false} RemapKept(m: map<int, int>, xs: seq<Schedule>, base: int, id: int)
    requires id in m && forall j :: 0 <= j < |xs| ==> xs[j].id != id
    ensures id in Remap(m, xs, base) && Remap(m, xs, base)[id] == m[id]
    decreases |xs|
  {
    if xs != [] {
      assert forall j :: 0 <= j < |xs[1..]| ==> xs[1..][j] == xs[j + 1];
      RemapKept(m[xs[0].id := base + 1], xs[1..], base + 1, id);
    }
  }

  /** The id of the `j`-th schedule, when no later schedule of `xs` has it, maps to entry
      `base + j + 1`. */
  lemma {:induction false} RemapLast(m: map<int, int>, xs: seq<Schedule>, base: int, j: nat)
    requires j < |xs| && forall l :: j < l < |xs| ==> xs[l].id != xs[j].id
    ensures xs[j].id in Remap(m, xs, base) && Remap(m, xs, base)[xs[j].id] == base + j + 1
    decreases |xs|
  {
    var m' := m[xs[0].id := base + 1];
    if j == 0 {
      assert forall l :: 0 <= l < |xs[1..]| ==> xs[1..][l] == xs[l + 1];
      RemapKept(m', xs[1..], base + 1, xs[0].id);
    } else {
      assert xs[1..][j - 1] == xs[j];
      forall l | j - 1 < l < |xs[1..]| ensures xs[1..][l].id != xs[1..][j - 1].id {
        assert xs[1..][l] == xs[l + 1];
      }
      RemapLast(m', xs[1..], base + 1, j - 1);
    }
  }

  /** The loop's map is the old one remapped by the schedules it armed. */
  lemma {:induction false} BootFromRemap(cronMap: map<int, int>, entries: seq<Entry>, ss: seq<Schedule>, i: nat,
                                         parseTime: string -> Option<ValidTime>, arm: Arm)
    requires i <= |ss|
    ensures var b := BootFrom(cronMap, entries, ss, i, parseTime, arm);
      && |entries| <= |b.entries| <= |entries| + |ss| - i
      && b.cronMap == Remap(cronMap, ss[i..i + |b.entries| - |entries|], |entries|)
    decreases |ss| - i
  {
    var b := BootFrom(cronMap, entries, ss, i, parseTime, arm);
    if i < |ss| && parseTime(ss[i].timeMark).Some? {
      var e := arm(ss[i], parseTime(ss[i].timeMark).value);
      var m', es' := cronMap[ss[i].id := |entries| + 1], entries + [e];
      assert b == BootFrom(m', es', ss, i + 1, parseTime, arm);
      BootFromRemap(m', es', ss, i + 1, parseTime, arm);
      var n := |b.entries| - |entries|;
      var xs := ss[i..i + n];
      assert xs[0] == ss[i] && xs[1..] == ss[i + 1..i + 1 + |b.entries| - |es'|];
    } else {
      assert ss[i..i] == [];
    }
  }

  /** How start-up changes `ScheduleCronMap`: the ids of the armed schedules become keys,
      each mapped to the entry of its last occurrence among them (entry `j + 1` for the
      `j`-th schedule), and every other key keeps its value. */
  lemma BootMap(cronMap: map<int, int>, ss: seq<Schedule>, parseTime: string -> Option<ValidTime>)
    ensures var b := Boot0(cronMap, ss, parseTime);
      && |b.entries| <= |ss|
      && b.cronMap.Keys == cronMap.Keys + (set x | x in ss[..|b.entries|] :: x.id)
      && (forall j :: 0 <= j < |b.entries| && (forall l :: j < l < |b.entries| ==> ss[l].id != ss[j].id)
            ==> ss[j].id in b.cronMap && b.cronMap[ss[j].id] == j + 1)
      && (forall id :: id in cronMap && (forall j :: 0 <= j < |b.entries| ==> ss[j].id != id)
            ==> id in b.cronMap && b.cronMap[id] == cronMap[id])
  {
    var b := Boot0(cronMap, ss, parseTime);
    BootRemap(cronMap, ss, parseTime);
    RemapPrefix(cronMap, ss, |b.entries|);
  }

  /** Start-up's map is the old one remapped by the schedules it armed. */
  lemma BootRemap(cronMap: map<int, int>, ss: seq<Schedule>, parseTime: string -> Option<ValidTime>)
    ensures var b := Boot0(cronMap, ss, parseTime);
      |b.entries| <= |ss| && b.cronMap == Remap(cronMap, ss[..|b.entries|], 0)
  {
    var b := Boot0(cronMap, ss, parseTime);
    BootFromRemap(cronMap, [], ss, 0, parseTime, EntryFor);
    assert ss[0..0 + |b.entries| - 0] == ss[..|b.entries|];
  }

  /** `Remap` by the first `n` schedules of `ss`, stated over `ss` itself. */
  lemma RemapPrefix(m: map<int, int>, ss: seq<Schedule>, n: nat)
    requires n <= |ss|
    ensures var r := Remap(m, ss[..n], 0);
      && r.Keys == m.Keys + (set x | x in ss[..n] :: x.id)
      && (forall j :: 0 <= j < n && (forall l :: j < l < n ==> ss[l].id != ss[j].id)
            ==> ss[j].id in r && r[ss[j].id] == j + 1)
      && (forall id :: id in m && (forall j :: 0 <= j < n ==> ss[j].id != id)
            ==> id in r && r[id] == m[id])
  {
    var xs := ss[..n];
    var r := Remap(m, xs, 0);
    RemapKeys(m, xs, 0);
    forall j | 0 <= j < n && (forall l :: j < l < n ==> ss[l].id != ss[j].id)
      ensures ss[j].id in r && r[ss[j].id] == j + 1
    {
      assert xs[j] == ss[j];
      forall l | j < l < |xs| ensures xs[l].id != xs[j].id {
        assert xs[l] == ss[l];
      }
      RemapLast(m, xs, 0, j);
    }
    forall id | id in m && (forall j :: 0 <= j < n ==> ss[j].id != id)
      ensures id in r && r[id] == m[id]
    {
      forall j | 0 <= j < |xs| ensures xs[j].id != id {
        assert xs[j] == ss[j];
      }
      RemapKept(m, xs, 0, id);
    }
  }

  /** Start-up arms every schedule, in order, or stops with an error at the first stored
      time mark that does not parse; the `k`-th job is the `k`-th schedule with its cron
      string set, and every schedule id it mapped names the entry that runs that schedule. */
  lemma BootOutcome(cronMap: map<int, int>, ss: seq<Schedule>, parseTime: string -> Option<ValidTime>)
    ensures var b := Boot0(cronMap, ss, parseTime);
      && (b.ok <==> forall j :: 0 <= j < |ss| ==> parseTime(ss[j].timeMark).Some?)
      && |b.entries| <= |ss|
      && (b.ok ==> |b.entries| == |ss|)
      && Armed(b.entries, 0, ss, 0, parseTime, EntryFor)
      && Linked(b.cronMap, b.entries, cronMap)
  {
    var b := Boot0(cronMap, ss, parseTime);
    assert b.ok <==> forall j :: 0 <= j < |ss| ==> parseTime(ss[j].timeMark).Some? by {
      BootFromOk(cronMap, [], ss, 0, parseTime, EntryFor);
    }
    assert |b.entries| <= |ss| by {
      BootFromPrefix(cronMap, [], ss, 0, parseTime, EntryFor);
    }
    assert b.ok ==> |b.entries| == |ss| by {
      if b.ok && |b.entries| < |ss| {
        BootStopsAt(cronMap, [], ss, 0, parseTime, EntryFor);
      }
    }
    assert Armed(b.entries, 0, ss, 0, parseTime, EntryFor) by {
      BootFromEntries(cronMap, [], ss, 0, parseTime, EntryFor);
    }
    assert Linked(b.cronMap, b.entries, cronMap) by {
      EntryForKeepsId();
      BootFromLinked(cronMap, [], ss, 0, parseTime, EntryFor, cronMap);
    }
  }

  /** `InitCronService`: load the schedules (a load error returns nil), then for each one
      parse its stored time mark as RFC 3339 (`parseTime`; an error returns nil, keeping the
      ids mapped so far), turn it into a cron string, register `CronFunc` for it and map its
      id to the new entry id; after the loop, start the cron. */
  method InitCronService(store: Store, svc: CronService, codec: Codec,
                         parseTime: string -> Option<ValidTime>, queryFails: bool)
    returns (c: Cron?)
    modifies svc`scheduleCronMap
    ensures var loaded := if queryFails then None else LoadSchedules(store.db, codec);
      && (loaded.None? ==> c == null && svc.scheduleCronMap == old(svc.scheduleCronMap))
      && (loaded.Some? ==>
            var b := Boot0(old(svc.scheduleCronMap), loaded.value, parseTime);
            && svc.scheduleCronMap == b.cronMap
            && (c != null <==> b.ok)
            && (c != null ==> fresh(c) && c.Valid() && c.running && c.entries == EntryMap(b.entries)))
  {
    var loaded := store.GetSchedules(codec, queryFails);
    if loaded.None? {
      return null;
    }
    var ss := loaded.value;
    ghost var arm: Arm := EntryFor;
    ghost var b := BootFrom(svc.scheduleCronMap, [], ss, 0, parseTime, arm);
    var cron := new Cron();
    ghost var entries: seq<Entry> := [];
    var i := 0;
    while i < |ss|
      invariant 0 <= i <= |ss|
      invariant fresh(cron) && cron.Valid() && !cron.running
      invariant cron.entries == EntryMap(entries) && cron.lastId == |entries|
      invariant BootFrom(svc.scheduleCronMap, entries, ss, i, parseTime, arm) == b
    {
      var t := parseTime(ss[i].timeMark);
      if t.None? {
        return null;
      }
      var id, ok := ArmSchedule(cron, ss[i], t.value, entries);
      if !ok {
        return null;
      }
      svc.scheduleCronMap := svc.scheduleCronMap[ss[i].id := id];
      entries := entries + [arm(ss[i], t.value)];
      i := i + 1;
    }
    cron.Start();
    c := cron;
  }

  /** One schedule of `InitCronService` whose time mark parsed to `t`: format `t` with the
      layout, turn that into a cron string and register the schedule's job under it. Both
      steps report errors, but neither can fail on a parsed time. */
  method ArmSchedule(cron: Cron, s: Schedule, t: ValidTime, ghost entries: seq<Entry>) returns (id: int, ok: bool)
    requires cron.Valid() && cron.entries == EntryMap(entries) && cron.lastId == |entries|
    modifies cron`entries, cron`lastId
    ensures cron.Valid() && ok
    ensures id == |entries| + 1 && cron.lastId == id
    ensures cron.entries == EntryMap(entries + [EntryFor(s, t)])
  {
    EntryMapSnoc(entries, EntryFor(s, t));
    ApplyCronTimeFormatOfFormat(t);
    var cronTime := ApplyCronTimeFormat(FormatLayout(t));
    if cronTime.None? {
      return 0, false;
    }
    CronStringParses(t);
    id, ok := cron.AddFunc(cronTime.value, s.(cronTime := cronTime.value));
  }
}
