/** What the persistence operations of database/database.go guarantee about the tables. */
module TableFacts {
  import opened Wrappers
  import opened Json
  import opened Models
  import opened Tables

  // ---------------------------------------------------------------------------------
  // Helpers about the lookups

  lemma AddressesAppend(rows: seq<DeviceRow>, r: DeviceRow)
    ensures Addresses(rows + [r]) == Addresses(rows) + {r.ieeeAddress}
  {
    var rs := rows + [r];
    forall x | x in Addresses(rs) ensures x in Addresses(rows) + {r.ieeeAddress} {
      var i :| 0 <= i < |rs| && rs[i].ieeeAddress == x;
      if i < |rows| { assert rs[i] == rows[i]; }
    }
    forall x | x in Addresses(rows) ensures x in Addresses(rs) {
      var i :| 0 <= i < |rows| && rows[i].ieeeAddress == x;
      assert rs[i] == rows[i];
    }
    assert rs[|rows|] == r;
  }

  lemma {:induction false} ExposesOfAppend(a: seq<ExposeRow>, b: seq<ExposeRow>, x: int)
    ensures ExposesOf(a + b, x) == ExposesOf(a, x) + ExposesOf(b, x)
  {
    if a == [] {
      assert a + b == b;
    } else {
      assert (a + b)[0] == a[0];
      assert (a + b)[1..] == a[1..] + b;
      var h := if a[0].definitionId == x then [a[0].expose] else [];
      var ra, rb := ExposesOf(a[1..], x), ExposesOf(b, x);
      assert ExposesOf(a + b, x) == h + ExposesOf(a[1..] + b, x);
      assert ExposesOf(a, x) == h + ra;
      ExposesOfAppend(a[1..], b, x);
      assert h + (ra + rb) == (h + ra) + rb;
    }
  }

  lemma {:induction false} ExposesOfNone(rows: seq<ExposeRow>, x: int)
    requires forall i :: 0 <= i < |rows| ==> rows[i].definitionId != x
    ensures ExposesOf(rows, x) == []
  {
    if rows != [] {
      ExposesOfNone(rows[1..], x);
    }
  }

  lemma {:induction false} ExposesOfRowsOf(x: int, es: seq<Expose>)
    ensures ExposesOf(ExposeRowsOf(x, es), x) == es
  {
    if es != [] {
      var rows := ExposeRowsOf(x, es);
      assert rows[1..] == ExposeRowsOf(x, es[1..]);
      ExposesOfRowsOf(x, es[1..]);
    }
  }

  // ---------------------------------------------------------------------------------
  // One device

  lemma SaveDeviceExtends(t: Tables, d: ZigbeeDevice, f: Option<Step>)
    ensures Extends(t, SaveDevice(t, d, f).db)
  {
  }

  /** The expose rows one step appends all reference the definition it inserts. */
  lemma SaveDeviceExposeIds(t: Tables, d: ZigbeeDevice, f: Option<Step>)
    ensures var u := SaveDevice(t, d, f).db;
      forall m :: |t.exposeRows| <= m < |u.exposeRows| ==> u.exposeRows[m].definitionId == |t.definitions| + 1
  {
    var u := SaveDevice(t, d, f).db;
    if |u.exposeRows| > |t.exposeRows| {
      var es := d.definition.exposes;
      var k := if f.Some? && f.value.ExposeInsert? && f.value.j < |es| then f.value.j else |es|;
      var added := ExposeRowsOf(|t.definitions| + 1, es[..k]);
      assert u.exposeRows == t.exposeRows + added;
      forall m | |t.exposeRows| <= m < |u.exposeRows|
        ensures u.exposeRows[m].definitionId == |t.definitions| + 1
      {
        assert u.exposeRows[m] == added[m - |t.exposeRows|];
      }
    }
  }

  lemma SaveDeviceWellFormed(t: Tables, d: ZigbeeDevice, f: Option<Step>)
    requires WellFormed(t)
    ensures WellFormed(SaveDevice(t, d, f).db)
  {
    var u := SaveDevice(t, d, f).db;
    if |u.deviceRows| > |t.deviceRows| {
      assert d.ieeeAddress !in Addresses(t.deviceRows);
      assert u.deviceRows == t.deviceRows + [DeviceRowOf(d, |t.definitions| + 1)];
    }
  }

  /** Saving one device whose address is not stored yet, with no failure, adds exactly
      one device row, linked to a fresh definition that carries the device's exposes. */
  lemma SaveDeviceNew(t: Tables, d: ZigbeeDevice)
    requires WellFormed(t)
    requires !HasDevice(t, d.ieeeAddress)
    ensures var o := SaveDevice(t, d, None);
      && !o.failed
      && o.db.deviceRows == t.deviceRows + [DeviceRowOf(d, |t.definitions| + 1)]
      && ExposesOf(o.db.exposeRows, |t.definitions| + 1) == d.definition.exposes
  {
    var x := |t.definitions| + 1;
    var es := d.definition.exposes;
    assert es[..|es|] == es;
    ExposesOfNone(t.exposeRows, x);
    ExposesOfAppend(t.exposeRows, ExposeRowsOf(x, es), x);
    ExposesOfRowsOf(x, es);
  }

  /** A step without failure never reports an error and adds the device's address. */
  lemma SaveDeviceAddresses(t: Tables, d: ZigbeeDevice)
    ensures var o := SaveDevice(t, d, None);
      !o.failed && Addresses(o.db.deviceRows) == Addresses(t.deviceRows) + {d.ieeeAddress}
  {
    var o := SaveDevice(t, d, None);
    var es := d.definition.exposes;
    if !HasDevice(t, d.ieeeAddress) {
      AddressesAppend(t.deviceRows, DeviceRowOf(d, |t.definitions| + 1));
    }
  }

  // ---------------------------------------------------------------------------------
  // The loop

  lemma {:induction false} SaveFromExtends(t: Tables, ds: seq<ZigbeeDevice>, i: nat, fault: SaveFault)
    requires i <= |ds|
    ensures Extends(t, SaveFrom(t, ds, i, fault).db)
    decreases |ds| - i
  {
    if i < |ds| {
      var o := SaveDevice(t, ds[i], StepAt(fault, i));
      SaveDeviceExtends(t, ds[i], StepAt(fault, i));
      if !o.failed {
        SaveFromExtends(o.db, ds, i + 1, fault);
        ExtendsTransitive(t, o.db, SaveFrom(o.db, ds, i + 1, fault).db);
      }
    }
  }

  lemma {:induction false} SaveFromWellFormed(t: Tables, ds: seq<ZigbeeDevice>, i: nat, fault: SaveFault)
    requires i <= |ds|
    requires WellFormed(t)
    ensures WellFormed(SaveFrom(t, ds, i, fault).db)
    decreases |ds| - i
  {
    if i < |ds| {
      var o := SaveDevice(t, ds[i], StepAt(fault, i));
      SaveDeviceWellFormed(t, ds[i], StepAt(fault, i));
      if !o.failed {
        SaveFromWellFormed(o.db, ds, i + 1, fault);
      }
    }
  }

  /** Whatever fails and wherever, `SaveDevices` only appends to the definitions, device
      and exposes tables (a failure rolls nothing back, since the inserts run outside the
      transaction), leaves the other tables alone, and keeps the tables well formed:
      addresses unique and every device row linked to its definition. */
  lemma SaveDevicesKeepsTables(t: Tables, ds: seq<ZigbeeDevice>, fault: SaveFault)
    requires WellFormed(t)
    ensures Extends(t, SaveDevicesSpec(t, ds, fault).db)
    ensures WellFormed(SaveDevicesSpec(t, ds, fault).db)
  {
    if !fault.BeginFails? {
      SaveFromExtends(t, ds, 0, fault);
      SaveFromWellFormed(t, ds, 0, fault);
    }
  }

  lemma {:induction false} SaveFromAddresses(t: Tables, ds: seq<ZigbeeDevice>, i: nat, fault: SaveFault)
    requires i <= |ds|
    requires fault.NoFault? || fault.CommitFails?
    ensures SaveFrom(t, ds, i, fault).failed == fault.CommitFails?
    ensures Addresses(SaveFrom(t, ds, i, fault).db.deviceRows)
         == Addresses(t.deviceRows) + (set j | i <= j < |ds| :: ds[j].ieeeAddress)
    decreases |ds| - i
  {
    if i < |ds| {
      assert StepAt(fault, i) == None;
      var o := SaveDevice(t, ds[i], None);
      SaveDeviceAddresses(t, ds[i]);
      SaveFromAddresses(o.db, ds, i + 1, fault);
      SuffixAddresses(ds, i);
    }
  }

  lemma SuffixAddresses(ds: seq<ZigbeeDevice>, i: nat)
    requires i < |ds|
    ensures (set j | i <= j < |ds| :: ds[j].ieeeAddress)
         == {ds[i].ieeeAddress} + (set j | i + 1 <= j < |ds| :: ds[j].ieeeAddress)
  {
  }

  /** Without a failed statement, `SaveDevices` stores every address of the list and no
      other, and reports an error exactly when the commit fails. */
  lemma SaveDevicesAddresses(t: Tables, ds: seq<ZigbeeDevice>, fault: SaveFault)
    requires fault.NoFault? || fault.CommitFails?
    ensures SaveDevicesSpec(t, ds, fault).failed == fault.CommitFails?
    ensures Addresses(SaveDevicesSpec(t, ds, fault).db.deviceRows) == Addresses(t.deviceRows) + ListAddresses(ds)
  {
    SaveFromAddresses(t, ds, 0, fault);
    assert (set j | 0 <= j < |ds| :: ds[j].ieeeAddress) == ListAddresses(ds);
  }

  /** Every device row added by `SaveDevices` holds a device of the list, one column off. */
  predicate RowsFrom(t: Tables, u: Tables, ds: seq<ZigbeeDevice>)
  {
    forall k :: |t.deviceRows| <= k < |u.deviceRows| ==>
      exists j :: 0 <= j < |ds| && IsRowOf(u.deviceRows[k], ds[j])
  }

  lemma {:induction false} SaveFromRows(t: Tables, ds: seq<ZigbeeDevice>, i: nat, fault: SaveFault)
    requires i <= |ds|
    ensures RowsFrom(t, SaveFrom(t, ds, i, fault).db, ds)
    decreases |ds| - i
  {
    if i < |ds| {
      var o := SaveDevice(t, ds[i], StepAt(fault, i));
      if !o.failed {
        var u := SaveFrom(o.db, ds, i + 1, fault).db;
        SaveFromRows(o.db, ds, i + 1, fault);
        SaveFromExtends(o.db, ds, i + 1, fault);
        forall k | |t.deviceRows| <= k < |u.deviceRows|
          ensures exists j :: 0 <= j < |ds| && IsRowOf(u.deviceRows[k], ds[j])
        {
          if k < |o.db.deviceRows| {
            assert u.deviceRows[k] == o.db.deviceRows[k];
            assert IsRowOf(u.deviceRows[k], ds[i]);
          }
        }
      }
    }
  }

  /** Whatever fails, each device row `SaveDevices` adds holds a device of the list in
      the shifted column layout: the type lands in `friendly_name`, the manufacturer in
      `type_dev`, the model id in `manufacturer` and the description in `model_id`. */
  lemma SaveDevicesRowShape(t: Tables, ds: seq<ZigbeeDevice>, fault: SaveFault)
    ensures RowsFrom(t, SaveDevicesSpec(t, ds, fault).db, ds)
  {
    if !fault.BeginFails? {
      SaveFromRows(t, ds, 0, fault);
    }
  }

  /** Every expose row of `u` past those of `t` references a definition `t` does not have. */
  predicate FreshExposes(t: Tables, u: Tables)
  {
    forall m :: |t.exposeRows| <= m < |u.exposeRows| ==> u.exposeRows[m].definitionId > |t.definitions|
  }

  lemma {:induction false} SaveFromFreshExposes(t: Tables, ds: seq<ZigbeeDevice>, i: nat, fault: SaveFault)
    requires i <= |ds|
    ensures FreshExposes(t, SaveFrom(t, ds, i, fault).db)
    decreases |ds| - i
  {
    if i < |ds| {
      var o := SaveDevice(t, ds[i], StepAt(fault, i));
      if !o.failed {
        var u := SaveFrom(o.db, ds, i + 1, fault).db;
        SaveFromFreshExposes(o.db, ds, i + 1, fault);
        SaveFromExtends(o.db, ds, i + 1, fault);
        SaveDeviceExtends(t, ds[i], StepAt(fault, i));
        SaveDeviceExposeIds(t, ds[i], StepAt(fault, i));
        assert |o.db.definitions| >= |t.definitions|;
        assert u.exposeRows[..|o.db.exposeRows|] == o.db.exposeRows;
        forall m | |t.exposeRows| <= m < |u.exposeRows|
          ensures u.exposeRows[m].definitionId > |t.definitions|
        {
          if m < |o.db.exposeRows| {
            assert u.exposeRows[m] == u.exposeRows[..|o.db.exposeRows|][m] == o.db.exposeRows[m];
            assert o.db.exposeRows[m].definitionId == |t.definitions| + 1;
          } else {
            assert u.exposeRows[m].definitionId > |o.db.definitions|;
          }
        }
      }
    }
  }

  /** `row` holds `d`, and in `u` its definition holds exactly `d`'s exposes. */
  predicate HoldsDevice(u: Tables, row: DeviceRow, d: ZigbeeDevice)
  {
    IsRowOf(row, d) && ExposesOf(u.exposeRows, row.definitionId) == d.definition.exposes
  }

  /** Some device of the list is held by `row`. */
  predicate StoredRow(u: Tables, row: DeviceRow, ds: seq<ZigbeeDevice>)
  {
    exists j :: 0 <= j < |ds| && HoldsDevice(u, row, ds[j])
  }

  /** Each added device row is a device of the list whose definition holds its exposes. */
  predicate StoredWithExposes(t: Tables, u: Tables, ds: seq<ZigbeeDevice>)
  {
    forall k :: |t.deviceRows| <= k < |u.deviceRows| ==> StoredRow(u, u.deviceRows[k], ds)
  }

  /** The device row and exposes one step writes survive the rest of the loop. */
  lemma SaveFromKeepsNewDevice(t: Tables, ds: seq<ZigbeeDevice>, i: nat)
    requires i < |ds|
    requires WellFormed(t)
    requires !HasDevice(t, ds[i].ieeeAddress)
    ensures var u := SaveFrom(SaveDevice(t, ds[i], None).db, ds, i + 1, NoFault).db;
      |u.deviceRows| > |t.deviceRows| && HoldsDevice(u, u.deviceRows[|t.deviceRows|], ds[i])
  {
    var x := |t.definitions| + 1;
    var o := SaveDevice(t, ds[i], None);
    var u := SaveFrom(o.db, ds, i + 1, NoFault).db;
    SaveDeviceNew(t, ds[i]);
    SaveFromExtends(o.db, ds, i + 1, NoFault);
    SaveFromFreshExposes(o.db, ds, i + 1, NoFault);
    var extra := u.exposeRows[|o.db.exposeRows|..];
    assert u.exposeRows == o.db.exposeRows + extra;
    assert |o.db.definitions| == x;
    forall m | 0 <= m < |extra| ensures extra[m].definitionId != x {
      assert extra[m] == u.exposeRows[|o.db.exposeRows| + m];
      assert FreshExposes(o.db, u);
    }
    ExposesOfNone(extra, x);
    ExposesOfAppend(o.db.exposeRows, extra, x);
    var k := |t.deviceRows|;
    assert u.deviceRows[k] == o.db.deviceRows[k] == DeviceRowOf(ds[i], x);
  }

  /** The step case of `SaveFromStoresExposes`, over the facts it needs. */
  lemma StoredStep(t: Tables, o: Tables, u: Tables, ds: seq<ZigbeeDevice>, i: nat)
    requires i < |ds|
    requires StoredWithExposes(o, u, ds)
    requires |t.deviceRows| <= |o.deviceRows| <= |t.deviceRows| + 1 && |o.deviceRows| <= |u.deviceRows|
    requires |o.deviceRows| == |t.deviceRows| + 1 ==> HoldsDevice(u, u.deviceRows[|t.deviceRows|], ds[i])
    ensures StoredWithExposes(t, u, ds)
  {
    forall k | |t.deviceRows| <= k < |u.deviceRows|
      ensures StoredRow(u, u.deviceRows[k], ds)
    {
      if k < |o.deviceRows| {
        assert k == |t.deviceRows|;
        assert HoldsDevice(u, u.deviceRows[k], ds[i]);
      }
    }
  }

  /** How far one failure-free step moves: at most one device row, and only for an
      address not stored yet. */
  lemma SaveDeviceStep(t: Tables, ds: seq<ZigbeeDevice>, i: nat)
    requires i < |ds|
    ensures var o := SaveDevice(t, ds[i], None).db;
      && SaveFrom(t, ds, i, NoFault) == SaveFrom(o, ds, i + 1, NoFault)
      && |t.deviceRows| <= |o.deviceRows| <= |t.deviceRows| + 1
      && (|o.deviceRows| > |t.deviceRows| ==> !HasDevice(t, ds[i].ieeeAddress))
  {
    assert StepAt(NoFault, i) == None;
    SaveDeviceAddresses(t, ds[i]);
  }

  lemma {:induction false} SaveFromStoresExposes(t: Tables, ds: seq<ZigbeeDevice>, i: nat)
    requires i <= |ds|
    requires WellFormed(t)
    ensures StoredWithExposes(t, SaveFrom(t, ds, i, NoFault).db, ds)
    decreases |ds| - i
  {
    if i < |ds| {
      var o := SaveDevice(t, ds[i], None).db;
      SaveDeviceStep(t, ds, i);
      SaveDeviceWellFormed(t, ds[i], None);
      var u := SaveFrom(o, ds, i + 1, NoFault).db;
      SaveFromStoresExposes(o, ds, i + 1);
      SaveFromExtends(o, ds, i + 1, NoFault);
      if |o.deviceRows| > |t.deviceRows| {
        SaveFromKeepsNewDevice(t, ds, i);
      }
      StoredStep(t, o, u, ds, i);
    }
  }

  /** With no failure, every device row `SaveDevices` adds holds a device of the list, and
      the definition it points to holds exactly that device's exposes, in order. */
  lemma SaveDevicesStoresExposes(t: Tables, ds: seq<ZigbeeDevice>)
    requires WellFormed(t)
    ensures StoredWithExposes(t, SaveDevicesSpec(t, ds, NoFault).db, ds)
  {
    SaveFromStoresExposes(t, ds, 0);
  }

  lemma {:induction false} SaveFromFaultPrefix(t: Tables, ds: seq<ZigbeeDevice>, i: nat, j: nat, s: Step)
    requires j <= i <= |ds|
    ensures !SaveFrom(t, ds[..i], j, NoFault).failed
    ensures Extends(SaveFrom(t, ds[..i], j, NoFault).db, SaveFrom(t, ds, j, FailAt(i, s)).db)
    decreases i - j
  {
    if j == i {
      SaveFromExtends(t, ds, j, FailAt(i, s));
    } else {
      assert ds[..i][j] == ds[j];
      assert StepAt(NoFault, j) == None && StepAt(FailAt(i, s), j) == None;
      SaveDeviceAddresses(t, ds[j]);
      SaveFromFaultPrefix(SaveDevice(t, ds[j], None).db, ds, i, j + 1, s);
    }
  }

  /** A failure in the statements of the device at position `i` keeps everything a
      failure-free save of the first `i` devices would have written. */
  lemma SaveDevicesFaultKeepsPrefix(t: Tables, ds: seq<ZigbeeDevice>, i: nat, s: Step)
    requires i <= |ds|
    ensures Extends(SaveDevicesSpec(t, ds[..i], NoFault).db, SaveDevicesSpec(t, ds, FailAt(i, s)).db)
  {
    SaveFromFaultPrefix(t, ds, i, 0, s);
  }

  lemma {:induction false} SaveFromKnown(t: Tables, ds: seq<ZigbeeDevice>, i: nat)
    requires i <= |ds|
    requires forall j :: i <= j < |ds| ==> ds[j].ieeeAddress in Addresses(t.deviceRows)
    ensures SaveFrom(t, ds, i, NoFault) == Saved(t, false)
    decreases |ds| - i
  {
    if i < |ds| {
      assert StepAt(NoFault, i) == None;
      SaveFromKnown(t, ds, i + 1);
    }
  }

  /** Saving the same device list twice writes nothing the second time. */
  lemma SaveDevicesIdempotent(t: Tables, ds: seq<ZigbeeDevice>)
    ensures var r := SaveDevicesSpec(t, ds, NoFault).db;
      SaveDevicesSpec(r, ds, NoFault) == Saved(r, false)
  {
    var r := SaveDevicesSpec(t, ds, NoFault).db;
    SaveDevicesAddresses(t, ds, NoFault);
    forall j | 0 <= j < |ds| ensures ds[j].ieeeAddress in Addresses(r.deviceRows) {
      assert ds[j].ieeeAddress in ListAddresses(ds);
    }
    SaveFromKnown(r, ds, 0);
  }

  // ---------------------------------------------------------------------------------
  // Telemetry history

  /** `SavePublishedDataFromDevice` errors out, writing nothing, when the device is not
      stored or `Begin` or the insert fails; otherwise it appends one row, which a failed
      commit does not remove, and keeps the tables well formed. */
  lemma SaveTelemetryOutcome(t: Tables, a: string, raw: string, fault: TxFault)
    requires WellFormed(t)
    ensures var o := SaveTelemetry(t, a, raw, fault);
      && (!HasDevice(t, a) || fault == TxBeginFails || fault == TxInsertFails ==> o == Saved(t, true))
      && (HasDevice(t, a) && (fault == NoTxFault || fault == TxCommitFails) ==>
            o.db == t.(telemetryRows := t.telemetryRows + [TelemetryRow(DeviceId(t, a).value, raw)])
            && o.failed == (fault == TxCommitFails))
      && WellFormed(o.db)
  {
  }

  /** The payload a telemetry save writes is what `GetExposesDataFromDevice` reads back
      for that device: the newest row wins. */
  lemma SaveTelemetryThenRead(t: Tables, codec: Codec, a: string, raw: string, fault: TxFault)
    requires HasDevice(t, a)
    requires fault == NoTxFault || fault == TxCommitFails
    ensures ExposesDataFromDevice(SaveTelemetry(t, a, raw, fault).db, codec, a) == codec.decodePayload(raw)
  {
    var u := SaveTelemetry(t, a, raw, fault).db;
    var id := DeviceId(t, a).value;
    assert DeviceId(u, a) == Some(id);
    assert u.telemetryRows[|u.telemetryRows| - 1] == TelemetryRow(id, raw);
  }

  // ---------------------------------------------------------------------------------
  // Schedules and scenarios

  lemma MapAllAppend<R, S>(rows: seq<R>, x: R, f: R -> Option<S>)
    requires MapAll(rows, f).Some? && f(x).Some?
    ensures MapAll(rows + [x], f) == Some(MapAll(rows, f).value + [f(x).value])
  {
    var rs := rows + [x];
    var ys := MapAll(rows, f).value + [f(x).value];
    forall i | 0 <= i < |rs| ensures f(rs[i]).Some? && ys[i] == f(rs[i]).value {
      if i < |rows| { assert rs[i] == rows[i]; } else { assert rs[i] == x; }
    }
    assert MapAll(rs, f).value == ys;
  }

  lemma MapAllSame<R, S>(rows: seq<R>, f: R -> Option<S>, g: R -> Option<S>)
    requires forall i :: 0 <= i < |rows| ==> f(rows[i]) == g(rows[i])
    ensures MapAll(rows, f) == MapAll(rows, g)
  {
    if MapAll(rows, f).Some? {
      assert MapAll(rows, f).value == MapAll(rows, g).value;
    }
  }

  lemma MapAllCons<R, S>(x: R, rest: seq<R>, f: R -> Option<S>)
    ensures MapAll([x] + rest, f)
         == if f(x).Some? && MapAll(rest, f).Some? then Some([f(x).value] + MapAll(rest, f).value) else None
  {
    assert ([x] + rest)[0] == x;
    assert ([x] + rest)[1..] == rest;
  }

  lemma {:induction false} MapAllFilter<R(!new), S(!new)>(rows: seq<R>, f: R -> Option<S>, keep: R -> bool, keepS: S -> bool)
    requires MapAll(rows, f).Some?
    requires forall r :: f(r).Some? ==> keep(r) == keepS(f(r).value)
    ensures MapAll(Filter(rows, keep), f) == Some(Filter(MapAll(rows, f).value, keepS))
  {
    if rows != [] {
      var x, tail := rows[0], rows[1..];
      var xs := MapAll(rows, f).value;
      MapAllCons(x, tail, f);
      assert rows == [x] + tail;
      assert f(x).Some?;
      var y, ys := f(x).value, MapAll(tail, f).value;
      assert xs == [y] + ys;
      assert keepS(y) == keep(x);
      MapAllFilter(tail, f, keep, keepS);
      FilterCons(y, ys, keepS);
      FilterCons(x, tail, keep);
      if keep(x) {
        MapAllCons(x, Filter(tail, keep), f);
        assert Filter(rows, keep) == [x] + Filter(tail, keep);
        assert Filter(xs, keepS) == [y] + Filter(ys, keepS);
      } else {
        assert Filter(rows, keep) == Filter(tail, keep);
        assert Filter(xs, keepS) == Filter(ys, keepS);
      }
    }
  }

  /** `Filter` keeps exactly the elements that pass. */
  lemma {:induction false} FilterMembers<R(!new)>(rows: seq<R>, keep: R -> bool)
    ensures forall x :: x in Filter(rows, keep) <==> x in rows && keep(x)
  {
    if rows != [] {
      FilterMembers(rows[1..], keep);
      FilterCons(rows[0], rows[1..], keep);
      assert rows == [rows[0]] + rows[1..];
    }
  }

  lemma FilterCons<R(!new)>(x: R, rest: seq<R>, keep: R -> bool)
    ensures Filter([x] + rest, keep) == (if keep(x) then [x] else []) + Filter(rest, keep)
  {
    assert ([x] + rest)[0] == x;
    assert ([x] + rest)[1..] == rest;
  }

  /** The loaders only read the device table's addresses, which the schedule and scenario
      operations leave alone. */
  lemma SameDevicesSameRows(t: Tables, u: Tables, codec: Codec)
    requires u.deviceRows == t.deviceRows
    ensures forall r :: ScheduleOfRow(u, codec, r) == ScheduleOfRow(t, codec, r)
    ensures forall r :: ScenarioOfRow(u, codec, r) == ScenarioOfRow(t, codec, r)
  {
    forall r: ScheduleRow ensures ScheduleOfRow(u, codec, r) == ScheduleOfRow(t, codec, r) {
      assert AddressOf(u, r.deviceId) == AddressOf(t, r.deviceId);
    }
    forall r: ScenarioRow ensures ScenarioOfRow(u, codec, r) == ScenarioOfRow(t, codec, r) {
      assert AddressOf(u, r.deviceId) == AddressOf(t, r.deviceId);
    }
  }

  /** `SaveScheduleData` fails, writing nothing, exactly when the device is unknown or the
      insert fails; otherwise it appends one row under an id no stored row has. */
  lemma SaveScheduleRowOutcome(t: Tables, s: Schedule, fails: bool)
    requires WellFormed(t)
    ensures var (u, r) := SaveScheduleRow(t, s, fails);
      && (r.None? <==> fails || !HasDevice(t, s.ieeeName))
      && (r.None? ==> u == t)
      && (r.Some? ==>
            && (forall i :: 0 <= i < |t.scheduleRows| ==> t.scheduleRows[i].id != r.value)
            && u == t.(scheduleRows := t.scheduleRows
                         + [ScheduleRow(r.value, DeviceId(t, s.ieeeName).value, s.command, s.commandData, s.timeMark)],
                       lastScheduleId := r.value))
      && WellFormed(u)
  {
    var (u, r) := SaveScheduleRow(t, s, fails);
    if r.Some? {
      var dev := DeviceId(t, s.ieeeName).value;
      var row := ScheduleRow(r.value, dev, s.command, s.commandData, s.timeMark);
      assert u.scheduleRows == t.scheduleRows + [row];
      forall i | 0 <= i < |u.scheduleRows|
        ensures 1 <= u.scheduleRows[i].id <= u.lastScheduleId && 1 <= u.scheduleRows[i].deviceId <= |u.deviceRows|
      {
        if i < |t.scheduleRows| { assert u.scheduleRows[i] == t.scheduleRows[i]; }
      }
    }
  }

  /** A schedule saved with `SaveScheduleData` comes back from `GetSchedules` after the
      ones already stored, with its new id, its device's id, and no cron time. */
  lemma SaveThenLoadSchedules(t: Tables, codec: Codec, s: Schedule, xs: seq<Schedule>)
    requires LoadSchedules(t, codec) == Some(xs)
    requires codec.decodeExpose(s.command) == Some(s.expose)
    requires SaveScheduleRow(t, s, false).1.Some?
    ensures var (u, r) := SaveScheduleRow(t, s, false);
      LoadSchedules(u, codec) == Some(xs + [s.(id := r.value, deviceId := DeviceId(t, s.ieeeName).value, cronTime := "")])
  {
    var (u, r) := SaveScheduleRow(t, s, false);
    var dev := DeviceId(t, s.ieeeName).value;
    var row := ScheduleRow(r.value, dev, s.command, s.commandData, s.timeMark);
    SameDevicesSameRows(t, u, codec);
    var f := (x: ScheduleRow) => ScheduleOfRow(u, codec, x);
    MapAllSame(t.scheduleRows, f, (x: ScheduleRow) => ScheduleOfRow(t, codec, x));
    MapAllSame(u.scheduleRows, f, (x: ScheduleRow) => ScheduleOfRow(u, codec, x));
    assert f(row) == Some(s.(id := r.value, deviceId := dev, cronTime := ""));
    MapAllAppend(t.scheduleRows, row, f);
  }

  /** After `DeleteSchedule(id)`, `GetSchedules` returns what it returned before minus
      the schedules with that id, in the same order. */
  lemma DeleteThenLoadSchedules(t: Tables, codec: Codec, id: int, xs: seq<Schedule>)
    requires LoadSchedules(t, codec) == Some(xs)
    ensures LoadSchedules(DeleteScheduleRows(t, id), codec) == Some(Filter(xs, (s: Schedule) => s.id != id))
    ensures forall s :: s in Filter(xs, (s: Schedule) => s.id != id) <==> s in xs && s.id != id
  {
    FilterMembers(xs, (s: Schedule) => s.id != id);
    var u := DeleteScheduleRows(t, id);
    SameDevicesSameRows(t, u, codec);
    var f := (x: ScheduleRow) => ScheduleOfRow(t, codec, x);
    MapAllFilter(t.scheduleRows, f, (r: ScheduleRow) => r.id != id, (s: Schedule) => s.id != id);
    MapAllSame(u.scheduleRows, f, (x: ScheduleRow) => ScheduleOfRow(u, codec, x));
  }

  /** Looking a device up by address and by id are inverse: with addresses unique, the id
      found for an address gives that address back, and the address of an id finds it. */
  lemma AddressOfDeviceId(t: Tables, a: string, id: int)
    requires UniqueAddresses(t.deviceRows)
    ensures DeviceId(t, a) == Some(id) <==> AddressOf(t, id) == Some(a)
  {
    if AddressOf(t, id) == Some(a) {
      var k := DeviceId(t, a).value;
      assert t.deviceRows[k - 1].ieeeAddress == t.deviceRows[id - 1].ieeeAddress;
    }
  }

  /** `SaveScenario` fails, writing nothing, exactly when the source device is unknown or
      the insert fails; otherwise it appends one row under an id no stored row has, which
      holds the scenario's fields, the id of its source device and its encoded action, and
      changes nothing else. */
  lemma SaveScenarioRowOutcome(t: Tables, codec: Codec, s: Scenario, fails: bool)
    requires WellFormed(t)
    ensures var (u, r) := SaveScenarioRow(t, codec, s, fails);
      && (r.None? <==> fails || !HasDevice(t, s.ieeeNameInitDevice))
      && (r.None? ==> u == t)
      && (r.Some? ==>
            && (forall i :: 0 <= i < |t.scenarioRows| ==> t.scenarioRows[i].id != r.value)
            && |u.scenarioRows| == |t.scenarioRows| + 1 && u.scenarioRows[..|t.scenarioRows|] == t.scenarioRows
            && (var row := u.scenarioRows[|t.scenarioRows|];
                && row.id == r.value && AddressOf(u, row.deviceId) == Some(s.ieeeNameInitDevice)
                && row.property == s.exposesProperty && row.operator == s.operator
                && row.valueComp == s.exposesValue && row.publishTopic == s.publishTopic
                && row.actionPayload == codec.encodePayload(s.actionPayload))
            && u == t.(scenarioRows := u.scenarioRows, lastScenarioId := r.value))
      && WellFormed(u)
  {
    var (u, r) := SaveScenarioRow(t, codec, s, fails);
    if r.Some? {
      var dev := DeviceId(t, s.ieeeNameInitDevice).value;
      var row := ScenarioRow(r.value, dev, s.exposesProperty, s.operator, s.exposesValue, s.publishTopic,
                             codec.encodePayload(s.actionPayload));
      assert u.scenarioRows == t.scenarioRows + [row];
      forall i | 0 <= i < |u.scenarioRows|
        ensures 1 <= u.scenarioRows[i].id <= u.lastScenarioId && 1 <= u.scenarioRows[i].deviceId <= |u.deviceRows|
      {
        if i < |t.scenarioRows| { assert u.scenarioRows[i] == t.scenarioRows[i]; }
      }
      assert u.scenarioRows[..|t.scenarioRows|] == t.scenarioRows;
    }
  }

  /** A scenario saved with `SaveScenario` comes back from `GetScenarios` after the ones
      already stored, with its new id and its source device's id, provided the codec reads
      back the action payload it wrote. */
  lemma SaveThenLoadScenarios(t: Tables, codec: Codec, s: Scenario, xs: seq<Scenario>)
    requires LoadScenarios(t, codec) == Some(xs)
    requires codec.decodePayload(codec.encodePayload(s.actionPayload)) == Some(s.actionPayload)
    requires SaveScenarioRow(t, codec, s, false).1.Some?
    ensures var (u, r) := SaveScenarioRow(t, codec, s, false);
      LoadScenarios(u, codec) == Some(xs + [s.(id := r.value, deviceId := DeviceId(t, s.ieeeNameInitDevice).value)])
  {
    var (u, r) := SaveScenarioRow(t, codec, s, false);
    var dev := DeviceId(t, s.ieeeNameInitDevice).value;
    var row := ScenarioRow(r.value, dev, s.exposesProperty, s.operator, s.exposesValue, s.publishTopic,
                           codec.encodePayload(s.actionPayload));
    SameDevicesSameRows(t, u, codec);
    var f := (x: ScenarioRow) => ScenarioOfRow(u, codec, x);
    MapAllSame(t.scenarioRows, f, (x: ScenarioRow) => ScenarioOfRow(t, codec, x));
    MapAllSame(u.scenarioRows, f, (x: ScenarioRow) => ScenarioOfRow(u, codec, x));
    assert f(row) == Some(s.(id := r.value, deviceId := dev));
    MapAllAppend(t.scenarioRows, row, f);
  }

  /** After `DELETE FROM scenarios WHERE id = $1`, the reload returns what it returned
      before minus the scenarios with that id, in the same order. */
  lemma DeleteThenLoadScenarios(t: Tables, codec: Codec, id: int, xs: seq<Scenario>)
    requires LoadScenarios(t, codec) == Some(xs)
    ensures LoadScenarios(DeleteScenarioRows(t, id), codec) == Some(Filter(xs, (s: Scenario) => s.id != id))
    ensures forall s :: s in Filter(xs, (s: Scenario) => s.id != id) <==> s in xs && s.id != id
  {
    FilterMembers(xs, (s: Scenario) => s.id != id);
    var u := DeleteScenarioRows(t, id);
    SameDevicesSameRows(t, u, codec);
    var f := (x: ScenarioRow) => ScenarioOfRow(t, codec, x);
    MapAllFilter(t.scenarioRows, f, (r: ScenarioRow) => r.id != id, (s: Scenario) => s.id != id);
    MapAllSame(u.scenarioRows, f, (x: ScenarioRow) => ScenarioOfRow(u, codec, x));
  }

  /** Deleting schedule or scenario rows keeps the tables well formed. */
  lemma DeleteRowsWellFormed(t: Tables, id: int)
    requires WellFormed(t)
    ensures WellFormed(DeleteScheduleRows(t, id)) && WellFormed(DeleteScenarioRows(t, id))
  {
    var u, v := DeleteScheduleRows(t, id), DeleteScenarioRows(t, id);
    FilterMembers(t.scheduleRows, (r: ScheduleRow) => r.id != id);
    FilterMembers(t.scenarioRows, (r: ScenarioRow) => r.id != id);
    forall i | 0 <= i < |u.scheduleRows|
      ensures 1 <= u.scheduleRows[i].id <= u.lastScheduleId && 1 <= u.scheduleRows[i].deviceId <= |u.deviceRows|
    {
      assert u.scheduleRows[i] in t.scheduleRows;
    }
    forall i | 0 <= i < |v.scenarioRows|
      ensures 1 <= v.scenarioRows[i].id <= v.lastScenarioId && 1 <= v.scenarioRows[i].deviceId <= |v.deviceRows|
    {
      assert v.scenarioRows[i] in t.scenarioRows;
    }
  }

  /** Whatever was loaded before, once the rows with an id are deleted no scenario the
      reload returns has that id. */
  lemma DeletedScenarioGone(t: Tables, codec: Codec, id: int)
    ensures var r := LoadScenarios(DeleteScenarioRows(t, id), codec);
      r.Some? ==> forall k :: 0 <= k < |r.value| ==> r.value[k].id != id
  {
    var u := DeleteScenarioRows(t, id);
    FilterMembers(t.scenarioRows, (r: ScenarioRow) => r.id != id);
    var r := LoadScenarios(u, codec);
    if r.Some? {
      forall k | 0 <= k < |r.value| ensures r.value[k].id != id {
        assert u.scenarioRows[k] in u.scenarioRows;
      }
    }
  }
}
